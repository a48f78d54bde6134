/** `parse_hex_key` of `src/crypto/encryption.rs`. */
module HexKeys {
  import opened Wrappers
  import opened Bytes
  import opened Text
  import Utf8

  const KEY_SIZE: nat := 32

  /** How a call ends: with a key, with an error, or by slicing a string in the middle of a character. */
  datatype KeyOutcome = Parsed(key: seq<byte>) | Refused(error: string) | Panics

  function DigitOf(b: byte): nat {
    DigitValue((b as int) as char)
  }

  /** `u8::from_str_radix(_, 16)` on a slice of two bytes: a leading plus sign is allowed. */
  function PairValue(a: byte, b: byte): Option<byte> {
    if a == 0x2B then (if DigitOf(b) < 16 then Some(DigitOf(b) as byte) else None)
    else if DigitOf(a) < 16 && DigitOf(b) < 16 then Some((16 * DigitOf(a) + DigitOf(b)) as byte)
    else None
  }

  predicate IsDigit(b: byte, n: nat) {
    n < 16 && (b as int == "0123456789abcdef"[n] as int || b as int == "0123456789ABCDEF"[n] as int)
  }

  lemma DigitOfExact(b: byte, n: nat)
    ensures IsDigit(b, n) <==> n < 16 && DigitOf(b) == n
  {
    if n < 16 {
      DigitTable(n);
    }
  }

  /** Two digits of either case, the more significant one first, or a plus sign and one digit. */
  lemma PairExact(a: byte, b: byte, v: byte)
    ensures PairValue(a, b) == Some(v) <==>
      (IsDigit(a, (v / 16) as nat) && IsDigit(b, (v % 16) as nat)) || (a as int == '+' as int && IsDigit(b, v as nat))
  {
    DigitOfExact(a, (v / 16) as nat);
    DigitOfExact(b, (v % 16) as nat);
    DigitOfExact(b, v as nat);
    hide DigitOf, IsDigit;
  }

  /** `str::is_char_boundary`. */
  predicate IsBoundary(value: seq<byte>, k: nat)
    requires k <= |value|
  {
    k == |value| || !Utf8.IsTail(value[k])
  }

  /** The key that `value` spells, pair by pair. */
  predicate Spells(value: seq<byte>, key: seq<byte>) {
    && |value| == 2 * |key|
    && forall i | 0 <= i < |key| :: PairValue(value[2 * i], value[2 * i + 1]) == Some(key[i])
  }

  /** The loop gets as far as pair `i`, which begins or ends inside a character. */
  predicate CutsAt(value: seq<byte>, i: nat)
    requires |value| == 2 * KEY_SIZE
  {
    && i < KEY_SIZE
    && !(IsBoundary(value, 2 * i) && IsBoundary(value, 2 * i + 2))
    && forall k | 0 <= k < i :: PairValue(value[2 * k], value[2 * k + 1]).Some?
  }

  predicate CutsCharacter(value: seq<byte>) {
    |value| == 2 * KEY_SIZE && exists i | 0 <= i < KEY_SIZE :: CutsAt(value, i)
  }

  /** Everything that is spelled is ASCII, so no slice of it cuts a character. */
  lemma SpelledIsAscii(value: seq<byte>, i: nat)
    requires 2 * i + 1 < |value| && PairValue(value[2 * i], value[2 * i + 1]).Some?
    ensures value[2 * i] < 0x80 && value[2 * i + 1] < 0x80
  {
  }

  lemma BadPairSpoils(value: seq<byte>, i: nat)
    requires |value| == 2 * KEY_SIZE && i < KEY_SIZE && PairValue(value[2 * i], value[2 * i + 1]).None?
    ensures forall key: seq<byte> | |key| == KEY_SIZE :: !Spells(value, key)
  {
    forall key: seq<byte> | |key| == KEY_SIZE
      ensures !Spells(value, key)
    {
      assert PairValue(value[2 * i], value[2 * i + 1]) != Some(key[i]);
    }
  }

  /** If the first bad pair is sliced at character boundaries, nothing is cut. */
  lemma BadPairStops(value: seq<byte>, i: nat)
    requires |value| == 2 * KEY_SIZE && i < KEY_SIZE && PairValue(value[2 * i], value[2 * i + 1]).None?
    requires forall k | 0 <= k <= i :: IsBoundary(value, 2 * k) && IsBoundary(value, 2 * k + 2)
    ensures !CutsCharacter(value)
  {
  }

  lemma CutPairSpoils(value: seq<byte>, i: nat)
    requires |value| == 2 * KEY_SIZE && i < KEY_SIZE && !(IsBoundary(value, 2 * i) && IsBoundary(value, 2 * i + 2))
    ensures forall key: seq<byte> | |key| == KEY_SIZE :: !Spells(value, key)
  {
    forall key: seq<byte> | |key| == KEY_SIZE
      ensures !Spells(value, key)
    {
      if Spells(value, key) {
        SpelledIsAscii(value, i);
        if i + 1 < KEY_SIZE {
          assert PairValue(value[2 * (i + 1)], value[2 * (i + 1) + 1]) == Some(key[i + 1]);
          SpelledIsAscii(value, i + 1);
        }
        assert false;
      }
    }
  }

  /** For every text: returns exactly the key it spells, panics exactly when a character is cut, and
      refuses everything else. */
  method ParseHexKey(text: string) returns (r: KeyOutcome)
    ensures var value := Utf8.Encode(Trim(text));
      && (r.Parsed? ==> |r.key| == 32 && Spells(value, r.key))
      && (!r.Parsed? ==> forall key: seq<byte> | |key| == 32 :: !Spells(value, key))
      && (r.Panics? <==> CutsCharacter(value))
      && (r.Refused? ==> r.error == if |value| == 64 then "key contains invalid hexadecimal characters"
                                    else "key must contain exactly 64 hexadecimal characters")
  {
    hide Utf8.Encode, Trim, PairValue, Utf8.IsTail;
    var value := Utf8.Encode(Trim(text));
    if |value| != KEY_SIZE * 2 {
      return Refused("key must contain exactly 64 hexadecimal characters");
    }
    var key := new byte[KEY_SIZE](_ => 0);
    for i := 0 to KEY_SIZE
      invariant forall k | 0 <= k < i :: PairValue(value[2 * k], value[2 * k + 1]) == Some(key[k])
      invariant forall k | 0 <= k < i :: IsBoundary(value, 2 * k) && IsBoundary(value, 2 * k + 2)
    {
      var start, end := i * 2, i * 2 + 2;
      if !IsBoundary(value, start) || !IsBoundary(value, end) {
        CutPairSpoils(value, i);
        assert CutsAt(value, i);
        return Panics;
      }
      var pair := PairValue(value[start], value[start + 1]);
      if pair.None? {
        BadPairSpoils(value, i);
        BadPairStops(value, i);
        return Refused("key contains invalid hexadecimal characters");
      }
      key[i] := pair.value;
    }
    r := Parsed(key[..]);
  }

  /** A text spells at most one key. */
  lemma SpellsOne(value: seq<byte>, a: seq<byte>, b: seq<byte>)
    requires Spells(value, a) && Spells(value, b)
    ensures a == b
  {
    assert |a| == |b|;
    forall i | 0 <= i < |a|
      ensures a[i] == b[i]
    {
      assert PairValue(value[2 * i], value[2 * i + 1]) == Some(a[i]);
    }
  }

  // ---- Printed keys

  lemma {:induction false} HexIsAscii(bytes: seq<byte>)
    ensures Utf8.IsAscii(Hex(bytes)) && forall c | c in Hex(bytes) :: !IsWhitespace(c)
  {
    if bytes != [] {
      HexIsAscii(bytes[1..]);
    }
  }

  lemma PrintedByte(b: byte)
    ensures var s := HexByte(b); PairValue((s[0] as int) as byte, (s[1] as int) as byte) == Some(b)
  {
    DigitValueOfHexDigit((b / 16) as nat);
    DigitValueOfHexDigit((b % 16) as nat);
  }

  /** A printed key spells itself. */
  lemma PrintedKeySpells(key: seq<byte>)
    ensures Spells(Utf8.Encode(Hex(key)), key)
  {
    HexIsAscii(key);
    Utf8.AsciiBytes(Hex(key));
    hide Utf8.Encode, Hex, HexByte, PairValue, IsWhitespace;
    var s, value := Hex(key), Utf8.Encode(Hex(key));
    forall i | 0 <= i < |key|
      ensures PairValue(value[2 * i], value[2 * i + 1]) == Some(key[i])
    {
      HexAt(key, i);
      PrintedByte(key[i]);
      assert value[2 * i] as int == s[2 * i] as int && value[2 * i + 1] as int == s[2 * i + 1] as int;
    }
  }

  /** Parsing undoes printing, for every key and with any whitespace around it. */
  method ParsePrintedKey(key: seq<byte>, left: string, right: string) returns (r: KeyOutcome)
    requires |key| == 32 && forall c | c in left + right :: IsWhitespace(c)
    ensures r == Parsed(key)
  {
    var s := Hex(key);
    r := ParseHexKey(left + s + right);
    hide Hex, Utf8.Encode, TrimStart, TrimEnd, PairValue;
    assert Trim(left + s + right) == s by {
      HexIsAscii(key);
      assert s[0] in s && s[|s| - 1] in s;
      assert forall c | c in left :: c in left + right;
      assert forall c | c in right :: c in left + right;
      TrimExact(left, s, right);
    }
    PrintedKeySpells(key);
    SpellsOne(Utf8.Encode(s), r.key, key);
  }

  // ---- What else is accepted

  /** The error message asks for hexadecimal characters; what is accepted consists of them exactly
      when it contains no plus sign. */
  lemma OnlyDigitsUnlessPlus(text: string, key: seq<byte>)
    requires |key| == 32 && Spells(Utf8.Encode(Trim(text)), key)
    ensures (forall c | c in Trim(text) :: DigitValue(c) < 16) <==> '+' !in Trim(text)
  {
    var s, value := Trim(text), Utf8.Encode(Trim(text));
    hide Utf8.Encode, Trim;
    forall k | 0 <= k < |value|
      ensures value[k] < 0x80 && (DigitOf(value[k]) < 16 || value[k] == 0x2B)
    {
      assert PairValue(value[2 * (k / 2)], value[2 * (k / 2) + 1]) == Some(key[k / 2]);
    }
    Utf8.AsciiBytes(s);
    forall k | 0 <= k < |s|
      ensures DigitValue(s[k]) < 16 <==> s[k] != '+'
    {
      assert value[k] as int == s[k] as int;
    }
  }

  const PLUS_TEXT: string := seq(64, i => if i % 2 == 0 then '+' else '0')

  lemma PlusTextSpellsZero()
    ensures Trim(PLUS_TEXT) == PLUS_TEXT && Spells(Utf8.Encode(PLUS_TEXT), seq(KEY_SIZE, _ => 0))
  {
    hide Utf8.Encode, Trim, TrimStart, TrimEnd;
    var s, value := PLUS_TEXT, Utf8.Encode(PLUS_TEXT);
    Utf8.AsciiBytes(s);
    assert forall i | 0 <= i < |value| :: value[i] == if i % 2 == 0 then 0x2B else 0x30;
    TrimExact("", s, "");
    assert "" + s + "" == s;
  }

  /** Such a text with plus signs exists: "+0", thirty-two times, is read as the zero key. */
  method ParsePlusKey() returns (r: KeyOutcome)
    ensures PLUS_TEXT[0] == '+' && r == Parsed(seq(KEY_SIZE, _ => 0))
  {
    PlusTextSpellsZero();
    hide Utf8.Encode, Trim, Spells;
    r := ParseHexKey(PLUS_TEXT);
    SpellsOne(Utf8.Encode(PLUS_TEXT), r.key, seq(KEY_SIZE, _ => 0));
  }

  /** ASCII texts are never cut. */
  lemma AsciiNeverPanics(text: string)
    requires Utf8.IsAscii(Trim(text))
    ensures !CutsCharacter(Utf8.Encode(Trim(text)))
  {
    Utf8.AsciiBytes(Trim(text));
    hide Utf8.Encode, Trim, PairValue;
    var value := Utf8.Encode(Trim(text));
  }

  lemma {:induction false} EncodeEuros(n: nat)
    ensures |Utf8.Encode(seq(n, _ => '\U{20AC}'))| == 3 * n
    ensures n > 0 ==> Utf8.Encode(seq(n, _ => '\U{20AC}'))[..3] == [0xE2, 0x82, 0xAC]
  {
    var s := seq(n, _ => '\U{20AC}');
    if n > 0 {
      EncodeEuros(n - 1);
      assert s[1..] == seq(n - 1, _ => '\U{20AC}');
      assert Utf8.EncodeChar('\U{20AC}') == [0xE2, 0x82, 0xAC];
    }
  }

  const EUROS: string := seq(21, _ => '\U{20AC}')

  lemma EurosAreCut()
    ensures Trim("a" + EUROS) == "a" + EUROS && CutsCharacter(Utf8.Encode("a" + EUROS))
  {
    var text := "a" + EUROS;
    TrimExact("", text, "");
    assert "" + text + "" == text;
    hide Trim, TrimStart, TrimEnd, IsWhitespace, CutsCharacter;
    EncodeEuros(21);
    assert text[1..] == EUROS && Utf8.EncodeChar('a') == [0x61];
    var value := Utf8.Encode(text);
    assert value == [0x61] + Utf8.Encode(EUROS);
    assert value[2] == Utf8.Encode(EUROS)[..3][1];
    assert CutsAt(value, 0);
  }

  /** Others can be: the letter a and twenty-one euro signs are 64 bytes, and the first slice ends
      inside the first euro sign. */
  method ParseEuros() returns (r: KeyOutcome)
    ensures r == Panics
  {
    EurosAreCut();
    hide Utf8.Encode, Trim, CutsCharacter;
    r := ParseHexKey("a" + EUROS);
  }
}
