/**
  UTF-8 as section 3 and the grammar of section 4 of RFC 3629 give it. A Rust `String` is a
  sequence of Unicode scalar values kept in this encoding; the model keeps the scalar values
  (Dafny's `char`) and makes the encoding explicit wherever bytes are counted or sent.
*/
module Utf8 {
  import opened Wrappers
  import opened Bytes

  /** The octets of one scalar value. */
  function EncodeChar(c: char): (s: seq<byte>)
    ensures 1 <= |s| <= 4
  {
    var n := c as int;
    if n < 0x80 then [n as byte]
    else if n < 0x800 then [(0xC0 + n / 0x40) as byte, Tail(n)]
    else if n < 0x1_0000 then [(0xE0 + n / 0x40 / 0x40) as byte, Tail(n / 0x40), Tail(n)]
    else [(0xF0 + n / 0x40 / 0x40 / 0x40) as byte, Tail(n / 0x40 / 0x40), Tail(n / 0x40), Tail(n)]
  }

  function Tail(n: nat): byte {
    (0x80 + n % 0x40) as byte
  }

  predicate IsTail(b: byte) {
    0x80 <= b <= 0xBF
  }

  function Bits(b: byte): nat
    requires IsTail(b)
  {
    (b - 0x80) as nat
  }

  /** Rust's `str::as_bytes`. */
  function Encode(s: string): (b: seq<byte>)
    ensures |s| <= |b|
  {
    if s == "" then [] else EncodeChar(s[0]) + Encode(s[1..])
  }

  /** The first scalar value of `b` and the number of octets it takes, by the RFC's grammar. */
  function DecodeChar(b: seq<byte>): (r: Option<(char, nat)>)
    ensures r.Some? ==> 1 <= r.value.1 <= |b|
  {
    if |b| >= 1 && b[0] <= 0x7F then
      Some((b[0] as int as char, 1))
    else if |b| >= 2 && 0xC2 <= b[0] <= 0xDF && IsTail(b[1]) then
      Some((((b[0] - 0xC0) as int * 0x40 + Bits(b[1])) as char, 2))
    else if |b| >= 3 && 0xE0 <= b[0] <= 0xEF && IsTail(b[1]) && IsTail(b[2])
         && (b[0] == 0xE0 ==> 0xA0 <= b[1]) && (b[0] == 0xED ==> b[1] <= 0x9F) then
      Some((((b[0] - 0xE0) as int * 0x1000 + Bits(b[1]) * 0x40 + Bits(b[2])) as char, 3))
    else if |b| >= 4 && 0xF0 <= b[0] <= 0xF4 && IsTail(b[1]) && IsTail(b[2]) && IsTail(b[3])
         && (b[0] == 0xF0 ==> 0x90 <= b[1]) && (b[0] == 0xF4 ==> b[1] <= 0x8F) then
      Some((((b[0] - 0xF0) as int * 0x4_0000 + Bits(b[1]) * 0x1000 + Bits(b[2]) * 0x40 + Bits(b[3])) as char, 4))
    else
      None
  }

  /** Rust's `String::from_utf8`. */
  function Decode(b: seq<byte>): Option<string> {
    if b == [] then Some("")
    else match DecodeChar(b)
      case None => None
      case Some((c, n)) =>
        match Decode(b[n..])
        case None => None
        case Some(rest) => Some([c] + rest)
  }

  /** Splitting a number into six-bit groups loses nothing. */
  lemma SplitGroups(n: nat)
    ensures n == n / 0x40 * 0x40 + n % 0x40
    ensures n == n / 0x40 / 0x40 * 0x1000 + n / 0x40 % 0x40 * 0x40 + n % 0x40
    ensures n == n / 0x40 / 0x40 / 0x40 * 0x4_0000 + n / 0x40 / 0x40 % 0x40 * 0x1000 + n / 0x40 % 0x40 * 0x40 + n % 0x40
  {
  }

  /** Six-bit groups put together can be told apart again. */
  lemma JoinGroups(a: nat, b: nat, c: nat, d: nat)
    requires b < 0x40 && c < 0x40 && d < 0x40
    ensures var n := a * 0x4_0000 + b * 0x1000 + c * 0x40 + d;
      n % 0x40 == d && n / 0x40 == a * 0x1000 + b * 0x40 + c
      && n / 0x40 % 0x40 == c && n / 0x40 / 0x40 == a * 0x40 + b
      && n / 0x40 / 0x40 % 0x40 == b && n / 0x40 / 0x40 / 0x40 == a
  {
    var n := a * 0x4_0000 + b * 0x1000 + c * 0x40 + d;
    assert n / 0x40 == a * 0x1000 + b * 0x40 + c;
    assert n / 0x40 / 0x40 == a * 0x40 + b;
  }

  lemma TailBits(n: nat)
    ensures IsTail(Tail(n)) && Bits(Tail(n)) == n % 0x40
  {
  }

  lemma DecodeEncodedChar(c: char, rest: seq<byte>)
    ensures DecodeChar(EncodeChar(c) + rest) == Some((c, |EncodeChar(c)|))
  {
    var n := c as int;
    var b := EncodeChar(c) + rest;
    SplitGroups(n);
    TailBits(n);
    TailBits(n / 0x40);
    TailBits(n / 0x40 / 0x40);
    hide Tail, Bits, IsTail;
    assert b[0] == EncodeChar(c)[0];
    if n >= 0x80 {
      assert b[1] == EncodeChar(c)[1];
      if n >= 0x800 {
        assert b[2] == EncodeChar(c)[2];
        if n >= 0x1_0000 {
          assert b[3] == EncodeChar(c)[3];
          FourOctets(c, b);
        } else {
          ThreeOctets(c, b);
        }
      }
    }
  }

  lemma ThreeOctets(c: char, b: seq<byte>)
    requires 0x800 <= c as int < 0x1_0000 && |b| >= 3
    requires b[0] == (0xE0 + (c as int) / 0x40 / 0x40) as byte && b[1] == Tail(c as int / 0x40)
      && b[2] == Tail(c as int)
    ensures DecodeChar(b) == Some((c, 3))
  {
    SplitGroups(c as int);
  }

  lemma FourOctets(c: char, b: seq<byte>)
    requires 0x1_0000 <= c as int && |b| >= 4
    requires b[0] == (0xF0 + (c as int) / 0x40 / 0x40 / 0x40) as byte && b[1] == Tail(c as int / 0x40 / 0x40)
    requires b[2] == Tail(c as int / 0x40) && b[3] == Tail(c as int)
    ensures DecodeChar(b) == Some((c, 4))
  {
    SplitGroups(c as int);
  }

  lemma TwoDecoded(b: seq<byte>)
    requires DecodeChar(b).Some? && DecodeChar(b).value.1 == 2
    ensures b[..2] == EncodeChar(DecodeChar(b).value.0)
  {
    JoinGroups(0, 0, (b[0] - 0xC0) as int, Bits(b[1]));
    assert b[..2] == [b[0], b[1]];
  }

  lemma ThreeDecoded(b: seq<byte>)
    requires DecodeChar(b).Some? && DecodeChar(b).value.1 == 3
    ensures b[..3] == EncodeChar(DecodeChar(b).value.0)
  {
    JoinGroups(0, (b[0] - 0xE0) as int, Bits(b[1]), Bits(b[2]));
    assert b[..3] == [b[0], b[1], b[2]];
  }

  lemma FourDecoded(b: seq<byte>)
    requires DecodeChar(b).Some? && DecodeChar(b).value.1 == 4
    ensures b[..4] == EncodeChar(DecodeChar(b).value.0)
  {
    JoinGroups((b[0] - 0xF0) as int, Bits(b[1]), Bits(b[2]), Bits(b[3]));
    assert b[..4] == [b[0], b[1], b[2], b[3]];
  }

  lemma DecodedCharIsEncoding(b: seq<byte>)
    requires DecodeChar(b).Some?
    ensures b[..DecodeChar(b).value.1] == EncodeChar(DecodeChar(b).value.0)
  {
    var k := DecodeChar(b).value.1;
    if k == 1 {
      assert b[..1] == [b[0]];
    } else if k == 2 {
      TwoDecoded(b);
    } else if k == 3 {
      ThreeDecoded(b);
    } else {
      FourDecoded(b);
    }
  }

  lemma {:induction false} DecodeEncode(s: string)
    ensures Decode(Encode(s)) == Some(s)
  {
    if s != "" {
      var b := Encode(s);
      DecodeEncodedChar(s[0], Encode(s[1..]));
      assert b[|EncodeChar(s[0])|..] == Encode(s[1..]);
      DecodeEncode(s[1..]);
      assert [s[0]] + s[1..] == s;
    }
  }

  lemma {:induction false} EncodeDecode(b: seq<byte>)
    requires Decode(b).Some?
    ensures Encode(Decode(b).value) == b
  {
    hide DecodeChar, EncodeChar;
    if b != [] {
      var n := DecodeChar(b).value.1;
      DecodedCharIsEncoding(b);
      EncodeDecode(b[n..]);
      assert b == b[..n] + b[n..];
    }
  }

  /** An ASCII character occurs in a string exactly when its octet occurs in the encoding, so
      looking for separators byte by byte and character by character is the same check. */
  lemma {:induction false} AsciiByteIffChar(s: string, c: char)
    requires c as int < 0x80
    ensures c in s <==> (c as int) as byte in Encode(s)
  {
    if s != "" {
      AsciiByteIffChar(s[1..], c);
      assert (c as int) as byte in EncodeChar(s[0]) <==> c == s[0];
    }
  }

  predicate IsAscii(s: string) {
    forall i | 0 <= i < |s| :: (s[i] as int) < 0x80
  }

  predicate AsciiOctets(b: seq<byte>) {
    forall i | 0 <= i < |b| :: b[i] < 0x80
  }

  lemma AsciiOctetsOfConcat(a: seq<byte>, b: seq<byte>)
    ensures AsciiOctets(a + b) <==> AsciiOctets(a) && AsciiOctets(b)
  {
    if AsciiOctets(a + b) {
      assert forall i | 0 <= i < |a| :: (a + b)[i] == a[i];
      assert forall i | 0 <= i < |b| :: (a + b)[|a| + i] == b[i];
    }
  }

  lemma AsciiChar(c: char)
    ensures AsciiOctets(EncodeChar(c)) <==> (c as int) < 0x80
    ensures (c as int) < 0x80 ==> EncodeChar(c) == [(c as int) as byte]
  {
    if (c as int) >= 0x80 {
      assert EncodeChar(c)[0] >= 0x80;
    }
  }

  /** A string is ASCII exactly when its encoding is, and then they are the same, octet by octet. */
  lemma {:induction false} AsciiBytes(s: string)
    ensures IsAscii(s) <==> AsciiOctets(Encode(s))
    ensures IsAscii(s) ==> |Encode(s)| == |s| && forall i | 0 <= i < |s| :: Encode(s)[i] as int == s[i] as int
  {
    if s != "" {
      hide EncodeChar, AsciiOctets;
      AsciiBytes(s[1..]);
      AsciiChar(s[0]);
      AsciiOctetsOfConcat(EncodeChar(s[0]), Encode(s[1..]));
      assert IsAscii(s) <==> (s[0] as int) < 0x80 && IsAscii(s[1..]) by {
        assert forall i | 0 < i < |s| :: s[i] == s[1..][i - 1];
      }
    }
  }

  /** The table of section 3 of RFC 3629. */
  lemma OctetsWrittenOut(c: char)
    ensures var n, b := c as int, EncodeChar(c);
      if n <= 0x7F then |b| == 1 && b[0] as int == n
      else if n <= 0x7FF then |b| == 2 && b[0] as int == 192 + n / 64 && b[1] as int == 128 + n % 64
      else if n <= 0xFFFF then
        |b| == 3 && b[0] as int == 224 + n / 4096 && b[1] as int == 128 + n / 64 % 64 && b[2] as int == 128 + n % 64
      else
        && |b| == 4 && b[0] as int == 240 + n / 262144 && b[1] as int == 128 + n / 4096 % 64
        && b[2] as int == 128 + n / 64 % 64 && b[3] as int == 128 + n % 64
  {
  }

  /** Two of the examples of section 7 of RFC 3629. */
  lemma Examples()
    ensures Encode("A\U{2262}\U{0391}.") == [0x41, 0xE2, 0x89, 0xA2, 0xCE, 0x91, 0x2E]
    ensures Encode("\U{233B4}") == [0xF0, 0xA3, 0x8E, 0xB4]
  {
    ExampleChars();
    hide EncodeChar;
    var s := "A\U{2262}\U{0391}.";
    assert s[1..] == "\U{2262}\U{0391}." && s[1..][1..] == "\U{0391}." && s[1..][1..][1..] == ".";
    assert Encode(".") == [0x2E] && Encode("\U{0391}.") == [0xCE, 0x91] + [0x2E];
    assert Encode("\U{2262}\U{0391}.") == [0xE2, 0x89, 0xA2] + ([0xCE, 0x91] + [0x2E]);
  }

  lemma ExampleChars()
    ensures EncodeChar('A') == [0x41] && EncodeChar('.') == [0x2E] && EncodeChar('\U{2262}') == [0xE2, 0x89, 0xA2]
    ensures EncodeChar('\U{0391}') == [0xCE, 0x91] && EncodeChar('\U{233B4}') == [0xF0, 0xA3, 0x8E, 0xB4]
  {
  }
}
