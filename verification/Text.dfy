/** Hexadecimal printing and whitespace, as Rust's standard library has them. */
module Text {
  import opened Bytes

  function HexDigit(n: nat): (c: char)
    requires n < 16
    ensures '0' <= c <= '9' || 'a' <= c <= 'f'
  {
    if n < 10 then ('0' as int + n) as char else ('a' as int + (n - 10)) as char
  }

  /** `format!("{:02x}", byte)`. */
  function HexByte(b: byte): (s: string)
    ensures |s| == 2
  {
    [HexDigit((b / 16) as nat), HexDigit((b % 16) as nat)]
  }

  /** Every byte of `bytes` printed in turn. */
  function Hex(bytes: seq<byte>): (s: string)
    ensures |s| == 2 * |bytes|
  {
    if bytes == [] then "" else HexByte(bytes[0]) + Hex(bytes[1..])
  }

  /** The value of a hexadecimal digit of either case, or 16 for any other character. */
  function DigitValue(c: char): nat {
    if '0' <= c <= '9' then c as int - '0' as int
    else if 'a' <= c <= 'f' then c as int - 'a' as int + 10
    else if 'A' <= c <= 'F' then c as int - 'A' as int + 10
    else 16
  }

  lemma DigitValueOfHexDigit(n: nat)
    requires n < 16
    ensures DigitValue(HexDigit(n)) == n
  {
  }

  lemma HexByteInjective(a: byte, b: byte)
    requires HexByte(a) == HexByte(b)
    ensures a == b
  {
    DigitValueOfHexDigit((a / 16) as nat);
    DigitValueOfHexDigit((b / 16) as nat);
    DigitValueOfHexDigit((a % 16) as nat);
    DigitValueOfHexDigit((b % 16) as nat);
    assert HexByte(a)[0] == HexByte(b)[0] && HexByte(a)[1] == HexByte(b)[1];
  }

  lemma {:induction false} HexInjective(a: seq<byte>, b: seq<byte>)
    requires Hex(a) == Hex(b)
    ensures a == b
  {
    assert |Hex(a)| == 2 * |a| && |Hex(b)| == 2 * |b|;
    if a != [] {
      assert Hex(a)[..2] == HexByte(a[0]) && Hex(b)[..2] == HexByte(b[0]);
      assert Hex(a)[2..] == Hex(a[1..]) && Hex(b)[2..] == Hex(b[1..]);
      HexByteInjective(a[0], b[0]);
      HexInjective(a[1..], b[1..]);
    }
  }

  /** The characters with Unicode property White_Space (`char::is_whitespace`). */
  predicate IsWhitespace(c: char) {
    var n := c as int;
    || 0x09 <= n <= 0x0D || n == 0x20 || n == 0x85 || n == 0xA0 || n == 0x1680
    || 0x2000 <= n <= 0x200A || n == 0x2028 || n == 0x2029 || n == 0x202F || n == 0x205F || n == 0x3000
  }

  function TrimStart(s: string): string {
    if s != "" && IsWhitespace(s[0]) then TrimStart(s[1..]) else s
  }

  function TrimEnd(s: string): string {
    if s != "" && IsWhitespace(s[|s| - 1]) then TrimEnd(s[..|s| - 1]) else s
  }

  /** `str::trim`. */
  function Trim(s: string): string {
    TrimEnd(TrimStart(s))
  }

  // ---- The tables written out

  lemma DigitTable(n: nat)
    requires n < 16
    ensures "0123456789abcdef"[n] == HexDigit(n)
    ensures "0123456789ABCDEF"[n] as int == if n < 10 then '0' as int + n else 'A' as int + (n - 10)
  {
  }

  /** Printing uses lower case; reading takes either case and nothing else. */
  lemma DigitsWrittenOut()
    ensures forall n: nat | n < 16 :: HexDigit(n) == "0123456789abcdef"[n]
    ensures forall n: nat, c: char | n < 16 ::
      DigitValue(c) == n <==> c == "0123456789abcdef"[n] || c == "0123456789ABCDEF"[n]
    ensures forall c: char :: DigitValue(c) < 16 <==> c in "0123456789abcdefABCDEF"
  {
    var digits := "0123456789abcdefABCDEF";
    assert digits[0] == '0' && digits[1] == '1' && digits[2] == '2' && digits[3] == '3' && digits[4] == '4';
    assert digits[5] == '5' && digits[6] == '6' && digits[7] == '7' && digits[8] == '8' && digits[9] == '9';
    assert digits[10] == 'a' && digits[11] == 'b' && digits[12] == 'c' && digits[13] == 'd' && digits[14] == 'e';
    assert digits[15] == 'f' && digits[16] == 'A' && digits[17] == 'B' && digits[18] == 'C' && digits[19] == 'D';
    assert digits[20] == 'E' && digits[21] == 'F';
  }

  /** The digits of byte `i` stand at `2 * i`, the more significant one first. */
  lemma {:induction false} HexAt(bytes: seq<byte>, i: nat)
    requires i < |bytes|
    ensures |Hex(bytes)| == 2 * |bytes|
    ensures Hex(bytes)[2 * i] == HexByte(bytes[i])[0] && Hex(bytes)[2 * i + 1] == HexByte(bytes[i])[1]
  {
    if i > 0 {
      HexAt(bytes[1..], i - 1);
    }
  }

  /** The digits of byte `i` stand at `2 * i`, the more significant one first. */
  lemma HexWrittenOut(bytes: seq<byte>, i: nat)
    requires i < |bytes|
    ensures |Hex(bytes)| == 2 * |bytes|
    ensures Hex(bytes)[2 * i] == "0123456789abcdef"[bytes[i] / 16]
    ensures Hex(bytes)[2 * i + 1] == "0123456789abcdef"[bytes[i] % 16]
  {
    HexAt(bytes, i);
    DigitsWrittenOut();
  }

  /** The whitespace of ASCII, the Latin-1 block and beyond. */
  lemma WhitespaceWrittenOut()
    ensures forall c: char | (c as int) < 0x80 :: IsWhitespace(c) <==> c in "\t\n\U{0B}\U{0C}\r "
    ensures forall c: char | 0x80 <= c as int ::
      IsWhitespace(c) <==>
        || c in "\U{85}\U{A0}\U{1680}\U{2000}\U{2001}\U{2002}\U{2003}\U{2004}\U{2005}\U{2006}"
        || c in "\U{2007}\U{2008}\U{2009}\U{200A}\U{2028}\U{2029}\U{202F}\U{205F}\U{3000}"
  {
  }

  predicate AllWhitespace(s: string) {
    forall i | 0 <= i < |s| :: IsWhitespace(s[i])
  }

  lemma {:induction false} TrimStartOf(left: string, s: string)
    requires AllWhitespace(left) && (s != "" ==> !IsWhitespace(s[0]))
    ensures TrimStart(left + s) == s
  {
    if left == "" {
      assert left + s == s;
    } else {
      TrimStartOf(left[1..], s);
      assert (left + s)[1..] == left[1..] + s;
    }
  }

  lemma {:induction false} TrimEndOf(s: string, right: string)
    requires AllWhitespace(right) && (s != "" ==> !IsWhitespace(s[|s| - 1]))
    ensures TrimEnd(s + right) == s
  {
    if right == "" {
      assert s + right == s;
    } else {
      var last := |right| - 1;
      TrimEndOf(s, right[..last]);
      assert (s + right)[..|s + right| - 1] == s + right[..last];
    }
  }

  /** Trimming takes all whitespace off both ends, and nothing else. */
  lemma TrimExact(left: string, s: string, right: string)
    requires AllWhitespace(left) && AllWhitespace(right)
    requires s != "" ==> !IsWhitespace(s[0]) && !IsWhitespace(s[|s| - 1])
    ensures Trim(left + s + right) == s
  {
    hide IsWhitespace, TrimStart, TrimEnd;
    if s == "" {
      assert left + s + right == left + right + "";
      TrimStartOf(left + right, "");
      TrimEndOf("", "");
      assert "" + "" == "";
    } else {
      TrimStartOf(left, s + right);
      assert left + s + right == left + (s + right);
      TrimEndOf(s, right);
    }
  }
}
