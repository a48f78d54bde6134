/** Bytes, fixed-width unsigned integers on the wire, and pieces of byte streams. */
module Bytes {
  newtype byte = x: int | 0 <= x < 256

  const U16_LIMIT: nat := 0x1_0000
  const U32_LIMIT: nat := 0x1_0000_0000
  const U64_LIMIT: nat := 0x1_0000_0000_0000_0000

  const MEBIBYTE: nat := 1024 * 1024

  type u64 = n: nat | n < U64_LIMIT

  type Id = s: seq<byte> | |s| == 16 witness seq(16, i => 0 as byte)

  /** The number of values a `width`-byte unsigned integer can take. */
  function Pow256(width: nat): (p: nat)
    ensures p > 0
  {
    if width == 0 then 1 else 256 * Pow256(width - 1)
  }

  lemma WordLimits()
    ensures Pow256(2) == U16_LIMIT && Pow256(4) == U32_LIMIT && Pow256(8) == U64_LIMIT
  {
    assert Pow256(1) == 256;
    assert Pow256(3) == 256 * Pow256(2);
    assert Pow256(5) == 256 * Pow256(4);
    assert Pow256(7) == 256 * Pow256(6);
  }

  /** Adding in 64 bits, with wrap-around, and reducing at the end come to the same. */
  lemma AddingWraps(a: nat, b: nat)
    ensures (a % U64_LIMIT + b) % U64_LIMIT == (a + b) % U64_LIMIT
  {
    var q, r := a / U64_LIMIT, (a % U64_LIMIT + b) / U64_LIMIT;
    assert a + b == U64_LIMIT * (q + r) + (a % U64_LIMIT + b) % U64_LIMIT;
  }

  /** Rust's `to_be_bytes` for an unsigned integer of `width` bytes. */
  function BigEndian(n: nat, width: nat): (s: seq<byte>)
    requires n < Pow256(width)
    ensures |s| == width
  {
    if width == 0 then [] else BigEndian(n / 256, width - 1) + [(n % 256) as byte]
  }

  /** Rust's `from_be_bytes`. */
  function FromBigEndian(s: seq<byte>): (n: nat)
    ensures n < Pow256(|s|)
  {
    if s == [] then 0 else FromBigEndian(s[..|s| - 1]) * 256 + s[|s| - 1] as nat
  }

  /** Rust's `to_le_bytes`. */
  function LittleEndian(n: nat, width: nat): (s: seq<byte>)
    requires n < Pow256(width)
    ensures |s| == width
  {
    if width == 0 then [] else [(n % 256) as byte] + LittleEndian(n / 256, width - 1)
  }

  /** Rust's `from_le_bytes`. */
  function FromLittleEndian(s: seq<byte>): (n: nat)
    ensures n < Pow256(|s|)
  {
    if s == [] then 0 else s[0] as nat + 256 * FromLittleEndian(s[1..])
  }

  lemma {:induction false} BigEndianRoundTrip(n: nat, width: nat)
    requires n < Pow256(width)
    ensures FromBigEndian(BigEndian(n, width)) == n
  {
    if width > 0 {
      BigEndianRoundTrip(n / 256, width - 1);
      assert BigEndian(n, width)[..width - 1] == BigEndian(n / 256, width - 1);
    }
  }

  lemma {:induction false} FromBigEndianRoundTrip(s: seq<byte>)
    ensures BigEndian(FromBigEndian(s), |s|) == s
  {
    if s != [] {
      FromBigEndianRoundTrip(s[..|s| - 1]);
      assert FromBigEndian(s) / 256 == FromBigEndian(s[..|s| - 1]);
    }
  }

  lemma {:induction false} LittleEndianRoundTrip(n: nat, width: nat)
    requires n < Pow256(width)
    ensures FromLittleEndian(LittleEndian(n, width)) == n
  {
    if width > 0 {
      LittleEndianRoundTrip(n / 256, width - 1);
      assert LittleEndian(n, width)[1..] == LittleEndian(n / 256, width - 1);
    }
  }

  lemma {:induction false} FromLittleEndianRoundTrip(s: seq<byte>)
    ensures LittleEndian(FromLittleEndian(s), |s|) == s
  {
    if s != [] {
      FromLittleEndianRoundTrip(s[1..]);
      assert FromLittleEndian(s) / 256 == FromLittleEndian(s[1..]);
    }
  }

  // ---- The bytes written out

  /** The last byte of a big-endian number is its remainder by 256, and the others are its quotient. */
  lemma BigEndianStep(n: nat, width: nat)
    requires width > 0 && n < Pow256(width)
    ensures n / 256 < Pow256(width - 1) && BigEndian(n, width) == BigEndian(n / 256, width - 1) + [(n % 256) as byte]
  {
  }

  /** Most significant byte first. */
  lemma BigEndianTwo(n: nat)
    requires n < 0x1_0000
    ensures Pow256(2) == 0x1_0000 && BigEndian(n, 2) == [(n / 256) as byte, (n % 256) as byte]
  {
    WordLimits();
    hide BigEndian;
    BigEndianStep(n, 2);
    BigEndianStep(n / 256, 1);
    assert BigEndian(n / 256 / 256, 0) == [];
  }

  lemma BigEndianFour(n: nat)
    requires n < 0x1_0000_0000
    ensures Pow256(4) == 0x1_0000_0000
    ensures BigEndian(n, 4) == [(n / 0x100_0000) as byte, (n / 0x1_0000 % 256) as byte, (n / 256 % 256) as byte,
                                (n % 256) as byte]
  {
    WordLimits();
    hide BigEndian;
    BigEndianStep(n, 4);
    BigEndianStep(n / 256, 3);
    BigEndianTwo(n / 256 / 256);
    assert n / 256 / 256 == n / 0x1_0000 && n / 256 / 256 / 256 == n / 0x100_0000;
  }

  lemma {:induction false} MultiplesGrow(d: nat, a: nat, b: nat)
    requires a < b
    ensures d * a + d <= d * b
  {
    if a + 1 < b {
      MultiplesGrow(d, a, b - 1);
    }
  }

  lemma QuotientIsUnique(n: nat, d: nat, q: nat, r: nat)
    requires n == d * q + r && r < d
    ensures n / d == q
  {
    var k, t := n / d, n % d;
    assert n == d * k + t && t < d;
    if k < q {
      MultiplesGrow(d, k, q);
    } else if q < k {
      MultiplesGrow(d, q, k);
    }
  }

  lemma DividedTwice(n: nat, p: nat)
    requires p > 0
    ensures n / 256 / p == n / (256 * p)
  {
    var a, b := n / 256, n % 256;
    var q, r := a / p, a % p;
    assert a == p * q + r && n == 256 * a + b;
    assert n == 256 * p * q + (256 * r + b);
    QuotientIsUnique(n, 256 * p, q, 256 * r + b);
  }

  /** The byte that counts in steps of 256 to the power `i` stands `i` places from the end. */
  lemma {:induction false} BigEndianAt(n: nat, width: nat, i: nat)
    requires n < Pow256(width) && i < width
    ensures BigEndian(n, width)[width - 1 - i] as nat == n / Pow256(i) % 256
  {
    if i > 0 {
      BigEndianAt(n / 256, width - 1, i - 1);
      DividedTwice(n, Pow256(i - 1));
    }
  }

  /** The byte that counts in steps of 256 to the power `i` stands `i` places from the start. */
  lemma {:induction false} LittleEndianAt(n: nat, width: nat, i: nat)
    requires n < Pow256(width) && i < width
    ensures LittleEndian(n, width)[i] as nat == n / Pow256(i) % 256
  {
    if i > 0 {
      LittleEndianAt(n / 256, width - 1, i - 1);
      DividedTwice(n, Pow256(i - 1));
    }
  }

  lemma LittleEndianStep(n: nat, width: nat)
    requires width > 0 && n < Pow256(width)
    ensures n / 256 < Pow256(width - 1)
      && LittleEndian(n, width) == [(n % 256) as byte] + LittleEndian(n / 256, width - 1)
  {
  }

  /** Least significant byte first. */
  lemma LittleEndianFour(n: nat)
    requires n < 0x1_0000_0000
    ensures Pow256(4) == 0x1_0000_0000
    ensures LittleEndian(n, 4) == [(n % 256) as byte, (n / 256 % 256) as byte, (n / 0x1_0000 % 256) as byte,
                                   (n / 0x100_0000) as byte]
  {
    WordLimits();
    hide LittleEndian;
    LittleEndianStep(n, 4);
    LittleEndianStep(n / 256, 3);
    LittleEndianStep(n / 256 / 256, 2);
    LittleEndianStep(n / 256 / 256 / 256, 1);
    assert n / 256 / 256 == n / 0x1_0000 && n / 256 / 256 / 256 == n / 0x100_0000;
    assert LittleEndian(n / 256 / 256 / 256 / 256, 0) == [];
  }

  /** The stream that a list of pieces, delivered in order, adds up to. */
  function Flatten<T>(pieces: seq<seq<T>>): seq<T> {
    if pieces == [] then [] else pieces[0] + Flatten(pieces[1..])
  }
}
