/**
  A streaming hash function. BLAKE3 is used only through `Hasher::new`, `update` and `finalize`,
  so it is any state machine fed one byte at a time and read out at the end.
*/
module Hashing {
  import opened Bytes
  import opened Decisions

  type HashState(!new)

  datatype StreamHash = StreamHash(init: HashState, step: (HashState, byte) -> HashState, finish: HashState -> Digest)

  /** `Hasher::update`. */
  function Absorb(h: StreamHash, s: HashState, data: seq<byte>): HashState {
    if data == [] then s else Absorb(h, h.step(s, data[0]), data[1..])
  }

  /** The hash of a whole byte string at once. */
  function DigestOf(h: StreamHash, data: seq<byte>): Digest {
    h.finish(Absorb(h, h.init, data))
  }

  lemma {:induction false} AbsorbConcat(h: StreamHash, s: HashState, a: seq<byte>, b: seq<byte>)
    ensures Absorb(h, Absorb(h, s, a), b) == Absorb(h, s, a + b)
  {
    if a == [] {
      assert a + b == b;
    } else {
      AbsorbConcat(h, h.step(s, a[0]), a[1..], b);
      assert (a + b)[1..] == a[1..] + b;
    }
  }

  /** Updating with one piece after another. */
  function AbsorbAll(h: StreamHash, s: HashState, pieces: seq<seq<byte>>): HashState {
    if pieces == [] then s else AbsorbAll(h, Absorb(h, s, pieces[0]), pieces[1..])
  }

  lemma {:induction false} AbsorbAllIsAbsorb(h: StreamHash, s: HashState, pieces: seq<seq<byte>>)
    ensures AbsorbAll(h, s, pieces) == Absorb(h, s, Flatten(pieces))
  {
    if pieces != [] {
      AbsorbAllIsAbsorb(h, Absorb(h, s, pieces[0]), pieces[1..]);
      AbsorbConcat(h, s, pieces[0], Flatten(pieces[1..]));
    }
  }

  /** However the same bytes are cut into pieces, their digest is the same. */
  lemma ChunkingIndependence(h: StreamHash, a: seq<seq<byte>>, b: seq<seq<byte>>)
    requires Flatten(a) == Flatten(b)
    ensures h.finish(AbsorbAll(h, h.init, a)) == h.finish(AbsorbAll(h, h.init, b)) == DigestOf(h, Flatten(a))
  {
    AbsorbAllIsAbsorb(h, h.init, a);
    AbsorbAllIsAbsorb(h, h.init, b);
  }

  /** The hasher is fed every byte, in order, and nothing else. */
  lemma AbsorbEachByte(h: StreamHash, s: HashState, a: seq<byte>, b: byte)
    ensures Absorb(h, s, []) == s
    ensures Absorb(h, s, a + [b]) == h.step(Absorb(h, s, a), b)
  {
    AbsorbConcat(h, s, a, [b]);
    assert [b][1..] == [];
  }

  /** A hash function whose steps never bring two different inputs together. */
  ghost predicate StepsApart(h: StreamHash) {
    forall s, t, x, y :: h.step(s, x) == h.step(t, y) ==> s == t && x == y
  }

  /** The state tells apart all inputs of one length, as far as the steps do. */
  lemma {:induction false} AbsorbInjective(h: StreamHash, s: HashState, a: seq<byte>, b: seq<byte>)
    requires StepsApart(h) && |a| == |b| && Absorb(h, s, a) == Absorb(h, s, b)
    ensures a == b
  {
    if a != [] {
      var most, last := |a| - 1, a[|a| - 1];
      AbsorbEachByte(h, s, a[..most], last);
      AbsorbEachByte(h, s, b[..most], b[most]);
      assert a == a[..most] + [last] && b == b[..most] + [b[most]];
      AbsorbInjective(h, s, a[..most], b[..most]);
    }
  }

  /** So with such steps, and a read-out that loses nothing, equal digests of equal lengths mean equal bytes. */
  lemma DigestsTellApart(h: StreamHash, a: seq<byte>, b: seq<byte>)
    requires StepsApart(h) && (forall s, t :: h.finish(s) == h.finish(t) ==> s == t)
    requires |a| == |b| && DigestOf(h, a) == DigestOf(h, b)
    ensures a == b
  {
    AbsorbInjective(h, h.init, a, b);
  }
}
