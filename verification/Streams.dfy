/**
  The byte streams the program reads and writes: `std::io::Cursor`, and the two halves of a
  QUIC stream. Section 2.2 of RFC 9000 promises one thing about a stream: its bytes arrive in
  order. How they are cut into pieces is left open, so every cut is allowed here.
*/
module Streams {
  import opened Wrappers
  import opened Bytes

  /** The most bytes one QUIC stream carries: no offset goes beyond it (section 19.8 of RFC 9000). */
  const STREAM_LIMIT: nat := 0x3FFF_FFFF_FFFF_FFFF

  class Cursor {
    const data: seq<byte>
    var position: nat

    ghost predicate Valid()
      reads this
    {
      position <= |data|
    }

    constructor (data: seq<byte>)
      ensures Valid() && position == 0 && this.data == data
    {
      this.data := data;
      position := 0;
    }

    /** `Read::read_exact` into a fresh buffer of `n` bytes. */
    method ReadExact(n: nat, error: string) returns (r: Result<seq<byte>>)
      requires Valid()
      modifies this
      ensures Valid()
      ensures r == if old(position) + n <= |data| then Ok(data[old(position)..old(position) + n]) else Err(error)
      ensures r.Ok? ==> position == old(position) + n
    {
      if position + n <= |data| {
        r := Ok(data[position..position + n]);
        position := position + n;
      } else {
        r := Err(error);
      }
    }
  }

  /** The receiving half: the pieces still to be delivered, after which the stream has ended. */
  class RecvStream {
    var pieces: seq<seq<byte>>

    ghost function Pending(): seq<byte>
      reads this
    {
      Flatten(pieces)
    }

    constructor (pieces: seq<seq<byte>>)
      ensures this.pieces == pieces
    {
      this.pieces := pieces;
    }

    /** `RecvStream::read`: what is at hand, at most one buffer full; `None` at the end. */
    method Read(buffer: array<byte>) returns (r: Option<nat>)
      requires buffer.Length > 0
      modifies this, buffer
      ensures r.None? <==> old(pieces) == []
      ensures r.None? ==> pieces == []
      ensures r.Some? ==> (r.value, pieces) == ReadOutcome(old(pieces), buffer.Length)
      ensures r.Some? ==> r.value <= buffer.Length && buffer[..r.value] == old(pieces)[0][..r.value]
    {
      if pieces == [] {
        return None;
      }
      var head := pieces[0];
      var n := if |head| <= buffer.Length then |head| else buffer.Length;
      forall k | 0 <= k < n {
        buffer[k] := head[k];
      }
      pieces := if n < |head| then [head[n..]] + pieces[1..] else pieces[1..];
      r := Some(n);
    }

    /** `RecvStream::read_exact`: gathers `n` bytes from as many pieces as it takes. */
    method ReadExact(n: nat) returns (r: Result<seq<byte>>)
      modifies this
      ensures n <= |old(Pending())| ==> r == Ok(old(Pending())[..n]) && Pending() == old(Pending())[n..]
      ensures n > |old(Pending())| ==> r == Err("stream finished early")
    {
      ghost var all := Pending();
      var got: seq<byte> := [];
      while |got| < n && pieces != []
        invariant |got| <= n
        invariant got + Pending() == all
        decreases |pieces|, n - |got|
      {
        var head := pieces[0];
        if |head| <= n - |got| {
          pieces := pieces[1..];
          got := got + head;
        } else {
          var take := n - |got|;
          assert got + head[..take] + (head[take..] + Flatten(pieces[1..])) == all;
          assert ([head[take..]] + pieces[1..])[1..] == pieces[1..];
          pieces := [head[take..]] + pieces[1..];
          got := got + head[..take];
        }
      }
      if |got| == n {
        r := Ok(got);
      } else {
        r := Err("stream finished early");
      }
    }
  }

  /** How many bytes one `read` takes from the pieces at hand, and the pieces it leaves. */
  function ReadOutcome(pieces: seq<seq<byte>>, capacity: nat): (r: (nat, seq<seq<byte>>))
    requires pieces != [] && capacity > 0
    ensures r.0 <= |pieces[0]| && r.0 <= capacity
    ensures Flatten(pieces) == pieces[0][..r.0] + Flatten(r.1)
  {
    if |pieces[0]| <= capacity then
      (|pieces[0]|, pieces[1..])
    else
      var left := [pieces[0][capacity..]] + pieces[1..];
      assert left[1..] == pieces[1..];
      assert pieces[0] == pieces[0][..capacity] + pieces[0][capacity..];
      (capacity, left)
  }

  /** The part of `data` that still gets through when only `budget` more bytes do. */
  function Clip(data: seq<byte>, budget: nat): seq<byte> {
    if |data| <= budget then data else data[..budget]
  }

  lemma ClipConcat(a: seq<byte>, b: seq<byte>, budget: nat)
    ensures |a| <= budget ==> Clip(a + b, budget) == a + Clip(b, budget - |a|)
    ensures |a| > budget ==> Clip(a + b, budget) == Clip(a, budget)
  {
  }

  /** Where bytes go: the sending half of a stream, or a writer. Writing fails once `budget` more
      bytes have gone out. */
  class Sink {
    var sent: seq<byte>
    var finished: bool
    var budget: nat

    constructor (budget: nat)
      ensures sent == [] && !finished && this.budget == budget
    {
      this.sent := [];
      this.finished := false;
      this.budget := budget;
    }

    method WriteAll(data: seq<byte>) returns (ok: bool)
      modifies this`sent, this`budget
      ensures ok == (|data| <= old(budget))
      ensures sent == old(sent) + Clip(data, old(budget))
      ensures budget == if ok then old(budget) - |data| else 0
    {
      ok := |data| <= budget;
      if ok {
        sent := sent + data;
        budget := budget - |data|;
      } else {
        sent := sent + data[..budget];
        budget := 0;
      }
    }

    method Finish()
      modifies this`finished
      ensures finished
    {
      finished := true;
    }
  }

  /** Writes the next part of something of which `done` has been written already. */
  method WritePart(writer: Sink, part: seq<byte>, ghost start: seq<byte>, ghost done: seq<byte>, ghost budget: nat)
    returns (ok: bool)
    requires |done| <= budget && writer.sent == start + done && writer.budget == budget - |done|
    modifies writer`sent, writer`budget
    ensures ok == (|done + part| <= budget)
    ensures writer.sent == start + Clip(done + part, budget)
    ensures ok ==> writer.budget == budget - |done + part|
  {
    ok := writer.WriteAll(part);
    assert start + done + part == start + (done + part);
    if !ok {
      assert (done + part)[..budget] == done + part[..budget - |done|];
      assert start + done + part[..budget - |done|] == start + (done + part)[..budget];
    }
  }

  lemma FitsWhole(data: seq<byte>, budget: nat)
    requires |data| <= budget
    ensures Clip(data, budget) == data
  {
  }

  /** A file or other reader: what successive reads return, and whether a read then fails. */
  class Reader {
    var pieces: seq<seq<byte>>
    const broken: bool

    constructor (pieces: seq<seq<byte>>, broken: bool)
      ensures this.pieces == pieces && this.broken == broken
    {
      this.pieces := pieces;
      this.broken := broken;
    }

    method Read(buffer: array<byte>) returns (r: Result<nat>)
      requires buffer.Length > 0
      modifies this, buffer
      ensures r.Err? <==> old(pieces) == [] && broken
      ensures old(pieces) == [] && !broken ==> r == Ok(0)
      ensures old(pieces) != [] ==> r == Ok(ReadOutcome(old(pieces), buffer.Length).0)
      ensures pieces == if old(pieces) == [] then [] else ReadOutcome(old(pieces), buffer.Length).1
      ensures r.Ok? && old(pieces) != [] ==> buffer[..r.value] == old(pieces)[0][..r.value]
      ensures r.Ok? ==> r.value <= buffer.Length
    {
      if pieces == [] {
        return if broken then Err("read failed") else Ok(0);
      }
      var n := ReadOutcome(pieces, buffer.Length).0;
      forall k | 0 <= k < n {
        buffer[k] := pieces[0][k];
      }
      pieces := ReadOutcome(pieces, buffer.Length).1;
      r := Ok(n);
    }
  }

  /** The reader's bytes: a read of nothing is the end. */
  function Content(pieces: seq<seq<byte>>): seq<byte> {
    if pieces == [] || pieces[0] == [] then [] else pieces[0] + Content(pieces[1..])
  }

  /** Whether reading to the end fails. */
  predicate Unreadable(pieces: seq<seq<byte>>, broken: bool) {
    if pieces == [] then broken else pieces[0] != [] && Unreadable(pieces[1..], broken)
  }

  lemma ReadOutcomeOfContent(pieces: seq<seq<byte>>, capacity: nat, broken: bool)
    requires pieces != [] && pieces[0] != [] && capacity > 0
    ensures var (n, left) := ReadOutcome(pieces, capacity);
      && Content(pieces) == pieces[0][..n] + Content(left)
      && (Unreadable(left, broken) <==> Unreadable(pieces, broken))
  {
    var (n, left) := ReadOutcome(pieces, capacity);
    if n < |pieces[0]| {
      assert left[1..] == pieces[1..];
      assert pieces[0] == pieces[0][..n] + pieces[0][n..];
      assert Content(left) == pieces[0][n..] + Content(pieces[1..]);
    }
  }

  /** One read: an error, the end, or the next bytes of the content. */
  lemma ReadTurn(pieces: seq<seq<byte>>, capacity: nat, broken: bool)
    requires capacity > 0
    ensures pieces == [] ==> Content(pieces) == [] && (Unreadable(pieces, broken) <==> broken)
    ensures pieces != [] && pieces[0] == [] ==> Content(pieces) == [] && !Unreadable(pieces, broken)
    ensures pieces != [] ==> (ReadOutcome(pieces, capacity).0 == 0 <==> pieces[0] == [])
    ensures pieces != [] && pieces[0] != [] ==>
      var (n, left) := ReadOutcome(pieces, capacity);
      && Content(pieces) == pieces[0][..n] + Content(left)
      && (Unreadable(left, broken) <==> Unreadable(pieces, broken))
  {
    if pieces != [] && pieces[0] != [] {
      ReadOutcomeOfContent(pieces, capacity, broken);
    }
  }
}
