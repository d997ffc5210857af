/** The bounded queue between the request body (producer) and the tar parser (consumer). */
module Streaming {
  import opened Wrappers

  /** The queue's size unless another is asked for; uploads do not. */
  const QUEUE_SIZE: nat := 8

  /** What the producer hands over: a chunk, or nothing for the end of the stream. */
  type Chunk = Option<Bytes>

  /** The bytes that chunks carry, up to the first end mark. */
  function Carried(chunks: seq<Chunk>): Bytes {
    if chunks == [] || chunks[0].None? then [] else chunks[0].value + Carried(chunks[1..])
  }

  lemma {:induction false} CarriedByBoth(a: seq<Chunk>, b: seq<Chunk>)
    ensures None !in a ==> Carried(a + b) == Carried(a) + Carried(b)
    ensures None in a ==> Carried(a + b) == Carried(a)
  {
    if a == [] {
      assert a + b == b;
    } else {
      assert (a + b)[1..] == a[1..] + b;
      CarriedByBoth(a[1..], b);
      if a[0].Some? {
        assert None in a <==> None in a[1..] by { assert a == [a[0]] + a[1..]; }
        assert a[0].value + (Carried(a[1..]) + Carried(b)) == a[0].value + Carried(a[1..]) + Carried(b);
      }
    }
  }

  /** Empty chunks carry nothing, so it does not matter that they are not queued. */
  lemma EmptyChunkCarriesNothing(a: seq<Chunk>, b: seq<Chunk>)
    ensures Carried(a + [Some([])] + b) == Carried(a + b)
  {
    CarriedByBoth(a, b);
    CarriedByBoth(a, [Some([])] + b);
    assert a + [Some([])] + b == a + ([Some([])] + b);
    assert ([Some([])] + b)[1..] == b;
  }

  function Min(a: nat, b: nat): nat {
    if a <= b then a else b
  }

  /** What `read(n)` gives on a byte string with nothing but `s` left in it. */
  function ReadSize(s: Bytes, n: int): nat {
    if n < 0 then |s| else Min(n, |s|)
  }

  class SyncStreamReader {
    const queueSize: nat
    var queue: seq<Chunk>
    var pending: Bytes
    var eofSeen: bool

    /** The producer's calls still to come: `Some` for feed, `None` for close. */
    var script: seq<Chunk>

    constructor (queueSize: nat, script: seq<Chunk>)
      requires queueSize > 0
      ensures Valid() && this.queueSize == queueSize
      ensures Remaining() == Carried(script) && (None in script ==> Ends())
    {
      this.queueSize := queueSize;
      queue, pending, eofSeen, this.script := [], [], false, script;
      new;
      assert queue + script == script;
    }

    /** The queue keeps its bound, and holds no empty chunk. */
    ghost predicate Valid()
      reads this
    {
      queueSize > 0 && |queue| <= queueSize && Some([]) !in queue
    }

    /** All bytes not yet delivered, wherever they are on the way. */
    ghost function Remaining(): Bytes
      reads this
    {
      pending + if eofSeen then [] else Carried(queue + script)
    }

    /** The end of the stream has been, or will be, announced. */
    ghost predicate Ends()
      reads this
    {
      eofSeen || None in queue + script
    }

    /** The producer blocks in `put` while the queue is full. */
    method Feed(chunk: Bytes) returns (blocked: bool)
      requires Valid()
      modifies this`queue
      ensures Valid()
      ensures blocked <==> chunk != [] && |old(queue)| == queueSize
      ensures queue == if blocked || chunk == [] then old(queue) else old(queue) + [Some(chunk)]
    {
      if chunk == [] { return false; }
      if |queue| == queueSize { return true; }
      queue := queue + [Some(chunk)];
      return false;
    }

    method Close() returns (blocked: bool)
      requires Valid()
      modifies this`queue
      ensures Valid()
      ensures blocked <==> |old(queue)| == queueSize
      ensures queue == if blocked then old(queue) else old(queue) + [None]
    {
      if |queue| == queueSize { return true; }
      queue := queue + [None];
      return false;
    }

    /** One call of the producer, unless it blocks. */
    method Produce()
      requires Valid() && script != []
      modifies this`queue, this`script
      ensures Valid()
      ensures Carried(queue + script) == Carried(old(queue + script))
      ensures None in queue + script <==> None in old(queue + script)
      ensures |script| + |queue| <= |old(script)| + |old(queue)|
      ensures |old(queue)| < queueSize ==> |script| == |old(script)| - 1
    {
      var call := script[0];
      ghost var was := queue;
      var blocked;
      if call.Some? { blocked := Feed(call.value); } else { blocked := Close(); }
      if !blocked {
        script := script[1..];
        assert old(script) == [call] + script;
        assert was + old(script) == was + [call] + script;
        if call == Some([]) { EmptyChunkCarriesNothing(was, script); }
      }
    }

    /** Any number of the producer's calls, while the consumer does nothing. */
    method LetProducerRun(turns: nat)
      requires Valid()
      modifies this`queue, this`script
      ensures Valid()
      ensures Remaining() == old(Remaining()) && (Ends() <==> old(Ends()))
      ensures |script| + |queue| <= |old(script)| + |old(queue)|
    {
      var turn := 0;
      while turn < turns && script != []
        invariant Valid()
        invariant Remaining() == old(Remaining()) && (Ends() <==> old(Ends()))
        invariant |script| + |queue| <= |old(script)| + |old(queue)|
      {
        Produce();
        turn := turn + 1;
      }
    }

    /** `queue.get()`: it waits for the producer; `None` if no call of the producer is left to wait for. */
    method Get() returns (item: Option<Chunk>)
      requires Valid()
      modifies this`queue, this`script
      ensures Valid()
      ensures item.None? <==> Carried(old(queue + script)) == [] && None !in old(queue + script)
      ensures item.None? ==> Carried(queue + script) == [] && None !in queue + script
      ensures item.Some? ==> |script| + |queue| < |old(script)| + |old(queue)|
      ensures item == Some(None) ==> Carried(old(queue + script)) == [] && None in old(queue + script)
      ensures item.Some? && item.value.Some? ==>
        && Carried(old(queue + script)) == item.value.value + Carried(queue + script)
        && (None in old(queue + script) <==> None in queue + script)
    {
      ghost var all := queue + script;
      while queue == [] && script != []
        invariant Valid()
        invariant Carried(queue + script) == Carried(all) && (None in queue + script <==> None in all)
        invariant |script| + |queue| <= |old(script)| + |old(queue)|
        decreases |script|
      {
        Produce();
      }
      if queue == [] {
        assert queue + script == [];
        return None;
      }
      item := Some(queue[0]);
      ghost var now := queue + script;
      queue := queue[1..];
      assert now == [item.value] + (queue + script);
      assert now[1..] == queue + script;
    }

    /**
     * `read(n)`, with any number of the producer's calls before each `get`.
     * `None` stands for waiting forever, on a stream that ends without a close.
     */
    method Read(n: int, turns: nat -> nat) returns (r: Option<Bytes>)
      requires Valid()
      modifies this`queue, this`script, this`pending, this`eofSeen
      ensures Valid()
      ensures r.None? <==> n != 0 && !old(Ends()) && (n < 0 || |old(Remaining())| < n)
      ensures r.Some? ==> r.value == old(Remaining())[..ReadSize(old(Remaining()), n)]
      ensures r.Some? ==> Remaining() == old(Remaining())[ReadSize(old(Remaining()), n)..]
      ensures r.None? ==> Remaining() == old(Remaining())
      ensures Ends() <==> old(Ends())
      ensures n == 0 ==> unchanged(this)
    {
      if n == 0 { return Some([]); }
      ghost var all := Remaining();
      var round := 0;
      while true
        invariant Valid() && Remaining() == all && (Ends() <==> old(Ends()))
        decreases !eofSeen, |queue| + |script|
      {
        if n > 0 && |pending| >= n {
          r := Some(pending[..n]);
          pending := pending[n..];
          return;
        }
        if eofSeen {
          r := Some(pending);
          pending := [];
          return;
        }
        LetProducerRun(turns(round));
        round := round + 1;
        ghost var carried := Carried(queue + script);
        var chunk := Get();
        if chunk.None? { return None; }
        if chunk.value.None? {
          eofSeen := true;
          assert pending + carried == pending + [];
        } else {
          assert pending + carried == pending + chunk.value.value + Carried(queue + script);
          pending := pending + chunk.value.value;
        }
      }
    }

    /** The next of several reads. */
    method ReadOne(ghost all: Bytes, sizes: seq<int>, i: nat, turns: nat -> nat, ghost pieces: seq<Bytes>)
      returns (piece: Bytes)
      requires i < |sizes| && Valid() && Ends() && Remaining() == Left(all, sizes, i)
      requires Flat(pieces) + Remaining() == all
      modifies this`queue, this`script, this`pending, this`eofSeen
      ensures Valid() && Ends() && Remaining() == Left(all, sizes, i + 1)
      ensures piece == Piece(all, sizes, i) && Flat(pieces + [piece]) + Remaining() == all
    {
      ghost var left := Remaining();
      var r := Read(sizes[i], turns);
      PieceAndRest(left, ReadSize(left, sizes[i]), pieces);
      return r.value;
    }

    /** A consumer that reads several sizes one after another. */
    method ReadEach(sizes: seq<int>, turns: (nat, nat) -> nat) returns (pieces: seq<Bytes>)
      requires Valid() && Ends()
      modifies this`queue, this`script, this`pending, this`eofSeen
      ensures Valid() && Ends()
      ensures pieces == Pieces(old(Remaining()), sizes)
      ensures Flat(pieces) + Remaining() == old(Remaining())
    {
      pieces := [];
      var i := 0;
      while i < |sizes|
        invariant i <= |sizes| && Valid() && Ends()
        invariant Remaining() == Left(old(Remaining()), sizes, i)
        invariant |pieces| == i && forall k :: 0 <= k < i ==> pieces[k] == Piece(old(Remaining()), sizes, k)
        invariant Flat(pieces) + Remaining() == old(Remaining())
      {
        var piece := ReadOne(old(Remaining()), sizes, i, j => turns(i, j), pieces);
        pieces := pieces + [piece];
        i := i + 1;
      }
    }
  }

  lemma PieceAndRest(left: Bytes, size: nat, pieces: seq<Bytes>)
    requires size <= |left|
    ensures Flat(pieces) + left == Flat(pieces + [left[..size]]) + left[size..]
  {
    FlatStep(pieces, left[..size]);
    assert left == left[..size] + left[size..];
  }

  /** What is left of a byte string after the first `i` reads. */
  function Left(s: Bytes, sizes: seq<int>, i: nat): Bytes
    requires i <= |sizes|
  {
    if i == 0 then s
    else
      var left := Left(s, sizes, i - 1);
      left[ReadSize(left, sizes[i - 1])..]
  }

  function Piece(s: Bytes, sizes: seq<int>, i: nat): Bytes
    requires i < |sizes|
  {
    var left := Left(s, sizes, i);
    left[..ReadSize(left, sizes[i])]
  }

  /** Reading a byte string in pieces: what the consumer sees depends on nothing else. */
  function Pieces(s: Bytes, sizes: seq<int>): seq<Bytes> {
    seq(|sizes|, i requires 0 <= i < |sizes| => Piece(s, sizes, i))
  }

  function Flat(pieces: seq<Bytes>): Bytes {
    if pieces == [] then [] else pieces[0] + Flat(pieces[1..])
  }

  lemma {:induction false} FlatStep(pieces: seq<Bytes>, last: Bytes)
    ensures Flat(pieces + [last]) == Flat(pieces) + last
  {
    if pieces == [] {
      assert [last][1..] == [];
    } else {
      assert (pieces + [last])[1..] == pieces[1..] + [last];
      FlatStep(pieces[1..], last);
      assert pieces[0] + (Flat(pieces[1..]) + last) == pieces[0] + Flat(pieces[1..]) + last;
    }
  }

  /** Once a read asked for everything, or for more than it got, every later one is empty. */
  lemma {:induction false} NothingAfterTheEnd(s: Bytes, sizes: seq<int>, i: nat, j: nat)
    requires i < j < |sizes|
    requires sizes[i] < 0 || |Piece(s, sizes, i)| < sizes[i]
    ensures Left(s, sizes, j) == Piece(s, sizes, j) == []
  {
    if i + 1 < j { NothingAfterTheEnd(s, sizes, i, j - 1); }
  }

  /** Two ways of cutting one byte string into chunks cannot be told apart by reading. */
  method SameBytesSameReads(
      a: seq<Chunk>, b: seq<Chunk>, sizes: seq<int>, queueSize: nat,
      turnsOfA: (nat, nat) -> nat, turnsOfB: (nat, nat) -> nat)
      returns (piecesOfA: seq<Bytes>, piecesOfB: seq<Bytes>)
    requires queueSize > 0 && None in a && None in b && Carried(a) == Carried(b)
    ensures piecesOfA == piecesOfB
  {
    var readerOfA := new SyncStreamReader(queueSize, a);
    var readerOfB := new SyncStreamReader(queueSize, b);
    piecesOfA := readerOfA.ReadEach(sizes, turnsOfA);
    piecesOfB := readerOfB.ReadEach(sizes, turnsOfB);
  }
}
