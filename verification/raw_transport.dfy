/** The full-buffer `send` and `receive` loops that `streaming_raw_tcp.cpp` and
    `pingpong_raw_tcp.cpp` share. Both retry a failed call while the error is
    temporary, report a zero return as a disconnect and any other failure as a
    hard error. `send` advances through the payload; `receive` does not: every
    read targets the whole buffer from its start. */
module RawTransport {
  import opened Bytes
  import opened Sums
  import opened Socket

  /** `Pending` is a loop that is still running when the scripted results
      run out; the other three are the loops' own returns. */
  datatype Status = Success | Disconnected | Failure | Pending

  /** The streaming variant returns 1, 0 and -1 where the ping-pong variant
      returns `none`, `sec::socket_disconnected` and `sec::runtime_error`. */
  function SendCode(st: Status): (code: int)
    requires st != Pending
    ensures code > 0 <==> st == Success
  {
    match st
    case Success => 1
    case Disconnected => 0
    case Failure => -1
  }

  function ErrorCode(st: Status): (code: Sec)
    requires st == Disconnected || st == Failure
  {
    if st == Disconnected then SocketDisconnected else RuntimeError
  }

  /** A write result after which the loop goes on: bytes were taken, or the
      error was temporary. */
  predicate WriteContinues(ev: WriteEvent)
  {
    (ev.Accept? && ev.limit > 0) || ev == WriteError(true)
  }

  /** The writes of `send` that kept it going, against the byte counts
      they returned for a `size`-byte payload: each either failed
      temporarily or took as much of what was still unsent as its limit
      allowed, and at least one byte. */
  predicate WritesMatch(used: seq<WriteEvent>, chunks: seq<int>, size: nat)
    decreases |used|
  {
    if |used| == 0 then chunks == []
    else
      var ev := used[|used| - 1];
      if ev == WriteError(true) then WritesMatch(used[..|used| - 1], chunks, size)
      else
        && ev.Accept? && |chunks| > 0
        && var before := chunks[..|chunks| - 1];
           && Sum(before) < size
           && chunks[|chunks| - 1] == Smaller(ev.limit, size - Sum(before)) > 0
           && WritesMatch(used[..|used| - 1], before, size)
  }

  lemma WritesMatchStep(used: seq<WriteEvent>, chunks: seq<int>, size: nat, ev: WriteEvent, n: int)
    requires WritesMatch(used, chunks, size)
    ensures ev == WriteError(true) ==> WritesMatch(used + [ev], chunks, size)
    ensures ev.Accept? && Sum(chunks) < size && n == Smaller(ev.limit, size - Sum(chunks)) > 0 ==>
      WritesMatch(used + [ev], chunks + [n], size)
  {
    assert (used + [ev])[..|used|] == used;
    assert (chunks + [n])[..|chunks|] == chunks;
  }

  /** Where `send` stands after the writes that returned `chunks`: only
      writes were used, the bytes on the wire are the first `Sum(chunks)`
      of the payload, and every write used kept `send` going, matched with
      its chunk. */
  predicate Sending(e: Endpoint, cur: Endpoint, payload: seq<byte>, chunks: seq<int>)
  {
    && cur.readResults == e.readResults && cur.pending == e.pending
    && Consumed(e.writeResults, cur.writeResults)
    && AllPositive(chunks) && |cur.writeResults| + |chunks| <= |e.writeResults|
    && 0 <= Sum(chunks) <= |payload| && cur.sent == e.sent + payload[..Sum(chunks)]
    && WritesMatch(Used(e.writeResults, cur.writeResults), chunks, |payload|)
  }

  /** Every write that `WritesMatch` pairs with a chunk kept `send` going. */
  lemma {:induction false} WritesMatchContinue(used: seq<WriteEvent>, chunks: seq<int>, size: nat)
    requires WritesMatch(used, chunks, size)
    ensures forall i :: 0 <= i < |used| ==> WriteContinues(used[i])
    decreases |used|
  {
    if |used| > 0 {
      var front := used[..|used| - 1];
      if used[|used| - 1] == WriteError(true) {
        WritesMatchContinue(front, chunks, size);
      } else {
        WritesMatchContinue(front, chunks[..|chunks| - 1], size);
      }
      assert forall i :: 0 <= i < |front| ==> used[i] == front[i];
    }
  }

  /** How `send` ended: the `Sending` facts, success exactly when the whole
      payload went out, `Pending` with the script exhausted, and a
      disconnect or a failure at a last write that returned zero or failed
      hard, every write before it matched with its chunk. */
  predicate SendEnded(e: Endpoint, payload: seq<byte>, st: Status, e': Endpoint, chunks: seq<int>)
  {
    && e'.readResults == e.readResults && e'.pending == e.pending
    && Consumed(e.writeResults, e'.writeResults)
    && AllPositive(chunks) && |e'.writeResults| + |chunks| <= |e.writeResults|
    && 0 <= Sum(chunks) <= |payload| && e'.sent == e.sent + payload[..Sum(chunks)]
    && (st == Success <==> Sum(chunks) == |payload|)
    && (st == Pending ==> e'.writeResults == [])
    && var used := Used(e.writeResults, e'.writeResults);
       var stopped := if st == Disconnected || st == Failure then 1 else 0;
       && |used| >= stopped
       && (st == Disconnected ==> used[|used| - 1] == Accept(0))
       && (st == Failure ==> used[|used| - 1] == WriteError(false))
       && (forall i :: 0 <= i < |used| - stopped ==> WriteContinues(used[i]))
       && WritesMatch(used[..|used| - stopped], chunks, |payload|)
  }

  /** One `write` of `send`, of the part of the payload still unsent. */
  method SendOnce(e: Endpoint, cur: Endpoint, payload: seq<byte>, chunks: seq<int>)
    returns (ret: int, temporary: bool, cur': Endpoint)
    requires Sending(e, cur, payload, chunks) && |cur.writeResults| > 0 && Sum(chunks) < |payload|
    ensures cur'.writeResults == cur.writeResults[1..]
    ensures ret > 0 ==> Sending(e, cur', payload, chunks + [ret]) && Sum(chunks + [ret]) == Sum(chunks) + ret
    ensures ret < 0 && temporary ==> Sending(e, cur', payload, chunks)
    ensures ret == 0 <==> cur.writeResults[0] == Accept(0)
    ensures ret < 0 && !temporary <==> cur.writeResults[0] == WriteError(false)
    ensures ret <= 0 ==>
      && Consumed(e.writeResults, cur'.writeResults)
      && Used(e.writeResults, cur'.writeResults) == Used(e.writeResults, cur.writeResults) + [cur.writeResults[0]]
      && cur'.sent == cur.sent && cur'.readResults == cur.readResults && cur'.pending == cur.pending
    ensures WholeWrite(cur.writeResults[0], |payload| - Sum(chunks)) ==> ret == |payload| - Sum(chunks)
  {
    var done := Sum(chunks);
    var ev := cur.writeResults[0];
    var before := Used(e.writeResults, cur.writeResults);
    assert e.writeResults[|e.writeResults| - |cur.writeResults|] == ev;
    var (res, e2) := Write(cur, payload[done..]);
    assert Used(e.writeResults, e2.writeResults) == before + [ev];
    WritesMatchStep(before, chunks, |payload|, ev, res.ret);
    ret, temporary, cur' := res.ret, res.temporary, e2;
    if ret > 0 {
      assert payload[..done] + payload[done..][..ret] == payload[..done + ret];
      SumAppend(chunks, ret);
    }
  }

  /** A `send` that stopped at a write that returned zero or failed hard
      ends the way `SendEnded` says. */
  lemma SendStops(e: Endpoint, cur: Endpoint, cur': Endpoint, payload: seq<byte>, chunks: seq<int>, st: Status)
    requires Sending(e, cur, payload, chunks) && |cur.writeResults| > 0 && Sum(chunks) < |payload|
    requires st == Disconnected || st == Failure
    requires st == Disconnected ==> cur.writeResults[0] == Accept(0)
    requires st == Failure ==> cur.writeResults[0] == WriteError(false)
    requires Consumed(e.writeResults, cur'.writeResults)
    requires Used(e.writeResults, cur'.writeResults) == Used(e.writeResults, cur.writeResults) + [cur.writeResults[0]]
    requires cur'.sent == cur.sent && cur'.readResults == cur.readResults && cur'.pending == cur.pending
    ensures SendEnded(e, payload, st, cur', chunks)
  {
    var before := Used(e.writeResults, cur.writeResults);
    var used := Used(e.writeResults, cur'.writeResults);
    assert used[..|used| - 1] == before;
    WritesMatchContinue(before, chunks, |payload|);
  }

  /** A `send` that ran out of write results, or finished, ends the way
      `SendEnded` says. */
  lemma SendRuns(e: Endpoint, cur: Endpoint, payload: seq<byte>, chunks: seq<int>, st: Status)
    requires Sending(e, cur, payload, chunks)
    requires st == Success || st == Pending
    requires st == Success <==> Sum(chunks) == |payload|
    requires st == Pending ==> cur.writeResults == []
    ensures SendEnded(e, payload, st, cur, chunks)
  {
    var used := Used(e.writeResults, cur.writeResults);
    assert used[..|used|] == used;
    WritesMatchContinue(used, chunks, |payload|);
  }

  /** `send`: writes the remaining subspan until it is empty. */
  method Send(e: Endpoint, payload: seq<byte>) returns (st: Status, e': Endpoint, chunks: seq<int>)
    ensures SendEnded(e, payload, st, e', chunks)
    ensures |payload| == 0 ==> st == Success && e' == e
    ensures |payload| > 0 && |e.writeResults| > 0 && WholeWrite(e.writeResults[0], |payload|) ==>
      st == Success && e'.writeResults == e.writeResults[1..]
  {
    e' := e;
    chunks := [];
    assert payload[..0] == [];
    assert Used(e.writeResults, e.writeResults) == [];
    while Sum(chunks) < |payload|
      invariant Sending(e, e', payload, chunks)
      invariant |payload| == 0 ==> e' == e
      invariant |payload| > 0 && |e.writeResults| > 0 && WholeWrite(e.writeResults[0], |payload|) ==>
        (chunks == [] && e' == e) || (Sum(chunks) == |payload| && e'.writeResults == e.writeResults[1..])
      decreases |e'.writeResults|
    {
      if |e'.writeResults| == 0 {
        SendRuns(e, e', payload, chunks, Pending);
        return Pending, e', chunks;
      }
      var ret, temporary, cur' := SendOnce(e, e', payload, chunks);
      if ret > 0 {
        chunks, e' := chunks + [ret], cur';
      } else if ret == 0 {
        SendStops(e, e', cur', payload, chunks, Disconnected);
        return Disconnected, cur', chunks;
      } else if !temporary {
        SendStops(e, e', cur', payload, chunks, Failure);
        return Failure, cur', chunks;
      } else {
        e' := cur';
      }
    }
    SendRuns(e, e', payload, chunks, Success);
    st := Success;
  }

  /** A single write that takes one byte of a three-byte payload, with no
      write result after it: `send` cannot claim success, and at most that
      one byte is accounted for. */
  lemma ShortWriteNotSent(st: Status, e': Endpoint, chunks: seq<int>)
    requires SendEnded(Endpoint([Accept(1)], [], [], []), [1, 2, 3], st, e', chunks)
    ensures st != Success && Sum(chunks) <= 1
  {
  }

  /** Paints each read's bytes over the buffer from offset 0, the way the raw
      `receive` passes `make_span(data, size)` to every `read`. */
  function PaintFromStart(buf: seq<byte>, pieces: seq<seq<byte>>): (r: seq<byte>)
    requires forall i :: 0 <= i < |pieces| ==> |pieces[i]| <= |buf|
    ensures |r| == |buf|
  {
    if |pieces| == 0 then buf
    else
      var before := PaintFromStart(buf, pieces[..|pieces| - 1]);
      var p := pieces[|pieces| - 1];
      p + before[|p|..]
  }

  /** Painting `p1` and then `p2` is painting them one after the other. */
  lemma {:induction false} PaintTwice(buf: seq<byte>, p1: seq<seq<byte>>, p2: seq<seq<byte>>)
    requires forall i :: 0 <= i < |p1| ==> |p1[i]| <= |buf|
    requires forall i :: 0 <= i < |p2| ==> |p2[i]| <= |buf|
    ensures PaintFromStart(PaintFromStart(buf, p1), p2) == PaintFromStart(buf, p1 + p2)
    decreases |p2|
  {
    if |p2| == 0 {
      assert p1 + p2 == p1;
    } else {
      var front := p2[..|p2| - 1];
      PaintTwice(buf, p1, front);
      assert (p1 + p2)[..|p1 + p2| - 1] == p1 + front;
    }
  }

  /** After reads that returned `pieces`: they came off the front of the
      stream, each painted over the buffer from offset 0, and each took one
      scripted read at least. */
  predicate Painted(e: Endpoint, cur: Endpoint, buf: seq<byte>, buf': seq<byte>, pieces: seq<seq<byte>>)
  {
    && (forall i :: 0 <= i < |pieces| ==> 0 < |pieces[i]| <= |buf|)
    && |cur.readResults| + |pieces| <= |e.readResults|
    && Consumed(e.readResults, cur.readResults)
    && e.pending == Concat(pieces) + cur.pending
    && buf' == PaintFromStart(buf, pieces)
  }

  /** Two stretches of painting reads, with anything but reads in between,
      are one stretch. */
  lemma PaintedChain(e: Endpoint, mid: Endpoint, mid': Endpoint, cur: Endpoint, buf: seq<byte>, b1: seq<byte>, b2: seq<byte>,
                     p1: seq<seq<byte>>, p2: seq<seq<byte>>)
    requires Painted(e, mid, buf, b1, p1)
    requires mid'.readResults == mid.readResults && mid'.pending == mid.pending
    requires Painted(mid', cur, b1, b2, p2)
    ensures Painted(e, cur, buf, b2, p1 + p2)
  {
    PaintTwice(buf, p1, p2);
    ConcatJoin(p1, p2);
    assert forall i :: 0 <= i < |p2| ==> (p1 + p2)[|p1| + i] == p2[i];
  }

  /** `Painted`, with the writing side of the endpoint untouched: what one
      call of `receive` leaves behind. */
  predicate ReadSoFar(e: Endpoint, cur: Endpoint, buf: seq<byte>, buf': seq<byte>, pieces: seq<seq<byte>>)
  {
    && cur.writeResults == e.writeResults && cur.sent == e.sent
    && Painted(e, cur, buf, buf', pieces)
  }

  /** The reads of `receive` that kept it going, against the pieces they
      returned, for a `size`-byte buffer on a stream that held `avail`
      unread bytes at the start: each one either failed temporarily or
      handed over the next piece, as long as its limit, the buffer and the
      bytes left on the stream allowed, and at least one byte. */
  predicate ReadsMatch(used: seq<ReadEvent>, pieces: seq<seq<byte>>, size: nat, avail: int)
    decreases |used|
  {
    if |used| == 0 then pieces == []
    else
      var ev := used[|used| - 1];
      if ev == ReadError(true) then ReadsMatch(used[..|used| - 1], pieces, size, avail)
      else
        && ev.Deliver? && |pieces| > 0
        && var before := pieces[..|pieces| - 1];
           && 0 < |pieces[|pieces| - 1]| == Smaller(Smaller(ev.limit, size), avail - |Concat(before)|)
           && ReadsMatch(used[..|used| - 1], before, size, avail)
  }

  lemma ReadsMatchStep(used: seq<ReadEvent>, pieces: seq<seq<byte>>, size: nat, avail: int, ev: ReadEvent, p: seq<byte>)
    requires ReadsMatch(used, pieces, size, avail)
    ensures ev == ReadError(true) ==> ReadsMatch(used + [ev], pieces, size, avail)
    ensures ev.Deliver? && 0 < |p| == Smaller(Smaller(ev.limit, size), avail - |Concat(pieces)|) ==>
      ReadsMatch(used + [ev], pieces + [p], size, avail)
  {
    assert (used + [ev])[..|used|] == used;
    assert (pieces + [p])[..|pieces|] == pieces;
  }

  /** A read that returns bytes adds them as one more piece. */
  lemma ReadSoFarStep(e: Endpoint, cur: Endpoint, buf: seq<byte>, buf': seq<byte>, pieces: seq<seq<byte>>)
    requires ReadSoFar(e, cur, buf, buf', pieces) && |cur.readResults| > 0
    requires Read(cur, |buf|).res.ret > 0
    ensures var out := Read(cur, |buf|);
      && ReadSoFar(e, out.rest, buf, out.data + buf'[|out.data|..], pieces + [out.data])
      && |Concat(pieces + [out.data])| == |Concat(pieces)| + |out.data|
  {
    var out := Read(cur, |buf|);
    ConcatAppend(pieces, out.data);
    var pieces' := pieces + [out.data];
    assert pieces'[..|pieces|] == pieces;
    assert out.rest.readResults == e.readResults[|e.readResults| - |out.rest.readResults|..];
    assert Concat(pieces) + (out.data + out.rest.pending) == Concat(pieces') + out.rest.pending;
  }

  /** What holds between the reads of `receive`: `ReadSoFar`, the reads so
      far matched with their pieces, and a count that only the last piece
      may have pushed past the buffer size. */
  predicate Receiving(e: Endpoint, cur: Endpoint, buf: seq<byte>, buf': seq<byte>, pieces: seq<seq<byte>>)
  {
    && ReadSoFar(e, cur, buf, buf', pieces)
    && ReadsMatch(Used(e.readResults, cur.readResults), pieces, |buf|, |e.pending|)
    && (|buf| > 0 && |pieces| > 0 ==> |Concat(pieces)| - |pieces[|pieces| - 1]| < |buf|)
  }

  /** `receive` stopped at a read that returned nothing: `ReadSoFar` holds
      and every read before that one matched a piece. */
  predicate Ended(e: Endpoint, cur: Endpoint, buf: seq<byte>, buf': seq<byte>, pieces: seq<seq<byte>>)
  {
    && ReadSoFar(e, cur, buf, buf', pieces)
    && |cur.readResults| < |e.readResults|
    && ReadsMatch(Used(e.readResults, cur.readResults)[..|Used(e.readResults, cur.readResults)| - 1], pieces, |buf|,
                  |e.pending|)
  }

  /** How many of `used` are not temporary failures: under `ReadsMatch`,
      each of them handed over one piece. */
  function Handovers(used: seq<ReadEvent>): nat
    decreases |used|
  {
    if |used| == 0 then 0
    else Handovers(used[..|used| - 1]) + (if used[|used| - 1] == ReadError(true) then 0 else 1)
  }

  lemma {:induction false} ReadsMatchCount(used: seq<ReadEvent>, pieces: seq<seq<byte>>, size: nat, avail: int)
    ensures ReadsMatch(used, pieces, size, avail) ==> |pieces| == Handovers(used)
    decreases |used|
  {
    if |used| > 0 {
      ReadsMatchCount(used[..|used| - 1], pieces, size, avail);
      if |pieces| > 0 {
        ReadsMatchCount(used[..|used| - 1], pieces[..|pieces| - 1], size, avail);
      }
    }
  }

  /** Two runs of matched reads make one, the second starting on the
      bytes the first left. */
  lemma {:induction false} ReadsMatchJoin(u1: seq<ReadEvent>, p1: seq<seq<byte>>, u2: seq<ReadEvent>, p2: seq<seq<byte>>,
                                          size: nat, avail: int)
    requires ReadsMatch(u1, p1, size, avail) && ReadsMatch(u2, p2, size, avail - |Concat(p1)|)
    ensures ReadsMatch(u1 + u2, p1 + p2, size, avail)
    decreases |u2|
  {
    if |u2| == 0 {
      assert u1 + u2 == u1 && p1 + p2 == p1;
    } else {
      var front := u2[..|u2| - 1];
      assert (u1 + u2)[..|u1 + u2| - 1] == u1 + front;
      if u2[|u2| - 1] == ReadError(true) {
        ReadsMatchJoin(u1, p1, front, p2, size, avail);
      } else {
        var before := p2[..|p2| - 1];
        ReadsMatchJoin(u1, p1, front, before, size, avail);
        assert (p1 + p2)[..|p1 + p2| - 1] == p1 + before;
        ConcatJoin(p1, before);
      }
    }
  }

  /** Every read used between `e` and `cur` kept `receive` going: it failed
      temporarily or handed over the next of `pieces`, and `pieces` are
      the bytes the stream lost. */
  predicate ReadsKept(e: Endpoint, cur: Endpoint, pieces: seq<seq<byte>>, size: nat)
  {
    && Consumed(e.readResults, cur.readResults)
    && ReadsMatch(Used(e.readResults, cur.readResults), pieces, size, |e.pending|)
    && e.pending == Concat(pieces) + cur.pending
  }

  /** The reads used between `e` and `cur` ended at a `read` that returned
      zero: every read before it kept `receive` going and handed over the
      next of `pieces`, those pieces are all the stream lost, so the last
      read took nothing, and it met the peer's orderly shutdown on the
      bytes left. */
  predicate ClosedAt(e: Endpoint, cur: Endpoint, pieces: seq<seq<byte>>, size: nat)
  {
    && Consumed(e.readResults, cur.readResults) && |cur.readResults| < |e.readResults|
    && ReadsMatch(Used(e.readResults, cur.readResults)[..|e.readResults| - |cur.readResults| - 1], pieces, size, |e.pending|)
    && e.pending == Concat(pieces) + cur.pending
    && ZeroRead(LastUsed(e.readResults, cur.readResults), cur.pending)
  }

  /** Reads kept before a stretch of kept reads: all of them kept. */
  lemma KeptChain(e: Endpoint, mid: Endpoint, cur: Endpoint, p1: seq<seq<byte>>, p2: seq<seq<byte>>, size: nat)
    requires ReadsKept(e, mid, p1, size) && ReadsKept(mid, cur, p2, size)
    ensures ReadsKept(e, cur, p1 + p2, size)
  {
    ConsumedTrans(e.readResults, mid.readResults, cur.readResults);
    ReadsMatchJoin(Used(e.readResults, mid.readResults), p1, Used(mid.readResults, cur.readResults), p2, size, |e.pending|);
    ConcatJoin(p1, p2);
  }

  /** Reads kept before a stretch that ended at a zero read: the whole
      ended at that read. */
  lemma ClosedChain(e: Endpoint, mid: Endpoint, cur: Endpoint, p1: seq<seq<byte>>, p2: seq<seq<byte>>, size: nat)
    requires ReadsKept(e, mid, p1, size) && ClosedAt(mid, cur, p2, size)
    ensures ClosedAt(e, cur, p1 + p2, size)
  {
    ConsumedTrans(e.readResults, mid.readResults, cur.readResults);
    var u1 := Used(e.readResults, mid.readResults);
    var u2 := Used(mid.readResults, cur.readResults);
    var u := Used(e.readResults, cur.readResults);
    assert u[..|u| - 1] == u1 + u2[..|u2| - 1];
    ReadsMatchJoin(u1, p1, u2[..|u2| - 1], p2, size, |e.pending|);
    ConcatJoin(p1, p2);
  }

  /** Reads that all kept `receive` going did not end at a zero read. */
  lemma KeptNotClosed(e: Endpoint, cur: Endpoint, pieces: seq<seq<byte>>, size: nat)
    requires ReadsKept(e, cur, pieces, size)
    ensures !ClosedAt(e, cur, pieces, size)
  {
    if |cur.readResults| < |e.readResults| {
      var u := Used(e.readResults, cur.readResults);
      assert LastUsed(e.readResults, cur.readResults) == u[|u| - 1];
      ReadsMatchCount(u, pieces, size, |e.pending|);
      ReadsMatchCount(u[..|u| - 1], pieces, size, |e.pending|);
    }
  }

  /** A read that hands over the last bytes of the stream is not the zero
      return that ends `receive`, whatever pieces are claimed for it. */
  lemma DrainingReadNotClosed(pieces: seq<seq<byte>>, size: nat)
    ensures !ClosedAt(Endpoint([], [], [Deliver(5)], [1, 2, 3, 4, 5]), Endpoint([], [], [], []), pieces, size)
  {
  }

  /** One read of `receive` below the buffer size: bytes add a piece, a
      temporary error changes nothing but the script, and anything else
      ends the loop with every read before it matched. */
  lemma ReceivingStep(e: Endpoint, cur: Endpoint, buf: seq<byte>, buf': seq<byte>, pieces: seq<seq<byte>>)
    requires Receiving(e, cur, buf, buf', pieces) && |cur.readResults| > 0 && |Concat(pieces)| < |buf|
    ensures var out := Read(cur, |buf|);
      && (out.res.ret > 0 ==>
            && Receiving(e, out.rest, buf, out.data + buf'[|out.data|..], pieces + [out.data])
            && |Concat(pieces + [out.data])| == |Concat(pieces)| + out.res.ret)
      && (out.res.ret < 0 && out.res.temporary ==> Receiving(e, out.rest, buf, buf', pieces))
      && (out.res.ret <= 0 ==> Ended(e, out.rest, buf, buf', pieces))
      && (out.res.ret == 0 ==> ZeroRead(cur.readResults[0], out.rest.pending))
      && (out.res.ret < 0 && !out.res.temporary ==> cur.readResults[0] == ReadError(false))
      && (out.res.ret <= 0 ==> LastUsed(e.readResults, out.rest.readResults) == cur.readResults[0])
  {
    var out := Read(cur, |buf|);
    var ev := cur.readResults[0];
    var used := Used(e.readResults, cur.readResults);
    assert e.readResults[|e.readResults| - |cur.readResults|] == ev;
    assert Used(e.readResults, out.rest.readResults) == used + [ev];
    assert (used + [ev])[..|used|] == used;
    ReadsMatchStep(used, pieces, |buf|, |e.pending|, ev, out.data);
    if out.res.ret > 0 {
      ReadSoFarStep(e, cur, buf, buf', pieces);
    } else {
      assert out.rest.readResults == e.readResults[|e.readResults| - |out.rest.readResults|..];
    }
  }

  /** The first read hands over a whole, non-empty buffer's worth. */
  predicate WholeFirstRead(e: Endpoint, buf: seq<byte>)
  {
    |buf| > 0 && |e.readResults| > 0 && WholeRead(e.readResults[0], |buf|) && |e.pending| >= |buf|
  }

  /** The first read of a non-empty buffer returns zero: the peer has shut
      down and nothing is left to read. */
  predicate ZeroFirstRead(e: Endpoint, buf: seq<byte>)
  {
    |buf| > 0 && |e.readResults| > 0 && ZeroRead(e.readResults[0], e.pending)
  }

  /** The first read that counts in a run of reads matched with pieces is
      the first non-empty piece. */
  lemma {:induction false} ReadsMatchFront(used: seq<ReadEvent>, pieces: seq<seq<byte>>, size: nat, avail: int)
    requires ReadsMatch(used, pieces, size, avail) && |used| > 0 && used[0].Deliver?
    ensures |pieces| > 0 && 0 < |pieces[0]| <= used[0].limit
    decreases |used|
  {
    var front := used[..|used| - 1];
    var ev := used[|used| - 1];
    if |used| == 1 {
      assert ev == used[0];
      assert pieces[..|pieces| - 1] == [];
    } else {
      assert front[0] == used[0];
      if ev == ReadError(true) {
        ReadsMatchFront(front, pieces, size, avail);
      } else {
        ReadsMatchFront(front, pieces[..|pieces| - 1], size, avail);
      }
    }
  }

  /** `receive` whose first read returns zero reports the disconnect at
      once: one read used, no piece, the buffer and the unread bytes as
      they were. The premises are the postconditions of `Receive`. */
  lemma ZeroFirstReadDisconnects(e: Endpoint, st: Status, e': Endpoint, buf: seq<byte>, buf': seq<byte>, pieces: seq<seq<byte>>)
    requires ZeroFirstRead(e, buf)
    requires ReadSoFar(e, e', buf, buf', pieces)
    requires st == Success <==> |Concat(pieces)| >= |buf|
    requires st == Success || st == Pending ==> Receiving(e, e', buf, buf', pieces)
    requires st == Pending ==> e'.readResults == []
    requires st == Disconnected || st == Failure ==> Ended(e, e', buf, buf', pieces)
    requires st == Failure ==> LastUsed(e.readResults, e'.readResults) == ReadError(false)
    ensures st == Disconnected && pieces == [] && buf' == buf
    ensures e'.readResults == e.readResults[1..] && e'.pending == e.pending
  {
    var used := Used(e.readResults, e'.readResults);
    if |pieces| > 0 {
      assert |Concat(pieces)| > 0;
      assert e.readResults[0] == Deliver(0);
    }
    if st == Success || st == Pending {
      assert |used| > 0 && used[0] == e.readResults[0];
      ReadsMatchFront(used, pieces, |buf|, |e.pending|);
      assert false;
    }
    var matched := used[..|used| - 1];
    if |matched| > 0 {
      assert matched[0] == e.readResults[0];
      ReadsMatchFront(matched, pieces, |buf|, |e.pending|);
      assert false;
    }
    assert pieces == [];
    assert LastUsed(e.readResults, e'.readResults) == e.readResults[0];
  }

  /** The first read took a whole buffer's worth and nothing else was read. */
  predicate OneWholePiece(e: Endpoint, cur: Endpoint, buf: seq<byte>, pieces: seq<seq<byte>>)
  {
    |pieces| == 1 && |pieces[0]| == |buf| && |e.readResults| > 0 && cur.readResults == e.readResults[1..]
  }

  lemma WholeFirstReadTakes(e: Endpoint, buf: seq<byte>)
    requires WholeFirstRead(e, buf)
    ensures Read(e, |buf|).res.ret == |buf|
  {
  }

  lemma OneWholePieceIsTheFrame(e: Endpoint, cur: Endpoint, buf: seq<byte>, buf': seq<byte>, pieces: seq<seq<byte>>)
    requires OneWholePiece(e, cur, buf, pieces) && ReadSoFar(e, cur, buf, buf', pieces)
    ensures pieces == [e.pending[..|buf|]] && buf' == e.pending[..|buf|]
    ensures cur.pending == e.pending[|buf|..]
  {
    assert pieces[..0] == [];
    assert Concat(pieces) == pieces[0];
  }

  /** A read of `receive` that returned bytes keeps it going and does not
      end at a zero read. */
  lemma ReceiveTook(e: Endpoint, cur: Endpoint, buf: seq<byte>, buf': seq<byte>, pieces: seq<seq<byte>>)
    requires Receiving(e, cur, buf, buf', pieces) && |cur.readResults| > 0 && |Concat(pieces)| < |buf|
    requires Read(cur, |buf|).res.ret > 0
    ensures var out := Read(cur, |buf|);
      && Receiving(e, out.rest, buf, out.data + buf'[|out.data|..], pieces + [out.data])
      && |Concat(pieces + [out.data])| == |Concat(pieces)| + out.res.ret
      && !ClosedAt(e, out.rest, pieces, |buf|)
  {
    ReceivingStep(e, cur, buf, buf', pieces);
  }

  /** A read of `receive` that returned nothing: a temporary error keeps it
      going, and it ended at a zero read exactly when the read returned
      zero. */
  lemma ReceiveGotNothing(e: Endpoint, cur: Endpoint, buf: seq<byte>, buf': seq<byte>, pieces: seq<seq<byte>>)
    requires Receiving(e, cur, buf, buf', pieces) && |cur.readResults| > 0 && |Concat(pieces)| < |buf|
    requires Read(cur, |buf|).res.ret <= 0
    ensures var out := Read(cur, |buf|);
      && (out.res.ret < 0 && out.res.temporary ==> Receiving(e, out.rest, buf, buf', pieces))
      && Ended(e, out.rest, buf, buf', pieces)
      && (out.res.ret == 0 ==> ZeroRead(LastUsed(e.readResults, out.rest.readResults), out.rest.pending))
      && (out.res.ret < 0 && !out.res.temporary ==> LastUsed(e.readResults, out.rest.readResults) == ReadError(false))
      && (out.res.ret == 0 <==> ClosedAt(e, out.rest, pieces, |buf|))
  {
    ReceivingStep(e, cur, buf, buf', pieces);
  }

  /** One `read` of `receive` while the count is below the buffer size. */
  method ReceiveOnce(e: Endpoint, cur: Endpoint, buf: seq<byte>, buf': seq<byte>, pieces: seq<seq<byte>>)
    returns (ret: int, temporary: bool, cur': Endpoint, buf'': seq<byte>, pieces': seq<seq<byte>>)
    requires Receiving(e, cur, buf, buf', pieces) && |cur.readResults| > 0 && |Concat(pieces)| < |buf|
    ensures |cur'.readResults| < |cur.readResults|
    ensures ret > 0 ==> Receiving(e, cur', buf, buf'', pieces') && |Concat(pieces')| == |Concat(pieces)| + ret
    ensures ret <= 0 ==> buf'' == buf' && pieces' == pieces
    ensures ret < 0 && temporary ==> Receiving(e, cur', buf, buf', pieces)
    ensures ret <= 0 ==> Ended(e, cur', buf, buf', pieces)
    ensures ret == 0 ==> ZeroRead(LastUsed(e.readResults, cur'.readResults), cur'.pending)
    ensures ret < 0 && !temporary ==> LastUsed(e.readResults, cur'.readResults) == ReadError(false)
    ensures ret == 0 <==> ClosedAt(e, cur', pieces, |buf|)
    ensures WholeFirstRead(e, buf) && cur == e ==> ret == |buf| && OneWholePiece(e, cur', buf, pieces')
  {
    var out := Read(cur, |buf|);
    ret, temporary, cur' := out.res.ret, out.res.temporary, out.rest;
    if ret > 0 {
      buf'', pieces' := out.data + buf'[|out.data|..], pieces + [out.data];
      ReceiveTook(e, cur, buf, buf', pieces);
    } else {
      buf'', pieces' := buf', pieces;
      ReceiveGotNothing(e, cur, buf, buf', pieces);
    }
    if WholeFirstRead(e, buf) && cur == e {
      WholeFirstReadTakes(e, buf);
      assert Used(e.readResults, e.readResults) == [];
    }
  }

  /** How `receive` ended: the reads painted the buffer from offset 0; it
      succeeded exactly when the count reached the buffer size; a success
      or a stall kept every read it used, each handing over as many bytes
      as its limit, the buffer and the stream allowed; a disconnect is
      exactly a last read that returned zero after such reads; a failure
      is a hard read error; and a first read that takes a whole buffer
      ends it at once. */
  predicate ReceiveEnded(e: Endpoint, buf: seq<byte>, st: Status, e': Endpoint, buf': seq<byte>, pieces: seq<seq<byte>>)
  {
    && ReadSoFar(e, e', buf, buf', pieces)
    && (st == Success <==> |Concat(pieces)| >= |buf|)
    && (st == Success || st == Pending ==> Receiving(e, e', buf, buf', pieces))
    && (st == Pending ==> e'.readResults == [])
    && (st == Disconnected || st == Failure ==> Ended(e, e', buf, buf', pieces))
    && (st == Disconnected ==> ZeroRead(LastUsed(e.readResults, e'.readResults), e'.pending))
    && (st == Failure ==> LastUsed(e.readResults, e'.readResults) == ReadError(false))
    && (st == Success || st == Pending ==> ReadsKept(e, e', pieces, |buf|))
    && (st == Disconnected <==> ClosedAt(e, e', pieces, |buf|))
    && (WholeFirstRead(e, buf) ==>
          && st == Success && e'.readResults == e.readResults[1..]
          && pieces == [e.pending[..|buf|]] && buf' == e.pending[..|buf|]
          && e'.pending == e.pending[|buf|..])
  }

  /** `receive`: reads until the running count reaches the buffer size, every
      read asking for the whole buffer from its start. */
  method Receive(e: Endpoint, buf: seq<byte>) returns (st: Status, e': Endpoint, buf': seq<byte>, pieces: seq<seq<byte>>)
    ensures ReceiveEnded(e, buf, st, e', buf', pieces)
  {
    e' := e;
    buf' := buf;
    pieces := [];
    var received := 0;
    while received < |buf|
      invariant received == |Concat(pieces)|
      invariant Receiving(e, e', buf, buf', pieces)
      invariant WholeFirstRead(e, buf) ==>
        if |pieces| == 0 then e' == e else OneWholePiece(e, e', buf, pieces) && received == |buf|
      decreases |e'.readResults|
    {
      if |e'.readResults| == 0 {
        KeptNotClosed(e, e', pieces, |buf|);
        return Pending, e', buf', pieces;
      }
      var ret, temporary, cur', buf'', pieces' := ReceiveOnce(e, e', buf, buf', pieces);
      if ret > 0 {
        buf', pieces, received, e' := buf'', pieces', received + ret, cur';
      } else if ret == 0 {
        return Disconnected, cur', buf', pieces;
      } else if !temporary {
        return Failure, cur', buf', pieces;
      } else {
        e' := cur';
      }
    }
    if WholeFirstRead(e, buf) {
      OneWholePieceIsTheFrame(e, e', buf, buf', pieces);
    }
    KeptNotClosed(e, e', pieces, |buf|);
    st := Success;
  }

  /** Two reads that may each deliver five bytes, on a stream of ten, into
      an eight-byte buffer: the first takes five, the second five more, and
      `receive` succeeds with the second piece painted over the first. */
  lemma TwoFiveByteReads(st: Status, e': Endpoint, buf': seq<byte>, pieces: seq<seq<byte>>)
    requires ReceiveEnded(Endpoint([], [], [Deliver(5), Deliver(5)], [1, 2, 3, 4, 5, 6, 7, 8, 9, 10]),
                          [0, 0, 0, 0, 0, 0, 0, 0], st, e', buf', pieces)
    ensures st == Success && pieces == [[1, 2, 3, 4, 5], [6, 7, 8, 9, 10]]
    ensures buf' == [6, 7, 8, 9, 10, 0, 0, 0]
  {
    var e := Endpoint([], [], [Deliver(5), Deliver(5)], [1, 2, 3, 4, 5, 6, 7, 8, 9, 10]);
    var u := Used(e.readResults, e'.readResults);
    assert |pieces| <= 2;
    assert st != Failure;
    assert ReadsKept(e, e', pieces, 8);
    assert u == [Deliver(5), Deliver(5)];
    assert u[..1] == [Deliver(5)];
    assert |pieces| == 2;
    assert pieces[..1][..0] == [];
    assert |pieces[0]| == 5 && |pieces[1]| == 5;
    assert Concat(pieces) == pieces[0] + pieces[1] by {
      assert pieces[..1] == [pieces[0]];
    }
    assert e'.pending == [];
    assert pieces[0] == e.pending[..5] && pieces[1] == e.pending[5..];
    assert pieces[0] == [1, 2, 3, 4, 5] && pieces[1] == [6, 7, 8, 9, 10];
    assert pieces == [pieces[0], pieces[1]];
    assert pieces[..1] == [pieces[0]];
    assert PaintFromStart([0, 0, 0, 0, 0, 0, 0, 0], pieces[..1]) == pieces[0] + [0, 0, 0];
  }

  /** Two one-byte reads into a two-byte buffer: the second byte lands where
      the first did, and the last buffer position is never written. */
  lemma ReceiveOverwritesItsFirstBytes()
    ensures var pieces: seq<seq<byte>> := [[1], [2]];
      && PaintFromStart([0, 0], pieces) == [2, 0]
      && Concat(pieces) == [1, 2]
  {
    var pieces: seq<seq<byte>> := [[1], [2]];
    assert pieces[..1] == [[1]];
    assert pieces[..1][..0] == [];
  }

  /** The reads of the corrected `receive` that kept it going, against the
      pieces they returned, for a `size`-byte buffer on a stream that held
      `avail` unread bytes at the start: each one either failed temporarily
      or handed over the next piece, as long as its limit, the bytes still
      missing from the buffer and the bytes left on the stream allowed, and
      at least one byte. */
  predicate AdvanceMatch(used: seq<ReadEvent>, pieces: seq<seq<byte>>, size: nat, avail: int)
    decreases |used|
  {
    if |used| == 0 then pieces == []
    else
      var ev := used[|used| - 1];
      if ev == ReadError(true) then AdvanceMatch(used[..|used| - 1], pieces, size, avail)
      else
        && ev.Deliver? && |pieces| > 0
        && var before := pieces[..|pieces| - 1];
           && 0 < |pieces[|pieces| - 1]| == Smaller(Smaller(ev.limit, size - |Concat(before)|), avail - |Concat(before)|)
           && AdvanceMatch(used[..|used| - 1], before, size, avail)
  }

  lemma AdvanceMatchStep(used: seq<ReadEvent>, pieces: seq<seq<byte>>, size: nat, avail: int, ev: ReadEvent, p: seq<byte>)
    requires AdvanceMatch(used, pieces, size, avail)
    ensures ev == ReadError(true) ==> AdvanceMatch(used + [ev], pieces, size, avail)
    ensures ev.Deliver? && 0 < |p| == Smaller(Smaller(ev.limit, size - |Concat(pieces)|), avail - |Concat(pieces)|) ==>
      AdvanceMatch(used + [ev], pieces + [p], size, avail)
  {
    assert (used + [ev])[..|used|] == used;
    assert (pieces + [p])[..|pieces|] == pieces;
  }

  lemma AdvanceMatchTake(used: seq<ReadEvent>, pieces: seq<seq<byte>>, size: nat, avail: int, ev: ReadEvent, p: seq<byte>)
    requires AdvanceMatch(used, pieces, size, avail)
    requires ev.Deliver? && 0 < |p| == Smaller(Smaller(ev.limit, size - |Concat(pieces)|), avail - |Concat(pieces)|)
    ensures AdvanceMatch(used + [ev], pieces + [p], size, avail)
  {
    AdvanceMatchStep(used, pieces, size, avail, ev, p);
  }

  lemma {:induction false} AdvanceMatchCount(used: seq<ReadEvent>, pieces: seq<seq<byte>>, size: nat, avail: int)
    ensures AdvanceMatch(used, pieces, size, avail) ==> |pieces| == Handovers(used)
    decreases |used|
  {
    if |used| > 0 {
      AdvanceMatchCount(used[..|used| - 1], pieces, size, avail);
      if |pieces| > 0 {
        AdvanceMatchCount(used[..|used| - 1], pieces[..|pieces| - 1], size, avail);
      }
    }
  }

  /** What holds between the reads of the corrected `receive`: only reads
      were used, each matched with its piece; the pieces are the bytes the
      stream lost, never more than the buffer holds, and they fill the
      buffer from its start, in stream order, with the rest untouched. */
  predicate Advancing(e: Endpoint, cur: Endpoint, buf: seq<byte>, buf': seq<byte>, pieces: seq<seq<byte>>)
  {
    && cur.writeResults == e.writeResults && cur.sent == e.sent
    && Consumed(e.readResults, cur.readResults)
    && AdvanceMatch(Used(e.readResults, cur.readResults), pieces, |buf|, |e.pending|)
    && e.pending == Concat(pieces) + cur.pending
    && |Concat(pieces)| <= |buf| && buf' == Concat(pieces) + buf[|Concat(pieces)|..]
  }

  /** The corrected `receive` stopped at a read that returned nothing, with
      bytes still missing: the reads before it are as `Advancing` says. */
  predicate AdvanceStopped(e: Endpoint, cur: Endpoint, buf: seq<byte>, buf': seq<byte>, pieces: seq<seq<byte>>)
  {
    && cur.writeResults == e.writeResults && cur.sent == e.sent
    && Consumed(e.readResults, cur.readResults) && |cur.readResults| < |e.readResults|
    && AdvanceMatch(Used(e.readResults, cur.readResults)[..|e.readResults| - |cur.readResults| - 1], pieces, |buf|,
                    |e.pending|)
    && e.pending == Concat(pieces) + cur.pending
    && |Concat(pieces)| < |buf| && buf' == Concat(pieces) + buf[|Concat(pieces)|..]
  }

  /** The reads of the corrected `receive` ended at a `read` that returned
      zero: every read before it handed over the next of `pieces`, those are
      all the bytes the stream lost, and the last read met the peer's
      orderly shutdown on the bytes left. */
  predicate AdvanceClosed(e: Endpoint, cur: Endpoint, pieces: seq<seq<byte>>, size: nat)
  {
    && Consumed(e.readResults, cur.readResults) && |cur.readResults| < |e.readResults|
    && AdvanceMatch(Used(e.readResults, cur.readResults)[..|e.readResults| - |cur.readResults| - 1], pieces, size,
                    |e.pending|)
    && e.pending == Concat(pieces) + cur.pending
    && ZeroRead(LastUsed(e.readResults, cur.readResults), cur.pending)
  }

  /** Reads that all kept the corrected `receive` going did not end at a
      zero read. */
  lemma AdvanceKeptNotClosed(e: Endpoint, cur: Endpoint, pieces: seq<seq<byte>>, size: nat)
    requires Consumed(e.readResults, cur.readResults)
    requires AdvanceMatch(Used(e.readResults, cur.readResults), pieces, size, |e.pending|)
    requires e.pending == Concat(pieces) + cur.pending
    ensures !AdvanceClosed(e, cur, pieces, size)
  {
    if |cur.readResults| < |e.readResults| {
      var u := Used(e.readResults, cur.readResults);
      assert LastUsed(e.readResults, cur.readResults) == u[|u| - 1];
      AdvanceMatchCount(u, pieces, size, |e.pending|);
      AdvanceMatchCount(u[..|u| - 1], pieces, size, |e.pending|);
    }
  }

  /** How the corrected `receive` ended: it succeeded exactly when the
      pieces filled the buffer, which then holds them in stream order; a
      success or a stall kept every read it used, each handing over as many
      bytes as its limit, the missing bytes and the stream allowed; a
      disconnect is exactly a last read that returned zero after such reads;
      and a failure is a hard read error. */
  predicate AdvanceEnded(e: Endpoint, buf: seq<byte>, st: Status, e': Endpoint, buf': seq<byte>, pieces: seq<seq<byte>>)
  {
    && (st == Success <==> |Concat(pieces)| == |buf|)
    && (st == Success || st == Pending ==> Advancing(e, e', buf, buf', pieces))
    && (st == Pending ==> e'.readResults == [])
    && (st == Disconnected || st == Failure ==> AdvanceStopped(e, e', buf, buf', pieces))
    && (st == Disconnected ==> ZeroRead(LastUsed(e.readResults, e'.readResults), e'.pending))
    && (st == Failure ==> LastUsed(e.readResults, e'.readResults) == ReadError(false))
    && (st == Disconnected <==> AdvanceClosed(e, e', pieces, |buf|))
  }

  /** The corrected `receive` had stored `pieces` from the reads used up to
      `cur`, and the read at the head of `cur`'s script handed over `data`,
      as many bytes as its limit, the missing bytes and the stream allowed,
      leaving `rest`. */
  predicate TookNext(e: Endpoint, cur: Endpoint, size: nat, pieces: seq<seq<byte>>, rest: Endpoint, data: seq<byte>)
  {
    && cur.writeResults == e.writeResults && cur.sent == e.sent
    && Consumed(e.readResults, cur.readResults) && |cur.readResults| > 0
    && AdvanceMatch(Used(e.readResults, cur.readResults), pieces, size, |e.pending|)
    && e.pending == Concat(pieces) + cur.pending
    && rest.writeResults == cur.writeResults && rest.sent == cur.sent
    && rest.readResults == cur.readResults[1..] && cur.pending == data + rest.pending
    && cur.readResults[0].Deliver?
    && 0 < |data| == Smaller(Smaller(cur.readResults[0].limit, size - |Concat(pieces)|), |cur.pending|)
  }

  /** The read at the head of the script, matched with the piece it
      handed over, extends the matched reads by one. */
  lemma TookMatch(e: Endpoint, cur: Endpoint, size: nat, pieces: seq<seq<byte>>, rest: Endpoint, data: seq<byte>)
    requires TookNext(e, cur, size, pieces, rest, data)
    ensures Consumed(e.readResults, rest.readResults)
    ensures AdvanceMatch(Used(e.readResults, rest.readResults), pieces + [data], size, |e.pending|)
  {
    var ev := cur.readResults[0];
    assert |cur.pending| == |e.pending| - |Concat(pieces)|;
    ConsumedTrans(e.readResults, cur.readResults, rest.readResults);
    assert Used(cur.readResults, rest.readResults) == [ev];
    AdvanceMatchTake(Used(e.readResults, cur.readResults), pieces, size, |e.pending|, ev, data);
  }

  /** Bytes taken off the stream after the ones already stored: the stream
      lost both stretches and the buffer holds them in order. */
  lemma TookBytes(stored: seq<byte>, data: seq<byte>, before: seq<byte>, left: seq<byte>, after: seq<byte>,
                  buf: seq<byte>, joined: seq<byte>)
    requires before == stored + left && left == data + after && joined == stored + data
    requires |joined| <= |buf|
    ensures before == joined + after
    ensures stored + data + buf[|stored| + |data|..] == joined + buf[|joined|..]
  {
  }

  /** A read that handed the corrected `receive` the next piece keeps it
      going, with that piece stored after the ones before it. */
  lemma AdvanceTook(e: Endpoint, cur: Endpoint, buf: seq<byte>, pieces: seq<seq<byte>>, rest: Endpoint, data: seq<byte>)
    requires TookNext(e, cur, |buf|, pieces, rest, data)
    ensures Advancing(e, rest, buf, Concat(pieces) + data + buf[|Concat(pieces)| + |data|..], pieces + [data])
  {
    TookMatch(e, cur, |buf|, pieces, rest, data);
    ConcatAppend(pieces, data);
    TookBytes(Concat(pieces), data, e.pending, cur.pending, rest.pending, buf, Concat(pieces + [data]));
  }

  /** A read that handed the corrected `receive` nothing: a temporary
      error keeps it going, a zero read is a disconnect and a hard error a
      failure. */
  lemma AdvanceGotNothing(e: Endpoint, cur: Endpoint, buf: seq<byte>, buf': seq<byte>, pieces: seq<seq<byte>>,
                          rest: Endpoint)
    requires Advancing(e, cur, buf, buf', pieces) && |cur.readResults| > 0 && |Concat(pieces)| < |buf|
    requires rest.writeResults == cur.writeResults && rest.sent == cur.sent
    requires rest.readResults == cur.readResults[1..] && rest.pending == cur.pending
    ensures cur.readResults[0] == ReadError(true) ==> Advancing(e, rest, buf, buf', pieces)
    ensures ZeroRead(cur.readResults[0], cur.pending) ==> AdvanceEnded(e, buf, Disconnected, rest, buf', pieces)
    ensures cur.readResults[0] == ReadError(false) ==> AdvanceEnded(e, buf, Failure, rest, buf', pieces)
  {
    var ev := cur.readResults[0];
    assert e.readResults[|e.readResults| - |cur.readResults|] == ev;
    assert Used(e.readResults, rest.readResults) == Used(e.readResults, cur.readResults) + [ev];
    assert Used(e.readResults, rest.readResults)[..|e.readResults| - |rest.readResults| - 1]
      == Used(e.readResults, cur.readResults);
    assert LastUsed(e.readResults, rest.readResults) == ev;
    AdvanceMatchStep(Used(e.readResults, cur.readResults), pieces, |buf|, |e.pending|, ev, []);
  }

  /** One `read` of the corrected `receive` while bytes are missing: it asks
      for exactly those. */
  method AdvanceOnce(e: Endpoint, cur: Endpoint, buf: seq<byte>, buf': seq<byte>, pieces: seq<seq<byte>>)
    returns (ret: int, temporary: bool, cur': Endpoint, buf'': seq<byte>, pieces': seq<seq<byte>>)
    requires Advancing(e, cur, buf, buf', pieces) && |cur.readResults| > 0 && |Concat(pieces)| < |buf|
    ensures |cur'.readResults| < |cur.readResults|
    ensures ret > 0 ==> Advancing(e, cur', buf, buf'', pieces') && |Concat(pieces')| == |Concat(pieces)| + ret
    ensures ret < 0 && temporary ==> Advancing(e, cur', buf, buf', pieces)
    ensures ret == 0 ==> AdvanceEnded(e, buf, Disconnected, cur', buf', pieces)
    ensures ret < 0 && !temporary ==> AdvanceEnded(e, buf, Failure, cur', buf', pieces)
  {
    var k := |Concat(pieces)|;
    var out := Read(cur, |buf| - k);
    ret, temporary, cur' := out.res.ret, out.res.temporary, out.rest;
    if ret > 0 {
      buf'', pieces' := Concat(pieces) + out.data + buf[k + ret..], pieces + [out.data];
      AdvanceTook(e, cur, buf, pieces, cur', out.data);
      ConcatAppend(pieces, out.data);
    } else {
      buf'', pieces' := buf', pieces;
      AdvanceGotNothing(e, cur, buf, buf', pieces, cur');
    }
  }

  /** The loop of the corrected `receive` ended with every read kept: by a
      full buffer or by an exhausted script. */
  lemma AdvanceKept(e: Endpoint, cur: Endpoint, buf: seq<byte>, buf': seq<byte>, pieces: seq<seq<byte>>, st: Status)
    requires Advancing(e, cur, buf, buf', pieces)
    requires st == (if |Concat(pieces)| == |buf| then Success else Pending)
    requires st == Pending ==> cur.readResults == []
    ensures AdvanceEnded(e, buf, st, cur, buf', pieces)
  {
    AdvanceKeptNotClosed(e, cur, pieces, |buf|);
  }

  /** The evidently intended `receive`: each read asks only for the missing
      bytes and stores them at offset `received`. */
  method ReceiveAdvancing(e: Endpoint, buf: seq<byte>) returns (st: Status, e': Endpoint, buf': seq<byte>, pieces: seq<seq<byte>>)
    ensures e'.writeResults == e.writeResults && e'.sent == e.sent
    ensures |buf'| == |buf|
    ensures |e'.pending| <= |e.pending| <= |e'.pending| + |buf|
    ensures st == Success <==> |e.pending| - |e'.pending| == |buf|
    ensures e.pending == buf'[..|e.pending| - |e'.pending|] + e'.pending
    ensures buf'[|e.pending| - |e'.pending|..] == buf[|e.pending| - |e'.pending|..]
    ensures st == Success ==> buf' == e.pending[..|buf|]
    ensures st == Pending ==> e'.readResults == []
    ensures AdvanceEnded(e, buf, st, e', buf', pieces)
  {
    e' := e;
    buf' := buf;
    pieces := [];
    var received := 0;
    while received < |buf|
      invariant Advancing(e, e', buf, buf', pieces) && received == |Concat(pieces)|
      decreases |e'.readResults|
    {
      if |e'.readResults| == 0 {
        st := Pending;
        AdvanceKept(e, e', buf, buf', pieces, st);
        return;
      }
      var ret, temporary, cur', buf'', pieces' := AdvanceOnce(e, e', buf, buf', pieces);
      if ret > 0 {
        e', buf', pieces := cur', buf'', pieces';
        received := received + ret;
      } else if ret == 0 {
        return Disconnected, cur', buf', pieces;
      } else if !temporary {
        return Failure, cur', buf', pieces;
      } else {
        e' := cur';
      }
    }
    st := Success;
    AdvanceKept(e, e', buf, buf', pieces, st);
  }

  /** Reads that each allow one byte, while the buffer and the stream both
      have room for all of them, hand the corrected `receive` one byte
      apiece. */
  lemma {:induction false} AdvanceOneByteReads(used: seq<ReadEvent>, pieces: seq<seq<byte>>, size: nat, avail: int)
    requires forall i | 0 <= i < |used| :: used[i] == Deliver(1)
    requires |used| <= size && |used| <= avail
    requires AdvanceMatch(used, pieces, size, avail)
    ensures |pieces| == |used| && |Concat(pieces)| == |used|
    ensures forall i | 0 <= i < |pieces| :: |pieces[i]| == 1
    decreases |used|
  {
    if |used| > 0 {
      var before := pieces[..|pieces| - 1];
      AdvanceOneByteReads(used[..|used| - 1], before, size, avail);
      ConcatAppend(before, pieces[|pieces| - 1]);
      assert before + [pieces[|pieces| - 1]] == pieces;
      assert forall i | 0 <= i < |before| :: pieces[i] == before[i];
    }
  }

  /** When every read allows one byte and there are as many reads as the
      buffer has bytes, with enough bytes on the stream, the corrected
      `receive` succeeds with the first bytes of the stream, in order. */
  lemma AdvanceOneByteSuccess(e: Endpoint, buf: seq<byte>, st: Status, e': Endpoint, buf': seq<byte>, pieces: seq<seq<byte>>)
    requires forall i | 0 <= i < |e.readResults| :: e.readResults[i] == Deliver(1)
    requires |e.readResults| == |buf| <= |e.pending|
    requires AdvanceEnded(e, buf, st, e', buf', pieces)
    ensures st == Success && e'.readResults == [] && |pieces| == |buf|
    ensures forall i | 0 <= i < |pieces| :: |pieces[i]| == 1
    ensures buf' == Concat(pieces) == e.pending[..|buf|]
  {
    assert st != Failure;
    assert st != Disconnected;
    var u := Used(e.readResults, e'.readResults);
    assert forall i | 0 <= i < |u| :: u[i] == Deliver(1);
    AdvanceOneByteReads(u, pieces, |buf|, |e.pending|);
  }

  /** The input that shows the offset-0 overwrite, read by the corrected
      `receive`: two one-byte reads into a two-byte buffer succeed and
      leave the bytes in stream order. */
  lemma AdvancingTwoOneByteReads(st: Status, e': Endpoint, buf': seq<byte>, pieces: seq<seq<byte>>)
    requires AdvanceEnded(Endpoint([], [], [Deliver(1), Deliver(1)], [1, 2]), [0, 0], st, e', buf', pieces)
    ensures st == Success && pieces == [[1], [2]] && buf' == [1, 2] && e'.readResults == []
  {
    var e := Endpoint([], [], [Deliver(1), Deliver(1)], [1, 2]);
    AdvanceOneByteSuccess(e, [0, 0], st, e', buf', pieces);
    assert pieces == [] + [pieces[0]] + [pieces[1]];
    ConcatAppend([], pieces[0]);
    ConcatAppend([pieces[0]], pieces[1]);
    assert Concat(pieces) == pieces[0] + pieces[1] == [1, 2];
    assert |pieces[0]| == 1 && |pieces[1]| == 1;
    assert pieces[0] == (pieces[0] + pieces[1])[..1] && pieces[1] == (pieces[0] + pieces[1])[1..];
    assert pieces[0] == [1] && pieces[1] == [2];
    assert pieces == [pieces[0], pieces[1]];
  }
}
