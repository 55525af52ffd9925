/** The two sessions of `streaming_raw_tcp.cpp`, a throughput benchmark over
    a plain socket. The client announces the amount and the message size in
    two headers, sends serialized payloads of `message_size` bytes until it
    has accounted for the amount, and then waits for a one-byte
    acknowledgement. The server reads the two headers, receives and
    deserializes frames until the payload sizes reach the amount or the peer
    disconnects, and sends that acknowledgement. The serializer's output
    and the deserializer are given functions. */
module RawStreaming {
  import opened Bytes
  import opened Sums
  import opened Socket
  import opened RawTransport
  import opened SizeHeader

  /** The next two writes each take a whole header. */
  predicate HeaderWrites(e: Endpoint)
  {
    && |e.writeResults| >= 2
    && (forall i :: 0 <= i < 2 ==> e.writeResults[i].Accept? && e.writeResults[i].limit >= SIZE_T_BYTES)
  }

  /** The next two reads each take a whole header. */
  predicate HeaderReads(e: Endpoint)
  {
    && |e.readResults| >= 2
    && (forall i :: 0 <= i < 2 ==> e.readResults[i].Deliver? && e.readResults[i].limit >= SIZE_T_BYTES)
  }

  /** The first two calls of `run_client`: the amount header, then the
      message-size header; either failed write aborts. */
  function SendHeaders(e: Endpoint, amount: nat, messageSize: nat, host: Endianness): (r: Step<()>)
    ensures r.rest.readResults == e.readResults && r.rest.pending == e.pending
    ensures Consumed(e.writeResults, r.rest.writeResults)
    ensures r.Stalled? ==> r.rest.writeResults == []
    ensures r.Abort? ==>
      && r.exit == Exit("send_size_t failed")
      && |r.rest.writeResults| < |e.writeResults|
      && !Transfers(LastUsed(e.writeResults, r.rest.writeResults))
    ensures r.Next? ==> |r.rest.writeResults| + 2 == |e.writeResults|
    ensures HeaderWrites(e) ==>
      && r.Next?
      && r.rest.writeResults == e.writeResults[2..]
      && r.rest.sent == e.sent + HeaderImage(amount, host) + HeaderImage(messageSize, host)
  {
    var h := SendSizeT(e, amount, host);
    if h.Next? then
      var r := SendSizeT(h.rest, messageSize, host);
      assert |e.writeResults| >= 2 ==> e.writeResults[1..][1..] == e.writeResults[2..];
      r
    else h
  }

  /** The first two calls of `run_server`: the amount header, then the
      message-size header; either failed read aborts, and the read that
      aborts takes no bytes, so the zero it returned is judged against the
      bytes still unread when it was made. */
  function ReadHeaders(e: Endpoint, host: Endianness): (r: Step<(nat, nat)>)
    ensures r.rest.writeResults == e.writeResults && r.rest.sent == e.sent
    ensures Consumed(e.readResults, r.rest.readResults)
    ensures r.Stalled? ==> r.rest.readResults == []
    ensures r.Abort? ==>
      && r.exit == Exit("read_size_t failed")
      && |r.rest.readResults| < |e.readResults|
      && (ZeroRead(LastUsed(e.readResults, r.rest.readResults), r.rest.pending)
          || LastUsed(e.readResults, r.rest.readResults).ReadError?)
    ensures r.Abort? ==>
      || r.rest == e.(readResults := e.readResults[1..])
      || (&& ReadSizeT(e, host).Next? && |ReadSizeT(e, host).rest.readResults| > 0
          && r.rest == ReadSizeT(e, host).rest.(readResults := ReadSizeT(e, host).rest.readResults[1..]))
    ensures r.Next? ==> |r.rest.readResults| + 2 == |e.readResults|
    ensures HeaderReads(e) && |e.pending| >= 2 * SIZE_T_BYTES ==> r.Next?
  {
    var a := ReadSizeT(e, host);
    if a.Abort? then Abort(a.exit, a.rest)
    else if a.Stalled? then Stalled(a.rest)
    else
      var b := ReadSizeT(a.rest, host);
      assert |e.readResults| >= 2 ==> e.readResults[1..][1..] == e.readResults[2..];
      if b.Abort? then Abort(b.exit, b.rest)
      else if b.Stalled? then Stalled(b.rest)
      else Next((a.value, b.value), b.rest)
  }

  /** The server reads the headers in the order the client wrote them: when
      both arrive whole, it learns the amount and then the message size,
      each reduced to its low 32 bits, and what follows is left unread. */
  lemma HeadersInOrder(amount: nat, messageSize: nat, host: Endianness, r: Endpoint, later: seq<byte>)
    requires HeaderReads(r)
    requires r.pending == HeaderImage(amount, host) + HeaderImage(messageSize, host) + later
    ensures ReadHeaders(r, host)
      == Next((amount % TWO_32, messageSize % TWO_32), r.(readResults := r.readResults[2..], pending := later))
  {
    var m := HeaderImage(messageSize, host);
    var r1 := r.(readResults := r.readResults[1..], pending := m + later);
    assert r.pending == HeaderImage(amount, host) + (m + later);
    HeaderRead(amount, host, r, m + later);
    HeaderRead(messageSize, host, r1, later);
    assert r1.readResults[1..] == r.readResults[2..];
  }

  /** The next `count` writes each take a whole `size`-byte frame. */
  predicate FramesAccepted(writes: seq<WriteEvent>, size: nat, count: nat)
  {
    |writes| >= count && forall i :: 0 <= i < count ==> WholeWrite(writes[i], size)
  }

  /** After `count` frames went out whole: nothing was read, and the writes
      used so far put exactly those frames on the wire. */
  predicate SentFrames(e: Endpoint, cur: Endpoint, frame: seq<byte>, count: nat)
  {
    && cur.readResults == e.readResults && cur.pending == e.pending
    && Consumed(e.writeResults, cur.writeResults)
    && cur.sent == e.sent + Repeat(frame, count)
  }

  /** One pass of the send loop: the payload goes out through `send`. */
  method SendFrame(e: Endpoint, cur: Endpoint, frame: seq<byte>, count: nat) returns (st: Status, cur': Endpoint)
    requires |frame| > 0 && SentFrames(e, cur, frame, count)
    ensures cur'.readResults == e.readResults && cur'.pending == e.pending
    ensures Consumed(e.writeResults, cur'.writeResults)
    ensures st == Success ==> SentFrames(e, cur', frame, count + 1) && |cur'.writeResults| < |cur.writeResults|
    ensures st == Pending ==> cur'.writeResults == []
    ensures st == Disconnected || st == Failure ==>
      |cur'.writeResults| < |e.writeResults| && !WriteContinues(LastUsed(e.writeResults, cur'.writeResults))
    ensures |cur.writeResults| > 0 && WholeWrite(cur.writeResults[0], |frame|) ==>
      st == Success && cur'.writeResults == cur.writeResults[1..]
  {
    var chunks;
    st, cur', chunks := Send(cur, frame);
    ConsumedTrans(e.writeResults, cur.writeResults, cur'.writeResults);
    if st == Success {
      assert frame[..Sum(chunks)] == frame;
    }
  }

  /** What holds of the send loop after `count` passes: the last pass
      started below the amount, the frames sent so far are on the wire, and
      when every frame the loop needs is taken whole, the writes used are
      exactly one per frame. */
  predicate Sending(e: Endpoint, amount: nat, messageSize: nat, frame: Option<seq<byte>>, cur: Endpoint, count: nat)
  {
    && (count == 0 || (count - 1) * messageSize < amount)
    && (count == 0 ==> cur == e)
    && (count > 0 ==> frame.Some?)
    && (frame.Some? ==> SentFrames(e, cur, frame.value, count))
    && (frame.Some? && messageSize > 0 && FramesAccepted(e.writeResults, |frame.value|, CeilDiv(amount, messageSize)) ==>
          count <= CeilDiv(amount, messageSize) && cur.writeResults == e.writeResults[count..])
  }

  /** How the send loop ends: nothing is read; an abort is a serializer
      failure (exactly when there is something to send and no frame) or a
      write that did not go on; a stall ran out the writes; on completion
      the frame count is the least that covers the amount, the frames are on
      the wire, and when every write is whole the loop completes with one
      write per frame. */
  predicate FramesSent(e: Endpoint, amount: nat, messageSize: nat, frame: Option<seq<byte>>, r: Step<nat>)
  {
    && r.rest.readResults == e.readResults && r.rest.pending == e.pending
    && Consumed(e.writeResults, r.rest.writeResults)
    && (r.Abort? ==> r.exit == Exit("serializing failed") || r.exit == Exit("write failed"))
    && ((r.Abort? && r.exit == Exit("serializing failed")) <==> frame.None? && amount > 0)
    && (r.Abort? && r.exit == Exit("write failed") ==>
          |r.rest.writeResults| < |e.writeResults| && !WriteContinues(LastUsed(e.writeResults, r.rest.writeResults)))
    && (r.Stalled? ==> r.rest.writeResults == [])
    && (r.Next? ==> r.value * messageSize >= amount && (r.value == 0 || (r.value - 1) * messageSize < amount))
    && (r.Next? && messageSize > 0 ==> r.value == CeilDiv(amount, messageSize))
    && (r.Next? && r.value == 0 ==> r.rest == e)
    && (r.Next? && r.value > 0 ==> frame.Some? && r.rest.sent == e.sent + Repeat(frame.value, r.value))
    && (frame.Some? && messageSize > 0 && FramesAccepted(e.writeResults, |frame.value|, CeilDiv(amount, messageSize)) ==>
          r.Next? && r.rest.writeResults == e.writeResults[CeilDiv(amount, messageSize)..])
  }

  /** One pass of the send loop, started below the amount: either the loop
      goes on one frame further, or it ends. */
  method SendStep(e: Endpoint, amount: nat, messageSize: nat, frame: Option<seq<byte>>, cur: Endpoint, count: nat)
    returns (cur': Endpoint, done: Option<Step<nat>>)
    requires frame.Some? ==> |frame.value| > 0
    requires Sending(e, amount, messageSize, frame, cur, count) && count * messageSize < amount
    ensures done.Some? ==> FramesSent(e, amount, messageSize, frame, done.value)
    ensures done.None? ==>
      Sending(e, amount, messageSize, frame, cur', count + 1) && |cur'.writeResults| < |cur.writeResults|
  {
    cur' := cur;
    if frame.None? {
      return cur', Some(Abort(Exit("serializing failed"), cur));
    }
    if frame.Some? && messageSize > 0 && FramesAccepted(e.writeResults, |frame.value|, CeilDiv(amount, messageSize)) {
      CeilDivAbove(amount, messageSize, count);
    }
    var st;
    st, cur' := SendFrame(e, cur, frame.value, count);
    if st == Pending {
      done := Some(Stalled(cur'));
    } else if st != Success {
      done := Some(Abort(Exit("write failed"), cur'));
    } else {
      done := None;
    }
  }

  /** The send loop of `run_client`: while the bytes accounted for are below
      the amount, the unchanged payload is serialized and sent in full and
      `message_size` more bytes are accounted for. A serializer failure or a
      send that does not return 1 aborts. The result is the number of frames
      sent: `ceil(amount / message_size)` for a positive message size. */
  method SendFrames(e: Endpoint, amount: nat, messageSize: nat, frame: Option<seq<byte>>) returns (r: Step<nat>)
    requires frame.Some? ==> |frame.value| > 0
    ensures FramesSent(e, amount, messageSize, frame, r)
  {
    var cur := e;
    var count := 0;
    var sent := 0;
    while sent < amount
      invariant sent == count * messageSize
      invariant Sending(e, amount, messageSize, frame, cur, count)
      decreases |cur.writeResults|
    {
      var cur', done := SendStep(e, amount, messageSize, frame, cur, count);
      if done.Some? {
        return done.value;
      }
      cur := cur';
      assert (count + 1) * messageSize == count * messageSize + messageSize;
      count := count + 1;
      sent := sent + messageSize;
    }
    if messageSize > 0 {
      CeilDivUnique(amount, messageSize, count);
    }
    return Next(count, cur);
  }

  /** The acknowledgement wait of `run_client`: one-byte reads are repeated
      until one returns exactly 1. A disconnect or an error does not end the
      wait: the client spins on. */
  method AwaitAck(e: Endpoint) returns (r: Step<()>)
    ensures !r.Abort?
    ensures r.rest.writeResults == e.writeResults && r.rest.sent == e.sent
    ensures Consumed(e.readResults, r.rest.readResults)
    ensures r.Next? ==> |e.pending| > 0 && r.rest.pending == e.pending[1..]
    ensures r.Next? ==> |r.rest.readResults| < |e.readResults|
    ensures r.Next? ==> var used := Used(e.readResults, r.rest.readResults);
      && Delivers(used[|used| - 1])
      && forall i :: 0 <= i < |used| - 1 ==> !Delivers(used[i])
    ensures r.Stalled? ==> r.rest.readResults == []
    ensures r.Stalled? ==> |e.pending| == 0 || forall i :: 0 <= i < |e.readResults| ==> !Delivers(e.readResults[i])
  {
    var cur := e;
    while true
      invariant cur.writeResults == e.writeResults && cur.sent == e.sent && cur.pending == e.pending
      invariant Consumed(e.readResults, cur.readResults)
      invariant |e.pending| == 0 || forall i :: 0 <= i < |Used(e.readResults, cur.readResults)| ==> !Delivers(Used(e.readResults, cur.readResults)[i])
      decreases |cur.readResults|
    {
      if |cur.readResults| == 0 {
        assert Used(e.readResults, cur.readResults) == e.readResults;
        return Stalled(cur);
      }
      var k := |e.readResults| - |cur.readResults|;
      assert e.readResults[k] == cur.readResults[0];
      var out := Read(cur, 1);
      assert Used(e.readResults, out.rest.readResults) == Used(e.readResults, cur.readResults) + [cur.readResults[0]];
      assert out.rest.readResults == e.readResults[|e.readResults| - |out.rest.readResults|..];
      if out.res.ret == 1 {
        assert e.pending == out.data + out.rest.pending;
        return Next((), out.rest);
      }
      cur := out.rest;
    }
  }

  /** The acknowledgement is there to be read and some read will hand it over. */
  predicate AckArrives(e: Endpoint)
  {
    |e.pending| > 0 && exists i :: 0 <= i < |e.readResults| && Delivers(e.readResults[i])
  }

  /** How the part of `run_client` after the headers ends: an abort is a
      serializer failure (exactly when there is something to send and no
      frame) or a write that did not go on; a stall ran out the writes or
      the reads; on completion the frame count is the least that covers the
      amount and the frames are on the wire; and when every frame is taken
      whole and the acknowledgement arrives, it completes. */
  predicate Acknowledged(e: Endpoint, amount: nat, messageSize: nat, frame: Option<seq<byte>>, r: Step<nat>)
  {
    && Consumed(e.writeResults, r.rest.writeResults) && Consumed(e.readResults, r.rest.readResults)
    && (r.Abort? ==> r.exit == Exit("serializing failed") || r.exit == Exit("write failed"))
    && (r.Abort? && r.exit == Exit("write failed") ==>
          |r.rest.writeResults| < |e.writeResults| && !WriteContinues(LastUsed(e.writeResults, r.rest.writeResults)))
    && ((r.Abort? && r.exit == Exit("serializing failed")) <==> frame.None? && amount > 0)
    && (r.Stalled? ==> r.rest.writeResults == [] || r.rest.readResults == [])
    && (r.Next? && messageSize > 0 ==> r.value == CeilDiv(amount, messageSize))
    && (r.Next? ==> r.value * messageSize >= amount)
    && (r.Next? ==> r.rest.sent == e.sent + (if r.value == 0 || frame.None? then [] else Repeat(frame.value, r.value)))
    && (&& frame.Some? && messageSize > 0
        && FramesAccepted(e.writeResults, |frame.value|, CeilDiv(amount, messageSize))
        && AckArrives(e)
        ==> r.Next?)
  }

  /** A send loop that does not complete ends `run_client` the same way. */
  lemma FramesStop(e: Endpoint, amount: nat, messageSize: nat, frame: Option<seq<byte>>, f: Step<nat>)
    requires FramesSent(e, amount, messageSize, frame, f) && !f.Next?
    ensures Acknowledged(e, amount, messageSize, frame, Halt(f))
  {
  }

  /** After a completed send loop, the acknowledgement wait decides how
      `run_client` ends: a stall there means the acknowledgement never came. */
  lemma AckEnds(e: Endpoint, amount: nat, messageSize: nat, frame: Option<seq<byte>>, f: Step<nat>, a: Step<()>)
    requires FramesSent(e, amount, messageSize, frame, f) && f.Next?
    requires !a.Abort? && a.rest.writeResults == f.rest.writeResults && a.rest.sent == f.rest.sent
    requires Consumed(f.rest.readResults, a.rest.readResults)
    requires a.Stalled? ==> a.rest.readResults == []
    requires a.Stalled? ==>
      |f.rest.pending| == 0 || forall i :: 0 <= i < |f.rest.readResults| ==> !Delivers(f.rest.readResults[i])
    ensures Acknowledged(e, amount, messageSize, frame, if a.Next? then Next(f.value, a.rest) else Stalled(a.rest))
  {
    if a.Stalled? {
      assert f.rest.readResults == e.readResults && f.rest.pending == e.pending;
    }
  }

  /** The part of `run_client` after the headers: the frames, then the
      acknowledgement. */
  method FramesThenAck(e: Endpoint, amount: nat, messageSize: nat, frame: Option<seq<byte>>) returns (r: Step<nat>)
    requires frame.Some? ==> |frame.value| > 0
    ensures Acknowledged(e, amount, messageSize, frame, r)
  {
    var f := SendFrames(e, amount, messageSize, frame);
    if !f.Next? {
      FramesStop(e, amount, messageSize, frame, f);
      return Halt(f);
    }
    var a := AwaitAck(f.rest);
    AckEnds(e, amount, messageSize, frame, f, a);
    r := if a.Next? then Next(f.value, a.rest) else Stalled(a.rest);
  }

  /** `run_client`: headers, frames, acknowledgement. On completion it has
      sent `ceil(amount / message_size)` frames, and when the two header
      writes were whole, the bytes on the wire are the two headers followed
      by the frames. It completes whenever every write is whole and the
      acknowledgement arrives. */
  method RunClient(e: Endpoint, amount: nat, messageSize: nat, frame: Option<seq<byte>>, host: Endianness) returns (r: Step<nat>)
    requires frame.Some? ==> |frame.value| > 0
    ensures Consumed(e.writeResults, r.rest.writeResults) && Consumed(e.readResults, r.rest.readResults)
    ensures r.Abort? ==> r.exit in {Exit("send_size_t failed"), Exit("serializing failed"), Exit("write failed")}
    ensures r.Abort? && r.exit == Exit("send_size_t failed") ==>
      |r.rest.writeResults| < |e.writeResults| && !Transfers(LastUsed(e.writeResults, r.rest.writeResults))
    ensures r.Abort? && r.exit == Exit("write failed") ==>
      |r.rest.writeResults| < |e.writeResults| && !WriteContinues(LastUsed(e.writeResults, r.rest.writeResults))
    ensures (r.Abort? && r.exit == Exit("serializing failed")) <==>
      SendHeaders(e, amount, messageSize, host).Next? && frame.None? && amount > 0
    ensures r.Stalled? ==> r.rest.writeResults == [] || r.rest.readResults == []
    ensures r.Next? && messageSize > 0 ==> r.value == CeilDiv(amount, messageSize)
    ensures r.Next? ==> r.value * messageSize >= amount
    ensures r.Next? && HeaderWrites(e) ==>
      r.rest.sent == e.sent + HeaderImage(amount, host) + HeaderImage(messageSize, host)
                     + (if r.value == 0 || frame.None? then [] else Repeat(frame.value, r.value))
    ensures && HeaderWrites(e) && frame.Some? && messageSize > 0
            && FramesAccepted(e.writeResults[2..], |frame.value|, CeilDiv(amount, messageSize))
            && AckArrives(e)
            ==> r.Next?
  {
    var h := SendHeaders(e, amount, messageSize, host);
    if !h.Next? {
      return if h.Abort? then Abort(h.exit, h.rest) else Stalled(h.rest);
    }
    r := FramesThenAck(h.rest, amount, messageSize, frame);
    ConsumedTrans(e.writeResults, h.rest.writeResults, r.rest.writeResults);
  }

  /** What the server's receive loop ends with: the payload sizes it added
      up, whether it left through a disconnect, and its receive buffer. */
  datatype Received = Received(sizes: seq<nat>, disconnected: bool, buf: seq<byte>)

  /** The bytes still to come cover the amount in whole frames: each of the
      next reads hands over one `size`-byte frame that deserializes to a
      positive payload size, until those sizes reach `need`. */
  predicate FramesAhead(results: seq<ReadEvent>, pending: seq<byte>, size: nat, need: nat, decode: seq<byte> -> Option<nat>)
    decreases need
  {
    need == 0 ||
    (&& |results| > 0 && WholeRead(results[0], size) && |pending| >= size
     && decode(pending[..size]).Some? && decode(pending[..size]).value > 0
     && FramesAhead(results[1..], pending[size..], size,
                    if decode(pending[..size]).value >= need then 0 else need - decode(pending[..size]).value, decode))
  }

  /** Each frame has `size` bytes and deserializes to the matching size. */
  predicate FramesDecoded(frames: seq<seq<byte>>, sizes: seq<nat>, size: nat, decode: seq<byte> -> Option<nat>)
  {
    && |frames| == |sizes|
    && forall k :: 0 <= k < |frames| ==> |frames[k]| == size && decode(frames[k]) == Some(sizes[k])
  }

  lemma FramesDecodedAppend(frames: seq<seq<byte>>, sizes: seq<nat>, size: nat, decode: seq<byte> -> Option<nat>,
                            frame: seq<byte>, n: nat)
    requires FramesDecoded(frames, sizes, size, decode)
    requires |frame| == size && decode(frame) == Some(n)
    ensures FramesDecoded(frames + [frame], sizes + [n], size, decode)
  {
    assert forall k :: 0 <= k < |frames| ==> (frames + [frame])[k] == frames[k] && (sizes + [n])[k] == sizes[k];
  }

  /** What one pass of the server's receive loop did, judged against the
      start `e` of the loop and the socket `cur` the pass started from: its
      reads painted the buffer on top of the earlier passes; it stalled
      only on an exhausted script and otherwise used a read; it says why it
      stopped early, a disconnect being exactly a last read that returned
      zero after reads that each handed over a piece; and when whole frames
      lay ahead it took the next one, leaving the rest ahead. */
  predicate FrameTaken(e: Endpoint, cur: Endpoint, buf: seq<byte>, all: seq<seq<byte>>, need: nat,
                       decode: seq<byte> -> Option<nat>, st: Status, e': Endpoint, b': seq<byte>, all': seq<seq<byte>>)
  {
    && e'.writeResults == cur.writeResults && e'.sent == cur.sent
    && |b'| == |buf| && Painted(e, e', buf, b', all')
    && (st != Pending ==> |e'.readResults| < |cur.readResults|)
    && (st == Pending ==> e'.readResults == [])
    && (st == Success || st == Pending ==> ReadsKept(e, e', all', |buf|))
    && (st == Disconnected <==> ClosedAt(e, e', all', |buf|))
    && (st == Failure ==>
          |e'.readResults| < |e.readResults| && LastUsed(e.readResults, e'.readResults) == ReadError(false))
    && (need > 0 && FramesAhead(cur.readResults, cur.pending, |buf|, need, decode) ==>
          && st == Success && all' == all + [b'] && decode(b').Some? && decode(b').value > 0
          && FramesAhead(e'.readResults, e'.pending, |buf|,
                         if decode(b').value >= need then 0 else need - decode(b').value, decode))
  }

  /** One pass of the server's receive loop: a `receive` into the buffer. */
  method ReceiveFrame(e: Endpoint, cur: Endpoint, buf: seq<byte>, b: seq<byte>, all: seq<seq<byte>>,
                      need: nat, decode: seq<byte> -> Option<nat>)
    returns (st: Status, e': Endpoint, b': seq<byte>, all': seq<seq<byte>>)
    requires |buf| > 0 && |b| == |buf| && Painted(e, cur, buf, b, all) && ReadsKept(e, cur, all, |buf|)
    ensures FrameTaken(e, cur, buf, all, need, decode, st, e', b', all')
  {
    var pieces;
    st, e', b', pieces := Receive(cur, b);
    all' := all + pieces;
    ReceivedFrame(e, cur, buf, b, all, need, decode, st, e', b', pieces);
  }

  /** A `receive` that ended as it does, on top of the earlier passes, ends
      the pass as `FrameTaken` says. */
  lemma ReceivedFrame(e: Endpoint, cur: Endpoint, buf: seq<byte>, b: seq<byte>, all: seq<seq<byte>>,
                      need: nat, decode: seq<byte> -> Option<nat>,
                      st: Status, e': Endpoint, b': seq<byte>, pieces: seq<seq<byte>>)
    requires |buf| > 0 && |b| == |buf| && Painted(e, cur, buf, b, all) && ReadsKept(e, cur, all, |buf|)
    requires ReceiveEnded(cur, b, st, e', b', pieces)
    ensures FrameTaken(e, cur, buf, all, need, decode, st, e', b', all + pieces)
  {
    PassChained(e, cur, buf, b, all, st, e', b', pieces);
    if need > 0 && FramesAhead(cur.readResults, cur.pending, |buf|, need, decode) {
      NextFrameTaken(cur, b, need, decode, st, e', b', pieces);
    }
  }

  /** The facts about the loop so far carry across one more `receive`: the
      reads painted the buffer, and the outcome is judged against the start
      of the loop. */
  lemma PassChained(e: Endpoint, cur: Endpoint, buf: seq<byte>, b: seq<byte>, all: seq<seq<byte>>,
                    st: Status, e': Endpoint, b': seq<byte>, pieces: seq<seq<byte>>)
    requires |buf| > 0 && |b| == |buf| && Painted(e, cur, buf, b, all) && ReadsKept(e, cur, all, |buf|)
    requires ReceiveEnded(cur, b, st, e', b', pieces)
    ensures e'.writeResults == cur.writeResults && e'.sent == cur.sent
    ensures |b'| == |buf| && Painted(e, e', buf, b', all + pieces)
    ensures st != Pending ==> |e'.readResults| < |cur.readResults|
    ensures st == Pending ==> e'.readResults == []
    ensures st == Success || st == Pending ==> ReadsKept(e, e', all + pieces, |buf|)
    ensures st == Disconnected <==> ClosedAt(e, e', all + pieces, |buf|)
    ensures st == Failure ==>
      |e'.readResults| < |e.readResults| && LastUsed(e.readResults, e'.readResults) == ReadError(false)
  {
    PaintedChain(e, cur, cur, e', buf, b, b', all, pieces);
    ConsumedTrans(e.readResults, cur.readResults, e'.readResults);
    if st == Success {
      assert |pieces| > 0;
    }
    if st == Disconnected {
      ClosedChain(e, cur, e', all, pieces, |buf|);
    } else if st == Success || st == Pending {
      KeptChain(e, cur, e', all, pieces, |buf|);
      KeptNotClosed(e, e', all + pieces, |buf|);
    }
  }

  /** When whole frames lie ahead, `receive` takes the next one whole and
      leaves the rest ahead. */
  lemma NextFrameTaken(cur: Endpoint, b: seq<byte>, need: nat, decode: seq<byte> -> Option<nat>,
                       st: Status, e': Endpoint, b': seq<byte>, pieces: seq<seq<byte>>)
    requires |b| > 0 && need > 0 && FramesAhead(cur.readResults, cur.pending, |b|, need, decode)
    requires ReceiveEnded(cur, b, st, e', b', pieces)
    ensures st == Success && pieces == [b'] && decode(b').Some? && decode(b').value > 0
    ensures FramesAhead(e'.readResults, e'.pending, |b|,
                        if decode(b').value >= need then 0 else need - decode(b').value, decode)
  {
    assert WholeFirstRead(cur, b);
  }

  /** How the receive loop of `run_server` ends. `b'` is the buffer the
      reads painted with `pieces`, on every way out: the one the loop ends
      with, or the one that failed to deserialize. A hard read error or a
      deserializer failure aborts, a stall ran out the script, and the loop
      is left through a disconnect exactly when its last read returned zero
      after reads that each handed over a piece. Each pass began below the
      amount, and a loop not left by a disconnect reached it; when whole
      frames covering the amount lie ahead, the loop reaches the amount
      with their sizes. */
  ghost predicate FramesReceived(e: Endpoint, amount: nat, buf: seq<byte>, decode: seq<byte> -> Option<nat>,
                                 r: Step<Received>, b': seq<byte>, pieces: seq<seq<byte>>)
  {
    && r.rest.writeResults == e.writeResults && r.rest.sent == e.sent
    && Consumed(e.readResults, r.rest.readResults)
    && |b'| == |buf| && Painted(e, r.rest, buf, b', pieces)
    && (r.Abort? ==> r.exit == ExitWith("receive failed", RuntimeError) || r.exit == Exit("deserializing failed"))
    && (r.Abort? && r.exit == ExitWith("receive failed", RuntimeError) ==>
          |r.rest.readResults| < |e.readResults| && LastUsed(e.readResults, r.rest.readResults) == ReadError(false))
    && (r.Abort? && r.exit == Exit("deserializing failed") ==> decode(b').None? && ReadsKept(e, r.rest, pieces, |buf|))
    && (r.Stalled? ==> r.rest.readResults == [] && ReadsKept(e, r.rest, pieces, |buf|))
    && ((r.Next? && r.value.disconnected) <==> ClosedAt(e, r.rest, pieces, |buf|))
    && (r.Next? && !r.value.disconnected ==> ReadsKept(e, r.rest, pieces, |buf|))
    && (r.Next? ==> r.value.buf == b')
    && (r.Next? ==> forall k :: 0 <= k < |r.value.sizes| ==> Sum(r.value.sizes[..k]) < amount)
    && (r.Next? && !r.value.disconnected ==> Sum(r.value.sizes) >= amount)
    && (FramesAhead(e.readResults, e.pending, |buf|, amount, decode) ==>
          r.Next? && !r.value.disconnected && FramesDecoded(pieces, r.value.sizes, |buf|, decode))
  }

  /** The state of the receive loop between passes: the socket, the
      buffer, the sizes added up so far and the reads so far. */
  datatype Gather = Gather(cur: Endpoint, b: seq<byte>, sizes: seq<nat>, all: seq<seq<byte>>)

  /** What holds of the receive loop between passes: only reads so far,
      which painted the buffer and each handed over a piece; every pass
      began below the amount; and when whole frames covering the amount
      lay ahead at the start, the passes so far took the first of them and
      the rest still lie ahead. */
  ghost predicate Gathering(e: Endpoint, amount: nat, buf: seq<byte>, decode: seq<byte> -> Option<nat>, s: Gather)
  {
    && s.cur.writeResults == e.writeResults && s.cur.sent == e.sent
    && |s.b| == |buf| && Painted(e, s.cur, buf, s.b, s.all) && ReadsKept(e, s.cur, s.all, |buf|)
    && (forall k :: 0 <= k < |s.sizes| ==> Sum(s.sizes[..k]) < amount)
    && (FramesAhead(e.readResults, e.pending, |buf|, amount, decode) ==>
          && FramesDecoded(s.all, s.sizes, |buf|, decode)
          && (Sum(s.sizes) < amount ==>
                FramesAhead(s.cur.readResults, s.cur.pending, |buf|, amount - Sum(s.sizes), decode)))
  }

  /** A pass that stopped early ends the loop the way `FramesReceived`
      says. */
  lemma GatherStops(e: Endpoint, amount: nat, buf: seq<byte>, decode: seq<byte> -> Option<nat>, s: Gather,
                    st: Status, e': Endpoint, b': seq<byte>, all': seq<seq<byte>>, r: Step<Received>)
    requires Gathering(e, amount, buf, decode, s) && Sum(s.sizes) < amount
    requires FrameTaken(e, s.cur, buf, s.all, amount - Sum(s.sizes), decode, st, e', b', all')
    requires st == Pending ==> r == Stalled(e')
    requires st == Disconnected ==> r == Next(Received(s.sizes, true, b'), e')
    requires st == Failure ==> r == Abort(ExitWith("receive failed", RuntimeError), e')
    requires st == Success ==> decode(b').None? && r == Abort(Exit("deserializing failed"), e')
    ensures FramesReceived(e, amount, buf, decode, r, b', all')
  {
    ConsumedTrans(e.readResults, s.cur.readResults, e'.readResults);
  }

  /** Adding a size while the sum is below the amount keeps every step
      below it. */
  lemma StepsBelow(sizes: seq<nat>, n: nat, amount: nat)
    requires forall k :: 0 <= k < |sizes| ==> Sum(sizes[..k]) < amount
    requires Sum(sizes) < amount
    ensures forall k :: 0 <= k < |sizes + [n]| ==> Sum((sizes + [n])[..k]) < amount
  {
    forall k | 0 <= k <= |sizes|
      ensures Sum((sizes + [n])[..k]) < amount
    {
      assert (sizes + [n])[..k] == sizes[..k];
    }
  }

  /** A pass that deserialized a payload keeps the loop's facts, one size
      further. */
  lemma GatherGoesOn(e: Endpoint, amount: nat, buf: seq<byte>, decode: seq<byte> -> Option<nat>, s: Gather,
                     e': Endpoint, b': seq<byte>, all': seq<seq<byte>>, n: nat)
    requires Gathering(e, amount, buf, decode, s) && Sum(s.sizes) < amount
    requires FrameTaken(e, s.cur, buf, s.all, amount - Sum(s.sizes), decode, Success, e', b', all')
    requires decode(b') == Some(n)
    ensures Gathering(e, amount, buf, decode, Gather(e', b', s.sizes + [n], all'))
  {
    StepsBelow(s.sizes, n, amount);
    if FramesAhead(e.readResults, e.pending, |buf|, amount, decode) {
      FramesDecodedAppend(s.all, s.sizes, |buf|, decode, b', n);
    }
    SumAppend(s.sizes, n);
  }

  /** One pass of the receive loop: either the loop goes on from a state
      one payload further, or it ends. */
  method GatherOnce(e: Endpoint, amount: nat, buf: seq<byte>, decode: seq<byte> -> Option<nat>, s: Gather)
    returns (s': Gather, done: Option<Step<Received>>)
    requires |buf| > 0 && Gathering(e, amount, buf, decode, s) && Sum(s.sizes) < amount
    ensures done.Some? ==> FramesReceived(e, amount, buf, decode, done.value, s'.b, s'.all)
    ensures done.None? ==>
      Gathering(e, amount, buf, decode, s') && |s'.cur.readResults| < |s.cur.readResults|
  {
    var st, e', b', all' := ReceiveFrame(e, s.cur, buf, s.b, s.all, amount - Sum(s.sizes), decode);
    s' := Gather(e', b', s.sizes, all');
    var r: Step<Received>;
    if st == Pending {
      r := Stalled(e');
    } else if st == Disconnected {
      r := Next(Received(s.sizes, true, b'), e');
    } else if st == Failure {
      r := Abort(ExitWith("receive failed", ErrorCode(st)), e');
    } else if decode(b').None? {
      r := Abort(Exit("deserializing failed"), e');
    } else {
      GatherGoesOn(e, amount, buf, decode, s, e', b', all', decode(b').value);
      return Gather(e', b', s.sizes + [decode(b').value], all'), None;
    }
    GatherStops(e, amount, buf, decode, s, st, e', b', all', r);
    done := Some(r);
  }

  /** The receive loop of `run_server`: while the payload bytes are below
      the amount it fills the buffer with `receive`, deserializes a payload
      from it and adds that payload's size. A disconnect leaves the loop;
      any other receive error, or a deserializer failure, aborts. */
  method ReceiveFrames(e: Endpoint, amount: nat, buf: seq<byte>, decode: seq<byte> -> Option<nat>)
    returns (r: Step<Received>, b': seq<byte>, pieces: seq<seq<byte>>)
    requires |buf| > 0
    ensures FramesReceived(e, amount, buf, decode, r, b', pieces)
  {
    var s := Gather(e, buf, [], []);
    assert Concat([]) == [];
    while Sum(s.sizes) < amount
      invariant Gathering(e, amount, buf, decode, s)
      decreases |s.cur.readResults|
    {
      var s', done := GatherOnce(e, amount, buf, decode, s);
      s := s';
      if done.Some? {
        return done.value, s.b, s.all;
      }
    }
    KeptNotClosed(e, s.cur, s.all, |buf|);
    return Next(Received(s.sizes, false, s.b), s.cur), s.b, s.all;
  }

  /** When every payload the server deserializes has `message_size` bytes,
      a loop that reached the amount ran `ceil(amount / message_size)`
      times, as many as the client's send loop. */
  lemma ServerIterations(sizes: seq<nat>, amount: nat, messageSize: nat)
    requires messageSize > 0
    requires forall k :: 0 <= k < |sizes| ==> sizes[k] == messageSize
    requires forall k :: 0 <= k < |sizes| ==> Sum(sizes[..k]) < amount
    requires Sum(sizes) >= amount
    ensures |sizes| == CeilDiv(amount, messageSize)
  {
    SumBounds(sizes, messageSize, messageSize);
    if |sizes| > 0 {
      var k := |sizes| - 1;
      SumBounds(sizes[..k], messageSize, messageSize);
    }
    CeilDivUnique(amount, messageSize, |sizes|);
  }

  /** What `run_server` learns and receives before its acknowledgement:
      the two header values and what the receive loop ended with. */
  datatype Served = Served(amount: nat, messageSize: nat, received: Received)

  /** The headers arrive and the frames after them cover the amount they
      announce, in whole reads of the server's buffer size. */
  predicate ServerFed(e: Endpoint, host: Endianness, frameSize: nat -> nat, decode: seq<byte> -> Option<nat>)
  {
    && ReadHeaders(e, host).Next?
    && var h := ReadHeaders(e, host);
       FramesAhead(h.rest.readResults, h.rest.pending, frameSize(h.value.1), h.value.0, decode)
  }

  /** How the headers and the receive loop of `run_server` end, judged by
      the reads alone. `read_size_t failed` follows a read that returned
      zero or failed; `receive failed` follows a hard read error; a stall
      has no reads left. Once the headers are in, `b` is the buffer of the
      serialized size that the loop's reads painted from offset 0 with
      `pieces`; `deserializing failed` is that buffer failing to
      deserialize, and the loop was left through a disconnect exactly when
      its last read returned zero after reads that each handed over a
      piece. A completed loop learned the header values the client sent,
      ends with that buffer, added up sizes that were below the amount
      before each step, and either reached the amount or met a read that
      returned zero. */
  ghost predicate Listened(e: Endpoint, host: Endianness, frameSize: nat -> nat, decode: seq<byte> -> Option<nat>,
                           r: Step<Served>, b: seq<byte>, pieces: seq<seq<byte>>)
  {
    && Consumed(e.readResults, r.rest.readResults)
    && (r.Abort? ==> r.exit in {Exit("read_size_t failed"), ExitWith("receive failed", RuntimeError), Exit("deserializing failed")})
    && ((r.Abort? && r.exit == Exit("read_size_t failed")) <==> ReadHeaders(e, host).Abort?)
    && (r.Abort? && r.exit == Exit("read_size_t failed") ==>
          && r.rest == ReadHeaders(e, host).rest && |r.rest.readResults| < |e.readResults|
          && (ZeroRead(LastUsed(e.readResults, r.rest.readResults), r.rest.pending)
              || LastUsed(e.readResults, r.rest.readResults).ReadError?))
    && (r.Abort? && r.exit == ExitWith("receive failed", RuntimeError) ==>
          |r.rest.readResults| < |e.readResults| && LastUsed(e.readResults, r.rest.readResults) == ReadError(false))
    && (r.Stalled? ==> r.rest.readResults == [])
    && (ReadHeaders(e, host).Next? ==>
          var h := ReadHeaders(e, host);
          && |b| == frameSize(h.value.1) && Painted(h.rest, r.rest, Zeros(frameSize(h.value.1)), b, pieces)
          && (r.Abort? && r.exit == Exit("deserializing failed") ==> decode(b).None? && ReadsKept(h.rest, r.rest, pieces, frameSize(h.value.1)))
          && ((r.Next? && r.value.received.disconnected) <==> ClosedAt(h.rest, r.rest, pieces, frameSize(h.value.1))))
    && (r.Next? ==>
          && ReadHeaders(e, host).Next? && ReadHeaders(e, host).value == (r.value.amount, r.value.messageSize)
          && r.value.received.buf == b
          && (forall k :: 0 <= k < |r.value.received.sizes| ==> Sum(r.value.received.sizes[..k]) < r.value.amount)
          && (!r.value.received.disconnected ==> Sum(r.value.received.sizes) >= r.value.amount))
  }

  /** The first part of `run_server`: the headers, then the receive loop
      over a zeroed buffer of the serialized size of a `message_size`-byte
      payload. It only reads. */
  method ServeFrames(e: Endpoint, host: Endianness, frameSize: nat -> nat, decode: seq<byte> -> Option<nat>)
    returns (r: Step<Served>, b: seq<byte>, pieces: seq<seq<byte>>)
    requires forall n :: frameSize(n) > 0
    ensures r.rest.writeResults == e.writeResults && r.rest.sent == e.sent
    ensures Listened(e, host, frameSize, decode, r, b, pieces)
    ensures ServerFed(e, host, frameSize, decode) ==>
      && r.Next? && !r.value.received.disconnected
      && FramesDecoded(pieces, r.value.received.sizes, frameSize(r.value.messageSize), decode)
  {
    var h := ReadHeaders(e, host);
    if !h.Next? {
      return (if h.Abort? then Abort(h.exit, h.rest) else Stalled(h.rest)), [], [];
    }
    var (amount, messageSize) := h.value;
    var rf;
    rf, b, pieces := ReceiveFrames(h.rest, amount, Zeros(frameSize(messageSize)), decode);
    ConsumedTrans(e.readResults, h.rest.readResults, rf.rest.readResults);
    if !rf.Next? {
      return (if rf.Abort? then Abort(rf.exit, rf.rest) else Stalled(rf.rest)), b, pieces;
    }
    return Next(Served(amount, messageSize, rf.value), rf.rest), b, pieces;
  }

  /** What one `send` of the buffer's first byte did to the socket: reads
      untouched, a prefix of the write script consumed, the byte sent
      exactly when the call succeeded, `Pending` only with the script
      exhausted, a failure only at a call that does not let `send` go on,
      and success whenever the first write takes the whole byte. */
  predicate Acked(cur: Endpoint, buf: seq<byte>, st: Status, e': Endpoint)
    requires |buf| > 0
  {
    && e'.readResults == cur.readResults && e'.pending == cur.pending
    && Consumed(cur.writeResults, e'.writeResults)
    && (st == Success ==> e'.sent == cur.sent + [buf[0]])
    && (st != Success ==> e'.sent == cur.sent)
    && (st == Pending ==> e'.writeResults == [])
    && (st == Disconnected || st == Failure ==>
          |e'.writeResults| < |cur.writeResults| && !WriteContinues(LastUsed(cur.writeResults, e'.writeResults)))
    && (|cur.writeResults| > 0 && WholeWrite(cur.writeResults[0], 1) ==> st == Success)
  }

  /** The last call of `run_server`: one `send` of the buffer's first byte. */
  method Acknowledge(cur: Endpoint, buf: seq<byte>) returns (st: Status, e': Endpoint)
    requires |buf| > 0
    ensures Acked(cur, buf, st, e')
  {
    var ack := buf[..1];
    var chunks;
    st, e', chunks := Send(cur, ack);
    if st != Success {
      assert Sum(chunks) == 0;
      assert ack[..0] == [];
    }
    if st == Disconnected || st == Failure {
      var used := Used(cur.writeResults, e'.writeResults);
      assert LastUsed(cur.writeResults, e'.writeResults) == used[|used| - 1];
    }
  }

  /** `run_server`: headers, the receive loop, then one `send` of the
      buffer's first byte, on both ways out of the loop and whatever that
      send returns. `s` is how the headers and the loop ended, `b` and
      `pieces` the buffer its reads painted, `ack` how the
      acknowledgement's `send` returned when there was one. Nothing else is
      written, so the server's only output is that one byte. */
  method RunServer(e: Endpoint, host: Endianness, frameSize: nat -> nat, decode: seq<byte> -> Option<nat>)
    returns (s: Step<Served>, b: seq<byte>, pieces: seq<seq<byte>>, ack: Option<Status>, e': Endpoint)
    requires forall n :: frameSize(n) > 0
    ensures Listened(e, host, frameSize, decode, s, b, pieces)
    ensures s.rest.writeResults == e.writeResults && s.rest.sent == e.sent
    ensures ack.Some? <==> s.Next?
    ensures ack.None? ==> e' == s.rest
    ensures ack.Some? ==> Acked(s.rest, s.value.received.buf, ack.value, e')
    ensures ServerFed(e, host, frameSize, decode) ==>
      && s.Next? && !s.value.received.disconnected
      && FramesDecoded(pieces, s.value.received.sizes, frameSize(s.value.messageSize), decode)
  {
    s, b, pieces := ServeFrames(e, host, frameSize, decode);
    if !s.Next? {
      return s, b, pieces, None, s.rest;
    }
    var st;
    st, e' := Acknowledge(s.rest, s.value.received.buf);
    ack := Some(st);
  }
}
