/** The two sessions of `pingpong_raw_tcp.cpp`, a latency benchmark over a
    plain socket. The client announces the message size in one header and
    then, round after round, serializes its payload, sends it and receives
    and deserializes the answer into its payload. The server reads the
    header and answers every frame it receives with the serialization of its
    own zeroed payload until the client disconnects. The serializer and the
    deserializer are given functions, and so is the serialized size of a
    payload of a given length, which both sides compute the same way.

    Both sessions receive into one buffer that lives for the whole session
    (`resize` to the same size keeps its contents), so every method below
    also returns that buffer and the pieces the reads painted into it. */
module RawPingPong {
  import opened Bytes
  import opened Sums
  import opened Socket
  import opened RawTransport
  import opened SizeHeader

  /** The last write used returned zero: the peer closed the connection. */
  predicate WriteClosed(e: Endpoint, rest: Endpoint)
  {
    |rest.writeResults| < |e.writeResults| && LastUsed(e.writeResults, rest.writeResults) == Accept(0)
  }

  /** The last write used failed with an error that is not temporary. */
  predicate WriteBroke(e: Endpoint, rest: Endpoint)
  {
    |rest.writeResults| < |e.writeResults| && LastUsed(e.writeResults, rest.writeResults) == WriteError(false)
  }

  /** The last read used failed with an error that is not temporary. */
  predicate ReadBroke(e: Endpoint, rest: Endpoint)
  {
    |rest.readResults| < |e.readResults| && LastUsed(e.readResults, rest.readResults) == ReadError(false)
  }

  /** A read that failed hard is no disconnect. */
  lemma BrokeNotClosed(e: Endpoint, rest: Endpoint, pieces: seq<seq<byte>>, size: nat)
    requires ReadBroke(e, rest)
    ensures !ClosedAt(e, rest, pieces, size)
  {
  }

  /** The next round goes through: the peer's frame arrives whole in one
      read and deserializes, and the outgoing frame exists and goes out in
      one write. */
  predicate RoundFed(e: Endpoint, size: nat, frame: Option<seq<byte>>, decode: seq<byte> -> Option<seq<byte>>)
  {
    && size > 0 && |e.readResults| > 0 && WholeRead(e.readResults[0], size) && |e.pending| >= size
    && decode(e.pending[..size]).Some?
    && frame.Some? && |frame.value| > 0 && |e.writeResults| > 0 && WholeWrite(e.writeResults[0], |frame.value|)
  }

  /** Where a round that went through leaves the socket: one write and one
      read used, the frame on the wire, `size` bytes taken off the stream. */
  function Advance(e: Endpoint, frame: seq<byte>, size: nat): Endpoint
    requires |e.writeResults| > 0 && |e.readResults| > 0 && |e.pending| >= size
  {
    Endpoint(e.writeResults[1..], e.sent + frame, e.readResults[1..], e.pending[size..])
  }

  lemma LastUsedOf<T>(before: seq<T>, after: seq<T>)
    requires |after| < |before|
    ensures var used := Used(before, after); |used| > 0 && LastUsed(before, after) == used[|used| - 1]
  {
  }

  /** What one call of `send` did, in the terms the sessions test. */
  predicate Sent(e: Endpoint, st: Status, e': Endpoint, frame: seq<byte>)
  {
    && e'.readResults == e.readResults && e'.pending == e.pending
    && Consumed(e.writeResults, e'.writeResults)
    && (st == Success ==> e'.sent == e.sent + frame && (|frame| > 0 ==> |e'.writeResults| < |e.writeResults|))
    && (st == Pending ==> e'.writeResults == [])
    && (st == Disconnected ==> WriteClosed(e, e'))
    && (st == Failure ==> WriteBroke(e, e'))
    && (|frame| > 0 && |e.writeResults| > 0 && WholeWrite(e.writeResults[0], |frame|) ==>
          st == Success && e'.writeResults == e.writeResults[1..])
  }

  /** A `send` that took the whole frame put it on the wire, with one
      write at least when the frame is not empty. */
  lemma SendSucceeded(e: Endpoint, frame: seq<byte>, e': Endpoint, chunks: seq<int>)
    requires SendEnded(e, frame, Success, e', chunks)
    ensures e'.sent == e.sent + frame && (|frame| > 0 ==> |e'.writeResults| < |e.writeResults|)
  {
    assert frame[..Sum(chunks)] == frame;
    if |chunks| == 0 {
      assert Sum(chunks) == 0;
    }
  }

  /** A `send` that stopped early stopped at its last write. */
  lemma SendStopped(e: Endpoint, frame: seq<byte>, st: Status, e': Endpoint, chunks: seq<int>)
    requires SendEnded(e, frame, st, e', chunks) && (st == Disconnected || st == Failure)
    ensures st == Disconnected ==> WriteClosed(e, e')
    ensures st == Failure ==> WriteBroke(e, e')
  {
  }

  /** How `send` ended, in the terms the sessions test. */
  lemma SendEndedSent(e: Endpoint, frame: seq<byte>, st: Status, e': Endpoint, chunks: seq<int>)
    requires SendEnded(e, frame, st, e', chunks)
    requires |frame| > 0 && |e.writeResults| > 0 && WholeWrite(e.writeResults[0], |frame|) ==>
      st == Success && e'.writeResults == e.writeResults[1..]
    ensures Sent(e, st, e', frame)
  {
    if st == Success {
      SendSucceeded(e, frame, e', chunks);
    } else if st == Disconnected || st == Failure {
      SendStopped(e, frame, st, e', chunks);
    }
  }

  /** `send` of a whole frame. */
  method SendAll(e: Endpoint, frame: seq<byte>) returns (st: Status, e': Endpoint)
    ensures Sent(e, st, e', frame)
  {
    var chunks;
    st, e', chunks := Send(e, frame);
    SendEndedSent(e, frame, st, e', chunks);
  }

  /** What one call of `receive` did, in the terms the sessions test: the
      reads painted the buffer, a success took a buffer's worth, each early
      return is tied to the read that caused it (a disconnect is exactly a
      last read that returned zero after reads that each handed over the
      piece they painted), and a first read that returns zero or a whole
      buffer decides the outcome. */
  predicate Got(e: Endpoint, st: Status, e': Endpoint, buf: seq<byte>, buf': seq<byte>, pieces: seq<seq<byte>>)
  {
    && e'.writeResults == e.writeResults && e'.sent == e.sent
    && |buf'| == |buf| && Painted(e, e', buf, buf', pieces)
    && (st == Success ==> |Concat(pieces)| >= |buf| && (|buf| > 0 ==> |e'.readResults| < |e.readResults|))
    && (st == Pending ==> e'.readResults == [])
    && (st == Success || st == Pending ==> ReadsKept(e, e', pieces, |buf|))
    && (st == Disconnected <==> ClosedAt(e, e', pieces, |buf|))
    && (st == Failure ==> ReadBroke(e, e'))
    && (ZeroFirstRead(e, buf) ==>
          st == Disconnected && e'.readResults == e.readResults[1..] && e'.pending == e.pending && buf' == buf)
    && (WholeFirstRead(e, buf) ==>
          && st == Success && e'.readResults == e.readResults[1..]
          && buf' == e.pending[..|buf|] && e'.pending == e.pending[|buf|..])
  }

  /** `receive` into the session's buffer. */
  method ReceiveAll(e: Endpoint, buf: seq<byte>) returns (st: Status, e': Endpoint, buf': seq<byte>, pieces: seq<seq<byte>>)
    ensures Got(e, st, e', buf, buf', pieces)
  {
    st, e', buf', pieces := Receive(e, buf);
    if ZeroFirstRead(e, buf) {
      ZeroFirstReadDisconnects(e, st, e', buf, buf', pieces);
    }
    if st == Success && |buf| > 0 {
      assert |pieces| > 0;
    }
  }

  /** Painting depends on the reading side alone, so writes in between
      keep it. */
  lemma PaintedAcrossWrites(e: Endpoint, cur: Endpoint, e0: Endpoint, cur0: Endpoint, buf: seq<byte>, buf': seq<byte>,
                            pieces: seq<seq<byte>>)
    requires Painted(e, cur, buf, buf', pieces)
    requires e0.readResults == e.readResults && e0.pending == e.pending
    requires cur0.readResults == cur.readResults && cur0.pending == cur.pending
    ensures Painted(e0, cur0, buf, buf', pieces)
  {
  }

  /** Why `run_server` exits, judged by the last call it made: a hard read
      error for `receive failed`, and for `send failed` a write that
      returned zero or failed hard. */
  predicate ServerFailed(e: Endpoint, rest: Endpoint, exit: Exit)
  {
    && exit in {ExitWith("receive failed", RuntimeError), Exit("deserializing failed"), Exit("serializing failed"),
                ExitWith("send failed", SocketDisconnected), ExitWith("send failed", RuntimeError)}
    && (exit == ExitWith("receive failed", RuntimeError) ==> ReadBroke(e, rest))
    && (exit == ExitWith("send failed", SocketDisconnected) ==> WriteClosed(e, rest))
    && (exit == ExitWith("send failed", RuntimeError) ==> WriteBroke(e, rest))
  }

  /** What the server did before the client went away. */
  datatype ServerRun = ServerRun(messageSize: nat, replies: nat)

  /** What one round of `run_server` did with the server's frame (`None`
      when serializing failed): the reads painted the buffer, a failure is
      judged by the last call made, a stall ran out the script, `false` is a
      disconnect during the receive with nothing written (exactly the
      rounds whose last read returned zero while every read before it
      handed over a piece), `true` a round
      that received a buffer that deserializes and sent the frame; a first
      read that returns zero is such a disconnect, and a round whose read
      and write each take the whole frame goes through and advances the
      socket by one of each. */
  predicate Replied(e: Endpoint, frame: Option<seq<byte>>, recvBuf: seq<byte>, decode: seq<byte> -> Option<seq<byte>>,
                    r: Step<bool>, buf': seq<byte>, pieces: seq<seq<byte>>)
  {
    && |buf'| == |recvBuf| && Painted(e, r.rest, recvBuf, buf', pieces)
    && Consumed(e.writeResults, r.rest.writeResults)
    && (r.Abort? ==> ServerFailed(e, r.rest, r.exit))
    && (r.Abort? && r.exit == Exit("deserializing failed") ==> decode(buf').None?)
    && (r.Abort? && r.exit == Exit("serializing failed") ==> frame.None? && decode(buf').Some?)
    && (r.Stalled? ==> r.rest.readResults == [] || r.rest.writeResults == [])
    && (r.Next? && !r.value <==> ClosedAt(e, r.rest, pieces, |recvBuf|))
    && (r.Next? && !r.value ==> r.rest.writeResults == e.writeResults && r.rest.sent == e.sent)
    && (!(r.Next? && !r.value) && !(r.Abort? && r.exit == ExitWith("receive failed", RuntimeError)) ==>
          ReadsKept(e, r.rest, pieces, |recvBuf|))
    && (r.Next? && r.value ==>
          && frame.Some? && r.rest.sent == e.sent + frame.value && decode(buf').Some?
          && |Concat(pieces)| >= |recvBuf| && |r.rest.readResults| < |e.readResults|)
    && (ZeroFirstRead(e, recvBuf) ==>
          && r.Next? && !r.value && buf' == recvBuf
          && r.rest.readResults == e.readResults[1..] && r.rest.pending == e.pending)
    && (RoundFed(e, |recvBuf|, frame, decode) ==>
          r == Next(true, Advance(e, frame.value, |recvBuf|)) && buf' == e.pending[..|recvBuf|])
  }

  /** The second half of a round of `run_server`, once a frame that
      deserializes is in: send the server's frame. */
  method SendReply(e: Endpoint, e': Endpoint, frame: seq<byte>, recvBuf: seq<byte>, decode: seq<byte> -> Option<seq<byte>>,
                   buf': seq<byte>, pieces: seq<seq<byte>>)
    returns (r: Step<bool>)
    requires |buf'| == |recvBuf| && Painted(e, e', recvBuf, buf', pieces)
    requires e'.writeResults == e.writeResults && e'.sent == e.sent
    requires decode(buf').Some? && |Concat(pieces)| >= |recvBuf| && |e'.readResults| < |e.readResults|
    requires ReadsKept(e, e', pieces, |recvBuf|) && !ClosedAt(e, e', pieces, |recvBuf|)
    requires !ZeroFirstRead(e, recvBuf)
    requires RoundFed(e, |recvBuf|, Some(frame), decode) ==>
      e'.readResults == e.readResults[1..] && e'.pending == e.pending[|recvBuf|..] && buf' == e.pending[..|recvBuf|]
    ensures Replied(e, Some(frame), recvBuf, decode, r, buf', pieces)
  {
    var st, e2 := SendAll(e', frame);
    PaintedAcrossWrites(e, e', e, e2, recvBuf, buf', pieces);
    if RoundFed(e, |recvBuf|, Some(frame), decode) {
      assert e2 == Advance(e, frame, |recvBuf|);
    }
    if st == Pending {
      r := Stalled(e2);
    } else if st != Success {
      r := Abort(ExitWith("send failed", ErrorCode(st)), e2);
    } else {
      r := Next(true, e2);
    }
  }

  /** One round of `run_server`: receive a frame into the buffer, check
      that it deserializes, then send the server's frame. `false` is the
      disconnect that ends the session: the receive met a read that
      returned zero, and nothing was written. */
  method ServerRound(e: Endpoint, recvBuf: seq<byte>, frame: Option<seq<byte>>, decode: seq<byte> -> Option<seq<byte>>)
    returns (r: Step<bool>, buf': seq<byte>, pieces: seq<seq<byte>>)
    requires |recvBuf| > 0
    ensures Replied(e, frame, recvBuf, decode, r, buf', pieces)
  {
    var st, e';
    st, e', buf', pieces := ReceiveAll(e, recvBuf);
    if RoundFed(e, |recvBuf|, frame, decode) {
      assert WholeFirstRead(e, recvBuf);
    }
    if st == Pending {
      r := Stalled(e');
    } else if st == Disconnected {
      r := Next(false, e');
    } else if st == Failure {
      r := Abort(ExitWith("receive failed", ErrorCode(st)), e');
    } else if decode(buf').None? {
      r := Abort(Exit("deserializing failed"), e');
    } else if frame.None? {
      r := Abort(Exit("serializing failed"), e');
    } else {
      r := SendReply(e, e', frame.value, recvBuf, decode, buf', pieces);
    }
  }

  /** The client sends `n` more frames the server can answer and then hangs
      up: each of the next `n` rounds goes through, and the read after
      them returns zero. */
  predicate ServerFed(e: Endpoint, size: nat, frame: Option<seq<byte>>, decode: seq<byte> -> Option<seq<byte>>, n: nat)
    decreases n
  {
    if n == 0 then size > 0 && |e.readResults| > 0 && ZeroRead(e.readResults[0], e.pending)
    else RoundFed(e, size, frame, decode) && ServerFed(Advance(e, frame.value, size), size, frame, decode, n - 1)
  }

  /** A failure judged against the socket at the start of a round is judged
      the same against the socket at the start of the session. */
  lemma ServerFailedLifts(e: Endpoint, cur: Endpoint, rest: Endpoint, exit: Exit)
    requires Consumed(e.writeResults, cur.writeResults) && Consumed(e.readResults, cur.readResults)
    requires Consumed(cur.writeResults, rest.writeResults) && Consumed(cur.readResults, rest.readResults)
    requires ServerFailed(cur, rest, exit)
    ensures ServerFailed(e, rest, exit)
  {
    ConsumedTrans(e.writeResults, cur.writeResults, rest.writeResults);
    ConsumedTrans(e.readResults, cur.readResults, rest.readResults);
  }

  /** What one pass of the server loop did, judged against the session
      start `e` and the socket `cur` the pass started from. */
  predicate ServeStepped(e: Endpoint, cur: Endpoint, recvBuf: seq<byte>, frame: Option<seq<byte>>,
                         decode: seq<byte> -> Option<seq<byte>>, r: Step<bool>, buf': seq<byte>, all': seq<seq<byte>>)
  {
    && |buf'| == |recvBuf| && Painted(e, r.rest, recvBuf, buf', all')
    && Consumed(e.writeResults, r.rest.writeResults)
    && (r.Abort? ==> ServerFailed(e, r.rest, r.exit))
    && (r.Abort? && r.exit == Exit("deserializing failed") ==> decode(buf').None?)
    && (r.Abort? && r.exit == Exit("serializing failed") ==> frame.None?)
    && (r.Stalled? ==> r.rest.readResults == [] || r.rest.writeResults == [])
    && (r.Next? && !r.value <==> ClosedAt(e, r.rest, all', |recvBuf|))
    && (r.Next? && !r.value ==> r.rest.sent == cur.sent)
    && (!(r.Next? && !r.value) && !(r.Abort? && r.exit == ExitWith("receive failed", RuntimeError)) ==>
          ReadsKept(e, r.rest, all', |recvBuf|))
    && (r.Next? && r.value ==>
          frame.Some? && r.rest.sent == cur.sent + frame.value && |r.rest.readResults| < |cur.readResults|)
    && (ZeroFirstRead(cur, recvBuf) ==> r.Next? && !r.value)
    && (RoundFed(cur, |recvBuf|, frame, decode) ==> r == Next(true, Advance(cur, frame.value, |recvBuf|)))
  }

  /** One pass of the server loop, with the facts about the whole session
      so far carried across it. */
  method ServeOnce(e: Endpoint, cur: Endpoint, recvBuf: seq<byte>, buf: seq<byte>, all: seq<seq<byte>>,
                   frame: Option<seq<byte>>, decode: seq<byte> -> Option<seq<byte>>)
    returns (r: Step<bool>, buf': seq<byte>, all': seq<seq<byte>>)
    requires |recvBuf| > 0 && |buf| == |recvBuf| && Painted(e, cur, recvBuf, buf, all)
    requires Consumed(e.writeResults, cur.writeResults) && ReadsKept(e, cur, all, |recvBuf|)
    ensures ServeStepped(e, cur, recvBuf, frame, decode, r, buf', all')
  {
    var pieces;
    r, buf', pieces := ServerRound(cur, buf, frame, decode);
    PaintedChain(e, cur, cur, r.rest, recvBuf, buf, buf', all, pieces);
    ConsumedTrans(e.writeResults, cur.writeResults, r.rest.writeResults);
    ConsumedTrans(e.readResults, cur.readResults, r.rest.readResults);
    all' := all + pieces;
    if r.Abort? {
      ServerFailedLifts(e, cur, r.rest, r.exit);
    }
    if r.Next? && !r.value {
      ClosedChain(e, cur, r.rest, all, pieces, |recvBuf|);
    } else if r.Abort? && r.exit == ExitWith("receive failed", RuntimeError) {
      BrokeNotClosed(e, r.rest, all', |recvBuf|);
    } else {
      KeptChain(e, cur, r.rest, all, pieces, |recvBuf|);
      KeptNotClosed(e, r.rest, all', |recvBuf|);
    }
  }

  /** The state of the server loop between rounds: the socket, the receive
      buffer, the reads so far and the replies sent. */
  datatype Serve = Serve(cur: Endpoint, buf: seq<byte>, pieces: seq<seq<byte>>, replies: nat)

  /** What holds of the server loop between rounds: the reads painted the
      buffer, the bytes written are `replies` copies of the frame, and a
      client that was going to send `n` answerable frames and hang up has
      `n - replies` of them left. */
  ghost predicate Serving(e: Endpoint, recvBuf: seq<byte>, frame: Option<seq<byte>>, decode: seq<byte> -> Option<seq<byte>>,
                    s: Serve)
  {
    && |s.buf| == |recvBuf| && Painted(e, s.cur, recvBuf, s.buf, s.pieces)
    && Consumed(e.writeResults, s.cur.writeResults) && ReadsKept(e, s.cur, s.pieces, |recvBuf|)
    && (s.replies > 0 ==> frame.Some?)
    && s.cur.sent == e.sent + (if s.replies == 0 || frame.None? then [] else Repeat(frame.value, s.replies))
    && (forall n: nat :: ServerFed(e, |recvBuf|, frame, decode, n) ==>
          s.replies <= n && ServerFed(s.cur, |recvBuf|, frame, decode, n - s.replies))
  }

  /** How the server loop ends: the reads painted the buffer, a failure is
      judged by the last call made, a stall ran out the script, a clean end
      is a read that returned zero after `r.value` replies that are copies
      of the frame, and a client that sends `n` answerable frames and hangs
      up gets exactly `n` replies. */
  ghost predicate ServedAll(e: Endpoint, recvBuf: seq<byte>, frame: Option<seq<byte>>, decode: seq<byte> -> Option<seq<byte>>,
                      r: Step<nat>, buf': seq<byte>, pieces: seq<seq<byte>>)
  {
    && |buf'| == |recvBuf| && Painted(e, r.rest, recvBuf, buf', pieces)
    && Consumed(e.writeResults, r.rest.writeResults)
    && (r.Abort? ==> ServerFailed(e, r.rest, r.exit))
    && (r.Abort? && r.exit == Exit("deserializing failed") ==> decode(buf').None?)
    && (r.Abort? && r.exit == Exit("serializing failed") ==> frame.None?)
    && (r.Stalled? ==> r.rest.readResults == [] || r.rest.writeResults == [])
    && (r.Next? <==> ClosedAt(e, r.rest, pieces, |recvBuf|))
    && (r.Next? && r.value == 0 ==> r.rest.sent == e.sent)
    && (r.Next? && r.value > 0 ==> frame.Some? && r.rest.sent == e.sent + Repeat(frame.value, r.value))
    && (forall n: nat :: ServerFed(e, |recvBuf|, frame, decode, n) ==> r.Next? && r.value == n)
  }

  /** A fed server's next pass either goes through or, once the frames
      are used up, ends at the disconnect. */
  lemma FedServerStep(cur: Endpoint, recvBuf: seq<byte>, frame: Option<seq<byte>>, decode: seq<byte> -> Option<seq<byte>>,
                      m: nat, r: Step<bool>)
    requires ServerFed(cur, |recvBuf|, frame, decode, m)
    requires ZeroFirstRead(cur, recvBuf) ==> r.Next? && !r.value
    requires RoundFed(cur, |recvBuf|, frame, decode) ==> r == Next(true, Advance(cur, frame.value, |recvBuf|))
    ensures r.Next?
    ensures !r.value <==> m == 0
    ensures m > 0 ==> ServerFed(r.rest, |recvBuf|, frame, decode, m - 1)
  {
  }

  /** A pass that does not go through ends the loop the way `ServedAll`
      says: a fed session cannot get there. */
  lemma ServeHalts(e: Endpoint, recvBuf: seq<byte>, frame: Option<seq<byte>>, decode: seq<byte> -> Option<seq<byte>>,
                   s: Serve, step: Step<bool>, b: seq<byte>, all: seq<seq<byte>>)
    requires Serving(e, recvBuf, frame, decode, s)
    requires ServeStepped(e, s.cur, recvBuf, frame, decode, step, b, all) && !step.Next?
    ensures ServedAll(e, recvBuf, frame, decode, Halt(step), b, all)
  {
  }

  /** A pass that ends at a disconnect ends the loop with the replies sent
      so far. */
  lemma ServeEnds(e: Endpoint, recvBuf: seq<byte>, frame: Option<seq<byte>>, decode: seq<byte> -> Option<seq<byte>>,
                  s: Serve, step: Step<bool>, b: seq<byte>, all: seq<seq<byte>>)
    requires Serving(e, recvBuf, frame, decode, s)
    requires ServeStepped(e, s.cur, recvBuf, frame, decode, step, b, all) && step.Next? && !step.value
    ensures ServedAll(e, recvBuf, frame, decode, Next(s.replies, step.rest), b, all)
  {
    forall n: nat | ServerFed(e, |recvBuf|, frame, decode, n)
      ensures s.replies == n
    {
      FedServerStep(s.cur, recvBuf, frame, decode, n - s.replies, step);
    }
  }

  /** A pass that goes through keeps the loop's facts, one reply further. */
  lemma ServeGoesOn(e: Endpoint, recvBuf: seq<byte>, frame: Option<seq<byte>>, decode: seq<byte> -> Option<seq<byte>>,
                    s: Serve, step: Step<bool>, b: seq<byte>, all: seq<seq<byte>>)
    requires Serving(e, recvBuf, frame, decode, s)
    requires ServeStepped(e, s.cur, recvBuf, frame, decode, step, b, all) && step.Next? && step.value
    ensures Serving(e, recvBuf, frame, decode, Serve(step.rest, b, all, s.replies + 1))
  {
    FedGoesOn(e, recvBuf, frame, decode, s, step);
  }

  /** A client that was going to send `n` answerable frames has one fewer
      left after a round that went through. */
  lemma FedGoesOn(e: Endpoint, recvBuf: seq<byte>, frame: Option<seq<byte>>, decode: seq<byte> -> Option<seq<byte>>,
                  s: Serve, step: Step<bool>)
    requires forall n: nat :: ServerFed(e, |recvBuf|, frame, decode, n) ==>
      s.replies <= n && ServerFed(s.cur, |recvBuf|, frame, decode, n - s.replies)
    requires ZeroFirstRead(s.cur, recvBuf) ==> step.Next? && !step.value
    requires RoundFed(s.cur, |recvBuf|, frame, decode) ==> step == Next(true, Advance(s.cur, frame.value, |recvBuf|))
    requires step.Next? && step.value
    ensures forall n: nat :: ServerFed(e, |recvBuf|, frame, decode, n) ==>
      s.replies + 1 <= n && ServerFed(step.rest, |recvBuf|, frame, decode, n - (s.replies + 1))
  {
    forall n: nat | ServerFed(e, |recvBuf|, frame, decode, n)
      ensures s.replies + 1 <= n && ServerFed(step.rest, |recvBuf|, frame, decode, n - (s.replies + 1))
    {
      FedServerStep(s.cur, recvBuf, frame, decode, n - s.replies, step);
    }
  }

  /** One round of the server loop: either the loop goes on from a state
      one reply further, or it ends. */
  method ServeRound(e: Endpoint, recvBuf: seq<byte>, frame: Option<seq<byte>>, decode: seq<byte> -> Option<seq<byte>>,
                    s: Serve)
    returns (s': Serve, done: Option<Step<nat>>)
    requires |recvBuf| > 0 && Serving(e, recvBuf, frame, decode, s)
    ensures done.Some? ==> ServedAll(e, recvBuf, frame, decode, done.value, s'.buf, s'.pieces)
    ensures done.None? ==>
      Serving(e, recvBuf, frame, decode, s') && |s'.cur.readResults| < |s.cur.readResults|
  {
    var step, b, all := ServeOnce(e, s.cur, recvBuf, s.buf, s.pieces, frame, decode);
    s' := Serve(step.rest, b, all, s.replies);
    if !step.Next? {
      ServeHalts(e, recvBuf, frame, decode, s, step, b, all);
      done := Some(Halt(step));
    } else if !step.value {
      ServeEnds(e, recvBuf, frame, decode, s, step, b, all);
      done := Some(Next(s.replies, step.rest));
    } else {
      ServeGoesOn(e, recvBuf, frame, decode, s, step, b, all);
      s' := Serve(step.rest, b, all, s.replies + 1);
      done := None;
    }
  }

  /** The loop of `run_server`: rounds until the client disconnects. The
      loop ends cleanly only at a read that returned zero; the bytes
      written are copies of the one frame; and a client that sends `n`
      answerable frames and hangs up gets exactly `n` replies. */
  method ServeRounds(e: Endpoint, recvBuf: seq<byte>, frame: Option<seq<byte>>, decode: seq<byte> -> Option<seq<byte>>)
    returns (r: Step<nat>, buf': seq<byte>, pieces: seq<seq<byte>>)
    requires |recvBuf| > 0
    ensures ServedAll(e, recvBuf, frame, decode, r, buf', pieces)
  {
    var s := Serve(e, recvBuf, [], 0);
    assert Concat([]) == [];
    while true
      invariant Serving(e, recvBuf, frame, decode, s)
      decreases |s.cur.readResults|
    {
      var s', done := ServeRound(e, recvBuf, frame, decode, s);
      s := s';
      if done.Some? {
        return done.value, s.buf, s.pieces;
      }
    }
  }

  /** The header is read and the client then sends `n` answerable frames
      of the serialized size of a payload of that length and hangs up,
      with the server's own frame serializable and every reply whole. */
  predicate ServerListens(e: Endpoint, host: Endianness, frameSize: nat -> nat,
                          encode: seq<byte> -> Option<seq<byte>>, decode: seq<byte> -> Option<seq<byte>>, n: nat)
  {
    && ReadSizeT(e, host).Next?
    && var messageSize := ReadSizeT(e, host).value;
       ServerFed(ReadSizeT(e, host).rest, frameSize(messageSize), encode(Zeros(messageSize)), decode, n)
  }

  /** What `run_server` leaves behind, judged against the socket it
      started from. */
  ghost predicate ServerRan(e: Endpoint, host: Endianness, frameSize: nat -> nat,
                            encode: seq<byte> -> Option<seq<byte>>, decode: seq<byte> -> Option<seq<byte>>,
                            r: Step<ServerRun>, pieces: seq<seq<byte>>)
  {
    && Consumed(e.writeResults, r.rest.writeResults) && Consumed(e.readResults, r.rest.readResults)
    && ((r.Abort? && r.exit == Exit("read_size_t failed")) <==> ReadSizeT(e, host).Abort?)
    && (r.Abort? && r.exit != Exit("read_size_t failed") ==> ServerFailed(e, r.rest, r.exit))
    && (r.Stalled? ==> r.rest.readResults == [] || r.rest.writeResults == [])
    && (r.Next? <==> ReadSizeT(e, host).Next? && ClosedAt(ReadSizeT(e, host).rest, r.rest, pieces, frameSize(ReadSizeT(e, host).value)))
    && (r.Next? ==> r.value.messageSize == ReadSizeT(e, host).value)
    && (r.Next? && r.value.replies == 0 ==> r.rest.sent == e.sent)
    && (r.Next? && r.value.replies > 0 ==>
          && encode(Zeros(r.value.messageSize)).Some?
          && r.rest.sent == e.sent + Repeat(encode(Zeros(r.value.messageSize)).value, r.value.replies))
    && (forall n: nat :: ServerListens(e, host, frameSize, encode, decode, n) ==>
          r.Next? && r.value == ServerRun(ReadSizeT(e, host).value, n))
  }

  /** The session result built from the rounds that followed a header. */
  function AfterHeader(messageSize: nat, rounds: Step<nat>): (r: Step<ServerRun>)
    ensures r.rest == rounds.rest
    ensures r.Next? <==> rounds.Next?
    ensures r.Abort? <==> rounds.Abort?
    ensures r.Abort? ==> r.exit == rounds.exit
    ensures r.Next? ==> r.value == ServerRun(messageSize, rounds.value)
  {
    match rounds
    case Abort(exit, rest) => Abort(exit, rest)
    case Stalled(rest) => Stalled(rest)
    case Next(n, rest) => Next(ServerRun(messageSize, n), rest)
  }

  /** The rounds after a header that arrived end the session as
      `ServerRan` says. */
  lemma HeaderThenRounds(e: Endpoint, host: Endianness, frameSize: nat -> nat,
                         encode: seq<byte> -> Option<seq<byte>>, decode: seq<byte> -> Option<seq<byte>>,
                         rounds: Step<nat>, buf': seq<byte>, pieces: seq<seq<byte>>)
    requires ReadSizeT(e, host).Next?
    requires ServedAll(ReadSizeT(e, host).rest, Zeros(frameSize(ReadSizeT(e, host).value)),
                       encode(Zeros(ReadSizeT(e, host).value)), decode, rounds, buf', pieces)
    ensures ServerRan(e, host, frameSize, encode, decode, AfterHeader(ReadSizeT(e, host).value, rounds), pieces)
  {
    var h := ReadSizeT(e, host);
    var r := AfterHeader(h.value, rounds);
    ConsumedTrans(e.readResults, h.rest.readResults, rounds.rest.readResults);
    assert Consumed(e.writeResults, r.rest.writeResults);
    if rounds.Abort? {
      ServerFailedLifts(e, h.rest, rounds.rest, rounds.exit);
    }
    assert r.Next? <==> ClosedAt(h.rest, r.rest, pieces, frameSize(h.value));
    forall n: nat | ServerListens(e, host, frameSize, encode, decode, n)
      ensures r.Next? && r.value == ServerRun(h.value, n)
    {
      assert |Zeros(frameSize(h.value))| == frameSize(h.value);
      assert ServerFed(h.rest, frameSize(h.value), encode(Zeros(h.value)), decode, n);
    }
  }

  /** A header that did not arrive ends the session as `ServerRan` says. */
  lemma NoHeader(e: Endpoint, host: Endianness, frameSize: nat -> nat,
                 encode: seq<byte> -> Option<seq<byte>>, decode: seq<byte> -> Option<seq<byte>>)
    requires !ReadSizeT(e, host).Next?
    ensures ServerRan(e, host, frameSize, encode, decode,
                      if ReadSizeT(e, host).Abort? then Abort(ReadSizeT(e, host).exit, ReadSizeT(e, host).rest)
                      else Stalled(ReadSizeT(e, host).rest), [])
  {
    var h := ReadSizeT(e, host);
    var r: Step<ServerRun> := if h.Abort? then Abort(h.exit, h.rest) else Stalled(h.rest);
    assert r.rest.writeResults == e.writeResults;
    assert Consumed(e.readResults, r.rest.readResults);
    forall n: nat
      ensures !ServerListens(e, host, frameSize, encode, decode, n)
    {
    }
  }

  /** `run_server`. Each round receives one frame into a buffer of the
      serialized size (re-sized to the same size every round, which keeps
      its contents), deserializes it into a local that is thrown away, and
      sends the serialization of the server's own payload `p`. A disconnect
      during the receive ends the session; any other receive error, a
      (de)serializer failure or a failed send aborts. The bytes the server
      writes are therefore copies of one frame that does not depend on
      anything the client sent. */
  method RunServer(e: Endpoint, host: Endianness, frameSize: nat -> nat,
                   encode: seq<byte> -> Option<seq<byte>>, decode: seq<byte> -> Option<seq<byte>>)
    returns (r: Step<ServerRun>, pieces: seq<seq<byte>>)
    requires forall n :: frameSize(n) > 0
    ensures ServerRan(e, host, frameSize, encode, decode, r, pieces)
  {
    var h := ReadSizeT(e, host);
    if !h.Next? {
      NoHeader(e, host, frameSize, encode, decode);
      return if h.Abort? then Abort(h.exit, h.rest) else Stalled(h.rest), [];
    }
    var messageSize := h.value;
    var rounds, buf';
    rounds, buf', pieces := ServeRounds(h.rest, Zeros(frameSize(messageSize)), encode(Zeros(messageSize)), decode);
    HeaderThenRounds(e, host, frameSize, encode, decode, rounds, buf', pieces);
    return AfterHeader(messageSize, rounds), pieces;
  }

  /** Why `run_client` exits, judged by the last call it made. Both a failed
      send and a failed receive exit with "send failed", as the source
      words both: the error code is `socket_disconnected` when a write or a
      read returned zero (after reads that each handed over one of the
      `pieces`), and `runtime_error` when one failed hard. */
  predicate ClientFailed(e: Endpoint, rest: Endpoint, exit: Exit, pieces: seq<seq<byte>>, size: nat)
  {
    && exit in {Exit("serializing failed"), ExitWith("send failed", SocketDisconnected),
                ExitWith("send failed", RuntimeError), Exit("deserializing failed")}
    && (exit == ExitWith("send failed", SocketDisconnected) ==> WriteClosed(e, rest) || ClosedAt(e, rest, pieces, size))
    && (exit == ExitWith("send failed", RuntimeError) ==> WriteBroke(e, rest) || ReadBroke(e, rest))
  }

  /** What the client did: the frames it sent and the buffers it received,
      round by round. */
  datatype ClientRun = ClientRun(sent: seq<seq<byte>>, received: seq<seq<byte>>)

  /** The payload a round starts from: the zeroed payload in the first
      round, the deserialized answer of the previous round after that. */
  predicate Chained(run: ClientRun, messageSize: nat,
                    encode: seq<byte> -> Option<seq<byte>>, decode: seq<byte> -> Option<seq<byte>>)
  {
    && |run.sent| == |run.received|
    && (|run.sent| > 0 ==> Some(run.sent[0]) == encode(Zeros(messageSize)))
    && (forall k :: 0 <= k < |run.sent| ==> decode(run.received[k]).Some?)
    && (forall k :: 0 < k < |run.sent| ==>
          Some(run.sent[k]) == encode(decode(run.received[k - 1]).value))
  }

  /** A round that sends the serialization of the payload the chain has
      reached, and receives an answer that deserializes, extends the chain. */
  lemma ChainExtends(run: ClientRun, messageSize: nat, encode: seq<byte> -> Option<seq<byte>>,
                     decode: seq<byte> -> Option<seq<byte>>, p: seq<byte>, frame: seq<byte>, answer: seq<byte>)
    requires Chained(run, messageSize, encode, decode)
    requires |run.sent| == 0 ==> p == Zeros(messageSize)
    requires |run.sent| > 0 ==> p == decode(run.received[|run.sent| - 1]).value
    requires Some(frame) == encode(p) && decode(answer).Some?
    ensures Chained(ClientRun(run.sent + [frame], run.received + [answer]), messageSize, encode, decode)
  {
    var run' := ClientRun(run.sent + [frame], run.received + [answer]);
    assert forall k :: 0 <= k < |run.sent| ==> run'.sent[k] == run.sent[k] && run'.received[k] == run.received[k];
  }

  /** What one round of `run_client` did with the frame `encode` made of
      its payload (`None` when serializing failed): the reads painted the
      answer into the buffer, a failure is judged by the last call made, a
      stall ran out the script, a round that went through sent the frame and
      read a buffer that deserializes, and a round whose write and read each
      take the whole frame goes through and advances the socket by one of
      each. */
  predicate Played(e: Endpoint, frame: Option<seq<byte>>, buf: seq<byte>, decode: seq<byte> -> Option<seq<byte>>,
                   r: Step<seq<byte>>, buf': seq<byte>, pieces: seq<seq<byte>>)
  {
    && |buf'| == |buf| && Painted(e, r.rest, buf, buf', pieces)
    && Consumed(e.writeResults, r.rest.writeResults)
    && (r.Abort? ==> ClientFailed(e, r.rest, r.exit, pieces, |buf|))
    && ((r.Abort? && r.exit == Exit("serializing failed")) <==> frame.None?)
    && (r.Abort? && r.exit == Exit("deserializing failed") ==>
          frame.Some? && r.rest.sent == e.sent + frame.value && decode(buf').None?)
    && (r.Stalled? ==> r.rest.readResults == [] || r.rest.writeResults == [])
    && (r.Next? ==>
          && frame.Some? && r.value == frame.value && r.rest.sent == e.sent + r.value
          && decode(buf').Some? && |Concat(pieces)| >= |buf| && ReadsKept(e, r.rest, pieces, |buf|))
    && (RoundFed(e, |buf|, frame, decode) ==>
          r == Next(frame.value, Advance(e, frame.value, |buf|)) && buf' == e.pending[..|buf|])
  }

  /** The second half of a round of `run_client`, once its frame is out:
      receive the answer into the buffer and deserialize it. */
  method AwaitAnswer(e: Endpoint, e': Endpoint, frame: seq<byte>, recvBuf: seq<byte>, decode: seq<byte> -> Option<seq<byte>>)
    returns (r: Step<seq<byte>>, buf': seq<byte>, pieces: seq<seq<byte>>)
    requires e'.readResults == e.readResults && e'.pending == e.pending
    requires Consumed(e.writeResults, e'.writeResults) && e'.sent == e.sent + frame
    requires |frame| > 0 && |e.writeResults| > 0 && WholeWrite(e.writeResults[0], |frame|) ==>
      e'.writeResults == e.writeResults[1..]
    ensures Played(e, Some(frame), recvBuf, decode, r, buf', pieces)
  {
    var st, e2;
    st, e2, buf', pieces := ReceiveAll(e', recvBuf);
    PaintedAcrossWrites(e', e2, e, e2, recvBuf, buf', pieces);
    if RoundFed(e, |recvBuf|, Some(frame), decode) {
      assert WholeFirstRead(e', recvBuf);
      assert e2 == Advance(e, frame, |recvBuf|);
    }
    if st == Pending {
      r := Stalled(e2);
    } else if st != Success {
      r := Abort(ExitWith("send failed", ErrorCode(st)), e2);
      assert ClosedAt(e, e2, pieces, |recvBuf|) || ReadBroke(e, e2);
    } else if decode(buf').None? {
      r := Abort(Exit("deserializing failed"), e2);
    } else {
      r := Next(frame, e2);
    }
  }

  /** One round of `run_client`: serialize the payload and send it, then
      receive an answer into the buffer and deserialize it into the
      payload. */
  method ClientRound(e: Endpoint, p: seq<byte>, recvBuf: seq<byte>,
                     encode: seq<byte> -> Option<seq<byte>>, decode: seq<byte> -> Option<seq<byte>>)
    returns (r: Step<seq<byte>>, buf': seq<byte>, pieces: seq<seq<byte>>)
    ensures Played(e, encode(p), recvBuf, decode, r, buf', pieces)
  {
    buf', pieces := recvBuf, [];
    assert Concat([]) == [];
    var frame := encode(p);
    if frame.None? {
      return Abort(Exit("serializing failed"), e), buf', pieces;
    }
    var st, e' := SendAll(e, frame.value);
    PaintedAcrossWrites(e, e, e, e', recvBuf, buf', pieces);
    if st == Pending {
      return Stalled(e'), buf', pieces;
    }
    if st != Success {
      return Abort(ExitWith("send failed", ErrorCode(st)), e'), buf', pieces;
    }
    r, buf', pieces := AwaitAnswer(e, e', frame.value, recvBuf, decode);
  }

  /** The number of rounds of the do-while loop: `max(amount, 1)`. */
  function Rounds(amount: nat): nat
  {
    if amount > 1 then amount else 1
  }

  /** The next `n` rounds of a client that starts from payload `p` go
      through: each serialized payload goes out in one write and each
      answer arrives whole in one read and deserializes into the next
      payload. */
  predicate ClientFed(e: Endpoint, p: seq<byte>, size: nat,
                      encode: seq<byte> -> Option<seq<byte>>, decode: seq<byte> -> Option<seq<byte>>, n: nat)
    decreases n
  {
    n == 0 ||
    (&& RoundFed(e, size, encode(p), decode)
     && ClientFed(Advance(e, encode(p).value, size), decode(e.pending[..size]).value, size, encode, decode, n - 1))
  }

  /** The reference run of a fed client: round by round, the frame it
      serializes and the answer it takes off the stream, and where the
      socket is left. */
  function FedRun(e: Endpoint, p: seq<byte>, size: nat,
                  encode: seq<byte> -> Option<seq<byte>>, decode: seq<byte> -> Option<seq<byte>>, n: nat): (ClientRun, Endpoint)
    requires ClientFed(e, p, size, encode, decode, n)
    decreases n
  {
    if n == 0 then (ClientRun([], []), e)
    else
      var frame := encode(p).value;
      var answer := e.pending[..size];
      var (run, end) := FedRun(Advance(e, frame, size), decode(answer).value, size, encode, decode, n - 1);
      (ClientRun([frame] + run.sent, [answer] + run.received), end)
  }

  /** One fed round moves the reference run's first round over to the
      rounds already done. */
  lemma FedRunStep(run: ClientRun, cur: Endpoint, p: seq<byte>, size: nat,
                   encode: seq<byte> -> Option<seq<byte>>, decode: seq<byte> -> Option<seq<byte>>, m: nat)
    requires m > 0 && ClientFed(cur, p, size, encode, decode, m)
    ensures var frame := encode(p).value;
      var answer := cur.pending[..size];
      var next := Advance(cur, frame, size);
      var p' := decode(answer).value;
      && ClientFed(next, p', size, encode, decode, m - 1)
      && var ahead := FedRun(cur, p, size, encode, decode, m);
         var ahead' := FedRun(next, p', size, encode, decode, m - 1);
         && ClientRun(run.sent + ahead.0.sent, run.received + ahead.0.received)
            == ClientRun((run.sent + [frame]) + ahead'.0.sent, (run.received + [answer]) + ahead'.0.received)
         && ahead.1 == ahead'.1
  {
    var frame := encode(p).value;
    var answer := cur.pending[..size];
    var ahead' := FedRun(Advance(cur, frame, size), decode(answer).value, size, encode, decode, m - 1);
    assert run.sent + ([frame] + ahead'.0.sent) == (run.sent + [frame]) + ahead'.0.sent;
    assert run.received + ([answer] + ahead'.0.received) == (run.received + [answer]) + ahead'.0.received;
  }

  /** A failure judged against the socket at the start of a round is judged
      the same against the socket at the start of the session. */
  lemma ClientFailedLifts(e: Endpoint, cur: Endpoint, rest: Endpoint, exit: Exit, p1: seq<seq<byte>>, p2: seq<seq<byte>>,
                          size: nat)
    requires Consumed(e.writeResults, cur.writeResults) && ReadsKept(e, cur, p1, size)
    requires Consumed(cur.writeResults, rest.writeResults) && Consumed(cur.readResults, rest.readResults)
    requires ClientFailed(cur, rest, exit, p2, size)
    ensures ClientFailed(e, rest, exit, p1 + p2, size)
  {
    ConsumedTrans(e.writeResults, cur.writeResults, rest.writeResults);
    ConsumedTrans(e.readResults, cur.readResults, rest.readResults);
    if ClosedAt(cur, rest, p2, size) {
      ClosedChain(e, cur, rest, p1, p2, size);
    }
  }

  /** What one pass of the client loop did, judged against the session
      start `e` and the socket `cur` the pass started from. */
  predicate Stepped(e: Endpoint, cur: Endpoint, p: seq<byte>, recvBuf: seq<byte>,
                    encode: seq<byte> -> Option<seq<byte>>, decode: seq<byte> -> Option<seq<byte>>,
                    r: Step<seq<byte>>, buf': seq<byte>, all': seq<seq<byte>>)
  {
    && |buf'| == |recvBuf| && Painted(e, r.rest, recvBuf, buf', all')
    && Consumed(e.writeResults, r.rest.writeResults)
    && (r.Abort? ==> ClientFailed(e, r.rest, r.exit, all', |recvBuf|))
    && (r.Stalled? ==> r.rest.readResults == [] || r.rest.writeResults == [])
    && (r.Next? ==>
          && encode(p).Some? && r.value == encode(p).value && r.rest.sent == cur.sent + r.value
          && decode(buf').Some? && ReadsKept(e, r.rest, all', |recvBuf|))
    && (RoundFed(cur, |recvBuf|, encode(p), decode) ==>
          r == Next(encode(p).value, Advance(cur, encode(p).value, |recvBuf|)) && buf' == cur.pending[..|recvBuf|])
  }

  /** One pass of the client loop, with the facts about the whole session
      so far carried across it. */
  method PlayOnce(e: Endpoint, cur: Endpoint, p: seq<byte>, recvBuf: seq<byte>, buf: seq<byte>, all: seq<seq<byte>>,
                  encode: seq<byte> -> Option<seq<byte>>, decode: seq<byte> -> Option<seq<byte>>)
    returns (r: Step<seq<byte>>, buf': seq<byte>, all': seq<seq<byte>>)
    requires |buf| == |recvBuf| && Painted(e, cur, recvBuf, buf, all)
    requires Consumed(e.writeResults, cur.writeResults) && ReadsKept(e, cur, all, |recvBuf|)
    ensures Stepped(e, cur, p, recvBuf, encode, decode, r, buf', all')
  {
    var pieces;
    r, buf', pieces := ClientRound(cur, p, buf, encode, decode);
    PaintedChain(e, cur, cur, r.rest, recvBuf, buf, buf', all, pieces);
    ConsumedTrans(e.writeResults, cur.writeResults, r.rest.writeResults);
    all' := all + pieces;
    if r.Abort? {
      ClientFailedLifts(e, cur, r.rest, r.exit, all, pieces, |recvBuf|);
    } else if r.Next? {
      KeptChain(e, cur, r.rest, all, pieces, |recvBuf|);
    }
  }

  /** The reference run of a fed client, seen from inside the loop: the
      rounds done so far followed by the reference run from where they left
      the socket and the payload make up the reference run of the whole
      session. */
  predicate FedAhead(e: Endpoint, messageSize: nat, size: nat, encode: seq<byte> -> Option<seq<byte>>,
                     decode: seq<byte> -> Option<seq<byte>>, total: nat, cur: Endpoint, p: seq<byte>, run: ClientRun)
    requires |run.sent| <= total
  {
    ClientFed(e, Zeros(messageSize), size, encode, decode, total) ==>
      && ClientFed(cur, p, size, encode, decode, total - |run.sent|)
      && var ahead := FedRun(cur, p, size, encode, decode, total - |run.sent|);
         FedRun(e, Zeros(messageSize), size, encode, decode, total)
           == (ClientRun(run.sent + ahead.0.sent, run.received + ahead.0.received), ahead.1)
  }

  /** Before the first round the reference run is all ahead. */
  lemma FedStarts(e: Endpoint, messageSize: nat, size: nat, encode: seq<byte> -> Option<seq<byte>>,
                  decode: seq<byte> -> Option<seq<byte>>, total: nat)
    ensures FedAhead(e, messageSize, size, encode, decode, total, e, Zeros(messageSize), ClientRun([], []))
  {
    if ClientFed(e, Zeros(messageSize), size, encode, decode, total) {
      var ahead := FedRun(e, Zeros(messageSize), size, encode, decode, total);
      assert [] + ahead.0.sent == ahead.0.sent && [] + ahead.0.received == ahead.0.received;
    }
  }

  /** In a fed session the next round is fed, and doing it moves the
      reference run's next round over to the rounds done. */
  lemma FedAdvances(e: Endpoint, messageSize: nat, size: nat, encode: seq<byte> -> Option<seq<byte>>,
                    decode: seq<byte> -> Option<seq<byte>>, total: nat, cur: Endpoint, p: seq<byte>, run: ClientRun)
    requires |run.sent| < total && FedAhead(e, messageSize, size, encode, decode, total, cur, p, run)
    requires ClientFed(e, Zeros(messageSize), size, encode, decode, total)
    ensures && RoundFed(cur, size, encode(p), decode)
            && var frame := encode(p).value;
               var answer := cur.pending[..size];
               FedAhead(e, messageSize, size, encode, decode, total, Advance(cur, frame, size), decode(answer).value,
                        ClientRun(run.sent + [frame], run.received + [answer]))
  {
    FedRunStep(run, cur, p, size, encode, decode, total - |run.sent|);
  }

  /** Once the rounds done are all the rounds, they are the reference run. */
  lemma FedEnds(e: Endpoint, messageSize: nat, size: nat, encode: seq<byte> -> Option<seq<byte>>,
                decode: seq<byte> -> Option<seq<byte>>, total: nat, cur: Endpoint, p: seq<byte>, run: ClientRun)
    requires |run.sent| == total && FedAhead(e, messageSize, size, encode, decode, total, cur, p, run)
    requires ClientFed(e, Zeros(messageSize), size, encode, decode, total)
    ensures FedRun(e, Zeros(messageSize), size, encode, decode, total) == (run, cur)
  {
    assert run.sent + [] == run.sent && run.received + [] == run.received;
  }

  /** The state of the client loop between rounds: the payload, the receive
      buffer, the reads so far, the socket and the rounds done. */
  datatype Play = Play(p: seq<byte>, buf: seq<byte>, pieces: seq<seq<byte>>, cur: Endpoint, run: ClientRun)

  /** What holds of the client loop between rounds: no more rounds done
      than it will run, chained payloads, the buffer holding the last answer,
      every answer as long as the buffer, the reads painted the buffer, the
      frames of the rounds done on the wire, and for a fed session the
      reference run ahead. */
  predicate Playing(e: Endpoint, amount: nat, messageSize: nat, recvBuf: seq<byte>,
                    encode: seq<byte> -> Option<seq<byte>>, decode: seq<byte> -> Option<seq<byte>>, s: Play)
  {
    && |s.run.sent| <= Rounds(amount)
    && Chained(s.run, messageSize, encode, decode)
    && (|s.run.sent| == 0 ==> s.p == Zeros(messageSize))
    && (|s.run.sent| > 0 ==>
          s.p == decode(s.run.received[|s.run.sent| - 1]).value && s.buf == s.run.received[|s.run.sent| - 1])
    && (forall k :: 0 <= k < |s.run.received| ==> |s.run.received[k]| == |recvBuf|)
    && |s.buf| == |recvBuf| && Painted(e, s.cur, recvBuf, s.buf, s.pieces)
    && Consumed(e.writeResults, s.cur.writeResults) && ReadsKept(e, s.cur, s.pieces, |recvBuf|)
    && s.cur.sent == e.sent + Concat(s.run.sent)
    && FedAhead(e, messageSize, |recvBuf|, encode, decode, Rounds(amount), s.cur, s.p, s.run)
  }

  /** How the client loop ends: the reads painted the buffer, a failure is
      judged by the last call made, a stall ran out the script, a finished
      loop ran `max(amount, 1)` chained rounds whose frames are on the wire
      and whose last answer is in the buffer, and a fed session finishes with
      the reference run. */
  predicate Concluded(e: Endpoint, amount: nat, messageSize: nat, recvBuf: seq<byte>,
                      encode: seq<byte> -> Option<seq<byte>>, decode: seq<byte> -> Option<seq<byte>>,
                      r: Step<ClientRun>, buf': seq<byte>, pieces: seq<seq<byte>>)
  {
    && |buf'| == |recvBuf| && Painted(e, r.rest, recvBuf, buf', pieces)
    && Consumed(e.writeResults, r.rest.writeResults)
    && (r.Abort? ==> ClientFailed(e, r.rest, r.exit, pieces, |recvBuf|))
    && (r.Stalled? ==> r.rest.readResults == [] || r.rest.writeResults == [])
    && (r.Next? ==>
          && ReadsKept(e, r.rest, pieces, |recvBuf|) && |r.value.sent| == Rounds(amount) && Chained(r.value, messageSize, encode, decode)
          && buf' == r.value.received[|r.value.received| - 1]
          && (forall k :: 0 <= k < |r.value.received| ==> |r.value.received[k]| == |recvBuf|)
          && r.rest.sent == e.sent + Concat(r.value.sent))
    && (ClientFed(e, Zeros(messageSize), |recvBuf|, encode, decode, Rounds(amount)) ==>
          var (run, end) := FedRun(e, Zeros(messageSize), |recvBuf|, encode, decode, Rounds(amount));
          r == Next(run, end))
  }

  /** A pass that does not go through ends the loop the way `Concluded`
      says: a fed session cannot get there. */
  lemma HaltConcludes(e: Endpoint, amount: nat, messageSize: nat, recvBuf: seq<byte>,
                      encode: seq<byte> -> Option<seq<byte>>, decode: seq<byte> -> Option<seq<byte>>, s: Play,
                      step: Step<seq<byte>>, b: seq<byte>, all: seq<seq<byte>>)
    requires Playing(e, amount, messageSize, recvBuf, encode, decode, s) && |s.run.sent| < Rounds(amount)
    requires Stepped(e, s.cur, s.p, recvBuf, encode, decode, step, b, all) && !step.Next?
    ensures Concluded(e, amount, messageSize, recvBuf, encode, decode, Halt(step), b, all)
  {
    if ClientFed(e, Zeros(messageSize), |recvBuf|, encode, decode, Rounds(amount)) {
      FedAdvances(e, messageSize, |recvBuf|, encode, decode, Rounds(amount), s.cur, s.p, s.run);
      assert false;
    }
  }

  /** The loop state after a pass that went through. */
  function Proceed(decode: seq<byte> -> Option<seq<byte>>, s: Play, step: Step<seq<byte>>, b: seq<byte>,
                   all: seq<seq<byte>>): Play
    requires step.Next? && decode(b).Some?
  {
    Play(decode(b).value, b, all, step.rest, ClientRun(s.run.sent + [step.value], s.run.received + [b]))
  }
  /** A pass that goes through keeps the loop's facts, one round further. */
  lemma GoesOn(e: Endpoint, amount: nat, messageSize: nat, recvBuf: seq<byte>,
               encode: seq<byte> -> Option<seq<byte>>, decode: seq<byte> -> Option<seq<byte>>, s: Play,
               step: Step<seq<byte>>, b: seq<byte>, all: seq<seq<byte>>)
    requires Playing(e, amount, messageSize, recvBuf, encode, decode, s) && |s.run.sent| < Rounds(amount)
    requires Stepped(e, s.cur, s.p, recvBuf, encode, decode, step, b, all) && step.Next?
    ensures var s' := Proceed(decode, s, step, b, all);
      Playing(e, amount, messageSize, recvBuf, encode, decode, s') && |s'.run.sent| == |s.run.sent| + 1
  {
    var s' := Proceed(decode, s, step, b, all);
    if ClientFed(e, Zeros(messageSize), |recvBuf|, encode, decode, Rounds(amount)) {
      FedAdvances(e, messageSize, |recvBuf|, encode, decode, Rounds(amount), s.cur, s.p, s.run);
    }
    ConcatAppend(s.run.sent, step.value);
    ChainExtends(s.run, messageSize, encode, decode, s.p, step.value, b);
    assert forall k :: 0 <= k < |s'.run.received| ==> |s'.run.received[k]| == |recvBuf| by {
      forall k | 0 <= k < |s'.run.received|
        ensures |s'.run.received[k]| == |recvBuf|
      {
        if k < |s.run.received| {
          assert s'.run.received[k] == s.run.received[k];
        }
      }
    }
  }

  /** A loop that has done all its rounds ends the way `Concluded` says. */
  lemma PlayedOut(e: Endpoint, amount: nat, messageSize: nat, recvBuf: seq<byte>,
                  encode: seq<byte> -> Option<seq<byte>>, decode: seq<byte> -> Option<seq<byte>>, s: Play)
    requires Playing(e, amount, messageSize, recvBuf, encode, decode, s) && |s.run.sent| == Rounds(amount)
    ensures Concluded(e, amount, messageSize, recvBuf, encode, decode, Next(s.run, s.cur), s.buf, s.pieces)
  {
    if ClientFed(e, Zeros(messageSize), |recvBuf|, encode, decode, Rounds(amount)) {
      FedEnds(e, messageSize, |recvBuf|, encode, decode, Rounds(amount), s.cur, s.p, s.run);
    }
  }

  /** One round of the client loop: either the loop goes on from a state
      one round further, or it ends. */
  method PlayRound(e: Endpoint, amount: nat, messageSize: nat, recvBuf: seq<byte>,
                   encode: seq<byte> -> Option<seq<byte>>, decode: seq<byte> -> Option<seq<byte>>, s: Play)
    returns (s': Play, done: Option<Step<ClientRun>>)
    requires Playing(e, amount, messageSize, recvBuf, encode, decode, s) && |s.run.sent| < Rounds(amount)
    ensures done.Some? ==> Concluded(e, amount, messageSize, recvBuf, encode, decode, done.value, s'.buf, s'.pieces)
    ensures done.None? ==>
      && Playing(e, amount, messageSize, recvBuf, encode, decode, s') && |s'.run.sent| < Rounds(amount)
      && |s'.run.sent| > |s.run.sent|
  {
    var step, b, all := PlayOnce(e, s.cur, s.p, recvBuf, s.buf, s.pieces, encode, decode);
    if !step.Next? {
      HaltConcludes(e, amount, messageSize, recvBuf, encode, decode, s, step, b, all);
      return Play(s.p, b, all, step.rest, s.run), Some(Halt(step));
    }
    GoesOn(e, amount, messageSize, recvBuf, encode, decode, s, step, b, all);
    s' := Proceed(decode, s, step, b, all);
    if |s'.run.sent| >= amount {
      PlayedOut(e, amount, messageSize, recvBuf, encode, decode, s');
      done := Some(Next(s'.run, s'.cur));
    } else {
      done := None;
    }
  }

  /** The do-while loop of `run_client`: rounds until `++rounds < amount`
      fails, so `max(amount, 1)` of them; each round's send waits for the
      answer of the round before, and each round's payload is what the
      round before deserialized. A fed client runs exactly the reference
      rounds. */
  method ClientRounds(e: Endpoint, amount: nat, messageSize: nat, recvBuf: seq<byte>,
                      encode: seq<byte> -> Option<seq<byte>>, decode: seq<byte> -> Option<seq<byte>>)
    returns (r: Step<ClientRun>, buf': seq<byte>, pieces: seq<seq<byte>>)
    ensures Concluded(e, amount, messageSize, recvBuf, encode, decode, r, buf', pieces)
  {
    var s := Play(Zeros(messageSize), recvBuf, [], e, ClientRun([], []));
    assert Concat([]) == [];
    FedStarts(e, messageSize, |recvBuf|, encode, decode, Rounds(amount));
    while true
      invariant Playing(e, amount, messageSize, recvBuf, encode, decode, s) && |s.run.sent| < Rounds(amount)
      decreases Rounds(amount) - |s.run.sent|
    {
      var s', done := PlayRound(e, amount, messageSize, recvBuf, encode, decode, s);
      s := s';
      if done.Some? {
        return done.value, s.buf, s.pieces;
      }
    }
  }

  /** The message-size header goes out and then `max(amount, 1)` rounds go
      through over a receive buffer of the serialized size. */
  predicate ClientSpeaks(e: Endpoint, amount: nat, messageSize: nat, host: Endianness, frameSize: nat -> nat,
                         encode: seq<byte> -> Option<seq<byte>>, decode: seq<byte> -> Option<seq<byte>>)
  {
    && SendSizeT(e, messageSize, host).Next?
    && ClientFed(SendSizeT(e, messageSize, host).rest, Zeros(messageSize), frameSize(messageSize), encode, decode, Rounds(amount))
  }

  /** `run_client`: the message-size header, then the rounds over a receive
      buffer of the serialized size. A failed send or receive aborts with
      "send failed" and the error, as the source words both. */
  method RunClient(e: Endpoint, amount: nat, messageSize: nat, host: Endianness, frameSize: nat -> nat,
                   encode: seq<byte> -> Option<seq<byte>>, decode: seq<byte> -> Option<seq<byte>>)
    returns (r: Step<ClientRun>, pieces: seq<seq<byte>>)
    ensures Consumed(e.writeResults, r.rest.writeResults) && Consumed(e.readResults, r.rest.readResults)
    ensures (r.Abort? && r.exit == Exit("send_size_t failed")) <==> SendSizeT(e, messageSize, host).Abort?
    ensures r.Abort? && r.exit != Exit("send_size_t failed") ==> ClientFailed(e, r.rest, r.exit, pieces, frameSize(messageSize))
    ensures r.Next? ==> ReadsKept(e, r.rest, pieces, frameSize(messageSize))
    ensures r.Stalled? ==> r.rest.readResults == [] || r.rest.writeResults == []
    ensures r.Next? ==> |r.value.sent| == Rounds(amount) && Chained(r.value, messageSize, encode, decode)
    ensures r.Next? ==> forall k :: 0 <= k < |r.value.received| ==> |r.value.received[k]| == frameSize(messageSize)
    ensures r.Next? ==> (SendSizeT(e, messageSize, host).Next?
      && r.rest.sent == SendSizeT(e, messageSize, host).rest.sent + Concat(r.value.sent))
    ensures ClientSpeaks(e, amount, messageSize, host, frameSize, encode, decode) ==>
      var (run, end) := FedRun(SendSizeT(e, messageSize, host).rest, Zeros(messageSize), frameSize(messageSize),
                               encode, decode, Rounds(amount));
      r == Next(run, end)
  {
    var h := SendSizeT(e, messageSize, host);
    if !h.Next? {
      return if h.Abort? then Abort(h.exit, h.rest) else Stalled(h.rest), [];
    }
    assert Consumed(e.writeResults, h.rest.writeResults) && ReadsKept(e, h.rest, [], frameSize(messageSize));
    var recvBuf := Zeros(frameSize(messageSize));
    var buf';
    r, buf', pieces := ClientRounds(h.rest, amount, messageSize, recvBuf, encode, decode);
    assert Consumed(h.rest.readResults, r.rest.readResults);
    ConsumedTrans(e.writeResults, h.rest.writeResults, r.rest.writeResults);
    ConsumedTrans(e.readResults, h.rest.readResults, r.rest.readResults);
    if r.Abort? {
      ClientFailedLifts(e, h.rest, r.rest, r.exit, [], pieces, frameSize(messageSize));
      assert [] + pieces == pieces;
    }
  }
}
