/** One end of a connected stream socket, reduced to a script of system-call
    results. The benchmarks only ever call `write` and `read` on a connected
    socket and ask `last_socket_error_is_temporary()` after a failed call, so a
    socket is fully described by what each successive call returns. */
module Socket {
  import opened Bytes
  import opened Sums

  /** What the kernel does with the next `write`: take up to `limit` bytes
      (`limit == 0` is the zero return of a closed connection), or fail, with
      `temporary` the answer of `last_socket_error_is_temporary()`. */
  datatype WriteEvent = Accept(limit: nat) | WriteError(temporary: bool)

  /** What the kernel does with the next `read`: hand over up to `limit` of the
      bytes the peer has sent (`limit == 0` is the orderly shutdown), or fail. */
  datatype ReadEvent = Deliver(limit: nat) | ReadError(temporary: bool)

  /** `writeResults` and `readResults` are the results of the calls still to come; `sent`
      is everything written so far and `pending` everything the peer has sent
      that has not been read yet. */
  datatype Endpoint = Endpoint(writeResults: seq<WriteEvent>, sent: seq<byte>,
                               readResults: seq<ReadEvent>, pending: seq<byte>)

  /** A write result that takes all of an `n`-byte request. */
  predicate WholeWrite(ev: WriteEvent, n: nat)
  {
    ev.Accept? && ev.limit >= n
  }

  /** A write result that takes at least one byte. */
  predicate Transfers(ev: WriteEvent)
  {
    ev.Accept? && ev.limit > 0
  }

  /** A read result that hands over at least one byte when bytes are there. */
  predicate Delivers(ev: ReadEvent)
  {
    ev.Deliver? && ev.limit > 0
  }

  /** A read result that hands over all of an `n`-byte request, when the
      peer has sent that much. */
  predicate WholeRead(ev: ReadEvent, n: nat)
  {
    ev.Deliver? && ev.limit >= n
  }

  /** A read result that makes a non-empty `read` return zero, the peer's
      orderly shutdown: `rest` is what the peer has sent that is still
      unread, which a zero return leaves as it was. */
  predicate ZeroRead(ev: ReadEvent, rest: seq<byte>)
  {
    ev.Deliver? && (ev.limit == 0 || rest == [])
  }

  /** The return value of a `read` or `write` call. */
  datatype SysResult = SysResult(ret: int, temporary: bool)

  /** A write of `data`: it never transfers more than asked for. */
  function Write(e: Endpoint, data: seq<byte>): (r: (SysResult, Endpoint))
    requires |e.writeResults| > 0
    ensures r.1.writeResults == e.writeResults[1..]
    ensures r.1.readResults == e.readResults && r.1.pending == e.pending
    ensures -1 <= r.0.ret <= |data|
    ensures r.0.ret >= 0 ==> r.1.sent == e.sent + data[..r.0.ret]
    ensures r.0.ret < 0 ==> r.1.sent == e.sent
    ensures r.0.ret < 0 <==> e.writeResults[0].WriteError?
    ensures r.0.ret < 0 ==> r.0.temporary == e.writeResults[0].temporary
    ensures r.0.ret >= 0 ==> r.0.ret <= e.writeResults[0].limit
    ensures WholeWrite(e.writeResults[0], |data|) ==> r.0.ret == |data|
  {
    match e.writeResults[0]
    case Accept(limit) =>
      var n := Smaller(limit, |data|);
      (SysResult(n, false), e.(writeResults := e.writeResults[1..], sent := e.sent + data[..n]))
    case WriteError(temporary) =>
      (SysResult(-1, temporary), e.(writeResults := e.writeResults[1..]))
  }

  datatype ReadOutcome = ReadOutcome(res: SysResult, data: seq<byte>, rest: Endpoint)

  /** A read of at most `requested` bytes from what the peer has sent. */
  function Read(e: Endpoint, requested: nat): (r: ReadOutcome)
    requires |e.readResults| > 0
    ensures r.rest.readResults == e.readResults[1..]
    ensures r.rest.writeResults == e.writeResults && r.rest.sent == e.sent
    ensures -1 <= r.res.ret <= requested
    ensures r.res.ret >= 0 ==> |r.data| == r.res.ret && e.pending == r.data + r.rest.pending
    ensures r.res.ret < 0 ==> r.data == [] && r.rest.pending == e.pending
    ensures r.res.ret == 0 <==> (e.readResults[0].Deliver? && (e.readResults[0].limit == 0 || requested == 0 || e.pending == []))
    ensures r.res.ret < 0 <==> e.readResults[0].ReadError?
    ensures r.res.ret < 0 ==> r.res.temporary == e.readResults[0].temporary
    ensures r.res.ret >= 0 ==> r.res.ret <= e.readResults[0].limit
    ensures WholeRead(e.readResults[0], requested) && |e.pending| >= requested ==> r.res.ret == requested
  {
    match e.readResults[0]
    case Deliver(limit) =>
      var n := Smaller(Smaller(limit, requested), |e.pending|);
      assert e.pending == e.pending[..n] + e.pending[n..];
      ReadOutcome(SysResult(n, false), e.pending[..n], e.(readResults := e.readResults[1..], pending := e.pending[n..]))
    case ReadError(temporary) =>
      ReadOutcome(SysResult(-1, temporary), [], e.(readResults := e.readResults[1..]))
  }

  /** The framework's error codes that the transport loops return. */
  datatype Sec = SocketDisconnected | RuntimeError | UnavailableOrWouldBlock | SocketOperationFailed

  /** The framework's `read`/`write` overloads that return either a byte count
      or an error code classify a raw system-call result this way. */
  datatype IoVariant = Count(n: nat) | Fault(code: Sec)

  function Classify(r: SysResult): (v: IoVariant)
    ensures v.Count? <==> r.ret > 0
    ensures v.Count? ==> v.n == r.ret
    ensures v == Fault(SocketDisconnected) <==> r.ret == 0
  {
    if r.ret > 0 then Count(r.ret)
    else if r.ret == 0 then Fault(SocketDisconnected)
    else if r.temporary then Fault(UnavailableOrWouldBlock)
    else Fault(SocketOperationFailed)
  }

  function Concat(pieces: seq<seq<byte>>): seq<byte>
  {
    if |pieces| == 0 then [] else Concat(pieces[..|pieces| - 1]) + pieces[|pieces| - 1]
  }

  lemma ConcatAppend(pieces: seq<seq<byte>>, p: seq<byte>)
    ensures Concat(pieces + [p]) == Concat(pieces) + p
  {
    assert (pieces + [p])[..|pieces|] == pieces;
  }

  lemma {:induction false} ConcatJoin(p1: seq<seq<byte>>, p2: seq<seq<byte>>)
    ensures Concat(p1 + p2) == Concat(p1) + Concat(p2)
    decreases |p2|
  {
    if |p2| == 0 {
      assert p1 + p2 == p1;
    } else {
      var front := p2[..|p2| - 1];
      ConcatJoin(p1, front);
      assert (p1 + p2)[..|p1 + p2| - 1] == p1 + front;
    }
  }

  function Lengths(pieces: seq<seq<byte>>): (ls: seq<int>)
    ensures |ls| == |pieces|
    ensures forall i :: 0 <= i < |pieces| ==> ls[i] == |pieces[i]|
  {
    seq(|pieces|, i requires 0 <= i < |pieces| => |pieces[i]|)
  }

  lemma {:induction false} ConcatLength(pieces: seq<seq<byte>>)
    ensures |Concat(pieces)| == Sum(Lengths(pieces))
  {
    if |pieces| > 0 {
      var front := pieces[..|pieces| - 1];
      ConcatLength(front);
      assert Lengths(pieces)[..|pieces| - 1] == Lengths(front);
    }
  }

  /** `n` copies of a frame back to back. */
  function Repeat(frame: seq<byte>, n: nat): (r: seq<byte>)
    ensures |r| == n * |frame|
  {
    if n == 0 then [] else Repeat(frame, n - 1) + frame
  }

  /** The scripted results a call consumed, given the script before and after it. */
  function Used<T>(before: seq<T>, after: seq<T>): seq<T>
    requires |after| <= |before|
  {
    before[..|before| - |after|]
  }

  /** `after` is what is left of the script `before` once calls have
      consumed a prefix of it. */
  predicate Consumed<T(==)>(before: seq<T>, after: seq<T>)
  {
    |after| <= |before| && after == before[|before| - |after|..]
  }

  /** Consuming a script in two stretches consumes it in one, and the last
      call of the second stretch is the last call of the whole. */
  lemma ConsumedTrans<T>(a: seq<T>, b: seq<T>, c: seq<T>)
    requires Consumed(a, b) && Consumed(b, c)
    ensures Consumed(a, c)
    ensures |c| < |b| ==> LastUsed(a, c) == LastUsed(b, c)
    ensures |b| <= |a| && |c| <= |b| ==> Used(a, c) == Used(a, b) + Used(b, c)
  {
    assert a == Used(a, b) + b;
    assert b == Used(b, c) + c;
  }

  /** The result the last of those calls returned. */
  function LastUsed<T>(before: seq<T>, after: seq<T>): T
    requires |after| < |before|
  {
    before[|before| - |after| - 1]
  }

  /** Why the process terminates through the `exit` helper, which prints a
      message, an error code or both, and aborts. */
  datatype Exit = Exit(message: string) | ExitWith(message: string, code: Sec) | ExitOn(code: Sec)

  /** The result of one protocol step on an endpoint: it completes with a
      value, it aborts the process, or it is still waiting when the scripted
      results run out. In each case `rest` is the endpoint as the calls made
      so far left it. */
  datatype Step<T> = Next(value: T, rest: Endpoint) | Abort(exit: Exit, rest: Endpoint) | Stalled(rest: Endpoint)

  /** A step that did not complete, passed on as the outcome of the larger
      step it was part of. */
  function Halt<T, U>(step: Step<T>): Step<U>
    requires !step.Next?
  {
    if step.Abort? then Abort(step.exit, step.rest) else Stalled(step.rest)
  }

  /** The result of the framework's serializer or deserializer, which the
      model takes as a given function: `None` is a failure. */
  datatype Option<T> = None | Some(value: T)
}
