/** `pingpong_tcp_blank.cpp`: a ping-pong latency benchmark over a socket
    pair, with no actor framework. The client stamps its send time into a
    16-byte buffer and sends the first eight bytes; the echo server overwrites
    the eight bytes it received with its own time stamp and sends those eight
    bytes twice; the client reads sixteen bytes and keeps the first stamp.
    The send and receive loops here use the framework's `read`/`write` that
    return a byte count or an error code, and they return every error code,
    temporary ones included, to the caller. */
module BlankPingPong {
  import opened Bytes
  import opened Sums
  import opened Socket
  import opened LatencyReport

  /** `sizeof(long long)` */
  const TIMESTAMP_SIZE: nat := 8
  const PAYLOAD_SIZE: nat := TIMESTAMP_SIZE

  /** The bytes `memcpy` copies out of a `long long`. */
  function StampImage(t: i64, host: Endianness): (b: seq<byte>)
    ensures |b| == TIMESTAMP_SIZE
  {
    Store(ToUnsigned(t), TIMESTAMP_SIZE, host)
  }

  /** The `long long` `memcpy` rebuilds from eight bytes. */
  function StampOf(b: seq<byte>, host: Endianness): i64
    requires |b| == TIMESTAMP_SIZE
  {
    Pow256Widths();
    ToSigned(Load(b, host))
  }

  lemma StampRoundTrip(t: i64, host: Endianness)
    ensures StampOf(StampImage(t, host), host) == t
  {
    Pow256Widths();
    LoadStore(ToUnsigned(t), TIMESTAMP_SIZE, host);
  }

  /** `serialize(buf, t1, t2)`: the first sixteen bytes of `buf` become the two
      stamps, the rest of the buffer is untouched. */
  function Serialize(buf: seq<byte>, t1: i64, t2: i64, host: Endianness): (r: seq<byte>)
    requires |buf| >= 2 * TIMESTAMP_SIZE
    ensures |r| == |buf|
    ensures r[2 * TIMESTAMP_SIZE..] == buf[2 * TIMESTAMP_SIZE..]
  {
    StampImage(t1, host) + StampImage(t2, host) + buf[2 * TIMESTAMP_SIZE..]
  }

  /** `NotEnoughBytes` is the abort "buffer does not contain enough bytes!". */
  datatype Decoded = Decoded(t1: i64, t2: i64) | NotEnoughBytes

  function Deserialize(buf: seq<byte>, host: Endianness): (d: Decoded)
    ensures d.NotEnoughBytes? <==> |buf| < 2 * TIMESTAMP_SIZE
  {
    if |buf| < 2 * TIMESTAMP_SIZE then NotEnoughBytes
    else Decoded(StampOf(buf[..TIMESTAMP_SIZE], host), StampOf(buf[TIMESTAMP_SIZE..2 * TIMESTAMP_SIZE], host))
  }

  /** Deserialising what `serialize` wrote gives back both stamps, in order,
      for any buffer of at least sixteen bytes. */
  lemma SerializeRoundTrip(buf: seq<byte>, t1: i64, t2: i64, host: Endianness)
    requires |buf| >= 2 * TIMESTAMP_SIZE
    ensures Deserialize(Serialize(buf, t1, t2, host), host) == Decoded(t1, t2)
  {
    var r := Serialize(buf, t1, t2, host);
    assert r[..TIMESTAMP_SIZE] == StampImage(t1, host);
    assert r[TIMESTAMP_SIZE..2 * TIMESTAMP_SIZE] == StampImage(t2, host);
    StampRoundTrip(t1, host);
    StampRoundTrip(t2, host);
  }

  /** `Ok` is the `none` error; `Pending` a loop still running when the
      scripted results run out. */
  datatype Outcome = Ok | Failed(code: Sec) | Pending

  /** The error code of a write that transferred nothing. */
  function WriteFault(ev: WriteEvent): Sec
  {
    match ev
    case Accept(_) => SocketDisconnected
    case WriteError(temporary) => if temporary then UnavailableOrWouldBlock else SocketOperationFailed
  }

  /** The error code of a read that transferred nothing. */
  function ReadFault(ev: ReadEvent): Sec
  {
    match ev
    case Deliver(_) => SocketDisconnected
    case ReadError(temporary) => if temporary then UnavailableOrWouldBlock else SocketOperationFailed
  }

  /** A write that transferred nothing yields the code `WriteFault` names. */
  lemma WriteFaultClassifies(e: Endpoint, data: seq<byte>)
    requires |e.writeResults| > 0 && |data| > 0
    requires Write(e, data).0.ret <= 0
    ensures Classify(Write(e, data).0) == Fault(WriteFault(e.writeResults[0]))
  {
  }

  lemma ReadFaultClassifies(e: Endpoint, requested: nat)
    requires |e.readResults| > 0
    requires Read(e, requested).res.ret <= 0
    ensures Classify(Read(e, requested).res) == Fault(ReadFault(e.readResults[0]))
  {
  }

  /** The first `k` scripted writes each took at least one byte. */
  predicate WritesMoved(ws: seq<WriteEvent>, k: int)
  {
    0 <= k <= |ws| && forall i :: 0 <= i < k ==> Transfers(ws[i])
  }

  /** The first `k` scripted reads each handed over at least one byte. */
  predicate ReadsMoved(rs: seq<ReadEvent>, k: int)
  {
    0 <= k <= |rs| && forall i :: 0 <= i < k ==> Delivers(rs[i])
  }

  /** The write results from `ws` down to `rest` were used up to a last one
      that took nothing and names `code`; every one before it took bytes. */
  predicate WriteStopped(ws: seq<WriteEvent>, rest: seq<WriteEvent>, code: Sec)
  {
    && Consumed(ws, rest) && |rest| < |ws|
    && WritesMoved(ws, |ws| - |rest| - 1)
    && code == WriteFault(LastUsed(ws, rest)) && !Transfers(LastUsed(ws, rest))
  }

  /** The read results from `rs` down to `rest` were used up to a last one
      whose code is `code`; every one before it handed over bytes. */
  predicate ReadStopped(rs: seq<ReadEvent>, rest: seq<ReadEvent>, code: Sec)
  {
    && Consumed(rs, rest) && |rest| < |rs|
    && ReadsMoved(rs, |rs| - |rest| - 1)
    && code == ReadFault(LastUsed(rs, rest))
  }

  /** From `e` to `e'` every used read and every used write moved bytes. */
  predicate MovedAll(e: Endpoint, e': Endpoint)
  {
    && Consumed(e.writeResults, e'.writeResults) && Consumed(e.readResults, e'.readResults)
    && WritesMoved(e.writeResults, |e.writeResults| - |e'.writeResults|)
    && ReadsMoved(e.readResults, |e.readResults| - |e'.readResults|)
  }

  /** From `e` to `e'` a loop of this program ended at a read that brought
      nothing though bytes were there to bring, with the error `code`; every
      other used call moved bytes. */
  predicate ReadStop(e: Endpoint, e': Endpoint, code: Sec)
  {
    && ReadStopped(e.readResults, e'.readResults, code)
    && !(Delivers(LastUsed(e.readResults, e'.readResults)) && |e'.pending| > 0)
    && Consumed(e.writeResults, e'.writeResults)
    && WritesMoved(e.writeResults, |e.writeResults| - |e'.writeResults|)
  }

  /** From `e` to `e'` a loop of this program ended at a write that took
      nothing, with the error `code`; every other used call moved bytes. */
  predicate WriteStop(e: Endpoint, e': Endpoint, code: Sec)
  {
    && WriteStopped(e.writeResults, e'.writeResults, code)
    && Consumed(e.readResults, e'.readResults)
    && ReadsMoved(e.readResults, |e.readResults| - |e'.readResults|)
  }

  predicate StoppedBy(e: Endpoint, e': Endpoint, code: Sec)
  {
    ReadStop(e, e', code) || WriteStop(e, e', code)
  }

  lemma WritesMovedTrans(a: seq<WriteEvent>, b: seq<WriteEvent>, c: seq<WriteEvent>, k: int)
    requires Consumed(a, b) && Consumed(b, c) && WritesMoved(a, |a| - |b|) && WritesMoved(b, k) && k <= |b| - |c|
    ensures WritesMoved(a, |a| - |b| + k)
  {
    var d := |a| - |b|;
    forall i | d <= i < d + k
      ensures Transfers(a[i])
    {
      assert a[i] == b[i - d];
    }
  }

  lemma ReadsMovedTrans(a: seq<ReadEvent>, b: seq<ReadEvent>, c: seq<ReadEvent>, k: int)
    requires Consumed(a, b) && Consumed(b, c) && ReadsMoved(a, |a| - |b|) && ReadsMoved(b, k) && k <= |b| - |c|
    ensures ReadsMoved(a, |a| - |b| + k)
  {
    var d := |a| - |b|;
    forall i | d <= i < d + k
      ensures Delivers(a[i])
    {
      assert a[i] == b[i - d];
    }
  }

  /** Two stretches that each moved bytes on every call are one. */
  lemma MovedTrans(a: Endpoint, b: Endpoint, c: Endpoint)
    requires MovedAll(a, b) && MovedAll(b, c)
    ensures MovedAll(a, c)
  {
    ConsumedTrans(a.writeResults, b.writeResults, c.writeResults);
    ConsumedTrans(a.readResults, b.readResults, c.readResults);
    WritesMovedTrans(a.writeResults, b.writeResults, c.writeResults, |b.writeResults| - |c.writeResults|);
    ReadsMovedTrans(a.readResults, b.readResults, c.readResults, |b.readResults| - |c.readResults|);
  }

  /** A stop after a stretch that moved bytes on every call is a stop of the
      whole. */
  lemma StoppedLifts(a: Endpoint, b: Endpoint, c: Endpoint, code: Sec)
    requires MovedAll(a, b) && StoppedBy(b, c, code)
    ensures StoppedBy(a, c, code)
  {
    if ReadStop(b, c, code) {
      ReadStopLifts(a, b, c, code);
    } else {
      WriteStopLifts(a, b, c, code);
    }
  }

  lemma ReadStopLifts(a: Endpoint, b: Endpoint, c: Endpoint, code: Sec)
    requires MovedAll(a, b) && ReadStop(b, c, code)
    ensures ReadStop(a, c, code)
  {
    ConsumedTrans(a.writeResults, b.writeResults, c.writeResults);
    ConsumedTrans(a.readResults, b.readResults, c.readResults);
    WritesMovedTrans(a.writeResults, b.writeResults, c.writeResults, |b.writeResults| - |c.writeResults|);
    ReadsMovedTrans(a.readResults, b.readResults, c.readResults, |b.readResults| - |c.readResults| - 1);
  }

  lemma WriteStopLifts(a: Endpoint, b: Endpoint, c: Endpoint, code: Sec)
    requires MovedAll(a, b) && WriteStop(b, c, code)
    ensures WriteStop(a, c, code)
  {
    ConsumedTrans(a.writeResults, b.writeResults, c.writeResults);
    ConsumedTrans(a.readResults, b.readResults, c.readResults);
    WritesMovedTrans(a.writeResults, b.writeResults, c.writeResults, |b.writeResults| - |c.writeResults| - 1);
    ReadsMovedTrans(a.readResults, b.readResults, c.readResults, |b.readResults| - |c.readResults|);
  }

  /** The bytes a sequence of writes of `block` put on the wire, each write
      taking a prefix of `block`. */
  function PrefixCopies(block: seq<byte>, counts: seq<int>): seq<byte>
    requires forall i :: 0 <= i < |counts| ==> 0 <= counts[i] <= |block|
  {
    if |counts| == 0 then []
    else PrefixCopies(block, counts[..|counts| - 1]) + block[..counts[|counts| - 1]]
  }

  /** After the writes of `send` that returned the byte `counts`: each of
      them took a prefix of `block` as long as its scripted limit allowed,
      and only writes were consumed. */
  predicate Wrote(e: Endpoint, cur: Endpoint, block: seq<byte>, counts: seq<int>)
  {
    && |block| == PAYLOAD_SIZE
    && cur.readResults == e.readResults && cur.pending == e.pending
    && |cur.writeResults| <= |e.writeResults| && cur.writeResults == e.writeResults[|e.writeResults| - |cur.writeResults|..]
    && (forall i :: 0 <= i < |counts| ==> 0 < counts[i] <= PAYLOAD_SIZE)
    && |Used(e.writeResults, cur.writeResults)| == |counts|
    && (forall i :: 0 <= i < |counts| ==>
          Used(e.writeResults, cur.writeResults)[i].Accept?
          && counts[i] == Smaller(Used(e.writeResults, cur.writeResults)[i].limit, PAYLOAD_SIZE))
    && cur.sent == e.sent + PrefixCopies(block, counts)
  }

  /** `send` stopped at a write that transferred nothing: before it, the
      writes so far are described by `Wrote`; the failed write's scripted
      result is not a positive limit and names the error code. */
  predicate FailedWrite(e: Endpoint, cur: Endpoint, block: seq<byte>, counts: seq<int>, code: Sec)
  {
    && |cur.writeResults| < |e.writeResults|
    && var ev := e.writeResults[|e.writeResults| - |cur.writeResults| - 1];
      && Wrote(e, cur.(writeResults := [ev] + cur.writeResults), block, counts)
      && code == WriteFault(ev) && !(ev.Accept? && ev.limit > 0)
  }

  /** One `write` of `send`: a positive result is one more count for
      `Wrote`, anything else a `FailedWrite`. */
  method WriteOnce(e: Endpoint, cur: Endpoint, block: seq<byte>, counts: seq<int>) returns (n: int, cur': Endpoint)
    requires Wrote(e, cur, block, counts) && |cur.writeResults| > 0
    ensures |cur'.writeResults| < |cur.writeResults|
    ensures n > 0 ==> Wrote(e, cur', block, counts + [n])
    ensures n <= 0 ==> FailedWrite(e, cur', block, counts, WriteFault(cur.writeResults[0]))
  {
    var ev := cur.writeResults[0];
    assert e.writeResults[|e.writeResults| - |cur.writeResults|] == ev;
    var w := Write(cur, block);
    n, cur' := w.0.ret, w.1;
    if n > 0 {
      var used := Used(e.writeResults, cur.writeResults);
      assert Used(e.writeResults, cur'.writeResults) == used + [ev];
      var counts' := counts + [n];
      assert counts'[..|counts|] == counts;
      assert PrefixCopies(block, counts') == PrefixCopies(block, counts) + block[..n];
      assert forall i :: 0 <= i < |counts| ==> (used + [ev])[i] == used[i];
    } else {
      assert block[..0] == [];
      assert cur'.(writeResults := [ev] + cur'.writeResults) == cur;
    }
  }

  /** How a `send` ended, in terms of the write results it used: only writes
      were consumed; a `Pending` send ran out of them; every used write took
      bytes, except the last of a failed send, which took none and names the
      error code. */
  predicate SendEnded(e: Endpoint, put: Outcome, e': Endpoint)
  {
    && e'.readResults == e.readResults && e'.pending == e.pending
    && Consumed(e.writeResults, e'.writeResults)
    && (put.Pending? ==> e'.writeResults == [])
    && (!put.Failed? ==> WritesMoved(e.writeResults, |e.writeResults| - |e'.writeResults|))
    && (put.Failed? ==> WriteStopped(e.writeResults, e'.writeResults, put.code))
  }

  /** The writes `Wrote` describes each took bytes. */
  lemma WroteMoved(e: Endpoint, cur: Endpoint, block: seq<byte>, counts: seq<int>)
    requires Wrote(e, cur, block, counts)
    ensures Consumed(e.writeResults, cur.writeResults)
    ensures WritesMoved(e.writeResults, |e.writeResults| - |cur.writeResults|)
  {
    var used := Used(e.writeResults, cur.writeResults);
    forall i | 0 <= i < |used|
      ensures Transfers(e.writeResults[i])
    {
      assert used[i] == e.writeResults[i];
    }
  }

  /** A `FailedWrite` is a stop at its last write. */
  lemma FailedWriteStopped(e: Endpoint, cur: Endpoint, block: seq<byte>, counts: seq<int>, code: Sec)
    requires FailedWrite(e, cur, block, counts, code)
    ensures WriteStopped(e.writeResults, cur.writeResults, code)
  {
    var ev := e.writeResults[|e.writeResults| - |cur.writeResults| - 1];
    var before := cur.(writeResults := [ev] + cur.writeResults);
    WroteMoved(e, before, block, counts);
    assert cur.writeResults == before.writeResults[1..];
  }

  /** `send(sock, buf, amount)`: writes the first `PAYLOAD_SIZE` bytes of
      `buf` again and again, at least once, until the byte count reaches
      `amount`; the first error code ends it. */
  method Send(e: Endpoint, buf: seq<byte>, amount: nat) returns (st: Outcome, e': Endpoint, counts: seq<int>)
    requires |buf| >= PAYLOAD_SIZE
    ensures !st.Failed? ==> Wrote(e, e', buf[..PAYLOAD_SIZE], counts)
    ensures st.Failed? ==> FailedWrite(e, e', buf[..PAYLOAD_SIZE], counts, st.code)
    ensures st.Ok? ==> |counts| > 0 && Sum(counts) >= amount && (|counts| == 1 || Sum(counts[..|counts| - 1]) < amount)
    ensures !st.Ok? ==> |counts| == 0 || Sum(counts) < amount
    ensures st.Pending? ==> e'.writeResults == []
    ensures SendEnded(e, st, e')
  {
    var block := buf[..PAYLOAD_SIZE];
    e' := e;
    counts := [];
    var written := 0;
    while true
      invariant written == Sum(counts)
      invariant Wrote(e, e', block, counts)
      invariant |counts| == 0 || written < amount
      decreases |e'.writeResults|
    {
      if |e'.writeResults| == 0 {
        WroteMoved(e, e', block, counts);
        return Pending, e', counts;
      }
      var ev := e'.writeResults[0];
      var n, e2 := WriteOnce(e, e', block, counts);
      if n <= 0 {
        FailedWriteStopped(e, e2, block, counts, WriteFault(ev));
        return Failed(WriteFault(ev)), e2, counts;
      }
      SumAppend(counts, n);
      assert (counts + [n])[..|counts|] == counts;
      counts, written, e' := counts + [n], written + n, e2;
      if written >= amount {
        WroteMoved(e, e', block, counts);
        return Ok, e', counts;
      }
    }
  }

  /** After `received` bytes of `receive`: they came off the front of the
      stream into the front of the buffer, the rest of the buffer is as it
      was, and only reads were consumed. */
  predicate Filled(e: Endpoint, cur: Endpoint, buf: seq<byte>, buf': seq<byte>, received: nat)
  {
    && |buf'| == |buf| && received <= |buf'|
    && cur.writeResults == e.writeResults && cur.sent == e.sent
    && |cur.readResults| <= |e.readResults| && cur.readResults == e.readResults[|e.readResults| - |cur.readResults|..]
    && e.pending == buf'[..received] + cur.pending
    && buf'[received..] == buf[received..]
  }

  /** One `read` of `receive`, of the `want` bytes still missing, into the
      buffer at offset `received`. A positive result extends what `Filled`
      describes by that many bytes; otherwise the error code is the one the
      read's scripted result names and nothing else changes. */
  method FillOnce(e: Endpoint, cur: Endpoint, buf: seq<byte>, buf': seq<byte>, received: nat, want: nat)
    returns (n: int, cur': Endpoint, buf'': seq<byte>)
    requires Filled(e, cur, buf, buf', received) && |cur.readResults| > 0 && received + want <= |buf|
    ensures cur'.readResults == cur.readResults[1..]
    ensures n <= want
    ensures n > 0 ==> Filled(e, cur', buf, buf'', received + n)
    ensures n <= 0 ==> Filled(e, cur', buf, buf', received) && buf'' == buf' && cur'.pending == cur.pending
    ensures n > 0 <==> Delivers(cur.readResults[0]) && |cur.pending| > 0 && want > 0
    ensures WholeRead(cur.readResults[0], want) && |cur.pending| >= want ==> n == want
    ensures n == Read(cur, want).res.ret && cur' == Read(cur, want).rest
  {
    var out := Read(cur, want);
    n, cur' := out.res.ret, out.rest;
    assert cur'.readResults == e.readResults[|e.readResults| - |cur'.readResults|..];
    if n <= 0 {
      buf'' := buf';
    } else {
      buf'' := buf'[..received] + out.data + buf'[received + n..];
      assert buf''[..received + n] == buf'[..received] + out.data;
      assert buf''[received + n..] == buf'[received + n..];
    }
  }

  /** The reads `used` of `receive` against the byte counts they returned,
      on a stream that held `avail` unread bytes at the start: each asked
      for the bytes still missing of `amount` and got as many as its
      scripted limit and the bytes left on the stream allowed, at least
      one. */
  predicate CountsMatch(used: seq<ReadEvent>, counts: seq<int>, amount: int, avail: int)
    decreases |used|
  {
    if |used| == 0 then counts == []
    else
      && |counts| == |used|
      && var k := |used| - 1;
         var before := Sum(counts[..k]);
         && used[k].Deliver?
         && 0 < counts[k] == Smaller(Smaller(used[k].limit, amount - before), avail - before)
         && CountsMatch(used[..k], counts[..k], amount, avail)
  }

  /** The reads of `receive` from `e` to `cur` against the byte counts
      they returned, as `CountsMatch` pairs them; together they took the
      bytes the stream lost. */
  predicate Took(e: Endpoint, cur: Endpoint, amount: nat, counts: seq<int>)
  {
    && Consumed(e.readResults, cur.readResults)
    && Sum(counts) == |e.pending| - |cur.pending|
    && CountsMatch(Used(e.readResults, cur.readResults), counts, amount, |e.pending|)
  }

  /** A read that returned a positive count is one more for `Took`. */
  lemma TookStep(e: Endpoint, cur: Endpoint, cur': Endpoint, amount: nat, counts: seq<int>, n: int)
    requires Took(e, cur, amount, counts) && |cur.readResults| > 0 && cur'.readResults == cur.readResults[1..]
    requires cur.readResults[0].Deliver?
    requires 0 < n == Smaller(Smaller(cur.readResults[0].limit, amount - Sum(counts)), |cur.pending|)
    requires |cur'.pending| == |cur.pending| - n
    ensures Took(e, cur', amount, counts + [n])
  {
    var used := Used(e.readResults, cur.readResults);
    var used' := Used(e.readResults, cur'.readResults);
    var counts' := counts + [n];
    assert e.readResults[|e.readResults| - |cur.readResults|] == cur.readResults[0];
    assert used' == used + [cur.readResults[0]];
    assert used'[..|used|] == used;
    assert counts'[..|counts|] == counts;
    SumAppend(counts, n);
    assert |counts| == |used| by {
      if |used| > 0 {
        assert CountsMatch(used, counts, amount, |e.pending|);
      }
    }
  }

  /** How the reads of a `receive` that ended with `st` went: in a call
      that did not fail every read is one of `counts`; in a failed call the
      reads before the last are, and the last, asking for the bytes still
      missing from the stream as it then stood, returned zero or less. */
  predicate ReadsTook(e: Endpoint, amount: nat, st: Outcome, e': Endpoint, counts: seq<int>)
  {
    && (!st.Failed? ==> Took(e, e', amount, counts))
    && (st.Failed? ==>
          && |e'.readResults| < |e.readResults| && Consumed(e.readResults, e'.readResults)
          && var before := e'.(readResults := [LastUsed(e.readResults, e'.readResults)] + e'.readResults);
             && Took(e, before, amount, counts) && Sum(counts) <= amount
             && Read(before, amount - Sum(counts)).res.ret <= 0)
  }

  /** A read that returned zero or less ends a failed `receive` the way
      `ReadsTook` says. */
  lemma FailTook(e: Endpoint, cur: Endpoint, amount: nat, counts: seq<int>, want: nat)
    requires Took(e, cur, amount, counts) && |cur.readResults| > 0 && want == amount - Sum(counts)
    requires Read(cur, want).res.ret <= 0
    ensures ReadsTook(e, amount, Failed(ReadFault(cur.readResults[0])), Read(cur, want).rest, counts)
  {
    var cur' := Read(cur, want).rest;
    assert e.readResults[|e.readResults| - |cur.readResults|] == cur.readResults[0];
    assert cur'.(readResults := [cur.readResults[0]] + cur'.readResults) == cur;
  }

  /** One read whose limit is a single byte takes at most that byte, so a
      `receive` of eight bytes cannot finish on it. */
  lemma OneByteRead(pending: seq<byte>, st: Outcome, e': Endpoint, counts: seq<int>)
    requires ReadsTook(Endpoint([], [], [Deliver(1)], pending), 8, st, e', counts)
    ensures |pending| - |e'.pending| <= 1
  {
  }

  /** A read that hands over the last five bytes of the stream does not
      fail, so it is not reported as a disconnect. */
  lemma DrainingReadNotFailed(st: Outcome, e': Endpoint, counts: seq<int>)
    requires ReadsTook(Endpoint([], [], [Deliver(5)], [1, 2, 3, 4, 5]), 8, st, e', counts)
    ensures !st.Failed?
  {
  }

  /** Where `receive` stands between reads, after `received` bytes: what
      `Filled` says, and every used read handed over bytes. Nothing has
      been read while `received` is zero; once it is not, the first read
      moved bytes but was not a whole read of `amount`. */
  predicate Receiving(e: Endpoint, buf: seq<byte>, amount: nat, cur: Endpoint, buf': seq<byte>, received: nat,
                      counts: seq<int>)
  {
    && received <= amount && Filled(e, cur, buf, buf', received) && Took(e, cur, amount, counts)
    && (received < amount || amount == 0)
    && (received == 0 ==> cur == e && buf' == buf)
    && (received > 0 ==> |cur.readResults| < |e.readResults|)
    && ReadsMoved(e.readResults, |e.readResults| - |cur.readResults|)
    && (received > 0 ==> Delivers(e.readResults[0]) && !(WholeRead(e.readResults[0], amount) && |e.pending| >= amount))
  }

  /** How `receive` ended. The bytes it took came off the front of the
      stream into the front of the buffer; it succeeded exactly when it took
      `amount` of them, ran out of read results when `Pending`, and every used
      read handed over bytes except the last of a failed receive, whose
      error code it returns; that read brought nothing though the stream still
      held bytes only if it was an error. A whole first read ends it with
      success at once, and a first read that brings nothing ends it with that
      read's code. */
  predicate Received(e: Endpoint, buf: seq<byte>, amount: nat, st: Outcome, e': Endpoint, buf': seq<byte>)
  {
    && |e'.pending| <= |e.pending| <= |e'.pending| + amount
    && Filled(e, e', buf, buf', |e.pending| - |e'.pending|)
    && (st.Ok? <==> amount > 0 && |e.pending| - |e'.pending| == amount)
    && (st.Pending? ==> e'.readResults == [])
    && (!st.Pending? ==> |e'.readResults| < |e.readResults|)
    && (!st.Failed? ==> ReadsMoved(e.readResults, |e.readResults| - |e'.readResults|))
    && (st.Failed? ==>
          && ReadStopped(e.readResults, e'.readResults, st.code)
          && (amount > 0 ==> !(Delivers(LastUsed(e.readResults, e'.readResults)) && |e'.pending| > 0)))
    && (|e.readResults| > 0 && amount > 0 && WholeRead(e.readResults[0], amount) && |e.pending| >= amount ==>
          st.Ok? && e'.readResults == e.readResults[1..])
    && (|e.readResults| > 0 && !(Delivers(e.readResults[0]) && |e.pending| > 0 && amount > 0) ==>
          st == Failed(ReadFault(e.readResults[0])) && e'.readResults == e.readResults[1..])
  }

  /** A read that returned zero or less ends `receive` with that read's
      error code. */
  lemma ReceiveFails(e: Endpoint, buf: seq<byte>, amount: nat, cur: Endpoint, buf': seq<byte>, received: nat,
                     counts: seq<int>, cur': Endpoint)
    requires amount <= |buf| && Receiving(e, buf, amount, cur, buf', received, counts) && |cur.readResults| > 0
    requires Read(cur, amount - received).res.ret <= 0 && cur' == Read(cur, amount - received).rest
    ensures Received(e, buf, amount, Failed(ReadFault(cur.readResults[0])), cur', buf')
    ensures ReadsTook(e, amount, Failed(ReadFault(cur.readResults[0])), cur', counts)
  {
    assert e.readResults[|e.readResults| - |cur.readResults|] == cur.readResults[0];
    FailTook(e, cur, amount, counts, amount - received);
  }

  /** A read that returned a positive count either completes `receive` or
      leaves it one read further. */
  lemma ReceiveGoes(e: Endpoint, buf: seq<byte>, amount: nat, cur: Endpoint, buf': seq<byte>, received: nat,
                    counts: seq<int>, n: int, cur': Endpoint, buf'': seq<byte>)
    requires amount <= |buf| && Receiving(e, buf, amount, cur, buf', received, counts) && |cur.readResults| > 0
    requires cur'.readResults == cur.readResults[1..] && 0 < n <= amount - received
    requires Filled(e, cur', buf, buf'', received + n)
    requires n == Read(cur, amount - received).res.ret && cur' == Read(cur, amount - received).rest
    requires Delivers(cur.readResults[0])
    requires WholeRead(cur.readResults[0], amount - received) && |cur.pending| >= amount - received ==> n == amount - received
    ensures received + n >= amount ==>
      Received(e, buf, amount, Ok, cur', buf'') && ReadsTook(e, amount, Ok, cur', counts + [n])
    ensures received + n < amount ==> Receiving(e, buf, amount, cur', buf'', received + n, counts + [n])
  {
    assert e.readResults[|e.readResults| - |cur.readResults|] == cur.readResults[0];
    TookStep(e, cur, cur', amount, counts, n);
  }

  /** One pass of the `receive` loop: it ends the call or moves on to the
      next read. */
  method ReceiveStep(e: Endpoint, buf: seq<byte>, amount: nat, cur: Endpoint, buf': seq<byte>, received: nat,
                     counts: seq<int>)
    returns (done: bool, st: Outcome, cur': Endpoint, buf'': seq<byte>, received': nat, counts': seq<int>)
    requires amount <= |buf| && Receiving(e, buf, amount, cur, buf', received, counts)
    ensures done ==> Received(e, buf, amount, st, cur', buf'') && ReadsTook(e, amount, st, cur', counts')
    ensures !done ==>
      Receiving(e, buf, amount, cur', buf'', received', counts') && |cur'.readResults| < |cur.readResults|
  {
    if |cur.readResults| == 0 {
      return true, Pending, cur, buf', received, counts;
    }
    var ev := cur.readResults[0];
    var n;
    n, cur', buf'' := FillOnce(e, cur, buf, buf', received, amount - received);
    if n <= 0 {
      ReceiveFails(e, buf, amount, cur, buf', received, counts, cur');
      return true, Failed(ReadFault(ev)), cur', buf', received, counts;
    }
    ReceiveGoes(e, buf, amount, cur, buf', received, counts, n, cur', buf'');
    received', counts' := received + n, counts + [n];
    if received' >= amount {
      return true, Ok, cur', buf'', received', counts';
    }
    return false, Pending, cur', buf'', received', counts';
  }

  /** `receive(sock, buf, amount)`: reads only the missing bytes, at offset
      `received`, until `amount` bytes have arrived; the first error code ends
      it, a temporary one included. The first read happens even when `amount`
      is zero. `counts` are the positive counts its reads returned, one per
      read that did not end the call. */
  method Receive(e: Endpoint, buf: seq<byte>, amount: nat) returns (st: Outcome, e': Endpoint, buf': seq<byte>, counts: seq<int>)
    requires amount <= |buf|
    ensures Received(e, buf, amount, st, e', buf')
    ensures ReadsTook(e, amount, st, e', counts)
  {
    e' := e;
    buf' := buf;
    counts := [];
    var received: nat := 0;
    assert buf[..0] + e.pending == e.pending;
    while true
      invariant Receiving(e, buf, amount, e', buf', received, counts)
      decreases |e'.readResults|
    {
      var done, st', e2, buf2, received2, counts2 := ReceiveStep(e, buf, amount, e', buf', received, counts);
      if done {
        return st', e2, buf2, counts2;
      }
      e', buf', received, counts := e2, buf2, received2, counts2;
    }
  }

  /** Sixteen bytes: the reply frame and the client's buffer. */
  const FRAME_SIZE: nat := 2 * PAYLOAD_SIZE

  /** What the echo server sends for one round when every write goes
      through whole: its own stamp, twice. */
  function Reply(ts: i64, host: Endianness): (b: seq<byte>)
    ensures |b| == FRAME_SIZE
  {
    StampImage(ts, host) + StampImage(ts, host)
  }

  function Replies(stamps: seq<i64>, host: Endianness): seq<seq<byte>>
  {
    seq(|stamps|, i requires 0 <= i < |stamps| => Reply(stamps[i], host))
  }

  /** Every scripted write takes at least a whole payload. */
  predicate FullWrites(ws: seq<WriteEvent>)
  {
    forall i :: 0 <= i < |ws| ==> ws[i].Accept? && ws[i].limit >= PAYLOAD_SIZE
  }

  lemma PrefixCopiesTwice(block: seq<byte>)
    requires |block| == PAYLOAD_SIZE
    ensures PrefixCopies(block, [PAYLOAD_SIZE, PAYLOAD_SIZE]) == block + block
  {
    var once: seq<int> := [PAYLOAD_SIZE];
    var twice: seq<int> := [PAYLOAD_SIZE, PAYLOAD_SIZE];
    PrefixCopiesOnce(block);
    assert twice[..1] == once;
    assert PrefixCopies(block, twice) == PrefixCopies(block, once) + block;
  }

  /** When every write takes a whole payload, `send` cannot fail and each
      of its writes counts a whole payload. */
  lemma WholeWrites(e: Endpoint, e': Endpoint, block: seq<byte>, counts: seq<int>, st: Outcome)
    requires FullWrites(e.writeResults)
    requires !st.Failed? ==> Wrote(e, e', block, counts)
    requires st.Failed? ==> FailedWrite(e, e', block, counts, st.code)
    ensures !st.Failed? && FullWrites(e'.writeResults)
    ensures forall i :: 0 <= i < |counts| ==> counts[i] == PAYLOAD_SIZE
  {
    assert !st.Failed?;
    var used := Used(e.writeResults, e'.writeResults);
    assert forall i :: 0 <= i < |used| ==> used[i] == e.writeResults[i];
    forall i | 0 <= i < |counts|
      ensures counts[i] == PAYLOAD_SIZE
    {
      assert used[i].limit >= PAYLOAD_SIZE;
    }
  }

  /** Whole writes that reach sixteen bytes are exactly two. */
  lemma {:induction false} TwoWholeWrites(counts: seq<int>)
    requires forall i :: 0 <= i < |counts| ==> counts[i] == PAYLOAD_SIZE
    requires |counts| > 0 && Sum(counts) >= FRAME_SIZE
    requires |counts| == 1 || Sum(counts[..|counts| - 1]) < FRAME_SIZE
    ensures counts == [PAYLOAD_SIZE, PAYLOAD_SIZE]
  {
    SumBounds(counts, PAYLOAD_SIZE, PAYLOAD_SIZE);
    if |counts| > 1 {
      SumBounds(counts[..|counts| - 1], PAYLOAD_SIZE, PAYLOAD_SIZE);
    }
    assert |counts| == 2;
  }

  /** How one reply of the echo server went out: as `SendEnded` says, and
      when every write takes a whole payload the reply cannot fail, goes out
      as two copies of the stamp, and, with two write results there, goes out
      through exactly those two. */
  predicate ReplySent(e: Endpoint, ts: i64, host: Endianness, put: Outcome, e': Endpoint)
  {
    && SendEnded(e, put, e')
    && (FullWrites(e.writeResults) ==> FullWrites(e'.writeResults) && !put.Failed?)
    && (FullWrites(e.writeResults) && put.Ok? ==> e'.sent == e.sent + Reply(ts, host))
    && (FullWrites(e.writeResults) && |e.writeResults| >= 2 ==> put.Ok? && e'.writeResults == e.writeResults[2..])
  }

  /** How one reply of the echo server went out, whatever the writes
      allowed: each write that took bytes put a prefix of the stamp's image
      on the wire (so none of the client's bytes), the first write that took
      nothing ended it with its code, a reply that went out counted sixteen
      bytes with its last write and not before, and `ReplySent` holds. */
  predicate ReplyWent(e: Endpoint, ts: i64, host: Endianness, put: Outcome, e': Endpoint, counts: seq<int>)
  {
    && (!put.Failed? ==> Wrote(e, e', StampImage(ts, host), counts))
    && (put.Failed? ==> FailedWrite(e, e', StampImage(ts, host), counts, put.code))
    && (put.Ok? ==>
          |counts| > 0 && Sum(counts) >= FRAME_SIZE && (|counts| == 1 || Sum(counts[..|counts| - 1]) < FRAME_SIZE))
    && (!put.Ok? ==> |counts| == 0 || Sum(counts) < FRAME_SIZE)
    && ReplySent(e, ts, host, put, e')
  }

  /** One reply of the echo server: `send(sock, buf, 16)` with the fresh
      stamp in `buf`. */
  method SendReply(e: Endpoint, ts: i64, host: Endianness) returns (put: Outcome, e': Endpoint, counts: seq<int>)
    ensures ReplyWent(e, ts, host, put, e', counts)
  {
    var buf := StampImage(ts, host);
    assert buf[..PAYLOAD_SIZE] == buf;
    put, e', counts := Send(e, buf, FRAME_SIZE);
    if FullWrites(e.writeResults) {
      WholeWrites(e, e', buf[..PAYLOAD_SIZE], counts, put);
      if put.Ok? {
        TwoWholeWrites(counts);
        assert buf[..PAYLOAD_SIZE] == buf;
        PrefixCopiesTwice(buf);
      } else {
        SumBounds(counts, PAYLOAD_SIZE, PAYLOAD_SIZE);
      }
    }
  }

  lemma RepliesAppend(stamps: seq<i64>, ts: i64, host: Endianness)
    ensures Concat(Replies(stamps + [ts], host)) == Concat(Replies(stamps, host)) + Reply(ts, host)
  {
    assert Replies(stamps + [ts], host) == Replies(stamps, host) + [Reply(ts, host)];
    ConcatAppend(Replies(stamps, host), Reply(ts, host));
  }

  datatype ServerEnd = Closed | Crashed(code: Sec) | Waiting

  /** The end `echo_server` comes to when a call returns `o`: a disconnect
      breaks the loop, any other error code exits the process. */
  function EndOf(o: Outcome): ServerEnd
    requires !o.Ok?
  {
    if o.Pending? then Waiting else if o.code == SocketDisconnected then Closed else Crashed(o.code)
  }

  /** The client sends `n` whole pings and then hangs up, and every write of
      the server takes a whole payload: the next `n` reads each hand over a
      whole ping, the stream holds exactly those `n` pings, the read after
      them finds the stream closed, and there are write results for two
      writes per reply. */
  predicate ServerFed(e: Endpoint, n: nat)
  {
    && FullWrites(e.writeResults) && |e.writeResults| >= 2 * n
    && |e.readResults| > n && (forall i :: 0 <= i < n ==> WholeRead(e.readResults[i], PAYLOAD_SIZE))
    && e.readResults[n].Deliver?
    && |e.pending| == PAYLOAD_SIZE * n
  }

  /** What holds of `echo_server` between rounds, relative to the endpoint
      `e` it started from, after the rounds that drew `stamps`: every used
      call moved bytes, the replies so far are on the wire, and a client that
      was to send `n` pings has `n - |stamps|` of them left. */
  ghost predicate Echoing(e: Endpoint, host: Endianness, clock: nat -> i64, cur: Endpoint, stamps: seq<i64>)
  {
    && StampsFrom(stamps, clock)
    && MovedAll(e, cur)
    && RepliesOut(e, host, cur, stamps)
    && FedFor(e, cur, |stamps|)
  }

  /** Round `i` of the server stamped with `clock(i)`. */
  predicate StampsFrom(stamps: seq<i64>, clock: nat -> i64)
  {
    forall i :: 0 <= i < |stamps| ==> stamps[i] == clock(i)
  }

  /** With whole writes, the server's replies follow each other on the wire. */
  predicate RepliesOut(e: Endpoint, host: Endianness, cur: Endpoint, stamps: seq<i64>)
  {
    FullWrites(e.writeResults) ==> FullWrites(cur.writeResults) && cur.sent == e.sent + Concat(Replies(stamps, host))
  }

  /** After `k` rounds, a client that was to send `n` pings has `n - k` left. */
  ghost predicate FedFor(e: Endpoint, cur: Endpoint, k: nat)
  {
    forall n: nat :: ServerFed(e, n) ==> k <= n && ServerFed(cur, n - k)
  }

  /** How `echo_server` ends. Round `i` stamps with `clock(i)`. It ends
      `Closed` exactly at a call that returned a disconnect and `Crashed` at
      one that returned any other code, every earlier call having moved
      bytes; it is `Waiting` only when a script ran out. With whole writes the
      wire holds one reply per round. A client that sends `n` whole pings and
      hangs up gets `n` replies and a clean end. */
  ghost predicate Echoed(e: Endpoint, host: Endianness, clock: nat -> i64, end: ServerEnd, e': Endpoint, stamps: seq<i64>)
  {
    && StampsFrom(stamps, clock)
    && EndedBy(e, end, e')
    && (!end.Waiting? ==> RepliesOut(e, host, e', stamps))
    && FedEnd(e, end, |stamps|)
  }

  /** The server's end matches the call that brought it. */
  predicate EndedBy(e: Endpoint, end: ServerEnd, e': Endpoint)
  {
    && (end.Closed? ==> StoppedBy(e, e', SocketDisconnected))
    && (end.Crashed? ==> end.code != SocketDisconnected && StoppedBy(e, e', end.code))
    && (end.Waiting? ==> (e'.readResults == [] || e'.writeResults == []) && MovedAll(e, e'))
  }

  /** A client that sends `n` whole pings and hangs up ends the server
      cleanly after `n` rounds. */
  ghost predicate FedEnd(e: Endpoint, end: ServerEnd, k: nat)
  {
    forall n: nat :: ServerFed(e, n) ==> end == Closed && k == n
  }

  /** A `receive` that did not fail moved bytes on every read. */
  lemma ReceiveMoves(e: Endpoint, buf: seq<byte>, amount: nat, got: Outcome, e': Endpoint, buf': seq<byte>)
    requires Received(e, buf, amount, got, e', buf') && !got.Failed?
    ensures MovedAll(e, e')
  {
  }

  /** A failed `receive` of a positive amount is a stop at a read. */
  lemma ReceiveStops(e: Endpoint, buf: seq<byte>, amount: nat, got: Outcome, e': Endpoint, buf': seq<byte>)
    requires Received(e, buf, amount, got, e', buf') && got.Failed? && amount > 0
    ensures ReadStop(e, e', got.code)
  {
  }

  lemma SendMoves(e: Endpoint, put: Outcome, e': Endpoint)
    requires SendEnded(e, put, e') && !put.Failed?
    ensures MovedAll(e, e')
  {
  }

  lemma SendStops(e: Endpoint, put: Outcome, e': Endpoint)
    requires SendEnded(e, put, e') && put.Failed?
    ensures WriteStop(e, e', put.code)
  {
  }

  /** Fed `m` more pings, the server's `receive` takes a whole ping when
      `m > 0` and finds the stream closed when `m == 0`. */
  lemma FedPing(cur: Endpoint, m: nat, got: Outcome, e1: Endpoint, b1: seq<byte>)
    requires Received(cur, Zeros(PAYLOAD_SIZE), PAYLOAD_SIZE, got, e1, b1)
    ensures ServerFed(cur, m) && m == 0 ==> got == Failed(SocketDisconnected)
    ensures ServerFed(cur, m) && m > 0 ==>
      && got.Ok? && e1.readResults == cur.readResults[1..] && |e1.pending| + PAYLOAD_SIZE == |cur.pending|
      && e1.writeResults == cur.writeResults
  {
  }

  lemma ServerFedShift(cur: Endpoint, m: nat, e2: Endpoint)
    requires ServerFed(cur, m) && m > 0
    requires e2.readResults == cur.readResults[1..] && |e2.pending| + PAYLOAD_SIZE == |cur.pending|
    requires e2.writeResults == cur.writeResults[2..]
    ensures ServerFed(e2, m - 1)
  {
    forall i | 0 <= i < m - 1
      ensures WholeRead(e2.readResults[i], PAYLOAD_SIZE)
    {
      assert e2.readResults[i] == cur.readResults[i + 1];
    }
  }

  /** A round of `echo_server` that stops at its `receive`. */
  lemma EchoEndsOnRead(e: Endpoint, host: Endianness, clock: nat -> i64, cur: Endpoint, stamps: seq<i64>,
                       got: Outcome, e1: Endpoint, b1: seq<byte>)
    requires Echoing(e, host, clock, cur, stamps)
    requires Received(cur, Zeros(PAYLOAD_SIZE), PAYLOAD_SIZE, got, e1, b1) && !got.Ok?
    ensures Echoed(e, host, clock, EndOf(got), e1, stamps)
  {
    ReadEnds(e, cur, got, e1, b1);
    FedEndOnRead(e, cur, |stamps|, got, e1, b1);
    assert RepliesOut(e, host, e1, stamps);
  }

  lemma ReadEnds(e: Endpoint, cur: Endpoint, got: Outcome, e1: Endpoint, b1: seq<byte>)
    requires MovedAll(e, cur)
    requires Received(cur, Zeros(PAYLOAD_SIZE), PAYLOAD_SIZE, got, e1, b1) && !got.Ok?
    ensures EndedBy(e, EndOf(got), e1)
  {
    if got.Failed? {
      ReceiveStops(cur, Zeros(PAYLOAD_SIZE), PAYLOAD_SIZE, got, e1, b1);
      ReadStopLifts(e, cur, e1, got.code);
    } else {
      ReceiveMoves(cur, Zeros(PAYLOAD_SIZE), PAYLOAD_SIZE, got, e1, b1);
      MovedTrans(e, cur, e1);
    }
  }

  /** A client with pings left has them taken, so a `receive` that does not
      succeed finds the stream closed after the last one. */
  lemma FedEndOnRead(e: Endpoint, cur: Endpoint, k: nat, got: Outcome, e1: Endpoint, b1: seq<byte>)
    requires FedFor(e, cur, k)
    requires Received(cur, Zeros(PAYLOAD_SIZE), PAYLOAD_SIZE, got, e1, b1) && !got.Ok?
    ensures FedEnd(e, EndOf(got), k)
  {
    forall n: nat | ServerFed(e, n)
      ensures EndOf(got) == Closed && k == n
    {
      FedPing(cur, n - k, got, e1, b1);
    }
  }

  /** A round of `echo_server` that stops at its `send`. */
  lemma EchoEndsOnWrite(e: Endpoint, host: Endianness, clock: nat -> i64, cur: Endpoint, stamps: seq<i64>,
                        e1: Endpoint, b1: seq<byte>, put: Outcome, e2: Endpoint)
    requires Echoing(e, host, clock, cur, stamps)
    requires Received(cur, Zeros(PAYLOAD_SIZE), PAYLOAD_SIZE, Ok, e1, b1)
    requires ReplySent(e1, clock(|stamps|), host, put, e2) && !put.Ok?
    ensures Echoed(e, host, clock, EndOf(put), e2, stamps + [clock(|stamps|)])
  {
    WriteEnds(e, cur, e1, b1, clock(|stamps|), host, put, e2);
    FedEndOnWrite(e, cur, |stamps|, e1, b1, clock(|stamps|), host, put, e2);
    assert StampsFrom(stamps + [clock(|stamps|)], clock);
  }

  lemma WriteEnds(e: Endpoint, cur: Endpoint, e1: Endpoint, b1: seq<byte>, ts: i64, host: Endianness, put: Outcome, e2: Endpoint)
    requires MovedAll(e, cur)
    requires Received(cur, Zeros(PAYLOAD_SIZE), PAYLOAD_SIZE, Ok, e1, b1)
    requires ReplySent(e1, ts, host, put, e2) && !put.Ok?
    ensures EndedBy(e, EndOf(put), e2)
  {
    ReceiveMoves(cur, Zeros(PAYLOAD_SIZE), PAYLOAD_SIZE, Ok, e1, b1);
    MovedTrans(e, cur, e1);
    if put.Failed? {
      SendStops(e1, put, e2);
      WriteStopLifts(e, e1, e2, put.code);
    } else {
      SendMoves(e1, put, e2);
      MovedTrans(e, e1, e2);
    }
  }

  /** A client with pings left gets its replies sent, so no `send` of the
      server stops short for it. */
  lemma FedEndOnWrite(e: Endpoint, cur: Endpoint, k: nat, e1: Endpoint, b1: seq<byte>, ts: i64, host: Endianness, put: Outcome, e2: Endpoint)
    requires FedFor(e, cur, k)
    requires Received(cur, Zeros(PAYLOAD_SIZE), PAYLOAD_SIZE, Ok, e1, b1)
    requires ReplySent(e1, ts, host, put, e2) && !put.Ok?
    ensures FedEnd(e, EndOf(put), k + 1)
  {
    forall n: nat
      ensures !ServerFed(e, n)
    {
      FedPing(cur, if n >= k then n - k else 0, Ok, e1, b1);
    }
  }

  /** A round of `echo_server` that goes through keeps `Echoing`. */
  lemma EchoGoesOn(e: Endpoint, host: Endianness, clock: nat -> i64, cur: Endpoint, stamps: seq<i64>,
                   e1: Endpoint, b1: seq<byte>, e2: Endpoint)
    requires Echoing(e, host, clock, cur, stamps)
    requires Received(cur, Zeros(PAYLOAD_SIZE), PAYLOAD_SIZE, Ok, e1, b1)
    requires ReplySent(e1, clock(|stamps|), host, Ok, e2)
    ensures Echoing(e, host, clock, e2, stamps + [clock(|stamps|)]) && |e2.readResults| < |cur.readResults|
  {
    RoundMoved(cur, e1, b1, e2);
    MovedTrans(e, cur, e2);
    RepliesOn(e, host, cur, stamps, e1, b1, clock(|stamps|), e2);
    FedRound(e, |stamps|, cur, e1, b1, clock(|stamps|), host, e2);
    assert StampsFrom(stamps + [clock(|stamps|)], clock);
  }

  /** A round that went through moved bytes on both its calls. */
  lemma RoundMoved(cur: Endpoint, e1: Endpoint, b1: seq<byte>, e2: Endpoint)
    requires Received(cur, Zeros(PAYLOAD_SIZE), PAYLOAD_SIZE, Ok, e1, b1) && SendEnded(e1, Ok, e2)
    ensures MovedAll(cur, e2)
  {
    ReceiveMoves(cur, Zeros(PAYLOAD_SIZE), PAYLOAD_SIZE, Ok, e1, b1);
    SendMoves(e1, Ok, e2);
    MovedTrans(cur, e1, e2);
  }

  /** With whole writes, a round that went through puts its reply on the
      wire after the earlier ones. */
  lemma RepliesOn(e: Endpoint, host: Endianness, cur: Endpoint, stamps: seq<i64>, e1: Endpoint, b1: seq<byte>, ts: i64, e2: Endpoint)
    requires RepliesOut(e, host, cur, stamps)
    requires Received(cur, Zeros(PAYLOAD_SIZE), PAYLOAD_SIZE, Ok, e1, b1)
    requires ReplySent(e1, ts, host, Ok, e2)
    ensures RepliesOut(e, host, e2, stamps + [ts])
  {
    RepliesAppend(stamps, ts, host);
  }

  /** A client that was to send `n` pings has one fewer left after a round
      that went through. */
  lemma FedRound(e: Endpoint, k: nat, cur: Endpoint, e1: Endpoint, b1: seq<byte>, ts: i64, host: Endianness, e2: Endpoint)
    requires FedFor(e, cur, k)
    requires Received(cur, Zeros(PAYLOAD_SIZE), PAYLOAD_SIZE, Ok, e1, b1)
    requires ReplySent(e1, ts, host, Ok, e2)
    ensures FedFor(e, e2, k + 1)
  {
    forall n: nat | ServerFed(e, n)
      ensures k + 1 <= n && ServerFed(e2, n - (k + 1))
    {
      var m := n - k;
      FedPing(cur, m, Ok, e1, b1);
      ServerFedShift(cur, m, e2);
    }
  }

  /** One round of `echo_server`: it ends the server or leaves it ready for
      the next round. */
  method EchoRound(e: Endpoint, host: Endianness, clock: nat -> i64, cur: Endpoint, stamps: seq<i64>)
    returns (done: Option<ServerEnd>, cur': Endpoint, stamps': seq<i64>)
    requires Echoing(e, host, clock, cur, stamps)
    ensures done.Some? ==> Echoed(e, host, clock, done.value, cur', stamps')
    ensures done.None? ==> Echoing(e, host, clock, cur', stamps') && |cur'.readResults| < |cur.readResults|
  {
    var got, e1, b1, _ := Receive(cur, Zeros(PAYLOAD_SIZE), PAYLOAD_SIZE);
    if !got.Ok? {
      EchoEndsOnRead(e, host, clock, cur, stamps, got, e1, b1);
      return Some(EndOf(got)), e1, stamps;
    }
    var ts := clock(|stamps|);
    var put, e2, _ := SendReply(e1, ts, host);
    stamps' := stamps + [ts];
    if !put.Ok? {
      EchoEndsOnWrite(e, host, clock, cur, stamps, e1, b1, put, e2);
      return Some(EndOf(put)), e2, stamps';
    }
    EchoGoesOn(e, host, clock, cur, stamps, e1, b1, e2);
    return None, e2, stamps';
  }

  /** `echo_server`: receive eight bytes, overwrite them with a fresh stamp
      (the `clock` reading of that round), send the first eight bytes of the
      buffer until sixteen bytes are out; a disconnect from either call ends
      the loop, any other error aborts. */
  method EchoServer(e: Endpoint, host: Endianness, clock: nat -> i64) returns (end: ServerEnd, e': Endpoint, stamps: seq<i64>)
    ensures Echoed(e, host, clock, end, e', stamps)
  {
    e' := e;
    stamps := [];
    while true
      invariant Echoing(e, host, clock, e', stamps)
      decreases |e'.readResults|
    {
      var done, e2, stamps2 := EchoRound(e, host, clock, e', stamps);
      if done.Some? {
        return done.value, e2, stamps2;
      }
      e', stamps := e2, stamps2;
    }
  }

  /** A window inside the first part of a concatenation... */
  lemma WindowLeft(a: seq<byte>, b: seq<byte>, lo: nat, width: nat)
    requires lo + width <= |a|
    ensures (a + b)[lo..lo + width] == a[lo..lo + width]
  {
  }

  /** ...and the second part as a window of it. */
  lemma WindowRight(a: seq<byte>, b: seq<byte>)
    ensures (a + b)[|a|..|a| + |b|] == b
  {
  }

  /** Back-to-back sixteen-byte frames: frame `i` occupies bytes
      `16 * i .. 16 * i + 16` of their concatenation. */
  lemma {:induction false} FramesAt(frames: seq<seq<byte>>)
    requires forall j :: 0 <= j < |frames| ==> |frames[j]| == FRAME_SIZE
    ensures |Concat(frames)| == FRAME_SIZE * |frames|
    ensures forall i :: 0 <= i < |frames| ==> Concat(frames)[FRAME_SIZE * i..FRAME_SIZE * i + FRAME_SIZE] == frames[i]
  {
    if |frames| > 0 {
      var front := frames[..|frames| - 1];
      var last := frames[|frames| - 1];
      FramesAt(front);
      var whole := Concat(frames);
      assert whole == Concat(front) + last;
      forall i | 0 <= i < |frames|
        ensures whole[FRAME_SIZE * i..FRAME_SIZE * i + FRAME_SIZE] == frames[i]
      {
        if i < |frames| - 1 {
          assert front[i] == frames[i];
          WindowLeft(Concat(front), last, FRAME_SIZE * i, FRAME_SIZE);
        } else {
          WindowRight(Concat(front), last);
        }
      }
    }
  }

  /** Two splittings of one stream agree on every window that lies inside
      both first parts. */
  lemma SameWindow(a: seq<byte>, later: seq<byte>, b: seq<byte>, later': seq<byte>, lo: nat, width: nat)
    requires a + later == b + later'
    requires lo + width <= |a| && lo + width <= |b|
    ensures a[lo..lo + width] == b[lo..lo + width]
  {
    WindowLeft(a, later, lo, width);
    WindowLeft(b, later', lo, width);
  }

  /** Sixteen-byte frames read off a stream that begins with the server's
      replies are those replies, frame for frame. */
  lemma ReadsMatchReplies(frames: seq<seq<byte>>, stamps: seq<i64>, host: Endianness, later: seq<byte>, later': seq<byte>)
    requires forall j :: 0 <= j < |frames| ==> |frames[j]| == FRAME_SIZE
    requires |frames| <= |stamps|
    requires Concat(frames) + later == Concat(Replies(stamps, host)) + later'
    ensures forall i :: 0 <= i < |frames| ==> frames[i] == Reply(stamps[i], host)
  {
    var replies := Replies(stamps, host);
    forall i | 0 <= i < |frames|
      ensures frames[i] == Reply(stamps[i], host)
    {
      FrameAt(frames, i);
      FrameAt(replies, i);
      SameWindow(Concat(frames), later, Concat(replies), later', FRAME_SIZE * i, FRAME_SIZE);
    }
  }

  /** Frame `i` of back-to-back sixteen-byte frames, as a window. */
  lemma FrameAt(frames: seq<seq<byte>>, i: nat)
    requires forall j :: 0 <= j < |frames| ==> |frames[j]| == FRAME_SIZE
    requires i < |frames|
    ensures |Concat(frames)| == FRAME_SIZE * |frames|
    ensures Concat(frames)[FRAME_SIZE * i..FRAME_SIZE * i + FRAME_SIZE] == frames[i]
  {
    FramesAt(frames);
  }

  /** What the client sends for one round when every write goes through
      whole: the eight-byte image of its send stamp. */
  function Pings(stamps: seq<i64>, host: Endianness): seq<seq<byte>>
  {
    seq(|stamps|, i requires 0 <= i < |stamps| => StampImage(stamps[i], host))
  }

  lemma PingsAppend(stamps: seq<i64>, ts: i64, host: Endianness)
    ensures Concat(Pings(stamps + [ts], host)) == Concat(Pings(stamps, host)) + StampImage(ts, host)
  {
    assert Pings(stamps + [ts], host) == Pings(stamps, host) + [StampImage(ts, host)];
    ConcatAppend(Pings(stamps, host), StampImage(ts, host));
  }

  /** How the client's ping went out: as `SendEnded` says, and when every
      write takes a whole payload the ping cannot fail, goes out as the
      stamp's eight bytes, and, with a write result there, goes out through
      exactly that one write. */
  predicate PingSent(e: Endpoint, ts: i64, host: Endianness, put: Outcome, e': Endpoint)
  {
    && SendEnded(e, put, e')
    && (FullWrites(e.writeResults) ==> FullWrites(e'.writeResults) && !put.Failed?)
    && (FullWrites(e.writeResults) && put.Ok? ==> e'.sent == e.sent + StampImage(ts, host))
    && (FullWrites(e.writeResults) && put.Pending? ==> e'.sent == e.sent)
    && (FullWrites(e.writeResults) && |e.writeResults| > 0 ==> put.Ok? && e'.writeResults == e.writeResults[1..])
  }

  /** The client's `send(sock, buf, 8)` after `serialize(buf, ts)`. */
  method SendPing(e: Endpoint, buf: seq<byte>, ts: i64, host: Endianness) returns (put: Outcome, e': Endpoint)
    requires |buf| == FRAME_SIZE && buf == Serialize(buf, ts, 0, host)
    ensures PingSent(e, ts, host, put, e')
  {
    var counts;
    put, e', counts := Send(e, buf, PAYLOAD_SIZE);
    if FullWrites(e.writeResults) {
      var block := buf[..PAYLOAD_SIZE];
      WholeWrites(e, e', block, counts, put);
      OneWrite(e, e', block, counts, put);
      PingImage(e, e', buf, ts, host, counts, put);
    }
  }

  /** Whole writes that reach eight bytes are exactly one, and they stop
      short of eight bytes only when no write result is left. */
  lemma OneWrite(e: Endpoint, e': Endpoint, block: seq<byte>, counts: seq<int>, put: Outcome)
    requires !put.Failed? && Wrote(e, e', block, counts)
    requires forall i :: 0 <= i < |counts| ==> counts[i] == PAYLOAD_SIZE
    requires put.Ok? ==> |counts| > 0 && (|counts| == 1 || Sum(counts[..|counts| - 1]) < PAYLOAD_SIZE)
    requires !put.Ok? ==> |counts| == 0 || Sum(counts) < PAYLOAD_SIZE
    requires put.Pending? ==> e'.writeResults == []
    ensures put.Ok? ==> counts == [PAYLOAD_SIZE]
    ensures !put.Ok? ==> counts == []
    ensures |e.writeResults| > 0 ==> put.Ok? && e'.writeResults == e.writeResults[1..]
  {
    if put.Ok? {
      if |counts| > 1 {
        SumBounds(counts[..|counts| - 1], PAYLOAD_SIZE, PAYLOAD_SIZE);
      }
      assert |counts| == 1;
      assert counts == [counts[0]];
    } else {
      SumBounds(counts, PAYLOAD_SIZE, PAYLOAD_SIZE);
      assert |counts| == 0;
    }
    assert |e'.writeResults| + |counts| == |e.writeResults|;
  }

  /** With whole writes, the client's `send` puts the stamp on the wire
      once it succeeds, and nothing before. */
  lemma PingImage(e: Endpoint, e': Endpoint, buf: seq<byte>, ts: i64, host: Endianness, counts: seq<int>, put: Outcome)
    requires |buf| == FRAME_SIZE && buf == Serialize(buf, ts, 0, host)
    requires Wrote(e, e', buf[..PAYLOAD_SIZE], counts)
    requires put.Ok? ==> counts == [PAYLOAD_SIZE]
    requires !put.Ok? ==> counts == []
    ensures put.Ok? ==> e'.sent == e.sent + StampImage(ts, host)
    ensures !put.Ok? ==> e'.sent == e.sent
  {
    var block := buf[..PAYLOAD_SIZE];
    if put.Ok? {
      assert block == StampImage(ts, host) by {
        assert Serialize(buf, ts, 0, host)[..PAYLOAD_SIZE] == StampImage(ts, host);
      }
      PrefixCopiesOnce(block);
    } else {
      assert e.sent + [] == e.sent;
    }
  }

  lemma PrefixCopiesOnce(block: seq<byte>)
    requires |block| == PAYLOAD_SIZE
    ensures PrefixCopies(block, [PAYLOAD_SIZE]) == block
  {
    var once: seq<int> := [PAYLOAD_SIZE];
    assert once[..0] == [];
    assert block[..PAYLOAD_SIZE] == block;
  }

  /** The client's `receive(sock, buf, 16)`: as `Received` says, and on
      success the buffer holds the next sixteen bytes of the stream. */
  method AwaitReply(e: Endpoint, buf: seq<byte>) returns (got: Outcome, e': Endpoint, buf': seq<byte>, counts: seq<int>)
    requires |buf| == FRAME_SIZE
    ensures Received(e, buf, FRAME_SIZE, got, e', buf') && ReadsTook(e, FRAME_SIZE, got, e', counts)
    ensures |buf'| == FRAME_SIZE
    ensures got.Ok? ==> e.pending == buf' + e'.pending
  {
    got, e', buf', counts := Receive(e, buf, FRAME_SIZE);
    if got.Ok? {
      assert buf'[..FRAME_SIZE] == buf';
    }
  }

  /** How the client's `main` loop ends: after its rounds, at an `exit` on
      an error code, or still waiting when the scripted results run out. */
  datatype ClientEnd = Finished | Aborted(exit: Exit) | Stuck

  /** The end the client loop comes to when a call returns `o`: any error
      code exits the process with that code. */
  function ClientEndOf(o: Outcome): ClientEnd
    requires !o.Ok?
  {
    if o.Pending? then Stuck else Aborted(ExitOn(o.code))
  }

  /** The number of rounds the client loop runs when nothing stops it: the
      count is tested after a round, so a zero `max` still runs one. */
  function PingRounds(max: nat): nat
  {
    if max == 0 then 1 else max
  }

  /** The next `n` rounds of the client go through whole: every write takes
      a whole payload and there are write results for the `n` pings, the
      next `n` reads each hand over a whole sixteen-byte reply, and the
      stream holds that many bytes. */
  predicate ClientFed(e: Endpoint, n: nat)
  {
    && FullWrites(e.writeResults) && |e.writeResults| >= n
    && |e.readResults| >= n && (forall i :: 0 <= i < n ==> WholeRead(e.readResults[i], FRAME_SIZE))
    && |e.pending| >= FRAME_SIZE * n
  }

  /** Fed for `m` rounds, the client is fed for the first, and after one
      round that took one write, one read and sixteen bytes, for `m - 1`. */
  lemma ClientFedStep(ce: Endpoint, m: nat, ce': Endpoint)
    ensures ClientFed(ce, m) && m >= 1 ==> ClientFed(ce, 1)
    ensures && ClientFed(ce, m) && m >= 1
            && ce'.readResults == ce.readResults[1..] && ce'.writeResults == ce.writeResults[1..]
            && |ce.pending| == |ce'.pending| + FRAME_SIZE
            ==> ClientFed(ce', m - 1)
  {
    if ClientFed(ce, m) && m >= 1 && ce'.readResults == ce.readResults[1..] && ce'.writeResults == ce.writeResults[1..] {
      forall i | 0 <= i < m - 1
        ensures WholeRead(ce'.readResults[i], FRAME_SIZE)
      {
        assert ce'.readResults[i] == ce.readResults[i + 1];
      }
    }
  }

  /** The client's three series after its rounds: round `r` sent at
      `clock(2 * r)` and got its reply at `clock(2 * r + 1)`; the remote stamp
      of a round is the first stamp of its sixteen-byte reply; `t1` runs one
      entry ahead while a ping is outstanding. */
  predicate Recorded(t1: seq<i64>, t2: seq<i64>, t3: seq<i64>, replies: seq<seq<byte>>, clock: nat -> i64, host: Endianness)
  {
    && |t2| == |t3| == |replies| && |t3| <= |t1| <= |t3| + 1
    && (forall i :: 0 <= i < |t1| ==> t1[i] == clock(2 * i))
    && (forall i :: 0 <= i < |t3| ==> t3[i] == clock(2 * i + 1))
    && (forall i :: 0 <= i < |replies| ==> |replies[i]| == FRAME_SIZE && t2[i] == StampOf(replies[i][..TIMESTAMP_SIZE], host))
  }

  lemma RecordPing(t1: seq<i64>, t2: seq<i64>, t3: seq<i64>, replies: seq<seq<byte>>, clock: nat -> i64, host: Endianness)
    requires Recorded(t1, t2, t3, replies, clock, host) && |t1| == |t3|
    ensures Recorded(t1 + [clock(2 * |t3|)], t2, t3, replies, clock, host)
  {
  }

  lemma RecordReply(t1: seq<i64>, t2: seq<i64>, t3: seq<i64>, replies: seq<seq<byte>>, clock: nat -> i64, host: Endianness, frame: seq<byte>)
    requires Recorded(t1, t2, t3, replies, clock, host) && |t1| == |t3| + 1
    requires |frame| == FRAME_SIZE
    ensures Recorded(t1, t2 + [StampOf(frame[..TIMESTAMP_SIZE], host)], t3 + [clock(2 * |t3| + 1)], replies + [frame], clock, host)
  {
  }

  /** The client's state between rounds: its socket, its buffer and the
      three series with the replies they were read from. */
  datatype Client = Client(e: Endpoint, buf: seq<byte>, t1: seq<i64>, t2: seq<i64>, t3: seq<i64>, replies: seq<seq<byte>>)

  /** What holds of the client between rounds, relative to the endpoint
      `e0` it started from. */
  predicate Between(c: Client, e0: Endpoint, clock: nat -> i64, host: Endianness)
  {
    && |c.buf| == FRAME_SIZE
    && Recorded(c.t1, c.t2, c.t3, c.replies, clock, host) && |c.t1| == |c.t3|
    && ReadOff(e0, c)
    && PingsOut(e0, host, c)
    && MovedAll(e0, c.e)
  }

  /** The replies the client holds came off the front of the stream. */
  predicate ReadOff(e0: Endpoint, c: Client)
  {
    e0.pending == Concat(c.replies) + c.e.pending
  }

  /** With whole writes, the client's pings follow each other on the wire. */
  predicate PingsOut(e0: Endpoint, host: Endianness, c: Client)
  {
    FullWrites(e0.writeResults) ==> FullWrites(c.e.writeResults) && c.e.sent == e0.sent + Concat(Pings(c.t1, host))
  }

  /** A round either completes (`Continue`) or ends the loop with the given end. */
  datatype Interrupt = Continue | Quit(end: ClientEnd)

  /** A round whose ping and reply both went through keeps `Between`. */
  lemma RoundKeepsBetween(c: Client, e0: Endpoint, clock: nat -> i64, host: Endianness, e1: Endpoint, frame: seq<byte>)
    requires Between(c, e0, clock, host)
    requires |frame| == FRAME_SIZE && c.e.pending == frame + e1.pending
    requires FullWrites(e0.writeResults) ==> FullWrites(e1.writeResults) && e1.sent == c.e.sent + StampImage(clock(2 * |c.t3|), host)
    requires MovedAll(e0, e1)
    ensures Between(Client(e1, frame, c.t1 + [clock(2 * |c.t3|)], c.t2 + [StampOf(frame[..TIMESTAMP_SIZE], host)],
                           c.t3 + [clock(2 * |c.t3| + 1)], c.replies + [frame]), e0, clock, host)
  {
    var c' := Client(e1, frame, c.t1 + [clock(2 * |c.t3|)], c.t2 + [StampOf(frame[..TIMESTAMP_SIZE], host)],
                     c.t3 + [clock(2 * |c.t3| + 1)], c.replies + [frame]);
    RecordPing(c.t1, c.t2, c.t3, c.replies, clock, host);
    RecordReply(c'.t1, c.t2, c.t3, c.replies, clock, host, frame);
    ReadOffOn(e0, c, frame, c');
    PingsOutOn(e0, host, c, clock(2 * |c.t3|), c');
  }

  /** A reply read off the stream extends what `ReadOff` says. */
  lemma ReadOffOn(e0: Endpoint, c: Client, frame: seq<byte>, c': Client)
    requires ReadOff(e0, c) && c'.replies == c.replies + [frame] && c.e.pending == frame + c'.e.pending
    ensures ReadOff(e0, c')
  {
    ConcatAppend(c.replies, frame);
    assert Concat(c.replies) + (frame + c'.e.pending) == (Concat(c.replies) + frame) + c'.e.pending;
  }

  /** A ping that went out whole extends what `PingsOut` says. */
  lemma PingsOutOn(e0: Endpoint, host: Endianness, c: Client, ts: i64, c': Client)
    requires PingsOut(e0, host, c) && c'.t1 == c.t1 + [ts]
    requires FullWrites(e0.writeResults) ==> FullWrites(c'.e.writeResults) && c'.e.sent == c.e.sent + StampImage(ts, host)
    ensures PingsOut(e0, host, c')
  {
    PingsAppend(c.t1, ts, host);
  }

  /** A round that stops after its ping went out keeps the series recorded. */
  lemma PingKeepsRecorded(c: Client, e0: Endpoint, clock: nat -> i64, host: Endianness, e1: Endpoint)
    requires Between(c, e0, clock, host)
    requires FullWrites(e0.writeResults) ==> e1.sent == c.e.sent + StampImage(clock(2 * |c.t3|), host)
    ensures Recorded(c.t1 + [clock(2 * |c.t3|)], c.t2, c.t3, c.replies, clock, host)
    ensures FullWrites(e0.writeResults) ==> e1.sent == e0.sent + Concat(Pings(c.t1 + [clock(2 * |c.t3|)], host))
  {
    PingsAppend(c.t1, clock(2 * |c.t3|), host);
    RecordPing(c.t1, c.t2, c.t3, c.replies, clock, host);
  }

  /** What one iteration of the client loop, up to the `max` test, comes to.
      A round that goes through keeps `Between`, one round further, having
      read one reply off the stream. A round that stops records no reply; it
      exits with the code of a call that moved nothing, every earlier call
      having moved bytes, or it is stuck because a script ran out. A round
      that is fed goes through, on one write and one read. */
  predicate Rounded(c: Client, e0: Endpoint, clock: nat -> i64, host: Endianness, stop: Interrupt, c': Client)
  {
    && (stop.Continue? ==>
          && Between(c', e0, clock, host) && |c'.t3| == |c.t3| + 1
          && c.e.pending == c'.buf + c'.e.pending)
    && (stop.Quit? ==>
          && !stop.end.Finished? && Recorded(c'.t1, c'.t2, c'.t3, c'.replies, clock, host)
          && c'.replies == c.replies)
    && (stop.Quit? && stop.end.Aborted? ==> stop.end.exit.ExitOn? && StoppedBy(e0, c'.e, stop.end.exit.code))
    && (stop.Quit? && stop.end.Stuck? ==>
          && (c'.e.readResults == [] || c'.e.writeResults == []) && MovedAll(e0, c'.e)
          && (FullWrites(e0.writeResults) ==> c'.e.sent == e0.sent + Concat(Pings(c'.t1, host))))
    && (ClientFed(c.e, 1) ==>
          stop.Continue? && c'.e.readResults == c.e.readResults[1..] && c'.e.writeResults == c.e.writeResults[1..])
  }

  /** A round whose ping does not go out. */
  lemma PingStops(c: Client, e0: Endpoint, clock: nat -> i64, host: Endianness, put: Outcome, e1: Endpoint)
    requires Between(c, e0, clock, host)
    requires PingSent(c.e, clock(2 * |c.t3|), host, put, e1) && !put.Ok?
    ensures Rounded(c, e0, clock, host, Quit(ClientEndOf(put)), c.(e := e1))
  {
    if put.Failed? {
      SendStops(c.e, put, e1);
      WriteStopLifts(e0, c.e, e1, put.code);
    } else {
      SendMoves(c.e, put, e1);
      MovedTrans(e0, c.e, e1);
    }
  }

  /** A round whose ping went out but whose reply does not come in. */
  lemma ReplyStops(c: Client, e0: Endpoint, clock: nat -> i64, host: Endianness, e1: Endpoint,
                   buf: seq<byte>, got: Outcome, e2: Endpoint, buf2: seq<byte>)
    requires Between(c, e0, clock, host)
    requires PingSent(c.e, clock(2 * |c.t3|), host, Ok, e1)
    requires Received(e1, buf, FRAME_SIZE, got, e2, buf2) && !got.Ok?
    ensures Rounded(c, e0, clock, host, Quit(ClientEndOf(got)), c.(e := e2, t1 := c.t1 + [clock(2 * |c.t3|)]))
  {
    SendMoves(c.e, Ok, e1);
    MovedTrans(e0, c.e, e1);
    if got.Failed? {
      ReceiveStops(e1, buf, FRAME_SIZE, got, e2, buf2);
      ReadStopLifts(e0, e1, e2, got.code);
    } else {
      ReceiveMoves(e1, buf, FRAME_SIZE, got, e2, buf2);
      MovedTrans(e0, e1, e2);
    }
    PingKeepsRecorded(c, e0, clock, host, e2);
  }

  /** A round whose ping and reply both went through. */
  lemma RoundGoesOn(c: Client, e0: Endpoint, clock: nat -> i64, host: Endianness, e1: Endpoint,
                    buf: seq<byte>, e2: Endpoint, buf2: seq<byte>)
    requires Between(c, e0, clock, host)
    requires PingSent(c.e, clock(2 * |c.t3|), host, Ok, e1)
    requires Received(e1, buf, FRAME_SIZE, Ok, e2, buf2) && |buf2| == FRAME_SIZE && e1.pending == buf2 + e2.pending
    ensures Rounded(c, e0, clock, host, Continue,
                    Client(e2, buf2, c.t1 + [clock(2 * |c.t3|)], c.t2 + [StampOf(buf2[..TIMESTAMP_SIZE], host)],
                           c.t3 + [clock(2 * |c.t3| + 1)], c.replies + [buf2]))
  {
    SendMoves(c.e, Ok, e1);
    ReceiveMoves(e1, buf, FRAME_SIZE, Ok, e2, buf2);
    MovedTrans(c.e, e1, e2);
    MovedTrans(e0, c.e, e2);
    RoundKeepsBetween(c, e0, clock, host, e2, buf2);
  }

  /** One iteration of the client loop up to the `max` test. */
  method ClientRound(c: Client, e0: Endpoint, clock: nat -> i64, host: Endianness) returns (stop: Interrupt, c': Client)
    requires Between(c, e0, clock, host)
    ensures Rounded(c, e0, clock, host, stop, c')
  {
    var ts := clock(2 * |c.t3|);
    var buf := Serialize(c.buf, ts, 0, host);
    var put, e1 := SendPing(c.e, buf, ts, host);
    if !put.Ok? {
      PingStops(c, e0, clock, host, put, e1);
      return Quit(ClientEndOf(put)), c.(e := e1);
    }
    var got, e2, buf2, _ := AwaitReply(e1, buf);
    if !got.Ok? {
      ReplyStops(c, e0, clock, host, e1, buf, got, e2, buf2);
      return Quit(ClientEndOf(got)), c.(e := e2, t1 := c.t1 + [ts]);
    }
    var d := Deserialize(buf2, host);
    RoundGoesOn(c, e0, clock, host, e1, buf, e2, buf2);
    c' := Client(e2, buf2, c.t1 + [ts], c.t2 + [d.t1], c.t3 + [clock(2 * |c.t3| + 1)], c.replies + [buf2]);
    stop := Continue;
  }

  /** Where the client loop stands before a round: `Between`, short of
      `max` rounds unless none ran yet, and, when fed for all its rounds,
      fed for the rest, with the reads of the rounds so far used. */
  predicate Looping(e: Endpoint, host: Endianness, clock: nat -> i64, max: nat, c: Client)
  {
    && Between(c, e, clock, host)
    && (|c.t3| == 0 || |c.t3| < max)
    && (ClientFed(e, PingRounds(max)) ==>
          |c.t3| < PingRounds(max) && ClientFed(c.e, PingRounds(max) - |c.t3|) && c.e.readResults == e.readResults[|c.t3|..])
  }

  /** How the client loop of `main` ends, from the endpoint `e` and for the
      bound `max`. The series are recorded as `Recorded` says and the replies
      came off the front of the stream. An exit carries the code of a call
      that moved nothing, every earlier call having moved bytes; the loop is
      stuck only when a script ran out; it finishes after `PingRounds(max)`
      rounds with a latency report in range. With whole writes the wire
      holds one ping per `t1` entry. A server that answers every ping over
      whole calls lets it finish on exactly that many reads. */
  predicate Pinged(e: Endpoint, host: Endianness, clock: nat -> i64, max: nat, end: ClientEnd, c: Client)
  {
    && Recorded(c.t1, c.t2, c.t3, c.replies, clock, host)
    && Concat(c.replies) <= e.pending
    && (end.Aborted? ==> end.exit.ExitOn? && StoppedBy(e, c.e, end.exit.code))
    && (end.Stuck? ==> (c.e.readResults == [] || c.e.writeResults == []) && MovedAll(e, c.e))
    && (end.Finished? ==>
          && |c.t1| == |c.t3| == PingRounds(max)
          && e.pending == Concat(c.replies) + c.e.pending
          && Differences(c.t1, c.t2, c.t3).Report?)
    && (FullWrites(e.writeResults) && !end.Aborted? ==> c.e.sent == e.sent + Concat(Pings(c.t1, host)))
    && (ClientFed(e, PingRounds(max)) ==> end.Finished? && c.e.readResults == e.readResults[PingRounds(max)..])
  }

  /** A round that stops ends the loop. */
  lemma QuitPinged(e: Endpoint, host: Endianness, clock: nat -> i64, max: nat, c: Client, stop: Interrupt, c': Client)
    requires Looping(e, host, clock, max, c)
    requires Rounded(c, e, clock, host, stop, c') && stop.Quit?
    ensures Pinged(e, host, clock, max, stop.end, c')
  {
    var m := PingRounds(max);
    ClientFedStep(c.e, if |c.t3| <= m then m - |c.t3| else 0, c'.e);
    assert Concat(c'.replies) <= e.pending;
  }

  /** A fed round keeps the client fed for the rounds after it. */
  lemma FedOn(e: Endpoint, host: Endianness, clock: nat -> i64, max: nat, c: Client, c': Client)
    requires Looping(e, host, clock, max, c)
    requires Rounded(c, e, clock, host, Continue, c')
    ensures ClientFed(e, PingRounds(max)) ==>
      |c'.t3| <= PingRounds(max) && ClientFed(c'.e, PingRounds(max) - |c'.t3|) && c'.e.readResults == e.readResults[|c'.t3|..]
  {
    var m := PingRounds(max);
    if ClientFed(e, m) {
      ClientFedStep(c.e, m - |c.t3|, c'.e);
      assert c'.e.readResults == e.readResults[|c'.t3|..];
    }
  }

  /** A round that goes through and reaches `max` ends the loop. */
  lemma FinishPinged(e: Endpoint, host: Endianness, clock: nat -> i64, max: nat, c: Client, c': Client)
    requires Looping(e, host, clock, max, c)
    requires Rounded(c, e, clock, host, Continue, c') && |c'.t3| >= max
    ensures Pinged(e, host, clock, max, Finished, c')
  {
    FedOn(e, host, clock, max, c, c');
  }

  /** A round that goes through short of `max` leaves the loop running. */
  lemma LoopsOn(e: Endpoint, host: Endianness, clock: nat -> i64, max: nat, c: Client, c': Client)
    requires Looping(e, host, clock, max, c)
    requires Rounded(c, e, clock, host, Continue, c') && |c'.t3| < max
    ensures Looping(e, host, clock, max, c')
  {
    FedOn(e, host, clock, max, c, c');
  }

  /** One pass of the client loop: a round, then the `max` test. */
  method ClientStep(e: Endpoint, host: Endianness, clock: nat -> i64, max: nat, c: Client) returns (done: Option<ClientEnd>, c': Client)
    requires Looping(e, host, clock, max, c)
    ensures done.Some? ==> Pinged(e, host, clock, max, done.value, c')
    ensures done.None? ==> Looping(e, host, clock, max, c') && |c'.t3| == |c.t3| + 1
  {
    var stop;
    stop, c' := ClientRound(c, e, clock, host);
    if stop.Quit? {
      QuitPinged(e, host, clock, max, c, stop, c');
      return Some(stop.end), c';
    }
    if |c'.t3| >= max {
      FinishPinged(e, host, clock, max, c, c');
      return Some(Finished), c';
    }
    LoopsOn(e, host, clock, max, c, c');
    return None, c';
  }

  /** The client loop of `main`: each round stamps and sends a ping (`t1`),
      receives a sixteen-byte reply, stamps its arrival (`t3`) and keeps the
      reply's first stamp (`t2`); it stops after the round that brings the
      count to `max`, so a zero `max` still runs one round. Round `r` reads
      the clock twice, as `clock(2 * r)` and `clock(2 * r + 1)`. Any error
      code exits the process with that code. */
  method PingClient(e: Endpoint, host: Endianness, clock: nat -> i64, max: nat) returns (end: ClientEnd, c: Client)
    ensures Pinged(e, host, clock, max, end, c)
  {
    c := Client(e, Zeros(FRAME_SIZE), [], [], [], []);
    while true
      invariant Looping(e, host, clock, max, c)
      decreases max - |c.t3|
    {
      var done, c' := ClientStep(e, host, clock, max, c);
      if done.Some? {
        return done.value, c';
      }
      c := c';
    }
  }

  /** When the stream the client reads begins with the echo server's replies,
      the remote stamps the client records are the server's own, in order. */
  lemma ClientRecordsServerStamps(replies: seq<seq<byte>>, t2: seq<i64>, stamps: seq<i64>, host: Endianness,
                                  pending: seq<byte>, later: seq<byte>, left: seq<byte>)
    requires |t2| == |replies| <= |stamps|
    requires forall i :: 0 <= i < |replies| ==> |replies[i]| == FRAME_SIZE && t2[i] == StampOf(replies[i][..TIMESTAMP_SIZE], host)
    requires pending == Concat(Replies(stamps, host)) + later
    requires pending == Concat(replies) + left
    ensures t2 == stamps[..|t2|]
  {
    ReadsMatchReplies(replies, stamps, host, left, later);
    forall i | 0 <= i < |t2|
      ensures t2[i] == stamps[i]
    {
      assert replies[i][..TIMESTAMP_SIZE] == StampImage(stamps[i], host);
      StampRoundTrip(stamps[i], host);
    }
  }
}
