/** `blank_streaming_client_server.cpp`: the source keeps one payload of
    `payload_size` bytes and sends it again and again, counting the streaming
    amount down by `payload_size` in an unsigned 64-bit counter until the
    counter is zero; the sink adds up payload sizes and answers the source
    with `done` once the total reaches the amount. */
module ClientServer {
  import opened Bytes
  import opened Sums
  import opened Streaming

  /** The source's state: the payload it repeats and its countdown. */
  datatype Source = Source(p: Payload, streamingAmount: u64)

  /** `std::vector::resize`: keeps the first `n` bytes and zero-fills any new
      ones. */
  function Resize(p: Payload, n: nat): (r: Payload)
    ensures |r| == n
    ensures forall i :: 0 <= i < n && i < |p| ==> r[i] == p[i]
    ensures forall i :: |p| <= i < n ==> r[i] == 0
  {
    if n <= |p| then p[..n] else p + Zeros(n - |p|)
  }

  /** The source's `init` handler: the counter starts at the amount and the
      payload takes `payload_size` bytes, before the sink is told and the
      `send_atom` goes out. */
  function InitSource(s: Source, payloadSize: nat, streamingAmount: u64): (r: Source)
    ensures r.streamingAmount == streamingAmount
    ensures |r.p| == payloadSize
    ensures forall i :: 0 <= i < payloadSize && i < |s.p| ==> r.p[i] == s.p[i]
  {
    Source(Resize(s.p, payloadSize), streamingAmount)
  }

  /** `a -= b` on `size_t`: subtraction modulo 2^64. */
  function Sub64(a: u64, b: u64): (r: u64)
    ensures r == (a - b) % TWO_64
  {
    if a >= b then a - b else a - b + TWO_64
  }

  /** The counter after `n` passes of the send loop's body. */
  function Drain(c: u64, ps: u64, n: nat): u64
  {
    if n == 0 then c else Sub64(Drain(c, ps, n - 1), ps)
  }

  /** The `send_atom` handler as written, observed for at most `limit`
      iterations: each iteration sends `p` and subtracts `payload_size` from
      the unsigned counter; the loop runs while the counter is non-zero. */
  method SendAsWritten(s: Source, payloadSize: u64, limit: nat) returns (outbox: seq<Payload>, s': Source)
    ensures |outbox| <= limit
    ensures forall i :: 0 <= i < |outbox| ==> outbox[i] == s.p
    ensures s'.p == s.p && s'.streamingAmount == Drain(s.streamingAmount, payloadSize, |outbox|)
    ensures forall k :: 0 <= k < |outbox| ==> Drain(s.streamingAmount, payloadSize, k) > 0
    ensures |outbox| < limit ==> s'.streamingAmount == 0
  {
    outbox := [];
    s' := s;
    while s'.streamingAmount > 0 && |outbox| < limit
      invariant |outbox| <= limit
      invariant forall i :: 0 <= i < |outbox| ==> outbox[i] == s.p
      invariant s'.p == s.p && s'.streamingAmount == Drain(s.streamingAmount, payloadSize, |outbox|)
      invariant forall k :: 0 <= k < |outbox| ==> Drain(s.streamingAmount, payloadSize, k) > 0
      decreases limit - |outbox|
    {
      outbox := outbox + [s'.p];
      s' := s'.(streamingAmount := Sub64(s'.streamingAmount, payloadSize));
    }
  }

  /** While `k` payloads fit into the counter it simply goes down by them. */
  lemma {:induction false} DrainLinear(c: u64, ps: u64, k: nat)
    requires k * ps <= c
    ensures Drain(c, ps, k) == c - k * ps
  {
    if k > 0 {
      assert k * ps == (k - 1) * ps + ps;
      DrainLinear(c, ps, k - 1);
    }
  }

  lemma DrainPositive(c: u64, ps: u64, k: nat)
    requires k * ps < c
    ensures Drain(c, ps, k) > 0
  {
    DrainLinear(c, ps, k);
  }

  /** With `payload_size` dividing the amount the loop sends exactly
      `amount / payload_size` payloads and leaves the counter at zero. */
  lemma CountdownDivisible(amount: u64, ps: u64)
    requires ps > 0 && amount % ps == 0
    ensures Drain(amount, ps, amount / ps) == 0
    ensures forall k :: 0 <= k < amount / ps ==> Drain(amount, ps, k) > 0
  {
    var q := amount / ps;
    assert amount == q * ps;
    DrainLinear(amount, ps, q);
    forall k | 0 <= k < q
      ensures Drain(amount, ps, k) > 0
    {
      MulMonotone(k, q - 1, ps);
      assert q * ps == (q - 1) * ps + ps;
      DrainLinear(amount, ps, k);
    }
  }

  /** The counter stays positive through the first `q` passes when `q`
      whole payloads and a non-empty remainder make up the amount. */
  lemma PositiveThroughWholePayloads(amount: u64, ps: u64, q: nat, r: nat)
    requires amount == q * ps + r && 0 < r < ps
    ensures forall k :: 0 <= k <= q ==> Drain(amount, ps, k) > 0
  {
    forall k | 0 <= k <= q
      ensures Drain(amount, ps, k) > 0
    {
      MulMonotone(k, q, ps);
      DrainPositive(amount, ps, k);
    }
  }

  /** Without divisibility the counter passes zero without meeting it: with
      `amount == q * payload_size + r` and `0 < r < payload_size`, after
      `q + 1` sends it has wrapped around to `2^64 - (payload_size - r)`, and
      the loop goes on. */
  lemma CountdownWraps(amount: u64, ps: u64, q: nat, r: nat)
    requires amount == q * ps + r && 0 < r < ps
    ensures forall k :: 0 <= k <= q ==> Drain(amount, ps, k) > 0
    ensures Drain(amount, ps, q + 1) == TWO_64 - (ps - r)
  {
    PositiveThroughWholePayloads(amount, ps, q, r);
    DrainLinear(amount, ps, q);
  }

  /** The quotient and remainder `CountdownWraps` takes are those of `/` and
      `%`. */
  lemma CountdownWrapsAt(amount: u64, ps: u64)
    requires ps > 0 && amount % ps != 0
    ensures Drain(amount, ps, amount / ps + 1) == TWO_64 - (ps - amount % ps)
    ensures forall k :: 0 <= k <= amount / ps ==> Drain(amount, ps, k) > 0
  {
    CountdownWraps(amount, ps, amount / ps, amount % ps);
  }

  /** With a zero `payload_size` the counter never moves. */
  lemma {:induction false} CountdownStuck(amount: u64, n: nat)
    ensures Drain(amount, 0, n) == amount
  {
    if n > 0 {
      CountdownStuck(amount, n - 1);
    }
  }

  /** An amount of 3 with payloads of 2: after two sends the counter reads
      2^64 - 1 instead of having stopped. */
  lemma CountdownThreeByTwo()
    ensures Drain(3, 2, 1) == 1
    ensures Drain(3, 2, 2) == TWO_64 - 1
  {
  }

  /** The evidently intended countdown: a payload is sent while bytes are
      owed, and the counter stops at zero. */
  method SendSaturating(s: Source, payloadSize: u64) returns (outbox: seq<Payload>, s': Source)
    requires payloadSize > 0 || s.streamingAmount == 0
    ensures forall i :: 0 <= i < |outbox| ==> outbox[i] == s.p
    ensures s'.p == s.p && s'.streamingAmount == 0
    ensures payloadSize > 0 ==> |outbox| == CeilDiv(s.streamingAmount, payloadSize)
    ensures payloadSize > 0 ==> |outbox| * payloadSize >= s.streamingAmount > (|outbox| - 1) * payloadSize
  {
    if payloadSize == 0 {
      return [], s;
    }
    outbox, s' := SaturatingLoop(s, payloadSize);
    CeilDivBounds(s.streamingAmount, payloadSize);
  }

  /** The loop of `SendSaturating`: one payload per `payload_size` bytes
      owed, the last one possibly short. */
  method SaturatingLoop(s: Source, payloadSize: u64) returns (outbox: seq<Payload>, s': Source)
    requires payloadSize > 0
    ensures forall i :: 0 <= i < |outbox| ==> outbox[i] == s.p
    ensures s'.p == s.p && s'.streamingAmount == 0
    ensures |outbox| == CeilDiv(s.streamingAmount, payloadSize)
  {
    outbox := [];
    s' := s;
    while s'.streamingAmount > 0
      invariant s'.p == s.p
      invariant forall i :: 0 <= i < |outbox| ==> outbox[i] == s.p
      invariant |outbox| + CeilDiv(s'.streamingAmount, payloadSize) == CeilDiv(s.streamingAmount, payloadSize)
      decreases s'.streamingAmount
    {
      var c := s'.streamingAmount;
      outbox := outbox + [s'.p];
      s' := s'.(streamingAmount := if c > payloadSize then c - payloadSize else 0);
    }
  }

  /** The sink of this benchmark learns its source at `init` and sends its
      `done` signals back to that source. */
  datatype LinkedSink = LinkedSink(source: nat, counters: Sink)

  /** The sink's `init` handler: it links to and remembers the source and
      learns the amount; its byte count is kept. */
  function InitLinked(s: LinkedSink, source: nat, streamingAmount: nat): (r: LinkedSink)
    ensures r.source == source
    ensures r.counters.streamingAmount == streamingAmount
    ensures r.counters.receivedBytes == s.counters.receivedBytes
  {
    LinkedSink(source, InitSink(s.counters, streamingAmount))
  }

  /** The sink's payload handler: the byte count grows by the payload size
      and `done` goes to the remembered source exactly when the count has
      reached the amount. */
  function OnLinkedPayload(s: LinkedSink, size: nat): (r: (LinkedSink, bool))
    ensures r.0.source == s.source
    ensures r.0.counters.receivedBytes == s.counters.receivedBytes + size
    ensures r.1 <==> r.0.counters.receivedBytes >= s.counters.streamingAmount
  {
    var (counters, done) := OnPayload(s.counters, size);
    (s.(counters := counters), done)
  }
}
