/** The byte-count streaming benchmarks over the actor framework
    (`blank_streaming_tcp.cpp`, `blank_streaming_udp.cpp`): a source cuts the
    streaming amount into payloads of at most `message_size` zeroed bytes and
    sends them all; a sink adds up the payload sizes and reports `done` once
    the total reaches the amount. */
module Streaming {
  import opened Bytes
  import opened Sums
  import opened Socket

  type Payload = seq<byte>

  /** The reference cut of `amount` bytes into pieces of `m`: full pieces
      first, the remainder last. */
  function Chunks(amount: nat, m: nat): seq<nat>
    requires m > 0 || amount == 0
    decreases amount
  {
    if amount == 0 then []
    else
      var size: nat := Smaller(amount, m);
      [size] + Chunks(amount - size, m)
  }

  /** The pieces sum to the amount, all are in `1..m`, all but the last are
      exactly `m`, and there are `ceil(amount / m)` of them. */
  lemma {:induction false} ChunksShape(amount: nat, m: nat)
    requires m > 0
    ensures Sum(Chunks(amount, m)) == amount
    ensures |Chunks(amount, m)| == CeilDiv(amount, m)
    ensures forall i :: 0 <= i < |Chunks(amount, m)| ==> 1 <= Chunks(amount, m)[i] <= m
    ensures forall i :: 0 <= i < |Chunks(amount, m)| - 1 ==> Chunks(amount, m)[i] == m
    decreases amount
  {
    if amount > 0 {
      var size: nat := Smaller(amount, m);
      var rest := Chunks(amount - size, m);
      ChunksShape(amount - size, m);
      SumConcat([size], rest);
      assert Sum([size]) == size by {
        assert [size][..0] == [];
      }
      assert Chunks(amount, m) == [size] + rest;
    }
  }

  /** One iteration of `fill_payloads`: a payload of `min(byte_amount,
      message_size)` zeroed bytes is appended and its size is taken off. */
  function FillStep(payloads: seq<Payload>, byteAmount: nat, messageSize: nat): (r: (seq<Payload>, nat))
    requires byteAmount > 0
    ensures r.0 == payloads + [Zeros(Smaller(byteAmount, messageSize))]
    ensures r.1 + Smaller(byteAmount, messageSize) == byteAmount
  {
    var size: nat := Smaller(byteAmount, messageSize);
    (payloads + [Zeros(size)], byteAmount - size)
  }

  /** The loop of `fill_payloads` stops iff `message_size > 0` or there is
      nothing to send: with a zero message size an iteration appends an empty
      payload and leaves the remaining amount where it was. */
  lemma FillStepProgress(payloads: seq<Payload>, byteAmount: nat, messageSize: nat)
    requires byteAmount > 0
    ensures FillStep(payloads, byteAmount, messageSize).1 < byteAmount <==> messageSize > 0
    ensures messageSize == 0 ==> FillStep(payloads, byteAmount, messageSize).0 == payloads + [[]]
  {
  }

  /** Every payload is zero-filled. */
  predicate Zeroed(ps: seq<Payload>)
  {
    forall i :: 0 <= i < |ps| ==> ps[i] == Zeros(|ps[i]|)
  }

  /** Part-way through `fill_payloads`: the payloads already there are
      kept, and the zeroed payloads added so far are the reference cut of
      the amount with `rest` bytes still to go. */
  predicate Filling(payloads: seq<Payload>, ps: seq<Payload>, rest: nat, byteAmount: nat, messageSize: nat)
    requires messageSize > 0 || rest == byteAmount == 0
  {
    && |payloads| <= |ps| && ps[..|payloads|] == payloads
    && Lengths(ps[|payloads|..]) + Chunks(rest, messageSize) == Chunks(byteAmount, messageSize)
    && Zeroed(ps[|payloads|..])
  }

  /** One iteration of `fill_payloads` keeps `Filling`. */
  lemma FillStepKeeps(payloads: seq<Payload>, ps: seq<Payload>, rest: nat, byteAmount: nat, messageSize: nat)
    requires rest > 0 && messageSize > 0 && Filling(payloads, ps, rest, byteAmount, messageSize)
    ensures Filling(payloads, FillStep(ps, rest, messageSize).0, FillStep(ps, rest, messageSize).1, byteAmount, messageSize)
  {
    var size := Smaller(rest, messageSize);
    var ps' := FillStep(ps, rest, messageSize).0;
    var added := ps[|payloads|..];
    assert ps'[..|payloads|] == payloads;
    assert ps'[|payloads|..] == added + [Zeros(size)];
    assert Lengths(added + [Zeros(size)]) == Lengths(added) + [size];
    assert Chunks(rest, messageSize) == [size] + Chunks(rest - size, messageSize);
    assert (Lengths(added) + [size]) + Chunks(rest - size, messageSize)
        == Lengths(added) + ([size] + Chunks(rest - size, messageSize));
  }

  /** With nothing left to add, `Filling` is the whole cut. */
  lemma FillDone(payloads: seq<Payload>, ps: seq<Payload>, byteAmount: nat, messageSize: nat)
    requires messageSize > 0 || byteAmount == 0
    requires Filling(payloads, ps, 0, byteAmount, messageSize)
    ensures Lengths(ps[|payloads|..]) == Chunks(byteAmount, messageSize)
  {
    assert Lengths(ps[|payloads|..]) + [] == Lengths(ps[|payloads|..]);
  }

  /** `source_state::fill_payloads` of the TCP variant. */
  method FillPayloads(payloads: seq<Payload>, byteAmount: nat, messageSize: nat) returns (ps: seq<Payload>)
    requires messageSize > 0 || byteAmount == 0
    ensures |payloads| <= |ps| && ps[..|payloads|] == payloads
    ensures Lengths(ps[|payloads|..]) == Chunks(byteAmount, messageSize)
    ensures Zeroed(ps[|payloads|..])
  {
    ps := payloads;
    var rest := byteAmount;
    assert Lengths(ps[|payloads|..]) == [];
    while rest > 0
      invariant messageSize > 0 || rest == byteAmount == 0
      invariant Filling(payloads, ps, rest, byteAmount, messageSize)
      decreases rest
    {
      FillStepKeeps(payloads, ps, rest, byteAmount, messageSize);
      ps, rest := FillStep(ps, rest, messageSize).0, FillStep(ps, rest, messageSize).1;
    }
    FillDone(payloads, ps, byteAmount, messageSize);
  }

  /** `source_state::fill_payloads` of the UDP variant, which also counts the
      bytes it allocates. */
  method FillPayloadsCounted(payloads: seq<Payload>, byteAmount: nat, messageSize: nat) returns (ps: seq<Payload>, allocatedBytes: nat)
    requires messageSize > 0 || byteAmount == 0
    ensures allocatedBytes == byteAmount
    ensures |payloads| <= |ps| && ps[..|payloads|] == payloads
    ensures Lengths(ps[|payloads|..]) == Chunks(byteAmount, messageSize)
    ensures Zeroed(ps[|payloads|..])
  {
    ps := payloads;
    allocatedBytes := 0;
    var rest := byteAmount;
    assert Lengths(ps[|payloads|..]) == [];
    while rest > 0
      invariant messageSize > 0 || rest == byteAmount == 0
      invariant allocatedBytes + rest == byteAmount
      invariant Filling(payloads, ps, rest, byteAmount, messageSize)
      decreases rest
    {
      var size := Smaller(rest, messageSize);
      allocatedBytes := allocatedBytes + size;
      FillStepKeeps(payloads, ps, rest, byteAmount, messageSize);
      ps, rest := FillStep(ps, rest, messageSize).0, FillStep(ps, rest, messageSize).1;
    }
    FillDone(payloads, ps, byteAmount, messageSize);
  }

  /** What `fill_payloads` appends, stated without the reference cut: the
      sizes add up to the amount, each is between 1 and `message_size`, all
      but the last are full, and there are `ceil(amount / message_size)`. */
  lemma FilledShape(added: seq<Payload>, byteAmount: nat, messageSize: nat)
    requires messageSize > 0
    requires Lengths(added) == Chunks(byteAmount, messageSize)
    ensures Sum(Lengths(added)) == byteAmount
    ensures |added| == CeilDiv(byteAmount, messageSize)
    ensures forall i :: 0 <= i < |added| ==> 1 <= |added[i]| <= messageSize
    ensures forall i :: 0 <= i < |added| - 1 ==> |added[i]| == messageSize
    ensures byteAmount == 0 <==> |added| == 0
  {
    ChunksShape(byteAmount, messageSize);
    assert forall i :: 0 <= i < |added| ==> Lengths(added)[i] == |added[i]|;
  }

  /** The `send_atom` handler: one message per payload, in index order. */
  method SendPayloads(payloads: seq<Payload>) returns (outbox: seq<Payload>)
    ensures |outbox| == |payloads|
    ensures forall i :: 0 <= i < |payloads| ==> outbox[i] == payloads[i]
  {
    outbox := [];
    var i := 0;
    while i < |payloads|
      invariant 0 <= i <= |payloads|
      invariant outbox == payloads[..i]
    {
      outbox := outbox + [payloads[i]];
      i := i + 1;
      assert payloads[..i] == payloads[..i - 1] + [payloads[i - 1]];
    }
  }

  /** The sink's counters: the amount it waits for and the bytes so far. */
  datatype Sink = Sink(streamingAmount: nat, receivedBytes: nat)

  /** The sink's `init` handler: it learns the amount, keeps its byte count,
      announces itself to the accumulator and answers `send_atom`. */
  function InitSink(s: Sink, streamingAmount: nat): (r: Sink)
    ensures r.streamingAmount == streamingAmount
    ensures r.receivedBytes == s.receivedBytes
  {
    s.(streamingAmount := streamingAmount)
  }

  /** The sink's payload handler: the count grows by the payload size, and
      `done` goes out exactly when the new count reaches the amount. */
  function OnPayload(s: Sink, size: nat): (r: (Sink, bool))
    ensures r.0.streamingAmount == s.streamingAmount
    ensures r.0.receivedBytes == s.receivedBytes + size
    ensures r.1 <==> s.receivedBytes + size >= s.streamingAmount
  {
    var received := s.receivedBytes + size;
    (s.(receivedBytes := received), received >= s.streamingAmount)
  }

  /** The `done` signals of a sink fed the given payload sizes in order. */
  function Feed(s: Sink, sizes: seq<nat>): (dones: seq<bool>)
    ensures |dones| == |sizes|
    decreases |sizes|
  {
    if |sizes| == 0 then []
    else
      var (s', done) := OnPayload(s, sizes[0]);
      [done] + Feed(s', sizes[1..])
  }

  lemma {:induction false} FeedRemainder(amount: nat, received: nat, rest: nat, m: nat)
    requires m > 0 && rest > 0 && received + rest == amount
    ensures forall i :: 0 <= i < |Feed(Sink(amount, received), Chunks(rest, m))| ==>
      (Feed(Sink(amount, received), Chunks(rest, m))[i] <==> i == |Chunks(rest, m)| - 1)
    decreases rest
  {
    var size: nat := Smaller(rest, m);
    var chunks := Chunks(rest, m);
    assert chunks == [size] + Chunks(rest - size, m);
    assert chunks[1..] == Chunks(rest - size, m);
    var dones := Feed(Sink(amount, received), chunks);
    if rest - size > 0 {
      FeedRemainder(amount, received + size, rest - size, m);
      var tail := Feed(Sink(amount, received + size), Chunks(rest - size, m));
      assert dones == [false] + tail;
      assert |Chunks(rest - size, m)| > 0;
      forall i | 0 <= i < |dones|
        ensures dones[i] <==> i == |dones| - 1
      {
        if i > 0 {
          assert dones[i] == tail[i - 1];
        }
      }
    } else {
      assert dones == [true];
    }
  }

  /** Fed the payloads `fill_payloads` produced for a positive amount, the
      sink reports `done` exactly once, on the last payload. */
  lemma SinkDoneOnLast(amount: nat, messageSize: nat)
    requires messageSize > 0 && amount > 0
    ensures var dones := Feed(Sink(amount, 0), Chunks(amount, messageSize));
      && |dones| > 0
      && forall i :: 0 <= i < |dones| ==> (dones[i] <==> i == |dones| - 1)
  {
    FeedRemainder(amount, 0, amount, messageSize);
  }
}
