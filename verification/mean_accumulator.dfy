/** `accumulator.cpp`: the accumulator collects one clock reading per `init`
    and one per `done`; when the `done` readings reach the reserved capacity
    (the number of nodes) it reports the mean of the ends minus the mean of
    the begins and quits. Readings are microseconds since the epoch. */
module MeanAccumulator {
  import opened Bytes
  import opened Sums

  /** `quit` is set once the result is out; the actor handles nothing after. */
  datatype Accumulator = Accumulator(numNodes: nat, begins: seq<nat>, ends: seq<nat>, quit: bool)

  /** The state right after the actor is spawned. */
  function Start(numNodes: nat): (a: Accumulator)
    ensures a.begins == [] && a.ends == [] && !a.quit
  {
    Accumulator(numNodes, [], [], false)
  }

  /** The `mean` lambda: the sum of the readings (folded from `x[0]`) divided
      by their number. */
  function Mean(x: seq<nat>): (m: nat)
    requires |x| > 0
    ensures Min(x) <= m <= Max(x)
  {
    SumBounds(x, Min(x), Max(x));
    MeanBetween(Sum(x), |x|, Min(x), Max(x));
    Sum(x) / |x|
  }

  lemma MeanBetween(total: int, n: nat, lo: int, hi: int)
    requires n > 0 && n * lo <= total <= n * hi
    ensures lo <= total / n <= hi
  {
    var q, r := total / n, total % n;
    assert total == q * n + r;
    assert (lo - q) * n == lo * n - q * n;
    assert (q - hi) * n == q * n - hi * n;
    if q < lo {
      MulAtLeast(lo - q, n);
    }
    if q > hi {
      MulAtLeast(q - hi, n);
    }
  }

  /** The printed duration: both means are `duration<unsigned long>` after
      the division by `size()`, so their difference is taken modulo 2^64. */
  function Elapsed(begins: seq<nat>, ends: seq<nat>): (d: nat)
    requires |begins| > 0 && |ends| > 0
    ensures d < TWO_64
  {
    (Mean(ends) - Mean(begins)) % TWO_64
  }

  /** When every `done` came after every `init` and the readings fit in 64
      bits, the printed duration is the plain difference of the means. */
  lemma ElapsedIsDifference(begins: seq<nat>, ends: seq<nat>)
    requires |begins| > 0 && |ends| > 0
    requires Max(begins) <= Min(ends) && Max(ends) < TWO_64
    ensures Elapsed(begins, ends) == Mean(ends) - Mean(begins)
  {
  }

  /** What the `done` handler prints: nothing, or the duration. */
  datatype Output = Silent | Duration(micros: nat)

  /** The `init` handler appends the reading to `begins`. */
  function OnInit(a: Accumulator, now: nat): (r: Accumulator)
    requires !a.quit
    ensures r.begins == a.begins + [now] && r.ends == a.ends
    ensures r.numNodes == a.numNodes && !r.quit
  {
    a.(begins := a.begins + [now])
  }

  /** The `done` handler appends the reading to `ends`; when `ends` has
      reached the capacity reserved for `num_nodes` readings it prints the
      duration and quits. */
  function OnDone(a: Accumulator, now: nat): (r: (Accumulator, Output))
    requires !a.quit
    ensures r.0.ends == a.ends + [now] && r.0.begins == a.begins && r.0.numNodes == a.numNodes
    ensures r.0.quit <==> |a.ends| + 1 == a.numNodes
    ensures r.1.Duration? <==> r.0.quit
    ensures r.1.Duration? && |a.begins| > 0 ==> r.1.micros == Elapsed(a.begins, a.ends + [now])
  {
    var ends := a.ends + [now];
    if |ends| == a.numNodes then
      var d := if |a.begins| > 0 then Elapsed(a.begins, ends) else 0;
      (a.(ends := ends, quit := true), Duration(d))
    else (a.(ends := ends), Silent)
  }

  /** A run of the accumulator: `true` is an `init`, `false` a `done`, each
      with its clock reading; handling stops when the actor quits. */
  function Run(a: Accumulator, events: seq<(bool, nat)>): (r: (Accumulator, seq<Output>))
    decreases |events|
  {
    if |events| == 0 || a.quit then (a, [])
    else if events[0].0 then Run(OnInit(a, events[0].1), events[1..])
    else
      var (a', out) := OnDone(a, events[0].1);
      var (a'', outs) := Run(a', events[1..]);
      (a'', [out] + outs)
  }

  /** The number of `done` events in a sequence. */
  function Dones(events: seq<(bool, nat)>): nat
  {
    if |events| == 0 then 0 else (if events[0].0 then 0 else 1) + Dones(events[1..])
  }

  /** Driven from a fresh start with `num_nodes > 0`, the accumulator prints
      exactly one duration if and only if at least `num_nodes` `done`
      messages arrive, and it prints it on the `num_nodes`-th of them. */
  lemma {:induction false} RunReportsOnce(a: Accumulator, events: seq<(bool, nat)>)
    requires !a.quit && |a.ends| < a.numNodes
    ensures var (a', outs) := Run(a, events);
      && |outs| == Smaller(Dones(events), a.numNodes - |a.ends|)
      && (forall i :: 0 <= i < |outs| ==> (outs[i].Duration? <==> i == a.numNodes - |a.ends| - 1))
      && (a'.quit <==> Dones(events) >= a.numNodes - |a.ends|)
    decreases |events|
  {
    if |events| > 0 {
      if events[0].0 {
        RunReportsOnce(OnInit(a, events[0].1), events[1..]);
      } else {
        var (a', out) := OnDone(a, events[0].1);
        if !a'.quit {
          RunReportsOnce(a', events[1..]);
          var (a'', outs) := Run(a', events[1..]);
          assert Run(a, events).1 == [out] + outs;
          forall i | 0 <= i < |Run(a, events).1|
            ensures Run(a, events).1[i].Duration? <==> i == a.numNodes - |a.ends| - 1
          {
            if i > 0 {
              assert Run(a, events).1[i] == outs[i - 1];
            }
          }
        } else {
          assert Run(a', events[1..]).1 == [];
          assert Run(a, events).1 == [out];
        }
      }
    }
  }
}
