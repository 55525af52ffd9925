/** The accumulator and the tick sink of the framework-streaming benchmarks
    (`caf_streaming_tcp.cpp`, `caf_streaming_udp.cpp`, whose two copies of
    this logic agree). Every sink reports once per tick how many elements it
    received since the previous tick; the accumulator keeps one list of
    reports per sink and, once every sink has said `done`, prints the
    element-wise sum of the lists: the total throughput per interval. */
module CountAccumulator {
  import opened Sums

  /** An actor handle; only its identity matters here. */
  type Actor = nat

  /** `std::map<actor, std::vector<size_t>>` as an association list: one entry
      per actor that has reported, in the order of first report. */
  type Counts = seq<(Actor, seq<nat>)>

  predicate Distinct(c: Counts)
  {
    forall i, j :: 0 <= i < j < |c| ==> c[i].0 != c[j].0
  }

  /** Where `whom` sits in the list, or -1 when it is not there. */
  function IndexOf(c: Counts, whom: Actor): (k: int)
    ensures -1 <= k < |c|
    ensures k >= 0 ==> c[k].0 == whom
    ensures k < 0 ==> forall j :: 0 <= j < |c| ==> c[j].0 != whom
  {
    if |c| == 0 then -1
    else if c[|c| - 1].0 == whom then |c| - 1
    else IndexOf(c[..|c| - 1], whom)
  }

  /** The map's view: the reports of `whom`, empty when it never reported
      (what `operator[]` default-constructs). */
  function ListOf(c: Counts, whom: Actor): seq<nat>
  {
    var k := IndexOf(c, whom);
    if k >= 0 then c[k].1 else []
  }

  /** `m` is the length of the longest list (zero for no lists). */
  predicate IsMaxLen(c: Counts, m: nat)
  {
    && (forall j :: 0 <= j < |c| ==> |c[j].1| <= m)
    && (m == 0 || exists j :: 0 <= j < |c| && |c[j].1| == m)
  }

  /** All reports of all actors added up. */
  function Total(c: Counts): nat
  {
    if |c| == 0 then 0
    else
      SumNonNegative(c[|c| - 1].1);
      Total(c[..|c| - 1]) + Sum(c[|c| - 1].1)
  }

  datatype Accumulator = Accumulator(numNodes: nat, counts: Counts, max: nat, numDones: nat, quit: bool)

  /** The state the accumulator keeps between messages: one entry per actor
      and `max` the longest list. */
  predicate Valid(a: Accumulator)
  {
    Distinct(a.counts) && IsMaxLen(a.counts, a.max)
  }

  function Start(numNodes: nat): (a: Accumulator)
    ensures Valid(a) && a.numDones == 0 && !a.quit
    ensures forall w :: ListOf(a.counts, w) == []
  {
    Accumulator(numNodes, [], 0, 0, false)
  }

  lemma TotalUpdate(c: Counts, k: nat, x: nat)
    requires k < |c|
    ensures Total(c[k := (c[k].0, c[k].1 + [x])]) == Total(c) + x
    decreases |c|
  {
    var c' := c[k := (c[k].0, c[k].1 + [x])];
    SumAppend(c[k].1, x);
    if k < |c| - 1 {
      assert c'[..|c'| - 1] == c[..|c| - 1][k := (c[k].0, c[k].1 + [x])];
      TotalUpdate(c[..|c| - 1], k, x);
    } else {
      assert c'[..|c'| - 1] == c[..|c| - 1];
    }
  }

  /** `counts[whom].push_back(amount)` on the association list: the entry
      of `whom` grows by one report, or a new entry is added at the end. */
  function Push(c: Counts, whom: Actor, amount: nat): Counts
  {
    var k := IndexOf(c, whom);
    if k >= 0 then c[k := (whom, c[k].1 + [amount])] else c + [(whom, [amount])]
  }

  /** The length of the list of `whom` after the push. */
  function PushedLen(c: Counts, whom: Actor): nat
  {
    var k := IndexOf(c, whom);
    if k >= 0 then |c[k].1| + 1 else 1
  }

  lemma PushTotal(c: Counts, whom: Actor, amount: nat)
    ensures Total(Push(c, whom, amount)) == Total(c) + amount
  {
    var k := IndexOf(c, whom);
    if k >= 0 {
      TotalUpdate(c, k, amount);
    } else {
      var c' := Push(c, whom, amount);
      assert c'[..|c'| - 1] == c;
      assert Sum([amount]) == amount by { SumAppend([], amount); }
    }
  }

  /** On a list with one entry per actor the push keeps it so and finds
      `whom` where it put the report... */
  lemma PushFinds(c: Counts, whom: Actor, amount: nat)
    requires Distinct(c)
    ensures Distinct(Push(c, whom, amount))
    ensures IndexOf(Push(c, whom, amount), whom) == (if IndexOf(c, whom) >= 0 then IndexOf(c, whom) else |c|)
  {
    var c' := Push(c, whom, amount);
    var k := IndexOf(c, whom);
    var kw := if k >= 0 then k else |c|;
    assert c'[kw].0 == whom;
    assert forall j :: 0 <= j < |c'| ==> c'[j].0 == if j < |c| then c[j].0 else whom;
  }

  /** ...and every other actor where it was. */
  lemma PushKeeps(c: Counts, whom: Actor, amount: nat, w: Actor)
    requires Distinct(c) && w != whom
    ensures ListOf(Push(c, whom, amount), w) == ListOf(c, w)
  {
    var c' := Push(c, whom, amount);
    PushFinds(c, whom, amount);
    var j := IndexOf(c, w);
    if j >= 0 {
      assert c'[j] == c[j];
      assert IndexOf(c', w) == j;
    } else {
      assert IndexOf(c', w) < 0;
    }
  }

  lemma PushLists(c: Counts, whom: Actor, amount: nat)
    requires Distinct(c)
    ensures Distinct(Push(c, whom, amount))
    ensures ListOf(Push(c, whom, amount), whom) == ListOf(c, whom) + [amount]
    ensures forall w :: w != whom ==> ListOf(Push(c, whom, amount), w) == ListOf(c, w)
  {
    PushFinds(c, whom, amount);
    forall w | w != whom
      ensures ListOf(Push(c, whom, amount), w) == ListOf(c, w)
    {
      PushKeeps(c, whom, amount, w);
    }
  }

  /** The longest list after the push is the longer of the old longest and
      the list that grew. */
  lemma PushMax(c: Counts, whom: Actor, amount: nat, m: nat)
    requires IsMaxLen(c, m)
    ensures IsMaxLen(Push(c, whom, amount), if m < PushedLen(c, whom) then PushedLen(c, whom) else m)
  {
    var c' := Push(c, whom, amount);
    var k := IndexOf(c, whom);
    var kw := if k >= 0 then k else |c|;
    var len := PushedLen(c, whom);
    assert |c'[kw].1| == len;
    assert forall j :: 0 <= j < |c| && j != kw ==> c'[j] == c[j];
    if m >= len && m > 0 {
      var j :| 0 <= j < |c| && |c[j].1| == m;
      assert |c'[j].1| == m;
    }
  }

  /** The `(amount, whom)` handler: `amount` is appended to the list of
      `whom` (created empty if needed) and `max` follows that list's new
      length. No other actor's list changes, the longest-list invariant is
      kept, and the total of all reports grows by `amount`. */
  function OnAmount(a: Accumulator, amount: nat, whom: Actor): (r: Accumulator)
    requires !a.quit
    ensures r.numNodes == a.numNodes && r.numDones == a.numDones && !r.quit
    ensures Total(r.counts) == Total(a.counts) + amount
    ensures Valid(a) ==> Valid(r)
    ensures Valid(a) ==> ListOf(r.counts, whom) == ListOf(a.counts, whom) + [amount]
    ensures Valid(a) ==> forall w :: w != whom ==> ListOf(r.counts, w) == ListOf(a.counts, w)
  {
    var len := PushedLen(a.counts, whom);
    PushTotal(a.counts, whom, amount);
    PushValid(a, whom, amount);
    a.(counts := Push(a.counts, whom, amount), max := if a.max < len then len else a.max)
  }

  lemma PushValid(a: Accumulator, whom: Actor, amount: nat)
    ensures var len := PushedLen(a.counts, whom);
      Valid(a) ==> Valid(a.(counts := Push(a.counts, whom, amount), max := if a.max < len then len else a.max))
    ensures Valid(a) ==> ListOf(Push(a.counts, whom, amount), whom) == ListOf(a.counts, whom) + [amount]
    ensures Valid(a) ==> forall w :: w != whom ==> ListOf(Push(a.counts, whom, amount), w) == ListOf(a.counts, w)
  {
    if Valid(a) {
      PushLists(a.counts, whom, amount);
      PushMax(a.counts, whom, amount, a.max);
    }
  }

  /** What list `l` adds at interval `i`: its entry, or nothing when it is
      shorter. */
  function Cell(l: seq<nat>, i: nat): nat
  {
    if i < |l| then l[i] else 0
  }

  /** The reference sum for interval `i`: the `i`-th report of every actor
      that made one. */
  function Column(c: Counts, i: nat): nat
  {
    if |c| == 0 then 0 else Column(c[..|c| - 1], i) + Cell(c[|c| - 1].1, i)
  }

  function Columns(c: Counts, m: nat): (acc: seq<nat>)
    ensures |acc| == m && forall i :: 0 <= i < m ==> acc[i] == Column(c, i)
  {
    seq(m, i requires 0 <= i < m => Column(c, i))
  }

  lemma {:induction false} SumZeros(n: nat)
    ensures Sum(seq(n, i => 0)) == 0
  {
    if n > 0 {
      assert seq(n, i => 0)[..n - 1] == seq(n - 1, i => 0);
      SumZeros(n - 1);
    }
  }

  /** The sum of an element-wise sum of two equally long lists. */
  lemma {:induction false} SumPointwise(a: seq<nat>, b: seq<nat>, s: seq<nat>)
    requires |a| == |b| == |s|
    requires forall i :: 0 <= i < |s| ==> s[i] == a[i] + b[i]
    ensures Sum(s) == Sum(a) + Sum(b)
  {
    var n := |s|;
    if n > 0 {
      SumPointwise(a[..n - 1], b[..n - 1], s[..n - 1]);
    }
  }

  /** A list padded with zeros to `m` entries keeps its sum. */
  lemma SumCells(l: seq<nat>, m: nat)
    requires |l| <= m
    ensures Sum(seq(m, i requires 0 <= i < m => Cell(l, i))) == Sum(l)
  {
    var zeros := seq(m - |l|, i => 0);
    assert seq(m, i requires 0 <= i < m => Cell(l, i)) == l + zeros;
    SumConcat(l, zeros);
    SumZeros(m - |l|);
  }

  /** When no list is longer than `m`, the `m` interval sums together hold
      every report exactly once. */
  lemma {:induction false} ColumnsTotal(c: Counts, m: nat)
    requires forall j :: 0 <= j < |c| ==> |c[j].1| <= m
    ensures Sum(Columns(c, m)) == Total(c)
  {
    if |c| == 0 {
      assert Columns(c, m) == seq(m, i => 0);
      SumZeros(m);
    } else {
      var front, last := c[..|c| - 1], c[|c| - 1].1;
      ColumnsTotal(front, m);
      SumCells(last, m);
      SumPointwise(Columns(front, m), seq(m, i requires 0 <= i < m => Cell(last, i)), Columns(c, m));
    }
  }

  /** The aggregation loop of the `done` handler: `acc` starts as `max`
      zeros and every actor's list is added into it entry by entry. Each
      `acc.at(i)` is in range because no list is longer than `max`; the
      result holds one sum per interval and, in total, every report. */
  method Aggregate(c: Counts, max: nat) returns (acc: seq<nat>)
    requires forall j :: 0 <= j < |c| ==> |c[j].1| <= max
    ensures |acc| == max
    ensures forall i :: 0 <= i < max ==> acc[i] == Column(c, i)
    ensures Sum(acc) == Total(c)
  {
    acc := seq(max, i => 0);
    var j := 0;
    while j < |c|
      invariant 0 <= j <= |c|
      invariant |acc| == max
      invariant forall i :: 0 <= i < max ==> acc[i] == Column(c[..j], i)
    {
      var l := c[j].1;
      assert c[..j + 1][..j] == c[..j];
      var i := 0;
      while i < |l|
        invariant 0 <= i <= |l|
        invariant |acc| == max
        invariant forall k :: 0 <= k < max ==> acc[k] == Column(c[..j], k) + (if k < i then l[k] else 0)
      {
        acc := acc[i := acc[i] + l[i]];
        i := i + 1;
      }
      j := j + 1;
    }
    assert c[..|c|] == c;
    assert acc == Columns(c, max);
    ColumnsTotal(c, max);
  }

  lemma PrintedTotal(a: Accumulator)
    ensures Valid(a) ==> Sum(Columns(a.counts, a.max)) == Total(a.counts)
  {
    if Valid(a) {
      ColumnsTotal(a.counts, a.max);
    }
  }

  /** What the `done` handler prints: nothing, or the interval sums. */
  datatype Output = Silent | Printed(acc: seq<nat>)

  /** The `done` handler: the done count goes up by one, and once it has
      reached the number of nodes the interval sums are printed and the
      actor quits. With the invariant in place the printout has one sum per
      interval of the longest list and adds up to every report received. */
  function OnDone(a: Accumulator): (r: (Accumulator, Output))
    requires !a.quit
    ensures r.0.numDones == a.numDones + 1
    ensures r.0.counts == a.counts && r.0.max == a.max && r.0.numNodes == a.numNodes
    ensures r.0.quit <==> a.numDones + 1 >= a.numNodes
    ensures r.1.Printed? <==> r.0.quit
    ensures r.1.Printed? && Valid(a) ==>
      && |r.1.acc| == a.max
      && (forall i :: 0 <= i < a.max ==> r.1.acc[i] == Column(a.counts, i))
      && Sum(r.1.acc) == Total(a.counts)
  {
    var a' := a.(numDones := a.numDones + 1);
    if a'.numDones >= a.numNodes then
      PrintedTotal(a);
      (a'.(quit := true), Printed(Columns(a.counts, a.max)))
    else (a', Silent)
  }

  /** The sink's counters: elements since the last tick, and ticks so far. */
  datatype Ticker = Ticker(count: nat, tickCount: nat)

  /** The stream's processing step: one more element counted. */
  function OnElement(t: Ticker): (r: Ticker)
    ensures r.count == t.count + 1 && r.tickCount == t.tickCount
  {
    t.(count := t.count + 1)
  }

  /** `n` elements arriving one after another. */
  function Elements(t: Ticker, n: nat): (r: Ticker)
    ensures r.count == t.count + n && r.tickCount == t.tickCount
  {
    if n == 0 then t else OnElement(Elements(t, n - 1))
  }

  /** The tick handler: the count goes to the accumulator and restarts at
      zero, the tick count goes up, and `done` follows once it reaches
      `iterations`. */
  function OnTick(t: Ticker, iterations: nat): (r: (Ticker, nat, bool))
    ensures r.1 == t.count
    ensures r.0.count == 0 && r.0.tickCount == t.tickCount + 1
    ensures r.2 <==> t.tickCount + 1 >= iterations
  {
    var tickCount := t.tickCount + 1;
    (Ticker(0, tickCount), t.count, tickCount >= iterations)
  }

  /** A sink's life: `arrivals[k]` elements come in before the `k`-th tick;
      the reports it sends and whether it has sent `done` and quit. */
  function Ticks(t: Ticker, arrivals: seq<nat>, iterations: nat): (r: (seq<nat>, bool))
    decreases |arrivals|
  {
    if |arrivals| == 0 then ([], false)
    else
      var (t', report, done) := OnTick(Elements(t, arrivals[0]), iterations);
      if done then ([report], true)
      else
        var (reports, finished) := Ticks(t', arrivals[1..], iterations);
        ([report] + reports, finished)
  }

  /** Ticks still to come until `done`: at least one, since the handler
      reports before it tests. */
  function TicksLeft(t: Ticker, iterations: nat): nat
  {
    if iterations > t.tickCount + 1 then iterations - t.tickCount else 1
  }

  /** Each report is exactly the number of elements of its interval; the
      sink says `done` on the `TicksLeft`-th tick and reports nothing after. */
  lemma {:induction false} TicksReport(t: Ticker, arrivals: seq<nat>, iterations: nat)
    requires t.count == 0
    ensures var n := TicksLeft(t, iterations);
      && Ticks(t, arrivals, iterations).0 == arrivals[..Smaller(|arrivals|, n)]
      && (Ticks(t, arrivals, iterations).1 <==> |arrivals| >= n)
    decreases |arrivals|
  {
    if |arrivals| > 0 {
      var (t', report, done) := OnTick(Elements(t, arrivals[0]), iterations);
      if !done {
        TicksReport(t', arrivals[1..], iterations);
        assert TicksLeft(t', iterations) == TicksLeft(t, iterations) - 1;
        var n' := Smaller(|arrivals| - 1, TicksLeft(t', iterations));
        assert [arrivals[0]] + arrivals[1..][..n'] == arrivals[..n' + 1];
      }
    }
  }

  /** A fresh sink makes `max(iterations, 1)` reports before it quits. */
  lemma FreshSinkReports(arrivals: seq<nat>, iterations: nat)
    ensures var n := if iterations > 1 then iterations else 1;
      && Ticks(Ticker(0, 0), arrivals, iterations).0 == arrivals[..Smaller(|arrivals|, n)]
      && (Ticks(Ticker(0, 0), arrivals, iterations).1 <==> |arrivals| >= n)
  {
    TicksReport(Ticker(0, 0), arrivals, iterations);
  }
}
