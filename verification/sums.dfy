/** Sums, minima and maxima of integer sequences, shared by the byte counters,
    the chunking arithmetic and the accumulators. */
module Sums {

  function Sum(s: seq<int>): int
  {
    if |s| == 0 then 0 else Sum(s[..|s| - 1]) + s[|s| - 1]
  }

  predicate AllNonNegative(s: seq<int>)
  {
    forall i :: 0 <= i < |s| ==> s[i] >= 0
  }

  predicate AllPositive(s: seq<int>)
  {
    forall i :: 0 <= i < |s| ==> s[i] > 0
  }

  lemma SumAppend(s: seq<int>, x: int)
    ensures Sum(s + [x]) == Sum(s) + x
  {
    assert (s + [x])[..|s|] == s;
  }

  lemma {:induction false} SumConcat(s: seq<int>, t: seq<int>)
    ensures Sum(s + t) == Sum(s) + Sum(t)
    decreases |t|
  {
    if |t| == 0 {
      assert s + t == s;
    } else {
      var t' := t[..|t| - 1];
      assert s + t == (s + t') + [t[|t| - 1]];
      SumAppend(s + t', t[|t| - 1]);
      SumConcat(s, t');
      assert t == t' + [t[|t| - 1]];
      SumAppend(t', t[|t| - 1]);
    }
  }

  lemma {:induction false} SumNonNegative(s: seq<int>)
    requires AllNonNegative(s)
    ensures Sum(s) >= 0
  {
    if |s| > 0 {
      SumNonNegative(s[..|s| - 1]);
    }
  }

  /** A prefix of a non-negative sequence never sums to more than the whole. */
  lemma {:induction false} SumPrefixMonotone(s: seq<int>, k: nat)
    requires AllNonNegative(s)
    requires k <= |s|
    ensures Sum(s[..k]) <= Sum(s)
    decreases |s|
  {
    if k < |s| {
      var s' := s[..|s| - 1];
      assert s'[..k] == s[..k];
      SumPrefixMonotone(s', k);
    } else {
      assert s[..k] == s;
    }
  }

  /** Each element at least `lo` and at most `hi` bounds the sum by `|s| * lo` and `|s| * hi`. */
  lemma {:induction false} SumBounds(s: seq<int>, lo: int, hi: int)
    requires forall i :: 0 <= i < |s| ==> lo <= s[i] <= hi
    ensures |s| * lo <= Sum(s) <= |s| * hi
  {
    if |s| > 0 {
      SumBounds(s[..|s| - 1], lo, hi);
      assert |s| * lo == (|s| - 1) * lo + lo;
      assert |s| * hi == (|s| - 1) * hi + hi;
    }
  }

  /** The largest and the smallest element of a non-empty sequence. */
  function Max(s: seq<int>): (m: int)
    requires |s| > 0
    ensures forall i :: 0 <= i < |s| ==> s[i] <= m
    ensures exists i :: 0 <= i < |s| && s[i] == m
  {
    if |s| == 1 then s[0]
    else
      var m' := Max(s[..|s| - 1]);
      assert forall i :: 0 <= i < |s| - 1 ==> s[..|s| - 1][i] == s[i];
      if s[|s| - 1] > m' then s[|s| - 1] else m'
  }

  function Min(s: seq<int>): (m: int)
    requires |s| > 0
    ensures forall i :: 0 <= i < |s| ==> m <= s[i]
    ensures exists i :: 0 <= i < |s| && s[i] == m
  {
    if |s| == 1 then s[0]
    else
      var m' := Min(s[..|s| - 1]);
      assert forall i :: 0 <= i < |s| - 1 ==> s[..|s| - 1][i] == s[i];
      if s[|s| - 1] < m' then s[|s| - 1] else m'
  }

  function Smaller(a: int, b: int): int
  {
    if a < b then a else b
  }

  /** The number of `m`-sized pieces that cover `a`: one per `m` bytes, the
      last one possibly short. `CeilDivQuotient` shows it is the rounded-up
      quotient. */
  function CeilDiv(a: nat, m: nat): nat
    requires m > 0
    decreases a
  {
    if a == 0 then 0 else if a <= m then 1 else 1 + CeilDiv(a - m, m)
  }

  lemma {:induction false} MulAtLeast(k: int, m: int)
    requires k >= 1 && m > 0
    ensures k * m >= m
    decreases k
  {
    if k > 1 {
      MulAtLeast(k - 1, m);
      assert k * m == (k - 1) * m + m;
    }
  }

  /** Euclidean division has one quotient for each remainder below `m`. */
  lemma DivUnique(y: int, m: int, a: int, r: int)
    requires m > 0 && 0 <= r < m && y == a * m + r
    ensures y / m == a
  {
    var q, s := y / m, y % m;
    assert y == q * m + s;
    assert (q - a) * m == r - s by {
      assert (q - a) * m == q * m - a * m;
    }
    if q > a {
      MulAtLeast(q - a, m);
    } else if q < a {
      MulAtLeast(a - q, m);
    }
  }

  /** `ceil(a / m)` pieces of `m` cover `a`, one fewer do not. */
  lemma {:induction false} CeilDivBounds(a: nat, m: nat)
    requires m > 0
    ensures CeilDiv(a, m) * m >= a > (CeilDiv(a, m) - 1) * m
    decreases a
  {
    if a > m {
      CeilDivBounds(a - m, m);
      var k := CeilDiv(a - m, m);
      assert CeilDiv(a, m) == k + 1;
      assert (k + 1) * m == k * m + m;
      assert (k - 1) * m == k * m - m;
    }
  }

  /** The piece count is the rounded-up Euclidean quotient
      `(a + m - 1) / m`. */
  lemma CeilDivQuotient(a: nat, m: nat)
    requires m > 0
    ensures CeilDiv(a, m) == (a + m - 1) / m
  {
    var k := CeilDiv(a, m);
    CeilDivBounds(a, m);
    assert (k - 1) * m == k * m - m;
    DivUnique(a + m - 1, m, k, a + m - 1 - k * m);
  }

  lemma {:induction false} MulMonotone(j: nat, k: nat, m: nat)
    requires j <= k
    ensures j * m <= k * m
    decreases k - j
  {
    if j < k {
      MulMonotone(j, k - 1, m);
      assert k * m == (k - 1) * m + m;
    }
  }

  /** Fewer than `ceil(a / m)` pieces of `m` fall short of `a`... */
  lemma CeilDivAbove(a: nat, m: nat, k: nat)
    requires m > 0 && k * m < a
    ensures k < CeilDiv(a, m)
  {
    CeilDivBounds(a, m);
    if k >= CeilDiv(a, m) {
      MulMonotone(CeilDiv(a, m), k, m);
    }
  }

  /** The only `k` with `(k - 1) * m < a <= k * m` is the rounded-up
      quotient. */
  lemma CeilDivUnique(a: nat, m: nat, k: nat)
    requires m > 0 && k * m >= a && (k == 0 || (k - 1) * m < a)
    ensures k == CeilDiv(a, m)
  {
    var c := CeilDiv(a, m);
    CeilDivBounds(a, m);
    if k > c {
      MulMonotone(c, k - 1, m);
    } else if k < c {
      MulMonotone(k, c - 1, m);
    }
  }
}
