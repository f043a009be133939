/** Aggregates over the samples of a window: sum, mean, extremes and the nearest-rank percentile. */
module Percentiles {
  import opened SampleWindows

  function Values(samples: seq<Sample>): (v: seq<real>)
    ensures |v| == |samples|
  {
    if samples == [] then [] else Values(samples[..|samples| - 1]) + [samples[|samples| - 1].value]
  }

  // ----- Sums and extremes -----

  function Sum(v: seq<real>): real {
    if v == [] then 0.0 else Sum(v[..|v| - 1]) + v[|v| - 1]
  }

  function Mean(v: seq<real>): real {
    if v == [] then 0.0 else Sum(v) / (|v| as real)
  }

  function Largest(v: seq<real>): real {
    if v == [] then 0.0
    else if |v| == 1 then v[0]
    else
      var m := Largest(v[..|v| - 1]);
      if v[|v| - 1] > m then v[|v| - 1] else m
  }

  function Smallest(v: seq<real>): real {
    if v == [] then 0.0
    else if |v| == 1 then v[0]
    else
      var m := Smallest(v[..|v| - 1]);
      if v[|v| - 1] < m then v[|v| - 1] else m
  }

  lemma {:induction false} ExtremesBound(v: seq<real>)
    requires v != []
    ensures Largest(v) in v && forall i {:trigger v[i]} :: 0 <= i < |v| ==> v[i] <= Largest(v)
    ensures Smallest(v) in v && forall i {:trigger v[i]} :: 0 <= i < |v| ==> Smallest(v) <= v[i]
  {
    if |v| > 1 {
      var w := v[..|v| - 1];
      ExtremesBound(w);
      assert forall i :: 0 <= i < |w| ==> v[i] == w[i];
    }
  }

  method ComputeMean(samples: seq<Sample>) returns (mean: real)
    ensures mean == Mean(Values(samples))
  {
    if samples == [] {
      return 0.0;
    }
    var s := 0.0;
    for i := 0 to |samples|
      invariant s == Sum(Values(samples[..i]))
    {
      assert samples[..i + 1][..i] == samples[..i];
      s := s + samples[i].value;
    }
    assert samples[..|samples|] == samples;
    mean := s / (|samples| as real);
  }

  method ComputeExtremes(samples: seq<Sample>) returns (smallest: real, largest: real)
    ensures smallest == Smallest(Values(samples)) && largest == Largest(Values(samples))
  {
    smallest, largest := 0.0, 0.0;
    for i := 0 to |samples|
      invariant smallest == Smallest(Values(samples[..i])) && largest == Largest(Values(samples[..i]))
    {
      assert samples[..i + 1][..i] == samples[..i];
      var x := samples[i].value;
      if i == 0 || x < smallest {
        smallest := x;
      }
      if i == 0 || x > largest {
        largest := x;
      }
    }
    assert samples[..|samples|] == samples;
  }

  // ----- Sorting -----

  ghost predicate Sorted(s: seq<real>) {
    forall i, j {:trigger s[i], s[j]} :: 0 <= i < j < |s| ==> s[i] <= s[j]
  }

  function Insert(x: real, s: seq<real>): (t: seq<real>)
    ensures |t| == |s| + 1
  {
    if s == [] || x <= s[0] then [x] + s else [s[0]] + Insert(x, s[1..])
  }

  function Sort(v: seq<real>): (t: seq<real>)
    ensures |t| == |v|
  {
    if v == [] then [] else Insert(v[|v| - 1], Sort(v[..|v| - 1]))
  }

  /** How many values are at most `x`. */
  function AtMost(v: seq<real>, x: real): (n: nat)
    ensures n <= |v|
  {
    if v == [] then 0 else AtMost(v[1..], x) + if v[0] <= x then 1 else 0
  }

  lemma {:induction false} InsertCounts(x: real, s: seq<real>, y: real)
    ensures AtMost(Insert(x, s), y) == AtMost(s, y) + if x <= y then 1 else 0
  {
    if s != [] && x > s[0] {
      InsertCounts(x, s[1..], y);
      assert Insert(x, s)[1..] == Insert(x, s[1..]);
    } else {
      assert Insert(x, s)[1..] == s;
    }
  }

  lemma {:induction false} AtMostConcat(v: seq<real>, w: seq<real>, x: real)
    ensures AtMost(v + w, x) == AtMost(v, x) + AtMost(w, x)
    decreases |v|
  {
    if v == [] {
      assert v + w == w;
    } else {
      assert (v + w)[1..] == v[1..] + w;
      AtMostConcat(v[1..], w, x);
    }
  }

  lemma {:induction false} SortCounts(v: seq<real>, x: real)
    ensures AtMost(Sort(v), x) == AtMost(v, x)
  {
    if v != [] {
      var w, y := v[..|v| - 1], v[|v| - 1];
      assert v == w + [y];
      SortCounts(w, x);
      InsertCounts(y, Sort(w), x);
      AtMostConcat(w, [y], x);
    }
  }

  lemma {:induction false} InsertSorts(x: real, s: seq<real>)
    requires Sorted(s)
    ensures Sorted(Insert(x, s))
    ensures forall y {:trigger y in Insert(x, s)} :: y in Insert(x, s) ==> y == x || y in s
  {
    if s != [] && x > s[0] {
      assert Sorted(s[1..]);
      InsertSorts(x, s[1..]);
      var t := Insert(x, s[1..]);
      forall i | 0 <= i < |t| ensures s[0] <= t[i] {
        assert t[i] in t;
        assert forall j :: 1 <= j < |s| ==> s[0] <= s[j];
      }
    }
  }

  lemma {:induction false} SortSorts(v: seq<real>)
    ensures Sorted(Sort(v))
    ensures forall y {:trigger y in Sort(v)} :: y in Sort(v) ==> y in v
  {
    if v != [] {
      SortSorts(v[..|v| - 1]);
      InsertSorts(v[|v| - 1], Sort(v[..|v| - 1]));
    }
  }

  /** In a sorted sequence the values at most `x` are exactly the first `AtMost` ones. */
  lemma {:induction false} SortedSplits(s: seq<real>, x: real, k: nat)
    requires Sorted(s) && k < |s|
    ensures s[k] <= x <==> k < AtMost(s, x)
  {
    assert Sorted(s[1..]);
    if k > 0 {
      SortedSplits(s[1..], x, k - 1);
      assert s[0] <= s[k] == s[1..][k - 1];
    } else if s[0] > x {
      NoneAtMost(s, x);
    }
  }

  lemma {:induction false} NoneAtMost(s: seq<real>, x: real)
    requires Sorted(s) && s != [] && s[0] > x
    ensures AtMost(s, x) == 0
  {
    if |s| > 1 {
      assert Sorted(s[1..]) && s[1..][0] == s[1];
      NoneAtMost(s[1..], x);
    }
  }

  // ----- The percentile -----

  function Ceiling(x: real): int {
    -((-x).Floor)
  }

  /** The place of the nearest rank in a sorted sequence of `n` values. */
  function RankIndex(p: real, n: nat): (i: nat)
    requires n > 0
    ensures i < n
  {
    if p <= 0.0 then 0
    else
      var rank := Ceiling((if p > 1.0 then 1.0 else p) * (n as real));
      var index := (if rank < 1 then 1 else rank) - 1;
      if index >= n then n - 1 else index
  }

  function Quantile(v: seq<real>, p: real): real {
    if v == [] then 0.0 else Sort(v)[RankIndex(p, |v|)]
  }

  predicate QuantileSufficient(v: seq<real>, p: real) {
    v != [] && Ceiling(p * (|v| as real)) >= 1
  }

  method ComputeQuantile(samples: seq<Sample>, p: real) returns (q: real)
    ensures q == Quantile(Values(samples), p)
  {
    var s := [];
    for i := 0 to |samples|
      invariant s == Sort(Values(samples[..i]))
    {
      assert samples[..i + 1][..i] == samples[..i];
      var values := Values(samples[..i + 1]);
      assert values[..i] == Values(samples[..i]) && values[i] == samples[i].value;
      s := PlaceSorted(samples[i].value, s);
    }
    assert samples[..|samples|] == samples;
    if s == [] {
      return 0.0;
    }
    q := s[RankIndex(p, |s|)];
  }

  lemma {:induction false} InsertPlace(x: real, s: seq<real>, i: nat)
    requires i <= |s| && (forall k {:trigger s[k]} :: 0 <= k < i ==> s[k] < x) && (i < |s| ==> x <= s[i])
    ensures Insert(x, s) == s[..i] + [x] + s[i..]
  {
    if i > 0 {
      assert s[0] < x;
      var t := s[1..];
      assert forall k :: 0 <= k < i - 1 ==> t[k] == s[k + 1];
      InsertPlace(x, t, i - 1);
      assert [s[0]] + t[..i - 1] == s[..i] && t[i - 1..] == s[i..];
    }
  }

  method PlaceSorted(x: real, s: seq<real>) returns (t: seq<real>)
    ensures t == Insert(x, s)
  {
    var i := 0;
    while i < |s| && s[i] < x
      invariant i <= |s| && forall k :: 0 <= k < i ==> s[k] < x
    {
      i := i + 1;
    }
    InsertPlace(x, s, i);
    t := s[..i] + [x] + s[i..];
  }

  lemma CeilingMonotone(x: real, y: real)
    requires x <= y
    ensures Ceiling(x) <= Ceiling(y)
  {}

  lemma RankInRange(p: real, n: nat, rank: int)
    requires n > 0 && 0.0 < p <= 1.0 && rank == Ceiling(p * (n as real))
    ensures 1 <= rank <= n && RankIndex(p, n) == rank - 1
  {
    ProductBounds(p, n as real);
  }

  lemma ProductBounds(p: real, m: real)
    requires m > 0.0 && 0.0 < p <= 1.0
    ensures 0.0 < p * m <= m
  {
    assert (1.0 - p) * m >= 0.0;
  }

  /** The percentile is a stored value, at least the required rank of values lie at or below it, and
      no smaller value has that many. */
  lemma QuantileIsLeast(v: seq<real>, p: real, x: real)
    requires v != [] && 0.0 < p <= 1.0
    ensures Quantile(v, p) in v
    ensures AtMost(v, x) >= Ceiling(p * (|v| as real)) <==> x >= Quantile(v, p)
  {
    var rank := Ceiling(p * (|v| as real));
    var k := RankIndex(p, |v|);
    RankInRange(p, |v|, rank);
    RankedValue(v, k, x);
    assert Quantile(v, p) == Sort(v)[k];
  }

  lemma RankedValue(v: seq<real>, k: nat, x: real)
    requires k < |v|
    ensures Sort(v)[k] in v
    ensures AtMost(v, x) >= k + 1 <==> x >= Sort(v)[k]
  {
    SortSorts(v);
    SortCounts(v, x);
    SortedSplits(Sort(v), x, k);
    assert Sort(v)[k] in Sort(v);
  }

  /** The percentile exceeds a limit exactly when more than the allowed number of samples do. */
  lemma QuantileExceeds(v: seq<real>, p: real, limit: real)
    requires v != [] && 0.0 < p <= 1.0
    ensures Quantile(v, p) > limit <==> |v| - AtMost(v, limit) >= |v| - Ceiling(p * (|v| as real)) + 1
  {
    QuantileIsLeast(v, p, limit);
  }

  lemma RankMonotone(p: real, q: real, n: nat)
    requires n > 0 && p <= q
    ensures RankIndex(p, n) <= RankIndex(q, n)
  {
    RankCapped(p, n);
    RankCapped(q, n);
    if p > 0.0 {
      RankMonotoneWithin(if p > 1.0 then 1.0 else p, if q > 1.0 then 1.0 else q, n);
    }
  }

  lemma RankMonotoneWithin(a: real, b: real, n: nat)
    requires n > 0 && 0.0 < a <= b <= 1.0
    ensures RankIndex(a, n) <= RankIndex(b, n)
  {
    var m := n as real;
    var ra, rb := Ceiling(a * m), Ceiling(b * m);
    RankInRange(a, n, ra);
    RankInRange(b, n, rb);
    CeilingScaled(a, b, m);
  }

  lemma CeilingScaled(a: real, b: real, m: real)
    requires a <= b && m >= 0.0
    ensures Ceiling(a * m) <= Ceiling(b * m)
  {
    assert (b - a) * m >= 0.0;
    CeilingMonotone(a * m, b * m);
  }

  lemma RankCapped(p: real, n: nat)
    requires n > 0
    ensures RankIndex(p, n) == RankIndex(if p > 1.0 then 1.0 else p, n)
  {}

  lemma QuantileMonotone(v: seq<real>, p: real, q: real)
    requires p <= q
    ensures Quantile(v, p) <= Quantile(v, q)
  {
    if v != [] {
      SortSorts(v);
      RankMonotone(p, q, |v|);
    }
  }

  lemma {:induction false} CountsOfPermutation(v: seq<real>, w: seq<real>, x: real)
    requires multiset(v) == multiset(w)
    ensures AtMost(v, x) == AtMost(w, x)
  {
    if v == [] {
      assert |multiset(w)| == 0;
    } else {
      assert v[0] in multiset(w);
      var j :| 0 <= j < |w| && w[j] == v[0];
      var rest := w[..j] + w[j + 1..];
      PermutationWithout(v, w, j);
      CountsOfPermutation(v[1..], rest, x);
      AtMostWithout(w, j, x);
    }
  }

  lemma AtMostWithout(w: seq<real>, j: nat, x: real)
    requires j < |w|
    ensures AtMost(w, x) == AtMost(w[..j] + w[j + 1..], x) + if w[j] <= x then 1 else 0
  {
    var tail := w[j..];
    assert w == w[..j] + tail && tail[1..] == w[j + 1..];
    AtMostConcat(w[..j], tail, x);
    AtMostConcat(w[..j], w[j + 1..], x);
  }

  lemma PermutationWithout(v: seq<real>, w: seq<real>, j: nat)
    requires multiset(v) == multiset(w) && v != [] && j < |w| && w[j] == v[0]
    ensures multiset(v[1..]) == multiset(w[..j] + w[j + 1..])
  {
    assert v == [v[0]] + v[1..];
    assert w == w[..j] + ([w[j]] + w[j + 1..]);
    assert multiset(v[1..]) == multiset(v) - multiset{v[0]};
  }

  /** The percentile does not depend on the order in which the samples arrived. */
  lemma QuantileIgnoresOrder(v: seq<real>, w: seq<real>, p: real)
    requires multiset(v) == multiset(w)
    ensures Quantile(v, p) == Quantile(w, p)
  {
    assert |v| == |multiset(v)| == |multiset(w)| == |w|;
    if v != [] {
      var k := RankIndex(p, |v|);
      OrderIgnored(v, w, k);
      OrderIgnored(w, v, k);
    }
  }

  lemma OrderIgnored(v: seq<real>, w: seq<real>, k: nat)
    requires multiset(v) == multiset(w) && k < |v| == |w|
    ensures Sort(v)[k] <= Sort(w)[k]
  {
    var x := Sort(w)[k];
    SortSorts(v);
    SortSorts(w);
    SortedSplits(Sort(w), x, k);
    SortedSplits(Sort(v), x, k);
    SortCounts(v, x);
    SortCounts(w, x);
    CountsOfPermutation(v, w, x);
  }
}
