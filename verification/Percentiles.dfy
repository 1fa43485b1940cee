/** Interpolated percentiles of metric samples, over exact arithmetic. */
module Percentiles {
  import opened Common

  // ----- sorting

  ghost predicate Ascending(s: seq<real>) { forall i, j :: 0 <= i <= j < |s| ==> s[i] <= s[j] }

  function Insert(x: real, s: seq<real>): (r: seq<real>)
    ensures |r| == |s| + 1
  {
    if s == [] || x <= s[0] then [x] + s else [s[0]] + Insert(x, s[1..])
  }

  function Sorted(s: seq<real>): (r: seq<real>)
    ensures |r| == |s|
  {
    if s == [] then [] else Insert(s[0], Sorted(s[1..]))
  }

  lemma {:induction false} InsertHolds(x: real, s: seq<real>)
    ensures multiset(Insert(x, s)) == multiset(s) + multiset{x}
  {
    if s != [] && x > s[0] {
      InsertHolds(x, s[1..]);
      assert s == [s[0]] + s[1..];
    }
  }

  lemma {:induction false} InsertAscends(x: real, s: seq<real>)
    requires Ascending(s)
    ensures Ascending(Insert(x, s))
    ensures Insert(x, s)[0] == if s == [] || x <= s[0] then x else s[0]
  {
    if s != [] && x > s[0] {
      InsertAscends(x, s[1..]);
      var r := Insert(x, s[1..]);
      assert s[0] <= r[0];
      assert forall j :: 0 <= j < |r| ==> r[0] <= r[j];
    }
  }

  lemma {:induction false} SortedKeeps(s: seq<real>)
    ensures Ascending(Sorted(s)) && multiset(Sorted(s)) == multiset(s)
  {
    if s != [] {
      SortedKeeps(s[1..]);
      InsertHolds(s[0], Sorted(s[1..]));
      InsertAscends(s[0], Sorted(s[1..]));
      assert s == [s[0]] + s[1..];
    }
  }

  lemma RestSame<T>(s: seq<T>, t: seq<T>)
    requires s != [] && t != [] && s[0] == t[0] && multiset(s) == multiset(t)
    ensures multiset(s[1..]) == multiset(t[1..])
  {
    assert s == [s[0]] + s[1..] && t == [t[0]] + t[1..];
    assert multiset(s[1..]) == multiset(s) - multiset{s[0]};
    assert multiset(t[1..]) == multiset(t) - multiset{t[0]};
  }

  /** There is only one ascending arrangement. */
  lemma {:induction false} OneArrangement(s: seq<real>, t: seq<real>)
    requires Ascending(s) && Ascending(t) && multiset(s) == multiset(t)
    ensures s == t
  {
    assert |s| == |multiset(s)| == |multiset(t)| == |t|;
    if s != [] {
      LeastFirst(s, t);
      LeastFirst(t, s);
      RestSame(s, t);
      OneArrangement(s[1..], t[1..]);
    }
  }

  lemma LeastFirst(s: seq<real>, t: seq<real>)
    requires Ascending(s) && s != [] && t != [] && multiset(s) == multiset(t)
    ensures s[0] <= t[0]
  {
    assert t[0] in multiset(s);
    var i :| 0 <= i < |s| && s[i] == t[0];
  }

  // ----- percentiles

  lemma MulNonNegative(a: real, b: real)
    requires a >= 0.0 && b >= 0.0
    ensures a * b >= 0.0
  {
  }

  lemma Steeper(d: real, f: real, g: real)
    requires d >= 0.0 && f <= g
    ensures d * f <= d * g
  {
    MulNonNegative(d, g - f);
    assert d * (g - f) == d * g - d * f;
  }

  /** The point a fraction `f` of the way from `a` to `b`. */
  function Along(a: real, b: real, f: real): real { a + (b - a) * f }

  lemma AlongBounds(a: real, b: real, f: real)
    requires a <= b && 0.0 <= f <= 1.0
    ensures a <= Along(a, b, f) <= b
  {
    Steeper(b - a, 0.0, f);
    Steeper(b - a, f, 1.0);
  }

  lemma AlongGrows(a: real, b: real, f: real, g: real)
    requires a <= b && f <= g
    ensures Along(a, b, f) <= Along(a, b, g)
  {
    Steeper(b - a, f, g);
  }

  /** The value at a fractional index of an ascending sequence. */
  function ValueAt(s: seq<real>, idx: real): real
    requires s != [] && 0.0 <= idx <= (|s| - 1) as real
  {
    var lo := idx.Floor;
    if lo + 1 >= |s| then s[lo] else Along(s[lo], s[lo + 1], idx - lo as real)
  }

  /** A product with a percentage. */
  function Weighted(m: real, p: real): (w: real)
    requires m >= 0.0 && 0.0 <= p <= 100.0
    ensures 0.0 <= w <= 100.0 * m
  {
    MulNonNegative(m, p);
    MulNonNegative(m, 100.0 - p);
    assert m * (100.0 - p) == 100.0 * m - m * p;
    m * p
  }

  lemma WeightedGrows(m: real, p: real, q: real)
    requires m >= 0.0 && 0.0 <= p <= q <= 100.0
    ensures Weighted(m, p) <= Weighted(m, q)
  {
    MulNonNegative(m, q - p);
    assert Weighted(m, q) - Weighted(m, p) == m * (q - p);
  }

  lemma WeightedEnds(m: real)
    requires m >= 0.0
    ensures Weighted(m, 0.0) == 0.0 && Weighted(m, 100.0) == 100.0 * m
  {
    assert m * 0.0 == 0.0;
    assert m * 100.0 == 100.0 * m;
  }

  /** The fractional index of a percentile among `n` values. */
  function Index(n: nat, p: real): (idx: real)
    requires n > 0 && 0.0 <= p <= 100.0
    ensures 0.0 <= idx <= (n - 1) as real
  {
    Weighted((n - 1) as real, p) / 100.0
  }

  lemma IndexGrows(n: nat, p: real, q: real)
    requires n > 0 && 0.0 <= p <= q <= 100.0
    ensures Index(n, p) <= Index(n, q) && Index(n, 0.0) == 0.0 && Index(n, 100.0) == (n - 1) as real
  {
    hide Weighted;
    WeightedGrows((n - 1) as real, p, q);
    WeightedEnds((n - 1) as real);
  }

  function Percentile(values: seq<real>, p: real): real
    requires 0.0 <= p <= 100.0
  {
    if values == [] then 0.0 else ValueAt(Sorted(values), Index(|values|, p))
  }

  lemma ValueBounds(s: seq<real>, idx: real)
    requires s != [] && Ascending(s) && 0.0 <= idx <= (|s| - 1) as real
    ensures var lo := idx.Floor;
      s[lo] <= ValueAt(s, idx) <= s[if lo + 1 < |s| then lo + 1 else lo]
  {
    hide Along;
    var lo := idx.Floor;
    if lo + 1 < |s| { AlongBounds(s[lo], s[lo + 1], idx - lo as real); }
  }

  lemma ValueMonotone(s: seq<real>, x: real, y: real)
    requires s != [] && Ascending(s) && 0.0 <= x <= y <= (|s| - 1) as real
    ensures ValueAt(s, x) <= ValueAt(s, y)
  {
    hide Along;
    var lo, hi := x.Floor, y.Floor;
    ValueBounds(s, x);
    ValueBounds(s, y);
    if lo == hi {
      if lo + 1 < |s| { AlongGrows(s[lo], s[lo + 1], x - lo as real, y - lo as real); }
    } else {
      assert lo + 1 <= hi < |s| && s[lo + 1] <= s[hi];
    }
  }

  /** Percentiles grow with `p` and lie between the least and the greatest value, which they
      reach at 0 and 100. */
  lemma PercentileMonotone(values: seq<real>, p: real, q: real)
    requires values != [] && 0.0 <= p <= q <= 100.0
    ensures Percentile(values, p) <= Percentile(values, q)
    ensures Percentile(values, 0.0) == Sorted(values)[0] <= Percentile(values, p)
    ensures Percentile(values, q) <= Percentile(values, 100.0) == Sorted(values)[|values| - 1]
  {
    hide Index, ValueAt;
    var s, n := Sorted(values), |values|;
    SortedKeeps(values);
    IndexGrows(n, p, q);
    ValueMonotone(s, Index(n, p), Index(n, q));
    ValueMonotone(s, 0.0, Index(n, p));
    ValueMonotone(s, Index(n, q), (n - 1) as real);
    ValueEnds(s);
  }

  lemma ValueEnds(s: seq<real>)
    requires s != []
    ensures ValueAt(s, 0.0) == s[0] && ValueAt(s, (|s| - 1) as real) == s[|s| - 1]
  {
  }

  lemma Quotient(a: real, b: real)
    requires b > 0.0
    ensures b * (a / b) == a
  {
  }

  lemma QuotientBounds(a: real, b: real)
    requires 0.0 <= a <= b && b > 0.0
    ensures 0.0 <= a / b <= 1.0
  {
    Divided(a, b, 0.0, 1.0);
  }

  /** The percentage at which the `k`-th of `n` values in order stands. */
  function RankPercent(n: nat, k: nat): (p: real)
    requires k < n && n > 1
    ensures 0.0 <= p <= 100.0
  {
    QuotientBounds(k as real, (n - 1) as real);
    100.0 * (k as real / (n - 1) as real)
  }

  lemma IndexAtRank(n: nat, k: nat)
    requires k < n && n > 1
    ensures Index(n, RankPercent(n, k)) == k as real
  {
    var m, x := (n - 1) as real, k as real / (n - 1) as real;
    Quotient(k as real, m);
    assert m * (100.0 * x) == 100.0 * (m * x);
  }

  /** The percentile at the percentage of a rank is the value of that rank. */
  lemma PercentileAtRank(values: seq<real>, k: nat)
    requires k < |values| && |values| > 1
    ensures Percentile(values, RankPercent(|values|, k)) == Sorted(values)[k]
  {
    hide Index, RankPercent;
    IndexAtRank(|values|, k);
    assert (k as real).Floor == k;
    if k + 1 < |values| { AlongStart(Sorted(values)[k], Sorted(values)[k + 1]); }
  }

  lemma AlongStart(a: real, b: real)
    ensures Along(a, b, 0.0) == a && Along(a, b, 1.0) == b
  {
  }

  /** From one rank to the next, the next included, the value is along the line between them. */
  lemma ValueBetween(s: seq<real>, k: nat, idx: real)
    requires k + 1 < |s| && k as real <= idx <= (k + 1) as real
    ensures ValueAt(s, idx) == Along(s[k], s[k + 1], idx - k as real)
  {
    hide Along;
    if idx < (k + 1) as real {
      assert idx.Floor == k;
    } else {
      assert idx.Floor == k + 1;
      AlongStart(s[k], s[k + 1]);
      if k + 2 < |s| { AlongStart(s[k + 1], s[k + 2]); }
    }
  }

  lemma IndexGap(n: nat, p: real, q: real)
    requires n > 0 && 0.0 <= p <= 100.0 && 0.0 <= q <= 100.0
    ensures Index(n, q) - Index(n, p) == (n - 1) as real * ((q - p) / 100.0)
  {
    var m := (n - 1) as real;
    assert m * q - m * p == m * (q - p);
    assert m * (q - p) / 100.0 == m * ((q - p) / 100.0);
  }

  lemma AlongGap(a: real, b: real, f: real, g: real)
    ensures Along(a, b, g) - Along(a, b, f) == (b - a) * (g - f)
  {
    assert (b - a) * (g - f) == (b - a) * g - (b - a) * f;
  }

  lemma Proportional(d: real, m: real, x: real, y: real)
    ensures (d * (m * (x / 100.0))) * y == (d * (m * (y / 100.0))) * x
  {
    assert (d * (m * (x / 100.0))) * y == (d * m) * ((x / 100.0) * y);
    assert (d * (m * (y / 100.0))) * x == (d * m) * ((y / 100.0) * x);
    assert (x / 100.0) * y == (y / 100.0) * x;
  }

  /** Between the percentages of two neighbouring ranks the percentile runs along a straight
      line: its differences are proportional to those of the percentage. */
  lemma PercentileIsStraight(values: seq<real>, k: nat, p: real, q: real, r: real)
    requires k + 1 < |values|
    requires RankPercent(|values|, k) <= p <= q <= r <= RankPercent(|values|, k + 1)
    ensures (Percentile(values, q) - Percentile(values, p)) * (r - p)
      == (Percentile(values, r) - Percentile(values, p)) * (q - p)
  {
    hide Index, RankPercent, ValueAt, Along;
    var s, n := Sorted(values), |values|;
    IndexAtRank(n, k);
    IndexAtRank(n, k + 1);
    IndexGrows(n, RankPercent(n, k), p);
    IndexGrows(n, p, q);
    IndexGrows(n, q, r);
    IndexGrows(n, r, RankPercent(n, k + 1));
    ValueBetween(s, k, Index(n, p));
    ValueBetween(s, k, Index(n, q));
    ValueBetween(s, k, Index(n, r));
    AlongGap(s[k], s[k + 1], Index(n, p) - k as real, Index(n, q) - k as real);
    AlongGap(s[k], s[k + 1], Index(n, p) - k as real, Index(n, r) - k as real);
    IndexGap(n, p, q);
    IndexGap(n, p, r);
    Proportional(s[k + 1] - s[k], (n - 1) as real, q - p, r - p);
  }

  /** Percentiles depend on the values alone, not on their order. */
  lemma PercentileOfPermutation(values: seq<real>, others: seq<real>, p: real)
    requires multiset(values) == multiset(others) && 0.0 <= p <= 100.0
    ensures Percentile(values, p) == Percentile(others, p)
  {
    hide Index, ValueAt;
    SortedKeeps(values);
    SortedKeeps(others);
    OneArrangement(Sorted(values), Sorted(others));
    assert |values| == |multiset(values)| == |multiset(others)| == |others|;
  }

  // ----- the statistics of a metric

  function Sum(values: seq<real>): real {
    if values == [] then 0.0 else values[0] + Sum(values[1..])
  }

  function Mean(values: seq<real>): real
    requires values != []
  {
    Sum(values) / |values| as real
  }

  function Peak(values: seq<real>): real
    requires values != []
  {
    if |values| == 1 then values[0] else
      var rest := Peak(values[1..]);
      if values[0] >= rest then values[0] else rest
  }

  function Minimum(values: seq<real>): real
    requires values != []
  {
    if |values| == 1 then values[0] else
      var rest := Minimum(values[1..]);
      if values[0] <= rest then values[0] else rest
  }

  datatype MetricStats = MetricStats(count: nat, avg: real, p95: real, p99: real, peak: real, minimum: real)

  function ComputeMetricStats(values: seq<real>): Option<MetricStats> {
    if values == [] then None else
      Some(MetricStats(|values|, Mean(values), Percentile(values, 95.0), Percentile(values, 99.0),
                       Peak(values), Minimum(values)))
  }

  lemma {:induction false} Extremes(values: seq<real>)
    requires values != []
    ensures Minimum(values) in values && Peak(values) in values
    ensures forall i :: 0 <= i < |values| ==> Minimum(values) <= values[i] <= Peak(values)
  {
    if |values| > 1 {
      Extremes(values[1..]);
      assert forall i :: 1 <= i < |values| ==> values[i] == values[1..][i - 1];
    }
  }

  lemma {:induction false} SumBounds(values: seq<real>, lo: real, hi: real)
    requires forall i :: 0 <= i < |values| ==> lo <= values[i] <= hi
    ensures lo * |values| as real <= Sum(values) <= hi * |values| as real
  {
    if values != [] {
      SumBounds(values[1..], lo, hi);
      var n := |values| as real;
      assert lo * n == lo + lo * (n - 1.0) && hi * n == hi + hi * (n - 1.0);
    }
  }

  lemma Divided(x: real, n: real, lo: real, hi: real)
    requires n > 0.0 && lo * n <= x <= hi * n
    ensures lo <= x / n <= hi
  {
    assert x / n - lo == (x - lo * n) / n && hi - x / n == (hi * n - x) / n;
  }

  lemma MeanBounds(values: seq<real>)
    requires values != []
    ensures Minimum(values) <= Mean(values) <= Peak(values)
  {
    hide Sum, Minimum, Peak;
    Extremes(values);
    SumBounds(values, Minimum(values), Peak(values));
    Divided(Sum(values), |values| as real, Minimum(values), Peak(values));
  }

  lemma {:induction false} SumAppend(a: seq<real>, b: seq<real>)
    ensures Sum(a + b) == Sum(a) + Sum(b)
  {
    if a == [] {
      assert a + b == b;
    } else {
      SumAppend(a[1..], b);
      assert (a + b)[1..] == a[1..] + b;
    }
  }

  lemma SumOne(x: real)
    ensures Sum([x]) == x && Sum([]) == 0.0
  {
  }

  function Deviations(values: seq<real>, m: real): (r: seq<real>)
    ensures |r| == |values| && forall i :: 0 <= i < |r| ==> r[i] == values[i] - m
  {
    seq(|values|, i requires 0 <= i < |values| => values[i] - m)
  }

  lemma {:induction false} SumOfDeviations(values: seq<real>, m: real)
    ensures Sum(Deviations(values, m)) == Sum(values) - |values| as real * m
  {
    if values != [] {
      SumOfDeviations(values[1..], m);
      assert Deviations(values, m)[1..] == Deviations(values[1..], m);
    }
  }

  /** The mean is the one value from which the deviations cancel out. */
  lemma MeanIff(values: seq<real>, m: real)
    requires values != []
    ensures Sum(Deviations(values, m)) == 0.0 <==> m == Mean(values)
  {
    hide Sum;
    SumOfDeviations(values, m);
    Quotient(Sum(values), |values| as real);
    Cancel(|values| as real, m, Mean(values));
  }

  lemma Cancel(n: real, x: real, y: real)
    requires n > 0.0
    ensures n * x == n * y ==> x == y
  {
    assert n * x - n * y == n * (x - y);
  }

  lemma SortedEnds(values: seq<real>)
    requires values != []
    ensures Sorted(values)[0] == Minimum(values) && Sorted(values)[|values| - 1] == Peak(values)
  {
    var s := Sorted(values);
    SortedKeeps(values);
    Extremes(values);
    assert s[0] in multiset(values) && s[|s| - 1] in multiset(values);
    assert Minimum(values) in multiset(s) && Peak(values) in multiset(s);
    var i :| 0 <= i < |s| && s[i] == Minimum(values);
    var j :| 0 <= j < |s| && s[j] == Peak(values);
  }

  /** The statistics of a metric are ordered, whatever the samples. */
  lemma StatsOrdered(values: seq<real>)
    requires values != []
    ensures ComputeMetricStats(values).Some?
    ensures var s := ComputeMetricStats(values).value;
      && s.minimum <= s.p95 <= s.p99 <= s.peak && s.minimum <= s.avg <= s.peak
      && s.count == |values| && s.minimum == Sorted(values)[0] && s.peak == Sorted(values)[|values| - 1]
  {
    hide Percentile, Mean, Peak, Minimum;
    SortedEnds(values);
    PercentileMonotone(values, 95.0, 99.0);
    MeanBounds(values);
  }

  lemma NoPercentile(p: real)
    requires 0.0 <= p <= 100.0
    ensures Percentile([], p) == 0.0
  {
  }

  /** Of a hundred and one samples the 95th percentile is the one with 95 before it in order,
      the 99th percentile the one with 99 before it. Without samples there are no statistics. */
  lemma StatsOfHundredAndOne(values: seq<real>)
    ensures |values| == 101 ==> var s := ComputeMetricStats(values).value;
      s.p95 == Sorted(values)[95] && s.p99 == Sorted(values)[99]
    ensures values == [] ==> ComputeMetricStats(values) == None && Percentile(values, 95.0) == 0.0
  {
    NoPercentile(95.0);
    hide Percentile, Mean, Peak, Minimum, Sorted;
    if |values| == 101 {
      PercentileAtRank(values, 95);
      PercentileAtRank(values, 99);
      Quotient(95.0, 100.0);
      Quotient(99.0, 100.0);
    }
  }
}
