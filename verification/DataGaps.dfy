/** Gaps in the samples of a collection window: the stretches of more than one and a half
    sampling intervals without a sample. Instants are microseconds. */
module DataGaps {
  type Time = int

  const SECOND := 1_000_000

  datatype Gap = Gap(start: Time, end: Time)

  /** Whether a stretch exceeds one and a half intervals of so many seconds. */
  predicate TooLong(g: Gap, interval: int) { 2 * (g.end - g.start) > 3 * interval * SECOND }

  /** That is, more than one and a half times as many seconds. */
  lemma TooLongInSeconds(g: Gap, interval: int)
    ensures TooLong(g, interval) <==> (g.end - g.start) as real / 1000000.0 > 1.5 * interval as real
  {
  }

  /** The stretches between neighbours among the first `n + 1` points that are too long. */
  function LongSteps(points: seq<Time>, interval: int, n: nat): seq<Gap>
    requires n < |points|
  {
    if n == 0 then [] else
      var step := Gap(points[n - 1], points[n]);
      LongSteps(points, interval, n - 1) + (if TooLong(step, interval) then [step] else [])
  }

  function Points(samples: seq<Time>, start: Time, end: Time): seq<Time> { [start] + samples + [end] }

  function Gaps(samples: seq<Time>, start: Time, end: Time, interval: int): seq<Gap> {
    if samples == [] then [Gap(start, end)] else LongSteps(Points(samples, start, end), interval, |samples| + 1)
  }

  method DetectGaps(samples: seq<Time>, start: Time, end: Time, interval: int) returns (gaps: seq<Gap>)
    ensures gaps == Gaps(samples, start, end, interval)
    ensures samples == [] ==> gaps == [Gap(start, end)]
  {
    if |samples| == 0 { return [Gap(start, end)]; }
    gaps := [];
    ghost var points := Points(samples, start, end);
    assert LongSteps(points, interval, 0) == [];
    if TooLong(Gap(start, samples[0]), interval) { gaps := gaps + [Gap(start, samples[0])]; }
    for i := 1 to |samples|
      invariant gaps == LongSteps(points, interval, i)
    {
      assert points[i] == samples[i - 1] && points[i + 1] == samples[i];
      if TooLong(Gap(samples[i - 1], samples[i]), interval) { gaps := gaps + [Gap(samples[i - 1], samples[i])]; }
    }
    var last := samples[|samples| - 1];
    if TooLong(Gap(last, end), interval) { gaps := gaps + [Gap(last, end)]; }
  }

  ghost predicate Sorted(points: seq<Time>) {
    forall i, j :: 0 <= i <= j < |points| ==> points[i] <= points[j]
  }

  function Step(points: seq<Time>, k: nat): Gap
    requires 0 < k < |points|
  {
    Gap(points[k - 1], points[k])
  }

  /** Each gap is a step between neighbouring points that is too long. */
  lemma {:induction false} GapIsStep(points: seq<Time>, interval: int, n: nat, g: nat) returns (k: nat)
    requires n < |points| && g < |LongSteps(points, interval, n)|
    ensures 0 < k <= n && LongSteps(points, interval, n)[g] == Step(points, k) && TooLong(Step(points, k), interval)
  {
    if g < |LongSteps(points, interval, n - 1)| {
      k := GapIsStep(points, interval, n - 1, g);
    } else {
      k := n;
    }
  }

  lemma {:induction false} StepIsGap(points: seq<Time>, interval: int, n: nat, k: nat) returns (g: nat)
    requires n < |points| && 0 < k <= n && TooLong(Step(points, k), interval)
    ensures g < |LongSteps(points, interval, n)| && LongSteps(points, interval, n)[g] == Step(points, k)
  {
    if k == n {
      g := |LongSteps(points, interval, n - 1)|;
    } else {
      g := StepIsGap(points, interval, n - 1, k);
    }
  }

  lemma {:induction false} GapsFollow(points: seq<Time>, interval: int, n: nat, g: nat, h: nat)
    requires Sorted(points) && n < |points| && g < h < |LongSteps(points, interval, n)|
    ensures LongSteps(points, interval, n)[g].end <= LongSteps(points, interval, n)[h].start
  {
    if h < |LongSteps(points, interval, n - 1)| {
      GapsFollow(points, interval, n - 1, g, h);
    } else {
      var k := GapIsStep(points, interval, n - 1, g);
    }
  }

  ghost predicate InWindow(samples: seq<Time>, start: Time, end: Time) {
    start <= end && forall i :: 0 <= i < |samples| ==> start <= samples[i] <= end
  }

  lemma PointsSorted(samples: seq<Time>, start: Time, end: Time)
    requires Sorted(samples) && InWindow(samples, start, end)
    ensures Sorted(Points(samples, start, end))
  {
  }

  ghost predicate SampleFree(samples: seq<Time>, g: Gap) {
    forall i :: 0 <= i < |samples| ==> samples[i] <= g.start || g.end <= samples[i]
  }

  /** The reported gaps are too long, free of samples, inside the window, in order and do not
      overlap. */
  lemma GapsAreGaps(samples: seq<Time>, start: Time, end: Time, interval: int)
    requires samples != [] && Sorted(samples) && InWindow(samples, start, end)
    ensures var gaps := Gaps(samples, start, end, interval);
      && (forall g :: 0 <= g < |gaps| ==>
            TooLong(gaps[g], interval) && SampleFree(samples, gaps[g]) && start <= gaps[g].start <= gaps[g].end <= end)
      && (forall g, h :: 0 <= g < h < |gaps| ==> gaps[g].end <= gaps[h].start)
  {
    var points, n := Points(samples, start, end), |samples| + 1;
    PointsSorted(samples, start, end);
    var gaps := Gaps(samples, start, end, interval);
    forall g | 0 <= g < |gaps|
      ensures TooLong(gaps[g], interval) && SampleFree(samples, gaps[g]) && start <= gaps[g].start <= gaps[g].end <= end
    {
      var k := GapIsStep(points, interval, n, g);
      forall i | 0 <= i < |samples| ensures samples[i] <= gaps[g].start || gaps[g].end <= samples[i] {
        assert samples[i] == points[i + 1];
      }
    }
    forall g, h | 0 <= g < h < |gaps| ensures gaps[g].end <= gaps[h].start {
      GapsFollow(points, interval, n, g, h);
    }
  }

  /** The last of the first `n` points not after `a`. */
  lemma {:induction false} LastBefore(points: seq<Time>, a: Time, n: nat) returns (k: nat)
    requires 0 < n <= |points| && points[0] <= a
    ensures k < n && points[k] <= a && (k + 1 < n ==> a < points[k + 1])
  {
    if points[n - 1] <= a { k := n - 1; } else { k := LastBefore(points, a, n - 1); }
  }

  /** Every sample-free stretch of the window that is too long lies in exactly one gap. */
  lemma StretchInOneGap(samples: seq<Time>, start: Time, end: Time, interval: int, s: Gap) returns (at: nat)
    requires samples != [] && Sorted(samples) && InWindow(samples, start, end)
    requires start <= s.start < s.end <= end && SampleFree(samples, s) && TooLong(s, interval)
    ensures var gaps := Gaps(samples, start, end, interval);
      && at < |gaps| && gaps[at].start <= s.start && s.end <= gaps[at].end
      && forall g :: 0 <= g < |gaps| && gaps[g].start <= s.start && s.end <= gaps[g].end ==> g == at
  {
    var points, n := Points(samples, start, end), |samples| + 1;
    PointsSorted(samples, start, end);
    var gaps := Gaps(samples, start, end, interval);
    var k := LastBefore(points, s.start, n + 1);
    assert points[n] == end;
    assert k < n - 1 ==> points[k + 1] == samples[k];
    at := StepIsGap(points, interval, n, k + 1);
    forall g | 0 <= g < |gaps| && gaps[g].start <= s.start && s.end <= gaps[g].end ensures g == at {
      if g < at { GapsFollow(points, interval, n, g, at); }
      if at < g { GapsFollow(points, interval, n, at, g); }
    }
  }
}
