/**
  Rolling frame-time statistics: a bounded window of the most recent samples,
  summarised as averages, maxima and a nearest-rank percentile.
 */
module PerfStats {
  import opened Numerics
  import opened Types

  /** The total of the values, added from the left. */
  function Sum(values: seq<real>): real {
    if |values| == 0 then 0.0 else Sum(values[..|values| - 1]) + values[|values| - 1]
  }

  /** `Math.max(...values)` on a non-empty list. */
  function MaxOf(values: seq<real>): (r: real)
    requires |values| > 0
  {
    if |values| == 1 then values[0] else Max(MaxOf(values[..|values| - 1]), values[|values| - 1])
  }

  /** The maximum is an element, and no element exceeds it. */
  lemma {:induction false} MaxOfBounds(values: seq<real>)
    requires |values| > 0
    ensures MaxOf(values) in values
    ensures forall i :: 0 <= i < |values| ==> values[i] <= MaxOf(values)
    decreases |values|
  {
    if |values| > 1 {
      var init := values[..|values| - 1];
      MaxOfBounds(init);
      assert forall i :: 0 <= i < |init| ==> values[i] == init[i];
    }
  }

  /** The least element of a non-empty list. */
  function MinOf(values: seq<real>): (r: real)
    requires |values| > 0
  {
    if |values| == 1 then values[0] else Min(MinOf(values[..|values| - 1]), values[|values| - 1])
  }

  /** The minimum is an element, and no element is below it. */
  lemma {:induction false} MinOfBounds(values: seq<real>)
    requires |values| > 0
    ensures MinOf(values) in values
    ensures forall i :: 0 <= i < |values| ==> MinOf(values) <= values[i]
    decreases |values|
  {
    if |values| > 1 {
      var init := values[..|values| - 1];
      MinOfBounds(init);
      assert forall i :: 0 <= i < |init| ==> values[i] == init[i];
    }
  }

  /** `average`: 0 for an empty list, otherwise the arithmetic mean. */
  function Average(values: seq<real>): (r: real)
    ensures |values| == 0 ==> r == 0.0
    ensures |values| > 0 ==> r * |values| as real == Sum(values)
  {
    if |values| == 0 then 0.0 else Sum(values) / |values| as real
  }

  /** A sum is at least n times the least element. */
  lemma {:induction false} SumAtLeast(values: seq<real>)
    requires |values| > 0
    ensures |values| as real * MinOf(values) <= Sum(values)
    decreases |values|
  {
    if |values| > 1 {
      var init := values[..|values| - 1];
      SumAtLeast(init);
      var n, lo, loInit := |init| as real, MinOf(values), MinOf(init);
      MulLe(n, lo, loInit);
    }
  }

  /** A sum is at most n times the greatest element. */
  lemma {:induction false} SumAtMost(values: seq<real>)
    requires |values| > 0
    ensures Sum(values) <= |values| as real * MaxOf(values)
    decreases |values|
  {
    if |values| > 1 {
      var init := values[..|values| - 1];
      SumAtMost(init);
      var n, hi, hiInit := |init| as real, MaxOf(values), MaxOf(init);
      MulLe(n, hiInit, hi);
    }
  }

  lemma MulLe(n: real, a: real, b: real)
    requires n >= 0.0 && a <= b
    ensures n * a <= n * b
  {
    MulNonNeg(n, b - a);
  }

  /** The mean of a non-empty window lies between its least and greatest sample. */
  lemma AverageBetween(values: seq<real>)
    requires |values| > 0
    ensures MinOf(values) <= Average(values) <= MaxOf(values)
  {
    SumAtLeast(values);
    SumAtMost(values);
    MeanBetween(|values| as real, Sum(values), MinOf(values), MaxOf(values));
  }

  /** Dividing `n * lo <= s <= n * hi` by a positive `n`. */
  lemma MeanBetween(n: real, s: real, lo: real, hi: real)
    requires n > 0.0 && n * lo <= s <= n * hi
    ensures lo <= s / n <= hi
  {
    var a := s / n;
    assert a * n == s;
    if a < lo {
      MulLt(n, a, lo);
    }
    if a > hi {
      MulLt(n, hi, a);
    }
  }

  lemma MulLt(n: real, a: real, b: real)
    requires n > 0.0 && a < b
    ensures a * n < b * n
  {
    MulPos(n, b - a);
  }

  predicate Sorted(s: seq<real>) {
    forall i, j :: 0 <= i < j < |s| ==> s[i] <= s[j]
  }

  function Insert(x: real, s: seq<real>): (r: seq<real>)
    requires Sorted(s)
    ensures |r| == |s| + 1
    ensures Sorted(r) && multiset(r) == multiset(s) + multiset{x}
  {
    if |s| == 0 then [x]
    else if x <= s[0] then [x] + s
    else
      var rest := Insert(x, s[1..]);
      assert s == [s[0]] + s[1..];
      HeadBelowRest(s[0], x, s[1..], rest);
      [s[0]] + rest
  }

  /** A head no larger than the inserted value and the tail stays in front. */
  lemma HeadBelowRest(h: real, x: real, tail: seq<real>, rest: seq<real>)
    requires h <= x && forall j :: 0 <= j < |tail| ==> h <= tail[j]
    requires Sorted(rest) && multiset(rest) == multiset(tail) + multiset{x}
    ensures Sorted([h] + rest)
  {
    forall k | 0 <= k < |rest| ensures h <= rest[k] {
      assert rest[k] in multiset(rest);
      if rest[k] != x {
        assert rest[k] in multiset(tail);
        var j :| 0 <= j < |tail| && tail[j] == rest[k];
      }
    }
  }

  /** A copy of the values in ascending numeric order. */
  function Sort(values: seq<real>): (r: seq<real>)
    ensures |r| == |values|
    ensures Sorted(r) && multiset(r) == multiset(values)
  {
    if |values| == 0 then []
    else
      assert values == [values[0]] + values[1..];
      Insert(values[0], Sort(values[1..]))
  }

  /**
    The rank `percentile` reads: the least integer at or above `p` times the
    last index, capped at the last index.
   */
  function Rank(n: nat, p: real): (r: int)
    requires n > 0
    ensures r <= n - 1
    ensures p >= 0.0 ==> 0 <= r
    ensures r == n - 1 || p * ((n - 1) as real) <= r as real
    ensures (r - 1) as real < p * ((n - 1) as real)
  {
    var k := (n - 1) as real;
    MulNonNegIf(p, k);
    var c := Ceil(p * k);
    if n - 1 <= c then n - 1 else c
  }

  lemma MulNonNegIf(p: real, k: real)
    requires k >= 0.0
    ensures p >= 0.0 ==> p * k >= 0.0
  {
    if p >= 0.0 {
      MulNonNeg(p, k);
    }
  }

  /**
    `percentile`: 0 for an empty list, otherwise the sorted element at the
    rank. A negative `p` reads before the start of the list, which the host
    reports as `undefined`: that is `None` here.
   */
  function Percentile(values: seq<real>, p: real): (r: Option<real>)
    ensures |values| == 0 ==> r == Some(0.0)
    ensures |values| > 0 && p >= 0.0 ==> r.Some?
    ensures |values| > 0 && r.Some? ==> r.value in values
    ensures |values| > 0 ==> (r.Some? <==> Rank(|values|, p) >= 0)
    ensures |values| > 0 && r.Some? ==> r.value == Sort(values)[Rank(|values|, p)]
  {
    if |values| == 0 then Some(0.0)
    else
      var sorted := Sort(values);
      var index := Rank(|sorted|, p);
      if index < 0 then None
      else
        assert sorted[index] in multiset(sorted);
        Some(sorted[index])
  }

  /** In a sorted list every element lies between the first and the last. */
  lemma SortedEnds(s: seq<real>, x: real)
    requires Sorted(s) && x in s
    ensures s[0] <= x <= s[|s| - 1]
  {
    var k :| 0 <= k < |s| && s[k] == x;
    assert 0 < k ==> s[0] <= s[k];
    assert k < |s| - 1 ==> s[k] <= s[|s| - 1];
  }

  /** Elements of a permutation are elements of the original. */
  lemma SameElements(s: seq<real>, values: seq<real>, x: real)
    requires multiset(s) == multiset(values)
    ensures x in s <==> x in values
  {
    assert x in s <==> x in multiset(s);
    assert x in values <==> x in multiset(values);
  }

  /** The last element of a sorted permutation is the maximum. */
  lemma SortedLastIsMax(values: seq<real>)
    requires |values| > 0
    ensures Sort(values)[|values| - 1] == MaxOf(values)
  {
    var s := Sort(values);
    var last := s[|values| - 1];
    MaxOfBounds(values);
    SameElements(s, values, MaxOf(values));
    SortedEnds(s, MaxOf(values));
    SameElements(s, values, last);
    var k :| 0 <= k < |values| && values[k] == last;
  }

  /** The first element of a sorted permutation is the minimum. */
  lemma SortedFirstIsMin(values: seq<real>)
    requires |values| > 0
    ensures Sort(values)[0] == MinOf(values)
  {
    var s := Sort(values);
    var first := s[0];
    MinOfBounds(values);
    SameElements(s, values, MinOf(values));
    SortedEnds(s, MinOf(values));
    SameElements(s, values, first);
    var k :| 0 <= k < |values| && values[k] == first;
  }

  /** A larger `p` never gives a smaller rank. */
  lemma RankMonotone(n: nat, p: real, q: real)
    requires n > 0 && p <= q
    ensures Rank(n, p) <= Rank(n, q)
  {
    var k := (n - 1) as real;
    MulLe(k, p, q);
    assert p * k <= q * k;
    FloorMonotone(-(q * k), -(p * k));
  }

  /** A larger `p` never gives a smaller percentile. */
  lemma PercentileMonotone(values: seq<real>, p: real, q: real)
    requires |values| > 0 && 0.0 <= p <= q
    ensures Percentile(values, p).value <= Percentile(values, q).value
  {
    var sorted := Sort(values);
    var a, b := Rank(|values|, p), Rank(|values|, q);
    RankMonotone(|values|, p, q);
    assert Percentile(values, p) == Some(sorted[a]) && Percentile(values, q) == Some(sorted[b]);
    assert a < b ==> sorted[a] <= sorted[b];
  }

  /** `p = 0` picks the minimum and `p = 1` the maximum. */
  lemma PercentileEnds(values: seq<real>)
    requires |values| > 0
    ensures Percentile(values, 0.0) == Some(MinOf(values))
    ensures Percentile(values, 1.0) == Some(MaxOf(values))
  {
    var n := |values|;
    assert Rank(n, 0.0) == 0;
    assert Rank(n, 1.0) == n - 1;
    SortedFirstIsMin(values);
    SortedLastIsMax(values);
  }

  /** `PerfSample`; the simulation time is optional and counts as 0 when absent. */
  datatype PerfSample = PerfSample(
    frameMs: real, simMs: Option<real>, updateMs: real, renderMs: real, players: real, trails: real)

  /** The tracker's window and its capacity. */
  datatype Tracker = Tracker(maxSamples: int, samples: seq<PerfSample>)

  /** The capacity given, or 180 samples. */
  function CreateTracker(maxSamples: Option<int>): (t: Tracker)
    ensures t.samples == []
    ensures t.maxSamples == if maxSamples.Some? then maxSamples.value else 180
  {
    Tracker(maxSamples.GetOr(180), [])
  }

  /** The number of samples a window of this capacity keeps: a capacity of 0 or less keeps none. */
  function Capacity(maxSamples: int): (c: nat)
    ensures maxSamples >= 0 ==> c == maxSamples
  {
    if maxSamples >= 0 then maxSamples else 0
  }

  /** The newest `cap` entries of a history, or all of it when it is shorter. */
  function Newest<T>(history: seq<T>, cap: nat): (w: seq<T>)
    ensures |w| == if |history| <= cap then |history| else cap
    ensures w == history[|history| - |w|..]
  {
    if |history| <= cap then history else history[|history| - cap..]
  }

  /** `record`: push, then drop the oldest samples beyond the capacity. */
  function Record(t: Tracker, sample: PerfSample): (r: Tracker)
    ensures r.maxSamples == t.maxSamples
    // the window is the newest part of what has been pushed, so nothing is dropped while there is room
    ensures r.samples == Newest(t.samples + [sample], Capacity(t.maxSamples))
    ensures t.maxSamples >= 1 ==> |r.samples| >= 1 && r.samples[|r.samples| - 1] == sample
  {
    var pushed := t.samples + [sample];
    if |pushed| > t.maxSamples then
      Tracker(t.maxSamples, pushed[|pushed| - Capacity(t.maxSamples)..])
    else
      Tracker(t.maxSamples, pushed)
  }

  /** Trimming before or after appending one entry keeps the same newest window. */
  lemma NewestStep<T>(w: seq<T>, history: seq<T>, x: T, cap: nat)
    requires w == Newest(history, cap)
    ensures Newest(w + [x], cap) == Newest(history + [x], cap)
  {
    var h := history + [x];
    if |history| > cap {
      assert w + [x] == h[|h| - cap - 1..];
    }
  }

  function RecordAll(t: Tracker, samples: seq<PerfSample>): Tracker
    decreases |samples|
  {
    if |samples| == 0 then t else RecordAll(Record(t, samples[0]), samples[1..])
  }

  /** One `record` turns the newest window of a history into the newest window of the history extended. */
  lemma RecordNewest(t: Tracker, sample: PerfSample, history: seq<PerfSample>)
    requires t.samples == Newest(history, Capacity(t.maxSamples))
    ensures Record(t, sample).samples == Newest(history + [sample], Capacity(t.maxSamples))
  {
    NewestStep(t.samples, history, sample, Capacity(t.maxSamples));
  }

  /** Recording a run of samples keeps exactly the newest `Capacity` samples of everything recorded. */
  lemma {:induction false} WindowIsNewest(t: Tracker, samples: seq<PerfSample>, history: seq<PerfSample>)
    requires t.samples == Newest(history, Capacity(t.maxSamples))
    ensures RecordAll(t, samples).samples == Newest(history + samples, Capacity(t.maxSamples))
    decreases |samples|
  {
    if |samples| > 0 {
      RecordNewest(t, samples[0], history);
      WindowIsNewest(Record(t, samples[0]), samples[1..], history + [samples[0]]);
      assert history + [samples[0]] + samples[1..] == history + samples;
    } else {
      assert history + samples == history;
    }
  }

  /** One column of the window. */
  function Column(samples: seq<PerfSample>, field: PerfSample -> real): (c: seq<real>)
    ensures |c| == |samples|
    ensures forall i :: 0 <= i < |samples| ==> c[i] == field(samples[i])
  {
    seq(|samples|, i requires 0 <= i < |samples| => field(samples[i]))
  }

  /** `Math.max(...column)`, or 0 for an empty window. */
  function MaxOr0(values: seq<real>): (r: real)
    ensures |values| == 0 ==> r == 0.0
    ensures |values| > 0 ==> r in values && forall i :: 0 <= i < |values| ==> values[i] <= r
  {
    if |values| > 0 then MaxOfBounds(values); MaxOf(values) else 0.0
  }

  datatype Stat = Stat(avg: real, max: real)

  datatype PerfSnapshot = PerfSnapshot(
    fps: real, frame: Stat, frameP95: real, sim: Stat, update: Stat, render: Stat, players: real, trails: real)

  function Frames(samples: seq<PerfSample>): seq<real> {
    Column(samples, (s: PerfSample) => s.frameMs)
  }

  function Sims(samples: seq<PerfSample>): seq<real> {
    Column(samples, (s: PerfSample) => s.simMs.GetOr(0.0))
  }

  function Updates(samples: seq<PerfSample>): seq<real> {
    Column(samples, (s: PerfSample) => s.updateMs)
  }

  function Renders(samples: seq<PerfSample>): seq<real> {
    Column(samples, (s: PerfSample) => s.renderMs)
  }

  /** The statistics of one column: its mean and its maximum, both 0 on an empty window. */
  function Summary(values: seq<real>): (s: Stat)
    ensures s.avg == Average(values)
    ensures |values| == 0 ==> s.max == 0.0
    ensures |values| > 0 ==> s.max in values && forall i :: 0 <= i < |values| ==> values[i] <= s.max
    ensures |values| > 0 ==> MinOf(values) <= s.avg <= s.max
  {
    if |values| == 0 then Stat(0.0, 0.0)
    else
      AverageBetween(values);
      MaxOfBounds(values);
      Stat(Average(values), MaxOf(values))
  }

  /** Frames per second from the mean frame time in milliseconds; 0 when there is no positive mean. */
  function Fps(avgFrameMs: real): (f: real)
    ensures avgFrameMs > 0.0 ==> f > 0.0 && f * avgFrameMs == 1000.0
    ensures avgFrameMs <= 0.0 ==> f == 0.0
  {
    if avgFrameMs > 0.0 then 1000.0 / avgFrameMs else 0.0
  }

  /** The 95th percentile of the frame times, 0 on an empty window. */
  function P95(values: seq<real>): (r: real)
    ensures |values| == 0 ==> r == 0.0
    ensures |values| > 0 ==> Percentile(values, 0.95) == Some(r) && r in values
  {
    Percentile(values, 0.95).value
  }

  /** `snapshot`. */
  function TakeSnapshot(t: Tracker): (s: PerfSnapshot)
    ensures s.frame == Summary(Frames(t.samples)) && s.sim == Summary(Sims(t.samples))
    ensures s.update == Summary(Updates(t.samples)) && s.render == Summary(Renders(t.samples))
    ensures s.fps == Fps(s.frame.avg)
    ensures s.frameP95 == P95(Frames(t.samples))
    // the counters come from the newest sample
    ensures |t.samples| == 0 ==> s.players == 0.0 && s.trails == 0.0
    ensures |t.samples| > 0 ==> s.players == t.samples[|t.samples| - 1].players && s.trails == t.samples[|t.samples| - 1].trails
  {
    var frameStat := Summary(Frames(t.samples));
    var last := if |t.samples| > 0 then Some(t.samples[|t.samples| - 1]) else None;
    PerfSnapshot(
      Fps(frameStat.avg),
      frameStat,
      P95(Frames(t.samples)),
      Summary(Sims(t.samples)),
      Summary(Updates(t.samples)),
      Summary(Renders(t.samples)),
      if last.Some? then last.value.players else 0.0,
      if last.Some? then last.value.trails else 0.0)
  }

  lemma SumOfThree(x: real, y: real, z: real)
    ensures Sum([x, y, z]) == x + y + z
    ensures MaxOf([x, y, z]) == Max(Max(x, y), z)
  {
    var v := [x, y, z];
    assert v[..2] == [x, y] && [x, y][..1] == [x] && [x][..0] == [];
    assert Sum([x]) == x && MaxOf([x]) == x;
    assert Sum([x, y]) == x + y && MaxOf([x, y]) == Max(x, y);
  }

  /** The window 10, 20, 30 ms: mean 20, maximum 30, 95th percentile 30, hence 50 fps. */
  lemma FrameStatsExample()
    ensures Summary([10.0, 20.0, 30.0]) == Stat(20.0, 30.0)
    ensures P95([10.0, 20.0, 30.0]) == 30.0
    ensures Fps(20.0) == 50.0
    ensures Summary([4.0, 6.0, 8.0]).avg == 6.0
  {
    var frames := [10.0, 20.0, 30.0];
    SumOfThree(10.0, 20.0, 30.0);
    SumOfThree(4.0, 6.0, 8.0);
    PercentileEnds(frames);
    assert Rank(3, 0.95) == 2 == Rank(3, 1.0);
  }

  /** A tracker of capacity 3 fed three samples keeps all three, in order. */
  lemma WindowExample(a: PerfSample, b: PerfSample, c: PerfSample)
    ensures RecordAll(CreateTracker(Some(3)), [a, b, c]).samples == [a, b, c]
  {
    WindowIsNewest(CreateTracker(Some(3)), [a, b, c], []);
    assert [] + [a, b, c] == [a, b, c];
  }

  /** The snapshot of a window holding frame times 10, 20 and 30 ms (see `WindowExample` for how it fills). */
  lemma PerfExample(t: Tracker)
    requires t.samples == [
      PerfSample(10.0, Some(4.0), 2.0, 3.0, 8.0, 120.0),
      PerfSample(20.0, Some(6.0), 4.0, 5.0, 8.0, 120.0),
      PerfSample(30.0, Some(8.0), 6.0, 7.0, 8.0, 120.0)]
    ensures var s := TakeSnapshot(t);
      s.frame == Stat(20.0, 30.0) && s.frameP95 == 30.0 && s.fps == 50.0 && s.sim.avg == 6.0 && s.players == 8.0
  {
    FrameStatsExample();
    assert Frames(t.samples) == [10.0, 20.0, 30.0];
    assert Sims(t.samples) == [4.0, 6.0, 8.0];
  }
}
