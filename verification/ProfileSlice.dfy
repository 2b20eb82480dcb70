/**
  Profiles as samples with the time since the previous sample, and cutting a profile to a range.
  Times are in whole microseconds; a missing delta counts as zero.
*/
module ProfileSlice {
  import opened Numbers

  type NodeId = int

  datatype Sample = Sample(node: NodeId, dt: int)

  /** Sample `k` ends at `startTs` plus the deltas up to and including its own. */
  datatype Profile = Profile(samples: seq<Sample>, startTs: int)

  function Clock(ss: seq<Sample>, n: nat): int
    requires n <= |ss|
  {
    if n == 0 then 0 else Clock(ss, n - 1) + ss[n - 1].dt
  }

  function Total(ss: seq<Sample>): int {
    if ss == [] then 0 else ss[0].dt + Total(ss[1..])
  }

  function EndOf(p: Profile, k: nat): int
    requires k < |p.samples|
  {
    p.startTs + Clock(p.samples, k + 1)
  }

  ghost predicate Forward(ss: seq<Sample>) {
    forall i :: 0 <= i < |ss| ==> ss[i].dt >= 0
  }

  /** The samples overlapping the range, clipped to it; `c` is the time the first one starts at. */
  function Cut(ss: seq<Sample>, c: int, start: int, end: int): seq<Sample> {
    if ss == [] then []
    else
      var next := c + ss[0].dt;
      if next <= start then Cut(ss[1..], next, start, end)
      else if c >= end then []
      else [Sample(ss[0].node, Max(0, Min(next, end) - Max(c, start)))] + Cut(ss[1..], next, start, end)
  }

  function Slice(p: Profile, start: int, end: int): Profile {
    Profile(Cut(p.samples, 0, start, end), p.startTs + start)
  }

  /** What sample `i` adds to what has been collected. */
  lemma CutFrom(ss: seq<Sample>, i: nat, c: int, start: int, end: int, done: seq<Sample>)
    requires i < |ss|
    ensures var next, rest := c + ss[i].dt, Cut(ss[i + 1..], c + ss[i].dt, start, end);
            done + Cut(ss[i..], c, start, end) ==
              if next <= start then done + rest
              else if c >= end then done
              else done + [Sample(ss[i].node, Max(0, Min(next, end) - Max(c, start)))] + rest
  {
    assert ss[i..][1..] == ss[i + 1..];
    if c + ss[i].dt > start && c < end {
      Regroup(done, Sample(ss[i].node, Max(0, Min(c + ss[i].dt, end) - Max(c, start))),
          Cut(ss[i + 1..], c + ss[i].dt, start, end));
    }
  }

  lemma Regroup(a: seq<Sample>, x: Sample, b: seq<Sample>)
    ensures a + ([x] + b) == a + [x] + b
  {
  }

  method SliceProfileByRange(p: Profile, start: int, end: int) returns (r: Profile)
    ensures r == Slice(p, start, end)
  {
    var samples: seq<Sample> := [];
    var cumulative, i := 0, 0;
    ghost var goal := Cut(p.samples, 0, start, end);
    assert p.samples[0..] == p.samples;
    while i < |p.samples|
      invariant 0 <= i <= |p.samples|
      invariant samples + Cut(p.samples[i..], cumulative, start, end) == goal
    {
      CutFrom(p.samples, i, cumulative, start, end, samples);
      var sampleStart, sampleEnd := cumulative, cumulative + p.samples[i].dt;
      cumulative := sampleEnd;
      if sampleEnd > start {
        if sampleStart >= end { break; }
        var clipped := Sample(p.samples[i].node, Max(0, Min(sampleEnd, end) - Max(sampleStart, start)));
        samples := samples + [clipped];
      }
      i := i + 1;
    }
    r := Profile(samples, p.startTs + start);
  }

  // ---- how much time a slice holds ----

  /** The length of the overlap of `[c, d)` and `[start, end)`. */
  function Overlap(c: int, d: int, start: int, end: int): int {
    Max(0, Min(d, end) - Max(c, start))
  }

  lemma {:induction false} CutPastEnd(ss: seq<Sample>, c: int, start: int, end: int)
    requires Forward(ss) && c >= end
    ensures Cut(ss, c, start, end) == []
  {
    if ss != [] { CutPastEnd(ss[1..], c + ss[0].dt, start, end); }
  }

  lemma NothingPastEnd(ss: seq<Sample>, c: int, start: int, end: int)
    requires Forward(ss) && Cut(ss, c, start, end) != []
    ensures c < end
  {
    if c >= end { CutPastEnd(ss, c, start, end); }
  }

  lemma {:induction false} CutTotal(ss: seq<Sample>, c: int, start: int, end: int)
    requires Forward(ss)
    ensures Total(Cut(ss, c, start, end)) == Overlap(c, c + Total(ss), start, end)
    ensures Total(ss) >= 0 && Forward(Cut(ss, c, start, end))
  {
    if ss != [] {
      var next := c + ss[0].dt;
      CutTotal(ss[1..], next, start, end);
      if next > start && c < end {
        var x := Sample(ss[0].node, Max(0, Min(next, end) - Max(c, start)));
        assert ([x] + Cut(ss[1..], next, start, end))[1..] == Cut(ss[1..], next, start, end);
      }
    }
  }

  /** Sliced time is the overlap of the range with the profile's own span. */
  lemma SlicedTimeIsOverlap(p: Profile, start: int, end: int)
    requires Forward(p.samples)
    ensures Total(Slice(p, start, end).samples) == Overlap(0, Total(p.samples), start, end)
  {
    CutTotal(p.samples, 0, start, end);
  }

  /** Two slices that meet hold together what one slice over both ranges holds. */
  lemma AdjacentSlicesAdd(p: Profile, a: int, b: int, c: int)
    requires Forward(p.samples) && a <= b <= c
    ensures Total(Slice(p, a, b).samples) + Total(Slice(p, b, c).samples) == Total(Slice(p, a, c).samples)
  {
    CutTotal(p.samples, 0, a, b);
    CutTotal(p.samples, 0, b, c);
    CutTotal(p.samples, 0, a, c);
  }

  // ---- where the kept samples are ----

  /** How many samples end by `start`. */
  function Skipped(ss: seq<Sample>, c: int, start: int): nat {
    if ss == [] || c + ss[0].dt > start then 0 else 1 + Skipped(ss[1..], c + ss[0].dt, start)
  }

  lemma {:induction false} ClockShift(ss: seq<Sample>, n: nat)
    requires 0 < n <= |ss|
    ensures Clock(ss, n) == ss[0].dt + Clock(ss[1..], n - 1)
  {
    if n > 1 { ClockShift(ss, n - 1); }
  }

  /** The kept samples are consecutive samples of the profile, ending where they ended, up to clipping. */
  lemma {:induction false} CutPositions(ss: seq<Sample>, c: int, start: int, end: int, k: nat)
    requires Forward(ss) && start <= end && k < |Cut(ss, c, start, end)|
    ensures var n := Skipped(ss, c, start) + k;
            && n < |ss| && Cut(ss, c, start, end)[k].node == ss[n].node
            && Max(c, start) + Clock(Cut(ss, c, start, end), k + 1) == Min(c + Clock(ss, n + 1), end)
    decreases |ss|, 1
  {
    var next := c + ss[0].dt;
    if next <= start {
      CutPositions(ss[1..], next, start, end, k);
      ClockShift(ss, Skipped(ss, c, start) + k + 1);
    } else if k == 0 {
      assert Skipped(ss, c, start) == 0 && Clock(ss, 1) == ss[0].dt;
      assert Clock(Cut(ss, c, start, end), 1) == Cut(ss, c, start, end)[0].dt;
    } else {
      LaterPositions(ss, Cut(ss[1..], next, start, end), c, start, end, k);
    }
  }

  lemma {:induction false} LaterPositions(ss: seq<Sample>, r: seq<Sample>, c: int, start: int, end: int, k: nat)
    requires Forward(ss) && start <= end && ss != [] && c < end && c + ss[0].dt > start
    requires r == Cut(ss[1..], c + ss[0].dt, start, end) && 0 < k <= |r|
    ensures k < |ss| && Skipped(ss, c, start) == 0 && r[k - 1].node == ss[k].node
    ensures Max(c, start) + Clock([Sample(ss[0].node, Max(0, Min(c + ss[0].dt, end) - Max(c, start)))] + r, k + 1) ==
            Min(c + Clock(ss, k + 1), end)
    decreases |ss|, 0
  {
    var next, x := c + ss[0].dt, Sample(ss[0].node, Max(0, Min(c + ss[0].dt, end) - Max(c, start)));
    NothingPastEnd(ss[1..], next, start, end);
    CutPositions(ss[1..], next, start, end, k - 1);
    assert Skipped(ss[1..], next, start) == 0;
    ClockShift(ss, k + 1);
    ClockShift([x] + r, k + 1);
    assert ([x] + r)[1..] == r;
  }

  /** Some sample starts before the range ends and ends after it starts. */
  ghost predicate Overlaps(ss: seq<Sample>, c: int, start: int, end: int) {
    exists k :: 0 <= k < |ss| && SampleOverlaps(ss, c, start, end, k)
  }

  ghost predicate SampleOverlaps(ss: seq<Sample>, c: int, start: int, end: int, k: nat)
    requires k < |ss|
  {
    c + Clock(ss, k + 1) > start && c + Clock(ss, k) < end
  }

  /** The slice keeps a sample exactly when one overlaps the range. */
  lemma {:induction false} KeepsIffOverlaps(ss: seq<Sample>, c: int, start: int, end: int)
    requires Forward(ss)
    ensures Cut(ss, c, start, end) != [] <==> Overlaps(ss, c, start, end)
  {
    if ss != [] {
      var next := c + ss[0].dt;
      KeepsIffOverlaps(ss[1..], next, start, end);
      assert Clock(ss, 0) == 0 && Clock(ss, 1) == ss[0].dt;
      if next <= start {
        OverlapsLater(ss, c, start, end);
      } else if c >= end {
        forall k | 0 <= k < |ss| ensures !SampleOverlaps(ss, c, start, end, k) { ClockIncreases(ss, 0, k); }
      } else {
        assert SampleOverlaps(ss, c, start, end, 0);
      }
    }
  }

  /** The kept samples are those that overlap the range, every one of them and no other. */
  lemma {:induction false} KeepsExactly(ss: seq<Sample>, c: int, start: int, end: int, n: nat)
    requires Forward(ss) && n < |ss|
    ensures SampleOverlaps(ss, c, start, end, n) <==>
            Skipped(ss, c, start) <= n < Skipped(ss, c, start) + |Cut(ss, c, start, end)|
  {
    var next := c + ss[0].dt;
    ClockShift(ss, n + 1);
    if n == 0 {
      assert Clock(ss, 0) == 0;
    } else {
      ClockShift(ss, n);
      KeepsExactly(ss[1..], next, start, end, n - 1);
      if next > start && c >= end { ClockIncreases(ss, 0, n); }
      if next > start && c < end { assert Skipped(ss[1..], next, start) == 0; }
    }
  }

  lemma OverlapsLater(ss: seq<Sample>, c: int, start: int, end: int)
    requires ss != [] && c + ss[0].dt <= start
    ensures Overlaps(ss, c, start, end) <==> Overlaps(ss[1..], c + ss[0].dt, start, end)
  {
    forall k | 0 < k < |ss|
      ensures SampleOverlaps(ss, c, start, end, k) <==> SampleOverlaps(ss[1..], c + ss[0].dt, start, end, k - 1)
    {
      ClockShift(ss, k);
      ClockShift(ss, k + 1);
    }
    if Overlaps(ss, c, start, end) {
      var k :| 0 <= k < |ss| && SampleOverlaps(ss, c, start, end, k);
      assert k > 0 by { assert Clock(ss, 1) == ss[0].dt; }
      assert SampleOverlaps(ss[1..], c + ss[0].dt, start, end, k - 1);
    }
    if Overlaps(ss[1..], c + ss[0].dt, start, end) {
      var k :| 0 <= k < |ss| - 1 && SampleOverlaps(ss[1..], c + ss[0].dt, start, end, k);
      assert SampleOverlaps(ss, c, start, end, k + 1);
    }
  }

  lemma {:induction false} ClockIncreases(ss: seq<Sample>, n: nat, m: nat)
    requires Forward(ss) && n <= m <= |ss|
    ensures Clock(ss, n) <= Clock(ss, m)
  {
    if n < m { ClockIncreases(ss, n, m - 1); }
  }

  /** Kept sample `k` of the slice ends, in absolute time, where the profile's sample ended, clipped to the range. */
  ghost predicate KeepsEnd(p: Profile, start: int, end: int, k: nat)
    requires k < |Slice(p, start, end).samples|
  {
    var n := Skipped(p.samples, 0, start) + k;
    && n < |p.samples| && Slice(p, start, end).samples[k].node == p.samples[n].node
    && EndOf(Slice(p, start, end), k) == Min(EndOf(p, n), p.startTs + end)
  }

  /**
    Every kept sample keeps its absolute end time exactly when the range does not start before the
    profile, or overlaps no sample: the slice's clock starts at the range's start, its first sample at
    the profile's.
  */
  lemma SliceKeepsAbsoluteEnds(p: Profile, start: int, end: int)
    requires Forward(p.samples) && start <= end
    ensures (forall k :: 0 <= k < |Slice(p, start, end).samples| ==> KeepsEnd(p, start, end, k)) <==>
            start >= 0 || !Overlaps(p.samples, 0, start, end)
  {
    KeepsIffOverlaps(p.samples, 0, start, end);
    forall k | 0 <= k < |Slice(p, start, end).samples| ensures KeepsEnd(p, start, end, k) <==> start >= 0 {
      CutPositions(p.samples, 0, start, end, k);
    }
    if |Slice(p, start, end).samples| > 0 {
      assert KeepsEnd(p, start, end, 0) <==> start >= 0;
    }
  }

  // ---- slicing a slice ----

  /** The time within the slice at which the profile's time `c` falls. */
  function Local(c: int, start: int, end: int): int {
    Max(0, Min(c, end) - start)
  }

  lemma CutCons(x: Sample, rest: seq<Sample>, c: int, start: int, end: int)
    ensures Cut([x] + rest, c, start, end) ==
            if c + x.dt <= start then Cut(rest, c + x.dt, start, end)
            else if c >= end then []
            else [Sample(x.node, Max(0, Min(c + x.dt, end) - Max(c, start)))] + Cut(rest, c + x.dt, start, end)
  {
    assert ([x] + rest)[1..] == rest;
  }

  /** Clipping `[c, next)` twice; `l` and `m` are its ends on the slice's own clock. */
  lemma ClipOfClip(c: int, next: int, s1: int, e1: int, s2: int, e2: int)
    requires s1 >= 0 && s2 >= 0 && c <= next && next > s1 && c < e1
    ensures var l, m := Local(c, s1, e1), Local(next, s1, e1);
            && m == l + Max(0, Min(next, e1) - Max(c, s1))
            && (s1 + s2 < e1 && 0 < e2 ==> SameClip(l, m, s2, e2, c, next, s1 + s2, Min(e1, s1 + e2)))
            && (s1 + s2 >= e1 ==> m <= s2)
  {
  }

  /** Cutting treats `[l, m)` against `[s, e)` as it treats `[c, d)` against `[s', e')`. */
  ghost predicate SameClip(l: int, m: int, s: int, e: int, c: int, d: int, s': int, e': int) {
    && (m <= s <==> d <= s') && (l >= e <==> c >= e')
    && (l < e ==> Max(0, Min(m, e) - Max(l, s)) == Max(0, Min(d, e') - Max(c, s')))
  }

  /** Cutting with the first sample, on two clocks that agree on it and on the rest. */
  lemma SameCut(x: Sample, y: Sample, r: seq<Sample>, t: seq<Sample>, l: int, s: int, e: int, c: int, s': int, e': int)
    requires x.node == y.node && SameClip(l, l + x.dt, s, e, c, c + y.dt, s', e')
    requires Cut(r, l + x.dt, s, e) == Cut(t, c + y.dt, s', e')
    ensures Cut([x] + r, l, s, e) == Cut([y] + t, c, s', e')
  {
    CutCons(x, r, l, s, e);
    CutCons(y, t, c, s', e');
  }

  lemma {:induction false} CutWithin(ss: seq<Sample>, c: int, s1: int, e1: int, s2: int, e2: int, s: int, e: int)
    requires Forward(ss) && s1 >= 0 && s2 >= 0 && s1 + s2 < e1 && 0 < e2
    requires s == s1 + s2 && e == Min(e1, s1 + e2)
    ensures Cut(Cut(ss, c, s1, e1), Local(c, s1, e1), s2, e2) == Cut(ss, c, s, e)
  {
    if ss != [] {
      CutWithin(ss[1..], c + ss[0].dt, s1, e1, s2, e2, s, e);
      CutWithinStep(ss[0], ss[1..], c, s1, e1, s2, e2, s, e);
      assert [ss[0]] + ss[1..] == ss;
    }
  }

  lemma CutWithinStep(x: Sample, t: seq<Sample>, c: int, s1: int, e1: int, s2: int, e2: int, s: int, e: int)
    requires x.dt >= 0 && Forward(t) && s1 >= 0 && s2 >= 0 && s1 + s2 < e1 && 0 < e2
    requires s == s1 + s2 && e == Min(e1, s1 + e2)
    requires Cut(Cut(t, c + x.dt, s1, e1), Local(c + x.dt, s1, e1), s2, e2) == Cut(t, c + x.dt, s, e)
    ensures Cut(Cut([x] + t, c, s1, e1), Local(c, s1, e1), s2, e2) == Cut([x] + t, c, s, e)
  {
    var next := c + x.dt;
    CutCons(x, t, c, s1, e1);
    if next <= s1 {
      CutCons(x, t, c, s, e);
      assert Local(c, s1, e1) == Local(next, s1, e1);
    } else if c >= e1 {
      assert Forward([x] + t);
      CutPastEnd([x] + t, c, s, e);
    } else {
      CutWithinKept(x, t, Cut(t, next, s1, e1), c, s1, e1, s2, e2, s, e);
    }
  }

  lemma CutWithinKept(
    x: Sample, t: seq<Sample>, r: seq<Sample>, c: int, s1: int, e1: int, s2: int, e2: int, s: int, e: int)
    requires s1 >= 0 && s2 >= 0 && s1 + s2 < e1 && 0 < e2 && x.dt >= 0 && c + x.dt > s1 && c < e1
    requires s == s1 + s2 && e == Min(e1, s1 + e2)
    requires Cut(r, Local(c + x.dt, s1, e1), s2, e2) == Cut(t, c + x.dt, s, e)
    ensures Cut([Sample(x.node, Max(0, Min(c + x.dt, e1) - Max(c, s1)))] + r, Local(c, s1, e1), s2, e2) ==
            Cut([x] + t, c, s, e)
  {
    ClipOfClip(c, c + x.dt, s1, e1, s2, e2);
    SameCut(Sample(x.node, Max(0, Min(c + x.dt, e1) - Max(c, s1))), x, r, t, Local(c, s1, e1), s2, e2, c, s, e);
  }

  lemma {:induction false} CutOutside(ss: seq<Sample>, c: int, s1: int, e1: int, s2: int, e2: int)
    requires Forward(ss) && s1 >= 0 && s2 >= 0 && (s1 + s2 >= e1 || 0 >= e2)
    ensures Cut(Cut(ss, c, s1, e1), Local(c, s1, e1), s2, e2) == []
  {
    if ss != [] {
      var next := c + ss[0].dt;
      CutOutside(ss[1..], next, s1, e1, s2, e2);
      if next > s1 && c < e1 {
        var x := Sample(ss[0].node, Max(0, Min(next, e1) - Max(c, s1)));
        ClipOfClip(c, next, s1, e1, s2, e2);
        CutCons(x, Cut(ss[1..], next, s1, e1), Local(c, s1, e1), s2, e2);
      }
    }
  }

  /** A second cut is one cut at the composed range, unless one of the two ranges leaves it empty. */
  lemma CutOfCut(ss: seq<Sample>, c: int, s1: int, e1: int, s2: int, e2: int)
    requires Forward(ss) && s1 >= 0 && s2 >= 0
    ensures Cut(Cut(ss, c, s1, e1), Local(c, s1, e1), s2, e2) ==
            if s1 + s2 < e1 && 0 < e2 then Cut(ss, c, s1 + s2, Min(e1, s1 + e2)) else []
  {
    if s1 + s2 < e1 && 0 < e2 {
      CutWithin(ss, c, s1, e1, s2, e2, s1 + s2, Min(e1, s1 + e2));
    } else {
      CutOutside(ss, c, s1, e1, s2, e2);
    }
  }

  /**
    Slicing a slice equals slicing once at the composed range exactly when neither range leaves the
    composed one empty, or it overlaps no sample: an empty range inside a sample keeps that sample
    with no time.
  */
  lemma SliceOfSlice(p: Profile, s1: int, e1: int, s2: int, e2: int)
    requires Forward(p.samples) && s1 >= 0 && s2 >= 0
    ensures Slice(Slice(p, s1, e1), s2, e2) == Slice(p, s1 + s2, Min(e1, s1 + e2)) <==>
            (s1 + s2 < e1 && 0 < e2) || !Overlaps(p.samples, 0, s1 + s2, Min(e1, s1 + e2))
  {
    KeepsIffOverlaps(p.samples, 0, s1 + s2, Min(e1, s1 + e2));
    CutOfCut(p.samples, 0, s1, e1, s2, e2);
  }

  // ---- the late-sampler correction ----

  /** Past ten times the median interval, the first delta becomes one median interval and the start moves up. */
  function Corrected(p: Profile, median: int): Profile {
    if |p.samples| >= 3 && median > 0 && p.samples[0].dt > 10 * median then
      Profile(p.samples[0 := p.samples[0].(dt := median)], p.startTs + p.samples[0].dt - median)
    else p
  }

  /** The middle one of the deltas after the first, in the order `sorted` puts them in. */
  ghost predicate IsMedian(p: Profile, sorted: seq<int>, median: int) {
    && |p.samples| >= 3 && |sorted| == |p.samples| - 1
    && multiset(sorted) == multiset(seq(|p.samples| - 1, i requires 0 <= i < |p.samples| - 1 => p.samples[i + 1].dt))
    && (forall i, j :: 0 <= i < j < |sorted| ==> sorted[i] <= sorted[j])
    && median == sorted[|sorted| / 2]
  }

  method CorrectLateSampler(p: Profile, sorted: seq<int>) returns (r: Profile)
    requires |p.samples| >= 3 ==> |sorted| == |p.samples| - 1 && IsMedian(p, sorted, sorted[|sorted| / 2])
    ensures r == if |p.samples| >= 3 then Corrected(p, sorted[|sorted| / 2]) else p
  {
    r := p;
    if |p.samples| < 3 { return; }
    var d0, median := p.samples[0].dt, sorted[|sorted| / 2];
    if median > 0 && d0 > 10 * median {
      r := Profile(p.samples[0 := p.samples[0].(dt := median)], p.startTs + d0 - median);
    }
  }

  lemma {:induction false} ClockOfChangedFirst(ss: seq<Sample>, x: Sample, n: nat)
    requires 0 < n <= |ss|
    ensures Clock(ss[0 := x], n) == Clock(ss, n) - ss[0].dt + x.dt
  {
    if n > 1 { ClockOfChangedFirst(ss, x, n - 1); }
  }

  /** The correction moves no sample's end, leaves no long first delta, and does nothing the second time. */
  lemma CorrectionKeepsPositions(p: Profile, sorted: seq<int>, median: int)
    requires |p.samples| >= 3 && IsMedian(p, sorted, median)
    ensures |Corrected(p, median).samples| == |p.samples|
    ensures forall k :: 0 <= k < |p.samples| ==> EndOf(Corrected(p, median), k) == EndOf(p, k)
    ensures median > 0 ==> Corrected(p, median).samples[0].dt <= 10 * median
    ensures IsMedian(Corrected(p, median), sorted, median)
    ensures Corrected(Corrected(p, median), median) == Corrected(p, median)
  {
    var q := Corrected(p, median);
    forall k | 0 <= k < |p.samples| ensures EndOf(q, k) == EndOf(p, k) {
      ClockOfChangedFirst(p.samples, p.samples[0].(dt := median), k + 1);
    }
    assert seq(|q.samples| - 1, i requires 0 <= i < |q.samples| - 1 => q.samples[i + 1].dt) ==
           seq(|p.samples| - 1, i requires 0 <= i < |p.samples| - 1 => p.samples[i + 1].dt);
  }

  /**
    A profile is changed exactly if its first delta is more than ten times the median and that is
    positive; then that delta becomes the median and the clock starts later by as much, and nothing
    else changes.
  */
  lemma CorrectsExactly(p: Profile, sorted: seq<int>, median: int)
    requires |p.samples| >= 3 && IsMedian(p, sorted, median)
    ensures var q, d := Corrected(p, median), p.samples[0].dt;
            && (q != p <==> median > 0 && d > 10 * median)
            && (q != p ==> |q.samples| == |p.samples| && q.samples[0] == Sample(p.samples[0].node, median)
                           && q.startTs == p.startTs + (d - median) && q.samples[1..] == p.samples[1..])
  {
  }
}
