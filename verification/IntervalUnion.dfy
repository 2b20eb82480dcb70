/** The time a thread is covered by its slices, from one pass over them in order of their starts. */
module IntervalUnion {
  import opened Numbers
  import opened Options

  /** A slice's microseconds, from `start` up to but not including `stop`. */
  datatype Slice = Slice(start: int, stop: int)

  function Ticks(lo: int, hi: int): (r: set<int>)
    ensures forall t :: t in r <==> lo <= t < hi
    ensures |r| == Max(0, hi - lo)
    decreases hi - lo
  {
    if lo < hi then Ticks(lo, hi - 1) + {hi - 1} else {}
  }

  /** Every microsecond some slice covers. */
  function Covered(ss: seq<Slice>): set<int> {
    if ss == [] then {} else Covered(ss[..|ss| - 1]) + Ticks(ss[|ss| - 1].start, ss[|ss| - 1].stop)
  }

  /** Some of the first `n` slices holds the microsecond. */
  ghost predicate HeldBy(ss: seq<Slice>, t: int, n: nat)
    requires n <= |ss|
  {
    exists i :: 0 <= i < n && ss[i].start <= t < ss[i].stop
  }

  lemma HeldByOneMore(ss: seq<Slice>, t: int, n: nat)
    requires n < |ss|
    ensures HeldBy(ss, t, n + 1) <==> HeldBy(ss, t, n) || ss[n].start <= t < ss[n].stop
  {
  }

  lemma {:induction false} CoveredUpTo(ss: seq<Slice>, t: int, n: nat)
    requires n <= |ss|
    ensures t in Covered(ss[..n]) <==> HeldBy(ss, t, n)
  {
    if n > 0 {
      CoveredUpTo(ss, t, n - 1);
      HeldByOneMore(ss, t, n - 1);
      assert ss[..n][..n - 1] == ss[..n - 1];
    }
  }

  lemma CoveredMeans(ss: seq<Slice>, t: int)
    ensures t in Covered(ss) <==> HeldBy(ss, t, |ss|)
  {
    CoveredUpTo(ss, t, |ss|);
    assert ss[..|ss|] == ss;
  }

  /** `a` or minus infinity, whichever is larger than `b`. */
  function Later(a: Option<int>, b: int): int {
    match a case Some(x) => Max(x, b) case None => b
  }

  ghost predicate ByStart(ss: seq<Slice>) {
    forall i, j :: 0 <= i < j < |ss| ==> ss[i].start <= ss[j].start
  }

  /** What the pass knows: nothing reaches past `end`, and there is no gap from the last start up to it. */
  ghost predicate Frontier(ss: seq<Slice>, end: Option<int>) {
    if ss == [] then end == None else end.Some? && Edge(Covered(ss), ss[|ss| - 1].start, end.value)
  }

  /** Nothing reaches past `end`, and from `from` on nothing is missing before it. */
  ghost predicate Edge(c: set<int>, from: int, end: int) {
    (forall t :: t in c ==> t < end) && (forall t :: from <= t < end ==> t in c)
  }

  /** What is new about one more slice lies past the frontier. */
  lemma NewPart(ss: seq<Slice>, end: Option<int>, x: Slice, t: int)
    requires Frontier(ss, end) && ByStart(ss + [x])
    ensures t in Covered(ss) ==> !(Later(end, x.start) <= t < x.stop)
    ensures x.start <= t < x.stop && t !in Covered(ss) ==> Later(end, x.start) <= t
  {
    if ss != [] { assert (ss + [x])[|ss| - 1].start <= (ss + [x])[|ss|].start; }
  }

  lemma CoveredOfMore(ss: seq<Slice>, x: Slice)
    ensures Covered(ss + [x]) == Covered(ss) + Ticks(x.start, x.stop)
  {
    assert (ss + [x])[..|ss|] == ss;
  }

  lemma EdgeMoves(c: set<int>, from: int, end: int, x: Slice)
    requires Edge(c, from, end) && from <= x.start
    ensures Edge(c + Ticks(x.start, x.stop), x.start, Max(end, x.stop))
  {
  }

  lemma FrontierReaches(ss: seq<Slice>, end: Option<int>, x: Slice)
    requires Frontier(ss, end) && ByStart(ss + [x])
    ensures Frontier(ss + [x], Some(Later(end, x.stop)))
  {
    CoveredOfMore(ss, x);
    if ss == [] {
      assert Edge(Covered(ss) + Ticks(x.start, x.stop), x.start, x.stop);
    } else {
      assert (ss + [x])[|ss| - 1].start <= (ss + [x])[|ss|].start;
      EdgeMoves(Covered(ss), ss[|ss| - 1].start, end.value, x);
    }
  }

  /** One more slice adds exactly the part of it past the frontier. */
  lemma FrontierMoves(ss: seq<Slice>, end: Option<int>, x: Slice)
    requires Frontier(ss, end) && ByStart(ss + [x])
    ensures Frontier(ss + [x], Some(Later(end, x.stop)))
    ensures |Covered(ss + [x])| == |Covered(ss)| + Max(0, x.stop - Later(end, x.start))
  {
    FrontierReaches(ss, end, x);
    var added := Ticks(Later(end, x.start), x.stop);
    CoveredOfMore(ss, x);
    forall t | t in Covered(ss + [x]) ensures t in Covered(ss) + added { NewPart(ss, end, x, t); }
    forall t | t in Covered(ss) ensures t !in added { NewPart(ss, end, x, t); }
    assert Covered(ss + [x]) == Covered(ss) + added && Covered(ss) !! added;
  }

  method BusyTime(slices: seq<Slice>, sorted: seq<Slice>) returns (busy: int)
    requires multiset(sorted) == multiset(slices) && ByStart(sorted)
    ensures busy == |Covered(slices)|
  {
    busy := 0;
    var end: Option<int> := None;
    for i := 0 to |sorted|
      invariant busy == |Covered(sorted[..i])| && Frontier(sorted[..i], end)
    {
      assert sorted[..i] + [sorted[i]] == sorted[..i + 1];
      FrontierMoves(sorted[..i], end, sorted[i]);
      busy := busy + Max(0, sorted[i].stop - Later(end, sorted[i].start));
      end := Some(Later(end, sorted[i].stop));
    }
    assert sorted[..|sorted|] == sorted;
    CoveredIgnoresOrder(slices, sorted);
  }

  lemma CoveredIgnoresOrder(a: seq<Slice>, b: seq<Slice>)
    requires multiset(a) == multiset(b)
    ensures Covered(a) == Covered(b)
  {
    forall t ensures t in Covered(a) <==> t in Covered(b) {
      CoveredMeans(a, t);
      CoveredMeans(b, t);
      if i :| 0 <= i < |a| && a[i].start <= t < a[i].stop { assert a[i] in multiset(b); }
      if i :| 0 <= i < |b| && b[i].start <= t < b[i].stop { assert b[i] in multiset(a); }
    }
  }

  function Lengths(ss: seq<Slice>): int {
    if ss == [] then 0 else Lengths(ss[..|ss| - 1]) + Max(0, ss[|ss| - 1].stop - ss[|ss| - 1].start)
  }

  /** Some microsecond is in both slices. */
  predicate Meet(a: Slice, b: Slice) {
    Max(a.start, b.start) < a.stop && Max(a.start, b.start) < b.stop
  }

  ghost predicate Apart(ss: seq<Slice>) {
    forall i, j :: 0 <= i < j < |ss| ==> !Meet(ss[i], ss[j])
  }

  ghost predicate Clear(ss: seq<Slice>, x: Slice) {
    forall i :: 0 <= i < |ss| ==> !Meet(ss[i], x)
  }

  lemma ClearMeans(ss: seq<Slice>, x: Slice, ticks: set<int>)
    requires forall t :: t in ticks <==> x.start <= t < x.stop
    ensures Covered(ss) !! ticks <==> Clear(ss, x)
  {
    if !Clear(ss, x) {
      var i :| 0 <= i < |ss| && Meet(ss[i], x);
      CoveredMeans(ss, Max(ss[i].start, x.start));
    } else if t :| t in Covered(ss) && t in ticks {
      CoveredMeans(ss, t);
      assert false;
    }
  }

  lemma ApartOfMore(ss: seq<Slice>, x: Slice)
    ensures Apart(ss + [x]) <==> Apart(ss) && Clear(ss, x)
  {
    var all := ss + [x];
    if Apart(all) {
      forall i, j | 0 <= i < j < |ss| ensures !Meet(ss[i], ss[j]) {
        assert all[i] == ss[i] && all[j] == ss[j];
      }
      forall i | 0 <= i < |ss| ensures !Meet(ss[i], x) {
        assert all[i] == ss[i] && all[|ss|] == x;
      }
    }
  }

  lemma OneMoreLength(ss: seq<Slice>, x: Slice)
    ensures |Covered(ss + [x])| <= |Covered(ss)| + Max(0, x.stop - x.start)
    ensures |Covered(ss + [x])| == |Covered(ss)| + Max(0, x.stop - x.start) <==> Clear(ss, x)
  {
    CoveredOfMore(ss, x);
    UnionSize(Covered(ss), Ticks(x.start, x.stop));
    ClearMeans(ss, x, Ticks(x.start, x.stop));
  }

  ghost predicate CountsOnce(ss: seq<Slice>) {
    |Covered(ss)| <= Lengths(ss) && (|Covered(ss)| == Lengths(ss) <==> Apart(ss))
  }

  lemma CountsOnceOfMore(ss: seq<Slice>, x: Slice)
    requires CountsOnce(ss)
    ensures CountsOnce(ss + [x])
  {
    OneMoreLength(ss, x);
    ApartOfMore(ss, x);
    assert (ss + [x])[..|ss|] == ss;
  }

  /** Adding up the lengths counts time twice exactly when two slices meet. */
  lemma {:induction false} SumDoubleCounts(ss: seq<Slice>)
    ensures |Covered(ss)| <= Lengths(ss)
    ensures |Covered(ss)| == Lengths(ss) <==> Apart(ss)
  {
    if ss != [] {
      var rest, last := ss[..|ss| - 1], ss[|ss| - 1];
      SumDoubleCounts(rest);
      CountsOnceOfMore(rest, last);
      assert rest + [last] == ss;
    }
  }

  lemma UnionSize<T>(a: set<T>, b: set<T>)
    ensures |a + b| <= |a| + |b|
    ensures |a + b| == |a| + |b| <==> a !! b
  {
    assert a + b == a + (b - a) && |b - a| + |a * b| == |b| by { assert b == (b - a) + (a * b); }
    if !(a !! b) { var x :| x in a * b; }
  }
}
