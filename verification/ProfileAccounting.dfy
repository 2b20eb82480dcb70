/** Self and total time of every node: each sample's time goes to its node and to that node's ancestors. */
module ProfileAccounting {
  import opened Options
  import opened ProfileSlice
  import opened ProfileTree
  import opened SetSums

  datatype Stat = Stat(selfUs: int, totalUs: int)
  type Stats = map<NodeId, Stat>

  /** The time of the first `k` samples taken at `n` itself. */
  ghost function SelfOf(ss: seq<Sample>, n: NodeId, k: nat): int
    requires k <= |ss|
  {
    if k == 0 then 0 else SelfOf(ss, n, k - 1) + if ss[k - 1].node == n then ss[k - 1].dt else 0
  }

  /** The time of the first `k` samples taken at `n` or below it. */
  ghost function TotalOf(ss: seq<Sample>, ps: Parents, n: NodeId, k: nat): int
    requires k <= |ss|
  {
    if k == 0 then 0 else TotalOf(ss, ps, n, k - 1) + if Above(ps, ss[k - 1].node, n) then ss[k - 1].dt else 0
  }

  function StatAt(m: Stats, n: NodeId): Stat { Lookup(m, n, Stat(0, 0)) }

  /** What the table holds for `n` after `k` samples; only nodes some sample touched are in it. */
  ghost predicate Accounted(m: Stats, ss: seq<Sample>, ps: Parents, n: NodeId, k: nat)
    requires k <= |ss|
  {
    && StatAt(m, n) == Stat(SelfOf(ss, n, k), TotalOf(ss, ps, n, k))
    && (n in m <==> exists i :: 0 <= i < k && Above(ps, ss[i].node, n))
  }

  method ComputeStats(ss: seq<Sample>, ps: Parents) returns (stats: Stats)
    ensures forall n :: Accounted(stats, ss, ps, n, |ss|)
  {
    stats := map[];
    for i := 0 to |ss|
      invariant forall n :: Accounted(stats, ss, ps, n, i)
    {
      ghost var before, k := stats, i + 1;
      stats := ChargeSample(stats, ps, ss[i]);
      forall n ensures Accounted(stats, ss, ps, n, k) {
        assert Accounted(before, ss, ps, n, i);
        MoreTouched(before, stats, ss, ps, n, i);
      }
    }
  }

  lemma MoreTouched(before: Stats, stats: Stats, ss: seq<Sample>, ps: Parents, n: NodeId, i: nat)
    requires i < |ss| && Accounted(before, ss, ps, n, i) && Charged(before, stats, ps, ss[i], n)
    ensures Accounted(stats, ss, ps, n, i + 1)
  {
    if Above(ps, ss[i].node, n) { assert 0 <= i < i + 1; }
  }

  /** One sample: self time to its own node, total time to the node and its ancestors. */
  ghost predicate Charged(before: Stats, stats: Stats, ps: Parents, x: Sample, n: NodeId) {
    var s := StatAt(before, n);
    && StatAt(stats, n) == Raised(if n == x.node then s.(selfUs := s.selfUs + x.dt) else s, x.dt, Above(ps, x.node, n))
    && (n in stats <==> n in before || Above(ps, x.node, n))
  }

  method ChargeSample(before: Stats, ps: Parents, x: Sample) returns (stats: Stats)
    ensures forall n :: Charged(before, stats, ps, x, n)
  {
    var own := StatAt(before, x.node);
    stats := before[x.node := own.(selfUs := own.selfUs + x.dt)];
    ghost var start := stats;
    stats := Climb(stats, ps, x);
    ghost var j: nat :| ClimbedFully(start, stats, ps, x, j);
    AncestorsCharged(before, start, ps, x, j);
  }

  /** The walk of `j` steps is over, no node was met twice, and the table is what it leaves. */
  ghost predicate ClimbedFully(start: Stats, stats: Stats, ps: Parents, x: Sample, j: nat) {
    WalkDone(ps, x.node, j) && AllNew(ps, x.node, j) && stats == Climbed(start, ps, x, j)
  }

  /** The walk up the parents stops where it would repeat, so it ends on any map, cycles included. */
  method Climb(start: Stats, ps: Parents, x: Sample) returns (stats: Stats)
    ensures exists j: nat :: ClimbedFully(start, stats, ps, x, j)
  {
    var current, visited: set<NodeId> := Some(x.node), {};
    stats := start;
    ghost var j := 0;
    while current.Some? && current.value !in visited
      invariant current == Up(ps, x.node, j) && visited == Met(ps, x.node, j) && AllNew(ps, x.node, j)
      invariant stats == Climbed(start, ps, x, j)
      decreases |ps| + 1 - j
    {
      var c := current.value;
      ClimbStep(ps, x.node, j, c);
      ClimbRaises(start, ps, x, j, c);
      visited := visited + {c};
      stats := RaiseTotal(stats, c, x.dt);
      current := if c in ps then Some(ps[c]) else None;
      j := j + 1;
    }
    assert ClimbedFully(start, stats, ps, x, j);
  }

  function RaiseTotal(t: Stats, c: NodeId, dt: int): Stats { t[c := Raised(StatAt(t, c), dt, true)] }

  /** The table after the first `j` steps of the walk. */
  ghost function Climbed(start: Stats, ps: Parents, x: Sample, j: nat): Stats {
    if j == 0 then start
    else
      var t := Climbed(start, ps, x, j - 1);
      match Up(ps, x.node, j - 1)
      case None => t
      case Some(c) => RaiseTotal(t, c, x.dt)
  }

  lemma ClimbStep(ps: Parents, n: NodeId, j: nat, c: NodeId)
    requires Up(ps, n, j) == Some(c) && c !in Met(ps, n, j) && AllNew(ps, n, j)
    ensures Up(ps, n, j + 1) == if c in ps then Some(ps[c]) else None
    ensures Met(ps, n, j + 1) == Met(ps, n, j) + {c}
    ensures AllNew(ps, n, j + 1) && j <= |ps|
  {
    WalkIsBounded(ps, n, j);
  }

  lemma ClimbRaises(start: Stats, ps: Parents, x: Sample, j: nat, c: NodeId)
    requires Up(ps, x.node, j) == Some(c)
    ensures Climbed(start, ps, x, j + 1) == RaiseTotal(Climbed(start, ps, x, j), c, x.dt)
  {
  }

  lemma {:induction false} ClimbRaisesOnce(start: Stats, ps: Parents, x: Sample, j: nat, n: NodeId)
    requires AllNew(ps, x.node, j)
    ensures StatAt(Climbed(start, ps, x, j), n) == Raised(StatAt(start, n), x.dt, n in Met(ps, x.node, j))
    ensures n in Climbed(start, ps, x, j) <==> n in start || n in Met(ps, x.node, j)
  {
    if j > 0 { ClimbRaisesOnce(start, ps, x, j - 1, n); }
  }

  lemma AncestorsCharged(before: Stats, start: Stats, ps: Parents, x: Sample, j: nat)
    requires WalkDone(ps, x.node, j) && AllNew(ps, x.node, j)
    requires start == before[x.node := StatAt(before, x.node).(selfUs := StatAt(before, x.node).selfUs + x.dt)]
    ensures forall n :: Charged(before, Climbed(start, ps, x, j), ps, x, n)
  {
    WalkMeetsAncestors(ps, x.node, j);
    assert Above(ps, x.node, x.node) by { assert Up(ps, x.node, 0) == Some(x.node); }
    forall n ensures Charged(before, Climbed(start, ps, x, j), ps, x, n) {
      ClimbRaisesOnce(start, ps, x, j, n);
    }
  }

  function Raised(s: Stat, dt: int, up: bool): Stat { if up then s.(totalUs := s.totalUs + dt) else s }

  // ---- what the totals satisfy ----

  /** `n` is not its own proper ancestor. */
  ghost predicate OffCycle(ps: Parents, n: NodeId) {
    forall k: nat :: k > 0 ==> Up(ps, n, k) != Some(n)
  }

  function Children(ps: Parents, n: NodeId): set<NodeId> {
    set c | c in ps && ps[c] == n
  }

  lemma AboveParent(ps: Parents, leaf: NodeId, c: NodeId)
    requires c in ps && Above(ps, leaf, c)
    ensures Above(ps, leaf, ps[c])
  {
    var k: nat :| Up(ps, leaf, k) == Some(c);
    assert Up(ps, leaf, k + 1) == Some(ps[c]);
  }

  /** No child of `n` is above `n` itself. */
  lemma NoChildAbove(ps: Parents, n: NodeId, c: NodeId)
    requires OffCycle(ps, n) && c in Children(ps, n)
    ensures !Above(ps, n, c)
  {
    if Above(ps, n, c) {
      var k: nat :| Up(ps, n, k) == Some(c);
      assert Up(ps, n, k + 1) == Some(n);
    }
  }

  /** Two different steps of one walk cannot both stand at `n`. */
  lemma MeetsOnce(ps: Parents, leaf: NodeId, n: NodeId, a: nat, b: nat)
    requires OffCycle(ps, n) && Up(ps, leaf, a) == Some(n) && Up(ps, leaf, b) == Some(n) && a <= b
    ensures a == b
  {
    UpUp(ps, leaf, n, a, b - a);
  }

  /** A walk reaches `n` from below through one child. */
  lemma OneChildAbove(ps: Parents, leaf: NodeId, n: NodeId) returns (c: NodeId)
    requires OffCycle(ps, n) && leaf != n && Above(ps, leaf, n)
    ensures c in Children(ps, n) && Above(ps, leaf, c)
    ensures forall d :: d in Children(ps, n) && Above(ps, leaf, d) ==> d == c
  {
    var k: nat :| Up(ps, leaf, k) == Some(n);
    assert k > 0;
    c := Up(ps, leaf, k - 1).value;
    forall d | d in Children(ps, n) && Above(ps, leaf, d) ensures d == c {
      var m: nat :| Up(ps, leaf, m) == Some(d);
      assert Up(ps, leaf, m + 1) == Some(n);
      if k <= m + 1 { MeetsOnce(ps, leaf, n, k, m + 1); } else { MeetsOnce(ps, leaf, n, m + 1, k); }
    }
  }

  /** What one sample adds to the total of `n`. */
  ghost function Share(ps: Parents, x: Sample, n: NodeId): int {
    if Above(ps, x.node, n) then x.dt else 0
  }

  lemma ShareSplits(ps: Parents, x: Sample, n: NodeId)
    requires OffCycle(ps, n)
    ensures Share(ps, x, n) == (if x.node == n then x.dt else 0) + Sum(Children(ps, n), c => Share(ps, x, c))
  {
    var f := c => Share(ps, x, c);
    if x.node == n {
      assert Up(ps, n, 0) == Some(n);
      forall c | c in Children(ps, n) ensures f(c) == 0 { NoChildAbove(ps, n, c); }
      SumZero(Children(ps, n), f);
    } else if Above(ps, x.node, n) {
      var c := OneChildAbove(ps, x.node, n);
      SumOne(Children(ps, n), f, c);
    } else {
      forall c | c in Children(ps, n) ensures f(c) == 0 {
        if Above(ps, x.node, c) { AboveParent(ps, x.node, c); }
      }
      SumZero(Children(ps, n), f);
    }
  }

  /** A node's total is its own time and its children's totals, wherever the node is on no cycle. */
  lemma {:induction false} TotalIsSelfAndChildren(ss: seq<Sample>, ps: Parents, n: NodeId, k: nat)
    requires k <= |ss| && OffCycle(ps, n)
    ensures TotalOf(ss, ps, n, k) == SelfOf(ss, n, k) + Sum(Children(ps, n), c => TotalOf(ss, ps, c, k))
  {
    var cs := Children(ps, n);
    if k == 0 {
      SumZero(cs, c => TotalOf(ss, ps, c, 0));
    } else {
      TotalIsSelfAndChildren(ss, ps, n, k - 1);
      ShareSplits(ps, ss[k - 1], n);
      SumPlus(cs, c => TotalOf(ss, ps, c, k - 1), c => Share(ps, ss[k - 1], c), c => TotalOf(ss, ps, c, k));
    }
  }

  /** Every microsecond is somebody's self time. */
  lemma {:induction false} SelfTimesAddUp(ss: seq<Sample>, nodes: set<NodeId>, k: nat)
    requires k <= |ss| && forall i :: 0 <= i < k ==> ss[i].node in nodes
    ensures Sum(nodes, n => SelfOf(ss, n, k)) == Clock(ss, k)
  {
    if k == 0 {
      SumZero(nodes, n => SelfOf(ss, n, 0));
    } else {
      var x := ss[k - 1];
      var one := n => if x.node == n then x.dt else 0;
      SelfTimesAddUp(ss, nodes, k - 1);
      SumPlus(nodes, n => SelfOf(ss, n, k - 1), one, n => SelfOf(ss, n, k));
      SumOne(nodes, one, x.node);
    }
  }

  /** The walk from `n` ends at a node with no parent. */
  ghost predicate Ends(ps: Parents, n: NodeId) {
    exists k: nat :: Up(ps, n, k) == None
  }

  lemma {:induction false} RootOf(ps: Parents, n: NodeId, k: nat) returns (r: NodeId)
    requires Up(ps, n, k) == None
    ensures r !in ps && Above(ps, n, r)
    ensures forall d :: d !in ps && Above(ps, n, d) ==> d == r
  {
    if Up(ps, n, k - 1) == None {
      r := RootOf(ps, n, k - 1);
    } else {
      r := Up(ps, n, k - 1).value;
      forall d | d !in ps && Above(ps, n, d) ensures d == r {
        var m: nat :| Up(ps, n, m) == Some(d);
        assert Up(ps, n, m + 1) == None;
        if m + 1 <= k - 1 { UpStaysNone(ps, n, m + 1, k - 1); }
        if k <= m { UpStaysNone(ps, n, k, m); }
      }
    }
  }

  /** `roots` are the nodes without a parent that the samples' walks end at. */
  ghost predicate AreRoots(ss: seq<Sample>, ps: Parents, roots: set<NodeId>) {
    forall r :: r in roots <==> r !in ps && exists i :: 0 <= i < |ss| && Above(ps, ss[i].node, r)
  }

  lemma OneRootShares(ss: seq<Sample>, ps: Parents, roots: set<NodeId>, i: nat)
    requires i < |ss| && Ends(ps, ss[i].node) && AreRoots(ss, ps, roots)
    ensures Sum(roots, r => Share(ps, ss[i], r)) == ss[i].dt
  {
    var x := ss[i];
    var j: nat :| Up(ps, x.node, j) == None;
    var r := RootOf(ps, x.node, j);
    SumOne(roots, r => Share(ps, x, r), r);
  }

  /** Where every walk ends, the roots' totals hold all the time there is. */
  lemma {:induction false} RootTotalsAddUp(ss: seq<Sample>, ps: Parents, roots: set<NodeId>, k: nat)
    requires k <= |ss| && forall i :: 0 <= i < k ==> Ends(ps, ss[i].node)
    requires AreRoots(ss, ps, roots)
    ensures Sum(roots, r => TotalOf(ss, ps, r, k)) == Clock(ss, k)
  {
    if k == 0 {
      SumZero(roots, r => TotalOf(ss, ps, r, 0));
    } else {
      RootTotalsAddUp(ss, ps, roots, k - 1);
      OneRootShares(ss, ps, roots, k - 1);
      SumPlus(roots, r => TotalOf(ss, ps, r, k - 1), r => Share(ps, ss[k - 1], r), r => TotalOf(ss, ps, r, k));
    }
  }
}
