/**
  The deferrable census: how much of one bucket's self time is spent below the marker frames, split
  by region, and the bucket's own time from the per-node table.  Which frames are in the bucket and
  which are markers is given by node.
*/
module Deferrable {
  import opened Options
  import opened ProfileSlice
  import opened ProfileTree
  import opened ProfileAccounting
  import opened SetSums

  /** Which frames are in the bucket, which are markers, and what a sample's own frame is called in the tallies. */
  datatype Marks = Marks(bucket: NodeId -> bool, drain: NodeId -> bool, boundary: NodeId -> bool, moves: NodeId -> bool,
                         leafName: NodeId -> string)

  datatype Found = Found(inDrain: bool, inBoundary: bool, inMoves: bool)

  datatype Region = UnderDrain | UnderBoundary | Outside

  datatype Census = Census(byRegion: map<Region, int>, offGuest: int, moves: int, keeps: int,
                           drainLeaves: map<string, int>, outsideLeaves: map<string, int>)

  // ---- what the census counts ----

  /** Some node on the way up from `leaf` is marked. */
  ghost predicate Under(ps: Parents, leaf: NodeId, mark: NodeId -> bool) {
    exists a :: Above(ps, leaf, a) && mark(a)
  }

  ghost function FoundAt(ps: Parents, mk: Marks, leaf: NodeId): Found {
    Found(Under(ps, leaf, mk.drain), Under(ps, leaf, mk.boundary), Under(ps, leaf, mk.moves))
  }

  /** The drain is nested inside the boundary, so it is asked for first. */
  function RegionOf(f: Found): Region {
    if f.inDrain then UnderDrain else if f.inBoundary then UnderBoundary else Outside
  }

  predicate InBucket(known: set<NodeId>, mk: Marks, n: NodeId) {
    n in known && mk.bucket(n)
  }

  predicate Counted(known: set<NodeId>, mk: Marks, x: Sample) {
    InBucket(known, mk, x.node) && x.dt > 0
  }

  /** The time of those of the first `k` samples that satisfy `p`. */
  ghost function TimeWhere(ss: seq<Sample>, p: Sample -> bool, k: nat): int
    requires k <= |ss|
  {
    if k == 0 then 0 else TimeWhere(ss, p, k - 1) + if p(ss[k - 1]) then ss[k - 1].dt else 0
  }

  ghost function RegionTime(ss: seq<Sample>, ps: Parents, known: set<NodeId>, mk: Marks, r: Region, k: nat): int
    requires k <= |ss|
  {
    TimeWhere(ss, (x: Sample) => Counted(known, mk, x) && RegionOf(FoundAt(ps, mk, x.node)) == r, k)
  }

  ghost function OffGuestTime(ss: seq<Sample>, ps: Parents, known: set<NodeId>, mk: Marks, k: nat): int
    requires k <= |ss|
  {
    TimeWhere(ss, (x: Sample) => Counted(known, mk, x)
        && (Under(ps, x.node, mk.drain) || Under(ps, x.node, mk.moves)), k)
  }

  ghost function MovesTime(ss: seq<Sample>, ps: Parents, known: set<NodeId>, mk: Marks, k: nat): int
    requires k <= |ss|
  {
    TimeWhere(ss, (x: Sample) => Counted(known, mk, x) && Under(ps, x.node, mk.moves), k)
  }

  /** The part of a region's time sampled in frames of one name. */
  ghost function LeafTime(
    ss: seq<Sample>, ps: Parents, known: set<NodeId>, mk: Marks, r: Region, name: string, k: nat): int
    requires k <= |ss|
  {
    TimeWhere(ss, (x: Sample) => Counted(known, mk, x) && RegionOf(FoundAt(ps, mk, x.node)) == r
        && mk.leafName(x.node) == name, k)
  }

  ghost predicate CensusOf(c: Census, ss: seq<Sample>, ps: Parents, known: set<NodeId>, mk: Marks, k: nat)
    requires k <= |ss|
  {
    && (forall r :: Lookup(c.byRegion, r, 0) == RegionTime(ss, ps, known, mk, r, k))
    && c.offGuest == OffGuestTime(ss, ps, known, mk, k)
    && c.moves == MovesTime(ss, ps, known, mk, k)
    && c.keeps == c.offGuest - c.moves
    && Tallied(c.drainLeaves, ss, ps, known, mk, UnderDrain, k)
        && Tallied(c.outsideLeaves, ss, ps, known, mk, Outside, k)
  }

  ghost predicate Tallied(
    leaves: map<string, int>, ss: seq<Sample>, ps: Parents, known: set<NodeId>, mk: Marks, r: Region, k: nat)
    requires k <= |ss|
  {
    forall name :: Lookup(leaves, name, 0) == LeafTime(ss, ps, known, mk, r, name, k)
  }

  /** Every node on the way up from `leaf` is in the node table. */
  ghost predicate WayUpKnown(ps: Parents, known: set<NodeId>, leaf: NodeId) {
    forall a :: Above(ps, leaf, a) ==> a in known
  }

  // ---- the walk ----

  ghost predicate Any(s: set<NodeId>, mark: NodeId -> bool) {
    exists a :: a in s && mark(a)
  }

  lemma AnyOfMore(s: set<NodeId>, mark: NodeId -> bool, c: NodeId)
    ensures Any(s + {c}, mark) <==> Any(s, mark) || mark(c)
  {
    if Any(s, mark) { var a :| a in s && mark(a); assert a in s + {c}; }
    if mark(c) { assert c in s + {c}; }
  }

  lemma UnderIsAny(ps: Parents, leaf: NodeId, mark: NodeId -> bool, j: nat)
    requires WalkDone(ps, leaf, j)
    ensures Under(ps, leaf, mark) <==> Any(Met(ps, leaf, j), mark)
  {
    WalkMeetsAncestors(ps, leaf, j);
    if Any(Met(ps, leaf, j), mark) { var a :| a in Met(ps, leaf, j) && mark(a); assert Above(ps, leaf, a); }
  }

  ghost predicate FoundSoFar(f: Found, mk: Marks, s: set<NodeId>) {
    f == Found(Any(s, mk.drain), Any(s, mk.boundary), Any(s, mk.moves))
  }

  function Spot(f: Found, mk: Marks, c: NodeId): Found {
    Found(f.inDrain || mk.drain(c), f.inBoundary || mk.boundary(c), f.inMoves || mk.moves(c))
  }

  lemma SpotFinds(f: Found, mk: Marks, s: set<NodeId>, c: NodeId)
    requires FoundSoFar(f, mk, s)
    ensures FoundSoFar(Spot(f, mk, c), mk, s + {c})
  {
    AnyOfMore(s, mk.drain, c);
    AnyOfMore(s, mk.boundary, c);
    AnyOfMore(s, mk.moves, c);
  }

  lemma AllSpotted(ps: Parents, known: set<NodeId>, f: Found, mk: Marks, leaf: NodeId, j: nat)
    requires WalkDone(ps, leaf, j) && FoundSoFar(f, mk, Met(ps, leaf, j)) && Met(ps, leaf, j) <= known
    ensures f == FoundAt(ps, mk, leaf) && WayUpKnown(ps, known, leaf)
  {
    UnderIsAny(ps, leaf, mk.drain, j);
    UnderIsAny(ps, leaf, mk.boundary, j);
    UnderIsAny(ps, leaf, mk.moves, j);
    WalkMeetsAncestors(ps, leaf, j);
  }

  /** Walks to the root without stopping at a marker; a node missing from the table fails the walk. */
  method FindMarkers(ps: Parents, known: set<NodeId>, mk: Marks, leaf: NodeId) returns (r: Option<Found>)
    ensures r.Some? <==> WayUpKnown(ps, known, leaf)
    ensures r.Some? ==> r.value == FoundAt(ps, mk, leaf)
  {
    var current, seen: set<NodeId>, f := Some(leaf), {}, Found(false, false, false);
    ghost var j := 0;
    while current.Some? && current.value !in seen
      invariant current == Up(ps, leaf, j) && seen == Met(ps, leaf, j) && AllNew(ps, leaf, j)
      invariant FoundSoFar(f, mk, seen) && seen <= known
      decreases |ps| + 1 - j
    {
      var c := current.value;
      ClimbStep(ps, leaf, j, c);
      if c !in known {
        assert Above(ps, leaf, c);
        return None;
      }
      SpotFinds(f, mk, seen, c);
      seen := seen + {c};
      f := Spot(f, mk, c);
      current := if c in ps then Some(ps[c]) else None;
      j := j + 1;
    }
    AllSpotted(ps, known, f, mk, leaf, j);
    r := Some(f);
  }

  // ---- the census ----

  function Tally(leaves: map<string, int>, counts: bool, name: string, dt: int): map<string, int> {
    if counts then leaves[name := Lookup(leaves, name, 0) + dt] else leaves
  }

  function Charge(c: Census, f: Found, name: string, dt: int): Census {
    Census(c.byRegion[RegionOf(f) := Lookup(c.byRegion, RegionOf(f), 0) + dt],
           if f.inDrain || f.inMoves then c.offGuest + dt else c.offGuest,
           if f.inMoves then c.moves + dt else c.moves,
           if !f.inMoves && f.inDrain then c.keeps + dt else c.keeps,
           Tally(c.drainLeaves, RegionOf(f) == UnderDrain, name, dt),
           Tally(c.outsideLeaves, RegionOf(f) == Outside, name, dt))
  }

  lemma TallyCounts(
    leaves: map<string, int>, ss: seq<Sample>, ps: Parents, known: set<NodeId>, mk: Marks, r: Region, k: nat)
    requires k < |ss| && Tallied(leaves, ss, ps, known, mk, r, k)
    ensures var x := ss[k];
            var counts := Counted(known, mk, x) && RegionOf(FoundAt(ps, mk, x.node)) == r;
            Tallied(Tally(leaves, counts, mk.leafName(x.node), x.dt), ss, ps, known, mk, r, k + 1)
  {
    var x := ss[k];
    var counts := Counted(known, mk, x) && RegionOf(FoundAt(ps, mk, x.node)) == r;
    forall name ensures Lookup(Tally(leaves, counts, mk.leafName(x.node), x.dt), name, 0) ==
        LeafTime(ss, ps, known, mk, r, name, k + 1) {
      assert Lookup(leaves, name, 0) == LeafTime(ss, ps, known, mk, r, name, k);
      LeafTimeOfMore(ss, ps, known, mk, r, name, k);
    }
  }

  lemma LeafTimeOfMore(ss: seq<Sample>, ps: Parents, known: set<NodeId>, mk: Marks, r: Region, name: string, k: nat)
    requires k < |ss|
    ensures LeafTime(ss, ps, known, mk, r, name, k + 1) == LeafTime(ss, ps, known, mk, r, name, k)
          + if Counted(known, mk, ss[k]) && RegionOf(FoundAt(ps, mk, ss[k].node)) == r
               && mk.leafName(ss[k].node) == name then ss[k].dt else 0
  {
    assert ss[k] == ss[k + 1 - 1];
  }

  lemma ChargeCounts(c: Census, ss: seq<Sample>, ps: Parents, known: set<NodeId>, mk: Marks, k: nat)
    requires k < |ss| && CensusOf(c, ss, ps, known, mk, k)
    ensures Counted(known, mk, ss[k]) ==>
              CensusOf(Charge(c, FoundAt(ps, mk, ss[k].node), mk.leafName(ss[k].node), ss[k].dt), ss, ps, known, mk,
                  k + 1)
    ensures !Counted(known, mk, ss[k]) ==> CensusOf(c, ss, ps, known, mk, k + 1)
  {
    var x, f := ss[k], FoundAt(ps, mk, ss[k].node);
    var d := if Counted(known, mk, x) then Charge(c, f, mk.leafName(x.node), x.dt) else c;
    assert d.offGuest == OffGuestTime(ss, ps, known, mk, k + 1) && d.moves == MovesTime(ss, ps, known, mk, k + 1);
    forall r ensures Lookup(d.byRegion, r, 0) == RegionTime(ss, ps, known, mk, r, k + 1) {
      RegionTimeOfMore(ss, ps, known, mk, r, k);
    }
    TallyCounts(c.drainLeaves, ss, ps, known, mk, UnderDrain, k);
    TallyCounts(c.outsideLeaves, ss, ps, known, mk, Outside, k);
  }

  lemma RegionTimeOfMore(ss: seq<Sample>, ps: Parents, known: set<NodeId>, mk: Marks, r: Region, k: nat)
    requires k < |ss|
    ensures RegionTime(ss, ps, known, mk, r, k + 1) == RegionTime(ss, ps, known, mk, r, k)
          + if Counted(known, mk, ss[k]) && RegionOf(FoundAt(ps, mk, ss[k].node)) == r then ss[k].dt else 0
  {
    assert ss[k] == ss[k + 1 - 1];
  }

  /** The walk of some counted sample leaves the node table. */
  ghost predicate LosesItsWay(ss: seq<Sample>, ps: Parents, known: set<NodeId>, mk: Marks) {
    exists i :: 0 <= i < |ss| && Counted(known, mk, ss[i]) && !WayUpKnown(ps, known, ss[i].node)
  }

  /** One sample: skipped, charged, or lost on its way up. */
  method CountSample(
    c: Census, ss: seq<Sample>, i: nat, ps: Parents, known: set<NodeId>, mk: Marks) returns (r: Option<Census>)
    requires i < |ss| && CensusOf(c, ss, ps, known, mk, i)
    ensures r == None <==> Counted(known, mk, ss[i]) && !WayUpKnown(ps, known, ss[i].node)
    ensures r.Some? ==> CensusOf(r.value, ss, ps, known, mk, i + 1)
  {
    ChargeCounts(c, ss, ps, known, mk, i);
    var x := ss[i];
    if !InBucket(known, mk, x.node) || x.dt <= 0 { return Some(c); }
    var f := FindMarkers(ps, known, mk, x.node);
    if f == None { return None; }
    r := Some(Charge(c, f.value, mk.leafName(x.node), x.dt));
  }

  method ComputeDeferrable(ss: seq<Sample>, ps: Parents, known: set<NodeId>, mk: Marks) returns (r: Option<Census>)
    ensures r == None <==> LosesItsWay(ss, ps, known, mk)
    ensures r.Some? ==> CensusOf(r.value, ss, ps, known, mk, |ss|)
  {
    r := Some(Census(map[], 0, 0, 0, map[], map[]));
    for i := 0 to |ss|
      invariant r.Some? && CensusOf(r.value, ss, ps, known, mk, i)
      invariant forall k :: 0 <= k < i && Counted(known, mk, ss[k]) ==> WayUpKnown(ps, known, ss[k].node)
    {
      r := CountSample(r.value, ss, i, ps, known, mk);
      if r == None { return; }
    }
  }

  /** The bucket's self time from the per-node table, entries without any time left aside. */
  method BucketTime(stats: Stats, known: set<NodeId>, mk: Marks) returns (t: int)
    ensures t == Sum(stats.Keys, n => if InBucket(known, mk, n) then StatAt(stats, n).selfUs else 0)
  {
    t := 0;
    var rest := stats.Keys;
    ghost var f := n => if InBucket(known, mk, n) then StatAt(stats, n).selfUs else 0;
    while rest != {}
      invariant rest <= stats.Keys && t + Sum(rest, f) == Sum(stats.Keys, f)
      decreases rest
    {
      var n :| n in rest;
      SumPick(rest, f, n);
      if InBucket(known, mk, n) && !(stats[n].selfUs == 0 && stats[n].totalUs == 0) {
        t := t + stats[n].selfUs;
      }
      rest := rest - {n};
    }
  }

  // ---- the census against the bucket ----

  /** What is charged by region is the bucket's positive time. */
  lemma {:induction false} RegionsCover(ss: seq<Sample>, ps: Parents, known: set<NodeId>, mk: Marks, k: nat)
    requires k <= |ss|
    ensures RegionTime(ss, ps, known, mk, UnderDrain, k) + RegionTime(ss, ps, known, mk, UnderBoundary, k)
          + RegionTime(ss, ps, known, mk, Outside, k) == TimeWhere(ss, (x: Sample) => Counted(known, mk, x), k)
  {
    if k > 0 { RegionsCover(ss, ps, known, mk, k - 1); }
  }

  /** The per-node sums of the bucket are its per-sample sum. */
  lemma {:induction false} BucketIsSampled(ss: seq<Sample>, nodes: set<NodeId>, known: set<NodeId>, mk: Marks, k: nat)
    requires k <= |ss| && forall i :: 0 <= i < k ==> ss[i].node in nodes
    ensures Sum(nodes, n => if InBucket(known, mk, n) then SelfOf(ss, n, k) else 0) ==
            TimeWhere(ss, (x: Sample) => InBucket(known, mk, x.node), k)
  {
    if k == 0 {
      SumZero(nodes, n => if InBucket(known, mk, n) then SelfOf(ss, n, 0) else 0);
    } else {
      var x := ss[k - 1];
      var one := n => if n == x.node && InBucket(known, mk, n) then x.dt else 0;
      BucketIsSampled(ss, nodes, known, mk, k - 1);
      SumPlus(nodes, n => if InBucket(known, mk, n) then SelfOf(ss, n, k - 1) else 0, one,
              n => if InBucket(known, mk, n) then SelfOf(ss, n, k) else 0);
      SumOne(nodes, one, x.node);
    }
  }

  ghost predicate BucketForward(ss: seq<Sample>, known: set<NodeId>, mk: Marks, k: nat)
    requires k <= |ss|
  {
    forall i :: 0 <= i < k && InBucket(known, mk, ss[i].node) ==> ss[i].dt >= 0
  }

  lemma {:induction false} PositiveTime(ss: seq<Sample>, known: set<NodeId>, mk: Marks, k: nat)
    requires k <= |ss|
    ensures TimeWhere(ss, (x: Sample) => Counted(known, mk, x), k) >=
            TimeWhere(ss, (x: Sample) => InBucket(known, mk, x.node), k)
    ensures TimeWhere(ss, (x: Sample) => Counted(known, mk, x), k) ==
            TimeWhere(ss, (x: Sample) => InBucket(known, mk, x.node), k)
            <==> BucketForward(ss, known, mk, k)
  {
    if k > 0 { PositiveTime(ss, known, mk, k - 1); }
  }

  /**
    The regions sum to the bucket exactly when no sample of the bucket runs backwards: the walk skips
    such samples, the per-node table does not.
  */
  lemma RegionsSumToBucket(
    ss: seq<Sample>, ps: Parents, known: set<NodeId>, mk: Marks, stats: Stats, c: Census, bucket: int)
    requires forall n :: Accounted(stats, ss, ps, n, |ss|)
    requires CensusOf(c, ss, ps, known, mk, |ss|)
    requires bucket == Sum(stats.Keys, n => if InBucket(known, mk, n) then StatAt(stats, n).selfUs else 0)
    ensures Lookup(c.byRegion, UnderDrain, 0) + Lookup(c.byRegion, UnderBoundary, 0) +
            Lookup(c.byRegion, Outside, 0) == bucket
            <==> BucketForward(ss, known, mk, |ss|)
    ensures c.moves + c.keeps == c.offGuest
  {
    var k := |ss|;
    forall i | 0 <= i < k ensures ss[i].node in stats.Keys {
      assert Accounted(stats, ss, ps, ss[i].node, k);
      assert Above(ps, ss[i].node, ss[i].node) by { assert Up(ps, ss[i].node, 0) == Some(ss[i].node); }
    }
    forall n ensures StatAt(stats, n).selfUs == SelfOf(ss, n, k) { assert Accounted(stats, ss, ps, n, k); }
    SumSame(stats.Keys, n => if InBucket(known, mk, n) then StatAt(stats, n).selfUs else 0,
            n => if InBucket(known, mk, n) then SelfOf(ss, n, k) else 0);
    BucketIsSampled(ss, stats.Keys, known, mk, k);
    RegionsCover(ss, ps, known, mk, k);
    PositiveTime(ss, known, mk, k);
  }

  /** Off-guest time lies within the drain and what moves; keeping and moving split it. */
  lemma {:induction false} KeepsIsDrainThatStays(ss: seq<Sample>, ps: Parents, known: set<NodeId>, mk: Marks, k: nat)
    requires k <= |ss|
    ensures OffGuestTime(ss, ps, known, mk, k) - MovesTime(ss, ps, known, mk, k) ==
            TimeWhere(ss, (x: Sample) => Counted(known, mk, x) && Under(ps, x.node, mk.drain)
                && !Under(ps, x.node, mk.moves), k)
    ensures RegionTime(ss, ps, known, mk, UnderDrain, k) <= OffGuestTime(ss, ps, known, mk, k)
  {
    if k > 0 { KeepsIsDrainThatStays(ss, ps, known, mk, k - 1); }
  }

  /** The tallies by frame name of a region add up to it. */
  lemma {:induction false} LeavesAddUp(
    ss: seq<Sample>, ps: Parents, known: set<NodeId>, mk: Marks, r: Region, names: set<string>, k: nat)
    requires k <= |ss| && forall i :: 0 <= i < k ==> mk.leafName(ss[i].node) in names
    ensures Sum(names, name => LeafTime(ss, ps, known, mk, r, name, k)) == RegionTime(ss, ps, known, mk, r, k)
  {
    if k == 0 {
      SumZero(names, name => LeafTime(ss, ps, known, mk, r, name, 0));
    } else {
      var x, counts := ss[k - 1], InRegion(ps, known, mk, r, ss[k - 1]);
      LeavesAddUp(ss, ps, known, mk, r, names, k - 1);
      LeavesOfMore(ss, ps, known, mk, r, names, k - 1);
      SumOne(names, name => if counts && mk.leafName(x.node) == name then x.dt else 0, mk.leafName(x.node));
      RegionTimeOfMore(ss, ps, known, mk, r, k - 1);
    }
  }

  ghost predicate InRegion(ps: Parents, known: set<NodeId>, mk: Marks, r: Region, x: Sample) {
    Counted(known, mk, x) && RegionOf(FoundAt(ps, mk, x.node)) == r
  }

  lemma LeavesOfMore(
    ss: seq<Sample>, ps: Parents, known: set<NodeId>, mk: Marks, r: Region, names: set<string>, k: nat)
    requires k < |ss|
    ensures var x, counts := ss[k], InRegion(ps, known, mk, r, ss[k]);
            Sum(names, name => LeafTime(ss, ps, known, mk, r, name, k + 1)) ==
            Sum(names, name => LeafTime(ss, ps, known, mk, r, name, k))
            + Sum(names, name => if counts && mk.leafName(x.node) == name then x.dt else 0)
  {
    var x, counts := ss[k], InRegion(ps, known, mk, r, ss[k]);
    var one := (name: string) => if counts && mk.leafName(x.node) == name then x.dt else 0;
    forall name ensures LeafTime(ss, ps, known, mk, r, name, k + 1) ==
                        LeafTime(ss, ps, known, mk, r, name, k) + one(name) {
      LeafTimeOfMore(ss, ps, known, mk, r, name, k);
    }
    SumPlus(names, name => LeafTime(ss, ps, known, mk, r, name, k), one,
            name => LeafTime(ss, ps, known, mk, r, name, k + 1));
  }

  /** One sample of the bucket that runs backwards is in the bucket's time and in no region. */
  lemma BackwardSampleIsLost(
    ps: Parents, known: set<NodeId>, mk: Marks, n: NodeId, d: int, stats: Stats, c: Census, bucket: int)
    requires d < 0 && InBucket(known, mk, n) && forall m :: Accounted(stats, [Sample(n, d)], ps, m, 1)
    requires CensusOf(c, [Sample(n, d)], ps, known, mk, 1)
    requires bucket == Sum(stats.Keys, n => if InBucket(known, mk, n) then StatAt(stats, n).selfUs else 0)
    ensures Lookup(c.byRegion, UnderDrain, 0) + Lookup(c.byRegion, UnderBoundary, 0) +
            Lookup(c.byRegion, Outside, 0) != bucket
  {
    var ss := [Sample(n, d)];
    RegionsSumToBucket(ss, ps, known, mk, stats, c, bucket);
    assert InBucket(known, mk, ss[0].node) && ss[0].dt < 0;
  }

  // ---- the regions, from the markers alone ----

  lemma {:induction false} SameWhere(ss: seq<Sample>, p: Sample -> bool, q: Sample -> bool, k: nat)
    requires k <= |ss| && forall i :: 0 <= i < k ==> p(ss[i]) == q(ss[i])
    ensures TimeWhere(ss, p, k) == TimeWhere(ss, q, k)
  {
    if k > 0 { SameWhere(ss, p, q, k - 1); }
  }

  /**
    The drain's time is that of the counted samples below a drain marker, the boundary's that of those
    below a boundary marker and no drain marker, and the rest is below neither.
  */
  lemma RegionsExactly(c: Census, ss: seq<Sample>, ps: Parents, known: set<NodeId>, mk: Marks, k: nat)
    requires k <= |ss| && CensusOf(c, ss, ps, known, mk, k)
    ensures Lookup(c.byRegion, UnderDrain, 0) ==
            TimeWhere(ss, (x: Sample) => Counted(known, mk, x) && Under(ps, x.node, mk.drain), k)
    ensures Lookup(c.byRegion, UnderBoundary, 0) ==
            TimeWhere(ss, (x: Sample) => Counted(known, mk, x) && Under(ps, x.node, mk.boundary)
                && !Under(ps, x.node, mk.drain), k)
    ensures Lookup(c.byRegion, Outside, 0) ==
            TimeWhere(ss, (x: Sample) => Counted(known, mk, x) && !Under(ps, x.node, mk.boundary)
                && !Under(ps, x.node, mk.drain), k)
  {
    SameWhere(ss, (x: Sample) => Counted(known, mk, x) && RegionOf(FoundAt(ps, mk, x.node)) == UnderDrain,
              (x: Sample) => Counted(known, mk, x) && Under(ps, x.node, mk.drain), k);
    SameWhere(ss, (x: Sample) => Counted(known, mk, x) && RegionOf(FoundAt(ps, mk, x.node)) == UnderBoundary,
              (x: Sample) => Counted(known, mk, x) && Under(ps, x.node, mk.boundary)
                  && !Under(ps, x.node, mk.drain), k);
    SameWhere(ss, (x: Sample) => Counted(known, mk, x) && RegionOf(FoundAt(ps, mk, x.node)) == Outside,
              (x: Sample) => Counted(known, mk, x) && !Under(ps, x.node, mk.boundary)
                  && !Under(ps, x.node, mk.drain), k);
    assert Lookup(c.byRegion, UnderDrain, 0) == RegionTime(ss, ps, known, mk, UnderDrain, k);
    assert Lookup(c.byRegion, UnderBoundary, 0) == RegionTime(ss, ps, known, mk, UnderBoundary, k);
    assert Lookup(c.byRegion, Outside, 0) == RegionTime(ss, ps, known, mk, Outside, k);
  }
}
