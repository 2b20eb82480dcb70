/**
  Which files of a bundle the entry point can load: a breadth-first walk over the modules a file
  names, each name standing for every shipped copy, with the depth and the reason of every find.
*/
module LoadGraph {
  import opened Options
  import opened SetSums

  type Path = string
  type Name = string
  type Pattern = int

  datatype Pe = Pe(name: Name, isEntry: bool, isExe: bool, deps: seq<Name>, patterns: seq<Pattern>)

  /** The executables by path, in the order they were analysed; `matches` is what the patterns mean. */
  datatype Bundle = Bundle(order: seq<Path>, pes: map<Path, Pe>, matches: (Pattern, Name) -> bool) {
    ghost predicate Valid() {
      forall p :: p in order <==> p in pes
    }

    /** `a` names the module that `b` is a copy of, outright or by a pattern. */
    ghost predicate Edge(a: Path, b: Path) {
      && a in pes && b in pes
      && (pes[b].name in pes[a].deps || exists x :: x in pes[a].patterns && matches(x, pes[b].name))
    }

    /** `p` is at the end of a chain of `n` edges from a root. */
    ghost predicate InSteps(roots: set<Path>, p: Path, n: nat)
      decreases n
    {
      if n == 0 then p in roots else exists a :: InSteps(roots, a, n - 1) && Edge(a, p)
    }

    ghost predicate Reaches(roots: set<Path>, p: Path) {
      exists n: nat :: InSteps(roots, p, n)
    }

    ghost predicate Shortest(roots: set<Path>, p: Path, n: nat) {
      InSteps(roots, p, n) && forall m: nat :: m < n ==> !InSteps(roots, p, m)
    }
  }

  // ---- the index from a module name to its shipped copies ----

  datatype Index = Index(names: seq<Name>, copies: map<Name, seq<Path>>)

  ghost predicate Indexes(ix: Index, g: Bundle, paths: seq<Path>) {
    && (forall n :: n in ix.names <==> n in ix.copies)
    && (forall n, p :: p in Lookup(ix.copies, n, []) <==> p in paths && p in g.pes && g.pes[p].name == n)
  }

  function Add(ix: Index, n: Name, p: Path): Index {
    Index(if n in ix.copies then ix.names else ix.names + [n], ix.copies[n := Lookup(ix.copies, n, []) + [p]])
  }

  lemma IndexOfMore(g: Bundle, ix: Index, paths: seq<Path>, p: Path)
    requires p in g.pes && Indexes(ix, g, paths)
    ensures Indexes(Add(ix, g.pes[p].name, p), g, paths + [p])
  {
    var n, after := g.pes[p].name, Add(ix, g.pes[p].name, p);
    forall m, q ensures q in Lookup(after.copies, m, []) <==> q in paths + [p] && q in g.pes && g.pes[q].name == m {
      assert Lookup(after.copies, m, []) == if m == n then Lookup(ix.copies, n, []) + [p] else Lookup(ix.copies, m, []);
    }
  }

  method IndexByName(g: Bundle) returns (ix: Index)
    requires g.Valid()
    ensures Indexes(ix, g, g.order)
  {
    ix := Index([], map[]);
    for i := 0 to |g.order|
      invariant Indexes(ix, g, g.order[..i])
    {
      var p := g.order[i];
      var n := g.pes[p].name;
      IndexOfMore(g, ix, g.order[..i], p);
      assert g.order[..i + 1] == g.order[..i] + [p];
      ix := Add(ix, n, p);
    }
    assert g.order[..|g.order|] == g.order;
  }

  // ---- one level of the walk ----

  datatype Walk = Walk(reachable: set<Path>, depth: map<Path, nat>, via: map<Path, Name>, next: seq<Path>)

  /**
    `w` has grown out of `base` at level `d`: whatever is new was found from a file of `from`, has
    depth `d` and the finder's name, and is queued; whatever was there is as it was.
  */
  ghost predicate Grown(g: Bundle, base: Walk, w: Walk, d: nat, from: set<Path>) {
    && base.reachable <= w.reachable && w.depth.Keys == w.reachable
    && (forall p :: p in base.reachable ==> p in base.depth && w.depth[p] == base.depth[p])
    && (forall p :: p in base.reachable ==> (p in w.via <==> p in base.via) && (p in w.via ==> w.via[p] == base.via[p]))
    && (forall p :: p in w.via ==> p in w.reachable)
    && (forall p :: p in w.reachable - base.reachable ==> w.depth[p] == d && p in w.via && Found(g, p, w.via[p], from))
    && (forall p :: p in w.next <==> p in w.reachable - base.reachable)
  }

  ghost predicate Found(g: Bundle, p: Path, name: Name, from: set<Path>) {
    exists a :: a in from && g.Edge(a, p) && g.pes[a].name == name
  }

  /** Every shipped copy of the module `dep`, named by `cur`, is reached. */
  method Visit(
    g: Bundle, ix: Index, w: Walk, dep: Name, cur: Path, d: nat, ghost base: Walk, ghost from: set<Path>)
    returns (r: Walk)
    requires g.Valid() && Indexes(ix, g, g.order) && Grown(g, base, w, d, from)
    requires cur in from && cur in g.pes && forall p :: p in g.pes && g.pes[p].name == dep ==> g.Edge(cur, p)
    ensures Grown(g, base, r, d, from) && w.reachable <= r.reachable
    ensures forall p :: p in g.pes && g.pes[p].name == dep ==> p in r.reachable
  {
    r := w;
    var copies := Lookup(ix.copies, dep, []);
    for i := 0 to |copies|
      invariant Grown(g, base, r, d, from) && w.reachable <= r.reachable
      invariant forall k :: 0 <= k < i ==> copies[k] in r.reachable
    {
      var p := copies[i];
      assert p in Lookup(ix.copies, dep, []);
      if p in r.reachable { continue; }
      assert Found(g, p, g.pes[cur].name, from);
      r := Walk(r.reachable + {p}, r.depth[p := d], r.via[p := g.pes[cur].name], r.next + [p]);
    }
    forall p | p in g.pes && g.pes[p].name == dep ensures p in r.reachable {
      assert p in Lookup(ix.copies, dep, []);
    }
  }

  method VisitDeps(
    g: Bundle, ix: Index, w: Walk, cur: Path, d: nat, ghost base: Walk, ghost from: set<Path>) returns (r: Walk)
    requires g.Valid() && Indexes(ix, g, g.order) && Grown(g, base, w, d, from) && cur in from && cur in g.pes
    ensures Grown(g, base, r, d, from) && w.reachable <= r.reachable
    ensures forall p :: p in g.pes && g.pes[p].name in g.pes[cur].deps ==> p in r.reachable
  {
    r := w;
    var deps := g.pes[cur].deps;
    for i := 0 to |deps|
      invariant Grown(g, base, r, d, from) && w.reachable <= r.reachable
      invariant forall p :: p in g.pes && g.pes[p].name in deps[..i] ==> p in r.reachable
    {
      r := Visit(g, ix, r, deps[i], cur, d, base, from);
    }
    assert deps[..|deps|] == deps;
  }

  method VisitPattern(
    g: Bundle, ix: Index, w: Walk, cur: Path, x: Pattern, d: nat, ghost base: Walk, ghost from: set<Path>)
    returns (r: Walk)
    requires g.Valid() && Indexes(ix, g, g.order) && Grown(g, base, w, d, from) && cur in from && cur in g.pes
    requires x in g.pes[cur].patterns
    ensures Grown(g, base, r, d, from) && w.reachable <= r.reachable
    ensures MatchesReached(g, x, r.reachable)
  {
    r := w;
    for i := 0 to |ix.names|
      invariant Grown(g, base, r, d, from) && w.reachable <= r.reachable
      invariant forall p :: p in g.pes && g.pes[p].name in ix.names[..i] && g.matches(x, g.pes[p].name) ==>
                p in r.reachable
    {
      if g.matches(x, ix.names[i]) {
        r := Visit(g, ix, r, ix.names[i], cur, d, base, from);
      }
    }
    forall p | p in g.pes ensures g.pes[p].name in ix.names {
      assert p in Lookup(ix.copies, g.pes[p].name, []);
    }
    assert ix.names[..|ix.names|] == ix.names;
  }

  method VisitPatterns(
    g: Bundle, ix: Index, w: Walk, cur: Path, d: nat, ghost base: Walk, ghost from: set<Path>) returns (r: Walk)
    requires g.Valid() && Indexes(ix, g, g.order) && Grown(g, base, w, d, from) && cur in from && cur in g.pes
    ensures Grown(g, base, r, d, from) && w.reachable <= r.reachable
    ensures forall x :: x in g.pes[cur].patterns ==> MatchesReached(g, x, r.reachable)
  {
    r := w;
    var patterns := g.pes[cur].patterns;
    for i := 0 to |patterns|
      invariant Grown(g, base, r, d, from) && w.reachable <= r.reachable
      invariant forall k :: 0 <= k < i ==> MatchesReached(g, patterns[k], r.reachable)
    {
      r := VisitPattern(g, ix, r, cur, patterns[i], d, base, from);
    }
  }

  ghost predicate MatchesReached(g: Bundle, x: Pattern, reached: set<Path>) {
    forall p :: p in g.pes && g.matches(x, g.pes[p].name) ==> p in reached
  }

  /** Everything `cur` has an edge to is reached. */
  method Expand(
    g: Bundle, ix: Index, w: Walk, cur: Path, d: nat, ghost base: Walk, ghost from: set<Path>) returns (r: Walk)
    requires g.Valid() && Indexes(ix, g, g.order) && Grown(g, base, w, d, from) && cur in from && cur in g.pes
    ensures Grown(g, base, r, d, from) && w.reachable <= r.reachable
    ensures forall p :: g.Edge(cur, p) ==> p in r.reachable
  {
    r := VisitDeps(g, ix, w, cur, d, base, from);
    ghost var named := r.reachable;
    r := VisitPatterns(g, ix, r, cur, d, base, from);
    EdgesReached(g, cur, named, r.reachable);
  }

  lemma EdgesReached(g: Bundle, cur: Path, named: set<Path>, reached: set<Path>)
    requires cur in g.pes && named <= reached
    requires forall p :: p in g.pes && g.pes[p].name in g.pes[cur].deps ==> p in named
    requires forall x :: x in g.pes[cur].patterns ==> MatchesReached(g, x, reached)
    ensures forall p :: g.Edge(cur, p) ==> p in reached
  {
  }

  ghost function Files(s: seq<Path>): set<Path> { set p | p in s }

  /** One level: everything a file of the frontier has an edge to is reached, and nothing else is new. */
  method Level(g: Bundle, ix: Index, base: Walk, frontier: seq<Path>, d: nat) returns (r: Walk)
    requires g.Valid() && Indexes(ix, g, g.order)
    requires base.depth.Keys == base.reachable && base.via.Keys <= base.reachable
    requires forall p :: p in frontier ==> p in g.pes
    ensures Grown(g, base, r, d, Files(frontier))
    ensures forall a, p :: a in frontier && g.Edge(a, p) ==> p in r.reachable
  {
    r := base.(next := []);
    ghost var from := Files(frontier);
    for i := 0 to |frontier|
      invariant Grown(g, base, r, d, from)
      invariant forall a, p :: a in frontier[..i] && g.Edge(a, p) ==> p in r.reachable
    {
      r := Expand(g, ix, r, frontier[i], d, base, from);
    }
    assert frontier[..|frontier|] == frontier;
  }

  // ---- the whole walk ----

  /** The walk has covered every chain shorter than `d`, with the shortest depth for each find. */
  ghost predicate Covered(g: Bundle, roots: set<Path>, w: Walk, d: nat) {
    && w.depth.Keys == w.reachable && w.via.Keys <= w.reachable && w.reachable <= g.pes.Keys
    && (forall p :: p in w.reachable ==> w.depth[p] < d && g.Shortest(roots, p, w.depth[p]))
    && (forall p, m: nat :: m < d && g.InSteps(roots, p, m) ==> p in w.reachable)
    && (forall p :: p in w.reachable ==> (p in w.via <==> p !in roots))
    && (forall p :: p in w.via ==> NamesFinder(g, w, p))
  }

  /** The reason given for `p` is a file one level nearer to the roots that has an edge to it. */
  ghost predicate NamesFinder(g: Bundle, w: Walk, p: Path)
    requires p in w.via && p in w.depth
  {
    exists a :: a in w.depth && w.depth[a] + 1 == w.depth[p] && g.Edge(a, p) && g.pes[a].name == w.via[p]
  }

  ghost predicate IsFrontier(w: Walk, frontier: seq<Path>, d: nat) {
    forall p :: p in frontier <==> p in w.depth && w.depth[p] + 1 == d
  }

  lemma LevelReaches(g: Bundle, roots: set<Path>, w: Walk, frontier: seq<Path>, r: Walk, d: nat, p: Path, m: nat)
    requires d > 0 && Covered(g, roots, w, d) && IsFrontier(w, frontier, d) && w.reachable <= r.reachable
    requires forall a, p :: a in frontier && g.Edge(a, p) ==> p in r.reachable
    requires m <= d && g.InSteps(roots, p, m)
    ensures p in r.reachable
  {
    if m == d {
      var a :| g.InSteps(roots, a, d - 1) && g.Edge(a, p);
      if w.depth[a] + 1 < d {
        assert g.InSteps(roots, p, w.depth[a] + 1);
      } else {
        assert a in frontier;
      }
    }
  }

  lemma NewIsShortest(g: Bundle, roots: set<Path>, w: Walk, frontier: seq<Path>, r: Walk, d: nat, p: Path)
    requires d > 0 && Covered(g, roots, w, d) && IsFrontier(w, frontier, d)
    requires Grown(g, w, r, d, Files(frontier)) && p in r.reachable - w.reachable
    ensures p in g.pes && p !in roots && g.Shortest(roots, p, d) && p in r.via && NamesFinder(g, r, p)
  {
    assert Found(g, p, r.via[p], Files(frontier));
    var a :| a in Files(frontier) && g.Edge(a, p) && g.pes[a].name == r.via[p];
    assert a in frontier && a in w.depth && w.depth[a] == d - 1 && r.depth[a] == d - 1;
    assert g.InSteps(roots, a, d - 1) && g.InSteps(roots, p, d);
    assert !g.InSteps(roots, p, 0);
  }

  lemma OldFinderStays(g: Bundle, roots: set<Path>, w: Walk, from: set<Path>, r: Walk, d: nat, p: Path)
    requires Covered(g, roots, w, d) && Grown(g, w, r, d, from) && p in w.via
    ensures p in r.via && p in r.depth && NamesFinder(g, r, p)
  {
    var a :| a in w.depth && w.depth[a] + 1 == w.depth[p] && g.Edge(a, p) && g.pes[a].name == w.via[p];
    assert a in w.reachable && r.depth[a] == w.depth[a];
  }

  /** One more level covers the chains one step longer. */
  lemma LevelCovers(g: Bundle, roots: set<Path>, w: Walk, frontier: seq<Path>, r: Walk, d: nat)
    requires d > 0 && Covered(g, roots, w, d) && IsFrontier(w, frontier, d)
    requires Grown(g, w, r, d, Files(frontier)) && forall a, p :: a in frontier && g.Edge(a, p) ==> p in r.reachable
    ensures Covered(g, roots, r, d + 1) && IsFrontier(r, r.next, d + 1)
  {
    forall p, m: nat | m < d + 1 && g.InSteps(roots, p, m) ensures p in r.reachable {
      LevelReaches(g, roots, w, frontier, r, d, p, m);
    }
    forall p | p in r.reachable - w.reachable
        ensures p in g.pes && p !in roots && g.Shortest(roots, p, d) && p in r.via && NamesFinder(g, r, p) {
      NewIsShortest(g, roots, w, frontier, r, d, p);
    }
    forall p | p in w.via ensures p in r.via && p in r.depth && NamesFinder(g, r, p) {
      OldFinderStays(g, roots, w, Files(frontier), r, d, p);
    }
  }

  /** With an empty frontier no chain of any length leads further. */
  lemma {:induction false} NothingFurther(g: Bundle, roots: set<Path>, w: Walk, d: nat, p: Path, m: nat)
    requires d > 0 && Covered(g, roots, w, d) && IsFrontier(w, [], d) && g.InSteps(roots, p, m)
    ensures p in w.reachable
    decreases m
  {
    if m >= d {
      var a :| g.InSteps(roots, a, m - 1) && g.Edge(a, p);
      NothingFurther(g, roots, w, d, a, m - 1);
      assert w.depth[a] + 1 < d;
      assert g.InSteps(roots, p, w.depth[a] + 1);
    }
  }

  /** The entry points, and every program when all of them are asked for; every file when that leaves none. */
  function Roots(g: Bundle, allExes: bool): (r: set<Path>) {
    var wanted := set p | p in g.pes && (g.pes[p].isEntry || (allExes && g.pes[p].isExe));
    if wanted == {} then g.pes.Keys else wanted
  }

  /** A file is a root if it is asked for, and every file is one if none is. */
  lemma RootsExactly(g: Bundle, allExes: bool, p: Path)
    ensures p in Roots(g, allExes) <==>
            && p in g.pes
            && (g.pes[p].isEntry || (allExes && g.pes[p].isExe)
                || forall q :: q in g.pes ==> !g.pes[q].isEntry && !(allExes && g.pes[q].isExe))
  {
    var wanted := set p | p in g.pes && (g.pes[p].isEntry || (allExes && g.pes[p].isExe));
    if q :| q in g.pes && (g.pes[q].isEntry || (allExes && g.pes[q].isExe)) { assert q in wanted; }
  }

  method FindRoots(g: Bundle, allExes: bool) returns (frontier: seq<Path>)
    requires g.Valid()
    ensures Files(frontier) == Roots(g, allExes)
  {
    frontier := [];
    for i := 0 to |g.order|
      invariant forall p :: p in frontier <==> p in g.order[..i] && (g.pes[p].isEntry || (allExes && g.pes[p].isExe))
    {
      var p := g.order[i];
      assert g.order[..i + 1] == g.order[..i] + [p];
      if g.pes[p].isEntry || (allExes && g.pes[p].isExe) { frontier := frontier + [p]; }
    }
    assert g.order[..|g.order|] == g.order;
    var wanted := set p | p in g.pes && (g.pes[p].isEntry || (allExes && g.pes[p].isExe));
    assert wanted == Files(frontier);
    if |frontier| == 0 { frontier := g.order; } else { assert frontier[0] in wanted; }
  }

  /**
    The walk ends; what it reaches is what a chain of edges from the roots reaches, each at the
    length of its shortest chain and with a finder one level nearer.
  */
  method FindReachable(g: Bundle, allExes: bool) returns (w: Walk)
    requires g.Valid()
    ensures forall p :: p in w.reachable <==> g.Reaches(Roots(g, allExes), p)
    ensures w.depth.Keys == w.reachable && forall p :: p in w.reachable ==> g.Shortest(Roots(g, allExes), p, w.depth[p])
    ensures w.via.Keys == w.reachable - Roots(g, allExes) && forall p :: p in w.via ==> NamesFinder(g, w, p)
  {
    var ix := IndexByName(g);
    var frontier := FindRoots(g, allExes);
    ghost var roots := Roots(g, allExes);
    w := StartAt(g, frontier);
    var d := 1;
    while frontier != []
      invariant d > 0 && Covered(g, roots, w, d) && IsFrontier(w, frontier, d)
      decreases |g.pes.Keys - w.reachable|, |frontier|
    {
      w := NextLevel(g, ix, w, frontier, d, roots);
      frontier := w.next;
      d := d + 1;
    }
    ClosureReached(g, roots, w, d);
  }

  method NextLevel(g: Bundle, ix: Index, w: Walk, frontier: seq<Path>, d: nat, ghost roots: set<Path>) returns (r: Walk)
    requires g.Valid() && Indexes(ix, g, g.order) && d > 0 && Covered(g, roots, w, d) && IsFrontier(w, frontier, d)
    ensures Covered(g, roots, r, d + 1) && IsFrontier(r, r.next, d + 1)
    ensures |g.pes.Keys - r.reachable| < |g.pes.Keys - w.reachable|
            || (r.next == [] && |g.pes.Keys - r.reachable| == |g.pes.Keys - w.reachable|)
  {
    r := Level(g, ix, w, frontier, d);
    LevelCovers(g, roots, w, frontier, r, d);
    Shrinks(g.pes.Keys, w.reachable, r.reachable, r.next);
  }

  method StartAt(g: Bundle, frontier: seq<Path>) returns (w: Walk)
    requires Files(frontier) <= g.pes.Keys
    ensures Covered(g, Files(frontier), w, 1) && IsFrontier(w, frontier, 1)
  {
    w := Walk({}, map[], map[], []);
    for i := 0 to |frontier|
      invariant w.via == map[] && w.next == [] && w.depth.Keys == w.reachable
      invariant forall p :: p in w.reachable ==> w.depth[p] == 0
      invariant forall p :: p in w.reachable <==> p in frontier[..i]
    {
      assert frontier[..i + 1] == frontier[..i] + [frontier[i]];
      w := w.(reachable := w.reachable + {frontier[i]}, depth := w.depth[frontier[i] := 0]);
    }
    assert frontier[..|frontier|] == frontier;
    assert w.reachable == Files(frontier);
  }

  lemma ClosureReached(g: Bundle, roots: set<Path>, w: Walk, d: nat)
    requires d > 0 && Covered(g, roots, w, d) && IsFrontier(w, [], d)
    ensures forall p :: p in w.reachable <==> g.Reaches(roots, p)
    ensures w.via.Keys == w.reachable - roots
  {
    forall p ensures p in w.reachable <==> g.Reaches(roots, p) {
      if p in w.reachable {
        assert g.InSteps(roots, p, w.depth[p]);
      } else if g.Reaches(roots, p) {
        var n: nat :| g.InSteps(roots, p, n);
        NothingFurther(g, roots, w, d, p, n);
      }
    }
  }

  /** Either a new file is reached, or the next frontier is empty. */
  lemma Shrinks(all: set<Path>, before: set<Path>, after: set<Path>, next: seq<Path>)
    requires before <= after <= all && forall p :: p in next <==> p in after - before
    ensures |all - after| < |all - before| || (next == [] && all - after == all - before)
  {
    if next != [] {
      assert next[0] in next;
      assert all - after <= all - before - {next[0]};
      SubsetSize(all - after, all - before - {next[0]});
    } else {
      assert after - before == {};
      assert all - after == all - before - (after - before);
    }
  }
}
