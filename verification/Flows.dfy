/**
  The control flow of a module as lists of neighbours, and paths through it.
*/
module Flows {
  import opened Options
  import opened Sweeps
  import opened GuardModel
  import opened GuardFixpoint

  /** Nodes in increasing order, neighbours by node, and the nodes execution may start in. */
  datatype Flow = Flow(nodes: seq<Node>, succs: map<Node, seq<Node>>, preds: map<Node, seq<Node>>, roots: set<Node>) {
    function Succs(a: Node): seq<Node> { if a in succs then succs[a] else [] }
    function Preds(a: Node): seq<Node> { if a in preds then preds[a] else [] }
  }

  ghost predicate IsFlow(fl: Flow) {
    && Increasing(fl.nodes)
    && (forall a, p :: p in fl.Preds(a) ==> a in fl.nodes && p in fl.nodes)
    && (forall a, s :: s in fl.Succs(a) <==> a in fl.Preds(s))
    && (forall a :: a in fl.nodes && fl.Preds(a) == [] ==> a in fl.roots)
    && (forall r :: r in fl.roots ==> r in fl.nodes)
  }

  // ---- paths ----

  ghost predicate IsPath(fl: Flow, p: seq<Node>) {
    p != [] && forall i :: 0 < i < |p| ==> p[i - 1] in fl.Preds(p[i])
  }

  ghost predicate IsRootPath(fl: Flow, p: seq<Node>, a: Node) {
    IsPath(fl, p) && p[0] in fl.roots && p[|p| - 1] == a
  }

  /** `d` dominates `a`: it lies on every path from a root. */
  ghost predicate OnEveryPath(fl: Flow, d: Node, a: Node) {
    forall p :: IsRootPath(fl, p, a) ==> d in p
  }

  /** A path from `x` to `y` that meets no node of `avoid`. */
  ghost predicate WayTo(fl: Flow, q: seq<Node>, x: Node, y: Node, avoid: set<Node>) {
    IsPath(fl, q) && q[0] == x && q[|q| - 1] == y && forall i :: 0 <= i < |q| ==> q[i] !in avoid
  }

  ghost predicate Reaches(fl: Flow, x: Node, y: Node, avoid: set<Node>) {
    exists q :: WayTo(fl, q, x, y, avoid)
  }

  lemma PathTail(fl: Flow, q: seq<Node>)
    requires IsPath(fl, q) && |q| > 1
    ensures IsPath(fl, q[1..]) && q[0] in fl.Preds(q[1])
  {
    assert forall i :: 0 < i < |q[1..]| ==> q[1..][i - 1] == q[i] && q[1..][i] == q[i + 1];
    assert q[0] in fl.Preds(q[1]);
  }

  lemma PathCons(fl: Flow, a: Node, q: seq<Node>)
    requires IsPath(fl, q) && a in fl.Preds(q[0])
    ensures IsPath(fl, [a] + q)
  {
    var r := [a] + q;
    forall i | 0 < i < |r| ensures r[i - 1] in fl.Preds(r[i]) {
      if i > 1 { assert q[i - 2] in fl.Preds(q[i - 1]); }
    }
  }

  lemma PathJoin(fl: Flow, p: seq<Node>, q: seq<Node>)
    requires IsPath(fl, p) && IsPath(fl, q) && p[|p| - 1] == q[0]
    ensures IsPath(fl, p + q[1..])
  {
    var r := p + q[1..];
    forall i | 0 < i < |r| ensures r[i - 1] in fl.Preds(r[i]) {
      if i >= |p| { assert q[i - |p|] in fl.Preds(q[i - |p| + 1]); }
    }
  }

  lemma WayExtends(fl: Flow, p: Node, x: Node, y: Node, avoid: set<Node>)
    requires p in fl.Preds(x) && p !in avoid && Reaches(fl, x, y, avoid)
    ensures Reaches(fl, p, y, avoid)
  {
    var q :| WayTo(fl, q, x, y, avoid);
    PathCons(fl, p, q);
    assert WayTo(fl, [p] + q, p, y, avoid);
  }

  /** A dominator of a node, other than the node, dominates all its predecessors. */
  lemma DominatesPreds(fl: Flow, d: Node, a: Node, p: Node)
    requires p in fl.Preds(a) && OnEveryPath(fl, d, a) && d != a
    ensures OnEveryPath(fl, d, p)
  {
    forall q | IsRootPath(fl, q, p) ensures d in q {
      assert IsRootPath(fl, q + [a], a);
    }
  }

  // ---- the flow of a block table ----

  function SuccsIn(table: map<Addr, Block>, a: Addr): seq<Addr>
    requires a in table
  {
    (if IsSuccessor(table, table[a].fall) then [table[a].fall] else []) +
    (if IsSuccessor(table, table[a].taken) then [table[a].taken] else [])
  }

  lemma EdgesAreListed(table: map<Addr, Block>, blocks: seq<Block>, nodes: seq<Node>, a: Addr, s: Addr)
    requires Enumerates(nodes, table.Keys) && |blocks| == |nodes|
    requires forall a :: a in table ==> table[a].addr == a
    requires forall i :: 0 <= i < |blocks| ==> nodes[i] in table && blocks[i] == table[nodes[i]]
    ensures a in Preds(blocks, table, s) <==> Edge(table, a, s)
  {
    PredsMeaning(blocks, table, s, a);
    if Edge(table, a, s) {
      assert a in nodes;
      var i :| 0 <= i < |nodes| && nodes[i] == a;
      assert blocks[i] in blocks;
    }
  }

  /** Lists that agree with the edges of a table describe a flow. */
  lemma ListsAreFlow(table: map<Addr, Block>, fl: Flow)
    requires Enumerates(fl.nodes, table.Keys)
    requires fl.succs.Keys == table.Keys && forall a :: a in table ==> fl.succs[a] == SuccsIn(table, a)
    requires forall a, s :: a in fl.Preds(s) <==> Edge(table, a, s)
    requires forall a :: a in fl.roots <==> a in table && (table[a].entry || fl.Preds(a) == [])
    ensures IsFlow(fl) && forall a, s :: s in fl.Succs(a) <==> Edge(table, a, s)
  {
    forall a, s ensures s in fl.Succs(a) <==> Edge(table, a, s) {
    }
    forall a, p | p in fl.Preds(a) ensures a in fl.nodes && p in fl.nodes {
      assert Edge(table, p, a);
    }
  }

  /** Roots are the entry blocks and the blocks nothing in the module branches to. */
  method FlowOf(table: map<Addr, Block>) returns (fl: Flow)
    requires forall a :: a in table ==> table[a].addr == a
    ensures IsFlow(fl) && forall a :: a in fl.nodes <==> a in table
    ensures forall a, s :: s in fl.Succs(a) <==> Edge(table, a, s)
    ensures forall a :: a in fl.roots <==> a in table && (table[a].entry || fl.Preds(a) == [])
  {
    var nodes := SortedKeys(table.Keys);
    forall i | 0 <= i < |nodes| ensures nodes[i] in table {
      assert nodes[i] in table.Keys;
    }
    var blocks := seq(|nodes|, i requires 0 <= i < |nodes| => table[nodes[i]]);
    var preds := BuildPreds(blocks, table);
    var succs := map a | a in table :: SuccsIn(table, a);
    var roots := set a | a in table && (table[a].entry || Lookup(preds, a, []) == []);
    fl := Flow(nodes, succs, preds, roots);
    assert forall a :: fl.Preds(a) == Lookup(preds, a, []);
    forall a, s ensures a in fl.Preds(s) <==> Edge(table, a, s) {
      EdgesAreListed(table, blocks, nodes, a, s);
    }
    ListsAreFlow(table, fl);
  }
}
