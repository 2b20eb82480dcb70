/**
  The uncapped iteration that computes dominators over a module's flow.
*/
module Dominators {
  import opened SetSums
  import opened Sweeps
  import opened Flows

  type Dom = map<Node, set<Node>>

  function Common(dom: Dom, ps: seq<Node>): set<Node>
    requires ps != [] && forall p :: p in ps ==> p in dom
  {
    var last := |ps| - 1;
    if last == 0 then dom[ps[0]] else Common(dom, ps[..last]) * dom[ps[last]]
  }

  lemma {:induction false} CommonMeaning(dom: Dom, ps: seq<Node>, x: Node)
    requires ps != [] && forall p :: p in ps ==> p in dom
    ensures x in Common(dom, ps) <==> forall p :: p in ps ==> x in dom[p]
  {
    var last := |ps| - 1;
    assert forall p :: p in ps <==> p in ps[..last] || p == ps[last];
    if last > 0 { CommonMeaning(dom, ps[..last], x); }
  }

  lemma CommonShrinks(dom: Dom, dom': Dom, ps: seq<Node>)
    requires ps != [] && forall p :: p in ps ==> p in dom && p in dom' && dom'[p] <= dom[p]
    ensures Common(dom', ps) <= Common(dom, ps)
  {
    forall x | x in Common(dom', ps) ensures x in Common(dom, ps) {
      CommonMeaning(dom', ps, x);
      CommonMeaning(dom, ps, x);
    }
  }

  ghost predicate IsDomTable(fl: Flow, dom: Dom) {
    && (forall a :: a in dom <==> a in fl.nodes)
    && (forall a, d :: a in dom && d in dom[a] ==> d in fl.nodes)
    && (forall r :: r in fl.roots && r in dom ==> dom[r] == {r})
  }

  function NewDom(fl: Flow, dom: Dom, a: Node): set<Node>
    requires IsFlow(fl) && IsDomTable(fl, dom) && a in fl.nodes && a !in fl.roots
  {
    Common(dom, fl.Preds(a)) + {a}
  }

  ghost predicate Shrinking(fl: Flow, dom: Dom)
    requires IsFlow(fl) && IsDomTable(fl, dom)
  {
    forall a :: a in fl.nodes && a !in fl.roots ==> NewDom(fl, dom, a) <= dom[a]
  }

  ghost predicate KeepsDominators(fl: Flow, dom: Dom)
    requires IsDomTable(fl, dom)
  {
    forall a, d :: a in fl.nodes && d in fl.nodes && OnEveryPath(fl, d, a) ==> d in dom[a]
  }

  /** What every table of the iteration satisfies. */
  ghost predicate IsApproximation(fl: Flow, dom: Dom)
    requires IsFlow(fl)
  {
    IsDomTable(fl, dom) && Shrinking(fl, dom) && KeepsDominators(fl, dom)
  }

  lemma NewDomKeepsDominators(fl: Flow, dom: Dom, a: Node, d: Node)
    requires IsFlow(fl) && IsDomTable(fl, dom) && KeepsDominators(fl, dom)
    requires a in fl.nodes && a !in fl.roots && d in fl.nodes && OnEveryPath(fl, d, a)
    ensures d in NewDom(fl, dom, a)
  {
    if d != a {
      forall p | p in fl.Preds(a) ensures d in dom[p] {
        DominatesPreds(fl, d, a, p);
      }
      CommonMeaning(dom, fl.Preds(a), d);
    }
  }

  /** Replacing one node's set by its new value keeps the table shrinking and misses no dominator. */
  lemma UpdateKeeps(fl: Flow, dom: Dom, a: Node)
    requires IsFlow(fl) && IsApproximation(fl, dom) && a in fl.nodes && a !in fl.roots
    ensures IsApproximation(fl, dom[a := NewDom(fl, dom, a)])
  {
    var nd := NewDom(fl, dom, a);
    var dom' := dom[a := nd];
    assert nd <= dom[a];
    assert IsDomTable(fl, dom');
    forall b | b in fl.nodes && b !in fl.roots ensures NewDom(fl, dom', b) <= dom'[b] {
      CommonShrinks(dom, dom', fl.Preds(b));
      assert NewDom(fl, dom, b) <= dom[b];
    }
    forall b, d | b in fl.nodes && d in fl.nodes && OnEveryPath(fl, d, b) ensures d in dom'[b] {
      if b == a { NewDomKeepsDominators(fl, dom, a, d); }
    }
  }

  /** The total size of the sets, which every change reduces. */
  ghost function Size(dom: Dom, nodes: seq<Node>): nat
    requires forall a :: a in nodes ==> a in dom
  {
    if nodes == [] then 0 else Size(dom, nodes[..|nodes| - 1]) + |dom[nodes[|nodes| - 1]]|
  }

  lemma {:induction false} SizeUnchanged(dom: Dom, nodes: seq<Node>, a: Node, nd: set<Node>)
    requires forall b :: b in nodes ==> b in dom
    requires a !in nodes
    ensures Size(dom[a := nd], nodes) == Size(dom, nodes)
  {
    if nodes != [] { SizeUnchanged(dom, nodes[..|nodes| - 1], a, nd); }
  }

  lemma {:induction false} SizeDrops(dom: Dom, nodes: seq<Node>, a: Node, nd: set<Node>)
    requires Increasing(nodes) && forall b :: b in nodes ==> b in dom
    requires a in nodes && nd < dom[a]
    ensures Size(dom[a := nd], nodes) < Size(dom, nodes)
  {
    var last := |nodes| - 1;
    assert forall b :: b in nodes <==> b in nodes[..last] || b == nodes[last];
    if a == nodes[last] {
      SizeUnchanged(dom, nodes[..last], a, nd);
      ProperSubsetSize(nd, dom[a]);
    } else {
      SizeDrops(dom, nodes[..last], a, nd);
    }
  }

  ghost predicate Settled(fl: Flow, dom: Dom, seen: seq<Node>)
    requires IsFlow(fl) && IsDomTable(fl, dom)
  {
    forall a :: a in seen && a in fl.nodes && a !in fl.roots ==> NewDom(fl, dom, a) == dom[a]
  }

  lemma SettledPred(fl: Flow, dom: Dom, d: Node, a: Node, p: Node)
    requires IsFlow(fl) && IsDomTable(fl, dom) && Settled(fl, dom, fl.nodes)
    requires a in fl.nodes && d in dom[a] && d != a && p in fl.Preds(a)
    ensures p in fl.nodes && d in dom[p]
  {
    assert NewDom(fl, dom, a) == dom[a];
    CommonMeaning(dom, fl.Preds(a), d);
  }

  lemma SettledMore(fl: Flow, dom: Dom, i: nat)
    requires IsFlow(fl) && IsDomTable(fl, dom) && i < |fl.nodes|
    requires Settled(fl, dom, fl.nodes[..i])
    requires fl.nodes[i] !in fl.roots ==> NewDom(fl, dom, fl.nodes[i]) == dom[fl.nodes[i]]
    ensures Settled(fl, dom, fl.nodes[..i + 1])
  {
    assert fl.nodes[..i + 1] == fl.nodes[..i] + [fl.nodes[i]];
  }

  /** At a fixpoint only nodes on every path remain. */
  lemma {:induction false} SettledDominates(fl: Flow, dom: Dom, d: Node, a: Node, p: seq<Node>)
    requires IsFlow(fl) && IsDomTable(fl, dom) && Settled(fl, dom, fl.nodes)
    requires a in fl.nodes && d in dom[a] && IsRootPath(fl, p, a)
    ensures d in p
    decreases |p|
  {
    if d != a {
      var prev, cut := p[|p| - 2], p[..|p| - 1];
      assert p[|p| - 2] in fl.Preds(p[|p| - 1]);
      SettledPred(fl, dom, d, a, prev);
      SettledDominates(fl, dom, d, prev, cut);
      assert forall x :: x in cut ==> x in p;
    }
  }

  method Intersect(fl: Flow, dom: Dom, a: Node) returns (nd: set<Node>)
    requires IsFlow(fl) && IsDomTable(fl, dom) && a in fl.nodes && a !in fl.roots
    ensures nd == NewDom(fl, dom, a)
  {
    var ps := fl.Preds(a);
    nd := dom[ps[0]];
    var i := 1;
    while i < |ps|
      invariant 1 <= i <= |ps| && nd == Common(dom, ps[..i])
    {
      assert ps[..i + 1][..i] == ps[..i];
      nd := nd * dom[ps[i]];
      i := i + 1;
    }
    assert ps[..i] == ps;
    nd := nd + {a};
  }

  /** One node of a sweep: either its set is already right, or the table gets smaller. */
  method VisitNode(fl: Flow, dom: Dom, a: Node) returns (dom': Dom, changed: bool)
    requires IsFlow(fl) && IsApproximation(fl, dom) && a in fl.nodes
    ensures IsApproximation(fl, dom')
    ensures !changed ==> dom' == dom && (a !in fl.roots ==> NewDom(fl, dom, a) == dom[a])
    ensures changed ==> Size(dom', fl.nodes) < Size(dom, fl.nodes)
  {
    dom', changed := dom, false;
    if a !in fl.roots {
      var nd := Intersect(fl, dom, a);
      if nd != dom[a] {
        UpdateKeeps(fl, dom, a);
        SizeDrops(dom, fl.nodes, a, nd);
        dom', changed := dom[a := nd], true;
      }
    }
  }

  /** One sweep of the iteration; it finds the table settled or makes it smaller. */
  method SweepDominators(fl: Flow, before: Dom) returns (dom: Dom, changed: bool)
    requires IsFlow(fl) && IsApproximation(fl, before)
    ensures IsApproximation(fl, dom)
    ensures !changed ==> Settled(fl, dom, fl.nodes)
    ensures changed ==> Size(dom, fl.nodes) < Size(before, fl.nodes)
    ensures !changed ==> dom == before
  {
    dom, changed := before, false;
    var i := 0;
    while i < |fl.nodes|
      invariant i <= |fl.nodes|
      invariant IsApproximation(fl, dom)
      invariant !changed ==> dom == before && Settled(fl, dom, fl.nodes[..i])
      invariant changed ==> Size(dom, fl.nodes) < Size(before, fl.nodes)
    {
      var changedHere;
      dom, changedHere := VisitNode(fl, dom, fl.nodes[i]);
      changed := changed || changedHere;
      if !changed { SettledMore(fl, dom, i); }
      i := i + 1;
    }
    assert fl.nodes[..i] == fl.nodes;
  }

  lemma StartIsApproximation(fl: Flow, dom: Dom)
    requires IsFlow(fl)
    requires forall a :: a in dom <==> a in fl.nodes
    requires forall a :: a in dom ==> dom[a] == if a in fl.roots then {a} else set n | n in fl.nodes
    ensures IsApproximation(fl, dom)
  {
    forall a, d | a in fl.nodes && d in fl.nodes && OnEveryPath(fl, d, a) ensures d in dom[a] {
      if a in fl.roots { assert IsRootPath(fl, [a], a); }
    }
    forall a, d | a in fl.nodes && a !in fl.roots && d in NewDom(fl, dom, a) ensures d in dom[a] {
      CommonMeaning(dom, fl.Preds(a), d);
      assert fl.Preds(a)[0] in fl.Preds(a);
    }
  }

  /** The uncapped iteration ends, with exactly the nodes on every path from a root. */
  method ComputeDominators(fl: Flow) returns (dom: Dom)
    requires IsFlow(fl)
    ensures forall a :: a in dom <==> a in fl.nodes
    ensures forall a, d :: a in fl.nodes ==> (d in dom[a] <==> d in fl.nodes && OnEveryPath(fl, d, a))
  {
    var all := set a | a in fl.nodes;
    dom := map a | a in all :: if a in fl.roots then {a} else all;
    StartIsApproximation(fl, dom);
    var changed := true;
    while changed
      invariant IsApproximation(fl, dom)
      invariant !changed ==> Settled(fl, dom, fl.nodes)
      decreases Size(dom, fl.nodes), if changed then 1 else 0
    {
      dom, changed := SweepDominators(fl, dom);
    }
    forall a, d | a in fl.nodes && d in dom[a] ensures OnEveryPath(fl, d, a) {
      forall p | IsRootPath(fl, p, a) ensures d in p {
        SettledDominates(fl, dom, d, a, p);
      }
    }
  }
}
