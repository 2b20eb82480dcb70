/**
  The natural loops of a module's back edges: the body walk, and when it stays inside the loop.
*/
module NaturalLoops {
  import opened SetSums
  import opened Options
  import opened Sweeps
  import opened Flows
  import opened Dominators

  /** The nodes a body walk does not go through: the header, unless the walk starts there. */
  function Stops(h: Node, latch: Node): set<Node> {
    if latch == h then {} else {h}
  }

  /** The body of the back edge from `latch` to `h`. */
  ghost predicate InBody(fl: Flow, h: Node, latch: Node, x: Node) {
    x == h || Reaches(fl, x, latch, Stops(h, latch))
  }

  /** A set closed under the predecessors of its nodes outside `avoid` holds every way into it. */
  lemma {:induction false} ClosedHoldsWays(fl: Flow, body: set<Node>, x: Node, y: Node, avoid: set<Node>, q: seq<Node>)
    requires y in body && WayTo(fl, q, x, y, avoid)
    requires forall b, p :: b in body && b !in avoid && p in fl.Preds(b) ==> p in body
    ensures x in body
    decreases |q|
  {
    if |q| > 1 {
      PathTail(fl, q);
      ClosedHoldsWays(fl, body, q[1], y, avoid, q[1..]);
    }
  }

  lemma ClosedHoldsBody(fl: Flow, h: Node, latch: Node, body: set<Node>)
    requires h in body && latch in body && ClosedBut(fl, Stops(h, latch), body, [])
    ensures forall x :: InBody(fl, h, latch, x) ==> x in body
  {
    forall x | InBody(fl, h, latch, x) ensures x in body {
      if x != h {
        var q :| WayTo(fl, q, x, latch, Stops(h, latch));
        ClosedHoldsWays(fl, body, x, latch, Stops(h, latch), q);
      }
    }
  }

  /** The state of a body walk: what is collected, and what is still to be looked at. */
  ghost predicate Walking(fl: Flow, h: Node, latch: Node, body: set<Node>, stack: seq<Node>) {
    && h in body && latch in body
    && (forall x :: x in stack ==> x in body && x !in Stops(h, latch))
    && (forall x :: x in body ==> x in fl.nodes && InBody(fl, h, latch, x))
  }

  /** Every predecessor of the collected nodes is collected, but for those of `pending`. */
  ghost predicate ClosedBut(fl: Flow, avoid: set<Node>, body: set<Node>, pending: seq<Node>) {
    forall b, p :: b in body && b !in avoid && b !in pending && p in fl.Preds(b) ==> p in body
  }

  /** The walk goes on: nothing collected or waiting is dropped, and what is new waits. */
  ghost predicate GoesOn(body: set<Node>, stack: seq<Node>, body': set<Node>, stack': seq<Node>) {
    && body <= body' && (forall y :: y in body' ==> y in body || y in stack')
    && (forall y :: y in stack ==> y in stack')
    && (body' == body ==> stack' == stack)
  }

  /** A predecessor not yet collected belongs to the body. */
  lemma PushOne(fl: Flow, h: Node, latch: Node, x: Node, p: Node, body: set<Node>, stack: seq<Node>)
    requires IsFlow(fl) && Walking(fl, h, latch, body, stack)
    requires x in body && x !in Stops(h, latch) && p in fl.Preds(x) && p !in body
    ensures Walking(fl, h, latch, body + {p}, stack + [p])
  {
    if x == h { assert WayTo(fl, [latch], latch, latch, Stops(h, latch)); }
    WayExtends(fl, p, x, latch, Stops(h, latch));
  }

  lemma GoesOnByOne(body: set<Node>, stack: seq<Node>, body': set<Node>, stack': seq<Node>, p: Node)
    requires GoesOn(body, stack, body', stack') && p !in body'
    ensures GoesOn(body, stack, body' + {p}, stack' + [p])
  {
    assert forall y :: y in stack' + [p] <==> y in stack' || y == p;
    assert p !in body;
  }

  /** Walking on from where the walk stood when `x` was taken off. */
  ghost predicate WalksOn(
    fl: Flow, h: Node, latch: Node, body: set<Node>, stack: seq<Node>, body': set<Node>, stack': seq<Node>) {
    Walking(fl, h, latch, body', stack') && GoesOn(body, stack, body', stack')
  }

  lemma PushKeepsWalk(
    fl: Flow, h: Node, latch: Node, x: Node, p: Node, body: set<Node>, stack: seq<Node>, body': set<Node>,
    stack': seq<Node>)
    requires IsFlow(fl) && WalksOn(fl, h, latch, body, stack, body', stack')
    requires x in body && x !in Stops(h, latch) && p in fl.Preds(x) && p !in body'
    ensures WalksOn(fl, h, latch, body, stack, body' + {p}, stack' + [p])
  {
    PushOne(fl, h, latch, x, p, body', stack');
    GoesOnByOne(body, stack, body', stack', p);
  }

  method PushPreds(fl: Flow, h: Node, latch: Node, x: Node, body: set<Node>, stack: seq<Node>)
    returns (body': set<Node>, stack': seq<Node>)
    requires IsFlow(fl) && Walking(fl, h, latch, body, stack)
    requires x in body && x !in Stops(h, latch)
    ensures WalksOn(fl, h, latch, body, stack, body', stack')
    ensures forall p :: p in fl.Preds(x) ==> p in body'
  {
    var ps := fl.Preds(x);
    body', stack' := body, stack;
    var i := 0;
    while i < |ps|
      invariant i <= |ps| && WalksOn(fl, h, latch, body, stack, body', stack')
      invariant forall j :: 0 <= j < i ==> ps[j] in body'
    {
      if ps[i] !in body' {
        PushKeepsWalk(fl, h, latch, x, ps[i], body, stack, body', stack');
        body', stack' := body' + {ps[i]}, stack' + [ps[i]];
      }
      i := i + 1;
    }
  }

  /** With its predecessors collected, a node need not wait any more. */
  lemma PopClosed(
    fl: Flow, avoid: set<Node>, was: set<Node>, rest: seq<Node>, x: Node, body: set<Node>, stack: seq<Node>)
    requires ClosedBut(fl, avoid, was, rest + [x]) && GoesOn(was, rest, body, stack)
    requires forall p :: p in fl.Preds(x) ==> p in body
    ensures ClosedBut(fl, avoid, body, stack)
  {
    forall b, p | b in body && b !in avoid && b !in stack && p in fl.Preds(b) ensures p in body {
      if b != x { assert b in was && b !in rest + [x]; }
    }
  }

  lemma PopWalking(fl: Flow, h: Node, latch: Node, body: set<Node>, stack: seq<Node>)
    requires stack != [] && Walking(fl, h, latch, body, stack)
    ensures Walking(fl, h, latch, body, stack[..|stack| - 1]) && stack[|stack| - 1] in body
            && stack[|stack| - 1] !in Stops(h, latch)
  {
  }

  ghost function Nodes(fl: Flow): set<Node> { set a | a in fl.nodes }

  /** Each turn of the walk collects a node or uses one up. */
  lemma TurnShrinks(fl: Flow, h: Node, latch: Node, was: set<Node>, rest: seq<Node>, body: set<Node>, stack: seq<Node>)
    requires GoesOn(was, rest, body, stack) && Walking(fl, h, latch, body, stack)
    ensures |Nodes(fl) - body| < |Nodes(fl) - was| || (body == was && stack == rest)
  {
    if body != was {
      var y :| y in body && y !in was;
      assert y in Nodes(fl);
      ProperSubsetSize(Nodes(fl) - body, Nodes(fl) - was);
    }
  }

  lemma WalkStarts(fl: Flow, h: Node, latch: Node)
    requires h in fl.nodes && latch in fl.nodes
    ensures Walking(fl, h, latch, {h, latch}, [latch]) && ClosedBut(fl, Stops(h, latch), {h, latch}, [latch])
  {
    assert WayTo(fl, [latch], latch, latch, Stops(h, latch));
  }

  /** One node off the stack, its predecessors on it. */
  method TakeTurn(
    fl: Flow, h: Node, latch: Node, was: set<Node>, waiting: seq<Node>) returns (body: set<Node>, stack: seq<Node>)
    requires IsFlow(fl) && waiting != [] && Walking(fl, h, latch, was, waiting)
             && ClosedBut(fl, Stops(h, latch), was, waiting)
    ensures Walking(fl, h, latch, body, stack) && ClosedBut(fl, Stops(h, latch), body, stack)
    ensures |Nodes(fl) - body| < |Nodes(fl) - was| || (body == was && |stack| < |waiting|)
  {
    var x, rest := waiting[|waiting| - 1], waiting[..|waiting| - 1];
    assert waiting == rest + [x];
    PopWalking(fl, h, latch, was, waiting);
    body, stack := PushPreds(fl, h, latch, x, was, rest);
    PopClosed(fl, Stops(h, latch), was, rest, x, body, stack);
    TurnShrinks(fl, h, latch, was, rest, body, stack);
  }

  /** The body walk collects exactly the body of the edge. */
  method LoopBody(fl: Flow, h: Node, latch: Node) returns (body: set<Node>)
    requires IsFlow(fl) && h in fl.nodes && latch in fl.nodes
    ensures forall x :: x in body <==> InBody(fl, h, latch, x)
  {
    body := {h, latch};
    var stack := [latch];
    WalkStarts(fl, h, latch);
    while stack != []
      invariant Walking(fl, h, latch, body, stack) && ClosedBut(fl, Stops(h, latch), body, stack)
      decreases |Nodes(fl) - body|, |stack|
    {
      body, stack := TakeTurn(fl, h, latch, body, stack);
    }
    ClosedHoldsBody(fl, h, latch, body);
  }

  ghost predicate IsBackEdge(fl: Flow, latch: Node, h: Node) {
    h in fl.Succs(latch) && OnEveryPath(fl, h, latch)
  }

  /** Of a proper back edge, every body node is dominated by the header. */
  lemma BodyIsDominated(fl: Flow, h: Node, latch: Node, x: Node)
    requires IsBackEdge(fl, latch, h) && latch != h && InBody(fl, h, latch, x)
    ensures OnEveryPath(fl, h, x)
  {
    forall p | IsRootPath(fl, p, x) ensures h in p {
      if x != h {
        var q :| WayTo(fl, q, x, latch, {h});
        PathJoin(fl, p, q);
        assert IsRootPath(fl, p + q[1..], latch);
        assert h in p + q[1..];
        assert h !in q[1..];
      }
    }
  }

  /** The header is the only way into the body of a proper back edge. */
  lemma HeaderIsOnlyEntry(fl: Flow, h: Node, latch: Node, p: Node, x: Node)
    requires latch != h && InBody(fl, h, latch, x) && x != h && p in fl.Preds(x)
    ensures InBody(fl, h, latch, p)
  {
    if p != h { WayExtends(fl, p, x, latch, {h}); }
  }

  /**
    When latch and header coincide the walk starts at the header and collects everything that can
    reach it.  The result is a natural loop exactly when the header dominates its own predecessors.
  */
  lemma SelfLoopBody(fl: Flow, h: Node)
    requires IsBackEdge(fl, h, h)
    ensures (forall x :: InBody(fl, h, h, x) ==> OnEveryPath(fl, h, x)) <==>
            (forall p :: p in fl.Preds(h) ==> OnEveryPath(fl, h, p))
  {
    if forall x :: InBody(fl, h, h, x) ==> OnEveryPath(fl, h, x) {
      forall p | p in fl.Preds(h) ensures OnEveryPath(fl, h, p) {
        assert WayTo(fl, [h], h, h, {});
        WayExtends(fl, p, h, h, {});
      }
    }
    if forall p :: p in fl.Preds(h) ==> OnEveryPath(fl, h, p) {
      forall x | InBody(fl, h, h, x) ensures OnEveryPath(fl, h, x) {
        if x != h {
          var q :| WayTo(fl, q, x, h, {});
          SelfLoopWay(fl, h, x, q);
        }
      }
    }
  }

  /** A way to a header that dominates its predecessors starts at a node it dominates. */
  lemma {:induction false} SelfLoopWay(fl: Flow, h: Node, x: Node, q: seq<Node>)
    requires WayTo(fl, q, x, h, {})
    requires forall p :: p in fl.Preds(h) ==> OnEveryPath(fl, h, p)
    ensures OnEveryPath(fl, h, x)
    decreases |q|
  {
    if |q| > 1 {
      PathTail(fl, q);
      if q[1] != h {
        SelfLoopWay(fl, h, q[1], q[1..]);
        DominatesPreds(fl, h, q[1], x);
      }
    }
  }

  /** A root block 1 that falls into block 2, which branches to itself. */
  function SpinFlow(): Flow {
    Flow([1, 2], map[1 := [2], 2 := [2]], map[2 := [1, 2]], {1})
  }

  lemma SpinFlowIsFlow(fl: Flow)
    requires fl == SpinFlow()
    ensures IsFlow(fl)
  {
    assert fl.Preds(2) == [1, 2] && forall a :: a != 2 ==> fl.Preds(a) == [];
    assert forall a :: fl.Succs(a) == if a == 1 || a == 2 then [2] else [];
  }

  /** The recorded body of that self-loop takes in the root outside it. */
  lemma SelfLoopEscapes(fl: Flow)
    requires fl == SpinFlow()
    ensures IsFlow(fl) && IsBackEdge(fl, 2, 2) && InBody(fl, 2, 2, 1) && !OnEveryPath(fl, 2, 1)
  {
    SpinFlowIsFlow(fl);
    assert WayTo(fl, [1, 2], 1, 2, {});
    assert IsRootPath(fl, [1], 1);
  }

  // ---- all loops by header ----

  /** The edge from `latch` to `h` closes a loop that `x` is part of. */
  ghost predicate ClosesLoop(fl: Flow, latch: Node, h: Node, x: Node) {
    IsBackEdge(fl, latch, h) && InBody(fl, h, latch, x)
  }

  /** The body of some back edge to `h`. */
  ghost predicate InLoop(fl: Flow, h: Node, x: Node) {
    exists latch :: ClosesLoop(fl, latch, h, x)
  }

  /** The body of some back edge to `h` from one of the first `i` nodes. */
  ghost predicate InLoopUpTo(fl: Flow, i: nat, h: Node, x: Node)
    requires i <= |fl.nodes|
  {
    exists j :: 0 <= j < i && ClosesLoop(fl, fl.nodes[j], h, x)
  }

  lemma OneMoreNode(fl: Flow, i: nat, h: Node, x: Node)
    requires i < |fl.nodes|
    ensures InLoopUpTo(fl, i + 1, h, x) <==>
            InLoopUpTo(fl, i, h, x) || ClosesLoop(fl, fl.nodes[i], h, x)
  {
  }

  lemma AllNodesVisited(fl: Flow, h: Node, x: Node)
    requires IsFlow(fl)
    ensures InLoopUpTo(fl, |fl.nodes|, h, x) <==> InLoop(fl, h, x)
  {
    forall latch | ClosesLoop(fl, latch, h, x) ensures InLoopUpTo(fl, |fl.nodes|, h, x) {
      assert latch in fl.Preds(h);
      assert latch in fl.nodes;
      var j :| 0 <= j < |fl.nodes| && fl.nodes[j] == latch;
    }
  }

  /** The bodies of one node's back edges merged into the loops found so far. */
  method AddBackEdges(fl: Flow, dom: Dom, a: Node, loops: map<Node, set<Node>>) returns (more: map<Node, set<Node>>)
    requires IsFlow(fl) && a in fl.nodes && a in dom
    requires forall d :: d in dom[a] <==> d in fl.nodes && OnEveryPath(fl, d, a)
    ensures forall h, x :: x in Lookup(more, h, {}) <==> x in Lookup(loops, h, {}) || ClosesLoop(fl, a, h, x)
  {
    more := loops;
    var ss := fl.Succs(a);
    var k := 0;
    while k < |ss|
      invariant k <= |ss|
      invariant forall h, x :: x in Lookup(more, h, {}) <==>
                  x in Lookup(loops, h, {}) || (h in ss[..k] && ClosesLoop(fl, a, h, x))
    {
      assert ss[..k + 1] == ss[..k] + [ss[k]];
      more := MergeEdge(fl, dom, a, ss[k], more);
      k := k + 1;
    }
    assert ss[..k] == ss;
  }

  /** One edge: where it goes back, its body is merged into the header's loop. */
  method MergeEdge(
    fl: Flow, dom: Dom, a: Node, s: Node, loops: map<Node, set<Node>>) returns (more: map<Node, set<Node>>)
    requires IsFlow(fl) && a in fl.nodes && a in dom && s in fl.Succs(a)
    requires forall d :: d in dom[a] <==> d in fl.nodes && OnEveryPath(fl, d, a)
    ensures forall h, x :: x in Lookup(more, h, {}) <==>
              x in Lookup(loops, h, {}) || (h == s && ClosesLoop(fl, a, h, x))
  {
    more := loops;
    assert a in fl.Preds(s);
    if s in dom[a] {
      var body := LoopBody(fl, s, a);
      assert forall x :: x in body <==> ClosesLoop(fl, a, s, x);
      more := more[s := Lookup(more, s, {}) + body];
    } else {
      assert forall x :: !ClosesLoop(fl, a, s, x);
    }
  }

  method FindLoops(fl: Flow) returns (loops: map<Node, set<Node>>)
    requires IsFlow(fl)
    ensures forall h, x :: x in Lookup(loops, h, {}) <==> InLoop(fl, h, x)
  {
    var dom := ComputeDominators(fl);
    loops := map[];
    var i := 0;
    while i < |fl.nodes|
      invariant i <= |fl.nodes|
      invariant forall h, x :: x in Lookup(loops, h, {}) <==> InLoopUpTo(fl, i, h, x)
    {
      ghost var was := loops;
      loops := AddBackEdges(fl, dom, fl.nodes[i], loops);
      forall h, x ensures x in Lookup(loops, h, {}) <==> InLoopUpTo(fl, i + 1, h, x) {
        OneMoreNode(fl, i, h, x);
        assert x in Lookup(was, h, {}) <==> InLoopUpTo(fl, i, h, x);
      }
      i := i + 1;
    }
    forall h, x ensures x in Lookup(loops, h, {}) <==> InLoop(fl, h, x) {
      AllNodesVisited(fl, h, x);
    }
  }
}
