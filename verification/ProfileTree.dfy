/** The parents of profile nodes, and the walk from a node to the root. */
module ProfileTree {
  import opened Options
  import opened ProfileSlice
  import opened SetSums

  /** A node names its parent, its children, or neither; both forms may be used for one tree. */
  datatype Node = Node(id: NodeId, parent: Option<NodeId>, children: seq<NodeId>)

  datatype Link = Link(child: NodeId, parent: NodeId)

  type Parents = map<NodeId, NodeId>

  // ---- building the parent map ----

  function ChildLinks(n: NodeId, children: seq<NodeId>): seq<Link> {
    if children == [] then [] else ChildLinks(n, children[..|children| - 1]) + [Link(children[|children| - 1], n)]
  }

  function ParentLinks(n: Node): seq<Link> {
    if n.parent.Some? then [Link(n.id, n.parent.value)] else []
  }

  /** Every link the nodes state. */
  function Links(nodes: seq<Node>): seq<Link> {
    if nodes == [] then []
    else
      var last := nodes[|nodes| - 1];
      Links(nodes[..|nodes| - 1]) + ParentLinks(last) + ChildLinks(last.id, last.children)
  }

  /** No child is given two parents. */
  ghost predicate Agree(links: seq<Link>) {
    forall a, b :: a in links && b in links && a.child == b.child ==> a.parent == b.parent
  }

  /** The map holds the links and nothing else. */
  ghost predicate Holds(m: Parents, links: seq<Link>) {
    forall c, p :: (c in m && m[c] == p) <==> Link(c, p) in links
  }

  /** A map that holds the links, or `None` where two of them disagree. */
  ghost predicate Built(m: Option<Parents>, links: seq<Link>) {
    && (m.Some? <==> Agree(links))
    && (m.Some? ==> Holds(m.value, links))
  }

  method Add(m: Option<Parents>, x: Link, ghost links: seq<Link>) returns (r: Option<Parents>)
    requires Built(m, links)
    ensures Built(r, links + [x])
  {
    if m == None || (x.child in m.value && m.value[x.child] != x.parent) {
      r := None;
      if m.Some? {
        ghost var other := Link(x.child, m.value[x.child]);
        assert other in links + [x] && x in links + [x];
      } else {
        ghost var a, b :| a in links && b in links && a.child == b.child && a.parent != b.parent;
        assert a in links + [x] && b in links + [x];
      }
    } else {
      r := Some(m.value[x.child := x.parent]);
    }
  }

  method AddChildren(m0: Option<Parents>, n: Node, ghost links: seq<Link>) returns (m: Option<Parents>)
    requires Built(m0, links)
    ensures Built(m, links + ChildLinks(n.id, n.children))
  {
    m := m0;
    ghost var ids := n.children;
    assert links + ChildLinks(n.id, ids[..0]) == links;
    for j := 0 to |n.children|
      invariant Built(m, links + ChildLinks(n.id, ids[..j]))
    {
      ghost var known := ChildLinks(n.id, ids[..j]);
      m := Add(m, Link(n.children[j], n.id), links + known);
      assert ids[..j + 1][..j] == ids[..j];
      assert links + known + [Link(ids[j], n.id)] == links + (known + [Link(ids[j], n.id)]);
    }
    assert ids[..|ids|] == ids;
  }

  method BuildParentMap(nodes: seq<Node>) returns (m: Option<Parents>)
    ensures Built(m, Links(nodes))
  {
    m := Some(map[]);
    for i := 0 to |nodes|
      invariant Built(m, Links(nodes[..i]))
    {
      ghost var links := Links(nodes[..i]);
      if nodes[i].parent.Some? {
        m := Add(m, Link(nodes[i].id, nodes[i].parent.value), links);
      } else {
        assert links + ParentLinks(nodes[i]) == links;
      }
      m := AddChildren(m, nodes[i], links + ParentLinks(nodes[i]));
      assert nodes[..i + 1][..i] == nodes[..i];
    }
    assert nodes[..|nodes|] == nodes;
  }

  // ---- ancestors ----

  /** The node `k` steps up from `n`, if the chain is that long. */
  ghost function Up(ps: Parents, n: NodeId, k: nat): Option<NodeId> {
    if k == 0 then Some(n)
    else
      match Up(ps, n, k - 1)
      case None => None
      case Some(m) => if m in ps then Some(ps[m]) else None
  }

  /** `a` is `n` or one of its ancestors. */
  ghost predicate Above(ps: Parents, n: NodeId, a: NodeId) {
    exists k: nat :: Up(ps, n, k) == Some(a)
  }

  lemma {:induction false} UpUp(ps: Parents, n: NodeId, m: NodeId, j: nat, k: nat)
    requires Up(ps, n, j) == Some(m)
    ensures Up(ps, n, j + k) == Up(ps, m, k)
  {
    if k > 0 { UpUp(ps, n, m, j, k - 1); }
  }

  lemma {:induction false} UpStaysNone(ps: Parents, n: NodeId, j: nat, k: nat)
    requires Up(ps, n, j) == None && j <= k
    ensures Up(ps, n, k) == None
  {
    if j < k { UpStaysNone(ps, n, j, k - 1); }
  }

  /** The nodes met in the first `j` steps. */
  ghost function Met(ps: Parents, n: NodeId, j: nat): set<NodeId> {
    if j == 0 then {} else Met(ps, n, j - 1) + if Up(ps, n, j - 1).Some? then {Up(ps, n, j - 1).value} else {}
  }

  lemma {:induction false} MetMeans(ps: Parents, n: NodeId, j: nat, a: NodeId)
    ensures a in Met(ps, n, j) <==> exists k: nat :: k < j && Up(ps, n, k) == Some(a)
  {
    if j > 0 {
      MetMeans(ps, n, j - 1, a);
      var last := j - 1;
      if Up(ps, n, last) == Some(a) {
        assert a in Met(ps, n, j);
        assert exists k: nat :: k < j && Up(ps, n, k) == Some(a) by { assert last < j && Up(ps, n, last) == Some(a); }
      } else if k: nat :| k < j && Up(ps, n, k) == Some(a) {
        assert k < last;
      }
    }
  }

  /** The chain has ended at step `j`, or come back to a node already met. */
  ghost predicate WalkDone(ps: Parents, n: NodeId, j: nat) {
    Up(ps, n, j) == None || Up(ps, n, j).value in Met(ps, n, j)
  }

  lemma ClosedWalkBefore(ps: Parents, n: NodeId, j: nat, k: nat)
    requires WalkDone(ps, n, j) && k <= j
    ensures Up(ps, n, k) == None || Up(ps, n, k).value in Met(ps, n, j)
  {
    if k < j && Up(ps, n, k).Some? { MetMeans(ps, n, j, Up(ps, n, k).value); }
  }

  /** After that nothing new follows. */
  lemma {:induction false} ClosedWalk(ps: Parents, n: NodeId, j: nat, k: nat)
    requires WalkDone(ps, n, j)
    ensures Up(ps, n, k) == None || Up(ps, n, k).value in Met(ps, n, j)
  {
    if k <= j {
      ClosedWalkBefore(ps, n, j, k);
    } else {
      ClosedWalk(ps, n, j, k - 1);
      match Up(ps, n, k - 1) {
        case None =>
        case Some(a) =>
          MetMeans(ps, n, j, a);
          var i: nat :| i < j && Up(ps, n, i) == Some(a);
          assert Up(ps, n, k) == Up(ps, n, i + 1);
          ClosedWalkBefore(ps, n, j, i + 1);
      }
    }
  }

  /** When the walk stops it has met exactly the ancestors. */
  lemma WalkMeetsAncestors(ps: Parents, n: NodeId, j: nat)
    requires WalkDone(ps, n, j)
    ensures forall a :: a in Met(ps, n, j) <==> Above(ps, n, a)
  {
    forall a ensures a in Met(ps, n, j) <==> Above(ps, n, a) {
      MetMeans(ps, n, j, a);
      if Above(ps, n, a) {
        var k: nat :| Up(ps, n, k) == Some(a);
        ClosedWalk(ps, n, j, k);
      }
    }
  }

  /** No step so far came back to a node already met. */
  ghost predicate AllNew(ps: Parents, n: NodeId, j: nat) {
    j > 0 ==> AllNew(ps, n, j - 1) && Up(ps, n, j - 1).Some? && Up(ps, n, j - 1).value !in Met(ps, n, j - 1)
  }

  lemma {:induction false} MetHaveParents(ps: Parents, n: NodeId, j: nat)
    requires AllNew(ps, n, j) && Up(ps, n, j).Some?
    ensures Met(ps, n, j) <= ps.Keys && |Met(ps, n, j)| == j
  {
    if j > 0 { MetHaveParents(ps, n, j - 1); }
  }

  /** On any map, cyclic or not, a walk that meets only new nodes takes at most one step for each node with a parent. */
  lemma WalkIsBounded(ps: Parents, n: NodeId, j: nat)
    requires AllNew(ps, n, j) && Up(ps, n, j).Some?
    ensures j <= |ps|
  {
    MetHaveParents(ps, n, j);
    SubsetSize(Met(ps, n, j), ps.Keys);
  }
}
