/**
  In-place sweeps: visit the nodes in a fixed order and replace each node's value by a function of
  the current table.  Both the availability fixpoint and the dominator iteration are sweeps.
*/
module Sweeps {
  type Node = nat

  ghost predicate Increasing(order: seq<Node>) {
    forall i, j :: 0 <= i < j < |order| ==> order[i] < order[j]
  }

  ghost predicate Enumerates(order: seq<Node>, keys: set<Node>) {
    (forall a :: a in order <==> a in keys) && Increasing(order)
  }

  /** The table after the first `i` nodes of a sweep. */
  ghost function SweepTo<V>(f: (map<Node, V>, Node) -> V, order: seq<Node>, t: map<Node, V>, i: nat): map<Node, V>
    requires i <= |order|
  {
    if i == 0 then t
    else var mid := SweepTo(f, order, t, i - 1); mid[order[i - 1] := f(mid, order[i - 1])]
  }

  ghost function Sweep<V>(f: (map<Node, V>, Node) -> V, order: seq<Node>, t: map<Node, V>): map<Node, V> {
    SweepTo(f, order, t, |order|)
  }

  /** The table after `n` whole sweeps. */
  ghost function SweepTimes<V>(f: (map<Node, V>, Node) -> V, order: seq<Node>, t: map<Node, V>, n: nat): map<Node, V> {
    if n == 0 then t else Sweep(f, order, SweepTimes(f, order, t, n - 1))
  }

  ghost predicate SameAt<V>(t: map<Node, V>, u: map<Node, V>, a: Node) {
    (a in t <==> a in u) && (a in t ==> t[a] == u[a])
  }

  lemma {:induction false} SweepTouchesPrefix<V>(
    f: (map<Node, V>, Node) -> V, order: seq<Node>, t: map<Node, V>, i: nat, a: Node)
    requires i <= |order| && a !in order[..i]
    ensures SameAt(SweepTo(f, order, t, i), t, a)
  {
    if i > 0 {
      assert order[i - 1] in order[..i];
      assert order[..i][..i - 1] == order[..i - 1];
      SweepTouchesPrefix(f, order, t, i - 1, a);
    }
  }

  /** What a step of a sweep writes is not touched by the later steps. */
  lemma {:induction false} LaterStepsKeep<V>(
    f: (map<Node, V>, Node) -> V, order: seq<Node>, t: map<Node, V>, k: nat, j: nat)
    requires Increasing(order) && k < j <= |order|
    ensures SameAt(SweepTo(f, order, t, j), SweepTo(f, order, t, k + 1), order[k])
  {
    if k + 1 < j {
      LaterStepsKeep(f, order, t, k, j - 1);
      assert order[k] < order[j - 1];
    }
  }

  /** A sweep that returns its input leaves it alone at every step, so every node is at a fixpoint. */
  lemma {:induction false} StableSweep<V>(f: (map<Node, V>, Node) -> V, order: seq<Node>, t: map<Node, V>, i: nat)
    requires Increasing(order) && i <= |order|
    requires Sweep(f, order, t) == t
    ensures SweepTo(f, order, t, i) == t
    ensures forall j :: 0 <= j < i ==> order[j] in t && t[order[j]] == f(t, order[j])
  {
    if i > 0 {
      StableSweep(f, order, t, i - 1);
      LaterStepsKeep(f, order, t, i - 1, |order|);
      assert SweepTo(f, order, t, i) == t[order[i - 1] := f(t, order[i - 1])];
    }
  }

  /** Once a sweep changes nothing, no later sweep does: stopping early is running them all. */
  lemma {:induction false} EarlyStopIsFinal<V>(
    f: (map<Node, V>, Node) -> V, order: seq<Node>, t: map<Node, V>, n: nat, m: nat)
    requires 0 < n <= m
    requires SweepTimes(f, order, t, n) == SweepTimes(f, order, t, n - 1)
    ensures SweepTimes(f, order, t, m) == SweepTimes(f, order, t, n)
    ensures SweepTimes(f, order, t, m) == SweepTimes(f, order, t, m - 1)
  {
    if n < m {
      EarlyStopIsFinal(f, order, t, n, m - 1);
    }
  }

  /** A relation kept by every pair of steps is kept by sweeping side by side. */
  lemma {:induction false} SweepTogether<V(!new)>(
    f: (map<Node, V>, Node) -> V, f': (map<Node, V>, Node) -> V, order: seq<Node>, t: map<Node, V>, t': map<Node, V>,
    i: nat, related: (nat, map<Node, V>, map<Node, V>) -> bool)
    requires i <= |order| && related(0, t, t')
    requires forall u, u', k :: 0 <= k < |order| && related(k, u, u') ==>
               related(k + 1, u[order[k] := f(u, order[k])], u'[order[k] := f'(u', order[k])])
    ensures related(i, SweepTo(f, order, t, i), SweepTo(f', order, t', i))
  {
    if i > 0 { SweepTogether(f, f', order, t, t', i - 1, related); }
  }

  method Least(s: set<Node>) returns (least: Node)
    requires s != {}
    ensures least in s && forall x :: x in s ==> least <= x
  {
    least :| least in s;
    var seen := {least};
    while seen != s
      invariant least in seen && seen <= s
      invariant forall x :: x in seen ==> least <= x
      decreases |s - seen|
    {
      var x :| x in s - seen;
      ghost var left := s - seen;
      seen := seen + {x};
      assert s - seen == left - {x};
      if x < least { least := x; }
    }
  }

  method SortedKeys(keys: set<Node>) returns (order: seq<Node>)
    ensures Enumerates(order, keys)
  {
    order := [];
    var todo := keys;
    while todo != {}
      invariant todo <= keys
      invariant forall a :: a in order <==> a in keys - todo
      invariant Increasing(order)
      invariant forall a, b :: a in order && b in todo ==> a < b
      decreases |todo|
    {
      var least := Least(todo);
      ghost var before := order;
      forall j | 0 <= j < |order| ensures order[j] < least {
        assert order[j] in order;
      }
      order := order + [least];
      todo := todo - {least};
      assert forall a :: a in order <==> a in before || a == least;
    }
  }
}
