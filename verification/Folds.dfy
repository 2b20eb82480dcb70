/**
  Folding a function over a sequence, and iterating one.
*/
module Folds {
  function Fold<S, A>(g: (S, A) -> S, s: S, xs: seq<A>): S {
    if xs == [] then s else g(Fold(g, s, xs[..|xs| - 1]), xs[|xs| - 1])
  }

  function Iter<T>(f: T -> T, x: T, n: nat): T {
    if n == 0 then x else f(Iter(f, x, n - 1))
  }

  function Flatten<T>(parts: seq<seq<T>>): seq<T> {
    if parts == [] then [] else Flatten(parts[..|parts| - 1]) + parts[|parts| - 1]
  }

  lemma FlattenOfMore<T>(parts: seq<seq<T>>, i: nat)
    requires i < |parts|
    ensures Flatten(parts[..i + 1]) == Flatten(parts[..i]) + parts[i]
  {
    assert parts[..i + 1][..i] == parts[..i];
  }

  lemma FoldSnoc<S, A>(g: (S, A) -> S, s: S, xs: seq<A>, x: A)
    ensures Fold(g, s, xs + [x]) == g(Fold(g, s, xs), x)
  {
    assert (xs + [x])[..|xs|] == xs;
  }

  /** Folding does not depend on where the sequence is split. */
  lemma {:induction false} FoldOfParts<S, A>(g: (S, A) -> S, s: S, a: seq<A>, b: seq<A>)
    ensures Fold(g, s, a + b) == Fold(g, Fold(g, s, a), b)
  {
    if b == [] {
      assert a + b == a;
    } else {
      var last := |b| - 1;
      assert (a + b)[..|a + b| - 1] == a + b[..last];
      FoldOfParts(g, s, a, b[..last]);
    }
  }

  method Repeat<T>(f: T -> T, x: T, n: nat) returns (y: T)
    ensures y == Iter(f, x, n)
  {
    y := x;
    for j := 0 to n
      invariant y == Iter(f, x, j)
    {
      y := f(y);
    }
  }

  /** A table of iterates, one per index. */
  method Tabulate<T(0)>(size: nat, start: int -> T, step: T -> T, n: nat) returns (t: seq<T>)
    ensures |t| == size && forall i :: 0 <= i < size ==> t[i] == Iter(step, start(i), n)
  {
    var table := new T[size];
    for i := 0 to size
      invariant forall k :: 0 <= k < i ==> table[k] == Iter(step, start(k), n)
    {
      table[i] := Repeat(step, start(i), n);
    }
    t := table[..];
  }
}
