/**
  Modules on which the analysis converges, seen from the blocks alone.  A pass visits the blocks by
  address, so a block is behind its predecessors by one pass for every edge that goes back; ranks
  count these edges.  Entry blocks read no predecessors and start again, so a loop through one has
  ranks; the loop that never settles has none.
*/
module GuardForward {
  import opened Options
  import opened Sweeps
  import opened GuardModel
  import opened GuardFixpoint
  import opened GuardSoundness

  /** The block starts from the meet of its predecessors. */
  predicate ReadsPreds(cfg: Config, b: Block) {
    cfg.Modular() && (b.entry ==> cfg.NoEntry())
  }

  /** An edge forward keeps the rank or raises it, an edge back raises it. */
  ghost predicate Ranked(cfg: Config, g: Graph, rank: Addr -> nat) {
    forall a, p :: a in g.table && ReadsPreds(cfg, g.table[a]) && p in Preds(g.blocks, g.table, a) && p in g.table ==>
      if p < a then rank(p) <= rank(a) else rank(p) < rank(a)
  }

  /** Only blocks of the module have states. */
  lemma {:induction false} SweepStaysInside(cfg: Config, g: Graph, out: Outs, i: nat)
    requires IsGraph(g) && i <= |g.order| && out.Keys <= g.table.Keys
    ensures SweepTo(Step(cfg, g), g.order, out, i).Keys <= g.table.Keys
  {
    if i > 0 {
      SweepStaysInside(cfg, g, out, i - 1);
      assert g.order[i - 1] in g.order;
    }
  }

  lemma {:induction false} IterStaysInside(cfg: Config, g: Graph, n: nat)
    requires IsGraph(g)
    ensures Iter(cfg, g, n).Keys <= g.table.Keys
  {
    if n > 0 {
      IterStaysInside(cfg, g, n - 1);
      SweepStaysInside(cfg, g, Iter(cfg, g, n - 1), |g.order|);
    }
  }

  /** The two tables agree on the ranks below `n`, and on rank `n` where the sweep has passed. */
  ghost predicate AgreeUpTo(g: Graph, rank: Addr -> nat, n: nat, out: Outs, out': Outs, passed: seq<Addr>) {
    forall a :: a in g.table && (rank(a) < n || (rank(a) == n && a in passed)) ==> SameAt(out, out', a)
  }

  lemma PredAgrees(cfg: Config, g: Graph, rank: Addr -> nat, n: nat, out: Outs, out': Outs, i: nat, a: Addr, p: Addr)
    requires IsGraph(g) && Ranked(cfg, g, rank) && i < |g.order| && a == g.order[i] && rank(a) <= n
    requires out.Keys <= g.table.Keys && out'.Keys <= g.table.Keys
    requires AgreeUpTo(g, rank, n, out, out', g.order[..i])
    requires a in g.table && ReadsPreds(cfg, g.table[a]) && p in Preds(g.blocks, g.table, a)
    ensures SameAt(out, out', p)
  {
    if p in g.table && p < a { PassedBefore(g.order, i, p); }
  }

  /** What a block of rank `n` or less reads has been fixed before its turn. */
  lemma StepAgrees(cfg: Config, g: Graph, rank: Addr -> nat, n: nat, out: Outs, out': Outs, i: nat)
    requires IsGraph(g) && Ranked(cfg, g, rank) && i < |g.order| && rank(g.order[i]) <= n
    requires out.Keys <= g.table.Keys && out'.Keys <= g.table.Keys
    requires AgreeUpTo(g, rank, n, out, out', g.order[..i])
    ensures g.order[i] in g.table && Step(cfg, g)(out, g.order[i]) == Step(cfg, g)(out', g.order[i])
  {
    var a := g.order[i];
    assert a in g.order;
    if ReadsPreds(cfg, g.table[a]) {
      forall p | p in Preds(g.blocks, g.table, a) ensures SameAt(out, out', p) {
        PredAgrees(cfg, g, rank, n, out, out', i, a, p);
      }
      AvailableSame(out, out', Preds(g.blocks, g.table, a));
    }
  }

  /** A pass has visited every smaller address. */
  lemma PassedBefore(order: seq<Addr>, i: nat, p: Addr)
    requires Increasing(order) && i < |order| && p in order && p < order[i]
    ensures p in order[..i]
  {
    var j :| 0 <= j < |order| && order[j] == p;
    assert j < i;
  }

  lemma UpdateAgrees(g: Graph, rank: Addr -> nat, n: nat, out: Outs, out': Outs, i: nat, o: State, o': State)
    requires i < |g.order| && AgreeUpTo(g, rank, n, out, out', g.order[..i]) && (rank(g.order[i]) <= n ==> o == o')
    ensures AgreeUpTo(g, rank, n, out[g.order[i] := o], out'[g.order[i] := o'], g.order[..i + 1])
  {
    assert g.order[..i + 1] == g.order[..i] + [g.order[i]];
  }

  /** Two tables of the module that agree as far as a pass has come. */
  ghost predicate AgreeAt(g: Graph, rank: Addr -> nat, n: nat, i: nat, out: Outs, out': Outs) {
    && i <= |g.order| && out.Keys <= g.table.Keys && out'.Keys <= g.table.Keys
    && AgreeUpTo(g, rank, n, out, out', g.order[..i])
  }

  lemma PassStepAgrees(cfg: Config, g: Graph, rank: Addr -> nat, n: nat, i: nat, out: Outs, out': Outs)
    requires IsGraph(g) && Ranked(cfg, g, rank) && i < |g.order| && AgreeAt(g, rank, n, i, out, out')
    ensures var a := g.order[i];
            AgreeAt(g, rank, n, i + 1, out[a := Step(cfg, g)(out, a)], out'[a := Step(cfg, g)(out', a)])
  {
    var a := g.order[i];
    assert a in g.order;
    if rank(a) <= n { StepAgrees(cfg, g, rank, n, out, out', i); }
    UpdateAgrees(g, rank, n, out, out', i, Step(cfg, g)(out, a), Step(cfg, g)(out', a));
  }

  lemma PassAgrees(cfg: Config, g: Graph, rank: Addr -> nat, n: nat, out: Outs, out': Outs)
    requires IsGraph(g) && Ranked(cfg, g, rank) && AgreeAt(g, rank, n, 0, out, out')
    ensures AgreeAt(g, rank, n, |g.order|, Sweep(Step(cfg, g), g.order, out), Sweep(Step(cfg, g), g.order, out'))
  {
    var f, related := Step(cfg, g), (i: nat, u, u') => AgreeAt(g, rank, n, i, u, u');
    forall u, u', i | 0 <= i < |g.order| && related(i, u, u')
      ensures related(i + 1, u[g.order[i] := f(u, g.order[i])], u'[g.order[i] := f(u', g.order[i])])
    {
      PassStepAgrees(cfg, g, rank, n, i, u, u');
    }
    SweepTogether(f, f, g.order, out, out', |g.order|, related);
  }

  /** A whole pass fixes one more rank. */
  lemma PassFixesRank(cfg: Config, g: Graph, rank: Addr -> nat, n: nat, out: Outs, out': Outs)
    requires IsGraph(g) && Ranked(cfg, g, rank)
    requires out.Keys <= g.table.Keys && out'.Keys <= g.table.Keys
    requires AgreeUpTo(g, rank, n, out, out', [])
    ensures AgreeUpTo(g, rank, n + 1, Sweep(Step(cfg, g), g.order, out), Sweep(Step(cfg, g), g.order, out'), [])
  {
    assert g.order[..0] == [];
    PassAgrees(cfg, g, rank, n, out, out');
    EveryRankPassed(g, rank, n, Sweep(Step(cfg, g), g.order, out), Sweep(Step(cfg, g), g.order, out'));
  }

  lemma EveryRankPassed(g: Graph, rank: Addr -> nat, n: nat, out: Outs, out': Outs)
    requires Enumerates(g.order, g.table.Keys) && AgreeUpTo(g, rank, n, out, out', g.order[..|g.order|])
    ensures AgreeUpTo(g, rank, n + 1, out, out', [])
  {
    assert g.order[..|g.order|] == g.order;
  }

  lemma OneMorePass(cfg: Config, g: Graph, n: nat)
    ensures Iter(cfg, g, n + 1) == Sweep(Step(cfg, g), g.order, Iter(cfg, g, n))
  {
  }

  lemma NextRankSettles(cfg: Config, g: Graph, rank: Addr -> nat, n: nat, u: Outs, v: Outs, w: Outs)
    requires IsGraph(g) && Ranked(cfg, g, rank) && u.Keys <= g.table.Keys && v.Keys <= g.table.Keys
    requires v == Sweep(Step(cfg, g), g.order, u) && w == Sweep(Step(cfg, g), g.order, v)
    requires AgreeUpTo(g, rank, n, u, v, [])
    ensures AgreeUpTo(g, rank, n + 1, v, w, [])
  {
    PassFixesRank(cfg, g, rank, n, u, v);
  }

  /** After `n` passes the blocks of rank below `n` do not change any more. */
  lemma {:induction false} RanksSettle(cfg: Config, g: Graph, rank: Addr -> nat, n: nat)
    requires IsGraph(g) && Ranked(cfg, g, rank)
    ensures AgreeUpTo(g, rank, n, Iter(cfg, g, n), Iter(cfg, g, n + 1), [])
  {
    if n > 0 {
      var m := n - 1;
      RanksSettle(cfg, g, rank, m);
      IterStaysInside(cfg, g, m);
      IterStaysInside(cfg, g, n);
      OneMorePass(cfg, g, m);
      OneMorePass(cfg, g, n);
      NextRankSettles(cfg, g, rank, m, Iter(cfg, g, m), Iter(cfg, g, n), Iter(cfg, g, n + 1));
    }
  }

  /** Ranks below `n` everywhere: `n` passes settle the module. */
  lemma RankedSettles(cfg: Config, g: Graph, rank: Addr -> nat, n: nat)
    requires IsGraph(g) && Ranked(cfg, g, rank) && forall a :: a in g.table ==> rank(a) < n
    ensures Iter(cfg, g, n + 1) == Iter(cfg, g, n)
  {
    RanksSettle(cfg, g, rank, n);
    IterStaysInside(cfg, g, n);
    IterStaysInside(cfg, g, n + 1);
    SameEverywhere(g, rank, n, Iter(cfg, g, n), Iter(cfg, g, n + 1));
  }

  lemma SameEverywhere(g: Graph, rank: Addr -> nat, n: nat, out: Outs, out': Outs)
    requires out.Keys <= g.table.Keys && out'.Keys <= g.table.Keys
    requires AgreeUpTo(g, rank, n, out, out', []) && forall a :: a in g.table ==> rank(a) < n
    ensures out' == out
  {
    forall a | a in g.table ensures (a in out <==> a in out') && (a in out ==> out[a] == out'[a]) {
      assert rank(a) < n && SameAt(out, out', a);
    }
  }

  /** With ranks below the pass cap, less one, the analysis converges. */
  lemma RankedConverges(cfg: Config, g: Graph, rank: Addr -> nat)
    requires IsGraph(g) && Ranked(cfg, g, rank) && forall a :: a in g.table ==> rank(a) < MAX_PASSES - 1
    ensures Converged(cfg, g)
  {
    RankedSettles(cfg, g, rank, MAX_PASSES - 1);
  }

  /** Every edge into a block that reads its predecessors goes to a larger address. */
  ghost predicate Forward(cfg: Config, g: Graph) {
    forall a, p :: a in g.table && ReadsPreds(cfg, g.table[a]) && p in Preds(g.blocks, g.table, a) && p in g.table ==>
      p < a
  }

  /** Then one pass is enough. */
  lemma ForwardSettlesAtOnce(cfg: Config, g: Graph)
    requires IsGraph(g) && Forward(cfg, g)
    ensures Iter(cfg, g, 2) == Iter(cfg, g, 1) && Converged(cfg, g)
  {
    RankedSettles(cfg, g, _ => 0, 1);
    RankedConverges(cfg, g, _ => 0);
  }

  /** On a ranked module members need no check of their own, whatever the analysis reports of itself. */
  lemma RankedMembersAreChecked(
    cfg: Config, g: Graph, rank: Addr -> nat, run: seq<Place>, i: nat, ext: map<Anchor, (int, int)>)
    returns (j: nat)
    requires IsGraph(g) && Ranked(cfg, g, rank) && forall a :: a in g.table ==> rank(a) < MAX_PASSES - 1
    requires IsRun(g, run) && i < |run| && Realisable(cfg)
    requires IsAccess(g, run[i]) && RecordFor(cfg, g, Final(cfg, g), run[i]).member
    requires IsHull(Census(cfg, g, Final(cfg, g), |g.order|), ext)
    ensures EventAt(g, run[i]).key.Some? && j < i
    ensures Latest(cfg, g, Final(cfg, g), run, i, EventAt(g, run[i]).key.value) == Some(j)
    ensures StandsFor(cfg.Sep(), g, run[j], run[i], RecordFor(cfg, g, Final(cfg, g), run[i]), ext)
    ensures CheckedByAll(RecordFor(cfg, g, Final(cfg, g), run[i]), ext)
    ensures !RecordFor(cfg, g, Final(cfg, g), run[j]).member
  {
    RankedConverges(cfg, g, rank);
    j := MembersAreChecked(cfg, g, run, i, ext);
  }
}
