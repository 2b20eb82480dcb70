/**
  Loops of one block.  Where every key has heights, a block that branches to itself settles one pass
  after what else it reads: a key it keeps comes round with the anchors it went in with.  So ranks may
  leave such edges aside.
*/
module GuardSelfLoops {
  import opened Options
  import opened Sweeps
  import opened GuardModel
  import opened GuardFixpoint
  import opened GuardHeights
  import opened GuardSoundness
  import opened GuardForward

  // ---- what a block does to one key ----

  function Status(st: State, k: Key): Option<Cover> {
    if k in st then Some(st[k]) else None
  }

  /** Some event among the first `n` gives the key up. */
  predicate Killed(k: Key, b: Block, n: nat)
    requires n <= |b.sites|
  {
    n > 0 && (Killed(k, b, n - 1) || GivesUp(k, b.sites[n - 1].ev))
  }

  predicate GivesUp(k: Key, e: Event) {
    e.KillAll? || (e.RegWrite? && !Survives(WITH, k, e.reg, e.delta))
  }

  /** The key's status after a site depends on its status before. */
  lemma SiteLocal(cfg: Config, k: Key, a: Addr, site: Site, s: State, t: State)
    requires Compared(cfg) && (GivesUp(k, site.ev) || Status(s, k) == Status(t, k))
    ensures Status(AfterSite(cfg, a, site, s), k) == Status(AfterSite(cfg, a, site, t), k)
  {
  }

  lemma {:induction false} BlockLocal(cfg: Config, k: Key, b: Block, s: State, t: State, n: nat)
    requires Compared(cfg) && n <= |b.sites| && (Killed(k, b, n) || Status(s, k) == Status(t, k))
    ensures Status(StateAt(cfg, b, s, n), k) == Status(StateAt(cfg, b, t, n), k)
  {
    if n > 0 {
      if Killed(k, b, n - 1) || Status(s, k) == Status(t, k) { BlockLocal(cfg, k, b, s, t, n - 1); }
      SiteLocal(cfg, k, b.addr, b.sites[n - 1], StateAt(cfg, b, s, n - 1), StateAt(cfg, b, t, n - 1));
    }
  }

  /** A key that is not given up keeps its anchors. */
  lemma {:induction false} BlockPasses(cfg: Config, k: Key, b: Block, s: State, n: nat)
    requires Compared(cfg) && n <= |b.sites| && !Killed(k, b, n) && k in s
    ensures k in StateAt(cfg, b, s, n) && StateAt(cfg, b, s, n)[k].anchors == s[k].anchors
  {
    if n > 0 { BlockPasses(cfg, k, b, s, n - 1); }
  }

  // ---- what a block reads ----

  /** The states read differ at most in the block's own. */
  ghost predicate OwnOnly(ss: seq<State>, ss': seq<State>, o: State, o': State) {
    |ss| == |ss'| && forall i :: 0 <= i < |ss| ==> ss'[i] == ss[i] || (ss[i] == o && ss'[i] == o')
  }

  lemma {:induction false} AvailableOwnOnly(out: Outs, out': Outs, ps: seq<Addr>, a: Addr)
    requires a in out && a in out' && forall p :: p in ps && p != a ==> SameAt(out, out', p)
    ensures OwnOnly(Available(out, ps), Available(out', ps), out[a], out'[a])
  {
    if ps != [] {
      assert ps[|ps| - 1] in ps;
      AvailableOwnOnly(out, out', ps[..|ps| - 1], a);
    }
  }

  /** Every one that has the key has it at one displacement, good for writes. */
  ghost predicate Even(ss: seq<State>, k: Key, v: Option<int>) {
    forall s: State :: s in ss && k in s ==> v == Some(s[k].delta) && s[k].cap.ReadWrite?
  }

  lemma MeetIsAll(ss: seq<State>, k: Key, v: Option<int>)
    requires Even(ss, k, v)
    ensures k in Meet(ss) <==> ss != [] && forall s: State :: s in ss ==> k in s
    ensures k in Meet(ss) ==> Some(Meet(ss)[k].delta) == v && Meet(ss)[k].cap.ReadWrite?
                              && Meet(ss)[k].anchors == AnchorsUpTo(ss, k, |ss|)
  {
    if ss != [] { assert ss[0] in ss; }
  }

  /** The block's own state has, of the key, the anchors of the meet: meeting it again adds nothing. */
  lemma SameAnchors(ss: seq<State>, ss': seq<State>, k: Key, o: State, o': State)
    requires OwnOnly(ss, ss', o, o') && (forall s: State :: s in ss ==> k in s)
    requires k in o' && o'[k].anchors == AnchorsUpTo(ss, k, |ss|) && o in ss
    ensures AnchorsUpTo(ss', k, |ss|) == AnchorsUpTo(ss, k, |ss|)
  {
    var n := |ss|;
    forall an ensures an in AnchorsUpTo(ss', k, n) <==> an in AnchorsUpTo(ss, k, n) {
      UpToMeans(ss, k, n, an);
      UpToMeans(ss', k, n, an);
      if an in AnchorsUpTo(ss, k, n) {
        var i :| 0 <= i < n && k in ss[i] && an in ss[i][k].anchors;
        assert k in ss'[i] && an in ss'[i][k].anchors;
      }
    }
  }

  /**
    One key.  `o` came out of the block, `o'` comes out of it when it reads `ss`; reading `o'` in place
    of `o` then makes no difference to what comes out.
  */
  lemma KeySettles(
    cfg: Config, k: Key, v: Option<int>, b: Block, ss: seq<State>, ss': seq<State>, s0: State, o: State, o': State)
    requires Compared(cfg) && Even(ss, k, v) && Even(ss', k, v) && OwnOnly(ss, ss', o, o')
    requires o == Transfer(cfg, b, s0) && o' == Transfer(cfg, b, Meet(ss))
    ensures Status(Transfer(cfg, b, Meet(ss')), k) == Status(o', k)
  {
    var n := |b.sites|;
    if !Killed(k, b, n) {
      MeetIsAll(ss, k, v);
      MeetIsAll(ss', k, v);
      if k in Meet(ss) {
        BlockPasses(cfg, k, b, Meet(ss), n);
        KeptRound(k, v, ss, ss', o, o');
      } else {
        LostStaysLost(cfg, k, b, ss, ss', s0, o, o');
      }
    }
    BlockLocal(cfg, k, b, Meet(ss), Meet(ss'), n);
  }

  lemma KeptRound(k: Key, v: Option<int>, ss: seq<State>, ss': seq<State>, o: State, o': State)
    requires Even(ss, k, v) && Even(ss', k, v) && OwnOnly(ss, ss', o, o') && k in Meet(ss)
    requires k in o' && o'[k].anchors == Meet(ss)[k].anchors
    ensures Status(Meet(ss'), k) == Status(Meet(ss), k)
  {
    MeetIsAll(ss, k, v);
    MeetIsAll(ss', k, v);
    forall s: State | s in ss' ensures k in s {
      var i :| 0 <= i < |ss'| && ss'[i] == s;
      assert ss[i] in ss;
    }
    if o in ss { SameAnchors(ss, ss', k, o, o'); } else { assert ss' == ss; }
  }

  lemma LostStaysLost(cfg: Config, k: Key, b: Block, ss: seq<State>, ss': seq<State>, s0: State, o: State, o': State)
    requires Compared(cfg) && OwnOnly(ss, ss', o, o') && !Killed(k, b, |b.sites|)
    requires o == Transfer(cfg, b, s0) && o' == Transfer(cfg, b, Meet(ss)) && k !in Meet(ss)
    requires ss == [] || exists s: State :: s in ss && k !in s
    ensures k !in Meet(ss')
  {
    if ss != [] {
      var s: State :| s in ss && k !in s;
      var i :| 0 <= i < |ss| && ss[i] == s;
      if ss'[i] != ss[i] {
        if k in s0 { BlockPasses(cfg, k, b, s0, |b.sites|); }
        BlockLocal(cfg, k, b, s0, Meet(ss), |b.sites|);
      }
      assert ss'[i] in ss' && k !in ss'[i];
    }
  }

  // ---- the same for all keys ----

  ghost predicate Levelling(g: Graph, heights: Key -> (Addr -> Option<int>)) {
    forall k :: Levelled(g, k, heights(k))
  }

  ghost predicate AllFollow(g: Graph, heights: Key -> (Addr -> Option<int>), out: Outs) {
    forall k :: OutsFollow(g, k, heights(k), out)
  }

  lemma StatesEqual(s: State, t: State)
    requires forall k :: Status(s, k) == Status(t, k)
    ensures s == t
  {
    forall k ensures k in s <==> k in t { assert Status(s, k) == Status(t, k); }
    forall k | k in s ensures s[k] == t[k] { assert Status(s, k) == Status(t, k); }
  }

  lemma ReadsEvenly(g: Graph, k: Key, h: Addr -> Option<int>, out: Outs, a: Addr)
    requires Levelled(g, k, h) && OutsFollow(g, k, h, out) && a in g.table
    ensures Even(Available(out, Preds(g.blocks, g.table, a)), k, h(a))
  {
    var ps := Preds(g.blocks, g.table, a);
    forall s: State | s in Available(out, ps) && k in s ensures h(a) == Some(s[k].delta) && s[k].cap.ReadWrite? {
      AvailableFollows(g, k, h, out, a, s);
      AvailableMeaning(out, ps, s);
    }
  }

  /** A block that reads at most its own state afresh, after one turn on it, stays as it is. */
  lemma OwnStateSettles(
    cfg: Config, g: Graph, heights: Key -> (Addr -> Option<int>), out: Outs, out': Outs, a: Addr, s0: State)
    requires Compared(cfg) && Levelling(g, heights) && AllFollow(g, heights, out) && AllFollow(g, heights, out')
    requires a in g.table && a in out && a in out' && out[a] == Transfer(cfg, g.table[a], s0)
    requires out'[a] == Step(cfg, g)(out, a)
    requires forall p :: p in Preds(g.blocks, g.table, a) && p != a ==> SameAt(out, out', p)
    ensures Step(cfg, g)(out', a) == out'[a]
  {
    var ps := Preds(g.blocks, g.table, a);
    if ReadsPreds(cfg, g.table[a]) && ps != [] {
      var ss, ss' := Available(out, ps), Available(out', ps);
      AvailableOwnOnly(out, out', ps, a);
      forall k ensures Status(Transfer(cfg, g.table[a], Meet(ss')), k) == Status(out'[a], k) {
        assert Levelled(g, k, heights(k)) && OutsFollow(g, k, heights(k), out) && OutsFollow(g, k, heights(k), out');
        ReadsEvenly(g, k, heights(k), out, a);
        ReadsEvenly(g, k, heights(k), out', a);
        KeySettles(cfg, k, heights(k)(a), g.table[a], ss, ss', s0, out[a], out'[a]);
      }
      StatesEqual(Transfer(cfg, g.table[a], Meet(ss')), out'[a]);
    }
  }

  // ---- passes ----

  lemma StepAllFollow(cfg: Config, g: Graph, heights: Key -> (Addr -> Option<int>), out: Outs, a: Addr)
    requires Compared(cfg) && a in g.table && Levelling(g, heights) && AllFollow(g, heights, out)
    ensures AllFollow(g, heights, out[a := Step(cfg, g)(out, a)])
  {
    forall k ensures OutsFollow(g, k, heights(k), out[a := Step(cfg, g)(out, a)]) {
      assert Levelled(g, k, heights(k)) && OutsFollow(g, k, heights(k), out);
      StepFollows(cfg, g, k, heights(k), out, a);
    }
  }

  lemma SweepAllFollow(cfg: Config, g: Graph, heights: Key -> (Addr -> Option<int>), out: Outs, i: nat)
    requires Compared(cfg) && Ordered(g) && i <= |g.order| && Levelling(g, heights) && AllFollow(g, heights, out)
    ensures AllFollow(g, heights, SweepTo(Step(cfg, g), g.order, out, i))
  {
    var f, related := Step(cfg, g), (k: nat, u, u': Outs) => AllFollow(g, heights, u);
    forall u, u', k | 0 <= k < |g.order| && related(k, u, u')
      ensures related(k + 1, u[g.order[k] := f(u, g.order[k])], u'[g.order[k] := f(u', g.order[k])])
    {
      assert g.order[k] in g.order;
      StepAllFollow(cfg, g, heights, u, g.order[k]);
    }
    SweepTogether(f, f, g.order, out, out, i, related);
  }

  lemma {:induction false} IterAllFollow(cfg: Config, g: Graph, heights: Key -> (Addr -> Option<int>), n: nat)
    requires Compared(cfg) && Ordered(g) && Levelling(g, heights)
    ensures AllFollow(g, heights, Iter(cfg, g, n))
  {
    if n > 0 {
      IterAllFollow(cfg, g, heights, n - 1);
      SweepAllFollow(cfg, g, heights, Iter(cfg, g, n - 1), |g.order|);
    }
  }

  /** Ranks that leave a block's edges to itself aside. */
  ghost predicate LooselyRanked(cfg: Config, g: Graph, rank: Addr -> nat) {
    forall a, p :: a in g.table && ReadsPreds(cfg, g.table[a]) && p in Preds(g.blocks, g.table, a) && p in g.table ==>
      (p < a ==> rank(p) <= rank(a)) && (p > a ==> rank(p) < rank(a))
  }

  lemma StepOfSame(cfg: Config, g: Graph, out: Outs, out': Outs, a: Addr)
    requires a in g.table
    requires ReadsPreds(cfg, g.table[a]) ==> forall p :: p in Preds(g.blocks, g.table, a) ==> SameAt(out, out', p)
    ensures Step(cfg, g)(out, a) == Step(cfg, g)(out', a)
  {
    if ReadsPreds(cfg, g.table[a]) { AvailableSame(out, out', Preds(g.blocks, g.table, a)); }
  }

  /** What agrees below rank `n` before a pass agrees there after it. */
  ghost predicate AgreeBelow(g: Graph, rank: Addr -> nat, n: nat, i: nat, out: Outs, out': Outs) {
    && i <= |g.order| && out.Keys <= g.table.Keys && out'.Keys <= g.table.Keys
    && AgreeUpTo(g, rank, n, out, out', [])
  }

  lemma PredsBelow(cfg: Config, g: Graph, rank: Addr -> nat, n: nat, out: Outs, out': Outs, a: Addr)
    requires LooselyRanked(cfg, g, rank) && a in g.table && rank(a) < n && ReadsPreds(cfg, g.table[a])
    requires out.Keys <= g.table.Keys && out'.Keys <= g.table.Keys && AgreeUpTo(g, rank, n, out, out', [])
    ensures forall p :: p in Preds(g.blocks, g.table, a) ==> SameAt(out, out', p)
  {
    forall p | p in Preds(g.blocks, g.table, a) ensures SameAt(out, out', p) {
      if p in g.table { assert rank(p) <= rank(a); }
    }
  }

  lemma UpdateBelow(g: Graph, rank: Addr -> nat, n: nat, out: Outs, out': Outs, a: Addr, o: State, o': State)
    requires AgreeUpTo(g, rank, n, out, out', []) && (rank(a) < n ==> o == o')
    ensures AgreeUpTo(g, rank, n, out[a := o], out'[a := o'], [])
  {
  }

  lemma StepKeepsBelow(cfg: Config, g: Graph, rank: Addr -> nat, n: nat, i: nat, out: Outs, out': Outs)
    requires IsGraph(g) && LooselyRanked(cfg, g, rank) && i < |g.order| && AgreeBelow(g, rank, n, i, out, out')
    ensures var a := g.order[i];
            AgreeBelow(g, rank, n, i + 1, out[a := Step(cfg, g)(out, a)], out'[a := Step(cfg, g)(out', a)])
  {
    var a := g.order[i];
    assert a in g.order;
    if rank(a) < n {
      if ReadsPreds(cfg, g.table[a]) { PredsBelow(cfg, g, rank, n, out, out', a); }
      StepOfSame(cfg, g, out, out', a);
    }
    UpdateBelow(g, rank, n, out, out', a, Step(cfg, g)(out, a), Step(cfg, g)(out', a));
  }

  lemma PassKeepsBelow(cfg: Config, g: Graph, rank: Addr -> nat, n: nat, out: Outs, out': Outs)
    requires IsGraph(g) && LooselyRanked(cfg, g, rank) && AgreeBelow(g, rank, n, 0, out, out')
    ensures AgreeBelow(g, rank, n, |g.order|, Sweep(Step(cfg, g), g.order, out), Sweep(Step(cfg, g), g.order, out'))
  {
    var f, related := Step(cfg, g), (i: nat, u, u') => AgreeBelow(g, rank, n, i, u, u');
    forall u, u', i | 0 <= i < |g.order| && related(i, u, u')
      ensures related(i + 1, u[g.order[i] := f(u, g.order[i])], u'[g.order[i] := f(u', g.order[i])])
    {
      StepKeepsBelow(cfg, g, rank, n, i, u, u');
    }
    SweepTogether(f, f, g.order, out, out', |g.order|, related);
  }

  /** What a pass leaves at a block is what its step made of the table at its turn. */
  lemma PassLeaves(cfg: Config, g: Graph, out: Outs, i: nat)
    requires Increasing(g.order) && i < |g.order|
    ensures var mid, a := SweepTo(Step(cfg, g), g.order, out, i), g.order[i];
            && SameAt(mid, out, a) && a in Sweep(Step(cfg, g), g.order, out)
            && Sweep(Step(cfg, g), g.order, out)[a] == Step(cfg, g)(mid, a)
  {
    SweepTouchesPrefix(Step(cfg, g), g.order, out, i, g.order[i]);
    LaterStepsKeep(Step(cfg, g), g.order, out, i, |g.order|);
  }

  lemma StepIsSomeTransfer(cfg: Config, g: Graph, out: Outs, a: Addr)
    requires a in g.table
    ensures Step(cfg, g)(out, a) == Transfer(cfg, g.table[a], InState(cfg, g, out, a))
  {
  }

  /** Three tables, each a pass from the one before, that follow the heights. */
  ghost predicate Passes(cfg: Config, g: Graph, heights: Key -> (Addr -> Option<int>), u0: Outs, u1: Outs, u2: Outs) {
    && AllFollow(g, heights, u1) && AllFollow(g, heights, u2)
    && u1 == Sweep(Step(cfg, g), g.order, u0) && u2 == Sweep(Step(cfg, g), g.order, u1)
  }

  /** In a third pass the blocks of rank `n` come out as in the second. */
  lemma SecondPassStays(
    cfg: Config, g: Graph, heights: Key -> (Addr -> Option<int>), rank: Addr -> nat, n: nat, 
    u0: Outs, u1: Outs, u2: Outs)
    requires Compared(cfg) && IsGraph(g) && LooselyRanked(cfg, g, rank) && Levelling(g, heights)
    requires Passes(cfg, g, heights, u0, u1, u2) && AgreeUpTo(g, rank, n, u1, u2, [])
    ensures AgreeUpTo(g, rank, n, Sweep(Step(cfg, g), g.order, u1), Sweep(Step(cfg, g), g.order, u2),
            g.order[..|g.order|])
  {
    var f := Step(cfg, g);
    var related := (i: nat, u, u') => Abreast(cfg, g, rank, n, u1, u2, i, u, u');
    assert g.order[..0] == [];
    forall u, u', i | 0 <= i < |g.order| && related(i, u, u')
      ensures related(i + 1, u[g.order[i] := f(u, g.order[i])], u'[g.order[i] := f(u', g.order[i])])
    {
      TurnStays(cfg, g, heights, rank, n, u0, u1, u2, i, u, u');
      NextTurn(cfg, g, u1, i);
      NextTurn(cfg, g, u2, i);
    }
    SweepTogether(f, f, g.order, u1, u2, |g.order|, related);
  }

  /** Two passes side by side, `i` blocks into each, that agree as far as they have come. */
  ghost predicate Abreast(
    cfg: Config, g: Graph, rank: Addr -> nat, n: nat, u1: Outs, u2: Outs, i: nat, mid: Outs, mid': Outs) {
    && i <= |g.order| && mid == SweepTo(Step(cfg, g), g.order, u1, i) && mid' == SweepTo(Step(cfg, g), g.order, u2, i)
    && AgreeUpTo(g, rank, n, mid, mid', g.order[..i])
  }

  lemma NextTurn(cfg: Config, g: Graph, u: Outs, i: nat)
    requires i < |g.order|
    ensures var mid, a := SweepTo(Step(cfg, g), g.order, u, i), g.order[i];
            SweepTo(Step(cfg, g), g.order, u, i + 1) == mid[a := Step(cfg, g)(mid, a)]
  {
  }

  lemma TurnStays(
    cfg: Config, g: Graph, heights: Key -> (Addr -> Option<int>), rank: Addr -> nat, n: nat,
    u0: Outs, u1: Outs, u2: Outs, i: nat, mid: Outs, mid': Outs)
    requires Compared(cfg) && IsGraph(g) && LooselyRanked(cfg, g, rank) && i < |g.order| && Levelling(g, heights)
    requires Passes(cfg, g, heights, u0, u1, u2) && AgreeUpTo(g, rank, n, mid, mid', g.order[..i])
    requires mid == SweepTo(Step(cfg, g), g.order, u1, i) && mid' == SweepTo(Step(cfg, g), g.order, u2, i)
    ensures var a := g.order[i];
            AgreeUpTo(g, rank, n, mid[a := Step(cfg, g)(mid, a)], mid'[a := Step(cfg, g)(mid', a)], g.order[..i + 1])
  {
    var a := g.order[i];
    assert a in g.order;
    if rank(a) <= n {
      SweepAllFollow(cfg, g, heights, u1, i);
      SweepAllFollow(cfg, g, heights, u2, i);
      FollowsInside(g, heights, mid);
      FollowsInside(g, heights, mid');
      OthersAllAgree(cfg, g, rank, n, mid, mid', i, a);
      if rank(a) == n {
        OwnTurn(cfg, g, heights, u0, u1, u2, i, a, mid, mid');
      } else {
        StepOfSame(cfg, g, mid, mid', a);
      }
    }
    UpdateAgrees(g, rank, n, mid, mid', i, Step(cfg, g)(mid, a), Step(cfg, g)(mid', a));
  }

  lemma FollowsInside(g: Graph, heights: Key -> (Addr -> Option<int>), out: Outs)
    requires AllFollow(g, heights, out)
    ensures out.Keys <= g.table.Keys
  {
    var k := Abs(Flat, 0);
    assert OutsFollow(g, k, heights(k), out);
  }

  lemma OwnTurn(
    cfg: Config, g: Graph, heights: Key -> (Addr -> Option<int>), u0: Outs, u1: Outs, u2: Outs, i: nat, a: Addr,
    mid: Outs, mid': Outs)
    requires Compared(cfg) && Increasing(g.order) && Levelling(g, heights) && i < |g.order| && a == g.order[i]
             && a in g.table
    requires u1 == Sweep(Step(cfg, g), g.order, u0) && u2 == Sweep(Step(cfg, g), g.order, u1)
    requires mid == SweepTo(Step(cfg, g), g.order, u1, i) && mid' == SweepTo(Step(cfg, g), g.order, u2, i)
    requires AllFollow(g, heights, mid) && AllFollow(g, heights, mid') && OthersSame(cfg, g, mid, mid', a)
    ensures Step(cfg, g)(mid', a) == Step(cfg, g)(mid, a)
  {
    if ReadsPreds(cfg, g.table[a]) {
      var before := SweepTo(Step(cfg, g), g.order, u0, i);
      PassLeaves(cfg, g, u0, i);
      PassLeaves(cfg, g, u1, i);
      PassLeaves(cfg, g, u2, i);
      StepIsSomeTransfer(cfg, g, before, a);
      OwnStateSettles(cfg, g, heights, mid, mid', a, InState(cfg, g, before, a));
    } else {
      StepOfSame(cfg, g, mid, mid', a);
    }
  }

  /** What the block reads of others is the same in both tables. */
  ghost predicate OthersSame(cfg: Config, g: Graph, out: Outs, out': Outs, a: Addr) {
    a in g.table && ReadsPreds(cfg, g.table[a]) ==>
      forall p :: p in Preds(g.blocks, g.table, a) && p != a ==> SameAt(out, out', p)
  }

  lemma OthersAllAgree(cfg: Config, g: Graph, rank: Addr -> nat, n: nat, out: Outs, out': Outs, i: nat, a: Addr)
    requires IsGraph(g) && LooselyRanked(cfg, g, rank) && i < |g.order| && a == g.order[i] && rank(a) <= n
             && a in g.table
    requires out.Keys <= g.table.Keys && out'.Keys <= g.table.Keys && AgreeUpTo(g, rank, n, out, out', g.order[..i])
    ensures OthersSame(cfg, g, out, out', a) && (rank(a) < n ==> SameAt(out, out', a))
  {
    if ReadsPreds(cfg, g.table[a]) {
      forall p | p in Preds(g.blocks, g.table, a) && p != a ensures SameAt(out, out', p) {
        OthersAgree(cfg, g, rank, n, out, out', i, a, p);
      }
    }
  }

  lemma OthersAgree(cfg: Config, g: Graph, rank: Addr -> nat, n: nat, out: Outs, out': Outs, i: nat, a: Addr, p: Addr)
    requires IsGraph(g) && LooselyRanked(cfg, g, rank) && i < |g.order| && a == g.order[i] && rank(a) <= n
             && a in g.table
    requires out.Keys <= g.table.Keys && out'.Keys <= g.table.Keys && AgreeUpTo(g, rank, n, out, out', g.order[..i])
    requires ReadsPreds(cfg, g.table[a]) && p in Preds(g.blocks, g.table, a) && p != a
    ensures SameAt(out, out', p)
  {
    if p in g.table && p < a { PassedBefore(g.order, i, p); }
  }

  /** Two more passes fix one more rank. */
  lemma TwoPassesFixRank(
    cfg: Config, g: Graph, heights: Key -> (Addr -> Option<int>), rank: Addr -> nat, n: nat,
    u0: Outs, u1: Outs, u2: Outs, u3: Outs)
    requires Compared(cfg) && IsGraph(g) && LooselyRanked(cfg, g, rank) && Levelling(g, heights)
    requires AllFollow(g, heights, u0) && u1 == Sweep(Step(cfg, g), g.order, u0)
    requires u2 == Sweep(Step(cfg, g), g.order, u1) && u3 == Sweep(Step(cfg, g), g.order, u2)
    requires AgreeUpTo(g, rank, n, u0, u1, [])
    ensures AgreeUpTo(g, rank, n + 1, u2, u3, [])
  {
    GraphIsOrdered(g);
    SweepAllFollow(cfg, g, heights, u0, |g.order|);
    SweepAllFollow(cfg, g, heights, u1, |g.order|);
    FollowsInside(g, heights, u0);
    FollowsInside(g, heights, u1);
    PassKeepsBelow(cfg, g, rank, n, u0, u1);
    SecondPassStays(cfg, g, heights, rank, n, u0, u1, u2);
    EveryRankPassed(g, rank, n, u2, u3);
  }

  lemma GraphIsOrdered(g: Graph)
    requires IsGraph(g)
    ensures Ordered(g)
  {
  }

  lemma {:induction false} LooseRanksSettle(
    cfg: Config, g: Graph, heights: Key -> (Addr -> Option<int>), rank: Addr -> nat, n: nat, m: nat)
    requires Compared(cfg) && IsGraph(g) && LooselyRanked(cfg, g, rank) && Levelling(g, heights) && m == 2 * n
    ensures AgreeUpTo(g, rank, n, Iter(cfg, g, m), Iter(cfg, g, m + 1), [])
  {
    if n > 0 {
      var k := m - 2;
      LooseRanksSettle(cfg, g, heights, rank, n - 1, k);
      GraphIsOrdered(g);
      IterAllFollow(cfg, g, heights, k);
      OneMorePass(cfg, g, k);
      OneMorePass(cfg, g, k + 1);
      OneMorePass(cfg, g, m);
      TwoPassesFixRank(cfg, g, heights, rank, n - 1, Iter(cfg, g, k), Iter(cfg, g, k + 1), Iter(cfg, g, m),
          Iter(cfg, g, m + 1));
    }
  }

  /** Loose ranks below `n` everywhere: twice as many passes settle the module. */
  lemma LevelledSettles(cfg: Config, g: Graph, heights: Key -> (Addr -> Option<int>), rank: Addr -> nat, n: nat, m: nat)
    requires Compared(cfg) && IsGraph(g) && LooselyRanked(cfg, g, rank) && Levelling(g, heights) && m == 2 * n
    requires forall a :: a in g.table ==> rank(a) < n
    ensures Iter(cfg, g, m + 1) == Iter(cfg, g, m)
  {
    LooseRanksSettle(cfg, g, heights, rank, n, m);
    IterStaysInside(cfg, g, m);
    IterStaysInside(cfg, g, m + 1);
    SameEverywhere(g, rank, n, Iter(cfg, g, m), Iter(cfg, g, m + 1));
  }

  lemma SettledConverges(cfg: Config, g: Graph, n: nat)
    requires n < MAX_PASSES && Iter(cfg, g, n + 1) == Iter(cfg, g, n)
    ensures Converged(cfg, g)
  {
    EarlyStopIsFinal(Step(cfg, g), g.order, map[], n + 1, MAX_PASSES);
  }

  /** With heights for every key and loose ranks below half the pass cap, the analysis converges. */
  lemma LevelledConverges(cfg: Config, g: Graph, heights: Key -> (Addr -> Option<int>), rank: Addr -> nat, n: nat)
    requires Compared(cfg) && IsGraph(g) && LooselyRanked(cfg, g, rank) && Levelling(g, heights)
    requires 2 * n < MAX_PASSES && forall a :: a in g.table ==> rank(a) < n
    ensures Converged(cfg, g)
  {
    LevelledSettles(cfg, g, heights, rank, n, 2 * n);
    SettledConverges(cfg, g, 2 * n);
  }

  /** A module without constant moves has heights for every key; loose ranks are enough. */
  lemma StillModuleConverges(cfg: Config, g: Graph, rank: Addr -> nat, n: nat)
    requires Compared(cfg) && IsGraph(g) && StillModule(g) && LooselyRanked(cfg, g, rank)
    requires 2 * n < MAX_PASSES && forall a :: a in g.table ==> rank(a) < n
    ensures Converged(cfg, g)
  {
    var heights: Key -> (Addr -> Option<int>) := k => FLAT;
    forall k ensures Levelled(g, k, heights(k)) { StillIsLevelled(g, k); }
    LevelledConverges(cfg, g, heights, rank, n);
  }

  /** With heights and loose ranks members need no check of their own, whatever the analysis reports of itself. */
  lemma LevelledMembersAreChecked(
    g: Graph, heights: Key -> (Addr -> Option<int>), rank: Addr -> nat, n: nat,
    run: seq<Place>, i: nat, ext: map<Anchor, (int, int)>)
    returns (j: nat)
    requires IsGraph(g) && LooselyRanked(WITH, g, rank) && Levelling(g, heights)
    requires 2 * n < MAX_PASSES && forall a :: a in g.table ==> rank(a) < n
    requires IsRun(g, run) && i < |run|
    requires IsAccess(g, run[i]) && RecordFor(WITH, g, Final(WITH, g), run[i]).member
    requires IsHull(Census(WITH, g, Final(WITH, g), |g.order|), ext)
    ensures EventAt(g, run[i]).key.Some? && j < i
    ensures Latest(WITH, g, Final(WITH, g), run, i, EventAt(g, run[i]).key.value) == Some(j)
    ensures StandsFor(false, g, run[j], run[i], RecordFor(WITH, g, Final(WITH, g), run[i]), ext)
    ensures CheckedByAll(RecordFor(WITH, g, Final(WITH, g), run[i]), ext)
    ensures !RecordFor(WITH, g, Final(WITH, g), run[j]).member
  {
    LevelledConverges(WITH, g, heights, rank, n);
    j := MembersAreChecked(WITH, g, run, i, ext);
  }
}
