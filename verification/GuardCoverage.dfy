/**
  The order of the models by coverage: tracking offsets, meeting over the module, and removing the
  kills can each only add members.  Only the key sets are monotone, never the displacements, and
  the inclusions hold whether or not either fixpoint run converged.
*/
module GuardCoverage {
  import opened Sweeps
  import opened GuardModel
  import opened GuardFixpoint

  /** Record by record, the same accesses, and every member of the first is one of the second. */
  ghost predicate CoversMore(less: seq<Rec>, more: seq<Rec>) {
    && |less| == |more|
    && forall i :: 0 <= i < |less| ==>
         && less[i].block == more[i].block && less[i].ins == more[i].ins
         && less[i].kind == more[i].kind && less[i].width == more[i].width
         && (less[i].member ==> more[i].member)
  }

  /** Without the read/write split every cover is good for writes. */
  ghost predicate Plain(st: State) {
    forall k :: k in st ==> st[k].cap.ReadWrite?
  }

  /** `less` gives up a key whenever `more` does. */
  predicate KillsMore(less: Config, more: Config) {
    && !less.Sep() && !more.Sep()
    && (less.Track() ==> more.Track())
    && (less.noKill ==> more.noKill)
    && (more.killEvery ==> less.killEvery)
  }

  lemma AfterSiteMonotone(less: Config, more: Config, a: Addr, site: Site, s: State, t: State)
    requires KillsMore(less, more) && Plain(s) && Plain(t) && s.Keys <= t.Keys
    ensures Plain(AfterSite(less, a, site, s)) && Plain(AfterSite(more, a, site, t))
    ensures AfterSite(less, a, site, s).Keys <= AfterSite(more, a, site, t).Keys
  {
    match site.ev
    case KillAll =>
    case RegWrite(r, d) =>
      assert forall k :: Survives(less, k, r, d) ==> Survives(more, k, r, d);
    case Acc(_, _, _, _) =>
  }

  lemma {:induction false} StateAtMonotone(less: Config, more: Config, b: Block, s: State, t: State, n: nat)
    requires KillsMore(less, more) && Plain(s) && Plain(t) && s.Keys <= t.Keys && n <= |b.sites|
    ensures Plain(StateAt(less, b, s, n)) && Plain(StateAt(more, b, t, n))
    ensures StateAt(less, b, s, n).Keys <= StateAt(more, b, t, n).Keys
  {
    if n > 0 {
      StateAtMonotone(less, more, b, s, t, n - 1);
      AfterSiteMonotone(less, more, b.addr, b.sites[n - 1], StateAt(less, b, s, n - 1), StateAt(more, b, t, n - 1));
    }
  }

  lemma RecOfMonotone(less: Config, more: Config, a: Addr, site: Site, s: State, t: State)
    requires KillsMore(less, more) && Plain(s) && Plain(t) && s.Keys <= t.Keys && site.ev.Acc?
    ensures CoversMore([RecOf(less, a, site, s)], [RecOf(more, a, site, t)])
  {
  }

  lemma CoversMoreAppend(r: seq<Rec>, r': seq<Rec>, q: seq<Rec>, q': seq<Rec>)
    requires CoversMore(r, r') && CoversMore(q, q')
    ensures CoversMore(r + q, r' + q')
  {
  }

  lemma {:induction false} RecordsMonotone(less: Config, more: Config, b: Block, s: State, t: State, n: nat)
    requires KillsMore(less, more) && Plain(s) && Plain(t) && s.Keys <= t.Keys && n <= |b.sites|
    ensures CoversMore(Records(less, b, s, n), Records(more, b, t, n))
  {
    if n > 0 {
      RecordsMonotone(less, more, b, s, t, n - 1);
      StateAtMonotone(less, more, b, s, t, n - 1);
      if b.sites[n - 1].ev.Acc? {
        var s', t' := StateAt(less, b, s, n - 1), StateAt(more, b, t, n - 1);
        RecOfMonotone(less, more, b.addr, b.sites[n - 1], s', t');
        CoversMoreAppend(Records(less, b, s, n - 1), Records(more, b, t, n - 1),
                         [RecOf(less, b.addr, b.sites[n - 1], s')], [RecOf(more, b.addr, b.sites[n - 1], t')]);
      }
    }
  }

  /** Records pair off as their sites do. */
  lemma {:induction false} RecordsPair(less: Config, more: Config, b: Block, s: State, t: State, n: nat)
    requires n <= |b.sites|
    requires forall i :: 0 <= i < n && b.sites[i].ev.Acc? ==>
               CoversMore([RecOf(less, b.addr, b.sites[i], StateAt(less, b, s, i))],
                   [RecOf(more, b.addr, b.sites[i], StateAt(more, b, t, i))])
    ensures CoversMore(Records(less, b, s, n), Records(more, b, t, n))
  {
    if n > 0 {
      RecordsPair(less, more, b, s, t, n - 1);
      var x := b.sites[n - 1];
      if x.ev.Acc? {
        CoversMoreAppend(Records(less, b, s, n - 1), Records(more, b, t, n - 1),
                         [RecOf(less, b.addr, x, StateAt(less, b, s, n - 1))],
                         [RecOf(more, b.addr, x, StateAt(more, b, t, n - 1))]);
      }
    }
  }

  /** A census pairs off as its blocks do. */
  lemma {:induction false} CensusPairs(less: Config, more: Config, g: Graph, out: Outs, out': Outs, i: nat)
    requires i <= |g.order|
    requires forall a :: a in g.order ==> CoversMore(BlockRecords(less, g, out, a), BlockRecords(more, g, out', a))
    ensures CoversMore(Census(less, g, out, i), Census(more, g, out', i))
  {
    if i > 0 {
      var a := g.order[i - 1];
      assert a in g.order;
      CensusPairs(less, more, g, out, out', i - 1);
      CoversMoreAppend(Census(less, g, out, i - 1), Census(more, g, out', i - 1),
                       BlockRecords(less, g, out, a), BlockRecords(more, g, out', a));
    }
  }

  /** Larger in-states everywhere give a census that covers more. */
  lemma CensusMonotone(less: Config, more: Config, g: Graph, out: Outs, out': Outs, i: nat)
    requires IsGraph(g) && KillsMore(less, more) && i <= |g.order|
    requires forall a :: a in g.table ==>
               && Plain(InState(less, g, out, a)) && Plain(InState(more, g, out', a))
               && InState(less, g, out, a).Keys <= InState(more, g, out', a).Keys
    ensures CoversMore(Census(less, g, out, i), Census(more, g, out', i))
  {
    forall a | a in g.order ensures CoversMore(BlockRecords(less, g, out, a), BlockRecords(more, g, out', a)) {
      assert a in g.table.Keys;
      RecordsMonotone(less, more, g.table[a], InState(less, g, out, a), InState(more, g, out', a), |g.table[a].sites|);
    }
    CensusPairs(less, more, g, out, out', i);
  }

  // ---- in-states stay plain through any number of passes ----

  ghost predicate PlainAll(out: Outs) {
    forall a :: a in out ==> Plain(out[a])
  }

  lemma MeetPlain(out: Outs, ps: seq<Addr>)
    requires PlainAll(out)
    ensures Plain(Meet(Available(out, ps)))
  {
    forall st: State | st in Available(out, ps) ensures Plain(st) {
      AvailableMeaning(out, ps, st);
    }
  }

  lemma InStatePlain(cfg: Config, g: Graph, out: Outs, a: Addr)
    requires a in g.table && PlainAll(out)
    ensures Plain(InState(cfg, g, out, a))
  {
    MeetPlain(out, Preds(g.blocks, g.table, a));
  }

  lemma {:induction false} SweepPlain(cfg: Config, g: Graph, out: Outs, i: nat)
    requires i <= |g.order| && !cfg.Sep() && PlainAll(out)
    ensures PlainAll(SweepTo(Step(cfg, g), g.order, out, i))
  {
    if i > 0 {
      SweepPlain(cfg, g, out, i - 1);
      var mid, a := SweepTo(Step(cfg, g), g.order, out, i - 1), g.order[i - 1];
      if a in g.table {
        InStatePlain(cfg, g, mid, a);
        StateAtMonotone(cfg, cfg, g.table[a], InState(cfg, g, mid, a), InState(cfg, g, mid, a), |g.table[a].sites|);
      }
    }
  }

  lemma {:induction false} IterPlain(cfg: Config, g: Graph, n: nat)
    requires !cfg.Sep()
    ensures PlainAll(Iter(cfg, g, n))
  {
    if n > 0 {
      IterPlain(cfg, g, n - 1);
      SweepPlain(cfg, g, Iter(cfg, g, n - 1), |g.order|);
    }
  }

  // ---- strict versus tracked, block-local versus module-wide ----

  /** Offset tracking within a block only adds members. */
  lemma TrackingAddsMembers(g: Graph)
    requires IsGraph(g)
    ensures var s, so := Config(S, false, false), Config(SO, false, false);
            CoversMore(Census(s, g, Final(s, g), |g.order|), Census(so, g, Final(so, g), |g.order|))
  {
    CensusMonotone(Config(S, false, false), Config(SO, false, false), g, map[], map[], |g.order|);
  }

  /** Meeting over the module only adds members, converged or not. */
  lemma ModuleAddsMembers(g: Graph)
    requires IsGraph(g)
    ensures var so, mo := Config(SO, false, false), Config(MO, false, false);
            CoversMore(Census(so, g, Final(so, g), |g.order|), Census(mo, g, Final(mo, g), |g.order|))
  {
    var mo := Config(MO, false, false);
    var out := Final(mo, g);
    IterPlain(mo, g, MAX_PASSES);
    forall a | a in g.table ensures Plain(InState(mo, g, out, a)) {
      InStatePlain(mo, g, out, a);
    }
    CensusMonotone(Config(SO, false, false), mo, g, map[], out, |g.order|);
  }

  // ---- removing the kills: two fixpoint runs side by side ----

  ghost predicate Still(st: State) {
    forall k :: k in st ==> st[k].delta == 0
  }

  /** The run without kills has every block's keys, all at displacement zero. */
  ghost predicate Below(out: Outs, out': Outs) {
    && PlainAll(out) && PlainAll(out') && out.Keys == out'.Keys
    && forall a :: a in out ==> out[a].Keys <= out'[a].Keys && Still(out'[a])
  }

  lemma {:induction false} AvailableBelow(out: Outs, out': Outs, ps: seq<Addr>)
    requires Below(out, out')
    ensures |Available(out, ps)| == |Available(out', ps)|
    ensures forall i :: 0 <= i < |Available(out, ps)| ==>
              Available(out, ps)[i].Keys <= Available(out', ps)[i].Keys && Still(Available(out', ps)[i])
  {
    if ps != [] {
      AvailableBelow(out, out', ps[..|ps| - 1]);
    }
  }

  /** Keys at displacement zero everywhere can only be lost to a state that lacks them. */
  lemma MeetBelow(ss: seq<State>, ss': seq<State>)
    requires |ss| == |ss'|
    requires forall i :: 0 <= i < |ss| ==> ss[i].Keys <= ss'[i].Keys && Still(ss'[i])
    ensures Meet(ss).Keys <= Meet(ss').Keys && Still(Meet(ss'))
  {
    forall k | k in Meet(ss) ensures k in Meet(ss') {
      forall s: State | s in ss' ensures k in s && s[k].delta == 0 {
        var i :| 0 <= i < |ss'| && ss'[i] == s;
        assert ss[i] in ss;
      }
      assert ss'[0] in ss';
    }
  }

  lemma InStateBelow(cfg: Config, g: Graph, out: Outs, out': Outs, a: Addr)
    requires a in g.table && Below(out, out')
    ensures InState(cfg, g, out, a).Keys <= InState(cfg.(noKill := true), g, out', a).Keys
    ensures Still(InState(cfg.(noKill := true), g, out', a))
  {
    var ps := Preds(g.blocks, g.table, a);
    AvailableBelow(out, out', ps);
    MeetBelow(Available(out, ps), Available(out', ps));
  }

  lemma {:induction false} StateAtStill(cfg: Config, b: Block, st: State, n: nat)
    requires cfg.noKill && Still(st) && n <= |b.sites|
    ensures Still(StateAt(cfg, b, st, n))
  {
    if n > 0 {
      StateAtStill(cfg, b, st, n - 1);
    }
  }

  lemma StepBelow(cfg: Config, g: Graph, out: Outs, out': Outs, a: Addr)
    requires !cfg.Sep() && Below(out, out')
    ensures var free := cfg.(noKill := true);
            && Plain(Step(cfg, g)(out, a)) && Plain(Step(free, g)(out', a))
            && Step(cfg, g)(out, a).Keys <= Step(free, g)(out', a).Keys && Still(Step(free, g)(out', a))
  {
    var free := cfg.(noKill := true);
    if a in g.table {
      var s, t := InState(cfg, g, out, a), InState(free, g, out', a);
      InStateBelow(cfg, g, out, out', a);
      InStatePlain(cfg, g, out, a);
      InStatePlain(free, g, out', a);
      StateAtMonotone(cfg, free, g.table[a], s, t, |g.table[a].sites|);
      StateAtStill(free, g.table[a], t, |g.table[a].sites|);
    }
  }

  lemma UpdateBelow(cfg: Config, g: Graph, out: Outs, out': Outs, a: Addr)
    requires !cfg.Sep() && Below(out, out')
    ensures Below(out[a := Step(cfg, g)(out, a)], out'[a := Step(cfg.(noKill := true), g)(out', a)])
  {
    StepBelow(cfg, g, out, out', a);
  }

  lemma {:induction false} SweepBelow(cfg: Config, g: Graph, out: Outs, out': Outs, i: nat)
    requires i <= |g.order| && !cfg.Sep() && Below(out, out')
    ensures Below(SweepTo(Step(cfg, g), g.order, out, i), SweepTo(Step(cfg.(noKill := true), g), g.order, out', i))
  {
    if i > 0 {
      SweepBelow(cfg, g, out, out', i - 1);
      UpdateBelow(cfg, g, SweepTo(Step(cfg, g), g.order, out, i - 1),
                  SweepTo(Step(cfg.(noKill := true), g), g.order, out', i - 1), g.order[i - 1]);
    }
  }

  lemma {:induction false} IterBelow(cfg: Config, g: Graph, n: nat)
    requires !cfg.Sep()
    ensures Below(Iter(cfg, g, n), Iter(cfg.(noKill := true), g, n))
  {
    if n > 0 {
      IterBelow(cfg, g, n - 1);
      SweepBelow(cfg, g, Iter(cfg, g, n - 1), Iter(cfg.(noKill := true), g, n - 1), |g.order|);
    }
  }

  /**
    Removing every kill only adds members.  The two fixpoint runs may stop at different passes, and
    either may hit the cap, but both agree with their fiftieth pass, where they are compared.
  */
  lemma RemovingKillsAddsMembers(g: Graph)
    requires IsGraph(g)
    ensures var mo, free := Config(MO, false, false), Config(MO, false, true);
            CoversMore(Census(mo, g, Final(mo, g), |g.order|), Census(free, g, Final(free, g), |g.order|))
  {
    var mo, free := Config(MO, false, false), Config(MO, false, true);
    IterBelow(mo, g, MAX_PASSES);
    forall a | a in g.table
      ensures Plain(InState(mo, g, Final(mo, g), a)) && Plain(InState(free, g, Final(free, g), a))
      ensures InState(mo, g, Final(mo, g), a).Keys <= InState(free, g, Final(free, g), a).Keys
    {
      InStateBelow(mo, g, Final(mo, g), Final(free, g), a);
      InStatePlain(mo, g, Final(mo, g), a);
      InStatePlain(free, g, Final(free, g), a);
    }
    CensusMonotone(mo, free, g, Final(mo, g), Final(free, g), |g.order|);
  }

  // ---- the control that kills before every event ----

  ghost predicate NoMembers(recs: seq<Rec>) { forall r :: r in recs ==> !r.member }

  lemma NoMembersAppend(a: seq<Rec>, b: seq<Rec>)
    requires NoMembers(a) && NoMembers(b)
    ensures NoMembers(a + b)
  {
  }

  lemma {:induction false} KillEveryRecords(cfg: Config, b: Block, st: State, n: nat)
    requires cfg.killEvery && n <= |b.sites|
    ensures NoMembers(Records(cfg, b, st, n))
  {
    if n > 0 {
      var x := b.sites[n - 1];
      KillEveryRecords(cfg, b, st, n - 1);
      if x.ev.Acc? {
        NoMembersAppend(Records(cfg, b, st, n - 1), [RecOf(cfg, b.addr, x, StateAt(cfg, b, st, n - 1))]);
      }
    }
  }

  /** A kill before every event leaves no members, in any model and whatever the fixpoint did. */
  lemma {:induction false} KillEveryLeavesNoMembers(cfg: Config, g: Graph, out: Outs, i: nat)
    requires cfg.killEvery && i <= |g.order|
    ensures NoMembers(Census(cfg, g, out, i))
  {
    if i > 0 {
      var a := g.order[i - 1];
      KillEveryLeavesNoMembers(cfg, g, out, i - 1);
      if a in g.table { KillEveryRecords(cfg, g.table[a], InState(cfg, g, out, a), |g.table[a].sites|); }
      NoMembersAppend(Census(cfg, g, out, i - 1), BlockRecords(cfg, g, out, a));
    }
  }
}
