/**
  When ignoring the dispatcher does bound the realisable model.  The two differ only from a block on
  that is both entered and branched to, and there only in displacements.  Heights make these agree:
  a number per block the key can be live in, carried through the block by the tracked writes to the
  key's base, such that every access of the key is met at height zero and every edge joins equal heights.
*/
module GuardHeights {
  import opened Options
  import opened Sweeps
  import opened GuardModel
  import opened GuardFixpoint
  import opened GuardCoverage

  const WITH := Config(MO, false, false)
  const WITHOUT := Config(MONoEntry, false, false)

  predicate Compared(cfg: Config) { cfg == WITH || cfg == WITHOUT }

  // ---- heights ----

  /** The event checks the page of `k`, or finds it checked. */
  predicate Touches(k: Key, e: Event) {
    e.Acc? && e.key == Some(k) && !Crosses(e)
  }

  function Shift(k: Key, r: Reg, d: Option<int>): int {
    if k.Ind? && k.base == Some(r) && d.Some? then d.value else 0
  }

  /** The height before site `n` of a block entered at height `h`; `None` where the key cannot be live. */
  function HeightAt(k: Key, b: Block, h: Option<int>, n: nat): Option<int>
    requires n <= |b.sites|
  {
    if n == 0 then h else HeightAfter(k, b.sites[n - 1].ev, HeightAt(k, b, h, n - 1))
  }

  function HeightAfter(k: Key, e: Event, at: Option<int>): Option<int> {
    match e
    case KillAll => None
    case RegWrite(r, d) => if at.Some? && Survives(WITH, k, r, d) then Some(at.value + Shift(k, r, d)) else None
    case Acc(_, _, _, _) => if Touches(k, e) then Some(0) else at
  }

  /** Dead, or as high as `v` says. */
  predicate Level(at: Option<int>, v: Option<int>) { at.Some? ==> at == v }

  /** `h` gives every block a height for `k`, as can be checked block by block and edge by edge. */
  ghost predicate Levelled(g: Graph, k: Key, h: Addr -> Option<int>) {
    && (forall a, n :: a in g.table && 0 <= n < |g.table[a].sites| && Touches(k, g.table[a].sites[n].ev) ==>
          Level(HeightAt(k, g.table[a], h(a), n), Some(0)))
    && (forall s, p :: s in g.table && p in g.table && p in Preds(g.blocks, g.table, s) ==>
          Level(HeightAt(k, g.table[p], h(p), |g.table[p].sites|), h(s)))
  }

  const NOWHERE: Addr -> Option<int> := _ => None

  lemma {:induction false} DeadHeight(k: Key, b: Block, n: nat)
    requires n <= |b.sites| && forall i :: 0 <= i < n ==> !Touches(k, b.sites[i].ev)
    ensures HeightAt(k, b, None, n) == None
  {
    if n > 0 { DeadHeight(k, b, n - 1); }
  }

  /** A key no access touches has heights: it is live nowhere. */
  lemma UntouchedIsLevelled(g: Graph, k: Key)
    requires forall a, n :: a in g.table && 0 <= n < |g.table[a].sites| ==> !Touches(k, g.table[a].sites[n].ev)
    ensures Levelled(g, k, NOWHERE)
  {
    forall a | a in g.table ensures HeightAt(k, g.table[a], None, |g.table[a].sites|) == None {
      DeadHeight(k, g.table[a], |g.table[a].sites|);
    }
  }

  ghost predicate HasHeights(g: Graph, k: Key) { exists h :: Levelled(g, k, h) }

  // ---- displacements follow the heights ----

  /** What the state says of `k` is the height. */
  predicate Follows(k: Key, st: State, at: Option<int>) {
    k in st ==> at == Some(st[k].delta)
  }

  lemma SiteFollows(cfg: Config, k: Key, a: Addr, site: Site, st: State, at: Option<int>)
    requires Compared(cfg) && Plain(st) && Follows(k, st, at) && (Touches(k, site.ev) ==> Level(at, Some(0)))
    ensures Plain(AfterSite(cfg, a, site, st)) && Follows(k, AfterSite(cfg, a, site, st), HeightAfter(k, site.ev, at))
  {
  }

  lemma {:induction false} StateFollows(cfg: Config, k: Key, b: Block, h: Option<int>, st: State, n: nat)
    requires Compared(cfg) && Plain(st) && Follows(k, st, h) && n <= |b.sites|
    requires forall i :: 0 <= i < |b.sites| && Touches(k, b.sites[i].ev) ==> Level(HeightAt(k, b, h, i), Some(0))
    ensures Plain(StateAt(cfg, b, st, n)) && Follows(k, StateAt(cfg, b, st, n), HeightAt(k, b, h, n))
  {
    if n > 0 {
      StateFollows(cfg, k, b, h, st, n - 1);
      SiteFollows(cfg, k, b.addr, b.sites[n - 1], StateAt(cfg, b, st, n - 1), HeightAt(k, b, h, n - 1));
    }
  }

  ghost predicate OutsFollow(g: Graph, k: Key, h: Addr -> Option<int>, out: Outs) {
    && PlainAll(out)
    && forall a :: a in out ==>
         a in g.table && Follows(k, out[a], HeightAt(k, g.table[a], h(a), |g.table[a].sites|))
  }

  /** Every available predecessor that has `k` has it at the block's own height. */
  lemma AvailableFollows(g: Graph, k: Key, h: Addr -> Option<int>, out: Outs, a: Addr, st: State)
    requires Levelled(g, k, h) && OutsFollow(g, k, h, out) && a in g.table
    requires st in Available(out, Preds(g.blocks, g.table, a)) && k in st
    ensures h(a) == Some(st[k].delta)
  {
    AvailableMeaning(out, Preds(g.blocks, g.table, a), st);
  }

  lemma InStateFollows(cfg: Config, g: Graph, k: Key, h: Addr -> Option<int>, out: Outs, a: Addr)
    requires Compared(cfg) && Levelled(g, k, h) && OutsFollow(g, k, h, out) && a in g.table
    ensures Plain(InState(cfg, g, out, a)) && Follows(k, InState(cfg, g, out, a), h(a))
  {
    InStatePlain(cfg, g, out, a);
    var ss := Available(out, Preds(g.blocks, g.table, a));
    if k in Meet(ss) {
      assert ss[0] in ss;
      AvailableFollows(g, k, h, out, a, ss[0]);
    }
  }

  lemma StepFollows(cfg: Config, g: Graph, k: Key, h: Addr -> Option<int>, out: Outs, a: Addr)
    requires Compared(cfg) && Levelled(g, k, h) && OutsFollow(g, k, h, out) && a in g.table
    ensures OutsFollow(g, k, h, out[a := Step(cfg, g)(out, a)])
  {
    InStateFollows(cfg, g, k, h, out, a);
    StateFollows(cfg, k, g.table[a], h(a), InState(cfg, g, out, a), |g.table[a].sites|);
  }

  // ---- key by key, nothing is lost without the dispatcher ----

  ghost predicate KeyBelow(k: Key, out: Outs, out': Outs) {
    out.Keys == out'.Keys && forall a :: a in out ==> (k in out[a] ==> k in out'[a])
  }

  /** Wherever the model with the dispatcher has the key, so has the one without, and both follow the heights. */
  ghost predicate Paired(g: Graph, k: Key, h: Addr -> Option<int>, out: Outs, out': Outs) {
    OutsFollow(g, k, h, out) && OutsFollow(g, k, h, out') && KeyBelow(k, out, out')
  }

  lemma {:induction false} AvailableKeyBelow(k: Key, out: Outs, out': Outs, ps: seq<Addr>)
    requires KeyBelow(k, out, out')
    ensures |Available(out, ps)| == |Available(out', ps)|
    ensures forall i :: 0 <= i < |Available(out, ps)| ==> (k in Available(out, ps)[i] ==> k in Available(out', ps)[i])
  {
    if ps != [] { AvailableKeyBelow(k, out, out', ps[..|ps| - 1]); }
  }

  lemma MeetKeyBelow(k: Key, ss: seq<State>, ss': seq<State>, v: Option<int>)
    requires |ss| == |ss'| && k in Meet(ss)
    requires forall i :: 0 <= i < |ss| ==> (k in ss[i] ==> k in ss'[i])
    requires forall s: State :: s in ss' && k in s ==> v == Some(s[k].delta)
    ensures k in Meet(ss')
  {
    forall s: State | s in ss' ensures k in s && v == Some(s[k].delta) {
      var i :| 0 <= i < |ss'| && ss'[i] == s;
      assert ss[i] in ss;
    }
    assert ss'[0] in ss';
  }

  lemma InStateKeyBelow(g: Graph, k: Key, h: Addr -> Option<int>, out: Outs, out': Outs, a: Addr)
    requires Levelled(g, k, h) && Paired(g, k, h, out, out') && a in g.table && k in InState(WITH, g, out, a)
    ensures k in InState(WITHOUT, g, out', a)
  {
    var ps := Preds(g.blocks, g.table, a);
    AvailableKeyBelow(k, out, out', ps);
    forall s: State | s in Available(out', ps) && k in s ensures h(a) == Some(s[k].delta) {
      AvailableFollows(g, k, h, out', a, s);
    }
    MeetKeyBelow(k, Available(out, ps), Available(out', ps), h(a));
  }

  lemma SiteKeyBelow(k: Key, a: Addr, site: Site, s: State, t: State)
    requires Plain(s) && Plain(t) && (k in s ==> k in t)
    ensures k in AfterSite(WITH, a, site, s) ==> k in AfterSite(WITHOUT, a, site, t)
  {
  }

  lemma {:induction false} StateKeyBelow(k: Key, b: Block, s: State, t: State, n: nat)
    requires Plain(s) && Plain(t) && (k in s ==> k in t) && n <= |b.sites|
    ensures Plain(StateAt(WITH, b, s, n)) && Plain(StateAt(WITHOUT, b, t, n))
    ensures k in StateAt(WITH, b, s, n) ==> k in StateAt(WITHOUT, b, t, n)
  {
    StateAtMonotone(WITH, WITH, b, s, s, n);
    StateAtMonotone(WITHOUT, WITHOUT, b, t, t, n);
    if n > 0 {
      StateKeyBelow(k, b, s, t, n - 1);
      SiteKeyBelow(k, b.addr, b.sites[n - 1], StateAt(WITH, b, s, n - 1), StateAt(WITHOUT, b, t, n - 1));
    }
  }

  lemma StepKeyBelow(g: Graph, k: Key, h: Addr -> Option<int>, out: Outs, out': Outs, a: Addr)
    requires Levelled(g, k, h) && Paired(g, k, h, out, out') && a in g.table
    ensures k in Step(WITH, g)(out, a) ==> k in Step(WITHOUT, g)(out', a)
  {
    var s, t := InState(WITH, g, out, a), InState(WITHOUT, g, out', a);
    InStatePlain(WITH, g, out, a);
    InStatePlain(WITHOUT, g, out', a);
    if k in s { InStateKeyBelow(g, k, h, out, out', a); }
    StateKeyBelow(k, g.table[a], s, t, |g.table[a].sites|);
  }

  lemma StepPaired(g: Graph, k: Key, h: Addr -> Option<int>, out: Outs, out': Outs, a: Addr, o: State, o': State)
    requires Levelled(g, k, h) && Paired(g, k, h, out, out') && a in g.table
    requires o == Step(WITH, g)(out, a) && o' == Step(WITHOUT, g)(out', a)
    ensures Paired(g, k, h, out[a := o], out'[a := o'])
  {
    StepFollows(WITH, g, k, h, out, a);
    StepFollows(WITHOUT, g, k, h, out', a);
    StepKeyBelow(g, k, h, out, out', a);
    KeyBelowUpdate(k, out, out', a, o, o');
  }

  lemma KeyBelowUpdate(k: Key, out: Outs, out': Outs, a: Addr, o: State, o': State)
    requires KeyBelow(k, out, out') && (k in o ==> k in o')
    ensures KeyBelow(k, out[a := o], out'[a := o'])
  {
  }

  ghost predicate Ordered(g: Graph) { forall a :: a in g.order ==> a in g.table }

  lemma UpdatePaired(g: Graph, k: Key, h: Addr -> Option<int>, out: Outs, out': Outs, a: Addr)
    requires Levelled(g, k, h) && Paired(g, k, h, out, out') && a in g.table
    ensures Paired(g, k, h, out[a := Step(WITH, g)(out, a)], out'[a := Step(WITHOUT, g)(out', a)])
  {
    StepPaired(g, k, h, out, out', a, Step(WITH, g)(out, a), Step(WITHOUT, g)(out', a));
  }

  lemma SweepPaired(g: Graph, k: Key, h: Addr -> Option<int>, out: Outs, out': Outs)
    requires Ordered(g) && Levelled(g, k, h) && Paired(g, k, h, out, out')
    ensures Paired(g, k, h, Sweep(Step(WITH, g), g.order, out), Sweep(Step(WITHOUT, g), g.order, out'))
  {
    var f, f', related := Step(WITH, g), Step(WITHOUT, g), (k': nat, u, u') => Paired(g, k, h, u, u');
    forall u, u', i | 0 <= i < |g.order| && related(i, u, u')
      ensures related(i + 1, u[g.order[i] := f(u, g.order[i])], u'[g.order[i] := f'(u', g.order[i])])
    {
      assert g.order[i] in g.order;
      UpdatePaired(g, k, h, u, u', g.order[i]);
    }
    SweepTogether(f, f', g.order, out, out', |g.order|, related);
  }

  lemma {:induction false} IterPaired(g: Graph, k: Key, h: Addr -> Option<int>, n: nat)
    requires IsGraph(g) && Levelled(g, k, h)
    ensures Paired(g, k, h, Iter(WITH, g, n), Iter(WITHOUT, g, n))
  {
    if n > 0 {
      IterPaired(g, k, h, n - 1);
      SweepPaired(g, k, h, Iter(WITH, g, n - 1), Iter(WITHOUT, g, n - 1));
    }
  }

  /** The record of site `n` of block `a` at the end of the analysis. */
  ghost function FinalRec(cfg: Config, g: Graph, a: Addr, n: nat): Rec
    requires a in g.table && n < |g.table[a].sites| && g.table[a].sites[n].ev.Acc?
  {
    var b := g.table[a];
    RecOf(cfg, b.addr, b.sites[n], StateAt(cfg, b, InState(cfg, g, Final(cfg, g), a), n))
  }

  /** An access of a key that has heights: a member with the dispatcher is a member without it. */
  lemma LevelledKeepsMember(g: Graph, k: Key, h: Addr -> Option<int>, a: Addr, n: nat)
    requires IsGraph(g) && Levelled(g, k, h) && a in g.table && n < |g.table[a].sites|
    requires g.table[a].sites[n].ev.Acc? && g.table[a].sites[n].ev.key == Some(k)
    ensures FinalRec(WITH, g, a, n).member ==> FinalRec(WITHOUT, g, a, n).member
  {
    var out, out' := Final(WITH, g), Final(WITHOUT, g);
    IterPaired(g, k, h, MAX_PASSES);
    InStatePlain(WITH, g, out, a);
    InStatePlain(WITHOUT, g, out', a);
    if k in InState(WITH, g, out, a) { InStateKeyBelow(g, k, h, out, out', a); }
    StateKeyBelow(k, g.table[a], InState(WITH, g, out, a), InState(WITHOUT, g, out', a), n);
  }

  // ---- away from the entered blocks nothing differs at all ----

  /** `from` holds every entry block that is branched to, and everything reached from one. */
  ghost predicate Entered(g: Graph, from: set<Addr>) {
    forall s :: s in g.table && s !in from ==>
      && (g.table[s].entry ==> Preds(g.blocks, g.table, s) == [])
      && (forall p :: p in Preds(g.blocks, g.table, s) ==> p !in from)
  }

  ghost predicate SameOutside(out: Outs, out': Outs, from: set<Addr>) {
    forall a :: a !in from ==> SameAt(out, out', a)
  }

  lemma {:induction false} StateAtSame(b: Block, st: State, n: nat)
    requires n <= |b.sites|
    ensures StateAt(WITH, b, st, n) == StateAt(WITHOUT, b, st, n)
  {
    if n > 0 { StateAtSame(b, st, n - 1); }
  }

  lemma InStateSame(g: Graph, from: set<Addr>, out: Outs, out': Outs, a: Addr)
    requires Entered(g, from) && SameOutside(out, out', from) && a in g.table && a !in from
    ensures InState(WITH, g, out, a) == InState(WITHOUT, g, out', a)
  {
    AvailableSame(out, out', Preds(g.blocks, g.table, a));
  }

  lemma StepSame(g: Graph, from: set<Addr>, out: Outs, out': Outs, a: Addr)
    requires Entered(g, from) && SameOutside(out, out', from) && a in g.table
    ensures SameOutside(out[a := Step(WITH, g)(out, a)], out'[a := Step(WITHOUT, g)(out', a)], from)
  {
    if a !in from {
      InStateSame(g, from, out, out', a);
      StateAtSame(g.table[a], InState(WITH, g, out, a), |g.table[a].sites|);
    }
  }

  lemma {:induction false} SweepSame(g: Graph, from: set<Addr>, out: Outs, out': Outs, i: nat)
    requires Ordered(g) && Entered(g, from) && SameOutside(out, out', from) && i <= |g.order|
    ensures SameOutside(SweepTo(Step(WITH, g), g.order, out, i), SweepTo(Step(WITHOUT, g), g.order, out', i), from)
  {
    if i > 0 {
      SweepSame(g, from, out, out', i - 1);
      assert g.order[i - 1] in g.order;
      StepSame(g, from, SweepTo(Step(WITH, g), g.order, out, i - 1), SweepTo(Step(WITHOUT, g), g.order, out', i - 1),
          g.order[i - 1]);
    }
  }

  lemma {:induction false} IterSame(g: Graph, from: set<Addr>, n: nat)
    requires IsGraph(g) && Entered(g, from)
    ensures SameOutside(Iter(WITH, g, n), Iter(WITHOUT, g, n), from)
  {
    if n > 0 {
      IterSame(g, from, n - 1);
      SweepSame(g, from, Iter(WITH, g, n - 1), Iter(WITHOUT, g, n - 1), |g.order|);
    }
  }

  /** Outside what the entered blocks reach, the two models record the same. */
  lemma UnenteredRecordsSame(g: Graph, from: set<Addr>, a: Addr, n: nat)
    requires IsGraph(g) && Entered(g, from) && a in g.table && a !in from
    requires n < |g.table[a].sites| && g.table[a].sites[n].ev.Acc?
    ensures FinalRec(WITH, g, a, n) == FinalRec(WITHOUT, g, a, n)
  {
    IterSame(g, from, MAX_PASSES);
    InStateSame(g, from, Final(WITH, g), Final(WITHOUT, g), a);
    StateAtSame(g.table[a], InState(WITH, g, Final(WITH, g), a), n);
  }

  // ---- the bound ----

  /** Outside the entered blocks' reach, or of a key that has heights, or of no key at all. */
  ghost predicate Bounded(g: Graph, from: set<Addr>, a: Addr, e: Event)
    requires e.Acc?
  {
    a !in from || e.key == None || HasHeights(g, e.key.value)
  }

  ghost predicate AllBounded(g: Graph, from: set<Addr>) {
    forall a, n :: a in g.table && 0 <= n < |g.table[a].sites| && g.table[a].sites[n].ev.Acc? ==>
      Bounded(g, from, a, g.table[a].sites[n].ev)
  }

  lemma BoundedKeepsMember(g: Graph, from: set<Addr>, a: Addr, n: nat)
    requires IsGraph(g) && Entered(g, from) && a in g.table && n < |g.table[a].sites|
    requires g.table[a].sites[n].ev.Acc? && Bounded(g, from, a, g.table[a].sites[n].ev)
    ensures CoversMore([FinalRec(WITH, g, a, n)], [FinalRec(WITHOUT, g, a, n)])
  {
    var e := g.table[a].sites[n].ev;
    if a !in from {
      UnenteredRecordsSame(g, from, a, n);
    } else if e.key.Some? {
      var h :| Levelled(g, e.key.value, h);
      LevelledKeepsMember(g, e.key.value, h, a, n);
    }
  }

  lemma BlockBounded(g: Graph, from: set<Addr>, a: Addr)
    requires IsGraph(g) && Entered(g, from) && AllBounded(g, from) && a in g.table
    ensures CoversMore(BlockRecords(WITH, g, Final(WITH, g), a), BlockRecords(WITHOUT, g, Final(WITHOUT, g), a))
  {
    var b := g.table[a];
    forall n | 0 <= n < |b.sites| && b.sites[n].ev.Acc?
        ensures CoversMore([FinalRec(WITH, g, a, n)], [FinalRec(WITHOUT, g, a, n)]) {
      BoundedKeepsMember(g, from, a, n);
    }
    RecordsPair(WITH, WITHOUT, b, InState(WITH, g, Final(WITH, g), a), InState(WITHOUT, g, Final(WITHOUT, g), a),
        |b.sites|);
  }

  /**
    Ignoring the dispatcher only adds members, converged or not, on every module where each access
    lies outside the entered blocks' reach or has a key with heights.
  */
  lemma NoEntryBounds(g: Graph, from: set<Addr>)
    requires IsGraph(g) && Entered(g, from) && AllBounded(g, from)
    ensures CoversMore(Census(WITH, g, Final(WITH, g), |g.order|), Census(WITHOUT, g, Final(WITHOUT, g), |g.order|))
  {
    forall a | a in g.order
      ensures CoversMore(BlockRecords(WITH, g, Final(WITH, g), a), BlockRecords(WITHOUT, g, Final(WITHOUT, g), a))
    {
      BlockBounded(g, from, a);
    }
    CensusPairs(WITH, WITHOUT, g, Final(WITH, g), Final(WITHOUT, g), |g.order|);
  }

  /** No block moves an address register by a constant other than zero. */
  ghost predicate StillModule(g: Graph) {
    forall a, n, r, d ::
      a in g.table && 0 <= n < |g.table[a].sites| && g.table[a].sites[n].ev == RegWrite(r, Some(d)) ==> d == 0
  }

  lemma {:induction false} StillHeight(g: Graph, k: Key, a: Addr, n: nat)
    requires StillModule(g) && a in g.table && n <= |g.table[a].sites|
    ensures Level(HeightAt(k, g.table[a], Some(0), n), Some(0))
  {
    if n > 0 {
      StillHeight(g, k, a, n - 1);
      var e := g.table[a].sites[n - 1].ev;
      if e.RegWrite? && e.delta.Some? { assert e == RegWrite(e.reg, Some(e.delta.value)); }
    }
  }

  const FLAT: Addr -> Option<int> := _ => Some(0)

  lemma StillIsLevelled(g: Graph, k: Key)
    requires StillModule(g)
    ensures Levelled(g, k, FLAT)
  {
    forall a, n | a in g.table && 0 <= n <= |g.table[a].sites|
        ensures Level(HeightAt(k, g.table[a], Some(0), n), Some(0)) {
      StillHeight(g, k, a, n);
    }
  }

  /** On a module without constant moves the bound holds. */
  lemma StillModuleBounds(g: Graph)
    requires IsGraph(g) && StillModule(g)
    ensures CoversMore(Census(WITH, g, Final(WITH, g), |g.order|), Census(WITHOUT, g, Final(WITHOUT, g), |g.order|))
  {
    forall k ensures HasHeights(g, k) { StillIsLevelled(g, k); }
    NoEntryBounds(g, g.table.Keys);
  }

  lemma {:induction false} RecordsSame(b: Block, st: State, n: nat)
    requires n <= |b.sites|
    ensures Records(WITH, b, st, n) == Records(WITHOUT, b, st, n)
  {
    if n > 0 {
      RecordsSame(b, st, n - 1);
      StateAtSame(b, st, n - 1);
    }
  }

  lemma {:induction false} CensusSame(g: Graph, out: Outs, out': Outs, i: nat)
    requires i <= |g.order|
    requires forall a :: a in g.order ==> BlockRecords(WITH, g, out, a) == BlockRecords(WITHOUT, g, out', a)
    ensures Census(WITH, g, out, i) == Census(WITHOUT, g, out', i)
  {
    if i > 0 {
      assert g.order[i - 1] in g.order;
      CensusSame(g, out, out', i - 1);
    }
  }

  /** Where no entered block is branched to, the two models record the same. */
  lemma UnenteredModuleSame(g: Graph)
    requires IsGraph(g) && forall a :: a in g.table && g.table[a].entry ==> Preds(g.blocks, g.table, a) == []
    ensures Census(WITH, g, Final(WITH, g), |g.order|) == Census(WITHOUT, g, Final(WITHOUT, g), |g.order|)
  {
    IterSame(g, {}, MAX_PASSES);
    forall a | a in g.order ensures BlockRecords(WITH, g, Final(WITH, g), a) ==
        BlockRecords(WITHOUT, g, Final(WITHOUT, g), a) {
      InStateSame(g, {}, Final(WITH, g), Final(WITHOUT, g), a);
      RecordsSame(g.table[a], InState(WITH, g, Final(WITH, g), a), |g.table[a].sites|);
    }
    CensusSame(g, Final(WITH, g), Final(WITHOUT, g), |g.order|);
  }
}
