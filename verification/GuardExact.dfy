/**
  Which accesses the analysis counts as members, told from the events of their block and the state
  it starts in alone, and what it records of them; and what a block starts in, told from the states
  its predecessors ended in.
*/
module GuardExact {
  import opened Options
  import opened GuardModel
  import opened GuardFixpoint

  // ---- what an event does to a key ----

  function BaseOf(k: Key): Option<Reg> { if k.Ind? then k.base else None }

  function IndexOf(k: Key): Option<Reg> { if k.Ind? then k.index else None }

  /** The event addresses memory by this key, and an absolute access stays on its page. */
  predicate Touches(e: Event, k: Key) {
    e.Acc? && e.key == Some(k) && (k.Abs? ==> e.disp + e.width <= PAGE)
  }

  /** A kill, a write of the key's index, or a write of its base that is not a tracked addition. */
  predicate Ends(cfg: Config, k: Key, e: Event) {
    && !cfg.noKill
    && (e.KillAll?
        || (e.RegWrite? && IndexOf(k) == Some(e.reg))
        || (e.RegWrite? && BaseOf(k) == Some(e.reg) && (cfg.model.S? || e.delta.None?)))
  }

  /** By how much a tracked addition moves the key's base. */
  function Shift(cfg: Config, k: Key, e: Event): int {
    if !cfg.noKill && e.RegWrite? && BaseOf(k) == Some(e.reg) && e.delta.Some? then e.delta.value else 0
  }

  /** In the separated model a write needs a check that was made for writing. */
  predicate NeedsWrite(cfg: Config, e: Event)
    requires e.Acc?
  {
    cfg.model.MOSep? && e.kind != R
  }

  /** No event from `i` up to `n` ends the key. */
  ghost predicate Unended(cfg: Config, b: Block, k: Key, i: nat, n: nat)
    requires n <= |b.sites|
  {
    forall m :: i <= m < n ==> !Ends(cfg, k, b.sites[m].ev)
  }

  predicate HasIn(st: State, k: Key, write: bool) {
    k in st && (write ==> st[k].cap.ReadWrite?)
  }

  /** The event checks the key, for writing if that is asked. */
  predicate Checks(e: Event, k: Key, write: bool) {
    Touches(e, k) && (write ==> e.kind != R)
  }

  /** The key was checked: in the state the block starts in or by an access, and nothing has ended it since. */
  ghost predicate Checked(cfg: Config, b: Block, st: State, n: nat, k: Key, write: bool)
    requires n <= |b.sites|
  {
    || (HasIn(st, k, write) && Unended(cfg, b, k, 0, n))
    || exists j :: 0 <= j < n && Checks(b.sites[j].ev, k, write) && Unended(cfg, b, k, j + 1, n)
  }

  // ---- membership ----

  lemma SiteExactly(cfg: Config, a: Addr, site: Site, st: State, k: Key, write: bool)
    requires !cfg.killEvery && (write ==> cfg.model.MOSep?)
    ensures HasIn(AfterSite(cfg, a, site, st), k, write) <==>
            (HasIn(st, k, write) && !Ends(cfg, k, site.ev)) || Checks(site.ev, k, write)
  {
  }

  lemma CheckedMore(cfg: Config, b: Block, st: State, n: nat, k: Key, write: bool)
    requires n < |b.sites|
    ensures Checked(cfg, b, st, n + 1, k, write) <==>
            (Checked(cfg, b, st, n, k, write) && !Ends(cfg, k, b.sites[n].ev)) || Checks(b.sites[n].ev, k, write)
  {
    var e := b.sites[n].ev;
    if Checks(e, k, write) { assert Unended(cfg, b, k, n + 1, n + 1); }
    if j :| 0 <= j < n && Checks(b.sites[j].ev, k, write) && Unended(cfg, b, k, j + 1, n) {
      if !Ends(cfg, k, e) { assert Unended(cfg, b, k, j + 1, n + 1); }
    }
    if j :| 0 <= j < n + 1 && Checks(b.sites[j].ev, k, write) && Unended(cfg, b, k, j + 1, n + 1) {
      if j < n { assert Unended(cfg, b, k, j + 1, n); }
    }
  }

  /** A key is in the state of a block exactly while it is checked. */
  lemma {:induction false} LiveIffChecked(cfg: Config, b: Block, st: State, n: nat, k: Key, write: bool)
    requires !cfg.killEvery && (write ==> cfg.model.MOSep?) && n <= |b.sites|
    ensures HasIn(StateAt(cfg, b, st, n), k, write) <==> Checked(cfg, b, st, n, k, write)
  {
    if n > 0 {
      LiveIffChecked(cfg, b, st, n - 1, k, write);
      CheckedMore(cfg, b, st, n - 1, k, write);
      SiteExactly(cfg, b.addr, b.sites[n - 1], StateAt(cfg, b, st, n - 1), k, write);
    }
  }

  /**
    An access is a member exactly if it has a key, does not leave its page, and its key is checked
    where it stands: by the state the block starts in, or by an earlier access of the block that has
    the key and does not leave its page, with nothing in between that ends it.  In the separated model
    a write needs a check made for writing.
  */
  lemma MemberExactly(cfg: Config, b: Block, st: State, i: nat)
    requires !cfg.killEvery && i < |b.sites| && b.sites[i].ev.Acc?
    ensures var e := b.sites[i].ev;
            RecOf(cfg, b.addr, b.sites[i], StateAt(cfg, b, st, i)).member <==>
            && e.key.Some? && Touches(e, e.key.value)
            && Checked(cfg, b, st, i, e.key.value, NeedsWrite(cfg, e))
  {
    var e := b.sites[i].ev;
    if e.key.Some? { LiveIffChecked(cfg, b, st, i, e.key.value, NeedsWrite(cfg, e)); }
  }

  /** In the two models within blocks, the state a block starts in plays no part. */
  lemma LocalMemberExactly(cfg: Config, g: Graph, out: Outs, a: Addr, i: nat)
    requires !cfg.killEvery && (cfg.model.S? || cfg.model.SO?)
    requires IsGraph(g) && a in g.table && i < |g.table[a].sites| && g.table[a].sites[i].ev.Acc?
    ensures var b := g.table[a]; var e := b.sites[i].ev;
            RecOf(cfg, a, b.sites[i], StateAt(cfg, b, InState(cfg, g, out, a), i)).member <==>
            && e.key.Some? && Touches(e, e.key.value)
            && exists j :: 0 <= j < i && Touches(b.sites[j].ev, e.key.value)
                           && Unended(cfg, b, e.key.value, j + 1, i)
  {
    var b := g.table[a];
    var e := b.sites[i].ev;
    MemberExactly(cfg, b, InState(cfg, g, out, a), i);
    if e.key.Some? && Touches(e, e.key.value) {
      if j :| 0 <= j < i && Touches(b.sites[j].ev, e.key.value) && Unended(cfg, b, e.key.value, j + 1, i) {
        assert Checks(b.sites[j].ev, e.key.value, false);
      }
      if j :| 0 <= j < i && Checks(b.sites[j].ev, e.key.value, false) && Unended(cfg, b, e.key.value, j + 1, i) {
        assert Touches(b.sites[j].ev, e.key.value);
      }
    }
  }

  // ---- what a member's record says ----

  /** Site `j` is the access that checks the key: it touches it where it is not yet checked as it needs. */
  ghost predicate IsCheck(cfg: Config, b: Block, st: State, j: nat, k: Key)
    requires j < |b.sites|
  {
    Touches(b.sites[j].ev, k) && !Checked(cfg, b, st, j, k, NeedsWrite(cfg, b.sites[j].ev))
  }

  /** From `i` up to `n` nothing ends the key and no access has to check it. */
  ghost predicate Quiet(cfg: Config, b: Block, st: State, k: Key, i: nat, n: nat)
    requires n <= |b.sites|
  {
    forall m :: i <= m < n ==> !Ends(cfg, k, b.sites[m].ev) && !IsCheck(cfg, b, st, m, k)
  }

  function Shifts(cfg: Config, b: Block, k: Key, i: nat, n: nat): int
    requires n <= |b.sites|
  {
    if n <= i then 0 else Shifts(cfg, b, k, i, n - 1) + Shift(cfg, k, b.sites[n - 1].ev)
  }

  /** A site that neither ends nor checks the key moves its cover by the constant it adds to the base. */
  lemma QuietSite(cfg: Config, b: Block, st: State, n: nat, k: Key)
    requires !cfg.killEvery && n < |b.sites| && k in StateAt(cfg, b, st, n)
    requires !Ends(cfg, k, b.sites[n].ev) && !IsCheck(cfg, b, st, n, k)
    ensures k in StateAt(cfg, b, st, n + 1)
    ensures var c := StateAt(cfg, b, st, n)[k];
            StateAt(cfg, b, st, n + 1)[k] == c.(delta := c.delta + Shift(cfg, k, b.sites[n].ev))
  {
    var e := b.sites[n].ev;
    if Touches(e, k) { LiveIffChecked(cfg, b, st, n, k, NeedsWrite(cfg, e)); }
  }

  lemma {:induction false} QuietMoves(cfg: Config, b: Block, st: State, k: Key, i: nat, n: nat)
    requires !cfg.killEvery && i <= n <= |b.sites| && k in StateAt(cfg, b, st, i) && Quiet(cfg, b, st, k, i, n)
    ensures k in StateAt(cfg, b, st, n)
    ensures var c := StateAt(cfg, b, st, i)[k];
            StateAt(cfg, b, st, n)[k] == c.(delta := c.delta + Shifts(cfg, b, k, i, n))
  {
    if i < n {
      QuietMoves(cfg, b, st, k, i, n - 1);
      QuietSite(cfg, b, st, n - 1, k);
    }
  }

  function CapOf(cfg: Config, e: Event): Cap
    requires e.Acc?
  {
    if cfg.model.MOSep? && e.kind == R then ReadOnly else ReadWrite
  }

  lemma CheckInstalls(cfg: Config, b: Block, st: State, j: nat, k: Key)
    requires !cfg.killEvery && j < |b.sites| && IsCheck(cfg, b, st, j, k)
    ensures k in StateAt(cfg, b, st, j + 1)
    ensures StateAt(cfg, b, st, j + 1)[k] ==
            Cover(0, {Anchor(b.addr, b.sites[j].ins, b.sites[j].ev.disp)}, CapOf(cfg, b.sites[j].ev))
  {
    LiveIffChecked(cfg, b, st, j, k, NeedsWrite(cfg, b.sites[j].ev));
  }

  /** The cover that a check leaves, until the key is ended or checked again. */
  lemma CoverOfCheck(cfg: Config, b: Block, st: State, j: nat, n: nat, k: Key)
    requires !cfg.killEvery && j < n <= |b.sites|
    requires IsCheck(cfg, b, st, j, k) && Quiet(cfg, b, st, k, j + 1, n)
    ensures k in StateAt(cfg, b, st, n)
    ensures StateAt(cfg, b, st, n)[k] == Cover(
              Shifts(cfg, b, k, j + 1, n), {Anchor(b.addr, b.sites[j].ins, b.sites[j].ev.disp)},
              CapOf(cfg, b.sites[j].ev))
  {
    CheckInstalls(cfg, b, st, j, k);
    QuietMoves(cfg, b, st, k, j + 1, n);
  }

  /** A member stands at the check before it, displaced by what was added to the base since. */
  lemma MemberOfCheck(cfg: Config, b: Block, st: State, j: nat, i: nat, k: Key)
    requires !cfg.killEvery && j < i < |b.sites| && Touches(b.sites[i].ev, k)
    requires IsCheck(cfg, b, st, j, k) && Quiet(cfg, b, st, k, j + 1, i) && !IsCheck(cfg, b, st, i, k)
    ensures var s, e := b.sites[i], b.sites[i].ev;
            RecOf(cfg, b.addr, s, StateAt(cfg, b, st, i)) ==
            Rec(b.addr, e.kind, true, {Anchor(b.addr, b.sites[j].ins, b.sites[j].ev.disp)},
                e.disp + Shifts(cfg, b, k, j + 1, i), e.width, s.ins)
  {
    CoverOfCheck(cfg, b, st, j, i, k);
    MemberExactly(cfg, b, st, i);
    AbsoluteStays(cfg, b, k, j + 1, i);
  }

  /** A member whose key the block came in with keeps the anchors it came in with. */
  lemma MemberOfEntry(cfg: Config, b: Block, st: State, i: nat, k: Key)
    requires !cfg.killEvery && i < |b.sites| && Touches(b.sites[i].ev, k) && k in st
    requires Quiet(cfg, b, st, k, 0, i) && !IsCheck(cfg, b, st, i, k)
    ensures var s, e := b.sites[i], b.sites[i].ev;
            RecOf(cfg, b.addr, s, StateAt(cfg, b, st, i)) ==
            Rec(b.addr, e.kind, true, st[k].anchors,
                e.disp + (if k.Abs? then 0 else st[k].delta + Shifts(cfg, b, k, 0, i)), e.width, s.ins)
  {
    QuietMoves(cfg, b, st, k, 0, i);
    MemberExactly(cfg, b, st, i);
  }

  lemma {:induction false} AbsoluteStays(cfg: Config, b: Block, k: Key, i: nat, n: nat)
    requires n <= |b.sites|
    ensures k.Abs? ==> Shifts(cfg, b, k, i, n) == 0
  {
    if i < n { AbsoluteStays(cfg, b, k, i, n - 1); }
  }

  /** An access that is no member is its own anchor. */
  lemma OthersStandAlone(cfg: Config, b: Block, st: State, i: nat)
    requires !cfg.killEvery && i < |b.sites| && b.sites[i].ev.Acc?
    requires b.sites[i].ev.key == None || !Touches(b.sites[i].ev, b.sites[i].ev.key.value)
             || IsCheck(cfg, b, st, i, b.sites[i].ev.key.value)
    ensures var s, e := b.sites[i], b.sites[i].ev;
            RecOf(cfg, b.addr, s, StateAt(cfg, b, st, i)) ==
            Rec(b.addr, e.kind, false, {Anchor(b.addr, s.ins, e.disp)}, e.disp, e.width, s.ins)
  {
    MemberExactly(cfg, b, st, i);
  }

  /** Every live key goes back to a check in the block, or to the state the block starts in. */
  ghost predicate HasOrigin(cfg: Config, b: Block, st: State, n: nat, k: Key)
    requires n <= |b.sites|
  {
    || (k in st && Quiet(cfg, b, st, k, 0, n))
    || exists j :: 0 <= j < n && IsCheck(cfg, b, st, j, k) && Quiet(cfg, b, st, k, j + 1, n)
  }

  lemma OriginOfCheck(cfg: Config, b: Block, st: State, n: nat, k: Key)
    requires n < |b.sites| && IsCheck(cfg, b, st, n, k)
    ensures HasOrigin(cfg, b, st, n + 1, k)
  {
    assert Quiet(cfg, b, st, k, n + 1, n + 1);
  }

  lemma OriginMore(cfg: Config, b: Block, st: State, n: nat, k: Key)
    requires n < |b.sites| && HasOrigin(cfg, b, st, n, k)
    requires !Ends(cfg, k, b.sites[n].ev) && !IsCheck(cfg, b, st, n, k)
    ensures HasOrigin(cfg, b, st, n + 1, k)
  {
    if j :| 0 <= j < n && IsCheck(cfg, b, st, j, k) && Quiet(cfg, b, st, k, j + 1, n) {
      assert Quiet(cfg, b, st, k, j + 1, n + 1);
    }
  }

  lemma StillChecked(cfg: Config, b: Block, st: State, n: nat, k: Key)
    requires !cfg.killEvery && n < |b.sites| && Checked(cfg, b, st, n + 1, k, false) && !IsCheck(cfg, b, st, n, k)
    ensures Checked(cfg, b, st, n, k, false) && !Ends(cfg, k, b.sites[n].ev)
  {
    CheckedMore(cfg, b, st, n, k, false);
    WriteIsChecked(cfg, b, st, n, k);
  }

  lemma {:induction false} CheckedHasOrigin(cfg: Config, b: Block, st: State, n: nat, k: Key)
    requires !cfg.killEvery && n <= |b.sites| && Checked(cfg, b, st, n, k, false)
    ensures HasOrigin(cfg, b, st, n, k)
  {
    if n > 0 {
      if IsCheck(cfg, b, st, n - 1, k) {
        OriginOfCheck(cfg, b, st, n - 1, k);
      } else {
        StillChecked(cfg, b, st, n - 1, k);
        CheckedHasOrigin(cfg, b, st, n - 1, k);
        OriginMore(cfg, b, st, n - 1, k);
      }
    }
  }

  lemma WriteIsChecked(cfg: Config, b: Block, st: State, n: nat, k: Key)
    requires !cfg.killEvery && n <= |b.sites|
    ensures Checked(cfg, b, st, n, k, true) ==> Checked(cfg, b, st, n, k, false)
  {
    if j :| 0 <= j < n && Checks(b.sites[j].ev, k, true) && Unended(cfg, b, k, j + 1, n) {
      assert Checks(b.sites[j].ev, k, false);
    }
  }

  // ---- the records of a block ----

  function Accesses(b: Block, n: nat): nat
    requires n <= |b.sites|
  {
    if n == 0 then 0 else Accesses(b, n - 1) + if b.sites[n - 1].ev.Acc? then 1 else 0
  }

  /** One record for each access of the block, in order. */
  lemma {:induction false} RecordsExactly(cfg: Config, b: Block, st: State, n: nat, i: nat)
    requires i <= n <= |b.sites|
    ensures |Records(cfg, b, st, n)| == Accesses(b, n) && Accesses(b, i) <= Accesses(b, n)
    ensures i < n && b.sites[i].ev.Acc? ==>
              Accesses(b, i) < Accesses(b, n)
              && Records(cfg, b, st, n)[Accesses(b, i)] == RecOf(cfg, b.addr, b.sites[i], StateAt(cfg, b, st, i))
  {
    if n > 0 {
      RecordsExactly(cfg, b, st, n - 1, if i < n then i else n - 1);
    }
  }

  // ---- what a block starts in ----

  /** Some block at `p` names `a`, which is in the module, as a successor. */
  ghost predicate Precedes(g: Graph, p: Addr, a: Addr) {
    a != 0 && a in g.table && exists b :: b in g.blocks && b.addr == p && (b.fall == a || b.taken == a)
  }

  ghost predicate HasAt(st: State, k: Key, v: int) { k in st && st[k].delta == v }

  /** The predecessors that have ended in some state all have the key, at displacement `v`; and there is one. */
  ghost predicate AllHaveAt(g: Graph, out: Outs, a: Addr, k: Key, v: int) {
    && (exists p :: Precedes(g, p, a) && p in out)
    && forall p :: Precedes(g, p, a) && p in out ==> HasAt(out[p], k, v)
  }

  lemma MeetExactly(states: seq<State>, k: Key, v: int)
    ensures HasAt(Meet(states), k, v) <==> states != [] && forall st: State :: st in states ==> HasAt(st, k, v)
    ensures k in Meet(states) ==>
              && (Meet(states)[k].cap.ReadWrite? <==> forall st: State :: st in states ==> st[k].cap.ReadWrite?)
              && forall an :: an in Meet(states)[k].anchors <==>
                   exists i :: 0 <= i < |states| && k in states[i] && an in states[i][k].anchors
  {
    if states != [] { assert states[0] in states; }
    if k in Meet(states) {
      forall an ensures an in Meet(states)[k].anchors <==>
        exists i :: 0 <= i < |states| && k in states[i] && an in states[i][k].anchors
      {
        UpToMeans(states, k, |states|, an);
      }
    }
  }

  /** Over the module a block starts with a key exactly if all states that reach it agree on it; an entry has none. */
  lemma InStateExactly(cfg: Config, g: Graph, out: Outs, a: Addr, k: Key, v: int)
    requires a in g.table
    ensures HasAt(InState(cfg, g, out, a), k, v) <==>
            && !cfg.model.S? && !cfg.model.SO? && (g.table[a].entry ==> cfg.model.MONoEntry?)
            && AllHaveAt(g, out, a, k, v)
  {
    var ps := Preds(g.blocks, g.table, a);
    forall p ensures p in ps <==> Precedes(g, p, a) {
      PredsMeaning(g.blocks, g.table, a, p);
    }
    var states := Available(out, ps);
    MeetExactly(states, k, v);
    forall p | p in ps && p in out ensures out[p] in states {
      AvailableMeaning(out, ps, out[p]);
    }
    forall st: State | st in states ensures exists p :: p in ps && p in out && out[p] == st {
      AvailableMeaning(out, ps, st);
    }
    if states != [] { assert states[0] in states; }
  }

  /** It starts with the anchors of all of them, good for writes if all of them are. */
  lemma InStateJoins(cfg: Config, g: Graph, out: Outs, a: Addr, k: Key)
    requires a in g.table && k in InState(cfg, g, out, a)
    ensures var c := InState(cfg, g, out, a)[k];
            && (c.cap.ReadWrite? <==>
                  forall p :: Precedes(g, p, a) && p in out ==> k in out[p] && out[p][k].cap.ReadWrite?)
            && forall an :: an in c.anchors <==>
                 exists p :: Precedes(g, p, a) && p in out && k in out[p] && an in out[p][k].anchors
  {
    var ps := Preds(g.blocks, g.table, a);
    var states := Available(out, ps);
    MeetExactly(states, k, InState(cfg, g, out, a)[k].delta);
    forall p ensures p in ps <==> Precedes(g, p, a) {
      PredsMeaning(g.blocks, g.table, a, p);
    }
    forall p | p in ps && p in out ensures out[p] in states {
      AvailableMeaning(out, ps, out[p]);
    }
    forall st: State | st in states ensures exists p :: Precedes(g, p, a) && p in out && out[p] == st {
      AvailableMeaning(out, ps, st);
    }
    forall an ensures an in InState(cfg, g, out, a)[k].anchors <==>
      exists p :: Precedes(g, p, a) && p in out && k in out[p] && an in out[p][k].anchors
    {
      if p :| Precedes(g, p, a) && p in out && k in out[p] && an in out[p][k].anchors {
        var i :| 0 <= i < |states| && states[i] == out[p];
      }
      if i :| 0 <= i < |states| && k in states[i] && an in states[i][k].anchors {
        assert states[i] in states;
      }
    }
  }
}
