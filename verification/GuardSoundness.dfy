/**
  What the analysis promises about executions.

  A run walks the blocks of a module from a place the dispatcher can enter, along module edges,
  through concrete register and segment values.  Addresses are taken modulo 2^32.
*/
module GuardSoundness {
  import opened Options
  import opened GuardModel
  import opened GuardFixpoint

  const WORD := 0x1_0000_0000

  // ---- concrete executions ----

  /** Values are wrapped to 32 bits where they are written. */
  datatype Machine = Machine(regs: Reg -> int, segs: Seg -> int)

  function Scaled(m: Machine, r: Option<Reg>, scale: int): int {
    if r.Some? then m.regs(r.value) * scale else 0
  }

  /** The part of an address its key determines. */
  function Base(k: Key, m: Machine): int {
    match k
    case Abs(seg, page) => m.segs(seg) + page * PAGE
    case Ind(seg, base, index, scale) => m.segs(seg) + Scaled(m, base, 1) + Scaled(m, index, scale)
  }

  /** The effect of one event: only a kill-all may change a segment base. */
  ghost predicate Exec(ev: Event, m: Machine, m': Machine) {
    match ev
    case KillAll => true
    case RegWrite(r, d) =>
      && m'.segs == m.segs
      && (forall q :: q != r ==> m'.regs(q) == m.regs(q))
      && (d.Some? ==> m'.regs(r) == (m.regs(r) + d.value) % WORD)
    case Acc(_, _, _, _) => m' == m
  }

  /** At block `addr`, before site `pos`; the position after the last site is the block's end. */
  datatype Place = Place(addr: Addr, pos: nat, m: Machine)

  ghost predicate InModule(g: Graph, p: Place) {
    p.addr in g.table && p.pos <= |g.table[p.addr].sites|
  }

  predicate AtEnd(g: Graph, p: Place)
    requires p.addr in g.table
  {
    p.pos == |g.table[p.addr].sites|
  }

  function EventAt(g: Graph, p: Place): Event
    requires InModule(g, p) && !AtEnd(g, p)
  {
    g.table[p.addr].sites[p.pos].ev
  }

  ghost predicate Starts(g: Graph, p: Place)
    requires InModule(g, p)
  {
    p.pos == 0 && (g.table[p.addr].entry || Preds(g.blocks, g.table, p.addr) == [])
  }

  ghost predicate Steps(g: Graph, p: Place, q: Place)
    requires InModule(g, p) && InModule(g, q)
  {
    if AtEnd(g, p) then Edge(g.table, p.addr, q.addr) && q.pos == 0 && q.m == p.m
    else q.addr == p.addr && q.pos == p.pos + 1 && Exec(EventAt(g, p), p.m, q.m)
  }

  ghost predicate IsRun(g: Graph, run: seq<Place>) {
    && run != []
    && (forall i :: 0 <= i < |run| ==> InModule(g, run[i]))
    && Starts(g, run[0])
    && (forall i :: 0 < i < |run| ==> Steps(g, run[i - 1], run[i]))
  }

  // ---- what the analysis says at a place, and what happened on the run ----

  function StateFor(cfg: Config, g: Graph, out: Outs, p: Place): State
    requires p.addr in g.table && p.pos <= |g.table[p.addr].sites|
  {
    StateAt(cfg, g.table[p.addr], InState(cfg, g, out, p.addr), p.pos)
  }

  ghost predicate IsAccess(g: Graph, p: Place) {
    InModule(g, p) && !AtEnd(g, p) && EventAt(g, p).Acc?
  }

  ghost function RecordFor(cfg: Config, g: Graph, out: Outs, p: Place): Rec
    requires IsAccess(g, p)
  {
    RecOf(cfg, p.addr, g.table[p.addr].sites[p.pos], StateFor(cfg, g, out, p))
  }

  /** The access made at `p` is where the page behind key `k` is checked. */
  ghost predicate Anchors(cfg: Config, g: Graph, out: Outs, p: Place, k: Key) {
    IsAccess(g, p) && EventAt(g, p).key == Some(k)
        && Installs(cfg, Before(cfg, StateFor(cfg, g, out, p)), EventAt(g, p))
  }

  /** Going from `p` to `q` gives up every earlier check: a kill-all, or a block the dispatcher enters. */
  ghost predicate Breaks(g: Graph, p: Place, q: Place)
    requires InModule(g, p) && InModule(g, q)
  {
    if AtEnd(g, p) then g.table[q.addr].entry else EventAt(g, p).KillAll?
  }

  /** The index of the latest check of `k` still in force before place `i` of the run. */
  ghost function Latest(cfg: Config, g: Graph, out: Outs, run: seq<Place>, i: nat, k: Key): Option<nat>
    requires IsRun(g, run) && i < |run|
  {
    if i == 0 || Breaks(g, run[i - 1], run[i]) then None
    else if Anchors(cfg, g, out, run[i - 1], k) then Some(i - 1)
    else Latest(cfg, g, out, run, i - 1, k)
  }

  /** Place `j` is an anchor of the key with no break and no newer anchor before place `i`. */
  ghost predicate InForce(cfg: Config, g: Graph, out: Outs, run: seq<Place>, i: nat, k: Key, j: nat)
    requires IsRun(g, run) && i < |run|
  {
    && j < i && Anchors(cfg, g, out, run[j], k)
    && (forall n :: j < n < i ==> !Anchors(cfg, g, out, run[n], k))
    && (forall n :: j < n <= i ==> !Breaks(g, run[n - 1], run[n]))
  }

  lemma OnePlaceOn(cfg: Config, g: Graph, out: Outs, run: seq<Place>, i: nat, k: Key, j: nat)
    requires IsRun(g, run) && 0 < i < |run|
    requires !Breaks(g, run[i - 1], run[i]) && !Anchors(cfg, g, out, run[i - 1], k)
    ensures InForce(cfg, g, out, run, i, k, j) <==> InForce(cfg, g, out, run, i - 1, k, j)
  {
  }

  /** What `Latest` means: an anchor of the key with no break and no newer anchor after it. */
  lemma {:induction false} LatestMeaning(cfg: Config, g: Graph, out: Outs, run: seq<Place>, i: nat, k: Key, j: nat)
    requires IsRun(g, run) && i < |run|
    ensures Latest(cfg, g, out, run, i, k) == Some(j) <==>
            && j < i
            && Anchors(cfg, g, out, run[j], k)
            && (forall n :: j < n < i ==> !Anchors(cfg, g, out, run[n], k))
            && (forall n :: j < n <= i ==> !Breaks(g, run[n - 1], run[n]))
  {
    if i > 0 && !Breaks(g, run[i - 1], run[i]) && !Anchors(cfg, g, out, run[i - 1], k) {
      LatestMeaning(cfg, g, out, run, i - 1, k, j);
      OnePlaceOn(cfg, g, out, run, i, k, j);
    }
  }

  // ---- the invariant ----

  /** Cover `c` of key `k`, read with machine `m`, describes the check made at `p`. */
  ghost predicate Describes(sep: bool, g: Graph, p: Place, k: Key, c: Cover, m: Machine) {
    && IsAccess(g, p)
    && AnchorOf(p.addr, g.table[p.addr].sites[p.pos]) in c.anchors
    && (k.Abs? ==> c.delta == 0)
    && Base(k, m) % WORD == (Base(k, p.m) + c.delta) % WORD
    && (sep && c.cap.ReadWrite? ==> EventAt(g, p).kind != R)
  }

  /** The cover `c` the analysis holds for `k` at place `i` describes the run's latest check of `k`. */
  ghost predicate Covers(cfg: Config, g: Graph, out: Outs, run: seq<Place>, i: nat, k: Key, c: Cover)
    requires IsRun(g, run) && i < |run|
  {
    var at := Latest(cfg, g, out, run, i, k);
    at.Some? && at.value < i && Describes(cfg.Sep(), g, run[at.value], k, c, run[i].m)
  }

  ghost predicate CoversAll(cfg: Config, g: Graph, out: Outs, run: seq<Place>, i: nat, st: State)
    requires IsRun(g, run) && i < |run|
  {
    forall k :: k in st ==> Covers(cfg, g, out, run, i, k, st[k])
  }

  /** The analysis is meant to describe executions: every model but the one that ignores the dispatcher. */
  predicate Realisable(cfg: Config) {
    !cfg.model.MONoEntry? && !cfg.noKill
  }

  lemma AddMod(x: int, y: int, c: int)
    requires x % WORD == y % WORD
    ensures (x + c) % WORD == (y + c) % WORD
  {
    var qx, qy := x / WORD, y / WORD;
    assert x + c == y + c + WORD * (qx - qy);
    ModMultiple(y + c, qx - qy);
  }

  lemma ModMultiple(x: int, n: int)
    ensures (x + WORD * n) % WORD == x % WORD
  {
    assert x == WORD * (x / WORD) + x % WORD;
    assert (x + WORD * n) == WORD * (x / WORD + n) + x % WORD;
  }

  /** A tracked register write moves the base of every key it keeps by the tracked constant. */
  lemma RegWriteMovesBase(cfg: Config, k: Key, c: Cover, r: Reg, d: Option<int>, m: Machine, m': Machine)
    requires Exec(RegWrite(r, d), m, m') && Survives(cfg, k, r, d)
    ensures Base(k, m') % WORD == (Base(k, m) + Moved(k, r, d, c).delta - c.delta) % WORD
  {
    if k.Ind? && k.base == Some(r) && d.Some? {
      var sum := m.regs(r) + d.value;
      assert m'.regs(r) == sum - WORD * (sum / WORD);
      assert Base(k, m') == Base(k, m) + d.value + WORD * -(sum / WORD);
      ModMultiple(Base(k, m) + d.value, -(sum / WORD));
    } else {
      assert Base(k, m') == Base(k, m);
    }
  }

  lemma RegWriteKeepsDescription(
    cfg: Config, g: Graph, p: Place, k: Key, c: Cover, r: Reg, d: Option<int>, m: Machine, m': Machine)
    requires Exec(RegWrite(r, d), m, m') && Survives(cfg, k, r, d)
    requires Describes(cfg.Sep(), g, p, k, c, m)
    ensures Describes(cfg.Sep(), g, p, k, Moved(k, r, d, c), m')
  {
    RegWriteMovesBase(cfg, k, c, r, d, m, m');
    AddMod(Base(k, m), Base(k, p.m) + c.delta, Moved(k, r, d, c).delta - c.delta);
  }

  /** What a fresh anchor's cover says is true on the spot. */
  lemma FreshAnchorDescribed(cfg: Config, g: Graph, p: Place, st: State)
    requires IsAccess(g, p) && Installs(cfg, st, EventAt(g, p))
    ensures var k := EventAt(g, p).key.value;
            Describes(cfg.Sep(), g, p, k, AfterAccess(cfg, p.addr, g.table[p.addr].sites[p.pos], st)[k], p.m)
  {
  }

  /** One event keeps the invariant. */
  lemma EventKeepsCovers(cfg: Config, g: Graph, out: Outs, run: seq<Place>, i: nat, st: State, st': State)
    requires IsRun(g, run) && 0 < i < |run| && Realisable(cfg)
    requires !AtEnd(g, run[i - 1])
    requires st == StateFor(cfg, g, out, run[i - 1])
    requires st' == AfterSite(cfg, run[i - 1].addr, g.table[run[i - 1].addr].sites[run[i - 1].pos], st)
    requires CoversAll(cfg, g, out, run, i - 1, st)
    ensures CoversAll(cfg, g, out, run, i, st')
  {
    var p, q := run[i - 1], run[i];
    assert Steps(g, p, q);
    forall k | k in st' ensures Covers(cfg, g, out, run, i, k, st'[k]) {
      match EventAt(g, p)
      case KillAll =>
      case RegWrite(r, d) =>
        RegWriteKeepsCovers(cfg, g, out, run, i, st, k);
      case Acc(_, _, _, _) =>
        AccessKeepsCovers(cfg, g, out, run, i, st, k);
    }
  }

  lemma RegWriteKeepsCovers(cfg: Config, g: Graph, out: Outs, run: seq<Place>, i: nat, st: State, k: Key)
    requires IsRun(g, run) && 0 < i < |run| && Realisable(cfg)
    requires !AtEnd(g, run[i - 1]) && EventAt(g, run[i - 1]).RegWrite?
    requires CoversAll(cfg, g, out, run, i - 1, st)
    requires k in st && Survives(cfg, k, EventAt(g, run[i - 1]).reg, EventAt(g, run[i - 1]).delta)
    ensures Covers(cfg, g, out, run, i, k, Moved(k, EventAt(g, run[i - 1]).reg, EventAt(g, run[i - 1]).delta, st[k]))
  {
    var e := EventAt(g, run[i - 1]);
    assert Steps(g, run[i - 1], run[i]);
    assert Covers(cfg, g, out, run, i - 1, k, st[k]);
    var j := Latest(cfg, g, out, run, i - 1, k).value;
    assert Latest(cfg, g, out, run, i, k) == Some(j);
    RegWriteKeepsDescription(cfg, g, run[j], k, st[k], e.reg, e.delta, run[i - 1].m, run[i].m);
  }

  lemma AccessKeepsCovers(cfg: Config, g: Graph, out: Outs, run: seq<Place>, i: nat, st0: State, k: Key)
    requires IsRun(g, run) && 0 < i < |run| && Realisable(cfg)
    requires IsAccess(g, run[i - 1])
    requires st0 == StateFor(cfg, g, out, run[i - 1])
    requires CoversAll(cfg, g, out, run, i - 1, st0)
    requires k in AfterAccess(cfg, run[i - 1].addr, g.table[run[i - 1].addr].sites[run[i - 1].pos], Before(cfg, st0))
    ensures Covers(cfg, g, out, run, i, k,
                   AfterAccess(cfg, run[i - 1].addr, g.table[run[i - 1].addr].sites[run[i - 1].pos],
                       Before(cfg, st0))[k])
  {
    var p, st := run[i - 1], Before(cfg, st0);
    assert Steps(g, p, run[i]);
    if Anchors(cfg, g, out, p, k) {
      assert Latest(cfg, g, out, run, i, k) == Some(i - 1);
      FreshAnchorDescribed(cfg, g, p, st);
    } else {
      assert Covers(cfg, g, out, run, i - 1, k, st0[k]);
      assert Latest(cfg, g, out, run, i, k) == Latest(cfg, g, out, run, i - 1, k);
    }
  }

  /** A key that survives the meet says no more than each available predecessor says of it. */
  lemma MeetWeakens(sep: bool, g: Graph, states: seq<State>, st: State, p: Place, k: Key, m: Machine)
    requires st in states && k in Meet(states)
    ensures k in st
    ensures Describes(sep, g, p, k, st[k], m) ==> Describes(sep, g, p, k, Meet(states)[k], m)
  {
    var n :| 0 <= n < |states| && states[n] == st;
    AnchorsContain(states, k, |states|, n);
  }

  /** Following a module edge between consistent states keeps the invariant. */
  lemma EdgeKeepsCovers(cfg: Config, g: Graph, out: Outs, run: seq<Place>, i: nat, st: State, states: seq<State>)
    requires IsRun(g, run) && 0 < i < |run|
    requires AtEnd(g, run[i - 1]) && !g.table[run[i].addr].entry
    requires CoversAll(cfg, g, out, run, i - 1, st)
    requires st in states
    ensures CoversAll(cfg, g, out, run, i, Meet(states))
  {
    var p, q := run[i - 1], run[i];
    assert Steps(g, p, q);
    forall k | k in Meet(states) ensures Covers(cfg, g, out, run, i, k, Meet(states)[k]) {
      assert k in st by { MeetWeakens(cfg.Sep(), g, states, st, p, k, q.m); }
      assert Covers(cfg, g, out, run, i - 1, k, st[k]);
      var j := Latest(cfg, g, out, run, i - 1, k);
      assert !Anchors(cfg, g, out, p, k);
      assert Latest(cfg, g, out, run, i, k) == j;
      MeetWeakens(cfg.Sep(), g, states, st, run[j.value], k, q.m);
    }
  }

  /** In a consistent assignment the state at a block's end is one of those its successors meet. */
  lemma EndStateIsAvailable(cfg: Config, g: Graph, out: Outs, p: Place, q: Place)
    requires IsGraph(g) && InModule(g, p) && InModule(g, q) && AtEnd(g, p) && Steps(g, p, q)
    requires Consistent(cfg, g, out) && cfg.Modular()
    ensures StateFor(cfg, g, out, p) in Available(out, Preds(g.blocks, g.table, q.addr))
    ensures Preds(g.blocks, g.table, q.addr) != []
  {
    EdgeIsPred(g.blocks, p.addr, q.addr);
    assert out[p.addr] == OutState(cfg, g, out, p.addr);
    AvailableMeaning(out, Preds(g.blocks, g.table, q.addr), StateFor(cfg, g, out, p));
  }

  lemma EdgeStepKeepsCovers(cfg: Config, g: Graph, out: Outs, run: seq<Place>, i: nat)
    requires IsGraph(g) && IsRun(g, run) && 0 < i < |run| && Consistent(cfg, g, out)
    requires AtEnd(g, run[i - 1]) && cfg.Modular() && !g.table[run[i].addr].entry
    requires CoversAll(cfg, g, out, run, i - 1, StateFor(cfg, g, out, run[i - 1]))
    ensures CoversAll(cfg, g, out, run, i, Meet(Available(out, Preds(g.blocks, g.table, run[i].addr))))
  {
    assert Steps(g, run[i - 1], run[i]);
    EndStateIsAvailable(cfg, g, out, run[i - 1], run[i]);
    EdgeKeepsCovers(cfg, g, out, run, i, StateFor(cfg, g, out, run[i - 1]),
                    Available(out, Preds(g.blocks, g.table, run[i].addr)));
  }

  /** The state at the start of a block is its in-state; inside, it follows the previous event. */
  lemma StateAfterStep(cfg: Config, g: Graph, out: Outs, p: Place, q: Place)
    requires InModule(g, p) && InModule(g, q) && Steps(g, p, q)
    ensures !AtEnd(g, p) ==>
              StateFor(cfg, g, out, q) ==
              AfterSite(cfg, g.table[p.addr].addr, g.table[p.addr].sites[p.pos], StateFor(cfg, g, out, p))
    ensures AtEnd(g, p) ==> StateFor(cfg, g, out, q) == InState(cfg, g, out, q.addr)
  {
  }

  lemma StepKeepsCovers(cfg: Config, g: Graph, out: Outs, run: seq<Place>, i: nat)
    requires IsGraph(g) && IsRun(g, run) && 0 < i < |run| && Realisable(cfg) && Consistent(cfg, g, out)
    requires CoversAll(cfg, g, out, run, i - 1, StateFor(cfg, g, out, run[i - 1]))
    ensures CoversAll(cfg, g, out, run, i, StateFor(cfg, g, out, run[i]))
  {
    var p, q := run[i - 1], run[i];
    assert Steps(g, p, q);
    StateAfterStep(cfg, g, out, p, q);
    if !AtEnd(g, p) {
      EventKeepsCovers(cfg, g, out, run, i, StateFor(cfg, g, out, p), StateFor(cfg, g, out, q));
    } else {
      var st := InState(cfg, g, out, q.addr);
      if st != map[] {
        EdgeStepKeepsCovers(cfg, g, out, run, i);
      }
    }
  }

  /** Along every run, each live key of a consistent assignment describes the run's latest check. */
  lemma {:induction false} CoversAlways(cfg: Config, g: Graph, out: Outs, run: seq<Place>, i: nat)
    requires IsGraph(g) && IsRun(g, run) && i < |run| && Realisable(cfg) && Consistent(cfg, g, out)
    ensures CoversAll(cfg, g, out, run, i, StateFor(cfg, g, out, run[i]))
  {
    if i == 0 {
      assert StateFor(cfg, g, out, run[0]) == map[];
    } else {
      CoversAlways(cfg, g, out, run, i - 1);
      StepKeepsCovers(cfg, g, out, run, i);
    }
  }

  // ---- extents, and the theorem ----

  /** The byte extent `ext` gives an anchor contains the range, relative to the anchor's base. */
  predicate Within(ext: map<Anchor, (int, int)>, an: Anchor, off: int, width: nat) {
    an in ext && ext[an].0 <= off && off + width <= ext[an].1
  }

  /** `ext` is exactly the hull, per anchor, of the ranges of the records that name it. */
  ghost predicate IsHull(record: seq<Rec>, ext: map<Anchor, (int, int)>) {
    && (forall r, an :: r in record && an in r.anchors ==> Within(ext, an, r.off, r.width))
    && (forall an :: an in ext ==> exists r :: r in record && an in r.anchors && r.off == ext[an].0)
    && (forall an :: an in ext ==> exists r :: r in record && an in r.anchors && r.off + r.width == ext[an].1)
  }

  /** One anchor's extent after a record naming it. */
  function Stretched(ext: map<Anchor, (int, int)>, an: Anchor, r: Rec): (int, int) {
    if an in ext then
      (if r.off < ext[an].0 then r.off else ext[an].0,
       if r.off + r.width > ext[an].1 then r.off + r.width else ext[an].1)
    else (r.off, r.off + r.width)
  }

  ghost predicate IsWidened(ext: map<Anchor, (int, int)>, r: Rec, anchors: set<Anchor>, wide: map<Anchor, (int, int)>) {
    && (forall an :: an in wide <==> an in ext || an in anchors)
    && (forall an :: an in anchors ==> wide[an] == Stretched(ext, an, r))
    && (forall an :: an in ext && an !in anchors ==> wide[an] == ext[an])
  }

  /** Widen the extents of one record's anchors. */
  method Widen(ext: map<Anchor, (int, int)>, r: Rec) returns (wide: map<Anchor, (int, int)>)
    ensures IsWidened(ext, r, r.anchors, wide)
  {
    wide := ext;
    var todo := r.anchors;
    while todo != {}
      invariant todo <= r.anchors
      invariant IsWidened(ext, r, r.anchors - todo, wide)
      decreases |todo|
    {
      var an :| an in todo;
      todo := todo - {an};
      var lo, hi := r.off, r.off + r.width;
      if an in wide {
        if wide[an].0 < lo { lo := wide[an].0; }
        if wide[an].1 > hi { hi := wide[an].1; }
      }
      assert (lo, hi) == Stretched(ext, an, r);
      ghost var done := r.anchors - todo - {an};
      wide := wide[an := (lo, hi)];
      assert r.anchors - todo == done + {an};
    }
  }

  lemma WidenKeepsHull(record: seq<Rec>, r: Rec, ext: map<Anchor, (int, int)>, wide: map<Anchor, (int, int)>)
    requires IsHull(record, ext) && IsWidened(ext, r, r.anchors, wide)
    ensures IsHull(record + [r], wide)
  {
    var more := record + [r];
    assert more[|record|] == r;
    assert forall x :: x in more <==> x in record || x == r;
    forall x, an | x in more && an in x.anchors ensures Within(wide, an, x.off, x.width) {
      if x in record { assert Within(ext, an, x.off, x.width); }
    }
    forall an | an in wide
      ensures exists x :: x in more && an in x.anchors && x.off == wide[an].0
      ensures exists x :: x in more && an in x.anchors && x.off + x.width == wide[an].1
    {
      if an in ext {
        var lo :| lo in record && an in lo.anchors && lo.off == ext[an].0;
        var hi :| hi in record && an in hi.anchors && hi.off + hi.width == ext[an].1;
        assert lo in more && hi in more;
      }
    }
  }

  /** The anchor extents of the summary. */
  method Extents(record: seq<Rec>) returns (ext: map<Anchor, (int, int)>)
    ensures IsHull(record, ext)
  {
    ext := map[];
    var i := 0;
    while i < |record|
      invariant i <= |record|
      invariant IsHull(record[..i], ext)
    {
      assert record[..i + 1] == record[..i] + [record[i]];
      var wide := Widen(ext, record[i]);
      WidenKeepsHull(record[..i], record[i], ext, wide);
      ext := wide;
      i := i + 1;
    }
    assert record[..i] == record;
  }

  /** The record of an access is in the census. */
  lemma AccessIsRecorded(cfg: Config, g: Graph, p: Place)
    requires IsGraph(g) && IsAccess(g, p)
    ensures RecordFor(cfg, g, Final(cfg, g), p) in Census(cfg, g, Final(cfg, g), |g.order|)
  {
    var b, st := g.table[p.addr], InState(cfg, g, Final(cfg, g), p.addr);
    RecordedAt(cfg, b, st, |b.sites|, p.pos);
    assert p.addr in g.order;
    var j :| 0 <= j < |g.order| && g.order[j] == p.addr;
    CensusContains(cfg, g, Final(cfg, g), |g.order|, j, RecordFor(cfg, g, Final(cfg, g), p));
  }

  /** The address an access touches. */
  ghost function Address(g: Graph, p: Place): int
    requires IsAccess(g, p) && EventAt(g, p).key.Some?
  {
    (Base(EventAt(g, p).key.value, p.m) + EventAt(g, p).disp) % WORD
  }

  /** The check made at `p` stands for the whole access at `q`, whose record is `rec`. */
  ghost predicate StandsFor(sep: bool, g: Graph, p: Place, q: Place, rec: Rec, ext: map<Anchor, (int, int)>) {
    && IsAccess(g, p) && IsAccess(g, q)
    && EventAt(g, p).key == EventAt(g, q).key && EventAt(g, q).key.Some?
    && var an := AnchorOf(p.addr, g.table[p.addr].sites[p.pos]);
    && an in rec.anchors
    && Address(g, q) == (Base(EventAt(g, q).key.value, p.m) + rec.off) % WORD
    && Within(ext, an, rec.off, EventAt(g, q).width)
    && Within(ext, an, EventAt(g, p).disp, EventAt(g, p).width)
    && (sep && EventAt(g, q).kind != R ==> EventAt(g, p).kind != R)
  }

  /** Whichever recorded anchor made the check, its extent holds the access: one extent check suffices. */
  ghost predicate CheckedByAll(rec: Rec, ext: map<Anchor, (int, int)>) {
    forall an :: an in rec.anchors ==> Within(ext, an, rec.off, rec.width)
  }

  lemma DescribedStandsFor(cfg: Config, g: Graph, p: Place, q: Place, c: Cover, rec: Rec, ext: map<Anchor, (int, int)>)
    requires IsAccess(g, p) && IsAccess(g, q)
    requires EventAt(g, p).key == EventAt(g, q).key && EventAt(g, q).key.Some?
    requires var e := EventAt(g, q);
             && Describes(cfg.Sep(), g, p, e.key.value, c, q.m)
             && (cfg.Sep() && e.kind != R ==> c.cap.ReadWrite?)
             && rec.off == (if e.key.value.Abs? then e.disp else e.disp + c.delta)
             && rec.width == e.width && rec.anchors == c.anchors
    requires forall an :: an in rec.anchors ==> Within(ext, an, rec.off, rec.width)
    requires var an := AnchorOf(p.addr, g.table[p.addr].sites[p.pos]);
             Within(ext, an, EventAt(g, p).disp, EventAt(g, p).width)
    ensures StandsFor(cfg.Sep(), g, p, q, rec, ext)
  {
    var e := EventAt(g, q);
    AddMod(Base(e.key.value, q.m), Base(e.key.value, p.m) + c.delta, e.disp);
  }

  /**
    Members need no check of their own.  If the analysis converged, then whenever a run reaches an
    access classified as a member, the run's latest check of its key stands for it: that check was
    made by one of the recorded anchors, with no kill-all, no entry block and no newer anchor of the
    key since; the member's address is the check's base plus the recorded offset; the extent checked
    contains both accesses, and those of all the recorded anchors contain the member; and when reads
    and writes are kept apart a write was checked by a write.
  */
  lemma MembersAreChecked(cfg: Config, g: Graph, run: seq<Place>, i: nat, ext: map<Anchor, (int, int)>) returns (j: nat)
    requires IsGraph(g) && IsRun(g, run) && i < |run| && Realisable(cfg) && Converged(cfg, g)
    requires IsAccess(g, run[i]) && RecordFor(cfg, g, Final(cfg, g), run[i]).member
    requires IsHull(Census(cfg, g, Final(cfg, g), |g.order|), ext)
    ensures EventAt(g, run[i]).key.Some? && j < i
    ensures Latest(cfg, g, Final(cfg, g), run, i, EventAt(g, run[i]).key.value) == Some(j)
    ensures StandsFor(cfg.Sep(), g, run[j], run[i], RecordFor(cfg, g, Final(cfg, g), run[i]), ext)
    ensures CheckedByAll(RecordFor(cfg, g, Final(cfg, g), run[i]), ext)
    ensures !RecordFor(cfg, g, Final(cfg, g), run[j]).member
  {
    ConvergedIsConsistent(cfg, g);
    CoversAlways(cfg, g, Final(cfg, g), run, i);
    forall n | 0 <= n < |run| && IsAccess(g, run[n])
      ensures RecordFor(cfg, g, Final(cfg, g), run[n]) in Census(cfg, g, Final(cfg, g), |g.order|)
    {
      AccessIsRecorded(cfg, g, run[n]);
    }
    j := CheckStandsFor(cfg, g, Final(cfg, g), Census(cfg, g, Final(cfg, g), |g.order|), run, i, ext);
  }

  lemma CheckStandsFor(
    cfg: Config, g: Graph, out: Outs, record: seq<Rec>, run: seq<Place>, i: nat, ext: map<Anchor, (int, int)>)
    returns (j: nat)
    requires IsGraph(g) && IsRun(g, run) && i < |run|
    requires CoversAll(cfg, g, out, run, i, StateFor(cfg, g, out, run[i]))
    requires IsAccess(g, run[i]) && RecordFor(cfg, g, out, run[i]).member
    requires IsHull(record, ext)
    requires forall n :: 0 <= n < |run| && IsAccess(g, run[n]) ==> RecordFor(cfg, g, out, run[n]) in record
    ensures EventAt(g, run[i]).key.Some? && j < i
    ensures Latest(cfg, g, out, run, i, EventAt(g, run[i]).key.value) == Some(j)
    ensures StandsFor(cfg.Sep(), g, run[j], run[i], RecordFor(cfg, g, out, run[i]), ext)
    ensures CheckedByAll(RecordFor(cfg, g, out, run[i]), ext)
    ensures !RecordFor(cfg, g, out, run[j]).member
  {
    var e, rec := EventAt(g, run[i]), RecordFor(cfg, g, out, run[i]);
    var k, st := e.key.value, StateFor(cfg, g, out, run[i]);
    assert Covers(cfg, g, out, run, i, k, st[k]);
    j := Latest(cfg, g, out, run, i, k).value;
    LatestMeaning(cfg, g, out, run, i, k, j);
    AnchorRecord(cfg, g, out, run[j], k);
    assert RecordFor(cfg, g, out, run[j]) in record;
    DescribedStandsFor(cfg, g, run[j], run[i], st[k], rec, ext);
  }

  /** An anchor's record names the anchor itself, at its own displacement. */
  lemma AnchorRecord(cfg: Config, g: Graph, out: Outs, p: Place, k: Key)
    requires Anchors(cfg, g, out, p, k) && g.table[p.addr].addr == p.addr
    ensures var rec := RecordFor(cfg, g, out, p);
            && !rec.member && AnchorOf(p.addr, g.table[p.addr].sites[p.pos]) in rec.anchors
            && rec.off == EventAt(g, p).disp && rec.width == EventAt(g, p).width
  {
  }
}
