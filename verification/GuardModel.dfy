/**
  Guard groups: the state of the availability analysis and its effect on one event.

  A block is a sequence of decoded events.  Accesses are grouped by an address key; the state maps
  a key to the constant displacement since its group was checked, the accesses that may have done
  the checking (the anchors), and whether that check also covers writes.
*/
module GuardModel {
  import opened Options

  type Addr = nat
  type Reg = nat

  datatype Seg = Flat | Fs | Gs

  datatype Key =
    | Abs(seg: Seg, page: nat)
    | Ind(seg: Seg, base: Option<Reg>, index: Option<Reg>, scale: nat)

  datatype AccessKind = R | W | RMW

  datatype Event =
    | KillAll
    | RegWrite(reg: Reg, delta: Option<int>)
    | Acc(kind: AccessKind, key: Option<Key>, disp: int, width: nat)

  /** An event together with the index of the instruction it was decoded from. */
  datatype Site = Site(ins: nat, ev: Event)

  /** `fall` and `taken` are the intra-module successors; address 0 stands for none. */
  datatype Block = Block(addr: Addr, fall: Addr, taken: Addr, entry: bool, sites: seq<Site>)

  datatype Cap = ReadOnly | ReadWrite
  datatype Anchor = Anchor(block: Addr, ins: nat, disp: int)
  datatype Cover = Cover(delta: int, anchors: set<Anchor>, cap: Cap)
  type State = map<Key, Cover>

  datatype Rec = Rec(block: Addr, kind: AccessKind, member: bool, anchors: set<Anchor>, off: int, width: nat, ins: nat)

  datatype Model = S | SO | MO | MOSep | MONoEntry

  datatype Config = Config(model: Model, killEvery: bool, noKill: bool) {
    predicate Track() { model != S }
    predicate Modular() { model.MO? || model.MOSep? || model.MONoEntry? }
    predicate Sep() { model.MOSep? }
    predicate NoEntry() { model.MONoEntry? }
  }

  const PAGE := 4096

  /** An absolute access that leaves its page is never grouped. */
  predicate Crosses(e: Event)
    requires e.Acc? && e.key.Some?
  {
    e.key.value.Abs? && e.disp + e.width > PAGE
  }

  predicate IsMember(cfg: Config, st: State, e: Event)
    requires e.Acc?
  {
    && e.key.Some?
    && e.key.value in st
    && (st[e.key.value].cap.ReadWrite? || !(cfg.Sep() && e.kind != R))
    && !Crosses(e)
  }

  /** A non-member access that becomes the anchor of its key. */
  predicate Installs(cfg: Config, st: State, e: Event)
    requires e.Acc?
  {
    e.key.Some? && !IsMember(cfg, st, e) && !Crosses(e)
  }

  function AnchorOf(a: Addr, site: Site): Anchor
    requires site.ev.Acc?
  {
    Anchor(a, site.ins, site.ev.disp)
  }

  predicate Survives(cfg: Config, k: Key, r: Reg, d: Option<int>) {
    k.Abs? || (k.index != Some(r) && (k.base == Some(r) ==> cfg.Track() && d.Some?))
  }

  function Moved(k: Key, r: Reg, d: Option<int>, c: Cover): Cover {
    if k.Ind? && k.base == Some(r) && d.Some? then c.(delta := c.delta + d.value) else c
  }

  function AfterRegWrite(cfg: Config, st: State, r: Reg, d: Option<int>): State {
    map k | k in st && Survives(cfg, k, r, d) :: Moved(k, r, d, st[k])
  }

  /** The control that kills before every event empties the state first. */
  function Before(cfg: Config, st: State): State {
    if cfg.killEvery then map[] else st
  }

  function AfterAccess(cfg: Config, a: Addr, site: Site, st: State): State
    requires site.ev.Acc?
  {
    if Installs(cfg, st, site.ev) then
      var cap := if !cfg.Sep() || site.ev.kind != R then ReadWrite else ReadOnly;
      st[site.ev.key.value := Cover(0, {AnchorOf(a, site)}, cap)]
    else st
  }

  function AfterSite(cfg: Config, a: Addr, site: Site, state: State): State {
    var st := Before(cfg, state);
    match site.ev
    case KillAll => if cfg.noKill then st else map[]
    case RegWrite(r, d) => if cfg.noKill then st else AfterRegWrite(cfg, st, r, d)
    case Acc(_, _, _, _) => AfterAccess(cfg, a, site, st)
  }

  /** What is recorded for an access met in state `state`. */
  function RecOf(cfg: Config, a: Addr, site: Site, state: State): Rec
    requires site.ev.Acc?
  {
    var st, e := Before(cfg, state), site.ev;
    if IsMember(cfg, st, e) then
      var c := st[e.key.value];
      Rec(a, e.kind, true, c.anchors, if e.key.value.Abs? then e.disp else e.disp + c.delta, e.width, site.ins)
    else
      Rec(a, e.kind, false, {AnchorOf(a, site)}, e.disp, e.width, site.ins)
  }

  /** The state just before site `n` of block `b` entered in state `st`. */
  function StateAt(cfg: Config, b: Block, st: State, n: nat): State
    requires n <= |b.sites|
  {
    if n == 0 then st else AfterSite(cfg, b.addr, b.sites[n - 1], StateAt(cfg, b, st, n - 1))
  }

  function Transfer(cfg: Config, b: Block, st: State): State {
    StateAt(cfg, b, st, |b.sites|)
  }

  function Records(cfg: Config, b: Block, st: State, n: nat): seq<Rec>
    requires n <= |b.sites|
  {
    if n == 0 then []
    else Records(cfg, b, st, n - 1) +
         if b.sites[n - 1].ev.Acc? then [RecOf(cfg, b.addr, b.sites[n - 1], StateAt(cfg, b, st, n - 1))] else []
  }

  /** Every access of a block has its record among the block's records. */
  lemma {:induction false} RecordedAt(cfg: Config, b: Block, st: State, n: nat, i: nat)
    requires i < n <= |b.sites| && b.sites[i].ev.Acc?
    ensures RecOf(cfg, b.addr, b.sites[i], StateAt(cfg, b, st, i)) in Records(cfg, b, st, n)
  {
    if i < n - 1 {
      RecordedAt(cfg, b, st, n - 1, i);
    }
  }

  /** The register-write loop over the live keys. */
  method WriteReg(cfg: Config, st: State, r: Reg, d: Option<int>) returns (live: State)
    ensures live == AfterRegWrite(cfg, st, r, d)
  {
    live := st;
    var todo := st.Keys;
    while todo != {}
      invariant todo <= st.Keys
      invariant forall k :: k in live <==> k in st && (k in todo || Survives(cfg, k, r, d))
      invariant forall k :: k in live ==> live[k] == if k in todo then st[k] else Moved(k, r, d, st[k])
      decreases |todo|
    {
      var k :| k in todo;
      todo := todo - {k};
      if k.Ind? {
        if k.index == Some(r) {
          live := live - {k};
        } else if k.base == Some(r) {
          if cfg.Track() && d.Some? {
            live := live[k := live[k].(delta := live[k].delta + d.value)];
          } else {
            live := live - {k};
          }
        }
      }
    }
  }

  /** The walk over one block's events, recording classifications when asked to. */
  method TransferBlock(cfg: Config, b: Block, state: State, recording: bool) returns (st: State, record: seq<Rec>)
    ensures st == Transfer(cfg, b, state)
    ensures record == if recording then Records(cfg, b, state, |b.sites|) else []
  {
    st, record := state, [];
    var n := 0;
    while n < |b.sites|
      invariant n <= |b.sites|
      invariant st == StateAt(cfg, b, state, n)
      invariant record == if recording then Records(cfg, b, state, n) else []
    {
      var site := b.sites[n];
      if cfg.killEvery { st := map[]; }
      match site.ev {
        case KillAll =>
          if !cfg.noKill { st := map[]; }
        case RegWrite(r, d) =>
          if !cfg.noKill { st := WriteReg(cfg, st, r, d); }
        case Acc(kind, key, disp, width) =>
          var member := false;
          if key.Some? && key.value in st && (st[key.value].cap.ReadWrite? || !(cfg.Sep() && kind != R)) {
            member := !(key.value.Abs? && disp + width > PAGE);
          }
          if recording {
            if member {
              var c := st[key.value];
              var off := if key.value.Abs? then disp else disp + c.delta;
              record := record + [Rec(b.addr, kind, true, c.anchors, off, width, site.ins)];
            } else {
              record := record + [Rec(b.addr, kind, false, {Anchor(b.addr, site.ins, disp)}, disp, width, site.ins)];
            }
          }
          if !member && key.Some? && !(key.value.Abs? && disp + width > PAGE) {
            var cap := if !cfg.Sep() || kind != R then ReadWrite else ReadOnly;
            st := st[key.value := Cover(0, {Anchor(b.addr, site.ins, disp)}, cap)];
          }
      }
      n := n + 1;
    }
  }

  // ---- meet over predecessors ----

  function AnchorsUpTo(states: seq<State>, k: Key, n: nat): set<Anchor>
    requires n <= |states|
  {
    if n == 0 then {}
    else AnchorsUpTo(states, k, n - 1) + if k in states[n - 1] then states[n - 1][k].anchors else {}
  }

  predicate Agree(states: seq<State>, k: Key)
    requires states != []
  {
    k in states[0] && forall s: State :: s in states ==> k in s && s[k].delta == states[0][k].delta
  }

  function Joined(states: seq<State>, k: Key): Cover
    requires states != [] && Agree(states, k)
  {
    Cover(states[0][k].delta, AnchorsUpTo(states, k, |states|),
          if forall s: State :: s in states ==> s[k].cap.ReadWrite? then ReadWrite else ReadOnly)
  }

  /** A key survives the meet when every state has it at the same displacement. */
  function Meet(states: seq<State>): State {
    if states == [] then map[] else map k | k in states[0] && Agree(states, k) :: Joined(states, k)
  }

  lemma {:induction false} AnchorsContain(states: seq<State>, k: Key, n: nat, i: nat)
    requires i < n <= |states| && k in states[i]
    ensures states[i][k].anchors <= AnchorsUpTo(states, k, n)
  {
    if i < n - 1 {
      AnchorsContain(states, k, n - 1, i);
    }
  }

  lemma {:induction false} UpToMeans(ss: seq<State>, k: Key, n: nat, an: Anchor)
    requires n <= |ss|
    ensures an in AnchorsUpTo(ss, k, n) <==> exists i :: 0 <= i < n && k in ss[i] && an in ss[i][k].anchors
  {
    if n > 0 { UpToMeans(ss, k, n - 1, an); }
  }

  /** The inner loop of the meet, with its early exit. */
  method MeetKey(states: seq<State>, k: Key) returns (ok: bool, c: Cover)
    requires states != [] && k in states[0]
    ensures ok == Agree(states, k)
    ensures ok ==> c == Joined(states, k)
  {
    var delta, anchors, cap := states[0][k].delta, states[0][k].anchors, states[0][k].cap;
    c := states[0][k];
    ok := true;
    var i := 1;
    while i < |states|
      invariant 1 <= i <= |states| && ok
      invariant forall j :: 0 <= j < i ==> k in states[j] && states[j][k].delta == delta
      invariant anchors == AnchorsUpTo(states, k, i)
      invariant cap.ReadWrite? <==> forall j :: 0 <= j < i ==> states[j][k].cap.ReadWrite?
    {
      if k !in states[i] || states[i][k].delta != delta {
        assert states[i] in states;
        return false, c;
      }
      anchors := anchors + states[i][k].anchors;
      if !states[i][k].cap.ReadWrite? { cap := ReadOnly; }
      i := i + 1;
    }
    c := Cover(delta, anchors, cap);
    assert forall j :: 0 <= j < |states| ==> states[j] in states;
  }

  method MeetStates(states: seq<State>) returns (out: State)
    ensures out == Meet(states)
  {
    out := map[];
    if states == [] { return; }
    var todo := states[0].Keys;
    while todo != {}
      invariant todo <= states[0].Keys
      invariant forall k :: k in out <==> k in states[0] && k !in todo && Agree(states, k)
      invariant forall k :: k in out ==> out[k] == Joined(states, k)
      decreases |todo|
    {
      var k :| k in todo;
      todo := todo - {k};
      var ok, c := MeetKey(states, k);
      if ok { out := out[k := c]; }
    }
  }
}
