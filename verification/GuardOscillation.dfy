/**
  Why soundness needs convergence.  A preheader that reads through a base register and moves it by a
  constant, followed by a block that does the same and branches to itself, settles only when the
  constant is zero: else the displacement at the end of the loop block alternates for as long as passes
  are made.  When the pass cap stops the analysis the loop's read is reported as a member, and the
  second trip round the loop breaks what that claims.
*/
module GuardOscillation {
  import opened Options
  import opened Sweeps
  import opened GuardModel
  import opened GuardFixpoint
  import opened GuardSoundness
  import opened GuardProbe

  const HEAD: Addr := 1
  const LOOP: Addr := 2
  const CFG := Config(MO, false, false)
  const FROM_HEAD := Anchor(HEAD, 0, 0)
  const FROM_LOOP := Anchor(LOOP, 0, 0)

  function Preheader(x: Probe): Block { Block(HEAD, LOOP, 0, true, x.ReadMove()) }
  function Body(x: Probe): Block { Block(LOOP, LOOP, 0, false, x.ReadMove()) }

  function Program(x: Probe): Graph {
    Graph([Preheader(x), Body(x)], map[HEAD := Preheader(x), LOOP := Body(x)], [HEAD, LOOP])
  }

  /** What the proofs below use about the program. */
  ghost predicate IsProgram(g: Graph, x: Probe) {
    && x.Valid() && g.order == [HEAD, LOOP]
    && g.table.Keys == {HEAD, LOOP} && g.table[HEAD] == Preheader(x) && g.table[LOOP] == Body(x)
    && Preds(g.blocks, g.table, LOOP) == [HEAD, LOOP]
    && Preds(g.blocks, g.table, HEAD) == []
  }

  lemma ProgramTable(x: Probe, bs: seq<Block>)
    requires bs == [Preheader(x), Body(x)]
    ensures TableOf(bs) == map[HEAD := Preheader(x), LOOP := Body(x)]
  {
    assert bs[..0] == [] && bs[..2] == bs;
    TableStep(bs, 0, map[]);
    TableStep(bs, 1, map[HEAD := Preheader(x)]);
  }

  lemma ProgramFacts(x: Probe, g: Graph)
    requires x.Valid() && g == Program(x)
    ensures IsGraph(g) && IsProgram(g, x)
  {
    ProgramTable(x, g.blocks);
    PredsOfTwo(g.table, Preheader(x), Body(x), LOOP);
    PredsOfTwo(g.table, Preheader(x), Body(x), HEAD);
    assert forall a :: a in [HEAD, LOOP] <==> a in g.table.Keys;
  }

  // ---- the passes ----

  /** The loop block's out-state after `n` passes. */
  function LoopState(x: Probe, n: nat): State
    requires n > 0
  {
    if x.d == 0 then Only(x.k, 0, {FROM_HEAD})
    else if n % 2 == 0 then Only(x.k, x.d, {FROM_LOOP})
    else if n == 1 then Only(x.k, x.d + x.d, {FROM_HEAD})
    else Only(x.k, x.d + x.d, {FROM_HEAD, FROM_LOOP})
  }

  function HeadState(x: Probe): State { Only(x.k, x.d, {FROM_HEAD}) }

  function Shape(x: Probe, n: nat): Outs {
    if n == 0 then map[] else map[HEAD := HeadState(x), LOOP := LoopState(x, n)]
  }

  /** The in-state of the loop block in the first pass, and in the later ones. */
  lemma FirstLoopEntry(x: Probe, g: Graph, out: Outs)
    requires IsProgram(g, x) && HEAD in out && out[HEAD] == HeadState(x) && LOOP !in out
    ensures InState(CFG, g, out, LOOP) == HeadState(x)
  {
    AvailableOfTwo(out, HEAD, LOOP);
    MeetOfOne(HeadState(x));
    assert Available(out, [HEAD, LOOP]) == [HeadState(x)];
  }

  lemma LoopEntry(x: Probe, g: Graph, out: Outs, d: int, an: set<Anchor>)
    requires IsProgram(g, x) && HEAD in out && out[HEAD] == HeadState(x)
    requires LOOP in out && out[LOOP] == Only(x.k, d, an)
    ensures InState(CFG, g, out, LOOP) == if d == x.d then Only(x.k, d, {FROM_HEAD} + an) else map[]
  {
    AvailableOfTwo(out, HEAD, LOOP);
    MeetOfTwo(x.k, x.d, {FROM_HEAD}, d, an);
    assert Available(out, [HEAD, LOOP]) == [HeadState(x), Only(x.k, d, an)];
  }

  lemma SweepOfTwo<V>(f: (map<Addr, V>, Addr) -> V, a: Addr, b: Addr, t: map<Addr, V>)
    ensures Sweep(f, [a, b], t) == (var mid := t[a := f(t, a)]; mid[b := f(mid, b)])
  {
    var order := [a, b];
    assert SweepTo(f, order, t, 0) == t;
    assert SweepTo(f, order, t, 1) == t[a := f(t, a)];
    assert SweepTo(f, order, t, 2) == SweepTo(f, order, t, 1)[b := f(SweepTo(f, order, t, 1), b)];
  }

  lemma HeadStep(x: Probe, g: Graph, out: Outs)
    requires IsProgram(g, x)
    ensures Step(CFG, g)(out, HEAD) == HeadState(x)
  {
    ReadMoveTrip(CFG, x, g.table[HEAD], map[]);
    StepIsTransfer(CFG, g, out, HEAD, map[]);
  }

  lemma FirstLoopStep(x: Probe, g: Graph, mid: Outs)
    requires IsProgram(g, x) && HEAD in mid && mid[HEAD] == HeadState(x) && LOOP !in mid
    ensures Step(CFG, g)(mid, LOOP) == LoopState(x, 1)
  {
    FirstLoopEntry(x, g, mid);
    ReadMoveTrip(CFG, x, g.table[LOOP], HeadState(x));
    StepIsTransfer(CFG, g, mid, LOOP, HeadState(x));
  }

  lemma LaterLoopStep(x: Probe, g: Graph, mid: Outs, d: int, an: set<Anchor>)
    requires IsProgram(g, x) && HEAD in mid && mid[HEAD] == HeadState(x)
    requires LOOP in mid && mid[LOOP] == Only(x.k, d, an)
    ensures Step(CFG, g)(mid, LOOP) ==
            if d == x.d then Only(x.k, x.d + x.d, {FROM_HEAD} + an) else Only(x.k, x.d, {FROM_LOOP})
  {
    LoopEntry(x, g, mid, d, an);
    var st := if d == x.d then Only(x.k, d, {FROM_HEAD} + an) else map[];
    ReadMoveTrip(CFG, x, g.table[LOOP], st);
    StepIsTransfer(CFG, g, mid, LOOP, st);
  }

  lemma LoopStep(x: Probe, g: Graph, n: nat, mid: Outs)
    requires IsProgram(g, x) && mid == Shape(x, n)[HEAD := HeadState(x)]
    ensures Step(CFG, g)(mid, LOOP) == LoopState(x, n + 1)
  {
    if n == 0 {
      FirstLoopStep(x, g, mid);
    } else if x.d == 0 {
      LaterLoopStep(x, g, mid, 0, {FROM_HEAD});
      assert {FROM_HEAD} + {FROM_HEAD} == {FROM_HEAD};
    } else {
      var an := if n % 2 == 0 then {FROM_LOOP} else if n == 1 then {FROM_HEAD} else {FROM_HEAD, FROM_LOOP};
      LaterLoopStep(x, g, mid, if n % 2 == 0 then x.d else x.d + x.d, an);
      assert {FROM_HEAD} + {FROM_LOOP} == {FROM_HEAD, FROM_LOOP};
    }
  }

  lemma SweepShape(x: Probe, f: (Outs, Addr) -> State, n: nat)
    requires f(Shape(x, n), HEAD) == HeadState(x)
    requires f(Shape(x, n)[HEAD := HeadState(x)], LOOP) == LoopState(x, n + 1)
    ensures Sweep(f, [HEAD, LOOP], Shape(x, n)) == Shape(x, n + 1)
  {
    SweepOfTwo(f, HEAD, LOOP, Shape(x, n));
  }

  lemma {:induction false} SweepTimesShape(x: Probe, f: (Outs, Addr) -> State, n: nat)
    requires forall i :: 0 <= i < n ==> f(Shape(x, i), HEAD) == HeadState(x)
    requires forall i :: 0 <= i < n ==> f(Shape(x, i)[HEAD := HeadState(x)], LOOP) == LoopState(x, i + 1)
    ensures SweepTimes(f, [HEAD, LOOP], map[], n) == Shape(x, n)
  {
    if n > 0 {
      SweepTimesShape(x, f, n - 1);
      SweepShape(x, f, n - 1);
    }
  }

  lemma IterShape(x: Probe, g: Graph, n: nat)
    requires IsProgram(g, x)
    ensures Iter(CFG, g, n) == Shape(x, n)
  {
    forall i | 0 <= i < n
      ensures Step(CFG, g)(Shape(x, i), HEAD) == HeadState(x)
      ensures Step(CFG, g)(Shape(x, i)[HEAD := HeadState(x)], LOOP) == LoopState(x, i + 1)
    {
      HeadStep(x, g, Shape(x, i));
      LoopStep(x, g, i, Shape(x, i)[HEAD := HeadState(x)]);
    }
    SweepTimesShape(x, Step(CFG, g), n);
  }

  lemma ShapesDiffer(x: Probe, n: nat, t: Outs, u: Outs)
    requires n > 1 && t == Shape(x, n) && u == Shape(x, n - 1)
    ensures t == u <==> x.d == 0
  {
    if x.d != 0 { assert t[LOOP][x.k].delta != u[LOOP][x.k].delta; }
  }

  /** A constant other than zero makes every pass change the state, and no cap would do; zero settles at once. */
  lemma SettlesIffUnmoved(x: Probe, g: Graph, n: nat)
    requires IsProgram(g, x) && n > 1
    ensures Iter(CFG, g, n) == Iter(CFG, g, n - 1) <==> x.d == 0
  {
    IterShape(x, g, n);
    IterShape(x, g, n - 1);
    ShapesDiffer(x, n, Iter(CFG, g, n), Iter(CFG, g, n - 1));
  }

  /** After an even number of passes the loop's read is taken for a member at the constant's displacement. */
  lemma LoopReadIsMember(x: Probe, g: Graph, n: nat)
    requires IsProgram(g, x) && x.d != 0 && n > 0 && n % 2 == 0
    ensures InState(CFG, g, Iter(CFG, g, n), LOOP) == Only(x.k, x.d, {FROM_HEAD, FROM_LOOP})
  {
    IterShape(x, g, n);
    LoopEntry(x, g, Shape(x, n), x.d, {FROM_LOOP});
    assert {FROM_HEAD} + {FROM_LOOP} == {FROM_HEAD, FROM_LOOP};
  }

  // ---- the run that goes round twice ----

  const ZEROS: Seg -> int := s => 0

  /** Registers all zero but the base. */
  function WithBase(x: Probe, v: int): Machine {
    Machine(r => if r == x.r then v else 0, ZEROS)
  }

  /** Preheader, then twice round the loop, the base at `v` and then `w`. */
  function TwoTrips(x: Probe, v: int, w: int): seq<Place> {
    [Place(HEAD, 0, WithBase(x, 0)), Place(HEAD, 1, WithBase(x, 0)), Place(HEAD, 2, WithBase(x, v)),
     Place(LOOP, 0, WithBase(x, v)), Place(LOOP, 1, WithBase(x, v)), Place(LOOP, 2, WithBase(x, w)),
     Place(LOOP, 0, WithBase(x, w))]
  }

  /** The base after one move and after two. */
  predicate Moves(x: Probe, v: int, w: int) { v == x.d % WORD && w == (v + x.d) % WORD }

  lemma MoveIsExec(x: Probe, v: int, w: int)
    requires w == (v + x.d) % WORD
    ensures Exec(RegWrite(x.r, Some(x.d)), WithBase(x, v), WithBase(x, w))
  {
  }

  lemma BaseOfKey(x: Probe, v: int)
    requires x.Valid()
    ensures Base(x.k, WithBase(x, v)) == v
  {
  }

  lemma TwoTripsIsRun(x: Probe, g: Graph, run: seq<Place>, v: int, w: int)
    requires IsProgram(g, x) && Moves(x, v, w) && run == TwoTrips(x, v, w)
    ensures IsRun(g, run)
  {
    MoveIsExec(x, 0, v);
    MoveIsExec(x, v, w);
    assert Steps(g, run[0], run[1]) && Steps(g, run[1], run[2]) && Steps(g, run[2], run[3]);
    assert Steps(g, run[3], run[4]) && Steps(g, run[4], run[5]) && Steps(g, run[5], run[6]);
  }

  /** The last place of the run reaches a member whose address is not the one recorded. */
  ghost predicate WrongMember(g: Graph, out: Outs, run: seq<Place>, i: nat) {
    && IsRun(g, run) && i < |run| && IsAccess(g, run[i]) && EventAt(g, run[i]).key.Some?
    && var rec, at := RecordFor(CFG, g, out, run[i]), Latest(CFG, g, out, run, i, EventAt(g, run[i]).key.value);
    && rec.member && at.Some? && at.value < i
    && Address(g, run[i]) != (Base(EventAt(g, run[i]).key.value, run[at.value].m) + rec.off) % WORD
  }

  lemma StateAtStart(cfg: Config, g: Graph, out: Outs, p: Place)
    requires p.addr in g.table && p.pos == 0
    ensures StateFor(cfg, g, out, p) == InState(cfg, g, out, p.addr)
  {
  }

  /** The read anchors its key exactly when the key is not live. */
  lemma ReadAnchors(x: Probe, g: Graph, out: Outs, p: Place, st: State)
    requires IsProgram(g, x) && InModule(g, p) && p.pos == 0 && InState(CFG, g, out, p.addr) == st
    requires st == map[] || exists d, an :: st == Only(x.k, d, an)
    ensures IsAccess(g, p) && EventAt(g, p) == Acc(R, Some(x.k), 0, 4)
    ensures Anchors(CFG, g, out, p, x.k) <==> x.k !in st
    ensures RecordFor(CFG, g, out, p).member <==> x.k in st
    ensures x.k in st ==> RecordFor(CFG, g, out, p).off == st[x.k].delta
  {
    StateAtStart(CFG, g, out, p);
  }

  lemma TwiceIsNotOnce(d: int, v: int, w: int)
    requires v == d % WORD && w == (v + d) % WORD && v != 0
    ensures w != v && w % WORD == w && v == (0 + d) % WORD
  {
    var q := (v + d) / WORD;
    assert d == w - v + WORD * q;
    ModMultiple(w - v, q);
  }

  lemma SecondTripIsWrong(x: Probe, g: Graph, out: Outs, run: seq<Place>, v: int, w: int)
    requires IsProgram(g, x) && Moves(x, v, w) && v != 0 && run == TwoTrips(x, v, w)
    requires InState(CFG, g, out, LOOP) == Only(x.k, x.d, {FROM_HEAD, FROM_LOOP})
    ensures WrongMember(g, out, run, 6)
  {
    TwoTripsIsRun(x, g, run, v, w);
    ReadAnchors(x, g, out, run[6], Only(x.k, x.d, {FROM_HEAD, FROM_LOOP}));
    ReadAnchors(x, g, out, run[3], Only(x.k, x.d, {FROM_HEAD, FROM_LOOP}));
    ReadAnchors(x, g, out, run[0], map[]);
    SecondTripLatest(x, g, out, run, v, w);
    BaseOfKey(x, 0);
    BaseOfKey(x, w);
    TwiceIsNotOnce(x.d, v, w);
  }

  lemma SecondTripLatest(x: Probe, g: Graph, out: Outs, run: seq<Place>, v: int, w: int)
    requires IsProgram(g, x) && run == TwoTrips(x, v, w) && IsRun(g, run)
    requires Anchors(CFG, g, out, run[0], x.k) && !Anchors(CFG, g, out, run[3], x.k)
    ensures Latest(CFG, g, out, run, 6, x.k) == Some(0)
  {
    assert forall n :: 0 < n < 6 && n != 3 ==> !IsAccess(g, run[n]);
    assert forall n :: 0 < n <= 6 ==> !Breaks(g, run[n - 1], run[n]);
    LatestMeaning(CFG, g, out, run, 6, x.k, 0);
  }

  lemma UnsoundAfter(x: Probe, g: Graph, n: nat)
    requires IsProgram(g, x) && x.d % WORD != 0 && n > 0 && n % 2 == 0
    ensures exists run, i :: WrongMember(g, Iter(CFG, g, n), run, i)
  {
    LoopReadIsMember(x, g, n);
    var v, w := x.d % WORD, (x.d % WORD + x.d) % WORD;
    SecondTripIsWrong(x, g, Iter(CFG, g, n), TwoTrips(x, v, w), v, w);
  }

  /**
    For every key with a base register and every constant: the analysis of this loop converges exactly
    when the constant is zero, and where 2^32 does not divide it the capped analysis misdescribes a run.
  */
  lemma ConvergesIffUnmoved(x: Probe) returns (g: Graph)
    requires x.Valid()
    ensures g == Program(x) && IsGraph(g) && (Converged(CFG, g) <==> x.d == 0)
    ensures x.d % WORD != 0 ==> exists run, i :: WrongMember(g, Final(CFG, g), run, i)
  {
    g := Program(x);
    ProgramFacts(x, g);
    SettlesIffUnmoved(x, g, MAX_PASSES);
    if x.d % WORD != 0 {
      UnsoundAfter(x, g, MAX_PASSES);
      assert Final(CFG, g) == Iter(CFG, g, MAX_PASSES);
    }
  }
}
