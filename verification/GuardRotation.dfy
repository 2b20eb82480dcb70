/**
  A loop that never settles although nothing moves.  Block 1 reads through a key and falls into 2;
  the loop goes from 2 to 4, from 4 back to 3 and from 3 back to 2.  When 3 is first visited its
  predecessor has no state yet, and it starts from nothing; what it lacks then goes round the loop,
  and what it has in the next pass goes round after it.
*/
module GuardRotation {
  import opened Options
  import opened Sweeps
  import opened GuardModel
  import opened GuardFixpoint
  import opened GuardHeights
  import opened GuardProbe

  function C1(x: Probe): Block { Block(1, 2, 0, true, x.Read()) }

  const C2 := Block(2, 4, 0, false, [])
  const C3 := Block(3, 2, 0, false, [])
  const C4 := Block(4, 3, 0, false, [])

  function Wheel(x: Probe): Graph {
    Graph([C1(x), C2, C3, C4], map[1 := C1(x), 2 := C2, 3 := C3, 4 := C4], [1, 2, 3, 4])
  }

  ghost predicate IsWheel(g: Graph, x: Probe) {
    && x.Valid() && g.order == [1, 2, 3, 4] && g.table.Keys == {1, 2, 3, 4}
    && g.table[1] == C1(x) && g.table[2] == C2 && g.table[3] == C3 && g.table[4] == C4
    && Preds(g.blocks, g.table, 1) == [] && Preds(g.blocks, g.table, 2) == [1, 3]
    && Preds(g.blocks, g.table, 3) == [4] && Preds(g.blocks, g.table, 4) == [2]
  }

  lemma WheelTable(x: Probe, bs: seq<Block>, t: map<Addr, Block>)
    requires bs == Wheel(x).blocks && t == Wheel(x).table
    ensures TableOf(bs) == t
  {
    TableOfFour(bs, map[1 := C1(x)], map[1 := C1(x), 2 := C2], map[1 := C1(x), 2 := C2, 3 := C3]);
  }

  lemma WheelPreds(x: Probe, t: map<Addr, Block>)
    requires t.Keys == {1, 2, 3, 4}
    ensures var bs := [C1(x), C2, C3, C4];
            Preds(bs, t, 1) == [] && Preds(bs, t, 2) == [1, 3] && Preds(bs, t, 3) == [4] && Preds(bs, t, 4) == [2]
  {
    PredsOfFour(t, 1, C1(x), C2, C3, C4);
    PredsOfFour(t, 2, C1(x), C2, C3, C4);
    PredsOfFour(t, 3, C1(x), C2, C3, C4);
    PredsOfFour(t, 4, C1(x), C2, C3, C4);
  }

  lemma WheelIsGraph(x: Probe, g: Graph)
    requires g == Wheel(x)
    ensures IsGraph(g)
  {
    WheelTable(x, g.blocks, g.table);
    Ascending(g.order);
  }

  lemma WheelIsWheel(x: Probe, g: Graph)
    requires x.Valid() && g == Wheel(x)
    ensures IsWheel(g, x) && StillModule(g)
  {
    WheelPreds(x, g.table);
  }

  // ---- the passes ----

  function Live(x: Probe): State { Only(x.k, 0, {Anchor(1, 0, 0)}) }

  /** The states after `n` passes: the key is live in 2 and 4, then in 3, by turns. */
  function Turn(x: Probe, n: nat): Outs {
    if n == 0 then map[]
    else if n % 2 == 1 then map[1 := Live(x), 2 := Live(x), 3 := map[], 4 := Live(x)]
    else map[1 := Live(x), 2 := map[], 3 := Live(x), 4 := map[]]
  }

  lemma EmptyTrip(cfg: Config, b: Block, st: State)
    requires b.sites == []
    ensures Transfer(cfg, b, st) == st
  {
  }

  lemma MeetWithNone(st: State)
    ensures Meet([st, map[]]) == map[]
  {
    assert [st, map[]][1] in [st, map[]];
  }

  lemma Step1(x: Probe, g: Graph, out: Outs)
    requires IsWheel(g, x)
    ensures Step(WITH, g)(out, 1) == Live(x)
  {
    ReadTrip(WITH, x, g.table[1], map[]);
    StepIsTransfer(WITH, g, out, 1, map[]);
  }

  lemma Step2(x: Probe, g: Graph, out: Outs)
    requires IsWheel(g, x) && 1 in out && out[1] == Live(x)
    requires 3 in out ==> out[3] == Live(x) || out[3] == map[]
    ensures Step(WITH, g)(out, 2) == if 3 in out && out[3] == map[] then map[] else Live(x)
  {
    var st := if 3 in out && out[3] == map[] then map[] else Live(x);
    AvailableOfTwo(out, 1, 3);
    if 3 !in out {
      MeetOfOne(Live(x));
      assert Available(out, [1, 3]) == [Live(x)];
    } else if out[3] == map[] {
      MeetWithNone(Live(x));
      assert Available(out, [1, 3]) == [Live(x), map[]];
    } else {
      MeetOfTwo(x.k, 0, {Anchor(1, 0, 0)}, 0, {Anchor(1, 0, 0)});
      assert {Anchor(1, 0, 0)} + {Anchor(1, 0, 0)} == {Anchor(1, 0, 0)};
      assert Available(out, [1, 3]) == [Live(x), Live(x)];
    }
    EmptyTrip(WITH, C2, st);
    StepIsTransfer(WITH, g, out, 2, st);
  }

  /** A block with one predecessor and no events passes that one's state on, or starts from nothing. */
  lemma StepOn(x: Probe, g: Graph, out: Outs, a: Addr, p: Addr)
    requires IsWheel(g, x) && (a == 3 || a == 4) && Preds(g.blocks, g.table, a) == [p]
    ensures Step(WITH, g)(out, a) == if p in out then out[p] else map[]
  {
    var st := if p in out then out[p] else map[];
    if p in out {
      AvailableOfOne(out, p);
      MeetOfOne(st);
    } else {
      assert [p][..0] == [] && Available(out, [p]) == [];
    }
    EmptyTrip(WITH, g.table[a], st);
    StepIsTransfer(WITH, g, out, a, st);
  }

  /** What a pass makes of block 2, given what it finds at 3. */
  function Second(x: Probe, t: Outs): State { if 3 in t && t[3] == map[] then map[] else Live(x) }

  /** Half a turn: what was at 4 comes to 3, what 3 lacks is lost at 2 and 4. */
  lemma PassOf(x: Probe, g: Graph, t: Outs)
    requires IsWheel(g, x) && t.Keys <= {1, 2, 3, 4} && (3 in t ==> t[3] == Live(x) || t[3] == map[])
    ensures Sweep(Step(WITH, g), g.order, t) ==
            map[1 := Live(x), 2 := Second(x, t), 3 := Lookup(t, 4, map[]), 4 := Second(x, t)]
  {
    var v2, v3 := Second(x, t), Lookup(t, 4, map[]);
    Step1(x, g, t);
    Step2(x, g, t[1 := Live(x)]);
    StepOn(x, g, t[1 := Live(x)][2 := v2], 3, 4);
    StepOn(x, g, t[1 := Live(x)][2 := v2][3 := v3], 4, 2);
    SweepGives(Step(WITH, g), g.order, t, Live(x), v2, v3, v2);
  }

  lemma PassTurns(x: Probe, g: Graph, n: nat, t: Outs)
    requires IsWheel(g, x) && t == Turn(x, n)
    ensures Sweep(Step(WITH, g), g.order, t) == Turn(x, n + 1)
  {
    PassOf(x, g, t);
  }

  lemma {:induction false} IterTurns(x: Probe, g: Graph, n: nat)
    requires IsWheel(g, x)
    ensures Iter(WITH, g, n) == Turn(x, n)
  {
    if n > 0 {
      IterTurns(x, g, n - 1);
      PassTurns(x, g, n - 1, Iter(WITH, g, n - 1));
    }
  }

  lemma TurnsDiffer(x: Probe, n: nat)
    requires n > 0
    ensures Turn(x, n) != Turn(x, n - 1)
  {
    if n > 1 { assert (x.k in Turn(x, n)[2]) != (x.k in Turn(x, n - 1)[2]); } else { assert 1 in Turn(x, n); }
  }

  lemma PassesDiffer(x: Probe, g: Graph, n: nat)
    requires IsWheel(g, x) && n > 0
    ensures Iter(WITH, g, n) != Iter(WITH, g, n - 1)
  {
    IterTurns(x, g, n);
    IterTurns(x, g, n - 1);
    TurnsDiffer(x, n);
  }

  /** For every key with a base register there is a module that moves none and on which no two passes in a row agree. */
  lemma StillMayRotate(x: Probe) returns (g: Graph)
    requires x.Valid()
    ensures g == Wheel(x) && IsGraph(g) && StillModule(g) && !Converged(WITH, g)
    ensures forall n: nat :: n > 0 ==> Iter(WITH, g, n) != Iter(WITH, g, n - 1)
  {
    g := Wheel(x);
    WheelIsGraph(x, g);
    WheelIsWheel(x, g);
    forall n: nat | n > 0 ensures Iter(WITH, g, n) != Iter(WITH, g, n - 1) { PassesDiffer(x, g, n); }
  }
}
