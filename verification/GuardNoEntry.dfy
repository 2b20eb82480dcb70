/**
  How far the bound goes.  Block 1 reads through a base register and moves the base by a constant;
  blocks 2 and 3 read through it and meet in block 4, which reads again; 2 is entered from the
  dispatcher and from 1.  With the dispatcher's edge, 2 checks afresh and both ways into 4 agree, so
  4's read is a member.  Without it, 2's read is a member at the constant's displacement and the ways
  into 4 agree only if that is zero.
*/
module GuardNoEntry {
  import opened Options
  import opened Sweeps
  import opened GuardModel
  import opened GuardFixpoint
  import opened GuardCoverage
  import opened GuardHeights
  import opened GuardProbe

  function B1(x: Probe): Block { Block(1, 2, 0, true, x.ReadMove()) }
  function B2(x: Probe): Block { Block(2, 4, 0, true, x.Read()) }
  function B3(x: Probe): Block { Block(3, 4, 0, true, x.Read()) }
  function B4(x: Probe): Block { Block(4, 0, 0, false, x.Read()) }

  function Diamond(x: Probe): Graph {
    Graph([B1(x), B2(x), B3(x), B4(x)], map[1 := B1(x), 2 := B2(x), 3 := B3(x), 4 := B4(x)], [1, 2, 3, 4])
  }

  ghost predicate IsDiamond(g: Graph, x: Probe) {
    && x.Valid() && g.order == [1, 2, 3, 4] && g.table.Keys == {1, 2, 3, 4}
    && g.table[1] == B1(x) && g.table[2] == B2(x) && g.table[3] == B3(x) && g.table[4] == B4(x)
    && Preds(g.blocks, g.table, 1) == [] && Preds(g.blocks, g.table, 2) == [1]
    && Preds(g.blocks, g.table, 3) == [] && Preds(g.blocks, g.table, 4) == [2, 3]
  }

  lemma DiamondPreds(x: Probe, t: map<Addr, Block>)
    requires t.Keys == {1, 2, 3, 4}
    ensures var bs := [B1(x), B2(x), B3(x), B4(x)];
            Preds(bs, t, 1) == [] && Preds(bs, t, 2) == [1] && Preds(bs, t, 3) == [] && Preds(bs, t, 4) == [2, 3]
  {
    PredsOfFour(t, 1, B1(x), B2(x), B3(x), B4(x));
    PredsOfFour(t, 2, B1(x), B2(x), B3(x), B4(x));
    PredsOfFour(t, 3, B1(x), B2(x), B3(x), B4(x));
    PredsOfFour(t, 4, B1(x), B2(x), B3(x), B4(x));
  }

  lemma DiamondTable(x: Probe, bs: seq<Block>, t: map<Addr, Block>)
    requires bs == Diamond(x).blocks && t == Diamond(x).table
    ensures TableOf(bs) == t
  {
    TableOfFour(bs, map[1 := B1(x)], map[1 := B1(x), 2 := B2(x)], map[1 := B1(x), 2 := B2(x), 3 := B3(x)]);
  }

  lemma DiamondIsGraph(x: Probe, g: Graph)
    requires g == Diamond(x)
    ensures IsGraph(g)
  {
    DiamondTable(x, g.blocks, g.table);
    Ascending(g.order);
  }

  lemma DiamondIsDiamond(x: Probe, g: Graph)
    requires x.Valid() && g == Diamond(x)
    ensures IsDiamond(g, x)
  {
    DiamondPreds(x, g.table);
  }

  // ---- the passes ----

  /** The state block 2 ends in, and the ones block 4 starts and ends in. */
  function After2(cfg: Config, x: Probe): State {
    if cfg.NoEntry() then Only(x.k, x.d, {Anchor(1, 0, 0)}) else Only(x.k, 0, {Anchor(2, 0, 0)})
  }

  function Before4(cfg: Config, x: Probe): State {
    if !cfg.NoEntry() then Only(x.k, 0, {Anchor(2, 0, 0), Anchor(3, 0, 0)})
    else if x.d == 0 then Only(x.k, 0, {Anchor(1, 0, 0), Anchor(3, 0, 0)})
    else map[]
  }

  function After4(cfg: Config, x: Probe): State {
    if cfg.NoEntry() && x.d != 0 then Only(x.k, 0, {Anchor(4, 0, 0)}) else Before4(cfg, x)
  }

  lemma Step1(cfg: Config, x: Probe, g: Graph, out: Outs)
    requires IsDiamond(g, x) && Compared(cfg)
    ensures Step(cfg, g)(out, 1) == Only(x.k, x.d, {Anchor(1, 0, 0)})
  {
    ReadMoveTrip(cfg, x, g.table[1], map[]);
    StepIsTransfer(cfg, g, out, 1, map[]);
  }

  lemma Step2(cfg: Config, x: Probe, g: Graph, out: Outs)
    requires IsDiamond(g, x) && Compared(cfg) && 1 in out && out[1] == Only(x.k, x.d, {Anchor(1, 0, 0)})
    ensures Step(cfg, g)(out, 2) == After2(cfg, x)
  {
    var st := if cfg.NoEntry() then Only(x.k, x.d, {Anchor(1, 0, 0)}) else map[];
    if cfg.NoEntry() {
      AvailableOfOne(out, 1);
      MeetOfOne(st);
    }
    ReadTrip(cfg, x, g.table[2], st);
    StepIsTransfer(cfg, g, out, 2, st);
  }

  lemma Step3(cfg: Config, x: Probe, g: Graph, out: Outs)
    requires IsDiamond(g, x) && Compared(cfg)
    ensures Step(cfg, g)(out, 3) == Only(x.k, 0, {Anchor(3, 0, 0)})
  {
    ReadTrip(cfg, x, g.table[3], map[]);
    StepIsTransfer(cfg, g, out, 3, map[]);
  }

  lemma In4(cfg: Config, x: Probe, g: Graph, out: Outs)
    requires IsDiamond(g, x) && Compared(cfg)
    requires 2 in out && out[2] == After2(cfg, x) && 3 in out && out[3] == Only(x.k, 0, {Anchor(3, 0, 0)})
    ensures InState(cfg, g, out, 4) == Before4(cfg, x)
  {
    AvailableOfTwo(out, 2, 3);
    assert Available(out, [2, 3]) == [out[2], out[3]];
    if cfg.NoEntry() {
      MeetOfTwo(x.k, x.d, {Anchor(1, 0, 0)}, 0, {Anchor(3, 0, 0)});
      assert {Anchor(1, 0, 0)} + {Anchor(3, 0, 0)} == {Anchor(1, 0, 0), Anchor(3, 0, 0)};
    } else {
      MeetOfTwo(x.k, 0, {Anchor(2, 0, 0)}, 0, {Anchor(3, 0, 0)});
      assert {Anchor(2, 0, 0)} + {Anchor(3, 0, 0)} == {Anchor(2, 0, 0), Anchor(3, 0, 0)};
    }
  }

  lemma Step4(cfg: Config, x: Probe, g: Graph, out: Outs)
    requires IsDiamond(g, x) && Compared(cfg)
    requires 2 in out && out[2] == After2(cfg, x) && 3 in out && out[3] == Only(x.k, 0, {Anchor(3, 0, 0)})
    ensures Step(cfg, g)(out, 4) == After4(cfg, x)
  {
    In4(cfg, x, g, out);
    ReadTrip(cfg, x, g.table[4], Before4(cfg, x));
    StepIsTransfer(cfg, g, out, 4, Before4(cfg, x));
  }

  function Settled(cfg: Config, x: Probe): Outs {
    map[1 := Only(x.k, x.d, {Anchor(1, 0, 0)}), 2 := After2(cfg, x), 3 := Only(x.k, 0, {Anchor(3, 0, 0)}),
        4 := After4(cfg, x)]
  }

  /** Every pass gives the same states, whatever it starts from. */
  lemma PassSettles(cfg: Config, x: Probe, g: Graph, t: Outs)
    requires IsDiamond(g, x) && Compared(cfg) && t.Keys <= {1, 2, 3, 4}
    ensures Sweep(Step(cfg, g), g.order, t) == Settled(cfg, x)
  {
    var v1, v2, v3 := Only(x.k, x.d, {Anchor(1, 0, 0)}), After2(cfg, x), Only(x.k, 0, {Anchor(3, 0, 0)});
    Step1(cfg, x, g, t);
    Step2(cfg, x, g, t[1 := v1]);
    Step3(cfg, x, g, t[1 := v1][2 := v2]);
    Step4(cfg, x, g, t[1 := v1][2 := v2][3 := v3]);
    SweepGives(Step(cfg, g), g.order, t, v1, v2, v3, After4(cfg, x));
  }

  lemma {:induction false} IterSettles(cfg: Config, x: Probe, g: Graph, n: nat)
    requires IsDiamond(g, x) && Compared(cfg) && n > 0
    ensures Iter(cfg, g, n) == Settled(cfg, x)
  {
    if n > 1 { IterSettles(cfg, x, g, n - 1); }
    PassSettles(cfg, x, g, Iter(cfg, g, n - 1));
  }

  lemma BothSettle(cfg: Config, x: Probe, g: Graph)
    requires IsDiamond(g, x) && Compared(cfg)
    ensures Converged(cfg, g) && InState(cfg, g, Final(cfg, g), 4) == Before4(cfg, x)
  {
    IterSettles(cfg, x, g, MAX_PASSES);
    IterSettles(cfg, x, g, MAX_PASSES - 1);
    In4(cfg, x, g, Settled(cfg, x));
  }

  // ---- the records ----

  /** Where every block makes one record, the census lists them in the order of the blocks. */
  lemma {:induction false} CensusOfOnes(cfg: Config, g: Graph, out: Outs, i: nat)
    requires i <= |g.order| && forall k :: 0 <= k < i ==> |BlockRecords(cfg, g, out, g.order[k])| == 1
    ensures |Census(cfg, g, out, i)| == i
    ensures i > 0 ==> Census(cfg, g, out, i)[i - 1] == BlockRecords(cfg, g, out, g.order[i - 1])[0]
  {
    if i > 0 { CensusOfOnes(cfg, g, out, i - 1); }
  }

  lemma AllOnes(cfg: Config, x: Probe, g: Graph, out: Outs)
    requires IsDiamond(g, x)
    ensures forall i :: 0 <= i < |g.order| ==> |BlockRecords(cfg, g, out, g.order[i])| == 1
  {
    forall a | a in g.table ensures |BlockRecords(cfg, g, out, a)| == 1 {
      OneRecord(cfg, x, g.table[a], InState(cfg, g, out, a));
    }
  }

  lemma LastRecord(cfg: Config, x: Probe, g: Graph, out: Outs, n: nat)
    requires IsDiamond(g, x) && Compared(cfg) && InState(cfg, g, out, 4) == Before4(cfg, x) && n == |g.order|
    ensures |Census(cfg, g, out, n)| == n
    ensures Census(cfg, g, out, n)[n - 1].member <==> !cfg.NoEntry() || x.d == 0
  {
    AllOnes(cfg, x, g, out);
    CensusOfOnes(cfg, g, out, n);
    OneRecord(cfg, x, g.table[4], Before4(cfg, x));
  }

  lemma OneRecord(cfg: Config, x: Probe, b: Block, st: State)
    requires b.sites == x.Read() || b.sites == x.ReadMove()
    ensures Records(cfg, b, st, |b.sites|) == [RecOf(cfg, b.addr, b.sites[0], st)]
  {
    assert Records(cfg, b, st, 1) == Records(cfg, b, st, 0) + [RecOf(cfg, b.addr, b.sites[0], StateAt(cfg, b, st, 0))];
  }

  lemma MovedOut(x: Probe, g: Graph, n: nat)
    requires IsDiamond(g, x) && x.d != 0 && n == |g.order|
    ensures !CoversMore(Census(WITH, g, Final(WITH, g), n), Census(WITHOUT, g, Final(WITHOUT, g), n))
  {
    BothSettle(WITH, x, g);
    BothSettle(WITHOUT, x, g);
    LastRecord(WITH, x, g, Final(WITH, g), n);
    LastRecord(WITHOUT, x, g, Final(WITHOUT, g), n);
  }

  lemma UnmovedIsStill(x: Probe, g: Graph)
    requires IsDiamond(g, x) && x.d == 0
    ensures StillModule(g)
  {
    forall a, n, r, d | a in g.table && 0 <= n < |g.table[a].sites| && g.table[a].sites[n].ev == RegWrite(r, Some(d))
        ensures d == 0 {
      assert g.table[a].sites == x.Read() || g.table[a].sites == x.ReadMove();
    }
  }

  /**
    For every key with a base register and every constant the two analyses of this module converge,
    and ignoring the dispatcher bounds the realisable model exactly when the constant is zero: no
    nonzero move of any key's base can be allowed in general.
  */
  lemma NoEntryBoundsDiamond(x: Probe) returns (g: Graph)
    requires x.Valid()
    ensures g == Diamond(x) && IsGraph(g) && Converged(WITH, g) && Converged(WITHOUT, g)
    ensures x.d == 0 <==>
            CoversMore(Census(WITH, g, Final(WITH, g), |g.order|), Census(WITHOUT, g, Final(WITHOUT, g), |g.order|))
  {
    g := Diamond(x);
    DiamondIsGraph(x, g);
    DiamondIsDiamond(x, g);
    BothSettle(WITH, x, g);
    BothSettle(WITHOUT, x, g);
    if x.d == 0 {
      UnmovedIsStill(x, g);
      StillModuleBounds(g);
    } else {
      MovedOut(x, g, |g.order|);
    }
  }
}
