/**
  The module-wide fixpoint: predecessor lists, one pass over the blocks in address order, and the
  loop that stops after a pass without change or after fifty passes.
*/
module GuardFixpoint {
  import opened Options
  import opened Sweeps
  import opened GuardModel

  const MAX_PASSES: nat := 50

  type Outs = map<Addr, State>

  // ---- block table and predecessors ----

  /** Blocks by address; a later block with the same address replaces an earlier one. */
  function TableOf(blocks: seq<Block>): (table: map<Addr, Block>)
    ensures forall a :: a in table ==> table[a].addr == a && table[a] in blocks
    ensures forall b :: b in blocks ==> b.addr in table
  {
    if blocks == [] then map[]
    else
      var last := |blocks| - 1;
      assert forall b :: b in blocks ==> b in blocks[..last] || b == blocks[last];
      TableOf(blocks[..last])[blocks[last].addr := blocks[last]]
  }

  predicate IsSuccessor(table: map<Addr, Block>, s: Addr) {
    s != 0 && s in table
  }

  /** The entries one block adds to the predecessor list of `a`, one per successor field. */
  function Named(b: Block, a: Addr): seq<Addr> {
    (if b.fall == a then [b.addr] else []) + if b.taken == a then [b.addr] else []
  }

  function Preds(blocks: seq<Block>, table: map<Addr, Block>, a: Addr): seq<Addr> {
    if blocks == [] || !IsSuccessor(table, a) then []
    else Preds(blocks[..|blocks| - 1], table, a) + Named(blocks[|blocks| - 1], a)
  }

  predicate Edge(table: map<Addr, Block>, a: Addr, s: Addr) {
    a in table && IsSuccessor(table, s) && (table[a].fall == s || table[a].taken == s)
  }

  lemma {:induction false} PredsMeaning(blocks: seq<Block>, table: map<Addr, Block>, s: Addr, p: Addr)
    ensures p in Preds(blocks, table, s) <==>
            IsSuccessor(table, s) && exists b :: b in blocks && b.addr == p && (b.fall == s || b.taken == s)
  {
    if blocks != [] {
      var last := |blocks| - 1;
      PredsMeaning(blocks[..last], table, s, p);
      assert forall b :: b in blocks <==> b in blocks[..last] || b == blocks[last];
    }
  }

  /** Every module edge is listed among the predecessors of its target. */
  lemma EdgeIsPred(blocks: seq<Block>, a: Addr, s: Addr)
    requires Edge(TableOf(blocks), a, s)
    ensures a in Preds(blocks, TableOf(blocks), s)
  {
    PredsMeaning(blocks, TableOf(blocks), s, a);
  }

  /** The blocks, their table, and the order of a pass. */
  datatype Graph = Graph(blocks: seq<Block>, table: map<Addr, Block>, order: seq<Addr>)

  ghost predicate IsGraph(g: Graph) {
    g.table == TableOf(g.blocks) && Enumerates(g.order, g.table.Keys)
  }

  // ---- one pass, and the passes ----

  function Available(out: Outs, ps: seq<Addr>): seq<State> {
    if ps == [] then []
    else
      var last := |ps| - 1;
      Available(out, ps[..last]) + if ps[last] in out then [out[ps[last]]] else []
  }

  lemma {:induction false} AvailableMeaning(out: Outs, ps: seq<Addr>, st: State)
    ensures st in Available(out, ps) <==> exists p :: p in ps && p in out && out[p] == st
  {
    if ps != [] {
      var last := |ps| - 1;
      AvailableMeaning(out, ps[..last], st);
      assert forall p :: p in ps <==> p in ps[..last] || p == ps[last];
    }
  }

  lemma {:induction false} AvailableSame(out: Outs, out': Outs, ps: seq<Addr>)
    requires forall p :: p in ps ==> SameAt(out, out', p)
    ensures Available(out, ps) == Available(out', ps)
  {
    if ps != [] {
      assert ps[|ps| - 1] in ps;
      AvailableSame(out, out', ps[..|ps| - 1]);
    }
  }

  /** The state a block starts in. */
  function InState(cfg: Config, g: Graph, out: Outs, a: Addr): State
    requires a in g.table
  {
    var ps := Preds(g.blocks, g.table, a);
    if !cfg.Modular() || (g.table[a].entry && !cfg.NoEntry()) || ps == [] then map[]
    else Meet(Available(out, ps))
  }

  function OutState(cfg: Config, g: Graph, out: Outs, a: Addr): State
    requires a in g.table
  {
    Transfer(cfg, g.table[a], InState(cfg, g, out, a))
  }

  /** The step of a pass, total so that a pass is a sweep. */
  function Step(cfg: Config, g: Graph): (Outs, Addr) -> State {
    (out, a) => if a in g.table then OutState(cfg, g, out, a) else map[]
  }

  /** The states after `n` whole passes from nothing. */
  ghost function Iter(cfg: Config, g: Graph, n: nat): Outs {
    SweepTimes(Step(cfg, g), g.order, map[], n)
  }

  /** The converged flag: the last of fifty passes changed nothing. */
  ghost predicate Converged(cfg: Config, g: Graph) {
    !cfg.Modular() || Iter(cfg, g, MAX_PASSES) == Iter(cfg, g, MAX_PASSES - 1)
  }

  ghost function Final(cfg: Config, g: Graph): Outs {
    if cfg.Modular() then Iter(cfg, g, MAX_PASSES) else map[]
  }

  /** Every block's out-state is its transfer of the meet of its predecessors. */
  ghost predicate Consistent(cfg: Config, g: Graph, out: Outs) {
    cfg.Modular() ==> forall a :: a in g.table ==> a in out && out[a] == OutState(cfg, g, out, a)
  }

  lemma SettledIsConsistent(cfg: Config, g: Graph, n: nat)
    requires IsGraph(g) && n > 0 && Iter(cfg, g, n) == Iter(cfg, g, n - 1)
    ensures Consistent(cfg, g, Iter(cfg, g, n))
  {
    StableSweep(Step(cfg, g), g.order, Iter(cfg, g, n), |g.order|);
    forall a | a in g.table
      ensures a in Iter(cfg, g, n) && Iter(cfg, g, n)[a] == OutState(cfg, g, Iter(cfg, g, n), a)
    {
      assert a in g.table.Keys;
    }
  }

  /** A converged analysis ends in a consistent assignment of states. */
  lemma ConvergedIsConsistent(cfg: Config, g: Graph)
    requires IsGraph(g) && Converged(cfg, g)
    ensures Consistent(cfg, g, Final(cfg, g))
  {
    if cfg.Modular() { SettledIsConsistent(cfg, g, MAX_PASSES); }
  }

  function BlockRecords(cfg: Config, g: Graph, out: Outs, a: Addr): seq<Rec> {
    if a in g.table then Records(cfg, g.table[a], InState(cfg, g, out, a), |g.table[a].sites|) else []
  }

  /** The record of the final walk over the first `i` blocks in address order. */
  function Census(cfg: Config, g: Graph, out: Outs, i: nat): seq<Rec>
    requires i <= |g.order|
  {
    if i == 0 then [] else Census(cfg, g, out, i - 1) + BlockRecords(cfg, g, out, g.order[i - 1])
  }

  lemma {:induction false} CensusContains(cfg: Config, g: Graph, out: Outs, i: nat, j: nat, r: Rec)
    requires j < i <= |g.order|
    requires r in BlockRecords(cfg, g, out, g.order[j])
    ensures r in Census(cfg, g, out, i)
  {
    var rest, last := Census(cfg, g, out, i - 1), BlockRecords(cfg, g, out, g.order[i - 1]);
    if j < i - 1 {
      CensusContains(cfg, g, out, i - 1, j, r);
      assert r in rest;
    }
    assert Census(cfg, g, out, i) == rest + last;
  }

  // ---- the loops of the analysis ----

  method BuildTable(blocks: seq<Block>) returns (table: map<Addr, Block>)
    ensures table == TableOf(blocks)
  {
    table := map[];
    var i := 0;
    while i < |blocks|
      invariant i <= |blocks|
      invariant table == TableOf(blocks[..i])
    {
      assert blocks[..i + 1][..i] == blocks[..i];
      table := table[blocks[i].addr := blocks[i]];
      i := i + 1;
    }
    assert blocks[..i] == blocks;
  }

  ghost predicate IsPreds(preds: map<Addr, seq<Addr>>, blocks: seq<Block>, table: map<Addr, Block>) {
    forall a :: Lookup(preds, a, []) == Preds(blocks, table, a)
  }

  method AddEdges(preds: map<Addr, seq<Addr>>, table: map<Addr, Block>, b: Block) returns (more: map<Addr, seq<Addr>>)
    ensures forall a :: Lookup(more, a, []) == Lookup(preds, a, []) + if IsSuccessor(table, a) then Named(b, a) else []
  {
    more := preds;
    if IsSuccessor(table, b.fall) { more := more[b.fall := Lookup(more, b.fall, []) + [b.addr]]; }
    if IsSuccessor(table, b.taken) { more := more[b.taken := Lookup(more, b.taken, []) + [b.addr]]; }
  }

  lemma PredsOfNext(
    before: map<Addr, seq<Addr>>, preds: map<Addr, seq<Addr>>, blocks: seq<Block>, table: map<Addr, Block>, i: nat)
    requires i < |blocks| && IsPreds(before, blocks[..i], table)
    requires forall a :: Lookup(preds, a, []) ==
               Lookup(before, a, []) + if IsSuccessor(table, a) then Named(blocks[i], a) else []
    ensures IsPreds(preds, blocks[..i + 1], table)
  {
    assert blocks[..i + 1][..i] == blocks[..i];
    forall a ensures Lookup(preds, a, []) == Preds(blocks[..i + 1], table, a) {
      assert Lookup(before, a, []) == Preds(blocks[..i], table, a);
    }
  }

  method BuildPreds(blocks: seq<Block>, table: map<Addr, Block>) returns (preds: map<Addr, seq<Addr>>)
    ensures IsPreds(preds, blocks, table)
  {
    preds := map[];
    var i := 0;
    while i < |blocks|
      invariant i <= |blocks|
      invariant IsPreds(preds, blocks[..i], table)
    {
      ghost var before := preds;
      preds := AddEdges(preds, table, blocks[i]);
      PredsOfNext(before, preds, blocks, table, i);
      i := i + 1;
    }
    assert blocks[..i] == blocks;
  }

  method CollectAvailable(out: Outs, ps: seq<Addr>) returns (states: seq<State>)
    ensures states == Available(out, ps)
  {
    states := [];
    var i := 0;
    while i < |ps|
      invariant i <= |ps| && states == Available(out, ps[..i])
    {
      assert ps[..i + 1][..i] == ps[..i];
      if ps[i] in out { states := states + [out[ps[i]]]; }
      i := i + 1;
    }
    assert ps[..i] == ps;
  }

  method ComputeInState(cfg: Config, g: Graph, preds: map<Addr, seq<Addr>>, out: Outs, a: Addr) returns (st: State)
    requires a in g.table && IsPreds(preds, g.blocks, g.table)
    ensures st == InState(cfg, g, out, a)
  {
    var ps := Lookup(preds, a, []);
    if !cfg.Modular() || (g.table[a].entry && !cfg.NoEntry()) || ps == [] {
      st := map[];
    } else {
      var states := CollectAvailable(out, ps);
      st := MeetStates(states);
    }
  }

  /** The new out-state of one block during a pass. */
  method VisitBlock(cfg: Config, g: Graph, preds: map<Addr, seq<Addr>>, out: Outs, a: Addr) returns (o: State)
    requires a in g.table && IsPreds(preds, g.blocks, g.table)
    ensures o == Step(cfg, g)(out, a)
  {
    var st := ComputeInState(cfg, g, preds, out, a);
    var st', _ := TransferBlock(cfg, g.table[a], st, false);
    o := st';
  }

  /** One pass; `changed` tells whether any block's state was replaced with a different one. */
  method OnePass(cfg: Config, g: Graph, preds: map<Addr, seq<Addr>>, before: Outs) returns (out: Outs, changed: bool)
    requires IsPreds(preds, g.blocks, g.table) && Enumerates(g.order, g.table.Keys)
    ensures out == Sweep(Step(cfg, g), g.order, before)
    ensures changed <==> out != before
  {
    out, changed := before, false;
    var i := 0;
    while i < |g.order|
      invariant i <= |g.order|
      invariant out == SweepTo(Step(cfg, g), g.order, before, i)
      invariant changed <==> out != before
    {
      var a := g.order[i];
      assert a in g.table.Keys;
      var o := VisitBlock(cfg, g, preds, out, a);
      SweepTouchesPrefix(Step(cfg, g), g.order, before, i, a);
      if a !in out || out[a] != o {
        out := out[a := o];
        changed := true;
        assert !SameAt(out, before, a);
      } else {
        assert out[a := o] == out;
      }
      i := i + 1;
    }
  }

  /** The pass loop with its cap. */
  method RunPasses(cfg: Config, g: Graph, preds: map<Addr, seq<Addr>>) returns (out: Outs, converged: bool)
    requires IsPreds(preds, g.blocks, g.table) && Enumerates(g.order, g.table.Keys)
    ensures out == Iter(cfg, g, MAX_PASSES)
    ensures converged <==> Iter(cfg, g, MAX_PASSES) == Iter(cfg, g, MAX_PASSES - 1)
  {
    out := map[];
    var changed, passes := true, 0;
    while changed && passes < MAX_PASSES
      invariant passes <= MAX_PASSES
      invariant out == Iter(cfg, g, passes)
      invariant changed <==> passes == 0 || Iter(cfg, g, passes) != Iter(cfg, g, passes - 1)
      decreases MAX_PASSES - passes
    {
      out, changed := OnePass(cfg, g, preds, out);
      passes := passes + 1;
    }
    if !changed { EarlyStopIsFinal(Step(cfg, g), g.order, map[], passes, MAX_PASSES); }
    converged := !changed;
  }

  method RecordBlock(cfg: Config, g: Graph, preds: map<Addr, seq<Addr>>, out: Outs, a: Addr) returns (recs: seq<Rec>)
    requires a in g.table && IsPreds(preds, g.blocks, g.table)
    ensures recs == BlockRecords(cfg, g, out, a)
  {
    var st := ComputeInState(cfg, g, preds, out, a);
    var _, rs := TransferBlock(cfg, g.table[a], st, true);
    recs := rs;
  }

  /** The recording walk over the blocks in address order. */
  method RecordWalk(cfg: Config, g: Graph, preds: map<Addr, seq<Addr>>, out: Outs) returns (record: seq<Rec>)
    requires Enumerates(g.order, g.table.Keys) && IsPreds(preds, g.blocks, g.table)
    ensures record == Census(cfg, g, out, |g.order|)
  {
    record := [];
    var i := 0;
    while i < |g.order|
      invariant i <= |g.order|
      invariant record == Census(cfg, g, out, i)
    {
      assert g.order[i] in g.table.Keys;
      var recs := RecordBlock(cfg, g, preds, out, g.order[i]);
      record := record + recs;
      i := i + 1;
    }
  }

  /** The analysis: the pass loop for the module-wide models, then the recording walk. */
  method Analyse(blocks: seq<Block>, cfg: Config) returns (g: Graph, record: seq<Rec>, converged: bool)
    ensures IsGraph(g) && g.blocks == blocks
    ensures converged <==> Converged(cfg, g)
    ensures record == Census(cfg, g, Final(cfg, g), |g.order|)
  {
    var table := BuildTable(blocks);
    var order := SortedKeys(table.Keys);
    g := Graph(blocks, table, order);
    var preds := BuildPreds(blocks, table);
    var out: Outs := map[];
    converged := true;
    if cfg.Modular() {
      out, converged := RunPasses(cfg, g, preds);
    }
    record := RecordWalk(cfg, g, preds, out);
  }
}
