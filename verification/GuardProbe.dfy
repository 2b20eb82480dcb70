/** Small programs that read through one key and move its base, and what the analysis makes of single states. */
module GuardProbe {
  import opened Options
  import opened Sweeps
  import opened GuardModel
  import opened GuardFixpoint

  /** A key, its base register, and a constant to move it by. */
  datatype Probe = Probe(k: Key, r: Reg, d: int) {
    predicate Valid() { k.Ind? && k.base == Some(r) && k.index != Some(r) }
    function Read(): seq<Site> { [Site(0, Acc(R, Some(k), 0, 4))] }
    function ReadMove(): seq<Site> { [Site(0, Acc(R, Some(k), 0, 4)), Site(1, RegWrite(r, Some(d)))] }
  }

  /** The module-wide models, with tracking and without the read/write split or the controls. */
  predicate Plainly(cfg: Config) {
    (cfg.model == MO || cfg.model == MONoEntry) && !cfg.killEvery && !cfg.noKill
  }

  function Only(k: Key, delta: int, anchors: set<Anchor>): State {
    map[k := Cover(delta, anchors, ReadWrite)]
  }

  /** A trip through a reading block from a state without the key, or with it. */
  lemma ReadTrip(cfg: Config, x: Probe, b: Block, st: State)
    requires Plainly(cfg) && b.sites == x.Read() && x.Valid()
    ensures st == map[] ==> Transfer(cfg, b, st) == Only(x.k, 0, {Anchor(b.addr, 0, 0)})
    ensures forall d, an :: st == Only(x.k, d, an) ==> Transfer(cfg, b, st) == st
  {
    assert Transfer(cfg, b, st) == AfterSite(cfg, b.addr, b.sites[0], StateAt(cfg, b, st, 0));
  }

  /** The same where the block then moves the base. */
  lemma ReadMoveTrip(cfg: Config, x: Probe, b: Block, st: State)
    requires Plainly(cfg) && b.sites == x.ReadMove() && x.Valid()
    ensures st == map[] ==> Transfer(cfg, b, st) == Only(x.k, x.d, {Anchor(b.addr, 0, 0)})
    ensures forall d, an :: st == Only(x.k, d, an) ==> Transfer(cfg, b, st) == Only(x.k, d + x.d, an)
  {
    var mid := StateAt(cfg, b, st, 1);
    assert mid == AfterSite(cfg, b.addr, b.sites[0], StateAt(cfg, b, st, 0));
    assert Transfer(cfg, b, st) == AfterSite(cfg, b.addr, b.sites[1], mid);
  }

  lemma MeetOfOne(st: State)
    ensures Meet([st]) == st
  {
    assert [st][0] in [st] && forall s :: s in [st] ==> s == st;
    forall k | k in st ensures Agree([st], k) && Joined([st], k) == st[k] {
      assert AnchorsUpTo([st], k, 1) == AnchorsUpTo([st], k, 0) + st[k].anchors;
      assert AnchorsUpTo([st], k, 0) == {};
    }
    assert Meet([st]).Keys == st.Keys;
  }

  lemma MeetOfTwo(k: Key, d: int, an: set<Anchor>, d': int, an': set<Anchor>)
    ensures Meet([Only(k, d, an), Only(k, d', an')]) == if d == d' then Only(k, d, an + an') else map[]
  {
    var two := [Only(k, d, an), Only(k, d', an')];
    assert two[0] in two && two[1] in two;
    assert forall s :: s in two ==> s == two[0] || s == two[1];
    if d == d' {
      assert AnchorsUpTo(two, k, 0) == {};
      assert AnchorsUpTo(two, k, 1) == AnchorsUpTo(two, k, 0) + an;
      assert AnchorsUpTo(two, k, 2) == AnchorsUpTo(two, k, 1) + an';
      assert Agree(two, k) && Joined(two, k) == Cover(d, an + an', ReadWrite);
    } else {
      assert two[1][k].delta != two[0][k].delta;
      assert !Agree(two, k);
    }
  }

  lemma AvailableOfOne(out: Outs, p: Addr)
    requires p in out
    ensures Available(out, [p]) == [out[p]]
  {
    assert [p][..0] == [] && Available(out, [p]) == Available(out, []) + [out[p]];
  }

  lemma AvailableOfTwo(out: Outs, p: Addr, q: Addr)
    requires p in out
    ensures Available(out, [p, q]) == [out[p]] + if q in out then [out[q]] else []
  {
    assert [p, q][..1] == [p];
    AvailableOfOne(out, p);
  }

  lemma PredsOfTwo(t: map<Addr, Block>, p: Block, q: Block, a: Addr)
    requires IsSuccessor(t, a)
    ensures Preds([p, q], t, a) == Named(p, a) + Named(q, a)
  {
    assert [p, q][..1] == [p] && [p][..0] == [];
    assert Preds([p], t, a) == Preds([], t, a) + Named(p, a);
  }

  lemma TableStep(bs: seq<Block>, n: nat, t: map<Addr, Block>)
    requires n < |bs| && TableOf(bs[..n]) == t
    ensures TableOf(bs[..n + 1]) == t[bs[n].addr := bs[n]]
  {
    assert bs[..n + 1][..n] == bs[..n];
  }

  lemma StepIsTransfer(cfg: Config, g: Graph, out: Outs, a: Addr, st: State)
    requires a in g.table && InState(cfg, g, out, a) == st
    ensures Step(cfg, g)(out, a) == Transfer(cfg, g.table[a], st)
  {
  }

  lemma PredsOfMore(bs: seq<Block>, t: map<Addr, Block>, b: Block, a: Addr)
    requires IsSuccessor(t, a)
    ensures Preds(bs + [b], t, a) == Preds(bs, t, a) + Named(b, a)
  {
    assert (bs + [b])[..|bs|] == bs;
  }

  lemma PredsOfFour(t: map<Addr, Block>, a: Addr, b1: Block, b2: Block, b3: Block, b4: Block)
    requires IsSuccessor(t, a)
    ensures Preds([b1, b2, b3, b4], t, a) == Named(b1, a) + Named(b2, a) + Named(b3, a) + Named(b4, a)
  {
    assert [b1, b2, b3, b4] == [b1, b2, b3] + [b4] && [b1, b2, b3] == [b1, b2] + [b3];
    PredsOfTwo(t, b1, b2, a);
    PredsOfMore([b1, b2], t, b3, a);
    PredsOfMore([b1, b2, b3], t, b4, a);
  }

  lemma TableOfFour(bs: seq<Block>, t1: map<Addr, Block>, t2: map<Addr, Block>, t3: map<Addr, Block>)
    requires |bs| == 4 && t1 == map[bs[0].addr := bs[0]]
    requires t2 == t1[bs[1].addr := bs[1]] && t3 == t2[bs[2].addr := bs[2]]
    ensures TableOf(bs) == t3[bs[3].addr := bs[3]]
  {
    assert bs[..0] == [] && bs[..4] == bs;
    TableStep(bs, 0, map[]);
    TableStep(bs, 1, t1);
    TableStep(bs, 2, t2);
    TableStep(bs, 3, t3);
  }

  lemma Ascending(order: seq<Addr>)
    requires order == [1, 2, 3, 4]
    ensures Enumerates(order, {1, 2, 3, 4})
  {
  }

  lemma SweepOfFour<V>(
    f: (map<Addr, V>, Addr) -> V, order: seq<Addr>, t: map<Addr, V>, t1: map<Addr, V>, t2: map<Addr, V>,
    t3: map<Addr, V>)
    requires |order| == 4 && t1 == t[order[0] := f(t, order[0])]
    requires t2 == t1[order[1] := f(t1, order[1])] && t3 == t2[order[2] := f(t2, order[2])]
    ensures Sweep(f, order, t) == t3[order[3] := f(t3, order[3])]
  {
    assert SweepTo(f, order, t, 0) == t;
    assert SweepTo(f, order, t, 1) == t1;
    assert SweepTo(f, order, t, 2) == t2;
    assert SweepTo(f, order, t, 3) == t3;
  }

  lemma SweepGives(f: (Outs, Addr) -> State, order: seq<Addr>, t: Outs, v1: State, v2: State, v3: State, v4: State)
    requires order == [1, 2, 3, 4] && t.Keys <= {1, 2, 3, 4} && f(t, 1) == v1 && f(t[1 := v1], 2) == v2
    requires f(t[1 := v1][2 := v2], 3) == v3 && f(t[1 := v1][2 := v2][3 := v3], 4) == v4
    ensures Sweep(f, order, t) == map[1 := v1, 2 := v2, 3 := v3, 4 := v4]
  {
    SweepOfFour(f, order, t, t[1 := v1], t[1 := v1][2 := v2], t[1 := v1][2 := v2][3 := v3]);
  }
}
