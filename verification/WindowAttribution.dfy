/**
  Charging samples to time windows: one window at a time over all samples, and all the windows of a
  band in one pass with a window cursor.
*/
module WindowAttribution {
  import opened Numbers
  import opened Options
  import opened ProfileSlice
  import opened SetSums

  type Bucket = int

  /** The bucket of a node's frame; `None` for a node the node table does not have. */
  type Classifier = NodeId -> Option<Bucket>

  /** A frame's absolute time, from `lo` up to but not including `hi`. */
  datatype Window = Window(lo: int, hi: int)

  predicate Counts(cls: Classifier, node: NodeId, b: Option<Bucket>) {
    cls(node).Some? && (b.Some? ==> cls(node) == b)
  }

  /** What sample `k` adds to the window, of one bucket or, for `None`, of any. */
  function Charge(p: Profile, cls: Classifier, w: Window, b: Option<Bucket>, k: nat): int
    requires k < |p.samples|
  {
    if w.lo <= EndOf(p, k) < w.hi && Counts(cls, p.samples[k].node, b) then p.samples[k].dt else 0
  }

  /** The time of the first `n` samples that ends inside the window. */
  function RangeSum(p: Profile, cls: Classifier, w: Window, b: Option<Bucket>, n: nat): int
    requires n <= |p.samples|
  {
    if n == 0 then 0 else RangeSum(p, cls, w, b, n - 1) + Charge(p, cls, w, b, n - 1)
  }

  method AttributeRange(p: Profile, cls: Classifier, w: Window) returns (buckets: map<Bucket, int>, total: int)
    ensures forall b :: Lookup(buckets, b, 0) == RangeSum(p, cls, w, Some(b), |p.samples|)
    ensures total == RangeSum(p, cls, w, None, |p.samples|)
  {
    buckets, total := map[], 0;
    var cumulative := 0;
    for i := 0 to |p.samples|
      invariant cumulative == Clock(p.samples, i)
      invariant forall b :: Lookup(buckets, b, 0) == RangeSum(p, cls, w, Some(b), i)
      invariant total == RangeSum(p, cls, w, None, i)
    {
      var dt := p.samples[i].dt;
      cumulative := cumulative + dt;
      var abs := p.startTs + cumulative;
      if abs < w.lo || abs >= w.hi { continue; }
      match cls(p.samples[i].node) {
        case None =>
        case Some(b) =>
          buckets := buckets[b := Lookup(buckets, b, 0) + dt];
          total := total + dt;
      }
    }
  }

  // ---- sums over windows, in any order ----

  ghost function Over(ws: seq<Window>, f: Window -> int): int {
    if ws == [] then 0 else Over(ws[..|ws| - 1], f) + f(ws[|ws| - 1])
  }

  lemma {:induction false} OverBoth(a: seq<Window>, b: seq<Window>, f: Window -> int)
    ensures Over(a + b, f) == Over(a, f) + Over(b, f)
  {
    if b == [] {
      assert a + b == a;
    } else {
      OverBoth(a, b[..|b| - 1], f);
      assert (a + b)[..|a + b| - 1] == a + b[..|b| - 1];
    }
  }

  lemma OverMiddle(a: seq<Window>, w: Window, b: seq<Window>, f: Window -> int)
    ensures Over(a + [w] + b, f) == Over(a + b, f) + f(w)
  {
    OverBoth(a + [w], b, f);
    OverBoth(a, [w], f);
    OverBoth(a, b, f);
    OverOne(w, f);
  }

  lemma OverWithout(ws: seq<Window>, f: Window -> int, k: nat)
    requires k < |ws|
    ensures Over(ws, f) == Over(ws[..k] + ws[k + 1..], f) + f(ws[k])
  {
    OverMiddle(ws[..k], ws[k], ws[k + 1..], f);
    assert ws == ws[..k] + [ws[k]] + ws[k + 1..];
  }

  lemma WithoutOne(z: seq<Window>, k: nat)
    requires k < |z|
    ensures multiset(z[..k] + z[k + 1..]) == multiset(z) - multiset{z[k]}
  {
    assert z == z[..k] + [z[k]] + z[k + 1..];
  }

  lemma RestMatches(a: seq<Window>, z: seq<Window>, k: nat)
    requires multiset(a) == multiset(z) && a != [] && k < |z| && z[k] == a[|a| - 1]
    ensures multiset(a[..|a| - 1]) == multiset(z[..k] + z[k + 1..])
  {
    var m := |a| - 1;
    calc {
      multiset(a[..m]);
    ==  { assert a == a[..m] + [a[m]]; }
      multiset(a) - multiset{a[m]};
    ==
      multiset(z) - multiset{z[k]};
    ==  { WithoutOne(z, k); }
      multiset(z[..k] + z[k + 1..]);
    }
  }

  lemma {:induction false} OverIgnoresOrder(a: seq<Window>, z: seq<Window>, f: Window -> int)
    requires multiset(a) == multiset(z)
    ensures Over(a, f) == Over(z, f)
    decreases |a|
  {
    assert |multiset(a)| == |a| && |multiset(z)| == |z|;
    if a != [] {
      var m := |a| - 1;
      assert a[m] in multiset(z);
      var k :| 0 <= k < |z| && z[k] == a[m];
      OverWithout(z, f, k);
      RestMatches(a, z, k);
      OverIgnoresOrder(a[..m], z[..k] + z[k + 1..], f);
    }
  }

  lemma {:induction false} OverSame(ws: seq<Window>, f: Window -> int, g: Window -> int)
    requires forall w :: w in ws ==> f(w) == g(w)
    ensures Over(ws, f) == Over(ws, g)
  {
    if ws != [] {
      assert ws[|ws| - 1] in ws;
      OverSame(ws[..|ws| - 1], f, g);
    }
  }

  lemma OverOne(w: Window, f: Window -> int)
    ensures Over([w], f) == f(w)
  {
    assert [w][..0] == [] && Over([w], f) == Over([w][..0], f) + f(w);
  }

  /** The attribution of each window of the band on its own, added up. */
  ghost function BandSum(p: Profile, cls: Classifier, ws: seq<Window>, b: Option<Bucket>, n: nat): int
    requires n <= |p.samples|
  {
    Over(ws, w => RangeSum(p, cls, w, b, n))
  }

  ghost function Spans(ws: seq<Window>): int { Over(ws, (w: Window) => w.hi - w.lo) }

  // ---- what the one-pass form catches ----

  /** The latest end among the samples up to `k`. */
  function Peak(p: Profile, k: nat): int
    requires k < |p.samples|
  {
    if k == 0 then EndOf(p, 0) else Max(Peak(p, k - 1), EndOf(p, k))
  }

  /** Sample `k` ends in the window before any sample has reached its end. */
  function CaughtCharge(p: Profile, cls: Classifier, w: Window, b: Option<Bucket>, k: nat): int
    requires k < |p.samples|
  {
    if Peak(p, k) < w.hi then Charge(p, cls, w, b, k) else 0
  }

  function CaughtSum(p: Profile, cls: Classifier, w: Window, b: Option<Bucket>, n: nat): int
    requires n <= |p.samples|
  {
    if n == 0 then 0 else CaughtSum(p, cls, w, b, n - 1) + CaughtCharge(p, cls, w, b, n - 1)
  }

  ghost function BandCaught(p: Profile, cls: Classifier, ws: seq<Window>, b: Option<Bucket>, n: nat): int
    requires n <= |p.samples|
  {
    Over(ws, w => CaughtSum(p, cls, w, b, n))
  }

  /** Windows that are not backwards, none starting before an earlier one ends. */
  ghost predicate InOrder(ws: seq<Window>) {
    && (forall i :: 0 <= i < |ws| ==> ws[i].lo <= ws[i].hi)
    && (forall i, j :: 0 <= i < j < |ws| ==> ws[i].hi <= ws[j].lo)
  }

  /** Where the cursor stands once time `t` has been reached: past every window that has ended. */
  ghost predicate CursorAt(ws: seq<Window>, wi: nat, t: int) {
    && wi <= |ws|
    && (forall j :: 0 <= j < wi ==> ws[j].hi <= t)
    && (wi < |ws| ==> ws[wi].hi > t)
  }

  lemma PeakIsReached(p: Profile, k: nat)
    requires k < |p.samples|
    ensures EndOf(p, k) <= Peak(p, k)
  {
  }

  /** With the cursor in place, only its own window can catch the sample. */
  lemma {:induction false} OnlyAtCursor(
    p: Profile, cls: Classifier, ws: seq<Window>, b: Option<Bucket>, k: nat, wi: nat)
    requires k < |p.samples| && InOrder(ws) && CursorAt(ws, wi, Peak(p, k))
    ensures Over(ws, w => CaughtCharge(p, cls, w, b, k)) == if wi < |ws| then Charge(p, cls, ws[wi], b, k) else 0
  {
    if ws != [] {
      var n := |ws| - 1;
      PeakIsReached(p, k);
      if wi <= n {
        if wi < n { assert ws[wi].hi <= ws[n].lo; }
        assert InOrder(ws[..n]) && CursorAt(ws[..n], wi, Peak(p, k));
        OnlyAtCursor(p, cls, ws[..n], b, k, wi);
      } else {
        assert ws[n].hi <= Peak(p, k);
        OnlyAtCursor(p, cls, ws[..n], b, k, n);
      }
    }
  }

  lemma {:induction false} BandCaughtOfMore(p: Profile, cls: Classifier, ws: seq<Window>, b: Option<Bucket>, n: nat)
    requires n < |p.samples|
    ensures BandCaught(p, cls, ws, b, n + 1) == BandCaught(p, cls, ws, b, n) +
            Over(ws, w => CaughtCharge(p, cls, w, b, n))
  {
    if ws != [] { BandCaughtOfMore(p, cls, ws[..|ws| - 1], b, n); }
  }

  lemma {:induction false} BandCaughtOfNone(p: Profile, cls: Classifier, ws: seq<Window>, b: Option<Bucket>)
    ensures BandCaught(p, cls, ws, b, 0) == 0
  {
    if ws != [] { BandCaughtOfNone(p, cls, ws[..|ws| - 1], b); }
  }

  lemma StepOfBand(p: Profile, cls: Classifier, ws: seq<Window>, i: nat, wi: nat)
    requires i < |p.samples| && InOrder(ws) && CursorAt(ws, wi, Peak(p, i))
    ensures forall b :: BandCaught(p, cls, ws, b, i + 1) ==
                        BandCaught(p, cls, ws, b, i) + if wi < |ws| then Charge(p, cls, ws[wi], b, i) else 0
  {
    forall b ensures BandCaught(p, cls, ws, b, i + 1) ==
                     BandCaught(p, cls, ws, b, i) + if wi < |ws| then Charge(p, cls, ws[wi], b, i) else 0
    {
      BandCaughtOfMore(p, cls, ws, b, i);
      OnlyAtCursor(p, cls, ws, b, i, wi);
    }
  }

  /** Once every window has ended, later samples add nothing. */
  lemma {:induction false} NothingAfterLast(
    p: Profile, cls: Classifier, ws: seq<Window>, b: Option<Bucket>, n: nat, m: nat)
    requires InOrder(ws) && n < m <= |p.samples| && CursorAt(ws, |ws|, Peak(p, n))
    ensures BandCaught(p, cls, ws, b, m) == BandCaught(p, cls, ws, b, n)
  {
    PeakGrows(p, n, m - 1);
    StepOfBand(p, cls, ws, m - 1, |ws|);
    if n < m - 1 { NothingAfterLast(p, cls, ws, b, n, m - 1); }
  }

  lemma {:induction false} PeakGrows(p: Profile, n: nat, m: nat)
    requires n <= m < |p.samples|
    ensures Peak(p, n) <= Peak(p, m)
  {
    if n < m { PeakGrows(p, n, m - 1); }
  }

  /** Advancing past the windows that end by `abs` puts the cursor in place for the new peak. */
  lemma CursorMoves(ws: seq<Window>, was: nat, wi: nat, before: int, abs: int)
    requires InOrder(ws) && CursorAt(ws, was, before) && was <= wi
    requires wi <= |ws| && (forall j :: was <= j < wi ==> ws[j].hi <= abs) && (wi < |ws| ==> ws[wi].hi > abs)
    ensures CursorAt(ws, wi, Max(before, abs))
  {
    if was < wi < |ws| { assert ws[was].hi <= ws[wi].lo; }
  }

  /** Where the cursor stands before sample `i`. */
  ghost predicate CursorBefore(p: Profile, ws: seq<Window>, wi: nat, i: nat)
    requires i <= |p.samples|
  {
    if i == 0 then wi == 0 && wi <= |ws| else CursorAt(ws, wi, Peak(p, i - 1))
  }

  method AdvanceCursor(p: Profile, ws: seq<Window>, was: nat, i: nat, abs: int) returns (wi: nat)
    requires i < |p.samples| && InOrder(ws) && CursorBefore(p, ws, was, i) && abs == EndOf(p, i)
    ensures CursorAt(ws, wi, Peak(p, i))
  {
    wi := was;
    while wi < |ws| && ws[wi].hi <= abs
      invariant was <= wi <= |ws| && forall j :: was <= j < wi ==> ws[j].hi <= abs
    {
      wi := wi + 1;
    }
    if i > 0 { CursorMoves(ws, was, wi, Peak(p, i - 1), abs); }
  }

  /** The buckets and the total hold what the first `n` samples add to the band. */
  ghost predicate Caught(p: Profile, cls: Classifier, ws: seq<Window>, n: nat, buckets: map<Bucket, int>, sampled: int)
    requires n <= |p.samples|
  {
    && (forall b :: Lookup(buckets, b, 0) == BandCaught(p, cls, ws, Some(b), n))
    && sampled == BandCaught(p, cls, ws, None, n)
  }

  method ChargeAtCursor(
    p: Profile, cls: Classifier, ws: seq<Window>, i: nat, abs: int, wi: nat, buckets0: map<Bucket, int>,
    sampled0: int)
    returns (buckets: map<Bucket, int>, sampled: int)
    requires i < |p.samples| && abs == EndOf(p, i) && wi < |ws| && InOrder(ws) && CursorAt(ws, wi, Peak(p, i))
    requires Caught(p, cls, ws, i, buckets0, sampled0)
    ensures Caught(p, cls, ws, i + 1, buckets, sampled)
  {
    StepOfBand(p, cls, ws, i, wi);
    PeakIsReached(p, i);
    buckets, sampled := buckets0, sampled0;
    if abs < ws[wi].lo { return; }
    match cls(p.samples[i].node) {
      case None =>
      case Some(b) =>
        buckets := buckets[b := Lookup(buckets, b, 0) + p.samples[i].dt];
        sampled := sampled + p.samples[i].dt;
    }
  }

  lemma CaughtAtEnd(p: Profile, cls: Classifier, band: seq<Window>, ws: seq<Window>, i: nat, b: Option<Bucket>)
    requires multiset(ws) == multiset(band) && InOrder(ws) && i <= |p.samples|
    requires i < |p.samples| ==> CursorAt(ws, |ws|, Peak(p, i))
    ensures BandCaught(p, cls, ws, b, i) == BandCaught(p, cls, band, b, |p.samples|)
  {
    if i < |p.samples| { NothingAfterLast(p, cls, ws, b, i, |p.samples|); }
    OverIgnoresOrder(band, ws, w => CaughtSum(p, cls, w, b, |p.samples|));
  }

  lemma NothingCaughtYet(p: Profile, cls: Classifier, wins: seq<Window>)
    ensures Caught(p, cls, wins, 0, map[], 0)
  {
    forall b ensures BandCaught(p, cls, wins, b, 0) == 0 { BandCaughtOfNone(p, cls, wins, b); }
  }

  lemma AllCaught(
    p: Profile, cls: Classifier, band: seq<Window>, ws: seq<Window>, i: nat, buckets: map<Bucket, int>, sampled: int)
    requires multiset(ws) == multiset(band) && InOrder(ws) && i <= |p.samples|
    requires i < |p.samples| ==> CursorAt(ws, |ws|, Peak(p, i))
    requires Caught(p, cls, ws, i, buckets, sampled)
    ensures Caught(p, cls, band, |p.samples|, buckets, sampled)
  {
    forall b ensures BandCaught(p, cls, ws, b, i) == BandCaught(p, cls, band, b, |p.samples|) {
      CaughtAtEnd(p, cls, band, ws, i, b);
    }
  }

  /** `wins` is the band in order of start; the band itself may list its frames in any order. */
  method AttributeBand(p: Profile, cls: Classifier, band: seq<Window>, wins: seq<Window>)
    returns (buckets: map<Bucket, int>, sampled: int, span: int)
    requires multiset(wins) == multiset(band) && InOrder(wins)
    ensures Caught(p, cls, band, |p.samples|, buckets, sampled) && span == Spans(band)
  {
    span := SpanTotal(wins);
    OverIgnoresOrder(band, wins, (w: Window) => w.hi - w.lo);
    buckets, sampled := map[], 0;
    var cumulative, i := 0, 0;
    var wi: nat := 0;
    NothingCaughtYet(p, cls, wins);
    while i < |p.samples|
      invariant 0 <= i <= |p.samples| && cumulative == Clock(p.samples, i)
      invariant CursorBefore(p, wins, wi, i) && Caught(p, cls, wins, i, buckets, sampled)
    {
      cumulative := cumulative + p.samples[i].dt;
      var abs := p.startTs + cumulative;
      wi := AdvanceCursor(p, wins, wi, i, abs);
      if wi >= |wins| { break; }
      buckets, sampled := ChargeAtCursor(p, cls, wins, i, abs, wi, buckets, sampled);
      i := i + 1;
    }
    AllCaught(p, cls, band, wins, i, buckets, sampled);
  }

  method SpanTotal(wins: seq<Window>) returns (span: int)
    ensures span == Spans(wins)
  {
    span := 0;
    for k := 0 to |wins|
      invariant span == Spans(wins[..k])
    {
      assert wins[..k + 1][..k] == wins[..k];
      span := span + (wins[k].hi - wins[k].lo);
    }
    assert wins[..|wins|] == wins;
  }

  // ---- when that is everything ----

  /** The time of sample `k` where it falls back into the window after its end has been reached. */
  function Back(p: Profile, w: Window, k: nat): int
    requires k < |p.samples|
  {
    if w.lo <= EndOf(p, k) < w.hi && Peak(p, k) >= w.hi then p.samples[k].dt else 0
  }

  ghost function BackIn(p: Profile, ws: seq<Window>, k: nat): int
    requires k < |p.samples|
  {
    Over(ws, w => Back(p, w, k))
  }

  /** What the samples of one node lose that way. */
  ghost function Missed(p: Profile, ws: seq<Window>, node: NodeId, n: nat): int
    requires n <= |p.samples|
  {
    if n == 0 then 0
    else Missed(p, ws, node, n - 1) + if p.samples[n - 1].node == node then BackIn(p, ws, n - 1) else 0
  }

  /** What the samples counted for a bucket lose. */
  ghost function Gap(p: Profile, cls: Classifier, ws: seq<Window>, b: Option<Bucket>, n: nat): int
    requires n <= |p.samples|
  {
    if n == 0 then 0
    else Gap(p, cls, ws, b, n - 1) + if Counts(cls, p.samples[n - 1].node, b) then BackIn(p, ws, n - 1) else 0
  }

  lemma {:induction false} OverPlus(ws: seq<Window>, f: Window -> int, g: Window -> int, h: Window -> int)
    requires forall w :: h(w) == f(w) + g(w)
    ensures Over(ws, h) == Over(ws, f) + Over(ws, g)
  {
    if ws != [] { OverPlus(ws[..|ws| - 1], f, g, h); }
  }

  lemma {:induction false} OverZero(ws: seq<Window>, f: Window -> int)
    requires forall w :: w in ws ==> f(w) == 0
    ensures Over(ws, f) == 0
  {
    if ws != [] {
      assert ws[|ws| - 1] in ws;
      OverZero(ws[..|ws| - 1], f);
    }
  }

  lemma BandSumOfMore(p: Profile, cls: Classifier, ws: seq<Window>, b: Option<Bucket>, n: nat)
    requires n < |p.samples|
    ensures BandSum(p, cls, ws, b, n + 1) == BandSum(p, cls, ws, b, n) + Over(ws, w => Charge(p, cls, w, b, n))
  {
    OverPlus(ws, w => RangeSum(p, cls, w, b, n), w => Charge(p, cls, w, b, n), w => RangeSum(p, cls, w, b, n + 1));
  }

  lemma ChargeSplits(p: Profile, cls: Classifier, ws: seq<Window>, b: Option<Bucket>, k: nat)
    requires k < |p.samples|
    ensures Over(ws, w => Charge(p, cls, w, b, k)) ==
            Over(ws, w => CaughtCharge(p, cls, w, b, k))
            + if Counts(cls, p.samples[k].node, b) then BackIn(p, ws, k) else 0
  {
    var counts := Counts(cls, p.samples[k].node, b);
    var back := (w: Window) => if counts then Back(p, w, k) else 0;
    OverPlus(ws, w => CaughtCharge(p, cls, w, b, k), back, w => Charge(p, cls, w, b, k));
    if counts { OverSame(ws, back, w => Back(p, w, k)); } else { OverZero(ws, back); }
  }

  /** The gap between the windows' own attributions and the one pass, for any bucket and any prefix. */
  lemma {:induction false} GapIsMissed(p: Profile, cls: Classifier, ws: seq<Window>, b: Option<Bucket>, n: nat)
    requires n <= |p.samples|
    ensures BandSum(p, cls, ws, b, n) == BandCaught(p, cls, ws, b, n) + Gap(p, cls, ws, b, n)
  {
    if n == 0 {
      OverZero(ws, w => RangeSum(p, cls, w, b, 0));
      OverZero(ws, w => CaughtSum(p, cls, w, b, 0));
    } else {
      GapIsMissed(p, cls, ws, b, n - 1);
      BandSumOfMore(p, cls, ws, b, n - 1);
      BandCaughtOfMore(p, cls, ws, b, n - 1);
      ChargeSplits(p, cls, ws, b, n - 1);
    }
  }

  /** What a bucket loses is what its nodes lose. */
  lemma {:induction false} GapByNode(
    p: Profile, cls: Classifier, ws: seq<Window>, b: Option<Bucket>, nodes: set<NodeId>, n: nat)
    requires n <= |p.samples| && forall k :: 0 <= k < n ==> p.samples[k].node in nodes
    ensures Gap(p, cls, ws, b, n) == Sum(nodes, m => if Counts(cls, m, b) then Missed(p, ws, m, n) else 0)
  {
    if n == 0 {
      SumZero(nodes, m => if Counts(cls, m, b) then Missed(p, ws, m, 0) else 0);
    } else {
      var x, back := p.samples[n - 1].node, BackIn(p, ws, n - 1);
      var one := m => if m == x && Counts(cls, m, b) then back else 0;
      GapByNode(p, cls, ws, b, nodes, n - 1);
      SumPlus(nodes, m => if Counts(cls, m, b) then Missed(p, ws, m, n - 1) else 0, one,
              m => if Counts(cls, m, b) then Missed(p, ws, m, n) else 0);
      SumOne(nodes, one, x);
    }
  }

  /** The classifier that knows one node sees what that node loses. */
  lemma {:induction false} GapOfOneNode(p: Profile, cls: Classifier, ws: seq<Window>, node: NodeId, n: nat)
    requires n <= |p.samples| && forall m :: cls(m) == if m == node then Some(0) else None
    ensures Gap(p, cls, ws, None, n) == Missed(p, ws, node, n)
  {
    if n > 0 { GapOfOneNode(p, cls, ws, node, n - 1); }
  }

  /** The one pass gives a bucket what the windows' own attributions give it. */
  ghost predicate FormsAgree(p: Profile, cls: Classifier, ws: seq<Window>, b: Option<Bucket>) {
    BandCaught(p, cls, ws, b, |p.samples|) == BandSum(p, cls, ws, b, |p.samples|)
  }

  lemma NoLossAgrees(p: Profile, cls: Classifier, ws: seq<Window>, b: Option<Bucket>)
    requires forall node :: Missed(p, ws, node, |p.samples|) == 0
    ensures FormsAgree(p, cls, ws, b)
  {
    var n := |p.samples|;
    var nodes := set k | 0 <= k < n :: p.samples[k].node;
    GapIsMissed(p, cls, ws, b, n);
    GapByNode(p, cls, ws, b, nodes, n);
    SumZero(nodes, m => if Counts(cls, m, b) then Missed(p, ws, m, n) else 0);
  }

  function OneNode(node: NodeId): Classifier { m => if m == node then Some(0) else None }

  lemma LossShows(p: Profile, ws: seq<Window>, node: NodeId)
    requires FormsAgree(p, OneNode(node), ws, None)
    ensures Missed(p, ws, node, |p.samples|) == 0
  {
    GapIsMissed(p, OneNode(node), ws, None, |p.samples|);
    GapOfOneNode(p, OneNode(node), ws, node, |p.samples|);
  }

  /**
    The two forms agree in every bucket of every classification exactly when no node's samples have
    any time, taken together, in windows they fell back into.
  */
  lemma OnePassExactly(p: Profile, ws: seq<Window>)
    ensures (forall cls: Classifier, b: Option<Bucket> :: FormsAgree(p, cls, ws, b)) <==>
            (forall node :: Missed(p, ws, node, |p.samples|) == 0)
  {
    if node :| Missed(p, ws, node, |p.samples|) != 0 {
      var cls: Classifier, b: Option<Bucket> := OneNode(node), None;
      if FormsAgree(p, cls, ws, b) { LossShows(p, ws, node); }
      assert exists cls: Classifier, b: Option<Bucket> :: !FormsAgree(p, cls, ws, b);
    } else {
      forall cls: Classifier, b: Option<Bucket> ensures FormsAgree(p, cls, ws, b) { NoLossAgrees(p, cls, ws, b); }
    }
  }

  /** No sample ends in a window whose end an earlier sample has reached. */
  ghost predicate NeverReturns(p: Profile, ws: seq<Window>) {
    forall k, w :: 0 <= k < |p.samples| && w in ws && w.lo <= EndOf(p, k) < w.hi ==> Peak(p, k) < w.hi
  }

  lemma {:induction false} NothingMissed(p: Profile, ws: seq<Window>, node: NodeId, n: nat)
    requires NeverReturns(p, ws) && n <= |p.samples|
    ensures Missed(p, ws, node, n) == 0
  {
    if n > 0 {
      NothingMissed(p, ws, node, n - 1);
      OverZero(ws, w => Back(p, w, n - 1));
    }
  }

  /** In particular they agree where no sample falls back into a window passed. */
  lemma OnePassIsBandSum(p: Profile, cls: Classifier, ws: seq<Window>, b: Option<Bucket>)
    requires NeverReturns(p, ws)
    ensures BandCaught(p, cls, ws, b, |p.samples|) == BandSum(p, cls, ws, b, |p.samples|)
  {
    forall node ensures Missed(p, ws, node, |p.samples|) == 0 { NothingMissed(p, ws, node, |p.samples|); }
    NoLossAgrees(p, cls, ws, b);
  }

  lemma {:induction false} ForwardPeak(p: Profile, k: nat)
    requires Forward(p.samples) && k < |p.samples|
    ensures Peak(p, k) == EndOf(p, k)
  {
    if k > 0 { ForwardPeak(p, k - 1); }
  }

  /** Profiles whose deltas are not negative never return. */
  lemma ForwardNeverReturns(p: Profile, ws: seq<Window>)
    requires Forward(p.samples)
    ensures NeverReturns(p, ws)
  {
    forall k | 0 <= k < |p.samples| ensures Peak(p, k) == EndOf(p, k) { ForwardPeak(p, k); }
  }

  /** One sample that falls back is enough: its time is in the window's own sum and not in the pass's. */
  lemma ReturnIsMissed(p: Profile, cls: Classifier, w: Window, b: Option<Bucket>, node: NodeId, d: int, e: int)
    requires cls(node).Some? && Counts(cls, node, b) && 0 < e <= d
    requires p == Profile([Sample(node, d), Sample(node, -e)], 0) && w == Window(d - e, d)
    ensures InOrder([w]) && !NeverReturns(p, [w])
    ensures BandCaught(p, cls, [w], b, 2) == 0 && BandSum(p, cls, [w], b, 2) == -e
  {
    assert Clock(p.samples, 0) == 0 && Clock(p.samples, 1) == Clock(p.samples, 0) + p.samples[0].dt;
    assert Clock(p.samples, 2) == Clock(p.samples, 1) + p.samples[1].dt;
    assert EndOf(p, 0) == d && EndOf(p, 1) == d - e && Peak(p, 1) == d;
    assert w in [w];
    assert Charge(p, cls, w, b, 0) == 0 && Charge(p, cls, w, b, 1) == -e && CaughtCharge(p, cls, w, b, 1) == 0;
    assert RangeSum(p, cls, w, b, 0) == 0 && RangeSum(p, cls, w, b, 2) == RangeSum(p, cls, w, b, 1) - e;
    assert CaughtSum(p, cls, w, b, 0) == 0 && CaughtSum(p, cls, w, b, 2) == CaughtSum(p, cls, w, b, 1);
    OverOne(w, w => CaughtSum(p, cls, w, b, 2));
    OverOne(w, w => RangeSum(p, cls, w, b, 2));
  }

  // ---- the windows the pass is given ----

  /** The frames between consecutive marks that are apart in time. */
  function Frames(marks: seq<int>): seq<Window> {
    var n := |marks| - 1;
    if n < 1 then []
    else if marks[n - 1] < marks[n] then Frames(marks[..n]) + [Window(marks[n - 1], marks[n])]
    else Frames(marks[..n])
  }

  /** The frames are the spans between one mark and the next one, where that is later, and no others. */
  lemma {:induction false} FramesExactly(marks: seq<int>, w: Window)
    ensures w in Frames(marks) <==>
            exists i :: 0 < i < |marks| && marks[i - 1] < marks[i] && w == Window(marks[i - 1], marks[i])
  {
    var n := |marks| - 1;
    if n >= 1 {
      FramesExactly(marks[..n], w);
      assert forall i :: 0 <= i < n ==> marks[..n][i] == marks[i];
    }
  }

  /** Frames of marks in time order are windows in order, as the one pass needs them. */
  lemma {:induction false} FramesAreInOrder(marks: seq<int>)
    requires forall i, j :: 0 <= i < j < |marks| ==> marks[i] <= marks[j]
    ensures InOrder(Frames(marks))
    ensures forall i :: 0 <= i < |Frames(marks)| ==> Frames(marks)[i].lo < Frames(marks)[i].hi <= marks[|marks| - 1]
  {
    if |marks| >= 2 { FramesAreInOrder(marks[..|marks| - 1]); }
  }

  lemma NoWindowTwice(ws: seq<Window>, all: seq<Window>, i: nat, j: nat)
    requires multiset(ws) <= multiset(all) && i < j < |ws|
    requires forall a, b :: 0 <= a < b < |all| ==> all[a] != all[b]
    ensures ws[i] != ws[j]
  {
    if ws[i] == ws[j] {
      assert ws == ws[..i] + [ws[i]] + ws[i + 1..] && ws[j] in ws[i + 1..];
      assert multiset(ws)[ws[i]] >= 2;
      AtMostOnce(all, ws[i]);
    }
  }

  lemma {:induction false} AtMostOnce(all: seq<Window>, w: Window)
    requires forall a, b :: 0 <= a < b < |all| ==> all[a] != all[b]
    ensures multiset(all)[w] <= 1
  {
    if all != [] {
      var n := |all| - 1;
      assert all == all[..n] + [all[n]];
      AtMostOnce(all[..n], w);
      if all[n] == w { assert w !in all[..n]; }
    }
  }

  /** Any selection of the frames, sorted by start, is windows in order. */
  lemma BandIsInOrder(marks: seq<int>, wins: seq<Window>)
    requires forall i, j :: 0 <= i < j < |marks| ==> marks[i] <= marks[j]
    requires multiset(wins) <= multiset(Frames(marks))
    requires forall i, j :: 0 <= i < j < |wins| ==> wins[i].lo <= wins[j].lo
    ensures InOrder(wins)
  {
    var all := Frames(marks);
    FramesAreInOrder(marks);
    assert forall a, b :: 0 <= a < b < |all| ==> all[a] != all[b];
    forall i | 0 <= i < |wins| ensures wins[i] in all {
      assert wins[i] in multiset(wins);
    }
    forall i, j | 0 <= i < j < |wins| ensures wins[i].hi <= wins[j].lo {
      NoWindowTwice(wins, all, i, j);
      FramesApart(all, wins[i], wins[j]);
    }
  }

  lemma FramesApart(all: seq<Window>, v: Window, w: Window)
    requires InOrder(all) && (forall i :: 0 <= i < |all| ==> all[i].lo < all[i].hi)
    requires v in all && w in all && v != w && v.lo <= w.lo
    ensures v.hi <= w.lo
  {
    var a :| 0 <= a < |all| && all[a] == v;
    var b :| 0 <= b < |all| && all[b] == w;
    if a < b { assert v.hi <= w.lo; }
  }

  // ---- nothing is lost between the buckets ----

  /** The buckets of a window add up to its total. */
  lemma {:induction false} BucketsAddUp(p: Profile, cls: Classifier, w: Window, bs: set<Bucket>, n: nat)
    requires n <= |p.samples|
    requires forall k :: 0 <= k < n && cls(p.samples[k].node).Some? ==> cls(p.samples[k].node).value in bs
    ensures Sum(bs, b => RangeSum(p, cls, w, Some(b), n)) == RangeSum(p, cls, w, None, n)
  {
    if n == 0 {
      SumZero(bs, b => RangeSum(p, cls, w, Some(b), 0));
    } else {
      var k := n - 1;
      var before, one, now := b => RangeSum(p, cls, w, Some(b), k), b => Charge(p, cls, w, Some(b), k),
          b => RangeSum(p, cls, w, Some(b), n);
      BucketsAddUp(p, cls, w, bs, k);
      SumPlus(bs, before, one, now);
      match cls(p.samples[k].node) {
        case None => SumZero(bs, one);
        case Some(c) => SumOne(bs, one, c);
      }
    }
  }

  /** Two windows that meet hold together what one window over both holds. */
  lemma {:induction false} WindowsAdd(p: Profile, cls: Classifier, a: int, c: int, d: int, b: Option<Bucket>, n: nat)
    requires a <= c <= d && n <= |p.samples|
    ensures RangeSum(p, cls, Window(a, c), b, n) + RangeSum(p, cls, Window(c, d), b, n) ==
            RangeSum(p, cls, Window(a, d), b, n)
  {
    if n > 0 { WindowsAdd(p, cls, a, c, d, b, n - 1); }
  }
}
