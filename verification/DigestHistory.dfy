/**
  When hashes are shared, told over whole runs: which step starts a job, what takes an entry out of
  the cache, what becomes of the calls that wait, and how far a job of an unchanged file has got.
*/
module DigestHistory {
  import opened DigestCache

  function After(d: Disk, steps: seq<Step>, n: nat): World
    requires n <= |steps|
  {
    Run(d, steps[..n])
  }

  lemma OneMore(d: Disk, steps: seq<Step>, n: nat)
    requires n < |steps|
    ensures After(d, steps, n + 1) == Next(d, After(d, steps, n), steps[n])
    ensures Inv(d, After(d, steps, n)) && Inv(d, After(d, steps, n + 1))
  {
    assert steps[..n + 1][..n] == steps[..n];
    RunKeepsInv(d, steps[..n]);
    RunKeepsInv(d, steps[..n + 1]);
  }

  // ---- versions ----

  function Changes(steps: seq<Step>, n: nat, p: Path): nat
    requires n <= |steps|
  {
    if n == 0 then 0 else Changes(steps, n - 1, p) + if steps[n - 1] == Change(p) then 1 else 0
  }

  lemma ChangeCounts(d: Disk, w: World, s: Step, p: Path)
    ensures VersionOf(Next(d, w, s), p) == VersionOf(w, p) + if s == Change(p) then 1 else 0
  {
  }

  lemma {:induction false} VersionIsChanges(d: Disk, steps: seq<Step>, n: nat, p: Path)
    requires n <= |steps|
    ensures VersionOf(After(d, steps, n), p) == Changes(steps, n, p)
  {
    if n > 0 {
      VersionIsChanges(d, steps, n - 1, p);
      OneMore(d, steps, n - 1);
      ChangeCounts(d, After(d, steps, n - 1), steps[n - 1], p);
    }
  }

  // ---- starting a job ----

  /** Step `i` starts job `j` for version `v` of the file at `p`. */
  ghost predicate StartsJob(d: Disk, steps: seq<Step>, i: nat, p: Path, v: Version, j: JobId)
    requires i < |steps|
  {
    var w, w' := After(d, steps, i), After(d, steps, i + 1);
    |w.jobs| == j && |w'.jobs| == j + 1 && w'.jobs[j].path == p && w'.jobs[j].stamp == v
  }

  ghost predicate HasEntry(w: World, p: Path, v: Version, j: JobId) {
    p in w.cache.entries && w.cache.entries[p] == Entry(v, j)
  }

  ghost predicate HasStamp(w: World, p: Path, v: Version) {
    p in w.cache.entries && w.cache.entries[p].stamp == v
  }

  ghost predicate Proceeds(w: World, s: Step, p: Path, v: Version) {
    s.Proceed? && s.c in w.calls && w.calls[s.c] == Stamped(p, v)
  }

  lemma OnlyProceedStarts(d: Disk, w: World, s: Step)
    requires !s.Proceed?
    ensures |Next(d, w, s).jobs| == |w.jobs|
  {
  }

  lemma ProceedStarts(d: Disk, w: World, c: CallId, p: Path, v: Version)
    ensures var w' := Next(d, w, Proceed(c));
            && |w'.jobs| <= |w.jobs| + 1
            && (|w'.jobs| == |w.jobs| + 1 && w'.jobs[|w.jobs|].path == p && w'.jobs[|w.jobs|].stamp == v
                <==> Proceeds(w, Proceed(c), p, v) && !HasStamp(w, p, v))
  {
  }

  /** A job is started exactly by a call whose path has no entry with the stamp the call has read. */
  lemma StartsIffNoEntry(d: Disk, steps: seq<Step>, i: nat, p: Path, v: Version)
    requires i < |steps|
    ensures var w := After(d, steps, i);
            StartsJob(d, steps, i, p, v, |w.jobs|) <==> Proceeds(w, steps[i], p, v) && !HasStamp(w, p, v)
  {
    OneMore(d, steps, i);
    var w, s := After(d, steps, i), steps[i];
    if s.Proceed? { ProceedStarts(d, w, s.c, p, v); } else { OnlyProceedStarts(d, w, s); }
  }

  /** A call that goes on shares the job of an entry with its stamp, and otherwise waits for its own new job. */
  lemma CallsShare(d: Disk, steps: seq<Step>, i: nat, p: Path, v: Version)
    requires i < |steps| && Proceeds(After(d, steps, i), steps[i], p, v)
    ensures var w, w', c := After(d, steps, i), After(d, steps, i + 1), steps[i].c;
            && c in w'.calls
            && (forall j :: HasEntry(w, p, v, j) ==>
                  w'.calls[c] == Waiting(p, v, j, false) && w'.jobs == w.jobs && w'.cache == w.cache)
            && (!HasStamp(w, p, v) ==> w'.calls[c] == Waiting(p, v, |w.jobs|, true) && HasEntry(w', p, v, |w.jobs|))
  {
    OneMore(d, steps, i);
    RememberKeepsCache(After(d, steps, i).cache, p, Entry(v, |After(d, steps, i).jobs|));
  }

  // ---- leaving the cache ----

  /** Another job is started for the same path. */
  ghost predicate Replaced(d: Disk, steps: seq<Step>, k: nat, p: Path)
    requires k < |steps|
  {
    exists v: Version, j: JobId :: StartsJob(d, steps, k, p, v, j)
  }

  /** The call that started the job is told that it failed. */
  ghost predicate CleanedUp(d: Disk, steps: seq<Step>, k: nat, j: JobId)
    requires k < |steps|
  {
    var w, s := After(d, steps, k), steps[k];
    && s.Deliver? && s.c in w.calls && w.calls[s.c].Waiting? && w.calls[s.c].job == j && w.calls[s.c].creator
    && j < |w.jobs| && w.jobs[j].progress.Broken?
  }

  /** Step `k` starts a job for a path that has no entry. */
  ghost predicate Enters(d: Disk, steps: seq<Step>, k: nat, q: Path)
    requires k < |steps|
  {
    q !in After(d, steps, k).cache.entries && Replaced(d, steps, k, q)
  }

  /** Another path enters while the cache is full and this one is its oldest. */
  ghost predicate Evicted(d: Disk, steps: seq<Step>, k: nat, p: Path)
    requires k < |steps|
  {
    var c := After(d, steps, k).cache;
    |c.order| == CAPACITY && c.order[0] == p && exists q :: q != p && Enters(d, steps, k, q)
  }

  ghost predicate Removed(d: Disk, steps: seq<Step>, k: nat, p: Path, j: JobId)
    requires k < |steps|
  {
    Replaced(d, steps, k, p) || CleanedUp(d, steps, k, j) || Evicted(d, steps, k, p)
  }

  /** One insertion: a known path keeps its place, a new one goes last, and the oldest goes if the cache was full. */
  lemma RememberExactly(c: Cache, p: Path, e: Entry)
    requires IsCache(c) && |c.order| <= CAPACITY
    ensures var r := Remember(c, p, e);
            && (p in c.entries ==> r == Cache(c.order, c.entries[p := e]))
            && (p !in c.entries && |c.order| < CAPACITY ==> r == Cache(c.order + [p], c.entries[p := e]))
            && (p !in c.entries && |c.order| == CAPACITY ==>
                  r == Cache(c.order[1..] + [p], c.entries[p := e] - {c.order[0]}))
  {
    if p !in c.entries && |c.order| == CAPACITY {
      assert (c.order + [p])[1..] == c.order[1..] + [p];
    }
  }

  /** The step of a call that goes on with path `q`, as seen by path `p`. */
  lemma ProceedMovesEntry(d: Disk, w: World, c: CallId, q: Path, u: Version, p: Path, v: Version, j: JobId)
    requires Inv(d, w) && Proceeds(w, Proceed(c), q, u)
    ensures var out := p != q && q !in w.cache.entries && |w.cache.order| == CAPACITY && w.cache.order[0] == p;
            HasEntry(Next(d, w, Proceed(c)), p, v, j) <==>
            if HasStamp(w, q, u) then HasEntry(w, p, v, j)
            else if p == q then v == u && j == |w.jobs|
            else HasEntry(w, p, v, j) && !out
  {
    RememberExactly(w.cache, q, Entry(u, |w.jobs|));
  }

  lemma DeliverMovesEntry(d: Disk, w: World, c: CallId, p: Path, v: Version, j: JobId)
    requires Inv(d, w)
    ensures var cleans := c in w.calls && w.calls[c].Waiting? && w.calls[c].job == j && w.calls[c].creator
                          && j < |w.jobs| && w.jobs[j].progress.Broken?;
            HasEntry(Next(d, w, Deliver(c)), p, v, j) <==> HasEntry(w, p, v, j) && !cleans
  {
    if c in w.calls { assert CallSound(d, w, w.calls[c]); }
  }

  lemma ReplacedMeans(d: Disk, steps: seq<Step>, k: nat, p: Path, q: Path, u: Version)
    requires k < |steps| && Proceeds(After(d, steps, k), steps[k], q, u)
    ensures Replaced(d, steps, k, p) <==> p == q && !HasStamp(After(d, steps, k), q, u)
  {
    StartsIffNoEntry(d, steps, k, q, u);
    forall v: Version, j: JobId | StartsJob(d, steps, k, p, v, j)
      ensures p == q && !HasStamp(After(d, steps, k), q, u)
    {
      StartsIffNoEntry(d, steps, k, p, v);
    }
  }

  /** One step of a run: an entry is put in by the start of its job, and taken out in three ways only. */
  lemma EntryStep(d: Disk, steps: seq<Step>, k: nat, p: Path, v: Version, j: JobId)
    requires k < |steps|
    ensures HasEntry(After(d, steps, k + 1), p, v, j) <==>
            StartsJob(d, steps, k, p, v, j) || (HasEntry(After(d, steps, k), p, v, j) && !Removed(d, steps, k, p, j))
  {
    var w, s := After(d, steps, k), steps[k];
    OneMore(d, steps, k);
    if s.Deliver? {
      NothingStartsAtAll(d, steps, k);
      DeliverMovesEntry(d, w, s.c, p, v, j);
    } else if s.Proceed? && s.c in w.calls && w.calls[s.c].Stamped? {
      ProceedStep(d, steps, k, p, v, j);
    } else {
      NothingStartsAtAll(d, steps, k);
      assert Next(d, w, s).cache == w.cache;
    }
  }

  lemma NothingStartsAtAll(d: Disk, steps: seq<Step>, k: nat)
    requires k < |steps|
    requires var w := After(d, steps, k); !(steps[k].Proceed? && steps[k].c in w.calls && w.calls[steps[k].c].Stamped?)
    ensures forall p :: !Replaced(d, steps, k, p)
    ensures forall p, v, j :: !StartsJob(d, steps, k, p, v, j)
  {
    OneMore(d, steps, k);
    if !steps[k].Proceed? { OnlyProceedStarts(d, After(d, steps, k), steps[k]); }
  }

  lemma ProceedStep(d: Disk, steps: seq<Step>, k: nat, p: Path, v: Version, j: JobId)
    requires k < |steps|
    requires var w := After(d, steps, k); steps[k].Proceed? && steps[k].c in w.calls && w.calls[steps[k].c].Stamped?
    ensures HasEntry(After(d, steps, k + 1), p, v, j) <==>
            StartsJob(d, steps, k, p, v, j) || (HasEntry(After(d, steps, k), p, v, j) && !Removed(d, steps, k, p, j))
  {
    var w, s := After(d, steps, k), steps[k];
    var q, u := w.calls[s.c].path, w.calls[s.c].before;
    OneMore(d, steps, k);
    ProceedMovesEntry(d, w, s.c, q, u, p, v, j);
    StartsIffNoEntry(d, steps, k, p, v);
    ReplacedMeans(d, steps, k, p, q, u);
    EvictedMeans(d, steps, k, p, q, u);
  }

  lemma EvictedMeans(d: Disk, steps: seq<Step>, k: nat, p: Path, q: Path, u: Version)
    requires k < |steps| && Proceeds(After(d, steps, k), steps[k], q, u)
    ensures var c := After(d, steps, k).cache;
            Evicted(d, steps, k, p) <==>
            |c.order| == CAPACITY && c.order[0] == p && p != q && q !in c.entries
  {
    var c := After(d, steps, k).cache;
    forall r ensures Enters(d, steps, k, r) <==> r == q && q !in c.entries {
      ReplacedMeans(d, steps, k, r, q, u);
    }
    if q !in c.entries { assert Enters(d, steps, k, q); }
  }

  /** The entry's job was started at some step, and nothing has taken the entry out since. */
  ghost predicate StartedAndKept(d: Disk, steps: seq<Step>, n: nat, p: Path, v: Version, j: JobId)
    requires n <= |steps|
  {
    exists i :: 0 <= i < n && StartsJob(d, steps, i, p, v, j)
                && forall k :: i < k < n ==> !Removed(d, steps, k, p, j)
  }

  /** After any run, an entry is there exactly if its job was started and the entry was not taken out since. */
  lemma {:induction false} EntryExactly(d: Disk, steps: seq<Step>, n: nat, p: Path, v: Version, j: JobId)
    requires n <= |steps|
    ensures HasEntry(After(d, steps, n), p, v, j) <==> StartedAndKept(d, steps, n, p, v, j)
  {
    if n == 0 {
      assert After(d, steps, 0) == START;
    } else {
      EntryExactly(d, steps, n - 1, p, v, j);
      EntryStaysExact(d, steps, n - 1, p, v, j);
    }
  }

  lemma EntryStaysExact(d: Disk, steps: seq<Step>, n: nat, p: Path, v: Version, j: JobId)
    requires n < |steps|
    requires HasEntry(After(d, steps, n), p, v, j) <==> StartedAndKept(d, steps, n, p, v, j)
    ensures HasEntry(After(d, steps, n + 1), p, v, j) <==> StartedAndKept(d, steps, n + 1, p, v, j)
  {
    EntryStep(d, steps, n, p, v, j);
    KeptMore(d, steps, n, p, v, j);
  }

  lemma KeptMore(d: Disk, steps: seq<Step>, n: nat, p: Path, v: Version, j: JobId)
    requires n < |steps|
    ensures StartedAndKept(d, steps, n + 1, p, v, j) <==>
            StartsJob(d, steps, n, p, v, j)
            || (StartedAndKept(d, steps, n, p, v, j) && !Removed(d, steps, n, p, j))
  {
    if i :| 0 <= i < n && StartsJob(d, steps, i, p, v, j) && forall k :: i < k < n ==> !Removed(d, steps, k, p, j) {
      if !Removed(d, steps, n, p, j) { assert forall k :: i < k < n + 1 ==> !Removed(d, steps, k, p, j); }
    }
  }

  /**
    Hashes are shared: a second job for the same version of the same file is started only after the
    first one's entry was replaced, cleaned up after a failure, or evicted.
  */
  lemma Coalesced(d: Disk, steps: seq<Step>, i: nat, n: nat, p: Path, v: Version, j: JobId, later: JobId)
    requires i < n < |steps| && StartsJob(d, steps, i, p, v, j) && StartsJob(d, steps, n, p, v, later)
    ensures exists k :: i < k < n && Removed(d, steps, k, p, j)
  {
    EntryExactly(d, steps, n, p, v, j);
    StartsIffNoEntry(d, steps, n, p, v);
    assert !HasEntry(After(d, steps, n), p, v, j);
  }

  // ---- the order of eviction ----

  /** Step `k` is the one with which `q` last came into the cache, where it still is at `n`. */
  ghost predicate EnteredAt(d: Disk, steps: seq<Step>, n: nat, q: Path, k: nat)
    requires n <= |steps|
  {
    k < n && Enters(d, steps, k, q) && forall m :: k < m <= n ==> q in After(d, steps, m).cache.entries
  }

  ghost predicate AreEntries(d: Disk, steps: seq<Step>, n: nat, order: seq<Path>, times: seq<nat>)
    requires n <= |steps|
  {
    && |times| == |order|
    && (forall a, b :: 0 <= a < b < |times| ==> times[a] < times[b])
    && (forall a :: 0 <= a < |times| ==> EnteredAt(d, steps, n, order[a], times[a]))
  }

  function Without<T>(s: seq<T>, x: nat): (r: seq<T>)
    requires x < |s|
    ensures |r| == |s| - 1 && forall a :: 0 <= a < |r| ==> r[a] == s[if a < x then a else a + 1]
  {
    s[..x] + s[x + 1..]
  }

  lemma {:induction false} DropCuts(order: seq<Path>, p: Path) returns (x: nat)
    requires p in order
    ensures x < |order| && Drop(order, p) == Without(order, x)
  {
    if order[0] == p {
      x := 0;
    } else {
      var y := DropCuts(order[1..], p);
      x := y + 1;
      assert order[..x] == [order[0]] + order[1..][..y];
    }
  }

  /** What a call that is answered takes out of the order. */
  lemma DeliverCuts(d: Disk, w: World, c: CallId) returns (x: nat)
    requires Inv(d, w)
    ensures var was, order := w.cache.order, Next(d, w, Deliver(c)).cache.order;
            order == was || (x < |was| && order == Without(was, x))
  {
    x := 0;
    if c in w.calls && w.calls[c].Waiting? && w.calls[c].path in w.cache.entries {
      x := DropCuts(w.cache.order, w.calls[c].path);
    }
  }

  lemma ProceedAppends(d: Disk, w: World, c: CallId, q: Path, u: Version)
    requires Inv(d, w) && Proceeds(w, Proceed(c), q, u)
    ensures var was, order := w.cache.order, Next(d, w, Proceed(c)).cache.order;
            order == if q in w.cache.entries then was else (if |was| == CAPACITY then was[1..] else was) + [q]
  {
    RememberExactly(w.cache, q, Entry(u, |w.jobs|));
  }

  /** The order changes by a cut, by a new last path, or by both at once, with the first one cut. */
  lemma OrderStep(d: Disk, w: World, s: Step) returns (x: nat)
    requires Inv(d, w)
    ensures var was, order := w.cache.order, Next(d, w, s).cache.order;
            || order == was
            || (x < |was| && order == Without(was, x))
            || (s.Proceed? && s.c in w.calls && w.calls[s.c].Stamped? && w.calls[s.c].path !in w.cache.entries
                && order == (if |was| == CAPACITY then was[1..] else was) + [w.calls[s.c].path])
  {
    x := 0;
    if s.Deliver? {
      x := DeliverCuts(d, w, s.c);
    } else if s.Proceed? && s.c in w.calls && w.calls[s.c].Stamped? {
      ProceedAppends(d, w, s.c, w.calls[s.c].path, w.calls[s.c].before);
    }
  }

  lemma EntryLasts(d: Disk, steps: seq<Step>, n: nat, q: Path, k: nat)
    requires n < |steps| && EnteredAt(d, steps, n, q, k) && q in After(d, steps, n + 1).cache.entries
    ensures EnteredAt(d, steps, n + 1, q, k)
  {
  }

  /** The cache keeps its paths in the order in which they came in. */
  lemma {:induction false} OrderIsByEntering(d: Disk, steps: seq<Step>, n: nat) returns (times: seq<nat>)
    requires n <= |steps|
    ensures AreEntries(d, steps, n, After(d, steps, n).cache.order, times)
  {
    if n == 0 {
      times := [];
    } else {
      var before := OrderIsByEntering(d, steps, n - 1);
      times := OneMoreTime(d, steps, n - 1, After(d, steps, n - 1), After(d, steps, n).cache, before);
    }
  }

  lemma OneMoreTime(d: Disk, steps: seq<Step>, n: nat, w: World, c: Cache, before: seq<nat>) returns (times: seq<nat>)
    requires n < |steps| && w == After(d, steps, n) && c == After(d, steps, n + 1).cache
    requires AreEntries(d, steps, n, w.cache.order, before)
    ensures AreEntries(d, steps, n + 1, c.order, times)
  {
    OneMore(d, steps, n);
    var s, was := steps[n], w.cache.order;
    var x := OrderStep(d, w, s);
    if c.order == was {
      times := before;
      AllLast(d, steps, n, c, c.order, times);
    } else if x < |was| && c.order == Without(was, x) {
      times := Without(before, x);
      CutEntries(d, steps, n, was, before, x);
      AllLast(d, steps, n, c, c.order, times);
    } else {
      var from := if |was| == CAPACITY then 1 else 0;
      TailEntries(d, steps, n, was, before, from);
      times := before[from..] + [n];
      TailLasts(d, steps, n, c, was[from..], before[from..], w.calls[s.c].path, w.calls[s.c].before);
    }
  }

  lemma CutEntries(d: Disk, steps: seq<Step>, n: nat, was: seq<Path>, before: seq<nat>, x: nat)
    requires n < |steps| && AreEntries(d, steps, n, was, before) && x < |was|
    ensures AreEntries(d, steps, n, Without(was, x), Without(before, x))
  {
    var order, times := Without(was, x), Without(before, x);
    forall a | 0 <= a < |times| ensures EnteredAt(d, steps, n, order[a], times[a]) {
      assert order[a] == was[if a < x then a else a + 1];
    }
  }

  lemma TailEntries(d: Disk, steps: seq<Step>, n: nat, was: seq<Path>, before: seq<nat>, from: nat)
    requires n < |steps| && AreEntries(d, steps, n, was, before) && from <= |was|
    ensures AreEntries(d, steps, n, was[from..], before[from..])
  {
  }

  lemma TailLasts(
    d: Disk, steps: seq<Step>, n: nat, c: Cache, kept: seq<Path>, times: seq<nat>, q: Path, u: Version)
    requires n < |steps| && c == After(d, steps, n + 1).cache && AreEntries(d, steps, n, kept, times)
    requires Proceeds(After(d, steps, n), steps[n], q, u) && q !in After(d, steps, n).cache.entries
    requires c.order == kept + [q] && IsCache(c)
    ensures AreEntries(d, steps, n + 1, c.order, times + [n])
  {
    forall a | 0 <= a < |kept| ensures kept[a] in c.order {
      assert kept[a] == c.order[a];
    }
    AllLast(d, steps, n, c, kept, times);
    NewIsLast(d, steps, n, q, u);
    LastEntry(d, steps, n + 1, kept, times, q, n);
  }

  lemma LastEntry(d: Disk, steps: seq<Step>, n: nat, kept: seq<Path>, times: seq<nat>, q: Path, k: nat)
    requires n <= |steps| && AreEntries(d, steps, n, kept, times) && EnteredAt(d, steps, n, q, k)
    requires forall a :: 0 <= a < |times| ==> times[a] < k
    ensures AreEntries(d, steps, n, kept + [q], times + [k])
  {
  }

  /** The paths that stay keep their times. */
  lemma AllLast(d: Disk, steps: seq<Step>, n: nat, c: Cache, order: seq<Path>, times: seq<nat>)
    requires n < |steps| && c == After(d, steps, n + 1).cache && AreEntries(d, steps, n, order, times)
    requires IsCache(c) && forall a :: 0 <= a < |order| ==> order[a] in c.order
    ensures AreEntries(d, steps, n + 1, order, times) && forall a :: 0 <= a < |times| ==> times[a] < n
  {
    forall a | 0 <= a < |times| ensures EnteredAt(d, steps, n + 1, order[a], times[a]) {
      EntryLasts(d, steps, n, order[a], times[a]);
    }
  }

  lemma NewIsLast(d: Disk, steps: seq<Step>, n: nat, q: Path, u: Version)
    requires n < |steps| && Proceeds(After(d, steps, n), steps[n], q, u) && q !in After(d, steps, n).cache.entries
    ensures EnteredAt(d, steps, n + 1, q, n)
  {
    ReplacedMeans(d, steps, n, q, q, u);
    StartsIffNoEntry(d, steps, n, q, u);
    EntryStep(d, steps, n, q, u, |After(d, steps, n).jobs|);
  }

  /** A path that is evicted came in before every other one that is in the cache. */
  lemma EvictedIsOldest(d: Disk, steps: seq<Step>, n: nat, p: Path, q: Path) returns (k: nat, l: nat)
    requires n < |steps| && Evicted(d, steps, n, p) && q in After(d, steps, n).cache.entries && p != q
    ensures k < l && EnteredAt(d, steps, n, p, k) && EnteredAt(d, steps, n, q, l)
  {
    OneMore(d, steps, n);
    var times := OrderIsByEntering(d, steps, n);
    var order := After(d, steps, n).cache.order;
    var b :| 0 <= b < |order| && order[b] == q;
    k, l := times[0], times[b];
  }
}
