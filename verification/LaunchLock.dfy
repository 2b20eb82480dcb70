/**
  The launch lock: a file created exclusively, stolen when it is older than a limit, and removed on
  release.  Any number of processes interleave their file operations; each operation is one step,
  and a step that does not apply changes nothing, so every sequence of steps is a run.

  Checking the age and removing are separate steps, and neither removal looks at whose file it is.
  The lock is exclusive exactly as long as no removal hits the file of another live holder.
*/
module LaunchLock {
  import opened Options

  type Proc = nat
  type Ticket = nat

  /** Attempts are numbered from 0; two are made. */
  const ATTEMPTS: nat := 2

  datatype Pc =
    | Idle
    | Opening(attempt: nat)
    | Statting(attempt: nat)
    | Removing(attempt: nat)
    | Holding(ticket: Ticket)
    | Denied

  /** Every file created gets its own ticket, so that a later file at the same path is a different one. */
  datatype LockFile = LockFile(ticket: Ticket, mtime: int)

  datatype World = World(file: Option<LockFile>, now: int, created: nat, pcs: map<Proc, Pc>)

  datatype Step =
    | Begin(p: Proc)
    | Create(p: Proc)
    | CreateFails(p: Proc)
    | Stat(p: Proc)
    | Remove(p: Proc)
    | Release(p: Proc)
    | Crash(p: Proc)
    | Tick(ms: nat)

  const EMPTY := World(None, 0, 0, map[])

  function PcOf(w: World, p: Proc): Pc {
    Lookup(w.pcs, p, Idle)
  }

  function At(w: World, p: Proc, pc: Pc): World {
    w.(pcs := w.pcs[p := pc])
  }

  function Retry(attempt: nat): Pc {
    if attempt + 1 < ATTEMPTS then Opening(attempt + 1) else Denied
  }

  function Next(ttl: int, w: World, s: Step): World {
    match s
    case Begin(p) =>
      if PcOf(w, p).Idle? || PcOf(w, p).Denied? then At(w, p, Opening(0)) else w
    case Create(p) =>
      if !PcOf(w, p).Opening? then w
      else if w.file.None? then At(w, p, Holding(w.created)).(file := Some(LockFile(w.created, w.now)),
                                                                         created := w.created + 1)
      else At(w, p, Statting(PcOf(w, p).attempt))
    case CreateFails(p) =>
      if PcOf(w, p).Opening? then At(w, p, Idle) else w
    case Stat(p) =>
      if !PcOf(w, p).Statting? then w
      else if w.file.None? then At(w, p, Retry(PcOf(w, p).attempt))
      else if w.now - w.file.value.mtime > ttl then At(w, p, Removing(PcOf(w, p).attempt))
      else At(w, p, Denied)
    case Remove(p) =>
      if PcOf(w, p).Removing? then At(w, p, Retry(PcOf(w, p).attempt)).(file := None) else w
    case Release(p) =>
      if PcOf(w, p).Holding? then At(w, p, Idle).(file := None) else w
    case Crash(p) => At(w, p, Idle)
    case Tick(ms) => w.(now := w.now + ms)
  }

  /** The worlds a sequence of steps goes through. */
  ghost predicate IsRun(ttl: int, steps: seq<Step>, ws: seq<World>) {
    && |ws| == |steps| + 1 && ws[0] == EMPTY
    && forall i :: 0 <= i < |steps| ==> ws[i + 1] == Next(ttl, ws[i], steps[i])
  }

  ghost predicate Exclusive(w: World) {
    forall p, q :: PcOf(w, p).Holding? && PcOf(w, q).Holding? ==> p == q
  }

  /** Every holder's own file is the one at the path. */
  ghost predicate HoldersOwnFile(w: World) {
    forall p :: PcOf(w, p).Holding? ==> w.file.Some? && w.file.value.ticket == PcOf(w, p).ticket
  }

  /** Tickets are handed out once. */
  ghost predicate TicketsUnique(w: World) {
    && (forall p, q :: PcOf(w, p).Holding? && PcOf(w, q).Holding? && PcOf(w, p).ticket == PcOf(w, q).ticket ==> p == q)
    && (forall p :: PcOf(w, p).Holding? ==> PcOf(w, p).ticket < w.created)
    && (w.file.Some? ==> w.file.value.ticket < w.created)
  }

  ghost predicate HoldsCurrentFile(w: World, q: Proc) {
    PcOf(w, q).Holding? && w.file.Some? && w.file.value.ticket == PcOf(w, q).ticket
  }

  /** The step removes the file of some other process that holds the lock. */
  ghost predicate Hazard(w: World, s: Step) {
    && ((s.Remove? && PcOf(w, s.p).Removing?) || (s.Release? && PcOf(w, s.p).Holding?))
    && exists q :: q != s.p && HoldsCurrentFile(w, q)
  }

  lemma NextKeepsTickets(ttl: int, w: World, s: Step)
    requires TicketsUnique(w)
    ensures TicketsUnique(Next(ttl, w, s))
  {
    var w' := Next(ttl, w, s);
    forall p | PcOf(w', p).Holding?
      ensures PcOf(w', p) == PcOf(w, p) || (s == Create(p) && PcOf(w', p).ticket == w.created)
    {
    }
  }

  lemma {:induction false} TicketsStayUnique(ttl: int, steps: seq<Step>, ws: seq<World>, i: nat)
    requires IsRun(ttl, steps, ws) && i <= |steps|
    ensures TicketsUnique(ws[i])
  {
    if i > 0 {
      TicketsStayUnique(ttl, steps, ws, i - 1);
      NextKeepsTickets(ttl, ws[i - 1], steps[i - 1]);
    }
  }

  /** Owning the file is kept by exactly the steps that are not hazards. */
  lemma OwnershipStep(ttl: int, w: World, s: Step)
    requires TicketsUnique(w) && HoldersOwnFile(w)
    ensures HoldersOwnFile(Next(ttl, w, s)) <==> !Hazard(w, s)
  {
    var w' := Next(ttl, w, s);
    forall q | PcOf(w', q).Holding? ensures PcOf(w', q) == PcOf(w, q) || s == Create(q) {
    }
    if Hazard(w, s) {
      var q :| q != s.p && HoldsCurrentFile(w, q);
      assert PcOf(w', q) == PcOf(w, q);
    } else {
      forall q | PcOf(w', q).Holding? ensures w'.file.Some? && w'.file.value.ticket == PcOf(w', q).ticket {
        if PcOf(w, q).Holding? { assert HoldsCurrentFile(w, q); }
      }
    }
  }

  ghost predicate OwnedThrough(ws: seq<World>, n: nat)
    requires n < |ws|
  {
    forall i :: 0 <= i <= n ==> HoldersOwnFile(ws[i])
  }

  ghost predicate CleanUpTo(ws: seq<World>, steps: seq<Step>, n: nat)
    requires n <= |steps| && n <= |ws|
  {
    forall i :: 0 <= i < n ==> !Hazard(ws[i], steps[i])
  }

  /**
    Over every run, of any number of processes: each holder owns the file at the path in every
    state exactly when no step removed the file of another holder.
  */
  lemma {:induction false} OwnershipIffNoHazard(ttl: int, steps: seq<Step>, ws: seq<World>, n: nat)
    requires IsRun(ttl, steps, ws) && n <= |steps|
    ensures OwnedThrough(ws, n) <==> CleanUpTo(ws, steps, n)
  {
    if n == 0 {
      assert HoldersOwnFile(ws[0]);
    } else {
      OwnershipIffNoHazard(ttl, steps, ws, n - 1);
      TicketsStayUnique(ttl, steps, ws, n - 1);
      if OwnedThrough(ws, n - 1) {
        assert HoldersOwnFile(ws[n - 1]) && CleanUpTo(ws, steps, n - 1);
        OwnershipStep(ttl, ws[n - 1], steps[n - 1]);
        assert HoldersOwnFile(ws[n]) <==> !Hazard(ws[n - 1], steps[n - 1]);
      }
    }
  }

  lemma OwnersAreExclusive(w: World)
    requires TicketsUnique(w) && HoldersOwnFile(w)
    ensures Exclusive(w)
  {
  }

  // ---- runs in which no lock file gets old ----

  predicate Young(ttl: int, w: World) {
    w.file.Some? ==> w.now - w.file.value.mtime <= ttl
  }

  ghost predicate NobodyRemoves(w: World) {
    forall p :: !PcOf(w, p).Removing?
  }

  lemma YoungNextRemovesNothing(ttl: int, w: World, s: Step)
    requires NobodyRemoves(w) && Young(ttl, w)
    ensures NobodyRemoves(Next(ttl, w, s))
  {
    var w' := Next(ttl, w, s);
    forall p ensures !PcOf(w', p).Removing? {
      assert !PcOf(w, p).Removing?;
    }
  }

  /** While every file is young nobody gets as far as removing one, and every holder keeps its own. */
  lemma {:induction false} YoungRunIsOwned(ttl: int, steps: seq<Step>, ws: seq<World>, i: nat)
    requires IsRun(ttl, steps, ws) && i <= |steps|
    requires forall j :: 0 <= j < i ==> Young(ttl, ws[j])
    ensures NobodyRemoves(ws[i]) && HoldersOwnFile(ws[i])
  {
    if i > 0 {
      YoungRunIsOwned(ttl, steps, ws, i - 1);
      TicketsStayUnique(ttl, steps, ws, i - 1);
      YoungNextRemovesNothing(ttl, ws[i - 1], steps[i - 1]);
      OwnedNeverHazardous(ws[i - 1], steps[i - 1]);
      OwnershipStep(ttl, ws[i - 1], steps[i - 1]);
    }
  }

  lemma OwnedNeverHazardous(w: World, s: Step)
    requires NobodyRemoves(w) && HoldersOwnFile(w) && TicketsUnique(w)
    ensures !Hazard(w, s)
  {
    if s.Remove? { assert !PcOf(w, s.p).Removing?; }
  }

  /** At most one process holds the lock, in every state of a run whose lock files stay young. */
  lemma MutualExclusion(ttl: int, steps: seq<Step>, ws: seq<World>, i: nat)
    requires IsRun(ttl, steps, ws) && i <= |steps|
    requires forall j :: 0 <= j < i ==> Young(ttl, ws[j])
    ensures Exclusive(ws[i])
  {
    YoungRunIsOwned(ttl, steps, ws, i);
    TicketsStayUnique(ttl, steps, ws, i);
    OwnersAreExclusive(ws[i]);
  }

  // ---- why the assumption is needed ----

  /** Both processes get as far as removing a stale file. */
  lemma BothFindStale(ttl: int, w: World, p: Proc, q: Proc) returns (w6: World)
    requires w.file.Some? && !Young(ttl, w) && p != q && PcOf(w, p).Idle? && PcOf(w, q).Idle?
    ensures w6 == Next(ttl, Next(ttl, Next(ttl, Next(ttl, Next(ttl, Next(ttl, w,
                    Begin(p)), Create(p)), Stat(p)), Begin(q)), Create(q)), Stat(q))
    ensures PcOf(w6, p) == PcOf(w6, q) == Removing(0) && w6.now == w.now
  {
    var w1 := Next(ttl, w, Begin(p));
    var w2 := Next(ttl, w1, Create(p));
    var w3 := Next(ttl, w2, Stat(p));
    assert PcOf(w3, p) == Removing(0) && PcOf(w3, q).Idle? && w3.file == w.file;
    var w4 := Next(ttl, w3, Begin(q));
    var w5 := Next(ttl, w4, Create(q));
    w6 := Next(ttl, w5, Stat(q));
  }

  /** The slower of two removers takes away the lock the faster one has made in the meantime. */
  lemma SlowerRemoverCollides(ttl: int, w: World, p: Proc, q: Proc) returns (w2: World, w4: World)
    requires ttl >= 0 && p != q && PcOf(w, p) == PcOf(w, q) == Removing(0)
    ensures w2 == Next(ttl, Next(ttl, w, Remove(p)), Create(p)) && Hazard(w2, Remove(q))
    ensures w4 == Next(ttl, Next(ttl, w2, Remove(q)), Create(q))
    ensures PcOf(w4, p).Holding? && PcOf(w4, q).Holding? && !Exclusive(w4)
    ensures Young(ttl, w2) && Young(ttl, w4)
  {
    var w1 := Next(ttl, w, Remove(p));
    w2 := Next(ttl, w1, Create(p));
    assert HoldsCurrentFile(w2, p) && PcOf(w2, q) == Removing(0);
    var w3 := Next(ttl, w2, Remove(q));
    w4 := Next(ttl, w3, Create(q));
  }

  /**
    From any state with a stale lock file and two idle processes, ten steps lead to both holding the
    lock, although neither's file is older than the limit: stealing is not exclusive.
  */
  lemma StealersCollide(ttl: int, w: World, p: Proc, q: Proc) returns (w6: World, w8: World, w10: World)
    requires ttl >= 0 && w.file.Some? && !Young(ttl, w) && p != q && PcOf(w, p).Idle? && PcOf(w, q).Idle?
    ensures w6 == Next(ttl, Next(ttl, Next(ttl, Next(ttl, Next(ttl, Next(ttl, w,
                    Begin(p)), Create(p)), Stat(p)), Begin(q)), Create(q)), Stat(q))
    ensures w8 == Next(ttl, Next(ttl, w6, Remove(p)), Create(p))
    ensures w10 == Next(ttl, Next(ttl, w8, Remove(q)), Create(q))
    ensures !Exclusive(w10) && Young(ttl, w10)
  {
    w6 := BothFindStale(ttl, w, p, q);
    w8, w10 := SlowerRemoverCollides(ttl, w6, p, q);
  }

  // ---- the stale state, and the collision, are reached ----

  /** A run taken further by `more`, through the worlds `next` goes through from its last one. */
  lemma {:induction false} Continued(
    ttl: int, steps: seq<Step>, ws: seq<World>, more: seq<Step>) returns (ws': seq<World>)
    requires IsRun(ttl, steps, ws)
    ensures IsRun(ttl, steps + more, ws') && ws'[|steps + more|] == Then(ttl, ws[|steps|], more)
  {
    if more == [] {
      ws' := ws;
      assert steps + more == steps;
    } else {
      var n := |more| - 1;
      var before := Continued(ttl, steps, ws, more[..n]);
      ws' := before + [Next(ttl, before[|steps| + n], more[n])];
      assert steps + more == steps + more[..n] + [more[n]];
    }
  }

  function Then(ttl: int, w: World, steps: seq<Step>): World {
    if steps == [] then w else Next(ttl, Then(ttl, w, steps[..|steps| - 1]), steps[|steps| - 1])
  }

  lemma {:induction false} ThenMore(ttl: int, w: World, a: seq<Step>, b: seq<Step>)
    ensures Then(ttl, w, a + b) == Then(ttl, Then(ttl, w, a), b)
  {
    if b == [] {
      assert a + b == a;
    } else {
      assert (a + b)[..|a + b| - 1] == a + b[..|b| - 1];
      ThenMore(ttl, w, a, b[..|b| - 1]);
    }
  }

  lemma ThenTwo(ttl: int, w: World, x: Step, y: Step)
    ensures Then(ttl, w, [x, y]) == Next(ttl, Next(ttl, w, x), y)
  {
    assert [x, y][..1] == [x] && [x][..0] == [];
    assert Then(ttl, w, [x]) == Next(ttl, Then(ttl, w, []), x);
  }

  /** A launcher that dies with the lock leaves a file that in time is older than the limit. */
  lemma StaleFileIsReached(ttl: nat, r: Proc, w: World)
    requires w == Then(ttl, EMPTY, [Begin(r), Create(r)] + [Crash(r), Tick(ttl + 1)])
    ensures w.file.Some? && !Young(ttl, w) && forall p :: PcOf(w, p).Idle?
  {
    ThenMore(ttl, EMPTY, [Begin(r), Create(r)], [Crash(r), Tick(ttl + 1)]);
    ThenTwo(ttl, EMPTY, Begin(r), Create(r));
    ThenTwo(ttl, Then(ttl, EMPTY, [Begin(r), Create(r)]), Crash(r), Tick(ttl + 1));
  }

  /** The ten steps of two stealers. */
  function Stealing(p: Proc, q: Proc): seq<Step> {
    [Begin(p), Create(p)] + [Stat(p), Begin(q)] + [Create(q), Stat(q)] + [Remove(p), Create(p)] + [Remove(q), Create(q)]
  }

  lemma StealingCollides(ttl: nat, w: World, p: Proc, q: Proc)
    requires w.file.Some? && !Young(ttl, w) && p != q && PcOf(w, p).Idle? && PcOf(w, q).Idle?
    ensures !Exclusive(Then(ttl, w, Stealing(p, q))) && Young(ttl, Then(ttl, w, Stealing(p, q)))
  {
    var a, b, c, d, e := [Begin(p), Create(p)], [Stat(p), Begin(q)], [Create(q), Stat(q)], [Remove(p), Create(p)],
        [Remove(q), Create(q)];
    ThenMore(ttl, w, a + b + c + d, e);
    ThenMore(ttl, w, a + b + c, d);
    ThenMore(ttl, w, a + b, c);
    ThenMore(ttl, w, a, b);
    ThenTwo(ttl, w, Begin(p), Create(p));
    ThenTwo(ttl, Then(ttl, w, a), Stat(p), Begin(q));
    ThenTwo(ttl, Then(ttl, w, a + b), Create(q), Stat(q));
    ThenTwo(ttl, Then(ttl, w, a + b + c), Remove(p), Create(p));
    ThenTwo(ttl, Then(ttl, w, a + b + c + d), Remove(q), Create(q));
    var w6, w8, w10 := StealersCollide(ttl, w, p, q);
  }

  /** For every limit, some run from no lock at all ends with two holders. */
  lemma CollisionIsReached(ttl: nat, p: Proc, q: Proc) returns (steps: seq<Step>, ws: seq<World>)
    requires p != q
    ensures IsRun(ttl, steps, ws) && !Exclusive(ws[|steps|])
  {
    var start := [Begin(p), Create(p)] + [Crash(p), Tick(ttl + 1)];
    StaleFileIsReached(ttl, p, Then(ttl, EMPTY, start));
    StealingCollides(ttl, Then(ttl, EMPTY, start), p, q);
    ThenMore(ttl, EMPTY, start, Stealing(p, q));
    steps := start + Stealing(p, q);
    ws := Continued(ttl, [], [EMPTY], steps);
    assert [] + steps == steps;
  }
}
