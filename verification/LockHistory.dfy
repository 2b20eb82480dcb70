/**
  What the file at the lock's path and the answers of the launchers mean, told from the steps of a
  run: who took the lock and has not given it back, who died with it, and what a refused launcher met.
*/
module LockHistory {
  import opened Options
  import opened LaunchLock

  ghost predicate YoungUntil(ttl: int, ws: seq<World>, i: nat)
    requires i <= |ws|
  {
    forall j :: 0 <= j < i ==> Young(ttl, ws[j])
  }

  // ---- holding ----

  /** Step `j` gives the lock to `p`: a create in its turn, with nothing at the path. */
  ghost predicate TakesAt(steps: seq<Step>, ws: seq<World>, j: nat, p: Proc)
    requires j < |steps| && j < |ws|
  {
    steps[j] == Create(p) && PcOf(ws[j], p).Opening? && ws[j].file.None?
  }

  predicate GivesUp(s: Step, p: Proc) { s == Release(p) || s == Crash(p) }

  /** Some step gave `p` the lock, with the ticket of that moment, and `p` has neither released it nor died since. */
  ghost predicate TookAndKept(steps: seq<Step>, ws: seq<World>, i: nat, p: Proc, t: Ticket)
    requires i <= |steps| && i <= |ws|
  {
    exists j :: 0 <= j < i && TakesAt(steps, ws, j, p) && ws[j].created == t
                && forall k :: j < k < i ==> !GivesUp(steps[k], p)
  }

  lemma HoldStep(ttl: int, w: World, s: Step, p: Proc, t: Ticket)
    ensures PcOf(Next(ttl, w, s), p) == Holding(t) <==>
            (PcOf(w, p) == Holding(t) && !GivesUp(s, p))
            || (s == Create(p) && PcOf(w, p).Opening? && w.file.None? && w.created == t)
  {
  }

  lemma TookMore(steps: seq<Step>, ws: seq<World>, i: nat, p: Proc, t: Ticket)
    requires i < |steps| && i < |ws|
    ensures TookAndKept(steps, ws, i + 1, p, t) <==>
            (TookAndKept(steps, ws, i, p, t) && !GivesUp(steps[i], p))
            || (TakesAt(steps, ws, i, p) && ws[i].created == t)
  {
    if j :| 0 <= j < i && TakesAt(steps, ws, j, p) && ws[j].created == t
            && forall k :: j < k < i ==> !GivesUp(steps[k], p) {
      if !GivesUp(steps[i], p) { assert forall k :: j < k < i + 1 ==> !GivesUp(steps[k], p); }
    }
  }

  /** Holding the lock means having taken it and not having given it up since: on every run, young or not. */
  lemma {:induction false} HoldsIffTookAndKept(
    ttl: int, steps: seq<Step>, ws: seq<World>, i: nat, p: Proc, t: Ticket)
    requires IsRun(ttl, steps, ws) && i <= |steps|
    ensures PcOf(ws[i], p) == Holding(t) <==> TookAndKept(steps, ws, i, p, t)
  {
    if i > 0 {
      HoldsIffTookAndKept(ttl, steps, ws, i - 1, p, t);
      HoldStep(ttl, ws[i - 1], steps[i - 1], p, t);
      TookMore(steps, ws, i - 1, p, t);
    }
  }

  // ---- the file at the path ----

  ghost predicate FileIs(w: World, t: Ticket) { w.file.Some? && w.file.value.ticket == t }

  ghost predicate Held(w: World) { exists p :: PcOf(w, p).Holding? }

  ghost predicate HeldIn(w: World, t: Ticket) { exists p :: PcOf(w, p) == Holding(t) }

  /** A process died while it held the lock with this ticket. */
  ghost predicate LeftBehind(steps: seq<Step>, ws: seq<World>, i: nat, t: Ticket)
    requires i <= |steps| && i <= |ws|
  {
    exists j, p :: 0 <= j < i && steps[j] == Crash(p) && PcOf(ws[j], p) == Holding(t)
  }

  lemma HeldAfter(ttl: int, w: World, s: Step, t: Ticket)
    ensures HeldIn(Next(ttl, w, s), t) ==> HeldIn(w, t) || t == w.created
    ensures w.created <= Next(ttl, w, s).created
  {
    if p :| PcOf(Next(ttl, w, s), p) == Holding(t) { HoldStep(ttl, w, s, p, t); }
  }

  lemma DeadHoldsNothing(ttl: int, w: World, p: Proc, t: Ticket)
    requires TicketsUnique(w) && PcOf(w, p) == Holding(t)
    ensures !HeldIn(Next(ttl, w, Crash(p)), t) && t < Next(ttl, w, Crash(p)).created
  {
    forall q ensures PcOf(Next(ttl, w, Crash(p)), q) != Holding(t) {
      HoldStep(ttl, w, Crash(p), q, t);
    }
  }

  /** Nobody else ever holds the ticket of a process that died with it. */
  lemma {:induction false} DeadStayUnheld(
    ttl: int, steps: seq<Step>, ws: seq<World>, j: nat, p: Proc, i: nat, t: Ticket)
    requires IsRun(ttl, steps, ws) && j < i <= |steps| && steps[j] == Crash(p) && PcOf(ws[j], p) == Holding(t)
    ensures !HeldIn(ws[i], t) && t < ws[i].created
  {
    assert ws[i] == Next(ttl, ws[i - 1], steps[i - 1]);
    if j == i - 1 {
      TicketsStayUnique(ttl, steps, ws, j);
      DeadHoldsNothing(ttl, ws[j], p, t);
    } else {
      DeadStayUnheld(ttl, steps, ws, j, p, i - 1, t);
      HeldAfter(ttl, ws[i - 1], steps[i - 1], t);
    }
  }

  lemma LeftIsUnheld(ttl: int, steps: seq<Step>, ws: seq<World>, i: nat, t: Ticket)
    requires IsRun(ttl, steps, ws) && i <= |steps| && LeftBehind(steps, ws, i, t)
    ensures !HeldIn(ws[i], t) && t < ws[i].created
  {
    var j, p :| 0 <= j < i && steps[j] == Crash(p) && PcOf(ws[j], p) == Holding(t);
    DeadStayUnheld(ttl, steps, ws, j, p, i, t);
  }

  /**
    While files stay young, a file is at the path exactly if the process that created it still holds
    the lock or died holding it.
  */
  lemma {:induction false} FileIffHeldOrLeft(ttl: int, steps: seq<Step>, ws: seq<World>, i: nat, t: Ticket)
    requires IsRun(ttl, steps, ws) && i <= |steps| && YoungUntil(ttl, ws, i)
    ensures FileIs(ws[i], t) <==> HeldIn(ws[i], t) || LeftBehind(steps, ws, i, t)
  {
    if i > 0 {
      FileIffHeldOrLeft(ttl, steps, ws, i - 1, t);
      YoungRunIsOwned(ttl, steps, ws, i - 1);
      YoungRunIsOwned(ttl, steps, ws, i);
      TicketsStayUnique(ttl, steps, ws, i - 1);
      LeftMore(steps, ws, i - 1, t);
      FileStep(ttl, ws[i - 1], steps[i - 1], t);
      if LeftBehind(steps, ws, i - 1, t) { LeftIsUnheld(ttl, steps, ws, i - 1, t); }
    }
  }

  lemma LeftMore(steps: seq<Step>, ws: seq<World>, i: nat, t: Ticket)
    requires i < |steps| && i < |ws|
    ensures LeftBehind(steps, ws, i + 1, t) <==>
            LeftBehind(steps, ws, i, t) || (steps[i].Crash? && PcOf(ws[i], steps[i].p) == Holding(t))
  {
    if steps[i].Crash? && PcOf(ws[i], steps[i].p) == Holding(t) {
      assert 0 <= i < i + 1 && steps[i] == Crash(steps[i].p);
    }
  }

  lemma FileStep(ttl: int, w: World, s: Step, t: Ticket)
    requires TicketsUnique(w) && HoldersOwnFile(w) && NobodyRemoves(w)
    ensures var w' := Next(ttl, w, s);
            && (FileIs(w', t) && !FileIs(w, t) ==> HeldIn(w', t) && t == w.created)
            && (FileIs(w, t) && !FileIs(w', t) ==> s.Release? && PcOf(w, s.p) == Holding(t) && w'.file.None?)
            && (HeldIn(w', t) ==> FileIs(w', t))
            && (HeldIn(w, t) && !HeldIn(w', t) ==> (s.Release? || s.Crash?) && PcOf(w, s.p) == Holding(t))
  {
    var w' := Next(ttl, w, s);
    if s.Remove? { assert !PcOf(w, s.p).Removing?; }
    if s.Create? && PcOf(w, s.p).Opening? && w.file.None? { assert PcOf(w', s.p) == Holding(w.created); }
    if p :| PcOf(w', p) == Holding(t) { assert PcOf(w, p) == Holding(t) || s == Create(p); }
    if p :| PcOf(w, p) == Holding(t) {
      if !HeldIn(w', t) { assert PcOf(w', p) != Holding(t); }
    }
  }

  /** Releasing the lock empties the path, so that the next one to come can take it. */
  lemma ReleaseFrees(ttl: int, steps: seq<Step>, ws: seq<World>, i: nat, p: Proc)
    requires IsRun(ttl, steps, ws) && i < |steps| && YoungUntil(ttl, ws, i + 1)
    requires steps[i] == Release(p) && PcOf(ws[i], p).Holding?
    ensures ws[i + 1].file.None? && PcOf(ws[i + 1], p).Idle? && !Held(ws[i + 1])
  {
    YoungRunIsOwned(ttl, steps, ws, i);
    YoungRunIsOwned(ttl, steps, ws, i + 1);
    TicketsStayUnique(ttl, steps, ws, i);
    OwnersAreExclusive(ws[i]);
    assert ws[i + 1] == Next(ttl, ws[i], steps[i]);
  }

  ghost predicate HolderDied(steps: seq<Step>, ws: seq<World>, i: nat)
    requires i <= |steps| && i <= |ws|
  {
    exists j, p :: 0 <= j < i && steps[j] == Crash(p) && PcOf(ws[j], p).Holding?
  }

  /** While files stay young the path is taken exactly if somebody holds the lock or a holder has died. */
  lemma PathIsTaken(ttl: int, steps: seq<Step>, ws: seq<World>, i: nat)
    requires IsRun(ttl, steps, ws) && i <= |steps| && YoungUntil(ttl, ws, i)
    ensures ws[i].file.Some? <==> Held(ws[i]) || HolderDied(steps, ws, i)
  {
    if ws[i].file.Some? {
      FileIffHeldOrLeft(ttl, steps, ws, i, ws[i].file.value.ticket);
    }
    if p :| PcOf(ws[i], p).Holding? {
      FileIffHeldOrLeft(ttl, steps, ws, i, PcOf(ws[i], p).ticket);
      assert HeldIn(ws[i], PcOf(ws[i], p).ticket);
    }
    if j, p :| 0 <= j < i && steps[j] == Crash(p) && PcOf(ws[j], p).Holding? {
      FileIffHeldOrLeft(ttl, steps, ws, i, PcOf(ws[j], p).ticket);
      assert LeftBehind(steps, ws, i, PcOf(ws[j], p).ticket);
    }
  }

  /** A launcher's create takes the lock exactly if nobody holds it and no holder has died. */
  lemma CreateTakesIffFree(ttl: int, steps: seq<Step>, ws: seq<World>, i: nat, p: Proc)
    requires IsRun(ttl, steps, ws) && i < |steps| && YoungUntil(ttl, ws, i)
    requires steps[i] == Create(p) && PcOf(ws[i], p).Opening?
    ensures PcOf(ws[i + 1], p).Holding? <==> !Held(ws[i]) && !HolderDied(steps, ws, i)
  {
    PathIsTaken(ttl, steps, ws, i);
  }

  // ---- being refused ----

  predicate Starts(w: World, s: Step, p: Proc) { s == Begin(p) && (PcOf(w, p).Idle? || PcOf(w, p).Denied?) }

  /** Step `j` is a create by `p` that finds a file, in the launch that is still going on at `i`. */
  ghost predicate MetFile(steps: seq<Step>, ws: seq<World>, j: nat, i: nat, p: Proc)
    requires i <= |steps| && i <= |ws|
  {
    && j < i && steps[j] == Create(p) && PcOf(ws[j], p).Opening? && ws[j].file.Some?
    && forall k :: j < k < i ==> !Starts(ws[k], steps[k], p)
  }

  /** Step `j` is a look by `p` at a file that is not too old, in the launch that is still going on at `i`. */
  ghost predicate SawYoung(ttl: int, steps: seq<Step>, ws: seq<World>, j: nat, i: nat, p: Proc)
    requires i <= |steps| && i <= |ws|
  {
    && j < i && steps[j] == Stat(p) && PcOf(ws[j], p).Statting? && ws[j].file.Some? && Young(ttl, ws[j])
    && forall k :: j < k < i ==> !Starts(ws[k], steps[k], p)
  }

  ghost predicate MetOnce(steps: seq<Step>, ws: seq<World>, i: nat, p: Proc)
    requires i <= |steps| && i <= |ws|
  {
    exists j :: MetFile(steps, ws, j, i, p)
  }

  ghost predicate MetTwice(steps: seq<Step>, ws: seq<World>, i: nat, p: Proc)
    requires i <= |steps| && i <= |ws|
  {
    exists j, k :: j < k && MetFile(steps, ws, j, i, p) && MetFile(steps, ws, k, i, p)
  }

  ghost predicate Saw(ttl: int, steps: seq<Step>, ws: seq<World>, i: nat, p: Proc)
    requires i <= |steps| && i <= |ws|
  {
    exists j :: SawYoung(ttl, steps, ws, j, i, p)
  }

  /** What each state of a launcher says about the files it has met in this launch. */
  ghost predicate PcMeans(ttl: int, steps: seq<Step>, ws: seq<World>, i: nat, p: Proc)
    requires i <= |steps| && i < |ws|
  {
    match PcOf(ws[i], p)
    case Opening(a) => a == 0 || (a == 1 && MetOnce(steps, ws, i, p))
    case Statting(a) => (a == 0 && MetOnce(steps, ws, i, p)) || (a == 1 && MetTwice(steps, ws, i, p))
    case Removing(a) => (a == 0 && MetOnce(steps, ws, i, p)) || (a == 1 && MetTwice(steps, ws, i, p))
    case Denied => MetOnce(steps, ws, i, p) && (MetTwice(steps, ws, i, p) || Saw(ttl, steps, ws, i, p))
    case _ => true
  }

  /** What was met stays met until the launcher starts again. */
  lemma MetStays(ttl: int, steps: seq<Step>, ws: seq<World>, i: nat, p: Proc)
    requires i < |steps| && i < |ws| && !Starts(ws[i], steps[i], p)
    ensures MetOnce(steps, ws, i, p) ==> MetOnce(steps, ws, i + 1, p)
    ensures MetTwice(steps, ws, i, p) ==> MetTwice(steps, ws, i + 1, p)
    ensures Saw(ttl, steps, ws, i, p) ==> Saw(ttl, steps, ws, i + 1, p)
    ensures MetFile(steps, ws, i, i + 1, p) && MetOnce(steps, ws, i, p) ==> MetTwice(steps, ws, i + 1, p)
  {
    forall j | MetFile(steps, ws, j, i, p) ensures MetFile(steps, ws, j, i + 1, p) {
    }
    if MetTwice(steps, ws, i, p) {
      var j, k :| j < k && MetFile(steps, ws, j, i, p) && MetFile(steps, ws, k, i, p);
      assert MetFile(steps, ws, j, i + 1, p) && MetFile(steps, ws, k, i + 1, p);
    }
    if j :| SawYoung(ttl, steps, ws, j, i, p) { assert SawYoung(ttl, steps, ws, j, i + 1, p); }
  }

  /**
    On every run: a launcher is refused only after its create met a file and, in the same launch,
    either its look showed that the file was not too old or a second create met a file as well.
  */
  lemma {:induction false} RefusedMeansMet(ttl: int, steps: seq<Step>, ws: seq<World>, i: nat, p: Proc)
    requires IsRun(ttl, steps, ws) && i <= |steps|
    ensures PcMeans(ttl, steps, ws, i, p)
  {
    if i > 0 {
      RefusedMeansMet(ttl, steps, ws, i - 1, p);
      var w, s := ws[i - 1], steps[i - 1];
      assert ws[i] == Next(ttl, w, s);
      if !Starts(w, s, p) { MetStays(ttl, steps, ws, i - 1, p); }
      if s == Create(p) && PcOf(w, p).Opening? && w.file.Some? { assert MetFile(steps, ws, i - 1, i, p); }
      if s == Stat(p) && PcOf(w, p).Statting? && w.file.Some? && Young(ttl, w) {
        assert SawYoung(ttl, steps, ws, i - 1, i, p);
      }
    }
  }

  /** While files stay young a refused launcher met the file of a launcher that held the lock or had died with it. */
  lemma RefusedMeansTaken(ttl: int, steps: seq<Step>, ws: seq<World>, i: nat, p: Proc) returns (j: nat)
    requires IsRun(ttl, steps, ws) && i <= |steps| && YoungUntil(ttl, ws, i) && PcOf(ws[i], p).Denied?
    ensures MetFile(steps, ws, j, i, p) && (Held(ws[j]) || HolderDied(steps, ws, j))
  {
    RefusedMeansMet(ttl, steps, ws, i, p);
    j :| MetFile(steps, ws, j, i, p);
    PathIsTaken(ttl, steps, ws, j);
  }

  // ---- a launcher alone ----

  /** One launch from beginning to end; a step whose turn does not come changes nothing. */
  function Launch(p: Proc): seq<Step> {
    [Begin(p), Create(p)] + [Stat(p), Remove(p)] + [Create(p), Stat(p)]
  }

  /** With nobody interfering, a launch takes the lock exactly if no file is there or the one there is too old. */
  lemma LoneLaunch(ttl: int, w: World, p: Proc)
    requires PcOf(w, p).Idle? || PcOf(w, p).Denied?
    ensures var w' := Then(ttl, w, Launch(p));
            && (PcOf(w', p).Holding? <==> w.file.None? || !Young(ttl, w))
            && (PcOf(w', p).Holding? ==> w'.file == Some(LockFile(w.created, w.now)))
            && (PcOf(w', p).Holding? ==> PcOf(w', p) == Holding(w.created))
            && (!PcOf(w', p).Holding? ==> PcOf(w', p).Denied? && w'.file == w.file)
            && forall q :: q != p ==> PcOf(w', q) == PcOf(w, q)
  {
    var a, b, c := [Begin(p), Create(p)], [Stat(p), Remove(p)], [Create(p), Stat(p)];
    ThenMore(ttl, w, a + b, c);
    ThenMore(ttl, w, a, b);
    ThenTwo(ttl, w, Begin(p), Create(p));
    ThenTwo(ttl, Then(ttl, w, a), Stat(p), Remove(p));
    ThenTwo(ttl, Then(ttl, w, a + b), Create(p), Stat(p));
  }

  /** A holder that goes releases the lock to the next launch, whoever makes it. */
  lemma LockIsPassedOn(ttl: int, steps: seq<Step>, ws: seq<World>, i: nat, p: Proc, q: Proc)
    requires IsRun(ttl, steps, ws) && i < |steps| && YoungUntil(ttl, ws, i + 1)
    requires steps[i] == Release(p) && PcOf(ws[i], p).Holding?
    requires PcOf(ws[i + 1], q).Idle? || PcOf(ws[i + 1], q).Denied?
    ensures PcOf(Then(ttl, ws[i + 1], Launch(q)), q).Holding?
  {
    ReleaseFrees(ttl, steps, ws, i, p);
    LoneLaunch(ttl, ws[i + 1], q);
  }

  /** A launcher that finds the file gone when it looks opens again, and takes the lock if the path is still free. */
  lemma SecondTry(ttl: int, w: World, p: Proc)
    requires PcOf(w, p) == Statting(0) && w.file.None?
    ensures PcOf(Then(ttl, w, [Stat(p), Create(p)]), p).Holding?
  {
    ThenTwo(ttl, w, Stat(p), Create(p));
  }

  /** A create that fails for any other reason ends the launch, which neither holds the lock nor waits for another. */
  lemma FailedLaunch(ttl: int, w: World, p: Proc)
    requires PcOf(w, p).Idle? || PcOf(w, p).Denied?
    ensures Then(ttl, w, [Begin(p), CreateFails(p)]) == At(w, p, Idle)
  {
    ThenTwo(ttl, w, Begin(p), CreateFails(p));
    assert w.pcs[p := Opening(0)][p := Idle] == w.pcs[p := Idle];
  }
}
