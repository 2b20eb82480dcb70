/**
  What becomes of the calls that wait for a hash, and of the hash itself: every call that waits for a
  job gets that job's answer, and a job of an unchanged file that can be read ends with its digest.
*/
module DigestJobs {
  import opened Numbers
  import opened DigestCache
  import opened DigestHistory

  // ---- waiting calls ----

  predicate Settled(w: World, j: JobId) {
    j < |w.jobs| && (w.jobs[j].progress.Hashed? || w.jobs[j].progress.Broken?)
  }

  /** The call is waiting for the job, for this path and stamp. */
  predicate Waits(w: World, c: CallId, p: Path, v: Version, j: JobId) {
    c in w.calls && w.calls[c].Waiting? && w.calls[c].path == p && w.calls[c].before == v && w.calls[c].job == j
  }

  /** The call has the job's answer: its tag, or its failure. */
  predicate HasAnswer(w: World, c: CallId, p: Path, v: Version, j: JobId) {
    && Settled(w, j) && c in w.calls
    && w.calls[c] == if w.jobs[j].progress.Hashed? then Returned(p, v, w.jobs[j].progress.etag) else Threw(p)
  }

  ghost predicate Delivered(d: Disk, steps: seq<Step>, m: nat, n: nat, c: CallId, j: JobId)
    requires n <= |steps|
  {
    exists k :: m <= k < n && steps[k] == Deliver(c) && Settled(After(d, steps, k), j)
  }

  lemma SettledStays(d: Disk, w: World, s: Step, j: JobId)
    requires Settled(w, j)
    ensures Settled(Next(d, w, s), j) && Next(d, w, s).jobs[j] == w.jobs[j]
  {
  }

  lemma WaitingStep(d: Disk, w: World, s: Step, c: CallId, p: Path, v: Version, j: JobId)
    requires Waits(w, c, p, v, j) && j < |w.jobs|
    ensures var w' := Next(d, w, s);
            && j < |w'.jobs|
            && if s == Deliver(c) && Settled(w, j) then HasAnswer(w', c, p, v, j) else Waits(w', c, p, v, j)
  {
  }

  lemma AnswerStays(d: Disk, w: World, s: Step, c: CallId, p: Path, v: Version, j: JobId)
    requires HasAnswer(w, c, p, v, j)
    ensures HasAnswer(Next(d, w, s), c, p, v, j)
  {
    SettledStays(d, w, s, j);
  }

  /** A call goes on waiting exactly until it is resumed with its job settled, and then has the job's answer. */
  lemma {:induction false} AnswerExactly(
    d: Disk, steps: seq<Step>, m: nat, n: nat, c: CallId, p: Path, v: Version, j: JobId)
    requires m <= n <= |steps| && Waits(After(d, steps, m), c, p, v, j)
    ensures j < |After(d, steps, n).jobs|
    ensures if Delivered(d, steps, m, n, c, j) then HasAnswer(After(d, steps, n), c, p, v, j)
            else Waits(After(d, steps, n), c, p, v, j)
  {
    if n == m {
      RunKeepsInv(d, steps[..m]);
      assert CallSound(d, After(d, steps, m), After(d, steps, m).calls[c]);
    } else {
      AnswerExactly(d, steps, m, n - 1, c, p, v, j);
      OneMore(d, steps, n - 1);
      if Delivered(d, steps, m, n - 1, c, j) {
        AnswerStays(d, After(d, steps, n - 1), steps[n - 1], c, p, v, j);
        assert Delivered(d, steps, m, n, c, j);
      } else {
        WaitingStep(d, After(d, steps, n - 1), steps[n - 1], c, p, v, j);
      }
    }
  }

  /** Once one call that waits for a job has returned, every other one has returned the same tag or is still waiting. */
  lemma SharedTag(
    d: Disk, steps: seq<Step>, m: nat, m': nat, n: nat, c: CallId, c': CallId, p: Path, v: Version, j: JobId)
    requires m <= n <= |steps| && m' <= n
    requires Waits(After(d, steps, m), c, p, v, j) && Waits(After(d, steps, m'), c', p, v, j)
    requires c in After(d, steps, n).calls && After(d, steps, n).calls[c].Returned?
    ensures c' in After(d, steps, n).calls
    ensures After(d, steps, n).calls[c'] == After(d, steps, n).calls[c] || Waits(After(d, steps, n), c', p, v, j)
  {
    AnswerExactly(d, steps, m, n, c, p, v, j);
    AnswerExactly(d, steps, m', n, c', p, v, j);
  }

  // ---- a job of an unchanged file ----

  function AskedBy(s: Step, j: JobId): nat {
    if s.Read? && s.j == j then s.n else 0
  }

  /** How many bytes the reads of the job ask for in the steps from `i` up to `n`. */
  function Asked(steps: seq<Step>, i: nat, n: nat, j: JobId): nat
    requires n <= |steps|
  {
    if n <= i then 0 else Asked(steps, i, n - 1, j) + AskedBy(steps[n - 1], j)
  }

  /** The job found the end of its file: it looked after having asked for all of it. */
  ghost predicate EndAt(steps: seq<Step>, i: nat, k: nat, j: JobId, size: nat)
    requires k < |steps|
  {
    i <= k && steps[k] == ReachEnd(j) && Asked(steps, i, k, j) >= size
  }

  ghost predicate EndSeen(steps: seq<Step>, i: nat, n: nat, j: JobId, size: nat)
    requires n <= |steps|
  {
    exists k :: i <= k < n && EndAt(steps, i, k, j, size)
  }

  /** It compared the stamps after that. */
  ghost predicate Compared(steps: seq<Step>, i: nat, n: nat, j: JobId, size: nat)
    requires n <= |steps|
  {
    exists l :: i <= l < n && steps[l] == Restat(j) && EndSeen(steps, i, l, j, size)
  }

  function Fate(d: Disk, whole: seq<int>, ended: bool, compared: bool): Progress {
    if compared then Hashed(d.digest(whole)) else if ended then AtEnd else Reading
  }

  /** The job for version `v` of `p`, of which `asked` bytes were asked for. */
  ghost predicate IsAt(d: Disk, w: World, j: JobId, p: Path, v: Version, asked: nat, progress: Progress) {
    var whole := d.content(p, v);
    j < |w.jobs| && w.jobs[j] == Job(p, v, whole[..Min(|whole|, asked)], progress)
  }

  lemma JobStep(d: Disk, w: World, s: Step, j: JobId, p: Path, v: Version, asked: nat, ended: bool, compared: bool)
    requires var whole := d.content(p, v); IsAt(d, w, j, p, v, asked, Fate(d, whole, ended, compared))
    requires VersionOf(w, p) == v && s != ReadFails(j)
    requires (compared ==> ended) && (ended ==> asked >= |d.content(p, v)|)
    ensures var whole := d.content(p, v);
            var ended' := ended || (s == ReachEnd(j) && asked >= |whole|);
            var compared' := compared || (s == Restat(j) && ended);
            IsAt(d, Next(d, w, s), j, p, v, asked + AskedBy(s, j), Fate(d, whole, ended', compared'))
  {
    var whole := d.content(p, v);
    var data := whole[..Min(|whole|, asked)];
    assert Content(d, w, p) == whole;
    assert Next(d, w, s).jobs[j] == w.jobs[j] || ((s.Read? || s.ReachEnd? || s.Restat?) && s.j == j);
    match s
    case Read(k, x) =>
      if k == j { ReadsOn(whole, asked, x); }
    case ReachEnd(k) =>
      if k == j { assert |data| >= |whole| <==> asked >= |whole|; }
    case Restat(k) =>
      if k == j && ended { assert data == whole; }
    case _ =>
  }

  lemma ReadsOn(whole: seq<int>, asked: nat, n: nat)
    ensures var data := whole[..Min(|whole|, asked)];
            && (|data| < |whole| ==>
                  data + whole[|data|..Min(|data| + n, |whole|)] == whole[..Min(|whole|, asked + n)])
            && (|data| >= |whole| ==> data == whole[..Min(|whole|, asked + n)])
  {
  }

  /** Step `i` starts the job; up to `n` its file does not change and no read of it fails. */
  ghost predicate Undisturbed(d: Disk, steps: seq<Step>, i: nat, n: nat, p: Path, v: Version, j: JobId)
    requires n <= |steps|
  {
    && i < n && StartsJob(d, steps, i, p, v, j) && VersionOf(After(d, steps, i), p) == v
    && forall k :: i < k < n ==> steps[k] != ReadFails(j) && steps[k] != Change(p)
  }

  /** What `JobExactly` says after `n` steps. */
  ghost predicate Reached(d: Disk, steps: seq<Step>, i: nat, n: nat, p: Path, v: Version, j: JobId)
    requires n <= |steps|
  {
    var whole := d.content(p, v);
    && VersionOf(After(d, steps, n), p) == v
    && IsAt(d, After(d, steps, n), j, p, v, Asked(steps, i + 1, n, j),
            Fate(d, whole, EndSeen(steps, i + 1, n, j, |whole|), Compared(steps, i + 1, n, j, |whole|)))
  }

  lemma FreshJob(d: Disk, steps: seq<Step>, i: nat, p: Path, v: Version, j: JobId)
    requires i < |steps| && Undisturbed(d, steps, i, i + 1, p, v, j)
    ensures Reached(d, steps, i, i + 1, p, v, j)
  {
    StartsIffNoEntry(d, steps, i, p, v);
    OneMore(d, steps, i);
    assert d.content(p, v)[..0] == [];
  }

  /** The events of a job, one step on. */
  lemma EventsMore(steps: seq<Step>, i: nat, n: nat, j: JobId, size: nat)
    requires i <= n < |steps|
    ensures EndSeen(steps, i, n + 1, j, size) <==> EndSeen(steps, i, n, j, size) || EndAt(steps, i, n, j, size)
    ensures Compared(steps, i, n + 1, j, size) <==>
            Compared(steps, i, n, j, size) || (steps[n] == Restat(j) && EndSeen(steps, i, n, j, size))
  {
  }

  /** To have compared is to have been at the end, and that is to have asked for everything. */
  lemma {:induction false} EventsInOrder(steps: seq<Step>, i: nat, n: nat, j: JobId, size: nat)
    requires i <= n <= |steps|
    ensures Compared(steps, i, n, j, size) ==> EndSeen(steps, i, n, j, size)
    ensures EndSeen(steps, i, n, j, size) ==> Asked(steps, i, n, j) >= size
  {
    if n > i {
      EventsInOrder(steps, i, n - 1, j, size);
      EventsMore(steps, i, n - 1, j, size);
    }
  }

  lemma OneMoreJobStep(d: Disk, steps: seq<Step>, i: nat, n: nat, p: Path, v: Version, j: JobId)
    requires i < n < |steps| && Reached(d, steps, i, n, p, v, j) && steps[n] != ReadFails(j) && steps[n] != Change(p)
    ensures Reached(d, steps, i, n + 1, p, v, j)
  {
    var size := |d.content(p, v)|;
    EventsInOrder(steps, i + 1, n, j, size);
    EventsMore(steps, i + 1, n, j, size);
    JobStep(d, After(d, steps, n), steps[n], j, p, v, Asked(steps, i + 1, n, j),
            EndSeen(steps, i + 1, n, j, size), Compared(steps, i + 1, n, j, size));
    OneMore(d, steps, n);
    ChangeCounts(d, After(d, steps, n), steps[n], p);
  }

  /**
    A job whose file stays as it is and whose reads do not fail holds exactly as much of the file as
    its reads have asked for, is at the end once it looked after that, and is hashed, with the digest
    of the whole file, once it has compared the stamps after that.
  */
  lemma {:induction false} JobExactly(d: Disk, steps: seq<Step>, i: nat, n: nat, p: Path, v: Version, j: JobId)
    requires n <= |steps| && Undisturbed(d, steps, i, n, p, v, j)
    ensures Reached(d, steps, i, n, p, v, j)
  {
    if n == i + 1 {
      FreshJob(d, steps, i, p, v, j);
    } else {
      JobExactly(d, steps, i, n - 1, p, v, j);
      OneMoreJobStep(d, steps, i, n - 1, p, v, j);
    }
  }

  /** A call waiting for such a job that has compared its stamps returns the digest of the file when it is resumed. */
  lemma WaiterReturnsDigest(
    d: Disk, steps: seq<Step>, i: nat, m: nat, n: nat, c: CallId, p: Path, v: Version, j: JobId)
    requires n < |steps| && Undisturbed(d, steps, i, n, p, v, j) && m <= n
    requires Compared(steps, i + 1, n, j, |d.content(p, v)|)
    requires Waits(After(d, steps, m), c, p, v, j) && steps[n] == Deliver(c)
    ensures var w := After(d, steps, n + 1); c in w.calls && w.calls[c] == Returned(p, v, d.digest(d.content(p, v)))
  {
    JobExactly(d, steps, i, n, p, v, j);
    AnswerExactly(d, steps, m, n, c, p, v, j);
    OneMore(d, steps, n);
  }

  // ---- a call that finds its file hashed ----

  /** A run followed by all the steps of one call. */
  function WithCall(before: seq<Step>, c: CallId, p: Path): seq<Step> {
    before + [Invoke(c, p)] + [Stat(c)] + [Proceed(c)] + [Deliver(c)]
  }

  lemma EntryIsShared(d: Disk, w: World, c: CallId, p: Path, v: Version, j: JobId)
    requires c !in w.calls && HasEntry(w, p, v, j) && VersionOf(w, p) == v
    ensures var w' := Next(d, Next(d, Next(d, w, Invoke(c, p)), Stat(c)), Proceed(c));
            w'.jobs == w.jobs && w'.cache == w.cache && Waits(w', c, p, v, j) && !w'.calls[c].creator
  {
  }

  lemma HashedIsReturned(d: Disk, w: World, c: CallId, p: Path, v: Version, j: JobId)
    requires Waits(w, c, p, v, j) && j < |w.jobs| && w.jobs[j].progress.Hashed?
    ensures var w' := Next(d, w, Deliver(c));
            && w'.jobs == w.jobs && w'.cache == w.cache
            && c in w'.calls && w'.calls[c] == Returned(p, v, w.jobs[j].progress.etag)
  {
  }

  /** With an entry for the present version whose job is hashed, a call reads nothing and returns that job's tag. */
  lemma HashedIsReused(d: Disk, before: seq<Step>, c: CallId, p: Path, v: Version, j: JobId)
    requires var w := Run(d, before);
             && c !in w.calls && HasEntry(w, p, v, j) && VersionOf(w, p) == v
             && j < |w.jobs| && w.jobs[j].progress.Hashed?
    ensures var w, w' := Run(d, before), Run(d, WithCall(before, c, p));
            && w'.jobs == w.jobs && w'.cache == w.cache
            && c in w'.calls && w'.calls[c] == Returned(p, v, d.digest(d.content(p, v)))
  {
    RunKeepsInv(d, before);
    var w := Run(d, before);
    assert JobSound(d, w, w.jobs[j]);
    EntryIsShared(d, w, c, p, v, j);
    RunOfCall(d, before, c, p);
    HashedIsReturned(d, Next(d, Next(d, Next(d, w, Invoke(c, p)), Stat(c)), Proceed(c)), c, p, v, j);
  }

  lemma RunOfCall(d: Disk, before: seq<Step>, c: CallId, p: Path)
    ensures Run(d, WithCall(before, c, p)) ==
            Next(d, Next(d, Next(d, Next(d, Run(d, before), Invoke(c, p)), Stat(c)), Proceed(c)), Deliver(c))
  {
    var a := before + [Invoke(c, p)];
    RunOne(d, before, Invoke(c, p));
    RunOne(d, a, Stat(c));
    RunOne(d, a + [Stat(c)], Proceed(c));
    RunOne(d, a + [Stat(c)] + [Proceed(c)], Deliver(c));
  }

  lemma RunOne(d: Disk, before: seq<Step>, s: Step)
    ensures Run(d, before + [s]) == Next(d, Run(d, before), s)
  {
    assert (before + [s])[..|before|] == before;
  }
}
