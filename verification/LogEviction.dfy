/**
  Keeping a log directory within an age and a size: the newest files of every directory are kept,
  the others are deleted oldest first while they are too old or the total is too large.
*/
module LogEviction {
  import opened SetSums

  datatype File = File(path: string, dir: string, size: nat, mtime: real, isLog: bool)

  datatype Limits = Limits(maxAgeMs: real, maxBytes: real, keepRecent: real)

  /** What deleting a file comes to: a file that changed or cannot be touched is skipped, any other error is raised. */
  datatype Fate = Removed | Skipped | Fatal

  /**
    The files to consider, newest first, the paths to keep, the size of all files, and what each
    deletion would come to.
  */
  datatype Job = Job(files: seq<File>, kept: set<string>, total: int, now: real, limits: Limits, dryRun: bool,
                         fate: File -> Fate)

  /** The files deleted so far, by index, oldest first, their size, and whether an error has ended the run. */
  datatype Progress = Progress(gone: seq<nat>, freed: nat, failed: bool)

  function TotalSize(files: seq<File>): nat {
    if files == [] then 0 else TotalSize(files[..|files| - 1]) + files[|files| - 1].size
  }

  function Logs(files: seq<File>): seq<File> {
    if files == [] then []
    else Logs(files[..|files| - 1]) + if files[|files| - 1].isLog then [files[|files| - 1]] else []
  }

  /** In order of modification time, the newest first. */
  ghost predicate NewestFirst(files: seq<File>) {
    forall a, b :: 0 <= a < b < |files| ==> files[a].mtime >= files[b].mtime
  }

  lemma {:induction false} LogsStayInOrder(files: seq<File>)
    requires NewestFirst(files)
    ensures NewestFirst(Logs(files)) && forall x :: x in Logs(files) ==> x in files
  {
    if files != [] {
      var n := |files| - 1;
      LogsStayInOrder(files[..n]);
      forall x | x in Logs(files[..n]) ensures x.mtime >= files[n].mtime {
        var a :| 0 <= a < n && files[..n][a] == x;
        assert files[a] == x;
      }
    }
  }

  /** How many of the first `n` files are in `dir`. */
  function CountIn(files: seq<File>, dir: string, n: nat): nat
    requires n <= |files|
  {
    if n == 0 then 0 else CountIn(files, dir, n - 1) + if files[n - 1].dir == dir then 1 else 0
  }

  /** Among the newest of its directory. */
  predicate Recent(files: seq<File>, keep: real, i: nat)
    requires i < |files|
  {
    CountIn(files, files[i].dir, i) as real < keep
  }

  ghost function KeptPaths(files: seq<File>, keep: real, n: nat): set<string>
    requires n <= |files|
  {
    set i | 0 <= i < n && Recent(files, keep, i) :: files[i].path
  }

  predicate Protected(j: Job, i: nat)
    requires i < |j.files|
  {
    j.files[i].path in j.kept
  }

  predicate TooOld(j: Job, i: nat)
    requires i < |j.files|
  {
    j.now - j.files[i].mtime > j.limits.maxAgeMs
  }

  predicate OverBudget(j: Job, freed: nat) {
    (j.total - freed) as real > j.limits.maxBytes
  }

  function FateOf(j: Job, i: nat): Fate
    requires i < |j.files|
  {
    if j.dryRun then Removed else j.fate(j.files[i])
  }

  /** Unprotected, and too old or, `freed` bytes into the run, part of too large a total. */
  predicate Chosen(j: Job, i: nat, freed: nat)
    requires i < |j.files|
  {
    !Protected(j, i) && (TooOld(j, i) || OverBudget(j, freed))
  }

  /** The run from the oldest file down to file `n`. */
  ghost function From(j: Job, n: nat): Progress
    requires n <= |j.files|
    decreases |j.files| - n
  {
    if n == |j.files| then Progress([], 0, false)
    else
      var p := From(j, n + 1);
      if p.failed || !Chosen(j, n, p.freed) then p
      else
        match FateOf(j, n)
        case Removed => Progress(p.gone + [n], p.freed + j.files[n].size, false)
        case Skipped => p
        case Fatal => p.(failed := true)
  }

  /** The bytes freed when file `i`'s turn comes. */
  ghost function FreedBefore(j: Job, i: nat): nat
    requires i < |j.files|
  {
    From(j, i + 1).freed
  }

  ghost predicate InRange(files: seq<File>, gone: seq<nat>) {
    forall k :: 0 <= k < |gone| ==> gone[k] < |files|
  }

  function SizeAt(files: seq<File>, i: nat): nat { if i < |files| then files[i].size else 0 }

  ghost function SizesOf(files: seq<File>, gone: seq<nat>): nat {
    if gone == [] then 0 else SizesOf(files, gone[..|gone| - 1]) + SizeAt(files, gone[|gone| - 1])
  }

  ghost function PathsOf(files: seq<File>, gone: seq<nat>): seq<string>
    requires InRange(files, gone)
  {
    if gone == [] then [] else PathsOf(files, gone[..|gone| - 1]) + [files[gone[|gone| - 1]].path]
  }

  // ---- the procedure ----

  datatype Report = BadLimits | Raised | Done(deleted: seq<string>, totalFreed: nat)

  method SelectKept(files: seq<File>, keep: real) returns (kept: set<string>)
    ensures kept == KeptPaths(files, keep, |files|)
  {
    kept := {};
    var perDirectory: map<string, nat> := map[];
    for i := 0 to |files|
      invariant kept == KeptPaths(files, keep, i)
      invariant forall d :: (if d in perDirectory then perDirectory[d] else 0) == CountIn(files, d, i)
    {
      var dir := files[i].dir;
      var count := if dir in perDirectory then perDirectory[dir] else 0;
      KeptOfMore(files, keep, i);
      if count as real < keep { kept := kept + {files[i].path}; }
      perDirectory := perDirectory[dir := count + 1];
    }
  }

  lemma KeptOfMore(files: seq<File>, keep: real, i: nat)
    requires i < |files|
    ensures KeptPaths(files, keep, i + 1) == KeptPaths(files, keep, i) +
            if Recent(files, keep, i) then {files[i].path} else {}
  {
  }

  method Evict(j: Job) returns (deleted: seq<string>, p: Progress)
    ensures p == From(j, 0) && InRange(j.files, p.gone)
    ensures deleted == PathsOf(j.files, p.gone)
  {
    deleted, p := [], Progress([], 0, false);
    var n := |j.files|;
    while n > 0
      invariant 0 <= n <= |j.files| && !p.failed && p == From(j, n)
      invariant InRange(j.files, p.gone) && deleted == PathsOf(j.files, p.gone)
    {
      n := n - 1;
      if Chosen(j, n, p.freed) {
        if !j.dryRun {
          match j.fate(j.files[n]) {
            case Removed =>
            case Skipped => continue;
            case Fatal =>
              FailureStays(j, n, 0);
              p := p.(failed := true);
              return;
          }
        }
        assert (p.gone + [n])[..|p.gone|] == p.gone;
        deleted := deleted + [j.files[n].path];
        p := Progress(p.gone + [n], p.freed + j.files[n].size, false);
      }
    }
  }

  lemma {:induction false} FailureStays(j: Job, n: nat, m: nat)
    requires m <= n <= |j.files| && From(j, n).failed
    ensures From(j, m) == From(j, n)
    decreases n - m
  {
    if m < n { FailureStays(j, n, m + 1); }
  }

  /** `files` is the listing in order of time. */
  method Cleanup(
    listed: seq<File>, files: seq<File>, now: real, maxAgeDays: real, maxTotalMB: real, keepRecent: real,
    dryRun: bool, fate: File -> Fate)
    returns (r: Report, ghost gone: seq<nat>)
    requires multiset(files) == multiset(listed) && NewestFirst(files)
    ensures r == BadLimits <==> maxAgeDays < 0.0 || maxTotalMB < 0.0 || keepRecent < 0.0
    ensures var j := JobFor(files, now, maxAgeDays, maxTotalMB, keepRecent, dryRun, fate);
            r != BadLimits ==>
              && Admissible(j) && gone == From(j, 0).gone && InRange(j.files, gone)
              && r == if From(j, 0).failed then Raised else Done(PathsOf(j.files, gone), From(j, 0).freed)
    ensures r == BadLimits ==> gone == []
  {
    if maxAgeDays < 0.0 || maxTotalMB < 0.0 || keepRecent < 0.0 { return BadLimits, []; }
    var total, logs: seq<File> := 0, [];
    for i := 0 to |files|
      invariant total == TotalSize(files[..i]) && logs == Logs(files[..i])
    {
      assert files[..i + 1][..i] == files[..i];
      total := total + files[i].size;
      if files[i].isLog { logs := logs + [files[i]]; }
    }
    assert files[..|files|] == files;
    LogsStayInOrder(files);
    var kept := SelectKept(logs, keepRecent);
    var j := Job(logs, kept, total, now, Limits(maxAgeDays * 86400000.0, maxTotalMB * 1048576.0, keepRecent), dryRun,
        fate);
    var deleted, p := Evict(j);
    gone := p.gone;
    r := if p.failed then Raised else Done(deleted, p.freed);
  }

  /**
    Days and megabytes in milliseconds and bytes; only logs are candidates, but every file counts towards the
    total.
  */
  ghost function JobFor(
    files: seq<File>, now: real, maxAgeDays: real, maxTotalMB: real, keepRecent: real, dryRun: bool,
    fate: File -> Fate): Job {
    Job(Logs(files), KeptPaths(Logs(files), keepRecent, |Logs(files)|), TotalSize(files), now,
        Limits(maxAgeDays * 86400000.0, maxTotalMB * 1048576.0, keepRecent), dryRun, fate)
  }

  // ---- what a run guarantees ----

  lemma {:induction false} GoneWasChosen(j: Job, n: nat, i: nat)
    requires n <= |j.files| && i in From(j, n).gone
    ensures n <= i < |j.files| && Chosen(j, i, FreedBefore(j, i)) && FateOf(j, i) == Removed
    decreases |j.files| - n
  {
    if n < |j.files| && i in From(j, n + 1).gone { GoneWasChosen(j, n + 1, i); }
  }

  /** The candidates are in order of time, and the paths kept are those of the newest of each directory. */
  ghost predicate Admissible(j: Job) {
    NewestFirst(j.files) && j.kept == KeptPaths(j.files, j.limits.keepRecent, |j.files|)
  }

  ghost function InDirectory(files: seq<File>, dir: string, n: nat): set<nat>
    requires n <= |files|
  {
    set m: nat | m < n && files[m].dir == dir
  }

  lemma {:induction false} CountIsSize(files: seq<File>, dir: string, n: nat)
    requires n <= |files|
    ensures CountIn(files, dir, n) == |InDirectory(files, dir, n)|
  {
    if n > 0 {
      CountIsSize(files, dir, n - 1);
      assert InDirectory(files, dir, n) ==
             InDirectory(files, dir, n - 1) + if files[n - 1].dir == dir then {n - 1} else {};
    }
  }

  /** The other candidates of its directory that are not older than candidate `i`. */
  ghost function NotOlder(files: seq<File>, i: nat): set<nat>
    requires i < |files|
  {
    set m: nat | m < |files| && m != i && files[m].dir == files[i].dir && files[m].mtime >= files[i].mtime
  }

  lemma FewNotOlderIsRecent(files: seq<File>, keep: real, i: nat)
    requires NewestFirst(files) && i < |files| && |NotOlder(files, i)| as real < keep
    ensures Recent(files, keep, i)
  {
    CountIsSize(files, files[i].dir, i);
    SubsetSize(InDirectory(files, files[i].dir, i), NotOlder(files, i));
  }

  /**
    A candidate with fewer than the kept number of others in its directory at least as new survives,
    whatever the total and the errors.
  */
  lemma NewestSurvive(j: Job, i: nat)
    requires Admissible(j) && i < |j.files| && |NotOlder(j.files, i)| as real < j.limits.keepRecent
    ensures i !in From(j, 0).gone
  {
    FewNotOlderIsRecent(j.files, j.limits.keepRecent, i);
    if i in From(j, 0).gone { GoneWasChosen(j, 0, i); }
  }

  /** Where no two files share a path, only the newest are protected. */
  lemma ProtectedIsRecent(j: Job, i: nat)
    requires Admissible(j)
    requires i < |j.files| && forall a, b :: 0 <= a < b < |j.files| ==> j.files[a].path != j.files[b].path
    ensures Protected(j, i) <==> Recent(j.files, j.limits.keepRecent, i)
  {
  }

  lemma {:induction false} GoneDescends(j: Job, n: nat)
    requires n <= |j.files|
    ensures forall k :: 0 <= k < |From(j, n).gone| ==> n <= From(j, n).gone[k] < |j.files|
    ensures forall a, b :: 0 <= a < b < |From(j, n).gone| ==> From(j, n).gone[a] > From(j, n).gone[b]
    decreases |j.files| - n
  {
    if n < |j.files| { GoneDescends(j, n + 1); }
  }

  /** The files deleted are all different, and none is deleted before an older one that is. */
  lemma GoneOldestFirst(j: Job, a: nat, b: nat)
    requires Admissible(j) && a < b < |From(j, 0).gone|
    ensures var x, y := From(j, 0).gone[a], From(j, 0).gone[b];
            x != y && x < |j.files| && y < |j.files| && j.files[x].mtime <= j.files[y].mtime
  {
    GoneDescends(j, 0);
  }

  lemma SizesOfMore(files: seq<File>, gone: seq<nat>, n: nat)
    ensures SizesOf(files, gone + [n]) == SizesOf(files, gone) + SizeAt(files, n)
  {
    assert (gone + [n])[..|gone|] == gone;
  }

  lemma OneTurn(j: Job, n: nat, p: Progress, q: Progress)
    requires n < |j.files| && p == From(j, n + 1) && q == From(j, n)
    ensures (q.gone == p.gone && q.freed == p.freed)
            || (q.gone == p.gone + [n] && q.freed == p.freed + SizeAt(j.files, n))
  {
  }

  /** The bytes freed are the sizes of the files deleted. */
  lemma {:induction false} FreedIsDeleted(j: Job, n: nat, p: Progress)
    requires n <= |j.files| && p == From(j, n)
    ensures p.freed == SizesOf(j.files, p.gone)
    decreases |j.files| - n
  {
    if n < |j.files| {
      var q := From(j, n + 1);
      OneTurn(j, n, q, p);
      FreedIsDeleted(j, n + 1, q);
      SizesOfMore(j.files, q.gone, n);
    }
  }

  lemma {:induction false} GoneStaysGone(j: Job, m: nat, n: nat, i: nat)
    requires m <= n <= |j.files|
    ensures From(j, m).freed >= From(j, n).freed
    ensures i in From(j, n).gone ==> i in From(j, m).gone
    decreases n - m
  {
    if m < n { GoneStaysGone(j, m + 1, n, i); }
  }

  /**
    In a run that no error ends, a candidate is deleted exactly when it is unprotected, too old or met
    while the total was over budget, and its deletion was not skipped.
  */
  lemma GoneExactly(j: Job, i: nat)
    requires i < |j.files| && !From(j, 0).failed
    ensures i in From(j, 0).gone <==> Chosen(j, i, FreedBefore(j, i)) && FateOf(j, i) == Removed
    ensures Chosen(j, i, FreedBefore(j, i)) ==> FateOf(j, i) != Fatal
  {
    if From(j, i).failed { FailureStays(j, i, 0); }
    if i in From(j, 0).gone {
      GoneWasChosen(j, 0, i);
    } else {
      GoneStaysGone(j, 0, i, i);
    }
  }

  /** A run that ends over budget has left only what is protected or could not be deleted. */
  lemma OverBudgetMeansProtected(j: Job, i: nat)
    requires i < |j.files| && !From(j, 0).failed && OverBudget(j, From(j, 0).freed)
    requires i !in From(j, 0).gone
    ensures Protected(j, i) || FateOf(j, i) == Skipped
  {
    GoneExactly(j, i);
    GoneStaysGone(j, 0, i + 1, i);
  }

  /** Where nothing is skipped, the run ends within budget or with every survivor protected. */
  lemma BudgetOrProtected(j: Job)
    requires !From(j, 0).failed && forall i :: 0 <= i < |j.files| ==> FateOf(j, i) != Skipped
    ensures OverBudget(j, From(j, 0).freed) ==>
            forall i :: 0 <= i < |j.files| && i !in From(j, 0).gone ==> Protected(j, i)
  {
    if OverBudget(j, From(j, 0).freed) {
      forall i | 0 <= i < |j.files| && i !in From(j, 0).gone ensures Protected(j, i) {
        OverBudgetMeansProtected(j, i);
      }
    }
  }

  /** Candidate `i` was met after every later one that may go had gone. */
  lemma LaterGoneFirst(j: Job, i: nat, k: nat)
    requires i in From(j, 0).gone && !From(j, 0).failed && i < k < |j.files| && !TooOld(j, i)
    ensures OverBudget(j, FreedBefore(j, i))
    ensures Protected(j, k) || k in From(j, 0).gone || FateOf(j, k) == Skipped
  {
    GoneWasChosen(j, 0, i);
    GoneExactly(j, k);
    GoneStaysGone(j, i + 1, k + 1, k);
  }

  /**
    A file within the age limit goes only while the total is over budget, and only where every strictly
    older candidate that is not protected goes too or could not be deleted.
  */
  lemma YoungGoLast(j: Job, i: nat, k: nat)
    requires Admissible(j) && !From(j, 0).failed && i in From(j, 0).gone
    requires i < |j.files| && k < |j.files| && !TooOld(j, i) && j.files[k].mtime < j.files[i].mtime
    ensures OverBudget(j, FreedBefore(j, i))
    ensures Protected(j, k) || k in From(j, 0).gone || FateOf(j, k) == Skipped
  {
    LaterGoneFirst(j, i, k);
  }

  /** A dry run reports what a real one deletes, where every deletion succeeds. */
  lemma {:induction false} DryRunPredicts(j: Job, n: nat)
    requires n <= |j.files| && forall i :: 0 <= i < |j.files| ==> j.fate(j.files[i]) == Removed
    ensures From(j.(dryRun := true), n) == From(j, n)
    decreases |j.files| - n
  {
    if n < |j.files| { DryRunPredicts(j, n + 1); }
  }

  // ---- the same from the listing and the limits alone ----

  ghost function SizesIn(files: seq<File>, s: set<nat>): int {
    Sum<nat>(s, (i: nat) => SizeAt(files, i))
  }

  function Below(n: nat): (s: set<nat>)
    ensures forall i: nat :: i in s <==> i < n
  {
    if n == 0 then {} else Below(n - 1) + {n - 1}
  }

  /** The total is the size of all the files listed, logs or not. */
  lemma {:induction false} TotalIsSum(files: seq<File>, n: nat)
    requires n <= |files|
    ensures TotalSize(files[..n]) == SizesIn(files, Below(n))
  {
    if n > 0 {
      TotalIsSum(files, n - 1);
      assert files[..n][..n - 1] == files[..n - 1];
      SumPick<nat>(Below(n), (i: nat) => SizeAt(files, i), n - 1);
      assert Below(n) - {n - 1} == Below(n - 1);
    }
  }

  /** The candidates are the logs, each as often as it is listed. */
  lemma {:induction false} LogsExactly(files: seq<File>, f: File)
    ensures multiset(Logs(files))[f] == if f.isLog then multiset(files)[f] else 0
  {
    if files != [] {
      var last := |files| - 1;
      LogsExactly(files[..last], f);
      assert files == files[..last] + [files[last]];
    }
  }

  /** The deleted candidates from `n` on. */
  ghost function GoneFrom(j: Job, n: nat): set<nat> {
    set i | i in From(j, 0).gone && i >= n
  }

  /** What was freed when the run came to a candidate is the size of what it had deleted of the older ones. */
  lemma {:induction false} FreedIsOlder(j: Job, n: nat)
    requires n <= |j.files| && !From(j, 0).failed
    ensures From(j, n).freed == SizesIn(j.files, GoneFrom(j, n))
    decreases |j.files| - n
  {
    if n == |j.files| {
      GoneDescends(j, 0);
      assert GoneFrom(j, n) == {};
    } else {
      FreedIsOlder(j, n + 1);
      GoneExactly(j, n);
      if From(j, n).failed { FailureStays(j, n, 0); }
      if n in From(j, 0).gone {
        assert GoneFrom(j, n) - {n} == GoneFrom(j, n + 1);
        SumPick<nat>(GoneFrom(j, n), (i: nat) => SizeAt(j.files, i), n);
      } else {
        assert GoneFrom(j, n) == GoneFrom(j, n + 1);
      }
    }
  }

  /**
    A run that no error ends deletes a candidate exactly if its path is not kept, its deletion is not
    skipped, and it is older than so many days of 24 hours, or the files listed, less the candidates
    after it that are deleted, exceed so many megabytes of 1024 times 1024 bytes.
  */
  lemma DeletedExactly(
    files: seq<File>, now: real, maxAgeDays: real, maxTotalMB: real, keepRecent: real, dryRun: bool,
    fate: File -> Fate, i: nat)
    requires var j := JobFor(files, now, maxAgeDays, maxTotalMB, keepRecent, dryRun, fate);
             i < |j.files| && !From(j, 0).failed
    ensures var j := JobFor(files, now, maxAgeDays, maxTotalMB, keepRecent, dryRun, fate);
            var f := j.files[i];
            i in From(j, 0).gone <==>
            && f.path !in KeptPaths(j.files, keepRecent, |j.files|)
            && (now - f.mtime > maxAgeDays * 24.0 * 60.0 * 60.0 * 1000.0
                || (TotalSize(files) - SizesIn(j.files, GoneFrom(j, i + 1))) as real > maxTotalMB * 1024.0 * 1024.0)
            && (dryRun || fate(f) == Removed)
  {
    var j := JobFor(files, now, maxAgeDays, maxTotalMB, keepRecent, dryRun, fate);
    GoneExactly(j, i);
    FreedIsOlder(j, i + 1);
  }

  /** The candidates of its directory that are strictly newer. */
  ghost function Newer(files: seq<File>, i: nat): set<nat>
    requires i < |files|
  {
    set m: nat | m < |files| && files[m].dir == files[i].dir && files[m].mtime > files[i].mtime
  }

  lemma NewerAreEarlier(files: seq<File>, i: nat)
    requires NewestFirst(files) && i < |files|
    ensures Newer(files, i) <= InDirectory(files, files[i].dir, i)
  {
    forall m | m in Newer(files, i) ensures m in InDirectory(files, files[i].dir, i) {
    }
  }

  lemma NewerAreCounted(files: seq<File>, i: nat, dir: string)
    requires NewestFirst(files) && i < |files| && dir == files[i].dir
    ensures |Newer(files, i)| <= CountIn(files, dir, i)
  {
    NewerAreEarlier(files, i);
    CountIsSize(files, dir, i);
    SubsetSize(Newer(files, i), InDirectory(files, dir, i));
  }

  /** Where no two files share a path, a candidate with enough strictly newer ones in its directory is not protected. */
  lemma CrowdedIsUnprotected(j: Job, i: nat)
    requires Admissible(j) && i < |j.files| && |Newer(j.files, i)| as real >= j.limits.keepRecent
    requires forall a, b :: 0 <= a < b < |j.files| ==> j.files[a].path != j.files[b].path
    ensures !Protected(j, i)
  {
    NewerAreCounted(j.files, i, j.files[i].dir);
    ProtectedIsRecent(j, i);
  }
}
