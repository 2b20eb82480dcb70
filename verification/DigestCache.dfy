/**
  The coalescing cache of file digests: concurrent calls share one hash per file version, and the
  file may change at any moment.

  A version number stands for the stamp (size, times, inode): it grows with every change, so equal
  stamps mean the same content.  Each step is what runs between two awaits, or one file operation.
  Steps that do not apply change nothing, so every sequence of steps is a run.
*/
module DigestCache {
  import opened Numbers
  import opened Options

  type Path = nat
  type Version = nat
  type CallId = nat
  type JobId = nat

  const CAPACITY: nat := 128

  // ---- the map of digests, in insertion order ----

  datatype Entry = Entry(stamp: Version, job: JobId)

  datatype Cache = Cache(order: seq<Path>, entries: map<Path, Entry>)

  ghost predicate IsCache(c: Cache) {
    && (forall p :: p in c.order <==> p in c.entries)
    && (forall i, j :: 0 <= i < j < |c.order| ==> c.order[i] != c.order[j])
  }

  function Drop(order: seq<Path>, p: Path): seq<Path> {
    if order == [] then []
    else if order[0] == p then order[1..]
    else [order[0]] + Drop(order[1..], p)
  }

  function Forget(c: Cache, p: Path): Cache {
    Cache(Drop(c.order, p), c.entries - {p})
  }

  /** A key already present keeps its place. */
  function SetEntry(c: Cache, p: Path, e: Entry): Cache {
    Cache(if p in c.entries then c.order else c.order + [p], c.entries[p := e])
  }

  /** Setting an entry and then dropping the oldest key if there are too many. */
  function Remember(c: Cache, p: Path, e: Entry): Cache {
    var set' := SetEntry(c, p, e);
    if |set'.order| > CAPACITY then Forget(set', set'.order[0]) else set'
  }

  lemma {:induction false} DropRemoves(order: seq<Path>, p: Path)
    requires forall i, j :: 0 <= i < j < |order| ==> order[i] != order[j]
    ensures forall q :: q in Drop(order, p) <==> q in order && q != p
    ensures forall i, j :: 0 <= i < j < |Drop(order, p)| ==> Drop(order, p)[i] != Drop(order, p)[j]
    ensures |Drop(order, p)| == |order| - if p in order then 1 else 0
  {
    if order != [] {
      assert forall q :: q in order <==> q == order[0] || q in order[1..];
      if order[0] != p {
        DropRemoves(order[1..], p);
        assert order[0] !in Drop(order[1..], p);
      }
    }
  }

  lemma ForgetKeepsCache(c: Cache, p: Path)
    requires IsCache(c)
    ensures IsCache(Forget(c, p))
    ensures |Forget(c, p).order| == |c.order| - if p in c.entries then 1 else 0
  {
    DropRemoves(c.order, p);
  }

  /** After an insertion the entry is there, and nothing else is new. */
  lemma RememberKeepsCache(c: Cache, p: Path, e: Entry)
    requires IsCache(c) && |c.order| <= CAPACITY
    ensures IsCache(Remember(c, p, e)) && |Remember(c, p, e).order| <= CAPACITY
    ensures p in Remember(c, p, e).entries && Remember(c, p, e).entries[p] == e
    ensures forall q :: q in Remember(c, p, e).entries && q != p ==>
              q in c.entries && Remember(c, p, e).entries[q] == c.entries[q]
  {
    var s := SetEntry(c, p, e);
    assert forall q :: q in s.order <==> q in c.order || q == p;
    assert IsCache(s);
    if |s.order| > CAPACITY {
      assert s.order[0] in s.order;
      ForgetKeepsCache(s, s.order[0]);
    }
  }

  /** The module's map as it is updated in place. */
  class Digests {
    var order: seq<Path>
    var entries: map<Path, Entry>

    ghost function View(): Cache
      reads this
    {
      Cache(order, entries)
    }

    ghost predicate Valid()
      reads this
    {
      IsCache(View()) && |order| <= CAPACITY
    }

    constructor ()
      ensures Valid() && View() == Cache([], map[])
    {
      order, entries := [], map[];
    }

    method Insert(p: Path, e: Entry)
      requires Valid()
      modifies this
      ensures Valid() && View() == Remember(old(View()), p, e)
    {
      RememberKeepsCache(View(), p, e);
      if p !in entries { order := order + [p]; }
      entries := entries[p := e];
      if |order| > CAPACITY {
        entries := entries - {order[0]};
        order := order[1..];
      }
    }

    /** The cleanup of a failed hash: only its own entry goes. */
    method ForgetJob(p: Path, j: JobId)
      requires Valid()
      modifies this
      ensures Valid()
      ensures View() == if p in old(entries) && old(entries)[p].job == j then Forget(old(View()), p) else old(View())
    {
      if p in entries && entries[p].job == j {
        ForgetKeepsCache(View(), p);
        order := Drop(order, p);
        entries := entries - {p};
      }
    }
  }

  // ---- calls, hashing jobs and the disk ----

  datatype Progress = Reading | AtEnd | Hashed(etag: int) | Broken

  datatype Job = Job(path: Path, stamp: Version, data: seq<int>, progress: Progress)

  datatype Call =
    | Called(path: Path)
    | Stamped(path: Path, before: Version)
    | Waiting(path: Path, before: Version, job: JobId, creator: bool)
    | Returned(path: Path, before: Version, etag: int)
    | Threw(path: Path)

  /** What each file holds in each of its versions, and the hash of a byte string. */
  datatype Disk = Disk(content: (Path, Version) -> seq<int>, digest: seq<int> -> int)

  datatype World = World(current: map<Path, Version>, cache: Cache, jobs: seq<Job>, calls: map<CallId, Call>,
      retired: set<JobId>)

  datatype Step =
    | Invoke(c: CallId, p: Path)
    | Stat(c: CallId)
    | Proceed(c: CallId)
    | Read(j: JobId, n: nat)
    | ReachEnd(j: JobId)
    | Restat(j: JobId)
    | ReadFails(j: JobId)
    | Deliver(c: CallId)
    | Change(p: Path)

  const START := World(map[], Cache([], map[]), [], map[], {})

  function VersionOf(w: World, p: Path): Version {
    Lookup(w.current, p, 0)
  }

  function Content(d: Disk, w: World, p: Path): seq<int> {
    d.content(p, VersionOf(w, p))
  }

  function SetJob(w: World, j: JobId, job: Job): World
    requires j < |w.jobs|
  {
    w.(jobs := w.jobs[j := job])
  }

  function SetCall(w: World, c: CallId, call: Call): World {
    w.(calls := w.calls[c := call])
  }

  /** The part of a call after its stamp is known, up to its next await. */
  function Continue(w: World, c: CallId, p: Path, before: Version): World {
    if p in w.cache.entries && w.cache.entries[p].stamp == before then
      SetCall(w, c, Waiting(p, before, w.cache.entries[p].job, false))
    else
      var j := |w.jobs|;
      SetCall(w, c, Waiting(p, before, j, true))
      .(jobs := w.jobs + [Job(p, before, [], Reading)], cache := Remember(w.cache, p, Entry(before, j)))
  }

  /** A waiting call resumes once its job is settled; the call that started a failed job cleans up. */
  function Resume(w: World, c: CallId, call: Call): World
    requires call.Waiting? && call.job < |w.jobs|
  {
    match w.jobs[call.job].progress
    case Hashed(etag) => SetCall(w, c, Returned(call.path, call.before, etag))
    case Broken =>
      var t := SetCall(w, c, Threw(call.path));
      if !call.creator then t
      else
        var own := call.path in w.cache.entries && w.cache.entries[call.path].job == call.job;
        t.(retired := w.retired + {call.job}, cache := if own then Forget(w.cache, call.path) else w.cache)
    case _ => w
  }

  function Next(d: Disk, w: World, s: Step): World {
    match s
    case Invoke(c, p) => if c in w.calls then w else SetCall(w, c, Called(p))
    case Stat(c) =>
      if c in w.calls && w.calls[c].Called? then
        SetCall(w, c, Stamped(w.calls[c].path, VersionOf(w, w.calls[c].path)))
      else w
    case Proceed(c) =>
      if c in w.calls && w.calls[c].Stamped? then Continue(w, c, w.calls[c].path, w.calls[c].before) else w
    case Read(j, n) =>
      if j < |w.jobs| && w.jobs[j].progress.Reading? then
        var job := w.jobs[j];
        var now := Content(d, w, job.path);
        if |job.data| < |now| then SetJob(w, j, job.(data := job.data + now[|job.data|..Min(|job.data| + n, |now|)]))
        else w
      else w
    case ReachEnd(j) =>
      if j < |w.jobs| && w.jobs[j].progress.Reading? && |w.jobs[j].data| >= |Content(d, w, w.jobs[j].path)|
      then SetJob(w, j, w.jobs[j].(progress := AtEnd)) else w
    case Restat(j) =>
      if j < |w.jobs| && w.jobs[j].progress.AtEnd? then
        var job := w.jobs[j];
        SetJob(w, j, job.(progress := if VersionOf(w, job.path) == job.stamp then Hashed(d.digest(job.data))
            else Broken))
      else w
    case ReadFails(j) =>
      if j < |w.jobs| && w.jobs[j].progress.Reading? then SetJob(w, j, w.jobs[j].(progress := Broken)) else w
    case Deliver(c) =>
      if c in w.calls && w.calls[c].Waiting? && w.calls[c].job < |w.jobs| then Resume(w, c, w.calls[c]) else w
    case Change(p) => w.(current := w.current[p := VersionOf(w, p) + 1])
  }

  function Run(d: Disk, steps: seq<Step>): World {
    if steps == [] then START else Next(d, Run(d, steps[..|steps| - 1]), steps[|steps| - 1])
  }

  // ---- what every run keeps ----

  /** While the file is still in the version a job was started for, the job has read a prefix of it. */
  ghost predicate JobSound(d: Disk, w: World, job: Job) {
    var whole := d.content(job.path, job.stamp);
    && job.stamp <= VersionOf(w, job.path)
    && (VersionOf(w, job.path) == job.stamp && (job.progress.Reading? || job.progress.AtEnd?) ==> job.data <= whole)
    && (VersionOf(w, job.path) == job.stamp && job.progress.AtEnd? ==> job.data == whole)
    && (job.progress.Hashed? ==> job.progress.etag == d.digest(whole))
  }

  ghost predicate CallSound(d: Disk, w: World, call: Call) {
    match call
    case Called(_) => true
    case Stamped(p, before) => before <= VersionOf(w, p)
    case Waiting(p, before, j, _) => j < |w.jobs| && w.jobs[j].path == p && w.jobs[j].stamp == before
    case Returned(p, before, etag) => etag == d.digest(d.content(p, before))
    case Threw(_) => true
  }

  ghost predicate EntriesSound(w: World) {
    forall p :: p in w.cache.entries ==>
      var e := w.cache.entries[p];
      && e.job < |w.jobs| && e.job !in w.retired
      && w.jobs[e.job].path == p && w.jobs[e.job].stamp == e.stamp
  }

  ghost predicate Inv(d: Disk, w: World) {
    && IsCache(w.cache) && |w.cache.order| <= CAPACITY
    && (forall j :: j in w.retired ==> j < |w.jobs| && w.jobs[j].progress.Broken?)
    && (forall j :: 0 <= j < |w.jobs| ==> JobSound(d, w, w.jobs[j]))
    && (forall c :: c in w.calls ==> CallSound(d, w, w.calls[c]))
    && EntriesSound(w)
  }

  /** Replacing a job by one for the same path and stamp disturbs nothing that refers to it. */
  lemma JobUpdateKeepsInv(d: Disk, w: World, j: JobId, job: Job)
    requires Inv(d, w) && j < |w.jobs| && !w.jobs[j].progress.Broken?
    requires job.path == w.jobs[j].path && job.stamp == w.jobs[j].stamp && JobSound(d, w, job)
    ensures Inv(d, SetJob(w, j, job))
  {
    var w' := SetJob(w, j, job);
    forall i | 0 <= i < |w'.jobs| ensures JobSound(d, w', w'.jobs[i]) {
      assert JobSound(d, w, w'.jobs[i]);
    }
    forall c | c in w'.calls ensures CallSound(d, w', w'.calls[c]) {
      assert CallSound(d, w, w.calls[c]);
    }
  }

  lemma CallUpdateKeepsInv(d: Disk, w: World, c: CallId, call: Call)
    requires Inv(d, w) && CallSound(d, w, call)
    ensures Inv(d, SetCall(w, c, call))
  {
    var w' := SetCall(w, c, call);
    forall i | 0 <= i < |w'.jobs| ensures JobSound(d, w', w'.jobs[i]) {
      assert JobSound(d, w, w.jobs[i]);
    }
    forall k | k in w'.calls ensures CallSound(d, w', w'.calls[k]) {
      if k != c { assert CallSound(d, w, w.calls[k]); }
    }
  }

  function Started(w: World, p: Path, before: Version): World {
    w.(jobs := w.jobs + [Job(p, before, [], Reading)], cache := Remember(w.cache, p, Entry(before, |w.jobs|)))
  }

  /** A new job, and its entry, put an older stamp's entry out of the way. */
  lemma StartKeepsInv(d: Disk, w: World, p: Path, before: Version)
    requires Inv(d, w) && before <= VersionOf(w, p)
    ensures Inv(d, Started(w, p, before))
  {
    var w' := Started(w, p, before);
    RememberKeepsCache(w.cache, p, Entry(before, |w.jobs|));
    forall i | 0 <= i < |w'.jobs| ensures JobSound(d, w', w'.jobs[i]) {
      if i < |w.jobs| { assert JobSound(d, w, w.jobs[i]); }
    }
    forall k | k in w'.calls ensures CallSound(d, w', w'.calls[k]) {
      assert CallSound(d, w, w.calls[k]);
    }
  }

  lemma ContinueKeepsInv(d: Disk, w: World, c: CallId, p: Path, before: Version)
    requires Inv(d, w) && before <= VersionOf(w, p)
    ensures Inv(d, Continue(w, c, p, before))
  {
    var w' := Continue(w, c, p, before);
    if p in w.cache.entries && w.cache.entries[p].stamp == before {
      CallUpdateKeepsInv(d, w, c, Waiting(p, before, w.cache.entries[p].job, false));
    } else {
      StartKeepsInv(d, w, p, before);
      CallUpdateKeepsInv(d, Started(w, p, before), c, Waiting(p, before, |w.jobs|, true));
    }
  }

  /** Cleaning up after a failed job leaves no entry pointing at it. */
  lemma ResumeKeepsInv(d: Disk, w: World, c: CallId)
    requires Inv(d, w) && c in w.calls && w.calls[c].Waiting?
    ensures w.calls[c].job < |w.jobs| && Inv(d, Resume(w, c, w.calls[c]))
  {
    var call := w.calls[c];
    assert CallSound(d, w, call);
    assert JobSound(d, w, w.jobs[call.job]);
    var w' := Resume(w, c, call);
    match w.jobs[call.job].progress
    case Hashed(etag) => CallUpdateKeepsInv(d, w, c, Returned(call.path, call.before, etag));
    case Broken =>
      ForgetKeepsCache(w.cache, call.path);
      CallUpdateKeepsInv(d, w, c, Threw(call.path));
      var t := SetCall(w, c, Threw(call.path));
      forall i | 0 <= i < |w'.jobs| ensures JobSound(d, w', w'.jobs[i]) {
        assert JobSound(d, t, t.jobs[i]);
      }
      forall k | k in w'.calls ensures CallSound(d, w', w'.calls[k]) {
        assert CallSound(d, t, t.calls[k]);
      }
    case _ =>
  }

  lemma ChangeKeepsInv(d: Disk, w: World, p: Path)
    requires Inv(d, w)
    ensures Inv(d, Next(d, w, Change(p)))
  {
    var w' := Next(d, w, Change(p));
    forall i | 0 <= i < |w'.jobs| ensures JobSound(d, w', w'.jobs[i]) {
      assert JobSound(d, w, w.jobs[i]);
    }
    forall k | k in w'.calls ensures CallSound(d, w', w'.calls[k]) {
      assert CallSound(d, w, w.calls[k]);
    }
  }

  lemma JobStepKeepsInv(d: Disk, w: World, s: Step)
    requires Inv(d, w) && (s.Read? || s.ReachEnd? || s.Restat? || s.ReadFails?)
    ensures Inv(d, Next(d, w, s))
  {
    if s.j < |w.jobs| {
      var job := w.jobs[s.j];
      assert JobSound(d, w, job);
      var w' := Next(d, w, s);
      if w' != w {
        if s.Read? { ReadExtendsPrefix(job.data, Content(d, w, job.path), s.n); }
        JobUpdateKeepsInv(d, w, s.j, w'.jobs[s.j]);
        assert w' == SetJob(w, s.j, w'.jobs[s.j]);
      }
    }
  }

  lemma ReadExtendsPrefix(data: seq<int>, whole: seq<int>, n: nat)
    requires |data| < |whole|
    ensures data <= whole ==> data + whole[|data|..Min(|data| + n, |whole|)] <= whole
  {
  }

  lemma NextKeepsInv(d: Disk, w: World, s: Step)
    requires Inv(d, w)
    ensures Inv(d, Next(d, w, s))
  {
    match s
    case Invoke(c, p) => if c !in w.calls { CallUpdateKeepsInv(d, w, c, Called(p)); }
    case Stat(c) =>
      if c in w.calls && w.calls[c].Called? {
        CallUpdateKeepsInv(d, w, c, Stamped(w.calls[c].path, VersionOf(w, w.calls[c].path)));
      }
    case Proceed(c) =>
      if c in w.calls && w.calls[c].Stamped? {
        assert CallSound(d, w, w.calls[c]);
        ContinueKeepsInv(d, w, c, w.calls[c].path, w.calls[c].before);
      }
    case Deliver(c) => if c in w.calls && w.calls[c].Waiting? { ResumeKeepsInv(d, w, c); }
    case Change(p) => ChangeKeepsInv(d, w, p);
    case _ => JobStepKeepsInv(d, w, s);
  }

  lemma {:induction false} RunKeepsInv(d: Disk, steps: seq<Step>)
    ensures Inv(d, Run(d, steps))
  {
    if steps != [] {
      RunKeepsInv(d, steps[..|steps| - 1]);
      NextKeepsInv(d, Run(d, steps[..|steps| - 1]), steps[|steps| - 1]);
    }
  }

  /**
    Under any interleaving of calls, reads, evictions and file changes, a returned tag is the digest
    of the version whose stamp the call read first; the cache never outgrows its capacity; and no
    entry points at a failed hash whose starter has been told.
  */
  lemma TagsAreDigests(d: Disk, steps: seq<Step>, c: CallId)
    ensures var w := Run(d, steps);
            && |w.cache.order| <= CAPACITY
            && (forall p :: p in w.cache.entries ==> w.cache.entries[p].job !in w.retired)
            && (c in w.calls && w.calls[c].Returned? ==>
                  w.calls[c].etag == d.digest(d.content(w.calls[c].path, w.calls[c].before)))
  {
    RunKeepsInv(d, steps);
    var w := Run(d, steps);
    if c in w.calls { assert CallSound(d, w, w.calls[c]); }
  }

  /** The call is past its stamp, which was `v`. */
  ghost predicate Past(w: World, c: CallId, p: Path, v: Version) {
    && c in w.calls && w.calls[c].path == p && !w.calls[c].Called?
    && (w.calls[c].Threw? || w.calls[c].before == v)
  }

  lemma NextKeepsPast(d: Disk, w: World, s: Step, c: CallId, p: Path, v: Version)
    requires Past(w, c, p, v)
    ensures Past(Next(d, w, s), c, p, v)
  {
  }

  /** The stamp a call is judged by is the one it read first, whatever happens afterwards. */
  lemma {:induction false} StampIsFirstRead(d: Disk, before: seq<Step>, c: CallId, rest: seq<Step>)
    requires c in Run(d, before).calls && Run(d, before).calls[c].Called?
    ensures var p := Run(d, before).calls[c].path;
            Past(Run(d, before + [Stat(c)] + rest), c, p, VersionOf(Run(d, before), p))
  {
    var all, p := before + [Stat(c)] + rest, Run(d, before).calls[c].path;
    if rest == [] {
      assert all[..|all| - 1] == before;
    } else {
      var last := |rest| - 1;
      StampIsFirstRead(d, before, c, rest[..last]);
      assert all[..|all| - 1] == before + [Stat(c)] + rest[..last];
      NextKeepsPast(d, Run(d, all[..|all| - 1]), rest[last], c, p, VersionOf(Run(d, before), p));
    }
  }

  /** Cleaning up after a failed hash removes its own entry, if it is still there, and no newer one. */
  lemma CleanupSparesNewer(d: Disk, w: World, c: CallId)
    requires Inv(d, w) && c in w.calls && w.calls[c].Waiting? && w.calls[c].creator
    requires w.calls[c].job < |w.jobs| && w.jobs[w.calls[c].job].progress.Broken?
    ensures var after := Next(d, w, Deliver(c)).cache.entries;
            && (forall p :: p in after <==> p in w.cache.entries && w.cache.entries[p].job != w.calls[c].job)
            && (forall p :: p in after ==> after[p] == w.cache.entries[p])
  {
    assert CallSound(d, w, w.calls[c]);
  }
}
