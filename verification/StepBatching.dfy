/**
  The harness step executor: verbs the command line runs itself, and runs of page verbs shipped as
  one batch, spliced into one ordered result.  Batching must not be observable.
*/
module StepBatching {
  import opened Options

  type Value = int

  datatype Step = Step(cmd: string, tag: string, args: seq<Value>)

  datatype Fault = Fault(message: string, code: Option<string>)

  datatype Reply = Done(value: Value) | Threw(fault: Fault)

  datatype StepResult = StepResult(cmd: string, tag: string, reply: Reply)

  datatype RunError = RunError(fault: Fault, atStep: nat, cmd: string)

  /** A run is ok when it has no error. */
  datatype RunResult = RunResult(steps: seq<StepResult>, named: map<string, Value>, error: Option<RunError>,
      snapshot: Option<Value>)

  /** How single steps act on the browser and page state `W`. */
  datatype Runners<!W> = Runners(cdp: (W, Step) -> (W, Reply), page: (W, Step) -> (W, Reply),
      snapshot: W -> (W, Option<Value>))

  const NOTHING := RunResult([], map[], None, None)

  const CDP_STEPS: set<string> := {
    "reload", "device", "tap", "touchDrag", "longPress", "twoFingerTap", "pinch", "touchTimeline", "pageShot",
    "pointerLock", "evalPage", "hostClick", "hostMove", "hostKey"
  }

  predicate IsCdp(s: Step) {
    s.cmd in CDP_STEPS
  }

  function Succeed(r: RunResult, s: Step, v: Value): RunResult {
    r.(steps := r.steps + [StepResult(s.cmd, s.tag, Done(v))], named := r.named[s.cmd := v])
  }

  function Fail(r: RunResult, s: Step, at: nat, f: Fault, snapshot: Option<Value>): RunResult {
    RunResult(r.steps + [StepResult(s.cmd, s.tag, Threw(f))], r.named, Some(RunError(f, at, s.cmd)), snapshot)
  }

  // ---- one step at a time ----

  /** The command line forwards a failure's message only; the page adds its code and a fault snapshot. */
  function OneStep<W>(run: Runners<W>, w: W, s: Step, at: nat, r: RunResult): (W, RunResult) {
    if IsCdp(s) then
      var (w', reply) := run.cdp(w, s);
      match reply
      case Done(v) => (w', Succeed(r, s, v))
      case Threw(f) => (w', Fail(r, s, at, Fault(f.message, None), None))
    else
      var (w', reply) := run.page(w, s);
      match reply
      case Done(v) => (w', Succeed(r, s, v))
      case Threw(f) =>
        var (w'', snap) := run.snapshot(w');
        (w'', Fail(r, s, at, f, snap))
  }

  /** Steps `i` onwards, each on its own, up to the first failure. */
  function OneByOne<W>(run: Runners<W>, w: W, steps: seq<Step>, i: nat, r: RunResult): (W, RunResult)
    requires i <= |steps|
    decreases |steps| - i
  {
    if i == |steps| then (w, r)
    else
      var (w', r') := OneStep(run, w, steps[i], i, r);
      if r'.error.Some? then (w', r') else OneByOne(run, w', steps, i + 1, r')
  }

  // ---- batches ----

  ghost predicate AllPage(steps: seq<Step>) {
    forall i :: 0 <= i < |steps| ==> !IsCdp(steps[i])
  }

  /** A batch's result appended to what came before, its failing step renumbered from `start`. */
  function Splice(r: RunResult, sub: RunResult, start: nat): RunResult {
    RunResult(r.steps + sub.steps, r.named + sub.named,
              if sub.error.Some? then Some(sub.error.value.(atStep := start + sub.error.value.atStep)) else r.error,
              if sub.error.Some? && sub.snapshot.Some? then sub.snapshot else r.snapshot)
  }

  lemma SpliceOneStep<W>(run: Runners<W>, w: W, s: Step, k: nat, start: nat, r: RunResult, sub: RunResult)
    requires !IsCdp(s) && r.error.None? && r.snapshot.None? && sub.error.None?
    ensures var (w1, r1) := OneStep(run, w, s, start + k, Splice(r, sub, start));
            var (w2, sub2) := OneStep(run, w, s, k, sub);
            w1 == w2 && r1 == Splice(r, sub2, start)
  {
    var (w', reply) := run.page(w, s);
    match reply
    case Done(v) =>
      assert (r.named + sub.named)[s.cmd := v] == r.named + sub.named[s.cmd := v];
      assert r.steps + sub.steps + [StepResult(s.cmd, s.tag, Done(v))] ==
             r.steps + (sub.steps + [StepResult(s.cmd, s.tag, Done(v))]);
    case Threw(f) =>
      assert r.steps + sub.steps + [StepResult(s.cmd, s.tag, Threw(f))] ==
             r.steps + (sub.steps + [StepResult(s.cmd, s.tag, Threw(f))]);
  }

  /** Running a batch on its own and splicing it in is running its steps in place. */
  lemma {:induction false} BatchIsInPlace<W>(
    run: Runners<W>, w: W, steps: seq<Step>, start: nat, end: nat, k: nat, r: RunResult, sub: RunResult)
    requires start + k <= end <= |steps| && AllPage(steps[start..end])
    requires r.error.None? && r.snapshot.None? && sub.error.None?
    ensures var (w', done) := OneByOne(run, w, steps[start..end], k, sub);
            OneByOne(run, w, steps, start + k, Splice(r, sub, start)) ==
            if done.error.Some? then (w', Splice(r, done, start))
            else OneByOne(run, w', steps, end, Splice(r, done, start))
    decreases end - start - k
  {
    if start + k < end {
      var s := steps[start..end][k];
      assert s == steps[start + k];
      SpliceOneStep(run, w, s, k, start, r, sub);
      var (w', sub') := OneStep(run, w, s, k, sub);
      if sub'.error.None? { BatchIsInPlace(run, w', steps, start, end, k + 1, r, sub'); }
    }
  }

  lemma SpliceNothing(r: RunResult, start: nat)
    requires r.error.None? && r.snapshot.None?
    ensures Splice(r, NOTHING, start) == r
  {
  }

  // ---- the loops ----

  /** The page's own executor over one batch. */
  method RunSteps<W>(run: Runners<W>, w0: W, steps: seq<Step>) returns (w: W, r: RunResult)
    requires AllPage(steps)
    ensures (w, r) == OneByOne(run, w0, steps, 0, NOTHING)
  {
    w, r := w0, NOTHING;
    var i := 0;
    while i < |steps|
      invariant i <= |steps| && r.error.None?
      invariant OneByOne(run, w0, steps, 0, NOTHING) == OneByOne(run, w, steps, i, r)
    {
      var step := steps[i];
      var (w', reply) := run.page(w, step);
      w := w';
      match reply {
        case Done(v) =>
          r := r.(steps := r.steps + [StepResult(step.cmd, step.tag, Done(v))], named := r.named[step.cmd := v]);
        case Threw(f) =>
          var (w'', snap) := run.snapshot(w);
          w := w'';
          r := RunResult(r.steps + [StepResult(step.cmd, step.tag, Threw(f))], r.named,
              Some(RunError(f, i, step.cmd)), snap);
          return;
      }
      i := i + 1;
    }
  }

  /** The command line's executor: its result is that of running the steps one at a time. */
  method ExecViaCdp<W>(run: Runners<W>, w0: W, steps: seq<Step>) returns (w: W, r: RunResult)
    ensures (w, r) == OneByOne(run, w0, steps, 0, NOTHING)
  {
    w, r := w0, NOTHING;
    var i := 0;
    while i < |steps|
      invariant i <= |steps| && r.error.None? && r.snapshot.None?
      invariant OneByOne(run, w0, steps, 0, NOTHING) == OneByOne(run, w, steps, i, r)
    {
      if IsCdp(steps[i]) {
        var failed;
        w, r, failed := RunCdpStep(run, w, steps[i], i, r);
        if failed { return; }
        i := i + 1;
      } else {
        var start := i;
        while i < |steps| && !IsCdp(steps[i])
          invariant start <= i <= |steps|
          invariant AllPage(steps[start..i])
        {
          assert steps[start..i + 1] == steps[start..i] + [steps[i]];
          i := i + 1;
        }
        SpliceNothing(r, start);
        BatchIsInPlace(run, w, steps, start, i, 0, r, NOTHING);
        var sub;
        w, sub := RunSteps(run, w, steps[start..i]);
        r := Splice(r, sub, start);
        if sub.error.Some? { return; }
      }
    }
  }

  method RunCdpStep<W>(
    run: Runners<W>, w0: W, step: Step, i: nat, r0: RunResult) returns (w: W, r: RunResult, failed: bool)
    requires IsCdp(step) && r0.error.None? && r0.snapshot.None?
    ensures (w, r) == OneStep(run, w0, step, i, r0) && failed == r.error.Some? && r.snapshot.None?
  {
    var (w', reply) := run.cdp(w0, step);
    w := w';
    match reply {
      case Done(v) =>
        r := r0.(steps := r0.steps + [StepResult(step.cmd, step.tag, Done(v))], named := r0.named[step.cmd := v]);
        failed := false;
      case Threw(f) =>
        var bare := Fault(f.message, None);
        r := RunResult(r0.steps + [StepResult(step.cmd, step.tag, Threw(bare))], r0.named,
            Some(RunError(bare, i, step.cmd)), None);
        failed := true;
    }
  }

  // ---- what the result says ----

  /** A run stops at its first failing step: one result per step run, and the error names the last of them. */
  lemma {:induction false} StopsAtFirstFailure<W>(run: Runners<W>, w: W, steps: seq<Step>, i: nat, r: RunResult)
    requires i <= |steps| && |r.steps| == i && r.error.None?
    requires forall k :: 0 <= k < i ==> r.steps[k].reply.Done? && r.steps[k].cmd == steps[k].cmd
    ensures var (_, res) := OneByOne(run, w, steps, i, r);
            && |res.steps| <= |steps|
            && (forall k :: 0 <= k < |res.steps| ==> res.steps[k].cmd == steps[k].cmd)
            && (match res.error
                case None => |res.steps| == |steps| && forall k :: 0 <= k < |steps| ==> res.steps[k].reply.Done?
                case Some(e) => && e.atStep + 1 == |res.steps| && res.steps[e.atStep].reply == Threw(e.fault)
                                && forall k :: 0 <= k < e.atStep ==> res.steps[k].reply.Done?)
    decreases |steps| - i
  {
    if i < |steps| {
      var (w', r') := OneStep(run, w, steps[i], i, r);
      if r'.error.None? { StopsAtFirstFailure(run, w', steps, i + 1, r'); }
    }
  }

  // ---- a run, step by step ----

  /** Each of the first `n` steps acts, in its turn, on what the one before it left, and gives its reply. */
  ghost predicate IsTrace<W(!new)>(
    run: Runners<W>, w0: W, steps: seq<Step>, ws: seq<W>, replies: seq<Reply>, n: nat)
    requires n <= |steps|
  {
    && |ws| == n + 1 && |replies| == n && ws[0] == w0
    && forall k :: 0 <= k < n ==>
         (ws[k + 1], replies[k]) ==
         if steps[k].cmd in CDP_STEPS then run.cdp(ws[k], steps[k]) else run.page(ws[k], steps[k])
  }

  /** What is shown of a reply: of a failure on the command line, only its message. */
  function Shown(s: Step, reply: Reply): Reply {
    if s.cmd in CDP_STEPS && reply.Threw? then Threw(Fault(reply.fault.message, None)) else reply
  }

  ghost predicate ShowsAll(res: RunResult, steps: seq<Step>, replies: seq<Reply>, n: nat)
    requires n <= |steps| && n <= |replies|
  {
    && |res.steps| == n
    && forall k :: 0 <= k < n ==> res.steps[k] == StepResult(steps[k].cmd, steps[k].tag, Shown(steps[k], replies[k]))
  }

  /** Step `k` is the last of the first `n` of its command to have succeeded. */
  ghost predicate LastOf(steps: seq<Step>, replies: seq<Reply>, n: nat, k: nat, cmd: string)
    requires n <= |steps| && n <= |replies|
  {
    && k < n && steps[k].cmd == cmd && replies[k].Done?
    && forall m :: k < m < n && steps[m].cmd == cmd ==> !replies[m].Done?
  }

  /** A command's value is that of its last step to succeed, and only commands that succeeded have one. */
  ghost predicate NamesLast(named: map<string, Value>, steps: seq<Step>, replies: seq<Reply>, n: nat)
    requires n <= |steps| && n <= |replies|
  {
    && (forall k: nat, cmd :: LastOf(steps, replies, n, k, cmd) ==> cmd in named && named[cmd] == replies[k].value)
    && (forall cmd :: cmd in named ==> exists k: nat :: LastOf(steps, replies, n, k, cmd))
  }

  ghost predicate AllDone(replies: seq<Reply>, n: nat)
    requires n <= |replies|
  {
    forall k :: 0 <= k < n ==> replies[k].Done?
  }

  /** The result, the error and the snapshot of a run of which the first `n` steps were made. */
  ghost predicate Tells<W(!new)>(
    run: Runners<W>, w: W, res: RunResult, steps: seq<Step>, ws: seq<W>, replies: seq<Reply>, n: nat)
    requires n <= |steps| && |ws| == n + 1 && |replies| == n
  {
    && ShowsAll(res, steps, replies, n) && NamesLast(res.named, steps, replies, n)
    && (AllDone(replies, n) ==> n == |steps| && w == ws[n] && res.error == None && res.snapshot == None)
    && (!AllDone(replies, n) ==>
          && n > 0 && AllDone(replies, n - 1) && replies[n - 1].Threw?
          && res.error == Some(RunError(Shown(steps[n - 1], replies[n - 1]).fault, n - 1, steps[n - 1].cmd))
          && (w, res.snapshot) == if steps[n - 1].cmd in CDP_STEPS then (ws[n], None) else run.snapshot(ws[n]))
  }

  /** What has been made of a run while no step has failed. */
  ghost predicate GoneWell<W(!new)>(
    run: Runners<W>, w0: W, w: W, r: RunResult, steps: seq<Step>, ws: seq<W>, replies: seq<Reply>, i: nat)
    requires i <= |steps|
  {
    && IsTrace(run, w0, steps, ws, replies, i) && w == ws[i] && AllDone(replies, i)
    && ShowsAll(r, steps, replies, i) && NamesLast(r.named, steps, replies, i) && r.error == None && r.snapshot == None
  }

  lemma NamesOneMore(named: map<string, Value>, steps: seq<Step>, replies: seq<Reply>, n: nat, reply: Reply)
    requires n < |steps| && |replies| == n && NamesLast(named, steps, replies, n)
    ensures NamesLast(if reply.Done? then named[steps[n].cmd := reply.value] else named, steps, replies + [reply],
                      n + 1)
  {
    var more := replies + [reply];
    forall k: nat, cmd | LastOf(steps, more, n + 1, k, cmd) && k < n ensures LastOf(steps, replies, n, k, cmd) {
      assert forall m :: k < m < n ==> more[m] == replies[m];
    }
    forall k: nat, cmd | LastOf(steps, replies, n, k, cmd) && !(reply.Done? && cmd == steps[n].cmd)
      ensures LastOf(steps, more, n + 1, k, cmd)
    {
    }
    if reply.Done? { assert LastOf(steps, more, n + 1, n, steps[n].cmd); }
  }

  /**
    Every run is told by its trace: one result for each step made, in order; for each command the value
    of its last success; and either all steps were made and succeeded, or the last one made failed and
    is the error, with a snapshot if it was a step of the page.
  */
  lemma RunExactly<W(!new)>(run: Runners<W>, w0: W, steps: seq<Step>) returns (ws: seq<W>, replies: seq<Reply>, n: nat)
    ensures n <= |steps| && IsTrace(run, w0, steps, ws, replies, n)
    ensures var (w, res) := OneByOne(run, w0, steps, 0, NOTHING); Tells(run, w, res, steps, ws, replies, n)
  {
    ws, replies, n := TraceFrom(run, w0, w0, steps, [w0], [], 0, NOTHING);
  }

  lemma {:induction false} TraceFrom<W(!new)>(
    run: Runners<W>, w0: W, w: W, steps: seq<Step>, ws: seq<W>, replies: seq<Reply>, i: nat, r: RunResult)
    returns (ws': seq<W>, replies': seq<Reply>, n: nat)
    requires i <= |steps| && GoneWell(run, w0, w, r, steps, ws, replies, i)
    ensures n <= |steps| && IsTrace(run, w0, steps, ws', replies', n)
    ensures var (w', res) := OneByOne(run, w, steps, i, r); Tells(run, w', res, steps, ws', replies', n)
    decreases |steps| - i
  {
    if i == |steps| {
      ws', replies', n := ws, replies, i;
    } else {
      var s := steps[i];
      var (w1, reply) := if s.cmd in CDP_STEPS then run.cdp(w, s) else run.page(w, s);
      var (w2, r2) := OneStep(run, w, s, i, r);
      ws', replies', n := ws + [w1], replies + [reply], i + 1;
      NamesOneMore(r.named, steps, replies, i, reply);
      StepTold(run, w0, w, steps, ws, replies, i, r, w1, reply);
      if reply.Done? { ws', replies', n := TraceFrom(run, w0, w1, steps, ws', replies', i + 1, r2); }
    }
  }

  /** One step more: the run goes on well, or it ends there. */
  lemma StepTold<W(!new)>(
    run: Runners<W>, w0: W, w: W, steps: seq<Step>, ws: seq<W>, replies: seq<Reply>, i: nat, r: RunResult, w1: W,
    reply: Reply)
    requires i < |steps| && GoneWell(run, w0, w, r, steps, ws, replies, i)
    requires (w1, reply) == if steps[i].cmd in CDP_STEPS then run.cdp(w, steps[i]) else run.page(w, steps[i])
    requires NamesLast(if reply.Done? then r.named[steps[i].cmd := reply.value] else r.named, steps, replies + [reply],
                       i + 1)
    ensures var (w2, r2) := OneStep(run, w, steps[i], i, r);
            && IsTrace(run, w0, steps, ws + [w1], replies + [reply], i + 1)
            && (r2.error.Some? <==> reply.Threw?)
            && (reply.Done? ==> w2 == w1 && GoneWell(run, w0, w2, r2, steps, ws + [w1], replies + [reply], i + 1))
            && (reply.Threw? ==> Tells(run, w2, r2, steps, ws + [w1], replies + [reply], i + 1))
  {
    var more := replies + [reply];
    assert more[i] == reply && forall k :: 0 <= k < i ==> more[k] == replies[k];
    assert forall k :: 0 <= k <= i ==> (ws + [w1])[k] == ws[k];
    if reply.Threw? { assert !AllDone(more, i + 1) && AllDone(more, i); }
  }
}
