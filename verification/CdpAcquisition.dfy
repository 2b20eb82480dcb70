/**
  Acquiring a CDP WebSocket: the handlers, timer and abort listener that compete to settle one
  promise.  Browser events arrive in any order and any number of times.
*/
module CdpAcquisition {
  import opened Options

  datatype Outcome = Opened | ConnectError | ClosedEarly | Aborted | TimedOut

  datatype OnOpen = Publish | CloseSocket | NoOpen
  datatype OnError = FailError | IgnoreError
  datatype OnClose = FailClose | NoClose

  /** The closure's variables and the socket's handlers, with counts of what has been done. */
  datatype State = State(settled: bool, timerArmed: bool, listening: bool, aborted: bool,
                         onOpen: OnOpen, onError: OnError, onClose: OnClose,
                         outcome: Option<Outcome>, settlements: nat, sessions: nat, closes: nat)

  datatype Event = Open | Error | Closed | Abort | Timeout

  const MAX_TIMEOUT: int := 0x7fffffff

  datatype Started = RejectedAborted | RejectedRange | Going(state: State)

  /** The checks before a socket exists, then the handlers. */
  function Start(hasSignal: bool, aborted: bool, timeoutMs: Option<int>): Started {
    if hasSignal && aborted then RejectedAborted
    else if timeoutMs.Some? && (timeoutMs.value <= 0 || timeoutMs.value > MAX_TIMEOUT) then RejectedRange
    else Going(State(false, timeoutMs.Some?, hasSignal, false, Publish, FailError, FailClose, None, 0, 0, 0))
  }

  function Failed(s: State, o: Outcome): State {
    if s.settled then s
    else State(true, false, false, s.aborted, CloseSocket, IgnoreError, NoClose, Some(o), s.settlements + 1,
        s.sessions, s.closes + 1)
  }

  function Deliver(s: State, e: Event): State {
    match e
    case Open =>
      (match s.onOpen
       case Publish =>
         if s.settled then s.(closes := s.closes + 1)
         else if s.aborted then Failed(s, Aborted)
         else State(true, false, false, s.aborted, NoOpen, IgnoreError, NoClose, Some(Opened), s.settlements + 1,
             s.sessions + 1, s.closes)
       case CloseSocket => s.(closes := s.closes + 1)
       case NoOpen => s)
    case Error => if s.onError.FailError? then Failed(s, ConnectError) else s
    case Closed => if s.onClose.FailClose? then Failed(s, ClosedEarly) else s
    case Abort =>
      var t := s.(aborted := true);
      if s.listening then Failed(t, Aborted) else t
    case Timeout => if s.timerArmed then Failed(s.(timerArmed := false), TimedOut) else s
  }

  function Run(s: State, events: seq<Event>): State {
    if events == [] then s else Deliver(Run(s, events[..|events| - 1]), events[|events| - 1])
  }

  // ---- the simple definition: the first event that can decide, decides ----

  function Decision(hasSignal: bool, timed: bool, e: Event): Option<Outcome> {
    match e
    case Open => Some(Opened)
    case Error => Some(ConnectError)
    case Closed => Some(ClosedEarly)
    case Abort => if hasSignal then Some(Aborted) else None
    case Timeout => if timed then Some(TimedOut) else None
  }

  function FirstDecision(hasSignal: bool, timed: bool, events: seq<Event>): Option<Outcome> {
    if events == [] then None
    else
      var earlier := FirstDecision(hasSignal, timed, events[..|events| - 1]);
      if earlier.Some? then earlier else Decision(hasSignal, timed, events[|events| - 1])
  }

  /** A state that still waits, one that has published its session, or one that has given its socket up. */
  ghost predicate Agrees(s: State, hasSignal: bool, timed: bool, decided: Option<Outcome>) {
    && s.outcome == decided && s.settled == decided.Some?
    && s.settlements == (if decided.Some? then 1 else 0)
    && s.sessions == (if decided == Some(Opened) then 1 else 0)
    && (decided.None? ==> s.onOpen.Publish? && s.onError.FailError? && s.onClose.FailClose? && s.closes == 0
                          && s.listening == hasSignal && s.timerArmed == timed && !s.aborted)
    && (decided.Some? ==> s.onError.IgnoreError? && s.onClose.NoClose? && !s.listening && !s.timerArmed)
    && (decided == Some(Opened) ==> s.onOpen.NoOpen? && s.closes == 0)
    && (decided.Some? && decided.value != Opened ==> s.onOpen.CloseSocket? && s.closes > 0)
  }

  /**
    Over every sequence of events: the promise is settled at most once, by the first event that can
    decide it; a failure closes the socket, and no later open publishes a session; a published
    session is never closed by the acquisition, whatever arrives afterwards.
  */
  lemma {:induction false} FirstEventDecides(hasSignal: bool, timeoutMs: Option<int>, events: seq<Event>)
    requires Start(hasSignal, false, timeoutMs).Going?
    requires !hasSignal ==> Abort !in events
    ensures var s := Run(Start(hasSignal, false, timeoutMs).state, events);
            Agrees(s, hasSignal, timeoutMs.Some?, FirstDecision(hasSignal, timeoutMs.Some?, events))
  {
    if events != [] {
      var last := |events| - 1;
      assert events[last] in events;
      FirstEventDecides(hasSignal, timeoutMs, events[..last]);
    }
  }

  // ---- the closure ----

  class Acquisition {
    var settled: bool
    var timerArmed: bool
    var listening: bool
    var aborted: bool
    var onOpen: OnOpen
    var onError: OnError
    var onClose: OnClose
    var outcome: Option<Outcome>
    ghost var settlements: nat
    ghost var sessions: nat
    ghost var closes: nat

    ghost function View(): State
      reads this
    {
      State(settled, timerArmed, listening, aborted, onOpen, onError, onClose, outcome, settlements, sessions, closes)
    }

    constructor (hasSignal: bool, timeoutMs: Option<int>)
      requires Start(hasSignal, false, timeoutMs).Going?
      ensures View() == Start(hasSignal, false, timeoutMs).state
    {
      settled, timerArmed, listening, aborted := false, timeoutMs.Some?, hasSignal, false;
      onOpen, onError, onClose, outcome := Publish, FailError, FailClose, None;
      settlements, sessions, closes := 0, 0, 0;
    }

    method Fail(o: Outcome)
      modifies this
      ensures View() == Failed(old(View()), o)
    {
      if settled { return; }
      settled := true;
      timerArmed, listening := false, false;
      onOpen, onError, onClose := CloseSocket, IgnoreError, NoClose;
      closes := closes + 1;
      outcome, settlements := Some(o), settlements + 1;
    }

    method HandleOpen()
      modifies this
      ensures View() == Deliver(old(View()), Open)
    {
      match onOpen {
        case Publish =>
          if settled {
            closes := closes + 1;
          } else if aborted {
            Fail(Aborted);
          } else {
            sessions, settled := sessions + 1, true;
            timerArmed, listening := false, false;
            onOpen, onError, onClose := NoOpen, IgnoreError, NoClose;
            outcome, settlements := Some(Opened), settlements + 1;
          }
        case CloseSocket => closes := closes + 1;
        case NoOpen =>
      }
    }

    method HandleAbort()
      modifies this
      ensures View() == Deliver(old(View()), Abort)
    {
      aborted := true;
      if listening { Fail(Aborted); }
    }

    method HandleTimeout()
      modifies this
      ensures View() == Deliver(old(View()), Timeout)
    {
      if timerArmed {
        timerArmed := false;
        Fail(TimedOut);
      }
    }
  }

  // ---- before and after the decision ----

  /** An acquisition goes ahead unless its signal has fired or its limit is not a positive 31-bit number. */
  lemma StartsExactly(hasSignal: bool, aborted: bool, timeoutMs: Option<int>)
    ensures Start(hasSignal, aborted, timeoutMs).Going? <==>
            !(hasSignal && aborted) && (timeoutMs == None || 0 < timeoutMs.value < 0x8000_0000)
    ensures Start(hasSignal, aborted, timeoutMs).RejectedAborted? <==> hasSignal && aborted
  {
  }

  predicate Gave(decided: Option<Outcome>) { decided.Some? && decided.value != Opened }

  /** How many times the socket opens after its acquisition has failed. */
  function LateOpens(hasSignal: bool, timed: bool, events: seq<Event>): nat {
    if events == [] then 0
    else
      var before := events[..|events| - 1];
      LateOpens(hasSignal, timed, before)
      + if Gave(FirstDecision(hasSignal, timed, before)) && events[|events| - 1].Open? then 1 else 0
  }

  /** The socket is closed once by the failure that decides, and once more for every time it opens after that. */
  lemma {:induction false} ClosesExactly(hasSignal: bool, timeoutMs: Option<int>, events: seq<Event>)
    requires Start(hasSignal, false, timeoutMs).Going?
    requires !hasSignal ==> Abort !in events
    ensures var decided := FirstDecision(hasSignal, timeoutMs.Some?, events);
            Run(Start(hasSignal, false, timeoutMs).state, events).closes ==
            if Gave(decided) then 1 + LateOpens(hasSignal, timeoutMs.Some?, events) else 0
  {
    if events != [] {
      var before := events[..|events| - 1];
      assert events[|events| - 1] in events;
      ClosesExactly(hasSignal, timeoutMs, before);
      FirstEventDecides(hasSignal, timeoutMs, before);
      NothingLateYet(hasSignal, timeoutMs.Some?, before);
    }
  }

  lemma {:induction false} NothingLateYet(hasSignal: bool, timed: bool, events: seq<Event>)
    ensures !Gave(FirstDecision(hasSignal, timed, events)) ==> LateOpens(hasSignal, timed, events) == 0
  {
    if events != [] { NothingLateYet(hasSignal, timed, events[..|events| - 1]); }
  }
}
