/**
  Ownership of the harness connection across overlapping acquisitions and closes.

  Each event is what runs between two awaits: a call of `ensureSession` up to its first await, the
  callback of a connection attempt, its `finally` block, or a close.  Events that do not apply to
  the state change nothing, so every sequence of events is a run.
*/
module SessionOwnership {
  import opened Options

  type Acq = nat

  /** A late connection belongs to a generation that was closed while it was being made. */
  datatype Status = Connecting | Published | Late | Refused

  datatype Acquisition = Acquisition(generation: nat, status: Status)

  /** The three module variables, every acquisition made so far, and the sessions closed. */
  datatype Harness = Harness(session: Option<Acq>, opening: Option<Acq>, generation: nat,
                             acqs: seq<Acquisition>, closed: set<Acq>)

  datatype Event = Ensure | Connected(a: Acq) | ConnectFailed(a: Acq) | Settled(a: Acq) | Close

  const START := Harness(None, None, 0, [], {})

  function WithStatus(h: Harness, a: Acq, s: Status): Harness
    requires a < |h.acqs|
  {
    h.(acqs := h.acqs[a := h.acqs[a].(status := s)])
  }

  predicate IsConnecting(h: Harness, a: Acq) {
    a < |h.acqs| && h.acqs[a].status.Connecting?
  }

  function Next(h: Harness, e: Event): Harness {
    match e
    case Ensure =>
      if h.session.Some? || h.opening.Some? then h
      else h.(opening := Some(|h.acqs|), acqs := h.acqs + [Acquisition(h.generation, Connecting)])
    case Connected(a) =>
      if !IsConnecting(h, a) then h
      else if h.acqs[a].generation != h.generation then WithStatus(h, a, Late).(closed := h.closed + {a})
      else WithStatus(h, a, Published).(session := Some(a))
    case ConnectFailed(a) =>
      if IsConnecting(h, a) then WithStatus(h, a, Refused) else h
    case Settled(a) =>
      if a < |h.acqs| && !IsConnecting(h, a) && h.opening == Some(a) then h.(opening := None) else h
    case Close =>
      Harness(None, None, h.generation + 1, h.acqs, h.closed + if h.session.Some? then {h.session.value} else {})
  }

  function Run(h: Harness, events: seq<Event>): Harness {
    if events == [] then h else Next(Run(h, events[..|events| - 1]), events[|events| - 1])
  }

  /** The connection attempt produced a live session. */
  predicate Opened(h: Harness, a: Acq) {
    a < |h.acqs| && (h.acqs[a].status.Published? || h.acqs[a].status.Late?)
  }

  // ---- what every interleaving keeps ----

  ghost predicate Inv(h: Harness) {
    // the published session was opened in the current generation and is live
    && (h.session.Some? ==>
          var s := h.session.value;
          Opened(h, s) && h.acqs[s].generation == h.generation && s !in h.closed)
    && (h.opening.Some? ==> h.opening.value < |h.acqs| && h.acqs[h.opening.value].generation == h.generation)
    // an attempt still connecting in the current generation is the one being awaited
    && (forall a: Acq :: IsConnecting(h, a) && h.acqs[a].generation == h.generation ==>
          h.opening == Some(a) && h.session.None?)
    // one open attempt per generation
    && (forall a: Acq, b: Acq ::
          IsConnecting(h, a) && IsConnecting(h, b) && h.acqs[a].generation == h.acqs[b].generation ==> a == b)
    && (forall a :: 0 <= a < |h.acqs| ==> h.acqs[a].generation <= h.generation)
    // no session is lost: it is closed or it is the published one
    && (forall a: Acq :: Opened(h, a) ==> a in h.closed || h.session == Some(a))
    && (forall a: Acq :: a in h.closed ==> Opened(h, a))
  }

  /** Before a new attempt starts, none is connecting in the current generation. */
  lemma EnsureKeepsInv(h: Harness)
    requires Inv(h)
    ensures Inv(Next(h, Ensure))
  {
    var h' := Next(h, Ensure);
    forall a: Acq | IsConnecting(h', a) && a < |h.acqs| ensures IsConnecting(h, a) {
    }
  }

  lemma StatusChangeKeepsOthers(h: Harness, a: Acq, s: Status, b: Acq)
    requires a < |h.acqs|
    ensures |WithStatus(h, a, s).acqs| == |h.acqs|
    ensures b < |h.acqs| ==> WithStatus(h, a, s).acqs[b] == if b == a then h.acqs[a].(status := s) else h.acqs[b]
  {
  }

  lemma ConnectedKeepsInv(h: Harness, a: Acq)
    requires Inv(h)
    ensures Inv(Next(h, Connected(a)))
  {
    if IsConnecting(h, a) && h.acqs[a].generation == h.generation {
      var h' := Next(h, Connected(a));
      forall b: Acq | IsConnecting(h', b) ensures IsConnecting(h, b) && h.acqs[b].generation != h.generation {
        StatusChangeKeepsOthers(h, a, Published, b);
      }
    }
  }

  lemma FailedKeepsInv(h: Harness, a: Acq)
    requires Inv(h)
    ensures Inv(Next(h, ConnectFailed(a)))
  {
    if IsConnecting(h, a) {
      forall b: Acq | b < |h.acqs| { StatusChangeKeepsOthers(h, a, Refused, b); }
    }
  }

  lemma CloseKeepsInv(h: Harness)
    requires Inv(h)
    ensures Inv(Next(h, Close))
  {
  }

  lemma NextKeepsInv(h: Harness, e: Event)
    requires Inv(h)
    ensures Inv(Next(h, e))
  {
    match e
    case Ensure => EnsureKeepsInv(h);
    case Connected(a) => ConnectedKeepsInv(h, a);
    case ConnectFailed(a) => FailedKeepsInv(h, a);
    case Settled(a) =>
    case Close => CloseKeepsInv(h);
  }

  /** The invariant holds after every sequence of events. */
  lemma {:induction false} Reachable(events: seq<Event>)
    ensures Inv(Run(START, events))
  {
    if events != [] {
      Reachable(events[..|events| - 1]);
      NextKeepsInv(Run(START, events[..|events| - 1]), events[|events| - 1]);
    }
  }

  lemma {:induction false} RunKeepsInv(h: Harness, events: seq<Event>)
    requires Inv(h)
    ensures Inv(Run(h, events))
  {
    if events != [] {
      RunKeepsInv(h, events[..|events| - 1]);
      NextKeepsInv(Run(h, events[..|events| - 1]), events[|events| - 1]);
    }
  }

  /** What is fixed about an acquisition once it has been made. */
  lemma {:induction false} AcquisitionsStay(h: Harness, events: seq<Event>, a: Acq)
    requires a < |h.acqs|
    ensures a < |Run(h, events).acqs| && Run(h, events).acqs[a].generation == h.acqs[a].generation
    ensures Run(h, events).generation >= h.generation
    ensures h.acqs[a].status.Connecting? || Run(h, events).acqs[a].status == h.acqs[a].status
  {
    if events != [] { AcquisitionsStay(h, events[..|events| - 1], a); }
  }

  /** A session of a retired generation is never published again, whatever happens later. */
  lemma RetiredNeverReturns(h: Harness, events: seq<Event>, a: Acq)
    requires Inv(h) && a < |h.acqs| && h.acqs[a].generation < h.generation
    ensures Run(h, events).session != Some(a)
  {
    RunKeepsInv(h, events);
    AcquisitionsStay(h, events, a);
  }

  /** Once closed, always closed. */
  lemma {:induction false} ClosedForGood(h: Harness, events: seq<Event>, a: Acq)
    requires a in h.closed
    ensures a in Run(h, events).closed
  {
    if events != [] { ClosedForGood(h, events[..|events| - 1], a); }
  }

  lemma ClosedIsNotPublished(h: Harness, a: Acq)
    requires Inv(h) && a in h.closed
    ensures h.session != Some(a)
  {
  }

  lemma OneEventKeepsSession(h: Harness, e: Event, a: Acq)
    requires Inv(h) && h.session == Some(a)
    ensures if e.Close? then a in Next(h, e).closed else Next(h, e).session == Some(a)
  {
  }

  /** Over any run the published session stays exactly until the first close, which closes it for good. */
  lemma {:induction false} SessionStaysUntilClosed(h: Harness, events: seq<Event>, a: Acq)
    requires Inv(h) && h.session == Some(a)
    ensures if Close in events then a in Run(h, events).closed && Run(h, events).session != Some(a)
            else Run(h, events).session == Some(a)
  {
    if events != [] {
      var n := |events| - 1;
      assert events == events[..n] + [events[n]];
      SessionStaysUntilClosed(h, events[..n], a);
      RunKeepsInv(h, events[..n]);
      RunKeepsInv(h, events);
      if Close in events[..n] {
        ClosedForGood(Run(h, events[..n]), [events[n]], a);
        OneEventRun(Run(h, events[..n]), events[n]);
      } else {
        OneEventKeepsSession(Run(h, events[..n]), events[n], a);
      }
      if Close in events { ClosedIsNotPublished(Run(h, events), a); }
    }
  }

  lemma OneEventRun(h: Harness, e: Event)
    ensures Run(h, [e]) == Next(h, e)
  {
    assert [e][..0] == [];
  }

  /** Event `i` releases the pending acquisition: a close, or its own completion once it has an outcome. */
  ghost predicate Releases(h: Harness, events: seq<Event>, a: Acq, i: nat)
    requires i < |events|
  {
    events[i].Close? || (events[i] == Settled(a) && !IsConnecting(Run(h, events[..i]), a))
  }

  lemma OneEventReleases(h: Harness, e: Event, a: Acq)
    requires a < |h.acqs|
    ensures Next(h, e).opening == Some(a) <==>
            h.opening == Some(a) && !e.Close? && !(e == Settled(a) && !IsConnecting(h, a))
  {
  }

  /**
    Over any run an acquisition stays pending exactly until the first event that releases it; no other
    completion does.
  */
  lemma {:induction false} PendingClearedByItselfOnly(h: Harness, events: seq<Event>, a: Acq, n: nat)
    requires h.opening == Some(a) && a < |h.acqs| && n <= |events|
    ensures Run(h, events[..n]).opening == Some(a) <==> forall i :: 0 <= i < n ==> !Releases(h, events, a, i)
  {
    if n == 0 {
      assert events[..0] == [];
    } else {
      var m := n - 1;
      var now := Run(h, events[..m]);
      PendingClearedByItselfOnly(h, events, a, m);
      AcquisitionsStay(h, events[..m], a);
      OneEventReleases(now, events[m], a);
      RunOfMore(h, events, m);
      assert (forall i :: 0 <= i < n ==> !Releases(h, events, a, i)) <==>
             (forall i :: 0 <= i < m ==> !Releases(h, events, a, i)) && !Releases(h, events, a, m);
    }
  }

  lemma RunOfMore(h: Harness, events: seq<Event>, m: nat)
    requires m < |events|
    ensures Run(h, events[..m + 1]) == Next(Run(h, events[..m]), events[m])
  {
    assert events[..m + 1][..m] == events[..m];
  }

  /** Every session opened before a close ends up closed, whatever is called later. */
  lemma RetiredEndClosed(h: Harness, events: seq<Event>, a: Acq)
    requires Inv(h) && a < |h.acqs|
    ensures var h' := Run(Next(h, Close), events); Opened(h', a) ==> a in h'.closed
  {
    var next := Next(h, Close);
    NextKeepsInv(h, Close);
    RunKeepsInv(next, events);
    RetiredNeverReturns(next, events, a);
  }

  /** After a close, and without a new call, every session that was or will be opened ends up closed. */
  lemma {:induction false} NothingLeaksAfterClose(h: Harness, events: seq<Event>)
    requires Inv(h) && forall e :: e in events ==> !e.Ensure?
    ensures var h' := Run(Next(h, Close), events);
            h'.session.None? && forall a: Acq :: Opened(h', a) ==> a in h'.closed
  {
    NextKeepsInv(h, Close);
    RunKeepsInv(Next(h, Close), events);
    ClosedStaysClosed(Next(h, Close), events);
  }

  lemma {:induction false} ClosedStaysClosed(h: Harness, events: seq<Event>)
    requires Inv(h) && h.session.None? && h.opening.None? && forall e :: e in events ==> !e.Ensure?
    ensures Run(h, events).session.None? && Run(h, events).opening.None?
  {
    if events != [] {
      var last := |events| - 1;
      assert events[last] in events;
      ClosedStaysClosed(h, events[..last]);
      RunKeepsInv(h, events[..last]);
    }
  }

  // ---- the module variables ----

  /** What a call of `ensureSession` goes on with: a live session, or an acquisition to await. */
  datatype Answer = Have(s: Acq) | Await(a: Acq)

  class HarnessConnection {
    var session: Option<Acq>
    var opening: Option<Acq>
    var generation: nat
    // the connections themselves, outside the module; `made` numbers them
    ghost var acqs: seq<Acquisition>
    ghost var closed: set<Acq>
    var made: nat

    ghost function View(): Harness
      reads this
    {
      Harness(session, opening, generation, acqs, closed)
    }

    ghost predicate Valid()
      reads this
    {
      made == |acqs| && Inv(View())
    }

    constructor ()
      ensures Valid() && View() == START
    {
      session, opening, generation, made := None, None, 0, 0;
      acqs, closed := [], {};
    }

    method EnsureSession() returns (r: Answer)
      requires Valid()
      modifies this
      ensures Valid() && View() == Next(old(View()), Ensure)
      ensures match r
              case Have(s) => session == Some(s)
              case Await(a) => session.None? && opening == Some(a)
    {
      NextKeepsInv(View(), Ensure);
      if session.Some? { return Have(session.value); }
      if opening.Some? { return Await(opening.value); }
      opening := Some(made);
      acqs := acqs + [Acquisition(generation, Connecting)];
      made := made + 1;
      r := Await(opening.value);
    }

    /** The `then` callback of attempt `a`, which captured generation `g`; tells whether it throws. */
    method OnConnected(a: Acq, g: nat) returns (retired: bool)
      requires Valid() && IsConnecting(View(), a) && acqs[a].generation == g
      modifies this
      ensures Valid() && View() == Next(old(View()), Connected(a))
      ensures retired <==> a in closed
    {
      NextKeepsInv(View(), Connected(a));
      retired := g != generation;
      if retired {
        closed := closed + {a};
        acqs := acqs[a := acqs[a].(status := Late)];
      } else {
        session := Some(a);
        acqs := acqs[a := acqs[a].(status := Published)];
      }
    }

    /** The `finally` block of the call that started attempt `a`. */
    method OnSettled(a: Acq)
      requires Valid() && a < made && !IsConnecting(View(), a)
      modifies this
      ensures Valid() && View() == Next(old(View()), Settled(a))
    {
      NextKeepsInv(View(), Settled(a));
      if opening == Some(a) { opening := None; }
    }

    method CloseConnection()
      requires Valid()
      modifies this
      ensures Valid() && View() == Next(old(View()), Close)
    {
      NextKeepsInv(View(), Close);
      generation := generation + 1;
      opening := None;
      var s := session;
      session := None;
      if s.Some? { closed := closed + {s.value}; }
    }
  }
}
