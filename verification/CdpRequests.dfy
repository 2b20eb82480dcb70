/**
  Requests over one CDP session: ids handed out in order, replies matched by id, and optional
  deadlines.  Sends, replies and timers interleave in any order; replies may repeat or be bogus.
*/
module CdpRequests {

  type Id = nat

  datatype Answer = Replied | Errored | TimedOut

  /** `answers` lists, per request made, what its promise was settled with. */
  datatype Session = Session(nextId: Id, pending: set<Id>, timers: set<Id>, answers: map<Id, seq<Answer>>)

  /** A send that throws on the socket has used up its id but made no promise. */
  datatype Event = Send(timed: bool) | SendThrows | Reply(id: Id, isError: bool) | Timer(id: Id)

  const START := Session(1, {}, {}, map[])

  function Settle(s: Session, id: Id, a: Answer): Session
    requires id in s.answers
  {
    Session(s.nextId, s.pending - {id}, s.timers - {id}, s.answers[id := s.answers[id] + [a]])
  }

  function Next(s: Session, e: Event): Session {
    match e
    case Send(timed) =>
      var id := s.nextId;
      Session(id + 1, s.pending + {id}, if timed then s.timers + {id} else s.timers, s.answers[id := []])
    case SendThrows => s.(nextId := s.nextId + 1)
    case Reply(id, isError) =>
      if id != 0 && id in s.pending && id in s.answers then Settle(s, id, if isError then Errored else Replied) else s
    case Timer(id) =>
      if id !in s.timers then s
      else if id in s.pending && id in s.answers then Settle(s, id, TimedOut)
      else s.(timers := s.timers - {id})
  }

  function Run(events: seq<Event>): Session {
    if events == [] then START else Next(Run(events[..|events| - 1]), events[|events| - 1])
  }

  ghost predicate Inv(s: Session) {
    && s.nextId > 0
    && (forall id :: id in s.answers ==> 0 < id < s.nextId && |s.answers[id]| <= 1)
    && (forall id :: id in s.pending <==> id in s.answers && s.answers[id] == [])
    && s.timers <= s.pending
  }

  /**
    After every sequence of events each request has been settled at most once, the pending table is
    exactly the unsettled requests, and no settled request has a timer left.
  */
  lemma {:induction false} PendingIsUnsettled(events: seq<Event>)
    ensures Inv(Run(events))
  {
    if events != [] {
      PendingIsUnsettled(events[..|events| - 1]);
    }
  }

  function Sends(events: seq<Event>): nat {
    if events == [] then 0
    else Sends(events[..|events| - 1])
         + if events[|events| - 1].Send? || events[|events| - 1].SendThrows? then 1 else 0
  }

  /** Every send uses up the next id, and those that do not throw make the request of that id. */
  lemma {:induction false} IdsExactly(events: seq<Event>, id: Id)
    ensures Run(events).nextId == 1 + Sends(events)
    ensures id in Run(events).answers <==>
            exists i :: 0 <= i < |events| && events[i].Send? && id == 1 + Sends(events[..i])
  {
    if events != [] {
      var n := |events| - 1;
      IdsExactly(events[..n], id);
      RequestsMore(events, id);
    }
  }

  lemma RequestsMore(events: seq<Event>, id: Id)
    requires events != []
    ensures var n := |events| - 1;
            (exists i :: 0 <= i < |events| && events[i].Send? && id == 1 + Sends(events[..i])) <==>
            || (exists i :: 0 <= i < n && events[..n][i].Send? && id == 1 + Sends(events[..n][..i]))
            || (events[n].Send? && id == 1 + Sends(events[..n]))
  {
    var n := |events| - 1;
    forall i | 0 <= i < n ensures events[..n][..i] == events[..i] {
    }
    if i :| 0 <= i < |events| && events[i].Send? && id == 1 + Sends(events[..i]) {
      if i < n { assert events[..n][i].Send? && id == 1 + Sends(events[..n][..i]); }
    }
    if i :| 0 <= i < n && events[..n][i].Send? && id == 1 + Sends(events[..n][..i]) {
      assert events[i].Send? && id == 1 + Sends(events[..i]);
    }
  }

  // ---- which event settles a request ----

  /** The first event of `events` that can answer request `id`. */
  function FirstAnswer(events: seq<Event>, id: Id, timed: bool): seq<Answer> {
    if events == [] then []
    else
      var earlier, e := FirstAnswer(events[..|events| - 1], id, timed), events[|events| - 1];
      if earlier != [] then earlier
      else if e.Reply? && e.id == id then [if e.isError then Errored else Replied]
      else if e.Timer? && e.id == id && timed then [TimedOut]
      else []
  }

  /** The request has the answers given, and its timer is armed while it has none. */
  ghost predicate AnsweredBy(s: Session, id: Id, timed: bool, answers: seq<Answer>) {
    && Inv(s) && id in s.answers && s.answers[id] == answers
    && (id in s.timers <==> timed && answers == [])
  }

  lemma OneEventAnswers(s: Session, e: Event, id: Id, timed: bool, earlier: seq<Event>)
    requires AnsweredBy(s, id, timed, FirstAnswer(earlier, id, timed))
    ensures AnsweredBy(Next(s, e), id, timed, FirstAnswer(earlier + [e], id, timed))
  {
    assert (earlier + [e])[..|earlier|] == earlier;
  }

  /** A request is settled by the first event after it that can answer it, and by no other. */
  lemma {:induction false} FirstAnswerSettles(before: seq<Event>, timed: bool, events: seq<Event>)
    ensures var id := Run(before).nextId;
            AnsweredBy(Run(before + [Send(timed)] + events), id, timed, FirstAnswer(events, id, timed))
  {
    var all, id := before + [Send(timed)] + events, Run(before).nextId;
    if events == [] {
      assert all[..|all| - 1] == before;
      PendingIsUnsettled(before);
    } else {
      var last := |events| - 1;
      FirstAnswerSettles(before, timed, events[..last]);
      assert all[..|all| - 1] == before + [Send(timed)] + events[..last];
      assert events[..last] + [events[last]] == events;
      OneEventAnswers(Run(all[..|all| - 1]), events[last], id, timed, events[..last]);
    }
  }

  // ---- the session object ----

  class CdpSession {
    var nextId: Id
    var pending: map<Id, bool>
    ghost var timers: set<Id>
    ghost var answers: map<Id, seq<Answer>>

    ghost function View(): Session
      reads this
    {
      Session(nextId, pending.Keys, timers, answers)
    }

    ghost predicate Valid()
      reads this
    {
      Inv(View()) && forall id :: id in pending && pending[id] ==> id in timers
    }

    constructor ()
      ensures Valid() && View() == START
    {
      nextId, pending, timers, answers := 1, map[], {}, map[];
    }

    /** `pending[id]` tells whether settling the request must clear a timer. */
    method SendRequest(socketThrows: bool, timed: bool) returns (id: Id)
      requires Valid()
      modifies this
      ensures Valid() && View() == Next(old(View()), if socketThrows then SendThrows else Send(timed))
    {
      id := nextId;
      nextId := nextId + 1;
      if socketThrows { return; }
      pending := pending[id := false];
      answers := answers[id := []];
      if timed {
        timers := timers + {id};
        pending := pending[id := true];
      }
    }

    method OnMessage(id: Id, isError: bool) returns (matched: bool)
      requires Valid()
      modifies this
      ensures Valid() && View() == Next(old(View()), Reply(id, isError))
      ensures matched <==> id != 0 && id in old(pending)
    {
      matched := id != 0 && id in pending;
      if matched {
        pending := pending - {id};
        timers := timers - {id};
        answers := answers[id := answers[id] + [if isError then Errored else Replied]];
      }
    }

    method OnTimer(id: Id)
      requires Valid() && id in timers
      modifies this
      ensures Valid() && View() == Next(old(View()), Timer(id))
    {
      timers := timers - {id};
      if id !in pending { return; }
      pending := pending - {id};
      answers := answers[id := answers[id] + [TimedOut]];
    }
  }
}
