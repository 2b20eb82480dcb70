/**
  What every attempt to connect comes to, told from the events alone: an attempt is made by a call
  that finds neither a session nor an attempt to await, and the first answer to it decides; a close in
  between makes a successful answer come too late.
*/
module SessionHistory {
  import opened Options
  import opened SessionOwnership

  function After(events: seq<Event>, n: nat): Harness
    requires n <= |events|
  {
    Run(START, events[..n])
  }

  lemma OneMore(events: seq<Event>, n: nat)
    requires n < |events|
    ensures After(events, n + 1) == Next(After(events, n), events[n])
  {
    RunOfMore(START, events, n);
  }

  /** How many closes there are among the first `n` events. */
  function Closes(events: seq<Event>, n: nat): nat
    requires n <= |events|
  {
    if n == 0 then 0 else Closes(events, n - 1) + if events[n - 1].Close? then 1 else 0
  }

  ghost predicate CloseIn(events: seq<Event>, i: nat, n: nat)
    requires n <= |events|
  {
    exists m :: i <= m < n && events[m].Close?
  }

  lemma {:induction false} ClosesCount(events: seq<Event>, i: nat, n: nat)
    requires i <= n <= |events|
    ensures Closes(events, i) <= Closes(events, n)
    ensures Closes(events, i) < Closes(events, n) <==> CloseIn(events, i, n)
  {
    if i < n {
      ClosesCount(events, i, n - 1);
      if events[n - 1].Close? { assert i <= n - 1 < n; }
    }
  }

  lemma {:induction false} GenerationIsCloses(events: seq<Event>, n: nat)
    requires n <= |events|
    ensures After(events, n).generation == Closes(events, n)
  {
    if n > 0 {
      GenerationIsCloses(events, n - 1);
      OneMore(events, n - 1);
    }
  }

  // ---- making attempts ----

  /** Event `i` is the call that makes attempt `a`. */
  ghost predicate MadeAt(events: seq<Event>, i: nat, a: Acq)
    requires i < |events|
  {
    |After(events, i).acqs| == a && |After(events, i + 1).acqs| == a + 1
  }

  /**
    An attempt is made exactly by a call that finds neither a session nor an attempt to await, and is
    the awaited one from then on.
  */
  lemma MadeByFreshCall(events: seq<Event>, i: nat)
    requires i < |events|
    ensures var h, h' := After(events, i), After(events, i + 1);
            && (MadeAt(events, i, |h.acqs|) <==> events[i].Ensure? && h.session == None && h.opening == None)
            && (MadeAt(events, i, |h.acqs|) ==> h'.opening == Some(|h.acqs|) && IsConnecting(h', |h.acqs|))
            && (MadeAt(events, i, |h.acqs|) ==> h'.session == None)
            && (events[i].Ensure? && !MadeAt(events, i, |h.acqs|) ==> h' == h)
  {
    OneMore(events, i);
  }

  // ---- what answers them ----

  predicate Answers(e: Event, a: Acq) { e == Connected(a) || e == ConnectFailed(a) }

  /** Event `m` is the first answer to attempt `a`, made at `i`. */
  ghost predicate FirstAnswer(events: seq<Event>, i: nat, m: nat, a: Acq)
    requires m < |events|
  {
    i < m && Answers(events[m], a) && forall k :: i < k < m ==> !Answers(events[k], a)
  }

  lemma {:induction false} StillConnecting(events: seq<Event>, i: nat, n: nat, a: Acq)
    requires i < n <= |events| && MadeAt(events, i, a) && forall k :: i < k < n ==> !Answers(events[k], a)
    ensures IsConnecting(After(events, n), a) && After(events, n).acqs[a].generation == Closes(events, i)
  {
    OneMore(events, n - 1);
    if n - 1 == i {
      GenerationIsCloses(events, i);
    } else {
      StillConnecting(events, i, n - 1, a);
    }
  }

  /** What an attempt has come to once its first answer is in: published, closed as too late, or refused. */
  lemma AnswerDecides(events: seq<Event>, i: nat, m: nat, a: Acq)
    requires m < |events| && i < m && MadeAt(events, i, a) && FirstAnswer(events, i, m, a)
    ensures var h := After(events, m + 1);
            && a < |h.acqs| && !IsConnecting(h, a)
            && (Opened(h, a) <==> events[m] == Connected(a))
            && (h.session == Some(a) <==> events[m] == Connected(a) && !CloseIn(events, i, m))
            && (a in h.closed <==> events[m] == Connected(a) && CloseIn(events, i, m))
  {
    var h := After(events, m);
    StillConnecting(events, i, m, a);
    GenerationIsCloses(events, m);
    ClosesCount(events, i, m);
    OneMore(events, m);
    Reachable(events[..m]);
    Reachable(events[..m + 1]);
  }

  // ---- the session, over whole runs ----

  /**
    After any run the session is attempt `a` exactly when `a` was made, its first answer was a
    connection, and nothing was closed since it was made.
  */
  lemma SessionExactly(events: seq<Event>, n: nat, a: Acq)
    requires n <= |events|
    ensures After(events, n).session == Some(a) <==>
            exists i, m :: 0 <= i < m < n && MadeAt(events, i, a) && FirstAnswer(events, i, m, a)
                           && events[m] == Connected(a) && !CloseIn(events, i, n)
  {
    if i, m :| 0 <= i < m < n && MadeAt(events, i, a) && FirstAnswer(events, i, m, a)
               && events[m] == Connected(a) && !CloseIn(events, i, n) {
      assert !CloseIn(events, i, m);
      AnswerDecides(events, i, m, a);
      StaysPublished(events, m + 1, n, a);
    }
    if After(events, n).session == Some(a) { PublishedBefore(events, n, a); }
  }

  lemma {:induction false} StaysPublished(events: seq<Event>, m: nat, n: nat, a: Acq)
    requires m <= n <= |events| && After(events, m).session == Some(a) && forall k :: m <= k < n ==> !events[k].Close?
    ensures After(events, n).session == Some(a)
  {
    if m < n {
      StaysPublished(events, m, n - 1, a);
      OneMore(events, n - 1);
      Reachable(events[..n - 1]);
      OneEventKeepsSession(After(events, n - 1), events[n - 1], a);
    }
  }

  /** Every attempt there is was made by some event. */
  lemma {:induction false} WasMade(events: seq<Event>, n: nat, a: Acq) returns (i: nat)
    requires n <= |events| && a < |After(events, n).acqs|
    ensures i < n && MadeAt(events, i, a)
  {
    OneMore(events, n - 1);
    if a < |After(events, n - 1).acqs| { i := WasMade(events, n - 1, a); } else { i := n - 1; }
  }

  /** An attempt that is no longer connecting has had a first answer. */
  lemma {:induction false} WasAnswered(events: seq<Event>, i: nat, n: nat, a: Acq) returns (m: nat)
    requires i < n <= |events| && MadeAt(events, i, a) && !IsConnecting(After(events, n), a)
    ensures m < n && FirstAnswer(events, i, m, a)
  {
    if k :| i < k < n && Answers(events[k], a) {
      m := EarliestAnswer(events, i, k, a);
    } else {
      StillConnecting(events, i, n, a);
      assert false;
    }
  }

  lemma {:induction false} EarliestAnswer(events: seq<Event>, i: nat, k: nat, a: Acq) returns (m: nat)
    requires i < k < |events| && Answers(events[k], a)
    ensures m <= k && FirstAnswer(events, i, m, a)
    decreases k
  {
    if l :| i < l < k && Answers(events[l], a) { m := EarliestAnswer(events, i, l, a); } else { m := k; }
  }

  lemma PublishedBefore(events: seq<Event>, n: nat, a: Acq)
    requires n <= |events| && After(events, n).session == Some(a)
    ensures exists i, m :: 0 <= i < m < n && MadeAt(events, i, a) && FirstAnswer(events, i, m, a)
                           && events[m] == Connected(a) && !CloseIn(events, i, n)
  {
    Reachable(events[..n]);
    var i := WasMade(events, n, a);
    var m := WasAnswered(events, i, n, a);
    AnswerDecides(events, i, m, a);
    GenerationIsCloses(events, n);
    ClosesCount(events, i, n);
    StillConnecting(events, i, m, a);
    OneMore(events, m);
    AcquisitionsFrom(events, m + 1, n, a);
    assert 0 <= i < m < n && MadeAt(events, i, a) && FirstAnswer(events, i, m, a);
  }

  lemma AcquisitionsFrom(events: seq<Event>, m: nat, n: nat, a: Acq)
    requires m <= n <= |events| && a < |After(events, m).acqs| && !IsConnecting(After(events, m), a)
    ensures a < |After(events, n).acqs| && After(events, n).acqs[a] == After(events, m).acqs[a]
  {
    RunOfParts(START, events[..m], events[m..n]);
    assert events[..n] == events[..m] + events[m..n];
    AcquisitionsStay(After(events, m), events[m..n], a);
  }

  lemma {:induction false} RunOfParts(h: Harness, a: seq<Event>, b: seq<Event>)
    ensures Run(h, a + b) == Run(Run(h, a), b)
  {
    if b == [] {
      assert a + b == a;
    } else {
      assert (a + b)[..|a + b| - 1] == a + b[..|b| - 1];
      RunOfParts(h, a, b[..|b| - 1]);
    }
  }

  /** After any run an attempt's session is closed exactly if it connected and a close came after it was made. */
  lemma ClosedExactly(events: seq<Event>, n: nat, a: Acq)
    requires n <= |events|
    ensures a in After(events, n).closed <==>
            exists i, m :: 0 <= i < m < n && MadeAt(events, i, a) && FirstAnswer(events, i, m, a)
                           && events[m] == Connected(a) && CloseIn(events, i, n)
  {
    Reachable(events[..n]);
    if i, m :| 0 <= i < m < n && MadeAt(events, i, a) && FirstAnswer(events, i, m, a)
               && events[m] == Connected(a) && CloseIn(events, i, n) {
      OpenedEnds(events, i, m, n, a);
    }
    if a in After(events, n).closed {
      var i := WasMade(events, n, a);
      var m := WasAnswered(events, i, n, a);
      OpenedEnds(events, i, m, n, a);
      assert 0 <= i < m < n && MadeAt(events, i, a) && FirstAnswer(events, i, m, a);
    }
  }

  /** An attempt that was answered ends closed exactly if it connected and a close came since it was made. */
  lemma OpenedEnds(events: seq<Event>, i: nat, m: nat, n: nat, a: Acq)
    requires i < m < n <= |events| && MadeAt(events, i, a) && FirstAnswer(events, i, m, a)
    ensures a in After(events, n).closed <==> events[m] == Connected(a) && CloseIn(events, i, n)
  {
    var h := After(events, n);
    AnswerDecides(events, i, m, a);
    AcquisitionsFrom(events, m + 1, n, a);
    StillConnecting(events, i, m, a);
    OneMore(events, m);
    Reachable(events[..n]);
    GenerationIsCloses(events, n);
    ClosesCount(events, i, n);
    assert h.acqs[a].generation == Closes(events, i);
    if events[m] == Connected(a) && !CloseIn(events, i, n) {
      assert !CloseIn(events, i, m);
      StaysPublished(events, m + 1, n, a);
    }
  }
}
