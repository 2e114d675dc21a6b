/** Runs of the signalling server together with the audio sessions that latch its connections: a
    session latches the connections it is assigned and unlatches them when it is unassigned. */
module LatchedConnections {
  import opened SignallingServer

  type Id = nat

  /** The connections that are known, and which of them each session holds. */
  datatype State = State(connections: map<Id, Status>, holds: map<Id, set<Id>>)
  {
    predicate IsHeldBy(session: Id, c: Id) {
      session in holds && c in holds[session]
    }

    /** Every connection that a session holds is latched. */
    ghost predicate Latched() {
      forall s, c :: IsHeldBy(s, c) ==> c in connections && connections[c].latched
    }
  }

  datatype Event =
    | Activity(connection: Id, running: bool, now: nat)
    | Evaluation(now: nat)
    | Assign(session: Id, connection: Id)
    | Unassign(session: Id)

  function Next(s: State, e: Event, timeout: nat): State {
    match e
    case Activity(c, running, now) =>
      var latched := c in s.connections && s.connections[c].latched;
      s.(connections := s.connections[c := Status(running, latched, now)])
    case Evaluation(now) =>
      s.(connections := map c | c in s.connections :: s.connections[c].Evaluated(now, timeout))
    case Assign(session, c) =>
      if c !in s.connections then s else
        var held := if session in s.holds then s.holds[session] else {};
        State(s.connections[c := s.connections[c].(latched := true)], s.holds[session := held + {c}])
    case Unassign(session) =>
      if session !in s.holds then s else
        State(map c | c in s.connections ::
                if c in s.holds[session] then s.connections[c].(latched := false) else s.connections[c],
              s.holds - {session})
  }

  function After(s: State, run: seq<Event>, timeout: nat): State
    decreases |run|
  {
    if run == [] then s else After(Next(s, run[0], timeout), run[1..], timeout)
  }

  /** A connection serves one session only. */
  ghost predicate Exclusive(s: State) {
    forall a, b, c :: s.IsHeldBy(a, c) && s.IsHeldBy(b, c) ==> a == b
  }

  /** Connections are assigned to sessions in such a way that each serves one only. */
  ghost predicate Disciplined(s: State, run: seq<Event>, timeout: nat)
    decreases |run|
  {
    Exclusive(s) && (run == [] || Disciplined(Next(s, run[0], timeout), run[1..], timeout))
  }

  /** Ending a session leaves the connections of the others latched exactly if it shares none with
      them. */
  lemma UnassignBreaksExactly(s: State, session: Id, timeout: nat)
    requires s.Latched() && session in s.holds
    ensures Next(s, Unassign(session), timeout).Latched()
            <==> forall b, c :: s.IsHeldBy(b, c) && b != session ==> !s.IsHeldBy(session, c)
  {
    var t := Next(s, Unassign(session), timeout);
    forall b, c
      ensures t.IsHeldBy(b, c) <==> s.IsHeldBy(b, c) && b != session
    {
    }
    if b, c :| s.IsHeldBy(b, c) && b != session && s.IsHeldBy(session, c) {
      assert t.IsHeldBy(b, c) && !t.connections[c].latched;
    }
  }

  /** No other event unlatches a connection that is held. */
  lemma StepKeepsLatches(s: State, e: Event, timeout: nat)
    requires s.Latched() && Exclusive(s)
    ensures Next(s, e, timeout).Latched()
  {
    var t := Next(s, e, timeout);
    forall b, c | t.IsHeldBy(b, c)
      ensures c in t.connections && t.connections[c].latched
    {
      if s.IsHeldBy(b, c) {
        assert s.connections[c].latched;
        match e
        case Unassign(session) => assert s.IsHeldBy(session, c) ==> session == b;
        case _ =>
      }
    }
  }

  /** As long as each connection serves one session only, no evaluation in any run touches a
      connection that is held, however long it has been idle. */
  lemma {:induction false} HeldConnectionsAreSpared(s: State, run: seq<Event>, timeout: nat, i: nat, session: Id, c: Id)
    requires s.Latched() && Disciplined(s, run, timeout)
    requires i < |run| && run[i].Evaluation? && After(s, run[..i], timeout).IsHeldBy(session, c)
    ensures c in After(s, run[..i], timeout).connections && c in After(s, run[..i + 1], timeout).connections
    ensures After(s, run[..i + 1], timeout).connections[c] == After(s, run[..i], timeout).connections[c]
    decreases |run|
  {
    if i == 0 {
      assert run[..1][1..] == [];
    } else {
      StepKeepsLatches(s, run[0], timeout);
      assert run[..i][1..] == run[1..][..i - 1];
      assert run[..i + 1][1..] == run[1..][..i];
      HeldConnectionsAreSpared(Next(s, run[0], timeout), run[1..], timeout, i - 1, session, c);
    }
  }

  /** From its assignment until its session is unassigned, a connection that the device does not
      close itself stays open. */
  lemma {:induction false} HeldConnectionStaysOpen(s: State, run: seq<Event>, timeout: nat, session: Id, c: Id)
    requires s.Latched() && Disciplined(s, run, timeout)
    requires s.IsHeldBy(session, c) && s.connections[c].open
    requires Unassign(session) !in run
    requires forall e :: e in run && e.Activity? && e.connection == c ==> e.running
    ensures After(s, run, timeout).IsHeldBy(session, c)
    ensures var t := After(s, run, timeout); c in t.connections && t.connections[c].open && t.connections[c].latched
    decreases |run|
  {
    if run != [] {
      var e := run[0];
      assert e in run;
      StepKeepsLatches(s, e, timeout);
      assert Next(s, e, timeout).IsHeldBy(session, c);
      assert forall f :: f in run[1..] ==> f in run;
      HeldConnectionStaysOpen(Next(s, e, timeout), run[1..], timeout, session, c);
    }
  }

  /** An evaluation closes every open connection that is not latched and was last used the timeout ago
      or earlier, and changes nothing else. */
  lemma EvaluationIsExact(s: State, now: nat, timeout: nat, c: Id)
    requires c in s.connections
    ensures var t := Next(s, Evaluation(now), timeout);
            && t.holds == s.holds && c in t.connections
            && (t.connections[c].open <==>
                  && s.connections[c].open
                  && (s.connections[c].latched || (0 < timeout && now < s.connections[c].lastActivity + timeout)))
            && t.connections[c].latched == s.connections[c].latched
            && t.connections[c].lastActivity == s.connections[c].lastActivity
  {
  }

  /** From its last use on, a connection that is up and that nobody latches meanwhile is closed exactly
      by the first evaluation that comes the timeout after that use or later. */
  lemma {:induction false} ClosedExactlyWhenIdle(s: State, c: Id, now: nat, run: seq<Event>, timeout: nat)
    requires timeout > 0
    requires !(c in s.connections && s.connections[c].latched)
    requires forall e :: e in run ==> !(e.Activity? && e.connection == c) && !(e.Assign? && e.connection == c)
    ensures var t := After(s, [Activity(c, true, now)] + run, timeout);
            && c in t.connections && !t.connections[c].latched && t.connections[c].lastActivity == now
            && (t.connections[c].open <==> forall e :: e in run && e.Evaluation? ==> e.now < now + timeout)
    decreases |run|
  {
    var used := Next(s, Activity(c, true, now), timeout);
    assert ([Activity(c, true, now)] + run)[1..] == run;
    IdlesUntilClosed(used, c, run, timeout);
  }

  lemma {:induction false} IdlesUntilClosed(s: State, c: Id, run: seq<Event>, timeout: nat)
    requires timeout > 0 && c in s.connections && !s.connections[c].latched
    requires forall e :: e in run ==> !(e.Activity? && e.connection == c) && !(e.Assign? && e.connection == c)
    ensures var t := After(s, run, timeout);
            && c in t.connections && !t.connections[c].latched
            && t.connections[c].lastActivity == s.connections[c].lastActivity
            && (t.connections[c].open <==>
                  && s.connections[c].open
                  && forall e :: e in run && e.Evaluation? ==> e.now < s.connections[c].lastActivity + timeout)
    decreases |run|
  {
    if run != [] {
      assert run == [run[0]] + run[1..];
      var t := Next(s, run[0], timeout);
      assert run[0] in run && forall e :: e in run[1..] ==> e in run;
      assert forall e :: e in run ==> e == run[0] || e in run[1..];
      IdlesUntilClosed(t, c, run[1..], timeout);
    }
  }

  /** Two sessions that share a connection: when one ends, the next evaluation may close the
      connection under the other. */
  lemma SharedConnectionIsClosed()
    ensures var s := State(map[0 := Status(true, false, 0)], map[]);
            var run := [Assign(1, 0), Assign(2, 0), Unassign(2), Evaluation(60)];
            var t := After(s, run, 50);
            !Disciplined(s, run, 50) && t.IsHeldBy(1, 0) && 0 in t.connections && !t.connections[0].open
  {
    var s := State(map[0 := Status(true, false, 0)], map[]);
    var run := [Assign(1, 0), Assign(2, 0), Unassign(2), Evaluation(60)];
    var s1 := Next(s, run[0], 50);
    var s2 := Next(s1, run[1], 50);
    var s3 := Next(s2, run[2], 50);
    var s4 := Next(s3, run[3], 50);
    assert run[1..] == [run[1], run[2], run[3]];
    assert run[1..][1..] == [run[2], run[3]];
    assert run[1..][1..][1..] == [run[3]];
    assert s2.IsHeldBy(1, 0) && s2.IsHeldBy(2, 0);
    assert s3.connections[0] == Status(true, false, 0) && s3.IsHeldBy(1, 0);
    assert After(s3, [run[3]], 50) == s4;
  }
}
