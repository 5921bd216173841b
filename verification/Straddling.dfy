/** A run of the machine in Rpc in which a call takes away the entry of another one. */
module Straddling {
  import opened Streams
  import opened Runs
  import opened RequestIds
  import opened Rpc
  import opened RpcTheorems

  /** Call 0 gets its response after calls on other readers have moved the cursor once round the ring. */
  const ANSWERED_THEN_END :=
    [Begin(0, true), Write(0), Drained(0), Spawn, Respond(0), Others(0, map[0 := Pending]), Deliver, End]
  const STRADDLE := [Begin(1, true), Wake(0)]
  const WAIT_IN_VAIN := [Write(1), Drained(1), End]

  /** A state with no call but call 0, which has ID 0. */
  function Sole(cursor: nat, future: Future<nat>, phase: Phase, requests: seq<Packet>, tasks: seq<Packet>,
                responses: seq<Packet>): State {
    State(Client(cursor, Some(map[0 := 0]), map[0 := future], 1), map[0 := Call(0, phase, 0)],
          requests, tasks, responses, 0)
  }

  lemma SoleBegins(n: nat)
    requires 0 < n
    ensures Next(n, FRESH, Begin(0, true)) == Some(Sole(After(0, n), Pending, Locking, [], [], []))
  {
  }

  lemma SoleMoves(n: nat, cursor: nat, future: Future<nat>, phase: Phase, next: Phase)
    ensures SetPhase(Sole(cursor, future, phase, [], [], []), 0, next) == Sole(cursor, future, next, [], [], [])
  {
    assert map[0 := Call(0, phase, 0)][0 := Call(0, next, 0)] == map[0 := Call(0, next, 0)];
  }

  lemma SoleIsWritten(n: nat, cursor: nat)
    ensures Next(n, Sole(cursor, Pending, Locking, [], [], []), Write(0)) ==
      Some(Sole(cursor, Pending, Draining, [Packet(0, 0)], [], []))
  {
    SoleMoves(n, cursor, Pending, Locking, Draining);
    assert [] + [Packet(0, 0)] == [Packet(0, 0)];
  }

  lemma SoleIsDrained(n: nat, cursor: nat, requests: seq<Packet>)
    ensures Next(n, Sole(cursor, Pending, Draining, requests, [], []), Drained(0)) ==
      Some(Sole(cursor, Pending, Waiting, requests, [], []))
  {
    SoleMoves(n, cursor, Pending, Draining, Waiting);
  }

  lemma SoleIsServed(n: nat, cursor: nat)
    ensures Next(n, Sole(cursor, Pending, Waiting, [Packet(0, 0)], [], []), Spawn) ==
      Some(Sole(cursor, Pending, Waiting, [], [Packet(0, 0)], []))
    ensures Next(n, Sole(cursor, Pending, Waiting, [], [Packet(0, 0)], []), Respond(0)) ==
      Some(Sole(cursor, Pending, Waiting, [], [], [Packet(0, 0)]))
  {
    assert [Packet(0, 0)][1..] == [] && [] + [Packet(0, 0)] == [Packet(0, 0)];
    assert Without([Packet(0, 0)], 0) == [];
  }

  lemma SoleWaitsForOthers(n: nat, cursor: nat)
    requires 0 < n
    ensures Next(n, Sole(cursor, Pending, Waiting, [], [], [Packet(0, 0)]), Others(0, map[0 := Pending]))
      == Some(Sole(0, Pending, Waiting, [], [], [Packet(0, 0)]))
  {
  }

  lemma SoleIsAnswered(n: nat, cursor: nat)
    ensures Next(n, Sole(cursor, Pending, Waiting, [], [], [Packet(0, 0)]), Deliver) ==
      Some(Sole(cursor, Answered(0), Waiting, [], [], []))
  {
    var s := Sole(cursor, Pending, Waiting, [], [], [Packet(0, 0)]);
    assert s.responses[1..] == [];
    assert s.client.futures[0 := Answered(0)] == map[0 := Answered(0)];
  }

  /** Call 0 has its response but has not run yet; the handler has ended. */
  const ANSWERED_AND_ENDED: State :=
    State(Client(0, None, map[0 := Answered(0)], 0), map[0 := Call(0, Waiting, 0)], [], [], [], 1)

  lemma HandlerEnds(n: nat)
    ensures Next(n, Sole(0, Answered(0), Waiting, [], [], []), End) == Some(ANSWERED_AND_ENDED)
  {
    assert FailPending(Sole(0, Answered(0), Waiting, [], [], []).client) == map[0 := Answered(0)];
  }

  lemma CallIsAnsweredThenEnds(n: nat)
    requires 0 < n
    ensures Reach(n, FRESH, ANSWERED_THEN_END) == Some(ANSWERED_AND_ENDED)
  {
    var c, ps := After(0, n), [Packet(0, 0)];
    SoleBegins(n);
    SoleIsWritten(n, c);
    SoleIsDrained(n, c, ps);
    SoleIsServed(n, c);
    SoleWaitsForOthers(n, c);
    SoleIsAnswered(n, 0);
    HandlerEnds(n);
    RunAlong((t: State, step: Step) => Next(n, t, step),
      [FRESH, Sole(c, Pending, Locking, [], [], []), Sole(c, Pending, Draining, ps, [], []),
       Sole(c, Pending, Waiting, ps, [], []),
       Sole(c, Pending, Waiting, [], ps, []), Sole(c, Pending, Waiting, [], [], ps),
       Sole(0, Pending, Waiting, [], [], ps),
       Sole(0, Answered(0), Waiting, [], [], []), ANSWERED_AND_ENDED], ANSWERED_THEN_END);
  }

  /** Call 1 has registered with a new handler, under ID 0. */
  function Both(n: nat): State
    requires 0 < n
  {
    State(Client(After(0, n), Some(map[0 := 1]), map[0 := Answered(0), 1 := Pending], 1),
          map[0 := Call(0, Waiting, 0), 1 := Call(0, Locking, 1)], [], [], [], 1)
  }

  /** Call 0 has taken away the entry of call 1, which is about to write its request. */
  function Forgotten(n: nat, phase: Phase, requests: seq<Packet>): State
    requires 0 < n
  {
    State(Client(After(0, n), Some(map[]), map[0 := Answered(0), 1 := Pending], 1),
          map[0 := Call(0, Returned, 0), 1 := Call(0, phase, 1)], requests, [], [], 1)
  }

  lemma SecondCallBegins(n: nat)
    requires 0 < n
    ensures Next(n, ANSWERED_AND_ENDED, Begin(1, true)) == Some(Both(n))
  {
    assert map[0 := Answered(0)][1 := Pending] == map[0 := Answered(0), 1 := Pending];
    assert ANSWERED_AND_ENDED.calls[1 := Call(0, Locking, 1)] == Both(n).calls;
  }

  lemma WakingForgetsTheNewCall(n: nat)
    requires 0 < n
    ensures Next(n, Both(n), Wake(0)) == Some(Forgotten(n, Locking, []))
  {
    assert Both(n).calls[0 := Call(0, Returned, 0)] == Forgotten(n, Locking, []).calls;
    assert map[0 := 1] - {0} == map[];
  }

  lemma ForgottenCallWaits(n: nat)
    requires 0 < n
    ensures Next(n, Forgotten(n, Locking, []), Write(1)) == Some(Forgotten(n, Draining, [Packet(0, 1)]))
    ensures Next(n, Forgotten(n, Draining, [Packet(0, 1)]), Drained(1)) == Some(Forgotten(n, Waiting, [Packet(0, 1)]))
  {
    assert [] + [Packet(0, 1)] == [Packet(0, 1)];
    assert Forgotten(n, Locking, []).calls[1 := Call(0, Draining, 1)] == Forgotten(n, Draining, []).calls;
    assert Forgotten(n, Draining, []).calls[1 := Call(0, Waiting, 1)] == Forgotten(n, Waiting, []).calls;
  }

  /** The handler has ended and call 1 still waits. */
  function Abandoned(n: nat): State
    requires 0 < n
  {
    State(Client(After(0, n), None, map[0 := Answered(0), 1 := Pending], 0),
          map[0 := Call(0, Returned, 0), 1 := Call(0, Waiting, 1)], [Packet(0, 1)], [], [], 2)
  }

  lemma NewHandlerEnds(n: nat)
    requires 0 < n
    ensures Next(n, Forgotten(n, Waiting, [Packet(0, 1)]), End) == Some(Abandoned(n))
  {
    var k := Forgotten(n, Waiting, [Packet(0, 1)]).client;
    assert FailPending(k) == k.futures;
  }

  lemma CallIsForgotten(n: nat)
    requires 0 < n
    ensures Reach(n, ANSWERED_AND_ENDED, STRADDLE + WAIT_IN_VAIN) == Some(Abandoned(n))
  {
    var request := [Packet(0, 1)];
    SecondCallBegins(n);
    WakingForgetsTheNewCall(n);
    ForgottenCallWaits(n);
    NewHandlerEnds(n);
    RunAlong((t: State, step: Step) => Next(n, t, step),
      [ANSWERED_AND_ENDED, Both(n), Forgotten(n, Locking, []), Forgotten(n, Draining, request),
       Forgotten(n, Waiting, request), Abandoned(n)],
      STRADDLE + WAIT_IN_VAIN);
  }

  /** Straddling does happen, for any number of IDs. Calls on other readers move the cursor round while
      call 0 waits; when it has its response the handler meets the end of stream, call 1 starts a new
      handler and gets the ID of call 0, and then call 0 wakes up and takes the entry of call 1 away. When
      that handler ends call 1 is still waiting, its future unresolved. */
  lemma StraddlingHappens(n: nat)
    requires 0 < n
    ensures Initial(n, FRESH)
    ensures var run := Reach(n, FRESH, ANSWERED_THEN_END + (STRADDLE + WAIT_IN_VAIN));
      && run.Some?
      && run.value.calls == map[0 := Call(0, Returned, 0), 1 := Call(0, Waiting, 1)]
      && run.value.client.futures == map[0 := Answered(0), 1 := Pending] && run.value.client.table == None
  {
    CallIsAnsweredThenEnds(n);
    CallIsForgotten(n);
    RunAppend((t: State, step: Step) => Next(n, t, step), FRESH, ANSWERED_THEN_END, STRADDLE + WAIT_IN_VAIN);
  }
}
