/** Request IDs that no call gives back: when a connection has none left for good. */
module IdLeaks {
  import opened Streams
  import opened Runs
  import opened RequestIds
  import opened Rpc
  import opened RpcTheorems
  import opened Straddling

  /** Every ID belongs to a call that raised. */
  ghost predicate Poisoned(n: nat, s: State) {
    && s.client.table.Some?
    && forall id: nat :: id < n ==>
         && id in s.client.table.value && s.client.table.value[id] in s.calls
         && s.calls[s.client.table.value[id]].phase.Raised?
  }

  lemma PoisonedStep(n: nat, s: State, step: Step)
    requires Inv(n, s) && !Ended(s) && Poisoned(n, s)
    requires Next(n, s, step).Some? && !Ended(Next(n, s, step).value)
    ensures Poisoned(n, Next(n, s, step).value) && Next(n, s, step).value.calls == s.calls
  {
    var table := s.client.table.value;
    forall c | c in s.calls ensures s.calls[c].phase.Raised? || s.calls[c].phase.Returned? {
      if !s.calls[c].phase.Returned? {
        assert table[s.calls[c].id] == c;
      }
    }
    if step.Begin? {
      AllocatorIsExact(table.Keys, s.client.cursor, n);
    }
  }

  lemma StaysEnded(n: nat, s: State, steps: seq<Step>)
    requires Ended(s) && Reach(n, s, steps).Some?
    ensures Ended(Reach(n, s, steps).value)
    decreases |steps|
  {
    if steps != [] {
      StaysEnded(n, Next(n, s, steps[0]).value, steps[1..]);
    }
  }

  /** Calls cancelled at an await keep their IDs, so n of them, however far apart, close the connection
      for calls: none is ever registered again before the end of stream. */
  lemma {:induction false} PoisonedForGood(n: nat, s: State, steps: seq<Step>)
    requires Inv(n, s) && !Ended(s) && Poisoned(n, s)
    requires Reach(n, s, steps).Some? && !Ended(Reach(n, s, steps).value)
    ensures Poisoned(n, Reach(n, s, steps).value) && Reach(n, s, steps).value.calls == s.calls
    decreases |steps|
  {
    if steps != [] {
      var t := Next(n, s, steps[0]).value;
      if Ended(t) {
        StaysEnded(n, t, steps[1..]);
      } else {
        PoisonedStep(n, s, steps[0]);
        StepKeepsInv(n, s, steps[0]);
        PoisonedForGood(n, t, steps[1..]);
      }
    }
  }

  // ---------- Leaking them all ----------

  function LeakedTable(i: nat): (table: map<nat, nat>)
    ensures forall k: nat :: k in table <==> k < i
    ensures forall k: nat :: k < i ==> table[k] == k
  {
    if i == 0 then map[] else LeakedTable(i - 1)[i - 1 := i - 1]
  }

  function LeakedFutures(i: nat): (futures: map<nat, Future<nat>>)
    ensures forall k: nat :: k in futures <==> k < i
  {
    if i == 0 then map[] else LeakedFutures(i - 1)[i - 1 := Pending]
  }

  function LeakedCalls(i: nat): (calls: map<nat, Call>)
    ensures forall k: nat :: k in calls <==> k < i
    ensures forall k: nat :: k < i ==> calls[k] == Call(k, Raised, 0)
  {
    if i == 0 then map[] else LeakedCalls(i - 1)[i - 1 := Call(i - 1, Raised, 0)]
  }

  /** The calls 0 to i-1 have raised inside the with-block, each with an ID of its own. */
  function Leaked(n: nat, i: nat): State
    requires 0 < i <= n
  {
    State(Client(if i == n then 0 else i, Some(LeakedTable(i)), LeakedFutures(i), 1), LeakedCalls(i), [], [], [], 0)
  }

  /** Calls whose arguments cannot be encoded. */
  function Leaks(i: nat): seq<Step> {
    seq(i, k requires 0 <= k < i => Begin(k, false))
  }

  lemma OneMoreLeaks(n: nat, i: nat)
    requires 0 < i < n
    ensures Next(n, Leaked(n, i), Begin(i, false)) == Some(Leaked(n, i + 1))
  {
    var s, t := Leaked(n, i), Leaked(n, i + 1);
    assert i !in s.client.table.value && NewId(s.client, n) == Some(i);
    assert Register(s.client, i, i, n) == t.client;
  }

  lemma FirstLeaks(n: nat)
    requires 0 < n
    ensures Next(n, FRESH, Begin(0, false)) == Some(Leaked(n, 1))
  {
    var k := StartHandler(FRESH.client);
    assert NewId(k, n) == Some(0);
    assert LeakedTable(0) == map[] && LeakedFutures(0) == map[] && LeakedCalls(0) == map[];
    assert Register(k, 0, 0, n) == Leaked(n, 1).client;
  }

  lemma {:induction false} LeaksReach(n: nat, i: nat)
    requires 0 < i <= n
    ensures Reach(n, FRESH, Leaks(i)) == Some(Leaked(n, i))
  {
    var next := (t: State, step: Step) => Next(n, t, step);
    if i == 1 {
      FirstLeaks(n);
      RunAlong(next, [FRESH, Leaked(n, 1)], Leaks(1));
    } else {
      LeaksReach(n, i - 1);
      OneMoreLeaks(n, i - 1);
      assert Leaks(i) == Leaks(i - 1) + [Begin(i - 1, false)];
      RunAppend(next, FRESH, Leaks(i - 1), [Begin(i - 1, false)]);
      RunAlong(next, [Leaked(n, i - 1), Leaked(n, i)], [Begin(i - 1, false)]);
    }
  }

  /** For any number of IDs that many calls that raise inside the with-block use them up for good. */
  lemma LeaksPoison(n: nat)
    requires 0 < n
    ensures Initial(n, FRESH) && Reach(n, FRESH, Leaks(n)).Some?
    ensures !Ended(Reach(n, FRESH, Leaks(n)).value) && Poisoned(n, Reach(n, FRESH, Leaks(n)).value)
  {
    LeaksReach(n, n);
  }

  // ---------- Exactly when no ID comes back ----------

  ghost predicate Among(ps: seq<Packet>, c: nat) {
    exists i :: 0 <= i < |ps| && ps[i].call == c
  }

  ghost predicate UnderWaySomewhere(s: State, c: nat) {
    Among(s.requests, c) || Among(s.tasks, c) || Among(s.responses, c)
  }

  /** The call has its response, or the response can still come: its request is yet to be written, or it
      or its response is under way. A request that the server has lost is not answered any more. */
  ghost predicate CanComplete(s: State, c: nat) {
    && c in s.calls && InProgress(s.calls[c]) && c in s.client.futures
    && match s.client.futures[c]
       case Answered(_) => true
       case Pending => s.calls[c].phase.Locking? || UnderWaySomewhere(s, c)
       case _ => false
  }

  /** Some ID is free, or in use by a call that can still complete. */
  ghost predicate Open(n: nat, s: State)
    requires s.client.table.Some?
  {
    exists id: nat :: id < n && IdCanComeBack(s, id)
  }

  ghost predicate IdCanComeBack(s: State, id: nat)
    requires s.client.table.Some?
  {
    id !in s.client.table.value || CanComplete(s, s.client.table.value[id])
  }

  /** What holds an ID and cannot complete, cannot complete after any step either. */
  lemma StuckStays(n: nat, s: State, step: Step, c: nat)
    requires Inv(n, s) && !Ended(s) && s.client.table.Some? && !Open(n, s)
    requires Next(n, s, step).Some? && c in s.calls && !CanComplete(s, c) && c in s.client.futures
    ensures !CanComplete(Next(n, s, step).value, c)
  {
    match step
    case Spawn => assert s.requests == [s.requests[0]] + s.requests[1..];
    case Deliver => assert UnderWay(s, s.responses[0]);
    case _ =>
  }

  lemma NothingNew(n: nat, s: State, step: Step)
    requires Inv(n, s) && !Ended(s) && s.client.table.Some? && !Open(n, s)
    requires Next(n, s, step).Some? && !Ended(Next(n, s, step).value)
    ensures var t := Next(n, s, step).value;
      && t.calls.Keys == s.calls.Keys && t.client.table == s.client.table
  {
    var table := s.client.table.value;
    forall id: nat | id < n ensures id in table && !CanComplete(s, table[id]) {
      assert !IdCanComeBack(s, id);
    }
    match step
    case Begin(call, encodable) => AllocatorIsExact(table.Keys, s.client.cursor, n);
    case Wake(call) =>
      var id := s.calls[call].id;
      assert id < n && table[id] == call;
      assert !CanComplete(s, call);
    case _ =>
  }

  lemma ShutStaysShut(n: nat, s: State, step: Step)
    requires Inv(n, s) && !Ended(s) && s.client.table.Some? && !Open(n, s)
    requires Next(n, s, step).Some? && !Ended(Next(n, s, step).value)
    ensures var t := Next(n, s, step).value;
      t.client.table.Some? && !Open(n, t) && t.calls.Keys == s.calls.Keys
  {
    var t := Next(n, s, step).value;
    NothingNew(n, s, step);
    forall id: nat | id < n ensures !IdCanComeBack(t, id) {
      assert !IdCanComeBack(s, id);
      var c := s.client.table.value[id];
      assert c in s.calls && c in s.client.futures;
      StuckStays(n, s, step, c);
    }
  }

  lemma {:induction false} ShutForGood(n: nat, s: State, steps: seq<Step>)
    requires Inv(n, s) && !Ended(s) && s.client.table.Some? && !Open(n, s)
    requires Reach(n, s, steps).Some? && !Ended(Reach(n, s, steps).value)
    ensures Reach(n, s, steps).value.calls.Keys == s.calls.Keys
    decreases |steps|
  {
    if steps != [] {
      var t := Next(n, s, steps[0]).value;
      if Ended(t) {
        StaysEnded(n, t, steps[1..]);
      } else {
        ShutStaysShut(n, s, steps[0]);
        StepKeepsInv(n, s, steps[0]);
        ShutForGood(n, t, steps[1..]);
      }
    }
  }

  // ---------- How a call completes ----------

  /** A run from s after which the ID of c is free and no call is new. */
  ghost predicate Frees(n: nat, s: State, c: nat, steps: seq<Step>)
    requires c in s.calls
  {
    && Reach(n, s, steps).Some?
    && var t := Reach(n, s, steps).value;
    && Inv(n, t) && !Ended(t) && t.calls.Keys == s.calls.Keys
    && t.client.table.Some? && s.calls[c].id !in t.client.table.value
  }

  /** The call c is at work, with its future in state `future`. */
  ghost predicate AtWork(n: nat, s: State, c: nat, future: Future<nat>) {
    && Inv(n, s) && !Ended(s) && s.client.table.Some?
    && c in s.calls && c in s.client.futures && s.client.futures[c] == future
    && (s.calls[c].phase.Draining? || s.calls[c].phase.Waiting?)
  }

  lemma StepFirst(n: nat, s: State, step: Step, c: nat, steps: seq<Step>)
    requires Inv(n, s) && c in s.calls && Next(n, s, step).Some?
    requires var t := Next(n, s, step).value;
      t.calls.Keys == s.calls.Keys && t.calls[c].id == s.calls[c].id && Frees(n, t, c, steps)
    ensures Frees(n, s, c, [step] + steps)
  {
    assert ([step] + steps)[1..] == steps;
  }

  lemma AnsweredCompletes(n: nat, s: State, c: nat, answer: nat) returns (steps: seq<Step>)
    requires AtWork(n, s, c, Answered(answer))
    ensures Frees(n, s, c, steps)
    decreases s.calls[c].phase.Draining?
  {
    if s.calls[c].phase.Waiting? {
      StepKeepsInv(n, s, Wake(c));
      assert Frees(n, Next(n, s, Wake(c)).value, c, []);
      steps := [Wake(c)] + [];
      StepFirst(n, s, Wake(c), c, []);
    } else {
      StepKeepsInv(n, s, Drained(c));
      var more := AnsweredCompletes(n, Next(n, s, Drained(c)).value, c, answer);
      StepFirst(n, s, Drained(c), c, more);
      steps := [Drained(c)] + more;
    }
  }

  lemma {:induction false} RespondedCompletes(n: nat, s: State, c: nat, j: nat) returns (steps: seq<Step>)
    requires AtWork(n, s, c, Pending) && j < |s.responses| && s.responses[j].call == c
    ensures Frees(n, s, c, steps)
    decreases j
  {
    var p, t := s.responses[0], Next(n, s, Deliver).value;
    StepKeepsInv(n, s, Deliver);
    assert UnderWay(s, p) && s.client.table.value[p.id] == p.call;
    var more;
    if j == 0 {
      more := AnsweredCompletes(n, t, c, c);
    } else {
      assert t.responses[j - 1] == s.responses[j];
      more := RespondedCompletes(n, t, c, j - 1);
    }
    StepFirst(n, s, Deliver, c, more);
    steps := [Deliver] + more;
  }

  lemma ServedCompletes(n: nat, s: State, c: nat, i: nat) returns (steps: seq<Step>)
    requires AtWork(n, s, c, Pending) && i < |s.tasks| && s.tasks[i].call == c
    ensures Frees(n, s, c, steps)
  {
    var t := Next(n, s, Respond(i)).value;
    StepKeepsInv(n, s, Respond(i));
    var more := RespondedCompletes(n, t, c, |s.responses|);
    StepFirst(n, s, Respond(i), c, more);
    steps := [Respond(i)] + more;
  }

  lemma {:induction false} RequestedCompletes(n: nat, s: State, c: nat, i: nat) returns (steps: seq<Step>)
    requires AtWork(n, s, c, Pending) && i < |s.requests| && s.requests[i].call == c
    ensures Frees(n, s, c, steps)
    decreases i
  {
    var t := Next(n, s, Spawn).value;
    StepKeepsInv(n, s, Spawn);
    var more;
    if i == 0 {
      more := ServedCompletes(n, t, c, |s.tasks|);
    } else {
      assert t.requests[i - 1] == s.requests[i];
      more := RequestedCompletes(n, t, c, i - 1);
    }
    StepFirst(n, s, Spawn, c, more);
    steps := [Spawn] + more;
  }

  function Drainers(s: State): set<nat> {
    set c | c in s.calls && s.calls[c].phase.Draining?
  }

  /** Whoever holds the writer's lock gives it up in the end. */
  lemma {:induction false} LockingCompletes(n: nat, s: State, c: nat) returns (steps: seq<Step>)
    requires Inv(n, s) && !Ended(s) && s.client.table.Some?
    requires c in s.calls && s.calls[c].phase.Locking? && s.client.futures[c].Pending?
    ensures Frees(n, s, c, steps)
    decreases |Drainers(s)|
  {
    if d :| d in Drainers(s) {
      var t := Next(n, s, Drained(d)).value;
      StepKeepsInv(n, s, Drained(d));
      assert Drainers(t) == Drainers(s) - {d};
      var more := LockingCompletes(n, t, c);
      StepFirst(n, s, Drained(d), c, more);
      steps := [Drained(d)] + more;
    } else {
      assert forall d :: d in s.calls ==> d !in Drainers(s);
      var t := Next(n, s, Write(c)).value;
      StepKeepsInv(n, s, Write(c));
      var more := RequestedCompletes(n, t, c, |s.requests|);
      StepFirst(n, s, Write(c), c, more);
      steps := [Write(c)] + more;
    }
  }

  lemma Completes(n: nat, s: State, c: nat) returns (steps: seq<Step>)
    requires Inv(n, s) && !Ended(s) && s.client.table.Some? && CanComplete(s, c)
    ensures Frees(n, s, c, steps)
  {
    if s.calls[c].phase.Locking? {
      steps := LockingCompletes(n, s, c);
    } else if s.client.futures[c].Answered? {
      steps := AnsweredCompletes(n, s, c, s.client.futures[c].answer);
    } else if Among(s.responses, c) {
      var j :| 0 <= j < |s.responses| && s.responses[j].call == c;
      steps := RespondedCompletes(n, s, c, j);
    } else if Among(s.tasks, c) {
      var i :| 0 <= i < |s.tasks| && s.tasks[i].call == c;
      steps := ServedCompletes(n, s, c, i);
    } else {
      var i :| 0 <= i < |s.requests| && s.requests[i].call == c;
      steps := RequestedCompletes(n, s, c, i);
    }
  }

  // ---------- The exact condition ----------

  /** A call is registered, with no end of stream before. */
  ghost predicate Admits(n: nat, s: State, steps: seq<Step>, call: nat) {
    && Reach(n, s, steps).Some? && !Ended(Reach(n, s, steps).value)
    && call in Reach(n, s, steps).value.calls && call !in s.calls
  }

  lemma FreeIdAdmits(n: nat, s: State, id: nat) returns (call: nat)
    requires Inv(n, s) && !Ended(s) && s.client.table.Some? && id < n && id !in s.client.table.value
    ensures Next(n, s, Begin(call, true)).Some? && call !in s.calls
    ensures var t := Next(n, s, Begin(call, true)).value; call in t.calls && !Ended(t)
  {
    call := UpperBound(s.calls.Keys + s.client.futures.Keys);
    AllocatorIsExact(s.client.table.value.Keys, s.client.cursor, n);
  }

  lemma OpenAdmits(n: nat, s: State) returns (steps: seq<Step>, call: nat)
    requires Inv(n, s) && !Ended(s) && s.client.table.Some? && Open(n, s)
    ensures Admits(n, s, steps, call)
  {
    var next := (t: State, step: Step) => Next(n, t, step);
    var id: nat :| id < n && IdCanComeBack(s, id);
    steps := [];
    if id in s.client.table.value {
      steps := Completes(n, s, s.client.table.value[id]);
    }
    var t := Reach(n, s, steps).value;
    call := FreeIdAdmits(n, t, id);
    RunAppend(next, s, steps, [Begin(call, true)]);
    RunAlong(next, [t, Next(n, t, Begin(call, true)).value], [Begin(call, true)]);
    steps := steps + [Begin(call, true)];
  }

  /** Before the end of stream another call can ever be registered exactly if an ID is free or in use by a
      call that can still complete. */
  lemma OpenExactly(n: nat, s: State, before: seq<Step>)
    requires Initial(n, s) && Reach(n, s, before).Some?
    requires var t := Reach(n, s, before).value; !Ended(t) && t.client.table.Some?
    ensures var t := Reach(n, s, before).value;
      Open(n, t) <==> exists steps, call :: Admits(n, t, steps, call)
  {
    RunKeepsInv(n, s, before);
    var t := Reach(n, s, before).value;
    if Open(n, t) {
      var steps, call := OpenAdmits(n, t);
    }
    forall steps, call | Admits(n, t, steps, call) ensures Open(n, t) {
      if !Open(n, t) {
        ShutForGood(n, t, steps);
      }
    }
  }

  /** Not being poisoned is not enough: with one ID, a call whose request the server has lost is in
      progress, and no other call is ever registered. */
  lemma LostRequestShuts()
    ensures var run := Reach(1, FRESH, [Begin(0, true), Write(0), Drained(0), Spawn, Lose(0)]);
      run.Some? && !Ended(run.value) && run.value.client.table.Some? && !Poisoned(1, run.value) && !Open(1, run.value)
  {
    var p := [Packet(0, 0)];
    SoleBegins(1);
    SoleIsWritten(1, 0);
    SoleIsDrained(1, 0, p);
    SoleIsServed(1, 0);
    assert Without(p, 0) == [];
    RunAlong((t: State, step: Step) => Next(1, t, step),
      [FRESH, Sole(0, Pending, Locking, [], [], []), Sole(0, Pending, Draining, p, [], []),
       Sole(0, Pending, Waiting, p, [], []),
       Sole(0, Pending, Waiting, [], p, []), Sole(0, Pending, Waiting, [], [], [])],
      [Begin(0, true), Write(0), Drained(0), Spawn, Lose(0)]);
  }
}
