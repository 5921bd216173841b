/** What holds of remote calls after every run of the machine in Rpc. */
module RpcTheorems {
  import opened Streams
  import opened Runs
  import opened RequestIds
  import opened Rpc

  function Reach(n: nat, s: State, steps: seq<Step>): Option<State> {
    Run((t: State, step: Step) => Next(n, t, step), s, steps)
  }

  lemma RunKeepsInv(n: nat, s: State, steps: seq<Step>)
    requires Inv(n, s) && Reach(n, s, steps).Some?
    ensures Inv(n, Reach(n, s, steps).value)
  {
    var next := (t: State, step: Step) => Next(n, t, step);
    var inv := u => Inv(n, u);
    forall t: State, step: Step ensures KeptBy(next, inv, t, step) {
      if Inv(n, t) && Next(n, t, step).Some? {
        StepKeepsInv(n, t, step);
      }
    }
    RunKeeps(next, inv, s, steps);
  }

  // ---------- Safety ----------

  /** Every response that a call ever gets answers the request of that very call. */
  lemma ResponsesAreOwn(n: nat, s: State, steps: seq<Step>)
    requires Initial(n, s) && Reach(n, s, steps).Some?
    ensures var t := Reach(n, s, steps).value;
      forall c :: c in t.calls && c in t.client.futures && t.client.futures[c].Answered? ==>
        t.client.futures[c].answer == c
  {
    RunKeepsInv(n, s, steps);
  }

  /** IDs on the request wire, in server tasks and on the response wire are pairwise distinct, and each
      is still a key of the table, under which the future of its own call is found. */
  lemma IdsUnderWayAreDistinct(n: nat, s: State, steps: seq<Step>)
    requires Initial(n, s) && Reach(n, s, steps).Some?
    requires !Ended(Reach(n, s, steps).value)
    ensures var t := Reach(n, s, steps).value; var flight := t.requests + t.tasks + t.responses;
      && (forall i, j :: 0 <= i < j < |flight| ==> flight[i].id != flight[j].id)
      && (flight != [] ==> t.client.table.Some?)
      && (forall i :: 0 <= i < |flight| ==>
            flight[i].id in t.client.table.value && t.client.table.value[flight[i].id] == flight[i].call)
  {
    RunKeepsInv(n, s, steps);
    var t := Reach(n, s, steps).value;
    if t.client.table.Some? {
      var flight := t.requests + t.tasks + t.responses;
      assert forall i :: 0 <= i < |flight| ==> UnderWay(t, flight[i]);
      assert forall i, j :: 0 <= i < j < |flight| ==> flight[i].call != flight[j].call;
    }
  }

  /** A response is never for an unknown request: it finds its own call's entry, resolves that future
      if the call still wants it, and leaves every other future alone. */
  lemma DeliveryFindsItsCall(n: nat, s: State, steps: seq<Step>)
    requires Initial(n, s) && Reach(n, s, steps).Some?
    requires Next(n, Reach(n, s, steps).value, Deliver).Some?
    ensures var t := Reach(n, s, steps).value; var p := t.responses[0];
      var after := Next(n, t, Deliver).value.client.futures;
      && p.id in t.client.table.value && t.client.table.value[p.id] == p.call && p.call in t.client.futures
      && after.Keys == t.client.futures.Keys
      && after[p.call] == (if t.client.futures[p.call].Pending? then Answered(p.call) else t.client.futures[p.call])
      && forall c :: c in after && c != p.call ==> after[c] == t.client.futures[c]
  {
    RunKeepsInv(n, s, steps);
    var t := Reach(n, s, steps).value;
    assert UnderWay(t, t.responses[0]);
  }

  ghost predicate OneDraining(s: State) {
    forall c, d :: c in s.calls && d in s.calls && s.calls[c].phase.Draining? && s.calls[d].phase.Draining? ==> c == d
  }

  /** Of the calls at most one has the writer's lock, and only one that has none before it writes. */
  lemma OneCallHasTheLock(n: nat, s: State, steps: seq<Step>, call: nat)
    requires Initial(n, s) && Reach(n, s, steps).Some?
    ensures var t := Reach(n, s, steps).value;
      OneDraining(t) && (Next(n, t, Write(call)).Some? ==> forall c :: c in t.calls ==> !t.calls[c].phase.Draining?)
  {
    var next := (t: State, step: Step) => Next(n, t, step);
    forall t: State, step: Step ensures KeptBy(next, OneDraining, t, step) {
      if OneDraining(t) && Next(n, t, step).Some? && step.Begin? {
        var k := StartHandler(t.client);
        AllocatorIsExact(k.table.value.Keys, k.cursor, n);
      }
    }
    RunKeeps(next, OneDraining, s, steps);
  }

  // ---------- ID accounting ----------

  function IdsInProgress(s: State): set<nat> {
    set c | c in s.calls && InProgress(s.calls[c]) :: s.calls[c].id
  }

  function IdsRaised(s: State): set<nat> {
    set c | c in s.calls && s.calls[c].phase.Raised? :: s.calls[c].id
  }

  /** Until the first end of stream the IDs in use are those of calls in progress plus those of calls
      that raised inside the with-block, no ID counting twice. */
  lemma IdAccounting(n: nat, s: State, steps: seq<Step>)
    requires Initial(n, s) && Reach(n, s, steps).Some?
    requires !Ended(Reach(n, s, steps).value) && Reach(n, s, steps).value.client.table.Some?
    ensures var t := Reach(n, s, steps).value;
      && t.client.table.value.Keys == IdsInProgress(t) + IdsRaised(t)
      && IdsInProgress(t) !! IdsRaised(t)
      && forall c, d :: c in t.calls && d in t.calls && c != d && t.calls[c].id == t.calls[d].id ==>
           t.calls[c].phase.Returned? || t.calls[d].phase.Returned?
  {
    RunKeepsInv(n, s, steps);
    var t := Reach(n, s, steps).value;
    var table := t.client.table.value;
    assert ExactTable(t, table);
    forall id | id in table ensures id in IdsInProgress(t) + IdsRaised(t) {
      assert t.calls[table[id]].id == id;
    }
  }

  /** The ID belongs to a call in progress or to one that raised. */
  ghost predicate Held(s: State, id: nat) {
    exists c :: c in s.calls && s.calls[c].id == id && !s.calls[c].phase.Returned?
  }

  /** A call fails for want of an ID exactly when every ID is held by a call in progress or by one that
      raised; it then changes nothing but starting the handler. */
  lemma ExhaustedExactly(n: nat, s: State, steps: seq<Step>, call: nat, encodable: bool)
    requires Initial(n, s) && Reach(n, s, steps).Some? && !Ended(Reach(n, s, steps).value)
    requires Next(n, Reach(n, s, steps).value, Begin(call, encodable)).Some?
    ensures var t := Reach(n, s, steps).value; var u := Next(n, t, Begin(call, encodable)).value;
      && (call !in u.calls <==> forall id: nat :: id < n ==> Held(t, id))
      && (call !in u.calls ==> u == t.(client := StartHandler(t.client)))
  {
    RunKeepsInv(n, s, steps);
    var t := Reach(n, s, steps).value;
    var k := StartHandler(t.client);
    var used := k.table.value;
    AllocatorIsExact(used.Keys, k.cursor, n);
    assert ExactTable(t, used);
    forall id: nat ensures id in used <==> Held(t, id) {
      if id in used {
        assert t.calls[used[id]].id == id;
      }
    }
  }

  /** Otherwise the call gets the first free ID at or after the cursor, its future is new and pending, the
      cursor moves on behind that ID, and nobody else notices. */
  lemma RegisteredExactly(n: nat, s: State, steps: seq<Step>, call: nat, encodable: bool)
    requires Initial(n, s) && Reach(n, s, steps).Some?
    requires Next(n, Reach(n, s, steps).value, Begin(call, encodable)).Some?
    ensures var t := Reach(n, s, steps).value; var u := Next(n, t, Begin(call, encodable)).value;
      var table := if t.client.table.Some? then t.client.table.value else map[];
      call in u.calls ==>
        var id := u.calls[call].id;
        && id < n && id !in table
        && (forall other: nat :: other < n && other !in table ==>
              Distance(t.client.cursor, id, n) <= Distance(t.client.cursor, other, n))
        && u.client.cursor == (if id + 1 == n then 0 else id + 1)
        && u.client.table == Some(table[id := call]) && u.client.futures == t.client.futures[call := Pending]
        && u.calls == t.calls[call := Call(id, if encodable then Locking else Raised, t.ends)]
        && u == t.(client := u.client, calls := u.calls)
  {
    RunKeepsInv(n, s, steps);
    var t := Reach(n, s, steps).value;
    var k := StartHandler(t.client);
    AllocatorIsExact(k.table.value.Keys, k.cursor, n);
  }

  /** A call that completes, with a result or an error response, frees its ID and touches no other entry. */
  lemma CompletionFreesItsId(n: nat, s: State, steps: seq<Step>, call: nat)
    requires Initial(n, s) && Reach(n, s, steps).Some? && !Ended(Reach(n, s, steps).value)
    requires var t := Reach(n, s, steps).value;
      Next(n, t, Wake(call)).Some? && t.client.futures[call].Answered?
    ensures var t := Reach(n, s, steps).value; var u := Next(n, t, Wake(call)).value; var id := t.calls[call].id;
      && t.client.table.Some? && id in t.client.table.value && t.client.table.value[id] == call
      && u.client.table == Some(t.client.table.value - {id})
      && u.calls[call].phase == Returned
  {
    RunKeepsInv(n, s, steps);
  }

  // ---------- The response handler ----------

  /** There is exactly one response handler while the reader is in the table, and none otherwise. */
  lemma OneHandlerIffInTable(n: nat, s: State, steps: seq<Step>)
    requires Initial(n, s) && Reach(n, s, steps).Some?
    ensures var k := Reach(n, s, steps).value.client;
      k.handlers == (if k.table.Some? then 1 else 0)
  {
    RunKeepsInv(n, s, steps);
  }

  /** A call that can still be waiting is known to the current handler, which will resolve its future. */
  ghost predicate WaiterKnown(s: State, c: nat)
    requires c in s.calls
  {
    InProgress(s.calls[c]) && c in s.client.futures && s.client.futures[c].Pending? ==>
      && s.client.table.Some?
      && s.calls[c].id in s.client.table.value
      && s.client.table.value[s.calls[c].id] == c
  }

  ghost predicate WaitersKnown(s: State) {
    forall c :: c in s.calls ==> WaiterKnown(s, c)
  }

  /** A completed call about to free an ID that a new handler's table has given to another call: it got
      its response in an earlier lifetime of the handler and wakes up in a later one. */
  predicate Straddles(s: State, call: nat) {
    && call in s.calls && s.client.table.Some?
    && s.calls[call].id in s.client.table.value
    && s.client.table.value[s.calls[call].id] != call
  }

  lemma BeginKeepsWaitersKnown(n: nat, s: State, call: nat, encodable: bool)
    requires Inv(n, s) && WaitersKnown(s) && StepBegin(n, s, call, encodable).Some?
    ensures WaitersKnown(StepBegin(n, s, call, encodable).value)
  {
    var k, t := StartHandler(s.client), StepBegin(n, s, call, encodable).value;
    AllocatorIsExact(k.table.value.Keys, k.cursor, n);
    forall c | c in t.calls ensures WaiterKnown(t, c) {
      if c in s.calls {
        assert WaiterKnown(s, c);
      }
    }
  }

  lemma StepKeepsWaitersKnown(n: nat, s: State, step: Step)
    requires Inv(n, s) && WaitersKnown(s) && Next(n, s, step).Some?
    requires step.Wake? ==> !Straddles(s, step.call)
    ensures WaitersKnown(Next(n, s, step).value)
  {
    match step
    case Begin(call, encodable) => BeginKeepsWaitersKnown(n, s, call, encodable);
    case _ =>
      var t := Next(n, s, step).value;
      forall c | c in t.calls ensures WaiterKnown(t, c) {
        assert WaiterKnown(s, c);
      }
  }

  /** Exactly when a wake-up loses a waiter: it straddles and the entry it removes belongs to a call
      that is still waiting for its response. */
  lemma WakeLosesWaiterExactly(n: nat, s: State, call: nat)
    requires Inv(n, s) && WaitersKnown(s)
    requires Next(n, s, Wake(call)).Some? && s.client.futures[call].Answered?
    ensures !WaitersKnown(Next(n, s, Wake(call)).value) <==>
      && Straddles(s, call)
      && var victim := s.client.table.value[s.calls[call].id];
         victim in s.calls && InProgress(s.calls[victim]) && s.calls[victim].id == s.calls[call].id
           && victim in s.client.futures && s.client.futures[victim].Pending?
  {
    var t := Next(n, s, Wake(call)).value;
    if !Straddles(s, call) {
      StepKeepsWaitersKnown(n, s, Wake(call));
    } else {
      var id := s.calls[call].id;
      var victim := s.client.table.value[id];
      if victim in s.calls && InProgress(s.calls[victim]) && s.calls[victim].id == id
           && victim in s.client.futures && s.client.futures[victim].Pending? {
        assert !WaiterKnown(t, victim);
      } else {
        forall c | c in t.calls ensures WaiterKnown(t, c) {
          assert WaiterKnown(s, c);
        }
      }
    }
  }

  function NextWithoutStraddling(n: nat, s: State, step: Step): Option<State> {
    if step.Wake? && Straddles(s, step.call) then None else Next(n, s, step)
  }

  lemma OrderlyRunKeepsInv(n: nat, s: State, steps: seq<Step>)
    requires Initial(n, s)
    requires Run((t: State, step: Step) => NextWithoutStraddling(n, t, step), s, steps).Some?
    ensures var t := Run((t: State, step: Step) => NextWithoutStraddling(n, t, step), s, steps).value;
      Inv(n, t) && WaitersKnown(t)
  {
    var next := (t: State, step: Step) => NextWithoutStraddling(n, t, step);
    var inv := t => Inv(n, t) && WaitersKnown(t);
    forall t: State, step: Step ensures KeptBy(next, inv, t, step) {
      if inv(t) && next(t, step).Some? {
        StepKeepsInv(n, t, step);
        StepKeepsWaitersKnown(n, t, step);
      }
    }
    RunKeeps(next, inv, s, steps);
  }

  /** The futures a call in progress can be waiting for are in the table. */
  lemma PendingIsInTable(n: nat, t: State, c: nat)
    requires Inv(n, t) && WaitersKnown(t) && c in t.calls && InProgress(t.calls[c]) && t.client.futures[c].Pending?
    ensures t.client.table.Some? && c in t.client.table.value.Values
  {
    assert WaiterKnown(t, c) && t.client.table.value[t.calls[c].id] == c;
  }

  /** What the call's own code does next once its future is resolved. */
  ghost predicate CanLeave(n: nat, s: State, c: nat, phase: Phase) {
    && Next(n, s, Wake(c)).Some?
    && c in Next(n, s, Wake(c)).value.calls && Next(n, s, Wake(c)).value.calls[c].phase == phase
  }

  /** When the handler ends, the reader is out of the table and its handler is gone, and no call that is still
      in progress is left with an unresolved future: a call that waits can leave at once, normally if its
      response had been delivered and by an exception if not, so that none waits for good. Calls, and the
      futures that are not in the table, stay as they were. */
  lemma EndResolvesEveryWaiter(n: nat, s: State, steps: seq<Step>)
    requires Initial(n, s)
    requires var next := (t: State, step: Step) => NextWithoutStraddling(n, t, step);
      Run(next, s, steps).Some? && Next(n, Run(next, s, steps).value, End).Some?
    ensures var next := (t: State, step: Step) => NextWithoutStraddling(n, t, step);
      var t := Run(next, s, steps).value; var u := Next(n, t, End).value;
      && t.client.table.Some? && u.client.table == None && u.client.handlers == 0 && u.calls == t.calls
      && (forall c :: c in u.calls && u.calls[c].phase.Waiting? ==>
            c in t.client.futures && CanLeave(n, u, c, if t.client.futures[c].Answered? then Returned else Raised))
      && (forall c :: c in u.calls && InProgress(u.calls[c]) ==> c in u.client.futures && !u.client.futures[c].Pending?)
      && u.client.futures.Keys == t.client.futures.Keys
      && forall c :: c in t.client.futures && c !in t.client.table.value.Values ==>
           u.client.futures[c] == t.client.futures[c]
  {
    OrderlyRunKeepsInv(n, s, steps);
    var t := Run((t: State, step: Step) => NextWithoutStraddling(n, t, step), s, steps).value;
    assert forall c :: c in t.calls ==> CallOk(n, t, c);
    forall c | c in t.calls && InProgress(t.calls[c]) && t.client.futures[c].Pending?
      ensures c in t.client.table.value.Values
    {
      PendingIsInTable(n, t, c);
    }
  }

  // ---------- Calls that are given up ----------

  /** A call can be cancelled or fail writing exactly while it is in progress. It is then over, its ID stays
      taken, and if it was waiting its future is cancelled; nothing else changes, on the connection neither. */
  lemma AbortExactly(n: nat, s: State, steps: seq<Step>, call: nat)
    requires Initial(n, s) && Reach(n, s, steps).Some?
    ensures var t := Reach(n, s, steps).value;
      && (Next(n, t, Abort(call)).Some? <==> call in t.calls && InProgress(t.calls[call]))
      && (Next(n, t, Abort(call)).Some? ==>
            var u := Next(n, t, Abort(call)).value; var cancels := t.calls[call].phase.Waiting?;
            && u.calls == t.calls[call := t.calls[call].(phase := Raised)]
            && u == t.(calls := u.calls, client := t.client.(futures := u.client.futures))
            && u.client.futures.Keys == t.client.futures.Keys
            && u.client.futures[call] ==
                 (if cancels && t.client.futures[call].Pending? then Cancelled else t.client.futures[call])
            && forall c :: c in t.client.futures && c != call ==> u.client.futures[c] == t.client.futures[c])
  {
    RunKeepsInv(n, s, steps);
    var t := Reach(n, s, steps).value;
    assert call in t.calls ==> CallOk(n, t, call);
  }

  lemma StepKeepsGivenUp(n: nat, s: State, step: Step, call: nat)
    requires Inv(n, s) && Next(n, s, step).Some? && call in s.calls && s.calls[call].phase.Raised?
    ensures var t := Next(n, s, step).value;
      && call in t.calls && t.calls[call] == s.calls[call]
      && call in t.client.futures
      && (s.client.futures[call].Cancelled? ==> t.client.futures[call].Cancelled?)
  {
    assert CallOk(n, s, call);
  }

  /** A call that was given up stays so, and a response that comes late for it changes nothing: a cancelled
      future is never resolved. */
  lemma {:induction false} GivenUpForGood(n: nat, s: State, steps: seq<Step>, call: nat)
    requires Inv(n, s) && Reach(n, s, steps).Some? && call in s.calls && s.calls[call].phase.Raised?
    ensures var t := Reach(n, s, steps).value;
      && call in t.calls && t.calls[call] == s.calls[call]
      && call in s.client.futures && call in t.client.futures
      && (s.client.futures[call].Cancelled? ==> t.client.futures[call].Cancelled?)
    decreases |steps|
  {
    assert CallOk(n, s, call);
    if steps != [] {
      StepKeepsInv(n, s, steps[0]);
      StepKeepsGivenUp(n, s, steps[0], call);
      GivenUpForGood(n, Next(n, s, steps[0]).value, steps[1..], call);
    }
  }

  /** Within one lifetime nothing straddles. */
  lemma NoStraddlingBeforeTheEnd(n: nat, s: State, steps: seq<Step>, call: nat)
    requires Initial(n, s) && Reach(n, s, steps).Some? && !Ended(Reach(n, s, steps).value)
    requires Next(n, Reach(n, s, steps).value, Wake(call)).Some?
    ensures !Straddles(Reach(n, s, steps).value, call)
  {
    RunKeepsInv(n, s, steps);
  }

  // ---------- ID accounting in every lifetime ----------

  /** A call registered with the current response handler that has not completed. */
  predicate HoldsId(s: State, c: nat)
    requires c in s.calls
  {
    s.calls[c].life == s.ends && !s.calls[c].phase.Returned?
  }

  /** The table holds exactly the calls of the current lifetime that have not completed. */
  ghost predicate ExactNow(s: State) {
    && (forall c :: c in s.calls ==> s.calls[c].life <= s.ends && (s.client.table.None? ==> s.calls[c].life < s.ends))
    && (s.client.table.Some? ==>
          && (forall c :: c in s.calls && HoldsId(s, c) ==>
                s.calls[c].id in s.client.table.value && s.client.table.value[s.calls[c].id] == c)
          && forall id :: id in s.client.table.value ==> EntryIsHeld(s, id))
  }

  ghost predicate EntryIsHeld(s: State, id: nat)
    requires s.client.table.Some? && id in s.client.table.value
  {
    var c := s.client.table.value[id];
    c in s.calls && s.calls[c].id == id && HoldsId(s, c)
  }

  lemma BeginKeepsExactNow(n: nat, s: State, call: nat, encodable: bool)
    requires Inv(n, s) && ExactNow(s) && StepBegin(n, s, call, encodable).Some?
    ensures ExactNow(StepBegin(n, s, call, encodable).value)
  {
    var k, t := StartHandler(s.client), StepBegin(n, s, call, encodable).value;
    AllocatorIsExact(k.table.value.Keys, k.cursor, n);
    forall id | id in t.client.table.value ensures EntryIsHeld(t, id) {
      if id in k.table.value {
        assert s.client.table.Some? && EntryIsHeld(s, id);
      }
    }
  }

  lemma WakeKeepsExactNow(n: nat, s: State, call: nat)
    requires Inv(n, s) && ExactNow(s) && StepWake(s, call).Some? && !Straddles(s, call)
    ensures ExactNow(StepWake(s, call).value)
  {
    if s.client.table.Some? {
      var t, table := StepWake(s, call).value, s.client.table.value;
      forall id | id in t.client.table.value ensures EntryIsHeld(t, id) {
        assert EntryIsHeld(s, id);
      }
    }
  }

  lemma SameHoldersKeepExactNow(s: State, t: State)
    requires ExactNow(s) && t.client.table == s.client.table && t.ends == s.ends && t.calls.Keys == s.calls.Keys
    requires forall c :: c in s.calls ==>
      t.calls[c].id == s.calls[c].id && t.calls[c].life == s.calls[c].life && (HoldsId(t, c) <==> HoldsId(s, c))
    ensures ExactNow(t)
  {
    if s.client.table.Some? {
      forall id | id in t.client.table.value ensures EntryIsHeld(t, id) {
        assert EntryIsHeld(s, id);
      }
    }
  }

  lemma PhaseKeepsExactNow(s: State, t: State, call: nat, phase: Phase)
    requires ExactNow(s) && t.client.table == s.client.table && t.ends == s.ends
    requires call in s.calls && t.calls == SetPhase(s, call, phase).calls && !phase.Returned?
    requires !s.calls[call].phase.Returned?
    ensures ExactNow(t)
  {
    SameHoldersKeepExactNow(s, t);
  }

  lemma StepKeepsExactNow(n: nat, s: State, step: Step)
    requires Inv(n, s) && ExactNow(s) && NextWithoutStraddling(n, s, step).Some?
    ensures ExactNow(NextWithoutStraddling(n, s, step).value)
  {
    match step
    case Begin(call, encodable) => BeginKeepsExactNow(n, s, call, encodable);
    case Wake(call) => WakeKeepsExactNow(n, s, call);
    case Abort(call) => PhaseKeepsExactNow(s, Next(n, s, step).value, call, Raised);
    case Write(call) => PhaseKeepsExactNow(s, Next(n, s, step).value, call, Draining);
    case Drained(call) => PhaseKeepsExactNow(s, Next(n, s, step).value, call, Waiting);
    case End =>
    case _ => SameHoldersKeepExactNow(s, Next(n, s, step).value);
  }

  /** In every lifetime of a response handler, of any number of them on the same reader, the IDs in use are
      those of the calls of that lifetime that are in progress or raised, no ID counting twice: as long as
      no wake-up has straddled two lifetimes. */
  lemma IdAccountingInEveryLifetime(n: nat, s: State, steps: seq<Step>)
    requires Initial(n, s)
    requires var run := Run((t: State, step: Step) => NextWithoutStraddling(n, t, step), s, steps);
      run.Some? && run.value.client.table.Some?
    ensures var t := Run((t: State, step: Step) => NextWithoutStraddling(n, t, step), s, steps).value;
      && t.client.table.value.Keys == (set c | c in t.calls && HoldsId(t, c) :: t.calls[c].id)
      && forall c, d ::
           c in t.calls && d in t.calls && HoldsId(t, c) && HoldsId(t, d) && t.calls[c].id == t.calls[d].id ==> c == d
  {
    var next := (t: State, step: Step) => NextWithoutStraddling(n, t, step);
    var inv := t => Inv(n, t) && ExactNow(t);
    forall t: State, step: Step ensures KeptBy(next, inv, t, step) {
      if inv(t) && next(t, step).Some? {
        StepKeepsInv(n, t, step);
        StepKeepsExactNow(n, t, step);
      }
    }
    RunKeeps(next, inv, s, steps);
    var t := Run(next, s, steps).value;
    forall id | id in t.client.table.value ensures id in (set c | c in t.calls && HoldsId(t, c) :: t.calls[c].id) {
      assert EntryIsHeld(t, id);
    }
  }
}
