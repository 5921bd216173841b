/** Remote calls over one connection: src/rosy/node/service/caller.py at one end,
    clienthandler.py and service/requesthandler.py at the other.

    The machine follows one reader. Each step is the code between two awaits that can suspend. Calls
    and futures are numbered; a packet carries, next to its ID, the number of the call whose request
    it is or answers, which no step looks at except to record whom a response answers. */
module Rpc {
  import opened Streams
  import opened RequestIds

  /** A response future; what it is answered with is the response, of which this machine only keeps
      which call it is the answer to. */
  datatype Future<A> = Pending | Answered(answer: A) | Failed | Cancelled

  datatype Phase =
    | Locking    // registered and encoded, waiting for the writer's lock
    | Draining   // request written, lock held
    | Waiting    // waiting for its future
    | Returned   // left the with-block normally, with a result or an error response
    | Raised     // left the with-block by an exception

  /** A call, registered after its reader had come to `life` ends of stream. */
  datatype Call = Call(id: nat, phase: Phase, life: nat)

  datatype Packet = Packet(id: nat, call: nat)

  /** The caller object as it concerns this reader. */
  datatype Client<A> = Client(
    cursor: nat,                     // _next_request_id, shared by all readers
    table: Option<map<nat, nat>>,    // _response_futures[reader]: request ID to future, if present
    futures: map<nat, Future<A>>,
    handlers: nat)                   // response handler tasks of this reader

  datatype State = State(
    client: Client<nat>,
    calls: map<nat, Call>,
    requests: seq<Packet>,   // written by calls, not yet read by the server
    tasks: seq<Packet>,      // being handled by the server
    responses: seq<Packet>,  // written by the server, not yet read
    ends: nat)               // how often the response handler has come to its end of stream

  // ---------- The caller's operations ----------

  function StartHandler<A>(k: Client<A>): Client<A> {
    if k.table.None? then k.(table := Some(map[]), handlers := k.handlers + 1) else k
  }

  /** The ID the next call would get. */
  function NewId<A>(k: Client<A>, n: nat): Option<nat>
    requires k.table.Some? && k.cursor < n
  {
    FirstFree(k.table.value.Keys, k.cursor, n, n)
  }

  function Register<A>(k: Client<A>, id: nat, call: nat, n: nat): Client<A>
    requires k.table.Some? && id < n
  {
    k.(cursor := After(id, n), table := Some(k.table.value[id := call]), futures := k.futures[call := Pending])
  }

  function Release<A>(k: Client<A>, id: nat): Client<A> {
    if k.table.Some? then k.(table := Some(k.table.value - {id})) else k
  }

  function SetResult<A>(k: Client<A>, id: int, answer: A): Client<A>
    requires k.table.Some?
  {
    if id in k.table.value && k.table.value[id] in k.futures && k.futures[k.table.value[id]].Pending? then
      k.(futures := k.futures[k.table.value[id] := Answered(answer)])
    else k
  }

  function FailPending<A>(k: Client<A>): map<nat, Future<A>>
    requires k.table.Some?
  {
    map c | c in k.futures :: if c in k.table.value.Values && k.futures[c].Pending? then Failed else k.futures[c]
  }

  function EndHandler<A>(k: Client<A>): Client<A>
    requires k.table.Some?
  {
    k.(futures := FailPending(k), table := None, handlers := if k.handlers == 0 then 0 else k.handlers - 1)
  }

  // ---------- Steps ----------

  datatype Step =
    | Begin(call: nat, encodable: bool)  // start the handler if needed, register, encode
    | Others(cursor: nat, futures: map<nat, Future<nat>>)  // the caller works on another reader
    | Write(call: nat)                   // get the lock and write the request
    | Drained(call: nat)                 // release the lock and wait for the future
    | Abort(call: nat)                   // cancelled, or failed writing, at whichever await it is in
    | Wake(call: nat)                    // the future was done: leave the with-block
    | Spawn                              // the server reads a request and starts its task
    | Lose(i: nat)                       // a server task ends without a response
    | Respond(i: nat)                    // a server task has written its response, under the lock
    | Deliver                            // the response handler consumes a response
    | End                                // the response handler meets the end of stream

  predicate Ended(s: State) {
    s.ends > 0
  }

  predicate InProgress(c: Call) {
    c.phase.Locking? || c.phase.Draining? || c.phase.Waiting?
  }

  function SetPhase(s: State, call: nat, phase: Phase): State
    requires call in s.calls
  {
    s.(calls := s.calls[call := s.calls[call].(phase := phase)])
  }

  function Next(n: nat, s: State, step: Step): Option<State> {
    match step
    case Begin(call, encodable) => StepBegin(n, s, call, encodable)
    case Others(cursor, futures) =>
      if cursor < n &&
         forall c :: c in s.calls && c in s.client.futures ==> c in futures && futures[c] == s.client.futures[c] then
        Some(s.(client := s.client.(cursor := cursor, futures := futures)))
      else None
    case Write(call) =>
      if call in s.calls && s.calls[call].phase.Locking? &&
         (forall c :: c in s.calls ==> !s.calls[c].phase.Draining?) then
        Some(SetPhase(s, call, Draining).(requests := s.requests + [Packet(s.calls[call].id, call)]))
      else None
    case Drained(call) =>
      if call in s.calls && s.calls[call].phase.Draining? then Some(SetPhase(s, call, Waiting)) else None
    case Abort(call) => StepAbort(s, call)
    case Wake(call) => StepWake(s, call)
    case Spawn =>
      if s.requests != [] then Some(s.(requests := s.requests[1..], tasks := s.tasks + [s.requests[0]])) else None
    case Lose(i) =>
      if i < |s.tasks| then Some(s.(tasks := Without(s.tasks, i))) else None
    case Respond(i) =>
      if i < |s.tasks| then
        Some(s.(tasks := Without(s.tasks, i),
                responses := if Ended(s) then s.responses else s.responses + [s.tasks[i]]))
      else None
    case Deliver =>
      if s.client.table.Some? && s.responses != [] && !Ended(s) then
        Some(s.(client := SetResult(s.client, s.responses[0].id, s.responses[0].call), responses := s.responses[1..]))
      else None
    case End =>
      if s.client.table.Some? then
        Some(s.(client := EndHandler(s.client), responses := [], ends := s.ends + 1))
      else None
  }

  /** If no ID is free the call raises before it is registered; if its request cannot be encoded it
      raises inside the with-block. */
  function StepBegin(n: nat, s: State, call: nat, encodable: bool): Option<State> {
    if call in s.calls || call in s.client.futures || s.client.cursor >= n then None
    else
      var k := StartHandler(s.client);
      match NewId(k, n)
      case None => Some(s.(client := k))
      case Some(id) =>
        AllocatorIsExact(k.table.value.Keys, k.cursor, n);
        Some(s.(client := Register(k, id, call, n),
                calls := s.calls[call := Call(id, if encodable then Locking else Raised, s.ends)]))
  }

  /** A cancelled wait cancels its future. Nothing takes the ID back. */
  function StepAbort(s: State, call: nat): Option<State> {
    if call !in s.calls || !InProgress(s.calls[call]) || call !in s.client.futures then None
    else if s.calls[call].phase.Waiting? && s.client.futures[call].Pending? then
      Some(SetPhase(s, call, Raised).(client := s.client.(futures := s.client.futures[call := Cancelled])))
    else
      Some(SetPhase(s, call, Raised))
  }

  function StepWake(s: State, call: nat): Option<State> {
    if call !in s.calls || !s.calls[call].phase.Waiting? || call !in s.client.futures then None
    else match s.client.futures[call]
      case Answered(_) => Some(SetPhase(s, call, Returned).(client := Release(s.client, s.calls[call].id)))
      case Failed => Some(SetPhase(s, call, Raised))
      case _ => None
  }

  ghost predicate Initial(n: nat, s: State) {
    && s.client.cursor < n && s.client.table == None && s.client.handlers == 0
    && s.calls == map[] && s.requests == [] && s.tasks == [] && s.responses == [] && !Ended(s)
  }

  const FRESH: State := State(Client(0, None, map[], 0), map[], [], [], [], 0)

  // ---------- The invariant ----------

  ghost predicate Distinct(ps: seq<Packet>) {
    forall i, j :: 0 <= i < j < |ps| ==> ps[i].call != ps[j].call
  }

  ghost predicate Apart(ps: seq<Packet>, qs: seq<Packet>) {
    forall i, j :: 0 <= i < |ps| && 0 <= j < |qs| ==> ps[i].call != qs[j].call
  }

  /** A packet under way belongs to a call that wrote its request, holds its ID and has not been answered. */
  ghost predicate UnderWay(s: State, p: Packet) {
    && p.call in s.calls && p.call in s.client.futures
    && s.calls[p.call].id == p.id
    && (s.calls[p.call].phase.Draining? || s.calls[p.call].phase.Waiting? || s.calls[p.call].phase.Raised?)
    && !s.client.futures[p.call].Answered?
  }

  ghost predicate AllUnderWay(s: State, ps: seq<Packet>) {
    forall i :: 0 <= i < |ps| ==> UnderWay(s, ps[i])
  }

  ghost predicate Packets(s: State) {
    && AllUnderWay(s, s.requests) && AllUnderWay(s, s.tasks) && AllUnderWay(s, s.responses)
    && Distinct(s.requests) && Distinct(s.tasks) && Distinct(s.responses)
    && Apart(s.requests, s.tasks) && Apart(s.requests, s.responses) && Apart(s.tasks, s.responses)
  }

  /** The table holds exactly the calls in progress and those that raised, each under its own ID. */
  ghost predicate ExactTable(s: State, table: map<nat, nat>) {
    && (forall id :: id in table ==>
          table[id] in s.calls && s.calls[table[id]].id == id && !s.calls[table[id]].phase.Returned?)
    && (forall c :: c in s.calls && !s.calls[c].phase.Returned? ==>
          s.calls[c].id in table && table[s.calls[c].id] == c)
  }

  ghost predicate FirstLifetime(s: State) {
    match s.client.table
    case None => s.calls == map[] && s.requests == [] && s.tasks == [] && s.responses == []
    case Some(table) => ExactTable(s, table) && Packets(s)
  }

  ghost predicate CallOk(n: nat, s: State, c: nat)
    requires c in s.calls
  {
    && c in s.client.futures
    && s.calls[c].id < n
    && (s.client.futures[c].Answered? ==> s.client.futures[c].answer == c)
    && (s.calls[c].phase.Returned? ==> s.client.futures[c].Answered?)
    && (s.calls[c].phase.Locking? ==> !s.client.futures[c].Answered?)
    && (InProgress(s.calls[c]) ==> !s.client.futures[c].Cancelled?)
  }

  ghost predicate Inv(n: nat, s: State) {
    && s.client.cursor < n
    && s.client.handlers == (if s.client.table.Some? then 1 else 0)
    && (forall c :: c in s.calls ==> CallOk(n, s, c))
    && (!Ended(s) ==> FirstLifetime(s))
    && (Ended(s) ==> s.responses == [])
  }

  /** What becomes of the calls and futures does not matter to the packets as long as each call keeps its
      ID, stays unfinished and is not answered. */
  lemma PacketsStay(s: State, t: State)
    requires Packets(s) && t.requests == s.requests && t.tasks == s.tasks && t.responses == s.responses
    requires forall p: Packet :: UnderWay(s, p) ==> UnderWay(t, p)
    ensures Packets(t)
  {
  }

  lemma BeginKeepsInv(n: nat, s: State, call: nat, encodable: bool)
    requires Inv(n, s) && StepBegin(n, s, call, encodable).Some?
    ensures Inv(n, StepBegin(n, s, call, encodable).value)
  {
    var k, t := StartHandler(s.client), StepBegin(n, s, call, encodable).value;
    AllocatorIsExact(k.table.value.Keys, k.cursor, n);
    if !Ended(s) {
      assert forall p: Packet :: UnderWay(s, p) ==> UnderWay(t, p);
      if s.client.table.Some? {
        PacketsStay(s, t);
      }
    }
  }

  lemma WakeKeepsInv(n: nat, s: State, call: nat)
    requires Inv(n, s) && StepWake(s, call).Some?
    ensures Inv(n, StepWake(s, call).value)
  {
    var t := StepWake(s, call).value;
    if !Ended(s) && s.client.table.Some? {
      assert forall p: Packet :: UnderWay(s, p) ==> UnderWay(t, p);
      PacketsStay(s, t);
    }
  }

  lemma WriteKeepsInv(n: nat, s: State, call: nat)
    requires Inv(n, s) && Next(n, s, Write(call)).Some?
    ensures Inv(n, Next(n, s, Write(call)).value)
  {
  }

  lemma AbortKeepsInv(n: nat, s: State, call: nat)
    requires Inv(n, s) && StepAbort(s, call).Some?
    ensures Inv(n, StepAbort(s, call).value)
  {
    var t := StepAbort(s, call).value;
    if !Ended(s) && s.client.table.Some? {
      assert forall p: Packet :: UnderWay(s, p) ==> UnderWay(t, p);
      PacketsStay(s, t);
    }
  }

  lemma OthersKeepInv(n: nat, s: State, cursor: nat, futures: map<nat, Future<nat>>)
    requires Inv(n, s) && Next(n, s, Others(cursor, futures)).Some?
    ensures Inv(n, Next(n, s, Others(cursor, futures)).value)
  {
    var t := Next(n, s, Others(cursor, futures)).value;
    if !Ended(s) && s.client.table.Some? {
      assert forall p: Packet :: UnderWay(s, p) ==> UnderWay(t, p);
      PacketsStay(s, t);
    }
  }

  lemma DrainedKeepsInv(n: nat, s: State, call: nat)
    requires Inv(n, s) && Next(n, s, Drained(call)).Some?
    ensures Inv(n, Next(n, s, Drained(call)).value)
  {
    var t := Next(n, s, Drained(call)).value;
    if !Ended(s) && s.client.table.Some? {
      assert forall p: Packet :: UnderWay(s, p) ==> UnderWay(t, p);
      PacketsStay(s, t);
    }
  }

  lemma SpawnKeepsInv(n: nat, s: State)
    requires Inv(n, s) && Next(n, s, Spawn).Some?
    ensures Inv(n, Next(n, s, Spawn).value)
  {
  }

  /** Taking a packet out keeps the others, and they stay apart from each other and from it. */
  lemma WithoutKeeps(s: State, ps: seq<Packet>, i: nat, qs: seq<Packet>)
    requires i < |ps| && AllUnderWay(s, ps) && Distinct(ps) && Apart(qs, ps)
    ensures AllUnderWay(s, Without(ps, i)) && Distinct(Without(ps, i)) && Apart(qs, Without(ps, i))
    ensures Apart(Without(ps, i), [ps[i]])
  {
    var rest := Without(ps, i);
    assert forall k :: 0 <= k < |rest| ==> rest[k] == if k < i then ps[k] else ps[k + 1];
  }

  lemma TaskEndKeepsPackets(s: State, i: nat)
    requires Packets(s) && i < |s.tasks|
    ensures Packets(s.(tasks := Without(s.tasks, i)))
    ensures Packets(s.(tasks := Without(s.tasks, i), responses := s.responses + [s.tasks[i]]))
  {
    WithoutKeeps(s, s.tasks, i, s.requests);
    var rest := Without(s.tasks, i);
    assert forall k :: 0 <= k < |rest| ==> rest[k] == if k < i then s.tasks[k] else s.tasks[k + 1];
  }

  lemma TaskEndKeepsInv(n: nat, s: State, i: nat)
    requires Inv(n, s) && i < |s.tasks|
    ensures Inv(n, Next(n, s, Lose(i)).value)
    ensures Inv(n, Next(n, s, Respond(i)).value)
  {
    if !Ended(s) && s.client.table.Some? {
      TaskEndKeepsPackets(s, i);
    }
  }

  lemma DeliverKeepsInv(n: nat, s: State)
    requires Inv(n, s) && Next(n, s, Deliver).Some?
    ensures Inv(n, Next(n, s, Deliver).value)
  {
  }

  lemma EndKeepsInv(n: nat, s: State)
    requires Inv(n, s) && Next(n, s, End).Some?
    ensures Inv(n, Next(n, s, End).value)
  {
  }

  lemma StepKeepsInv(n: nat, s: State, step: Step)
    requires Inv(n, s) && Next(n, s, step).Some?
    ensures Inv(n, Next(n, s, step).value)
  {
    match step
    case Begin(call, encodable) => BeginKeepsInv(n, s, call, encodable);
    case Others(cursor, futures) => OthersKeepInv(n, s, cursor, futures);
    case Write(call) => WriteKeepsInv(n, s, call);
    case Drained(call) => DrainedKeepsInv(n, s, call);
    case Abort(call) => AbortKeepsInv(n, s, call);
    case Wake(call) => WakeKeepsInv(n, s, call);
    case Spawn => SpawnKeepsInv(n, s);
    case Lose(i) => TaskEndKeepsInv(n, s, i);
    case Respond(i) => TaskEndKeepsInv(n, s, i);
    case Deliver => DeliverKeepsInv(n, s);
    case End => EndKeepsInv(n, s);
  }
}
