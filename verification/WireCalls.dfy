/** Remote calls over one connection once more, with nothing abstracted from the wire: what calls and
    server tasks write are bytes, and what the server's read loop and the response handler get is what
    they decode from those bytes. A response that cannot be encoded leaves a part of it behind.

    No step looks at the history fields. As long as the responses can be encoded the machine does what
    the one in Rpc does, packet for packet. */
module WireCalls {
  import opened Streams
  import opened RequestIds
  import opened MessageCodecs
  import opened ClientLoop
  import CompositeCodecs
  import R = Rpc

  /** A call with the request it made, and how far it is. */
  datatype Call = Call(request: ServiceRequest, phase: R.Phase, life: nat)

  /** A request the server works on; `number` is history: how many requests it had read before. */
  datatype Task = Task(request: ServiceRequest, number: nat)

  /** The number of request IDs, the codecs of both nodes, and Python's `repr`. */
  datatype Setting = Setting(n: nat, c: Parts, repr: string -> string)

  datatype State = State(
    client: R.Client<ServiceResponse>,
    calls: map<nat, Call>,
    requestWire: seq<byte>,        // written to the connection, not yet read by the server
    tasks: seq<Task>,
    responseWire: seq<byte>,       // written by the server, not yet read by the response handler
    ends: nat,                     // how often the response handler has come to its end of stream
    written: seq<nat>,             // history: the calls in order of writing their requests
    read: nat,                     // history: how many requests the server has read
    outcomes: map<nat, Outcome>)   // history: what became of running the service, by number of the request

  datatype Step =
    | Begin(call: nat, service: string, args: seq<Data>, kwargs: CompositeCodecs.Dict<string, Data>)
    | Others(cursor: nat, futures: map<nat, R.Future<ServiceResponse>>)
    | Write(call: nat)
    | WriteTopic(message: TopicMessage)    // an outbox writes to the connection
    | Drained(call: nat)
    | Abort(call: nat)
    | Wake(call: nat)
    | Receive                              // the server's loop reads a message
    | Lose(i: nat)                         // a server task ends without writing anything
    | Respond(i: nat, outcome: Outcome)    // a server task writes its response, or as much as can be encoded
    | Deliver                              // the response handler reads a response
    | Choke(left: nat)                     // what the response handler reads is no response: it raises and ends
    | End                                  // the response handler meets the end of stream

  function SetPhase(w: State, call: nat, phase: R.Phase): State
    requires call in w.calls
  {
    w.(calls := w.calls[call := w.calls[call].(phase := phase)])
  }

  function InProgress(c: Call): bool {
    c.phase.Locking? || c.phase.Draining? || c.phase.Waiting?
  }

  function Next(g: Setting, w: State, step: Step): Option<State> {
    match step
    case Begin(call, service, args, kwargs) => StepBegin(g, w, call, service, args, kwargs)
    case Others(cursor, futures) =>
      if cursor < g.n &&
         forall c :: c in w.calls && c in w.client.futures ==> c in futures && futures[c] == w.client.futures[c] then
        Some(w.(client := w.client.(cursor := cursor, futures := futures)))
      else None
    case Write(call) =>
      if call in w.calls && w.calls[call].phase.Locking? &&
         (forall c :: c in w.calls ==> !w.calls[c].phase.Draining?) then
        var frame := MessageEncode(g.c, Service(w.calls[call].request)).bytes;
        Some(SetPhase(w, call, R.Draining).(requestWire := w.requestWire + frame, written := w.written + [call]))
      else None
    case WriteTopic(m) =>
      if MessageEncode(g.c, Topic(m)).ok then
        Some(w.(requestWire := w.requestWire + MessageEncode(g.c, Topic(m)).bytes))
      else None
    case Drained(call) =>
      if call in w.calls && w.calls[call].phase.Draining? then Some(SetPhase(w, call, R.Waiting)) else None
    case Abort(call) => StepAbort(w, call)
    case Wake(call) => StepWake(w, call)
    case Receive => StepReceive(g, w)
    case Lose(i) =>
      if i < |w.tasks| then Some(w.(tasks := Without(w.tasks, i))) else None
    case Respond(i, outcome) =>
      if i < |w.tasks| then
        var out := ResponseEncode(g.c, Answer(w.tasks[i].request, outcome, g.repr));
        Some(w.(tasks := Without(w.tasks, i),
                responseWire := if w.ends > 0 then w.responseWire else w.responseWire + out.bytes,
                outcomes := w.outcomes[w.tasks[i].number := outcome]))
      else None
    case Deliver => StepDeliver(g, w)
    case Choke(left) =>
      if w.client.table.None? || w.ends > 0 || w.responseWire == [] || left > |w.responseWire| then None
      else if ResponseDecode(g.c, w.responseWire).Value? then None
      else Some(w.(client := R.EndHandler(w.client), responseWire := w.responseWire[left..]))
    case End =>
      if w.client.table.Some? then
        Some(w.(client := R.EndHandler(w.client), responseWire := [], ends := w.ends + 1))
      else None
  }

  function StepDeliver(g: Setting, w: State): Option<State> {
    if w.client.table.None? || w.ends > 0 then None
    else match ResponseDecode(g.c, w.responseWire)
      case Value(r, rest) => Some(w.(client := R.SetResult(w.client, r.id, r), responseWire := rest))
      case _ => None
  }

  function StepReceive(g: Setting, w: State): Option<State> {
    match MessageDecode(g.c, w.requestWire)
    case Value(Service(q), rest) =>
      Some(w.(requestWire := rest, tasks := w.tasks + [Task(q, w.read)], read := w.read + 1))
    case Value(Topic(_), rest) => Some(w.(requestWire := rest))
    case _ => None
  }

  function StepBegin(g: Setting, w: State, call: nat, service: string, args: seq<Data>,
                     kwargs: CompositeCodecs.Dict<string, Data>): Option<State> {
    if call in w.calls || call in w.client.futures || w.client.cursor >= g.n then None
    else
      var k := R.StartHandler(w.client);
      match R.NewId(k, g.n)
      case None => Some(w.(client := k))
      case Some(id) =>
        AllocatorIsExact(k.table.value.Keys, k.cursor, g.n);
        var request := ServiceRequest(id, service, args, kwargs);
        var phase := if MessageEncode(g.c, Service(request)).ok then R.Locking else R.Raised;
        Some(w.(client := R.Register(k, id, call, g.n), calls := w.calls[call := Call(request, phase, w.ends)]))
  }

  function StepAbort(w: State, call: nat): Option<State> {
    if call !in w.calls || !InProgress(w.calls[call]) || call !in w.client.futures then None
    else if w.calls[call].phase.Waiting? && w.client.futures[call].Pending? then
      Some(SetPhase(w, call, R.Raised).(client := w.client.(futures := w.client.futures[call := R.Cancelled])))
    else
      Some(SetPhase(w, call, R.Raised))
  }

  function StepWake(w: State, call: nat): Option<State> {
    if call !in w.calls || !w.calls[call].phase.Waiting? || call !in w.client.futures then None
    else match w.client.futures[call]
      case Answered(r) => if w.calls[call].request.id < 0 then None else
        Some(SetPhase(w, call, R.Returned).(client := R.Release(w.client, w.calls[call].request.id)))
      case Failed => Some(SetPhase(w, call, R.Raised))
      case _ => None
  }

  ghost predicate Initial(g: Setting, w: State) {
    && w.client.cursor < g.n && w.client.table == None && w.client.handlers == 0
    && w.calls == map[] && w.requestWire == [] && w.tasks == [] && w.responseWire == []
    && w.ends == 0 && w.written == [] && w.read == 0 && w.outcomes == map[]
  }

  // ---------- How a state shows a state of Rpc ----------

  /** What is on the wires: the messages to the server, and of the responses their numbers and contents. */
  datatype Story = Story(messages: seq<Message>, numbers: seq<nat>, answers: seq<ServiceResponse>)

  /** The call that wrote request number k and the response its service run gives. */
  function ResponseOf(g: Setting, w: State, k: nat): ServiceResponse
    requires k < |w.written| && w.written[k] in w.calls && k in w.outcomes
  {
    Answer(w.calls[w.written[k]].request, w.outcomes[k], g.repr)
  }

  function ResponseFrames(c: Parts, rs: seq<ServiceResponse>): seq<seq<byte>> {
    seq(|rs|, i requires 0 <= i < |rs| => ResponseEncode(c, rs[i]).bytes)
  }

  ghost predicate SameKind(a: R.Future<ServiceResponse>, b: R.Future<nat>) {
    a.Pending? == b.Pending? && a.Answered? == b.Answered? && a.Failed? == b.Failed? && a.Cancelled? == b.Cancelled?
  }

  ghost predicate SameClient(a: R.Client<ServiceResponse>, b: R.Client<nat>) {
    && a.cursor == b.cursor && a.table == b.table && a.handlers == b.handlers
    && a.futures.Keys == b.futures.Keys
    && forall f :: f in a.futures ==> SameKind(a.futures[f], b.futures[f])
  }

  ghost predicate SameCall(g: Setting, a: Call, b: R.Call) {
    && b.id == a.request.id && b.phase == a.phase && b.life == a.life
    && (a.phase.Locking? ==> MessageEncode(g.c, Service(a.request)).ok)
  }

  ghost predicate SameCalls(g: Setting, w: State, s: R.State) {
    && w.calls.Keys == s.calls.Keys
    && forall c :: c in w.calls ==> SameCall(g, w.calls[c], s.calls[c])
  }

  ghost predicate WrittenOnce(w: State) {
    && w.read <= |w.written|
    && (forall k :: 0 <= k < |w.written| ==> w.written[k] in w.calls && !w.calls[w.written[k]].phase.Locking?)
    && (forall j, k :: 0 <= j < k < |w.written| ==> w.written[j] != w.written[k])
    && (forall k :: k in w.outcomes ==> k < w.read)
  }

  /** The packet is about request number k. */
  ghost predicate IsPacket(w: State, p: R.Packet, k: nat) {
    k < |w.written| && w.written[k] in w.calls && p.call == w.written[k] && p.id == w.calls[w.written[k]].request.id
  }

  ghost predicate RequestShown(w: State, p: R.Packet, k: nat, q: ServiceRequest) {
    IsPacket(w, p, k) && q == w.calls[w.written[k]].request
  }

  ghost predicate RequestsShown(g: Setting, w: State, s: R.State, messages: seq<Message>) {
    && w.read <= |w.written| && |s.requests| == |w.written| - w.read == |Requests(messages)|
    && (forall j :: 0 <= j < |s.requests| ==> RequestShown(w, s.requests[j], w.read + j, Requests(messages)[j]))
    && Encodable(g.c, messages) && w.requestWire == Concat(FramesOf(g.c, messages))
  }

  ghost predicate TaskShown(w: State, t: Task, p: R.Packet) {
    && t.number < w.read && IsPacket(w, p, t.number)
    && t.request == w.calls[w.written[t.number]].request
    && t.number !in w.outcomes
  }

  ghost predicate TasksShown(w: State, s: R.State) {
    && |w.tasks| == |s.tasks|
    && (forall i :: 0 <= i < |w.tasks| ==> TaskShown(w, w.tasks[i], s.tasks[i]))
    && (forall i, j :: 0 <= i < j < |w.tasks| ==> w.tasks[i].number != w.tasks[j].number)
  }

  ghost predicate ResponseShown(g: Setting, w: State, p: R.Packet, k: nat, r: ServiceResponse) {
    && k < |w.written| && k in w.outcomes && IsPacket(w, p, k)
    && r == ResponseOf(g, w, k) && ResponseEncode(g.c, r).ok
  }

  ghost predicate ResponsesShown(g: Setting, w: State, s: R.State, story: Story) {
    && |story.numbers| == |story.answers| == |s.responses|
    && (forall j :: 0 <= j < |s.responses| ==> ResponseShown(g, w, s.responses[j], story.numbers[j], story.answers[j]))
    && w.responseWire == Concat(ResponseFrames(g.c, story.answers))
  }

  /** The response r is what request number k, written by call a, got. */
  ghost predicate IsAnswer(g: Setting, w: State, k: nat, a: nat, r: ServiceResponse) {
    && k < |w.written| && w.written[k] == a && a in w.calls && k in w.outcomes
    && r == Normal(ResponseOf(g, w, k))
  }

  ghost predicate Answers(g: Setting, w: State, a: nat, r: ServiceResponse) {
    exists k :: IsAnswer(g, w, k, a, r)
  }

  ghost predicate Answered(w: State, s: R.State, c: nat) {
    && c in w.calls
    && c in w.client.futures && w.client.futures[c].Answered?
    && c in s.client.futures && s.client.futures[c].Answered?
  }

  ghost predicate AnswersShown(g: Setting, w: State, s: R.State) {
    forall c :: Answered(w, s, c) ==> Answers(g, w, s.client.futures[c].answer, w.client.futures[c].answer)
  }

  ghost predicate Shows(g: Setting, w: State, s: R.State, story: Story) {
    && SameClient(w.client, s.client) && SameCalls(g, w, s) && w.ends == s.ends
    && WrittenOnce(w) && RequestsShown(g, w, s, story.messages) && TasksShown(w, s)
    && (w.ends == 0 ==> ResponsesShown(g, w, s, story))
    && AnswersShown(g, w, s)
  }

  // ---------- What stays shown ----------

  /** From w to t calls keep their requests and go forward, and history only grows. */
  ghost predicate Grows(w: State, t: State) {
    && (forall c :: c in w.calls ==> c in t.calls && t.calls[c].request == w.calls[c].request)
    && (forall c :: c in w.calls && !w.calls[c].phase.Locking? ==> !t.calls[c].phase.Locking?)
    && w.written <= t.written && w.read <= t.read
    && forall k :: k in w.outcomes ==> k in t.outcomes && t.outcomes[k] == w.outcomes[k]
  }

  lemma AnswersStay(g: Setting, w: State, t: State, a: nat, r: ServiceResponse)
    requires Grows(w, t) && Answers(g, w, a, r)
    ensures Answers(g, t, a, r)
  {
    var k :| IsAnswer(g, w, k, a, r);
    assert IsAnswer(g, t, k, a, r);
  }

  lemma ResponsesStay(g: Setting, w: State, t: State, s: R.State, u: R.State, story: Story)
    requires Grows(w, t) && ResponsesShown(g, w, s, story)
    requires t.responseWire == w.responseWire && u.responses == s.responses
    ensures ResponsesShown(g, t, u, story)
  {
    forall j | 0 <= j < |u.responses| ensures ResponseShown(g, t, u.responses[j], story.numbers[j], story.answers[j]) {
      assert ResponseShown(g, w, s.responses[j], story.numbers[j], story.answers[j]);
    }
  }

  lemma RequestsStay(g: Setting, w: State, t: State, s: R.State, u: R.State, messages: seq<Message>)
    requires Grows(w, t) && RequestsShown(g, w, s, messages)
    requires t.written == w.written && t.read == w.read && t.requestWire == w.requestWire && u.requests == s.requests
    ensures RequestsShown(g, t, u, messages)
  {
    forall j | 0 <= j < |u.requests| ensures RequestShown(t, u.requests[j], t.read + j, Requests(messages)[j]) {
      assert RequestShown(w, s.requests[j], w.read + j, Requests(messages)[j]);
    }
  }

  lemma TasksStay(w: State, t: State, s: R.State, u: R.State)
    requires Grows(w, t) && TasksShown(w, s)
    requires t.outcomes == w.outcomes && t.tasks == w.tasks && u.tasks == s.tasks
    ensures TasksShown(t, u)
  {
    forall i | 0 <= i < |t.tasks| ensures TaskShown(t, t.tasks[i], u.tasks[i]) {
      assert TaskShown(w, w.tasks[i], s.tasks[i]);
    }
  }

  /** Steps of calls that leave wires and server alone. */
  lemma WiresStay(g: Setting, w: State, t: State, s: R.State, u: R.State, story: Story)
    requires Shows(g, w, s, story) && Grows(w, t)
    requires t == w.(client := t.client, calls := t.calls) && u == s.(client := u.client, calls := u.calls)
    ensures WrittenOnce(t) && RequestsShown(g, t, u, story.messages) && TasksShown(t, u)
    ensures t.ends == 0 ==> ResponsesShown(g, t, u, story)
  {
    RequestsStay(g, w, t, s, u, story.messages);
    TasksStay(w, t, s, u);
    if t.ends == 0 {
      ResponsesStay(g, w, t, s, u, story);
    }
  }

  /** Answers that are there after a step of the calls were there before. */
  ghost predicate NoNewAnswers(w: State, t: State, s: R.State, u: R.State) {
    forall c :: Answered(t, u, c) ==>
      Answered(w, s, c) && w.client.futures[c] == t.client.futures[c] && s.client.futures[c] == u.client.futures[c]
  }

  lemma AnswersShownStay(g: Setting, w: State, t: State, s: R.State, u: R.State)
    requires AnswersShown(g, w, s) && Grows(w, t) && NoNewAnswers(w, t, s, u)
    ensures AnswersShown(g, t, u)
  {
    forall c | Answered(t, u, c) ensures Answers(g, t, u.client.futures[c].answer, t.client.futures[c].answer) {
      AnswersStay(g, w, t, s.client.futures[c].answer, w.client.futures[c].answer);
    }
  }

  // ---------- Steps of calls ----------

  /** What a step of calls has to keep, so that the wires and the answers stay shown. */
  ghost predicate CallStep(g: Setting, w: State, t: State, s: R.State, u: R.State) {
    && t == w.(client := t.client, calls := t.calls) && u == s.(client := u.client, calls := u.calls)
    && SameClient(t.client, u.client) && SameCalls(g, t, u)
    && Grows(w, t) && NoNewAnswers(w, t, s, u)
  }

  lemma CallStepShows(g: Setting, w: State, t: State, s: R.State, u: R.State, story: Story)
    requires Shows(g, w, s, story) && CallStep(g, w, t, s, u)
    ensures Shows(g, t, u, story)
  {
    WiresStay(g, w, t, s, u, story);
    AnswersShownStay(g, w, t, s, u);
  }

  lemma PhasesStaySame(g: Setting, w: State, s: R.State, call: nat, phase: R.Phase)
    requires SameCalls(g, w, s) && call in w.calls && !phase.Locking?
    ensures SameCalls(g, SetPhase(w, call, phase), R.SetPhase(s, call, phase)) && Grows(w, SetPhase(w, call, phase))
  {
    var t, u := SetPhase(w, call, phase), R.SetPhase(s, call, phase);
    forall c | c in t.calls ensures SameCall(g, t.calls[c], u.calls[c]) {
      assert SameCall(g, w.calls[c], s.calls[c]);
    }
  }

  lemma RegisterSame(a: R.Client<ServiceResponse>, b: R.Client<nat>, id: nat, call: nat, n: nat)
    requires SameClient(a, b) && a.table.Some? && id < n
    ensures SameClient(R.Register(a, id, call, n), R.Register(b, id, call, n))
  {
  }

  lemma NewCallSame(g: Setting, w: State, s: R.State, call: nat, a: Call, b: R.Call)
    requires SameCalls(g, w, s) && call !in w.calls && SameCall(g, a, b)
    ensures SameCalls(g, w.(calls := w.calls[call := a]), s.(calls := s.calls[call := b]))
  {
    forall c | c in w.calls ensures SameCall(g, w.calls[c], s.calls[c]) {
    }
  }

  lemma RegisterIsCallStep(g: Setting, w: State, s: R.State, id: nat, call: nat, a: Call, b: R.Call)
    requires SameClient(w.client, s.client) && SameCalls(g, w, s) && id < g.n
    requires call !in w.calls && call !in w.client.futures && SameCall(g, a, b)
    ensures CallStep(g, w,
      w.(client := R.Register(R.StartHandler(w.client), id, call, g.n), calls := w.calls[call := a]), s,
      s.(client := R.Register(R.StartHandler(s.client), id, call, g.n), calls := s.calls[call := b]))
  {
    NewCallSame(g, w, s, call, a, b);
    RegisterSame(R.StartHandler(w.client), R.StartHandler(s.client), id, call, g.n);
  }

  lemma BeginSame(g: Setting, w: State, s: R.State, call: nat, service: string, args: seq<Data>,
                  kwargs: CompositeCodecs.Dict<string, Data>)
    returns (step: R.Step)
    requires SameClient(w.client, s.client) && SameCalls(g, w, s) && w.ends == s.ends
    requires StepBegin(g, w, call, service, args, kwargs).Some?
    ensures R.Next(g.n, s, step).Some?
    ensures CallStep(g, w, StepBegin(g, w, call, service, args, kwargs).value, s, R.Next(g.n, s, step).value)
  {
    var k := R.StartHandler(w.client);
    AllocatorIsExact(k.table.value.Keys, k.cursor, g.n);
    match R.NewId(k, g.n)
    case None =>
      step := R.Begin(call, false);
    case Some(id) =>
      var t := StepBegin(g, w, call, service, args, kwargs).value;
      step := R.Begin(call, t.calls[call].phase.Locking?);
      var u := R.Next(g.n, s, step).value;
      RegisterIsCallStep(g, w, s, id, call, t.calls[call], u.calls[call]);
  }

  function Shadow(f: R.Future<ServiceResponse>): R.Future<nat> {
    match f
    case Pending => R.Pending
    case Answered(_) => R.Answered(0)
    case Failed => R.Failed
    case Cancelled => R.Cancelled
  }

  /** The same work on other readers, as Rpc sees it. */
  function ShadowOf(s: R.State, futures: map<nat, R.Future<ServiceResponse>>): (shadow: map<nat, R.Future<nat>>)
    ensures shadow.Keys == futures.Keys
  {
    map f | f in futures :: if f in s.calls && f in s.client.futures then s.client.futures[f] else Shadow(futures[f])
  }

  lemma OthersSame(g: Setting, w: State, s: R.State, cursor: nat, futures: map<nat, R.Future<ServiceResponse>>)
    requires SameClient(w.client, s.client) && SameCalls(g, w, s) && w.ends == s.ends
    requires Next(g, w, Others(cursor, futures)).Some?
    requires forall c :: c in w.calls ==> c in s.client.futures
    ensures R.Next(g.n, s, R.Others(cursor, ShadowOf(s, futures))).Some?
    ensures CallStep(g, w, Next(g, w, Others(cursor, futures)).value, s,
                     R.Next(g.n, s, R.Others(cursor, ShadowOf(s, futures))).value)
  {
    var shadow := ShadowOf(s, futures);
    forall f | f in futures ensures SameKind(futures[f], shadow[f]) {
      assert f in s.calls && f in s.client.futures ==> SameKind(w.client.futures[f], s.client.futures[f]);
    }
  }

  /** What becomes of the futures adds no answer. */
  ghost predicate OnlyOldAnswers(w: State, a: R.Client<ServiceResponse>, s: R.State, b: R.Client<nat>) {
    forall c :: c in a.futures && c in b.futures && a.futures[c].Answered? && b.futures[c].Answered? ==>
      && c in w.client.futures && w.client.futures[c] == a.futures[c]
      && c in s.client.futures && s.client.futures[c] == b.futures[c]
  }

  /** One call goes on to another phase. */
  lemma PhaseIsCallStep(g: Setting, w: State, s: R.State, call: nat, phase: R.Phase, a: R.Client<ServiceResponse>,
                        b: R.Client<nat>)
    requires SameCalls(g, w, s) && call in w.calls && !phase.Locking?
    requires SameClient(a, b) && OnlyOldAnswers(w, a, s, b)
    ensures CallStep(g, w, SetPhase(w, call, phase).(client := a), s, R.SetPhase(s, call, phase).(client := b))
  {
    PhasesStaySame(g, w, s, call, phase);
  }

  lemma DrainedSame(g: Setting, w: State, s: R.State, call: nat)
    requires SameClient(w.client, s.client) && SameCalls(g, w, s) && w.ends == s.ends && Next(g, w, Drained(call)).Some?
    ensures R.Next(g.n, s, R.Drained(call)).Some?
    ensures CallStep(g, w, Next(g, w, Drained(call)).value, s, R.Next(g.n, s, R.Drained(call)).value)
  {
    assert SameCall(g, w.calls[call], s.calls[call]);
    PhaseIsCallStep(g, w, s, call, R.Waiting, w.client, s.client);
  }

  lemma CancelSame(a: R.Client<ServiceResponse>, b: R.Client<nat>, call: nat)
    requires SameClient(a, b)
    ensures SameClient(a.(futures := a.futures[call := R.Cancelled]), b.(futures := b.futures[call := R.Cancelled]))
  {
  }

  lemma AbortSame(g: Setting, w: State, s: R.State, call: nat)
    requires SameClient(w.client, s.client) && SameCalls(g, w, s) && w.ends == s.ends && StepAbort(w, call).Some?
    ensures R.Next(g.n, s, R.Abort(call)).Some?
    ensures CallStep(g, w, StepAbort(w, call).value, s, R.Next(g.n, s, R.Abort(call)).value)
  {
    assert SameCall(g, w.calls[call], s.calls[call]) && SameKind(w.client.futures[call], s.client.futures[call]);
    CancelSame(w.client, s.client, call);
    PhaseIsCallStep(g, w, s, call, R.Raised, StepAbort(w, call).value.client, R.StepAbort(s, call).value.client);
  }

  lemma ReleaseSame(a: R.Client<ServiceResponse>, b: R.Client<nat>, id: nat)
    requires SameClient(a, b)
    ensures SameClient(R.Release(a, id), R.Release(b, id))
  {
  }

  lemma WakeSame(g: Setting, w: State, s: R.State, call: nat)
    requires SameClient(w.client, s.client) && SameCalls(g, w, s) && w.ends == s.ends && StepWake(w, call).Some?
    ensures R.Next(g.n, s, R.Wake(call)).Some?
    ensures CallStep(g, w, StepWake(w, call).value, s, R.Next(g.n, s, R.Wake(call)).value)
  {
    assert SameCall(g, w.calls[call], s.calls[call]) && SameKind(w.client.futures[call], s.client.futures[call]);
    var phase := if w.client.futures[call].Answered? then R.Returned else R.Raised;
    ReleaseSame(w.client, s.client, s.calls[call].id);
    PhaseIsCallStep(g, w, s, call, phase, StepWake(w, call).value.client, R.StepWake(s, call).value.client);
  }

  lemma FailingSame(a: R.Client<ServiceResponse>, b: R.Client<nat>)
    requires SameClient(a, b) && a.table.Some?
    ensures SameClient(R.EndHandler(a), R.EndHandler(b))
  {
    forall f | f in a.futures ensures SameKind(R.FailPending(a)[f], R.FailPending(b)[f]) {
      assert SameKind(a.futures[f], b.futures[f]);
    }
  }

  lemma FailingAnswersNothing(w: State, s: R.State)
    requires w.client.table.Some? && s.client.table.Some?
    ensures OnlyOldAnswers(w, R.EndHandler(w.client), s, R.EndHandler(s.client))
  {
  }

  lemma EndShows(g: Setting, w: State, s: R.State, story: Story)
    requires Shows(g, w, s, story) && Next(g, w, End).Some?
    ensures R.Next(g.n, s, R.End).Some?
    ensures Shows(g, Next(g, w, End).value, R.Next(g.n, s, R.End).value, story)
  {
    var t, u := Next(g, w, End).value, R.Next(g.n, s, R.End).value;
    FailingSame(w.client, s.client);
    FailingAnswersNothing(w, s);
    RequestsStay(g, w, t, s, u, story.messages);
    TasksStay(w, t, s, u);
    AnswersShownStay(g, w, t, s, u);
  }
}
