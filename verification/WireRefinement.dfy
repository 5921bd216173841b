/** As long as the responses written can be encoded, the machine over bytes does what the machine over
    packets does. */
module WireRefinement {
  import opened Streams
  import opened Runs
  import opened RequestIds
  import opened MessageCodecs
  import opened ClientLoop
  import opened WireCalls
  import R = Rpc

  // ---------- Requests ----------

  lemma OneMoreMessage(c: Parts, ms: seq<Message>, m: Message)
    requires Encodable(c, ms) && MessageEncode(c, m).ok
    ensures Encodable(c, ms + [m])
    ensures Concat(FramesOf(c, ms + [m])) == Concat(FramesOf(c, ms)) + MessageEncode(c, m).bytes
    ensures Requests(ms + [m]) == Requests(ms) + (if m.Service? then [m.request] else [])
  {
    assert FramesOf(c, ms + [m]) == FramesOf(c, ms) + [MessageEncode(c, m).bytes];
    ConcatAppend(FramesOf(c, ms), [MessageEncode(c, m).bytes]);
    assert Concat([MessageEncode(c, m).bytes]) == MessageEncode(c, m).bytes;
    RequestsAppend(ms, [m]);
  }

  lemma FirstMessage(c: Parts, ms: seq<Message>)
    requires LawfulParts(c) && Encodable(c, ms)
    ensures var wire := Concat(FramesOf(c, ms));
      if ms == [] then !MessageDecode(c, wire).Value?
      else MessageDecode(c, wire) == Value(ms[0], Concat(FramesOf(c, ms[1..]))) && Encodable(c, ms[1..])
  {
    MessageLawful(c);
    if ms == [] {
      assert AdvancesAt(MessageCodec(c).decode, []);
    } else {
      assert FramesOf(c, ms)[1..] == FramesOf(c, ms[1..]);
      assert RoundTripsAt(MessageCodec(c), ms[0], Concat(FramesOf(c, ms[1..])));
    }
  }

  lemma WriteRequest(g: Setting, w: State, t: State, s: R.State, u: R.State, messages: seq<Message>, call: nat,
                     p: R.Packet)
    requires WrittenOnce(w) && RequestsShown(g, w, s, messages) && Grows(w, t)
    requires call in w.calls && w.calls[call].phase.Locking? && call in t.calls && !t.calls[call].phase.Locking?
    requires MessageEncode(g.c, Service(w.calls[call].request)).ok
    requires t.written == w.written + [call] && t.read == w.read && t.outcomes == w.outcomes
    requires t.requestWire == w.requestWire + MessageEncode(g.c, Service(w.calls[call].request)).bytes
    requires p.call == call && p.id == w.calls[call].request.id && u.requests == s.requests + [p]
    ensures WrittenOnce(t) && RequestsShown(g, t, u, messages + [Service(w.calls[call].request)])
  {
    OneMoreMessage(g.c, messages, Service(w.calls[call].request));
    var all := Requests(messages + [Service(w.calls[call].request)]);
    forall j | 0 <= j < |u.requests| ensures RequestShown(t, u.requests[j], t.read + j, all[j]) {
      if j < |s.requests| {
        assert RequestShown(w, s.requests[j], w.read + j, Requests(messages)[j]);
      }
    }
  }

  lemma WriteShows(g: Setting, w: State, s: R.State, story: Story, call: nat) returns (more: Story)
    requires Shows(g, w, s, story) && Next(g, w, Write(call)).Some?
    ensures R.Next(g.n, s, R.Write(call)).Some?
    ensures Shows(g, Next(g, w, Write(call)).value, R.Next(g.n, s, R.Write(call)).value, more)
  {
    assert forall c :: c in w.calls ==> SameCall(g, w.calls[c], s.calls[c]);
    var t, u := Next(g, w, Write(call)).value, R.Next(g.n, s, R.Write(call)).value;
    more := story.(messages := story.messages + [Service(w.calls[call].request)]);
    PhasesStaySame(g, w, s, call, R.Draining);
    WriteRequest(g, w, t, s, u, story.messages, call, R.Packet(s.calls[call].id, call));
    TasksStay(w, t, s, u);
    if t.ends == 0 {
      ResponsesStay(g, w, t, s, u, story);
      assert ResponsesShown(g, t, u, more);
    }
    AnswersShownStay(g, w, t, s, u);
  }

  lemma SameRequestsShown(g: Setting, w: State, t: State, s: R.State, before: seq<Message>, messages: seq<Message>)
    requires RequestsShown(g, w, s, before) && t == w.(requestWire := Concat(FramesOf(g.c, messages)))
    requires Encodable(g.c, messages) && Requests(messages) == Requests(before)
    ensures RequestsShown(g, t, s, messages)
  {
    forall j | 0 <= j < |s.requests| ensures RequestShown(t, s.requests[j], t.read + j, Requests(messages)[j]) {
      assert RequestShown(w, s.requests[j], w.read + j, Requests(before)[j]);
    }
  }

  lemma MessagesChangeShows(g: Setting, w: State, s: R.State, story: Story, wire: seq<byte>, messages: seq<Message>)
    requires Shows(g, w, s, story) && Encodable(g.c, messages) && wire == Concat(FramesOf(g.c, messages))
    requires Requests(messages) == Requests(story.messages)
    ensures Shows(g, w.(requestWire := wire), s, story.(messages := messages))
  {
    var t := w.(requestWire := wire);
    SameRequestsShown(g, w, t, s, story.messages, messages);
    TasksStay(w, t, s, s);
    if w.ends == 0 {
      ResponsesStay(g, w, t, s, s, story);
      assert ResponsesShown(g, t, s, story.(messages := messages));
    }
    AnswersShownStay(g, w, t, s, s);
  }

  lemma WriteTopicShows(g: Setting, w: State, s: R.State, story: Story, m: TopicMessage) returns (more: Story)
    requires Shows(g, w, s, story) && Next(g, w, WriteTopic(m)).Some?
    ensures Shows(g, Next(g, w, WriteTopic(m)).value, s, more)
  {
    OneMoreMessage(g.c, story.messages, Topic(m));
    assert Requests(story.messages) + [] == Requests(story.messages);
    more := story.(messages := story.messages + [Topic(m)]);
    MessagesChangeShows(g, w, s, story, w.requestWire + MessageEncode(g.c, Topic(m)).bytes, more.messages);
  }

  lemma ReceiveRequest(g: Setting, w: State, t: State, s: R.State, u: R.State, messages: seq<Message>)
    requires WrittenOnce(w) && RequestsShown(g, w, s, messages) && TasksShown(w, s) && Grows(w, t)
    requires messages != [] && messages[0].Service? && Encodable(g.c, messages[1..])
    requires t == w.(requestWire := Concat(FramesOf(g.c, messages[1..])),
                     tasks := w.tasks + [Task(messages[0].request, w.read)], read := w.read + 1)
    requires s.requests != [] && u.requests == s.requests[1..] && u.tasks == s.tasks + [s.requests[0]]
    ensures WrittenOnce(t) && RequestsShown(g, t, u, messages[1..]) && TasksShown(t, u)
  {
    assert RequestShown(w, s.requests[0], w.read + 0, Requests(messages)[0]);
    forall j | 0 <= j < |u.requests| ensures RequestShown(t, u.requests[j], t.read + j, Requests(messages[1..])[j]) {
      assert RequestShown(w, s.requests[j + 1], w.read + (j + 1), Requests(messages)[j + 1]);
    }
    forall i | 0 <= i < |t.tasks| ensures TaskShown(t, t.tasks[i], u.tasks[i]) {
      assert i < |w.tasks| ==> TaskShown(w, w.tasks[i], s.tasks[i]);
    }
    forall i, j | 0 <= i < j < |t.tasks| ensures t.tasks[i].number != t.tasks[j].number {
      assert TaskShown(w, w.tasks[i], s.tasks[i]);
    }
  }

  lemma ReceiveShows(g: Setting, w: State, s: R.State, story: Story) returns (steps: seq<R.Step>, more: Story)
    requires LawfulParts(g.c) && Shows(g, w, s, story) && StepReceive(g, w).Some?
    ensures (steps == [] && Shows(g, StepReceive(g, w).value, s, more))
         || (&& steps == [R.Spawn] && R.Next(g.n, s, R.Spawn).Some?
             && Shows(g, StepReceive(g, w).value, R.Next(g.n, s, R.Spawn).value, more))
  {
    var t := StepReceive(g, w).value;
    FirstMessage(g.c, story.messages);
    more := story.(messages := story.messages[1..]);
    if story.messages[0].Topic? {
      steps := [];
      MessagesChangeShows(g, w, s, story, t.requestWire, more.messages);
    } else {
      steps := [R.Spawn];
      var u := R.Next(g.n, s, R.Spawn).value;
      ReceiveRequest(g, w, t, s, u, story.messages);
      if t.ends == 0 {
        ResponsesStay(g, w, t, s, u, story);
        assert ResponsesShown(g, t, u, more);
      }
      AnswersShownStay(g, w, t, s, u);
    }
  }

  // ---------- Responses ----------

  lemma FewerTasks(w: State, t: State, s: R.State, u: R.State, i: nat)
    requires TasksShown(w, s) && i < |w.tasks| && Grows(w, t)
    requires t.tasks == Without(w.tasks, i) && u.tasks == Without(s.tasks, i) && t.read == w.read
    requires forall k :: k in t.outcomes ==> k in w.outcomes || k == w.tasks[i].number
    ensures TasksShown(t, u)
  {
    forall j | 0 <= j < |t.tasks| ensures TaskShown(t, t.tasks[j], u.tasks[j]) {
      var k := if j < i then j else j + 1;
      assert TaskShown(w, w.tasks[k], s.tasks[k]);
    }
    forall j, k | 0 <= j < k < |t.tasks| ensures t.tasks[j].number != t.tasks[k].number {
      assert t.tasks[j] == w.tasks[if j < i then j else j + 1] && t.tasks[k] == w.tasks[if k < i then k else k + 1];
    }
  }

  lemma LoseShows(g: Setting, w: State, s: R.State, story: Story, i: nat)
    requires Shows(g, w, s, story) && Next(g, w, Lose(i)).Some?
    ensures R.Next(g.n, s, R.Lose(i)).Some?
    ensures Shows(g, Next(g, w, Lose(i)).value, R.Next(g.n, s, R.Lose(i)).value, story)
  {
    var t, u := Next(g, w, Lose(i)).value, R.Next(g.n, s, R.Lose(i)).value;
    FewerTasks(w, t, s, u, i);
    RequestsStay(g, w, t, s, u, story.messages);
    if t.ends == 0 {
      ResponsesStay(g, w, t, s, u, story);
    }
    AnswersShownStay(g, w, t, s, u);
  }

  lemma OneMoreResponse(c: Parts, rs: seq<ServiceResponse>, r: ServiceResponse)
    ensures Concat(ResponseFrames(c, rs + [r])) == Concat(ResponseFrames(c, rs)) + ResponseEncode(c, r).bytes
  {
    assert ResponseFrames(c, rs + [r]) == ResponseFrames(c, rs) + [ResponseEncode(c, r).bytes];
    ConcatAppend(ResponseFrames(c, rs), [ResponseEncode(c, r).bytes]);
    assert Concat([ResponseEncode(c, r).bytes]) == ResponseEncode(c, r).bytes;
  }

  /** Handling a request as `Respond` does, with a response that can be encoded. */
  ghost predicate Answerable(g: Setting, w: State, i: nat, outcome: Outcome) {
    i < |w.tasks| && ResponseEncode(g.c, Answer(w.tasks[i].request, outcome, g.repr)).ok
  }

  lemma ResponseJoins(g: Setting, w: State, t: State, s: R.State, u: R.State, story: Story, i: nat,
                      outcome: Outcome) returns (more: Story)
    requires Grows(w, t) && ResponsesShown(g, w, s, story) && Answerable(g, w, i, outcome)
    requires i < |s.tasks| && TaskShown(w, w.tasks[i], s.tasks[i]) && w.tasks[i].number in t.outcomes
    requires t.outcomes[w.tasks[i].number] == outcome
    requires t.responseWire == w.responseWire + ResponseEncode(g.c, Answer(w.tasks[i].request, outcome, g.repr)).bytes
    requires u.responses == s.responses + [s.tasks[i]]
    ensures ResponsesShown(g, t, u, more) && more.messages == story.messages
  {
    var r := Answer(w.tasks[i].request, outcome, g.repr);
    more := story.(numbers := story.numbers + [w.tasks[i].number], answers := story.answers + [r]);
    OneMoreResponse(g.c, story.answers, r);
    forall j | 0 <= j < |u.responses| ensures ResponseShown(g, t, u.responses[j], more.numbers[j], more.answers[j]) {
      if j < |s.responses| {
        assert ResponseShown(g, w, s.responses[j], story.numbers[j], story.answers[j]);
      }
    }
  }

  lemma RespondLeaves(g: Setting, w: State, t: State, s: R.State, u: R.State, story: Story, i: nat, outcome: Outcome)
    requires Shows(g, w, s, story) && i < |w.tasks|
    requires t == w.(tasks := Without(w.tasks, i), responseWire := t.responseWire,
                     outcomes := w.outcomes[w.tasks[i].number := outcome])
    requires u == s.(tasks := Without(s.tasks, i), responses := u.responses)
    ensures Grows(w, t) && WrittenOnce(t) && TasksShown(t, u) && RequestsShown(g, t, u, story.messages)
    ensures AnswersShown(g, t, u)
  {
    assert TaskShown(w, w.tasks[i], s.tasks[i]);
    FewerTasks(w, t, s, u, i);
    RequestsStay(g, w, t, s, u, story.messages);
    AnswersShownStay(g, w, t, s, u);
  }

  lemma RespondShows(g: Setting, w: State, s: R.State, story: Story, i: nat, outcome: Outcome) returns (more: Story)
    requires Shows(g, w, s, story) && Answerable(g, w, i, outcome)
    ensures R.Next(g.n, s, R.Respond(i)).Some?
    ensures Shows(g, Next(g, w, Respond(i, outcome)).value, R.Next(g.n, s, R.Respond(i)).value, more)
  {
    var t, u := Next(g, w, Respond(i, outcome)).value, R.Next(g.n, s, R.Respond(i)).value;
    RespondLeaves(g, w, t, s, u, story, i, outcome);
    more := story;
    if t.ends == 0 {
      assert TaskShown(w, w.tasks[i], s.tasks[i]);
      more := ResponseJoins(g, w, t, s, u, story, i, outcome);
    }
  }

  lemma FirstResponse(c: Parts, rs: seq<ServiceResponse>)
    requires LawfulParts(c) && forall i :: 0 <= i < |rs| ==> ResponseEncode(c, rs[i]).ok
    ensures var wire := Concat(ResponseFrames(c, rs));
      if rs == [] then wire == [] && !ResponseDecode(c, wire).Value?
      else ResponseDecode(c, wire) == Value(Normal(rs[0]), Concat(ResponseFrames(c, rs[1..])))
  {
    if rs == [] {
      ResponseStreams(c);
      assert AdvancesAt(ResponseReader(c), []);
    } else {
      assert ResponseFrames(c, rs)[1..] == ResponseFrames(c, rs[1..]);
      ResponseNormalises(c, rs[0], Concat(ResponseFrames(c, rs[1..])));
    }
  }

  lemma ShownResponsesDecode(g: Setting, w: State, s: R.State, story: Story)
    requires LawfulParts(g.c) && ResponsesShown(g, w, s, story)
    ensures s.responses == [] ==> w.responseWire == [] && !ResponseDecode(g.c, w.responseWire).Value?
    ensures s.responses != [] ==>
      && ResponseShown(g, w, s.responses[0], story.numbers[0], story.answers[0])
      && ResponseDecode(g.c, w.responseWire) ==
        Value(Normal(story.answers[0]), Concat(ResponseFrames(g.c, story.answers[1..])))
  {
    forall j | 0 <= j < |story.answers| ensures ResponseEncode(g.c, story.answers[j]).ok {
      assert ResponseShown(g, w, s.responses[j], story.numbers[j], story.answers[j]);
    }
    FirstResponse(g.c, story.answers);
  }

  /** The handler never meets anything but whole responses. */
  lemma NeverChokes(g: Setting, w: State, s: R.State, story: Story, left: nat)
    requires LawfulParts(g.c) && Shows(g, w, s, story)
    ensures Next(g, w, Choke(left)).None?
  {
    if w.ends == 0 {
      ShownResponsesDecode(g, w, s, story);
    }
  }

  lemma SetResultSame(a: R.Client<ServiceResponse>, b: R.Client<nat>, id: nat, r: ServiceResponse, call: nat)
    requires SameClient(a, b) && a.table.Some?
    ensures SameClient(R.SetResult(a, id, r), R.SetResult(b, id, call))
  {
  }

  lemma DeliveredAnswers(g: Setting, w: State, s: R.State, p: R.Packet, k: nat, r: ServiceResponse)
    requires SameClient(w.client, s.client) && w.client.table.Some? && AnswersShown(g, w, s)
    requires ResponseShown(g, w, p, k, r)
    ensures AnswersShown(g, w.(client := R.SetResult(w.client, p.id, Normal(r))),
      s.(client := R.SetResult(s.client, p.id, p.call)))
  {
    var t, u := w.(client := R.SetResult(w.client, p.id, Normal(r))), s.(client := R.SetResult(s.client, p.id, p.call));
    assert IsAnswer(g, w, k, p.call, Normal(r));
    assert Answers(g, w, p.call, Normal(r));
    forall c | Answered(t, u, c) ensures Answers(g, t, u.client.futures[c].answer, t.client.futures[c].answer) {
      assert SameKind(w.client.futures[c], s.client.futures[c]);
      if Answered(w, s, c) {
        AnswersStay(g, w, t, s.client.futures[c].answer, w.client.futures[c].answer);
      } else {
        AnswersStay(g, w, t, p.call, Normal(r));
      }
    }
  }

  lemma FewerResponses(g: Setting, w: State, t: State, s: R.State, u: R.State, story: Story, more: Story)
    requires ResponsesShown(g, w, s, story) && s.responses != [] && Grows(w, t)
    requires u.responses == s.responses[1..] && more == Story(story.messages, story.numbers[1..], story.answers[1..])
    requires t.responseWire == Concat(ResponseFrames(g.c, more.answers))
    ensures ResponsesShown(g, t, u, more)
  {
    forall j | 0 <= j < |u.responses| ensures ResponseShown(g, t, u.responses[j], more.numbers[j], more.answers[j]) {
      assert ResponseShown(g, w, s.responses[j + 1], story.numbers[j + 1], story.answers[j + 1]);
    }
  }

  lemma DeliverShows(g: Setting, w: State, s: R.State, story: Story) returns (more: Story)
    requires LawfulParts(g.c) && Shows(g, w, s, story) && StepDeliver(g, w).Some?
    ensures R.Next(g.n, s, R.Deliver).Some?
    ensures Shows(g, StepDeliver(g, w).value, R.Next(g.n, s, R.Deliver).value, more)
  {
    ShownResponsesDecode(g, w, s, story);
    var t, u, p, r := StepDeliver(g, w).value, R.Next(g.n, s, R.Deliver).value, s.responses[0], story.answers[0];
    more := Story(story.messages, story.numbers[1..], story.answers[1..]);
    assert r.id == p.id;
    SetResultSame(w.client, s.client, p.id, Normal(r), p.call);
    DeliveredAnswers(g, w, s, p, story.numbers[0], r);
    RequestsStay(g, w, t, s, u, story.messages);
    TasksStay(w, t, s, u);
    FewerResponses(g, w, t, s, u, story, more);
    AnswersAreOfCalls(g, w, t, s, u, p, r);
  }

  lemma AnswersAreOfCalls(g: Setting, w: State, t: State, s: R.State, u: R.State, p: R.Packet, r: ServiceResponse)
    requires w.client.table.Some? && s.client.table.Some?
    requires AnswersShown(g, w.(client := R.SetResult(w.client, p.id, Normal(r))),
      s.(client := R.SetResult(s.client, p.id, p.call)))
    requires t == w.(client := R.SetResult(w.client, p.id, Normal(r)), responseWire := t.responseWire)
    requires u == s.(client := R.SetResult(s.client, p.id, p.call), responses := u.responses)
    ensures AnswersShown(g, t, u)
  {
    AnswersShownStay(g, w.(client := R.SetResult(w.client, p.id, Normal(r))), t,
      s.(client := R.SetResult(s.client, p.id, p.call)), u);
  }

  // ---------- Every run ----------

  /** The runs in which `sendable` responses are all that is written, and these can be encoded. */
  function Careful(g: Setting, sendable: ServiceResponse -> bool, w: State, step: Step): Option<State> {
    if step.Respond? && step.i < |w.tasks| && !sendable(Answer(w.tasks[step.i].request, step.outcome, g.repr)) then None
    else Next(g, w, step)
  }

  ghost predicate OnlyEncodable(g: Setting, sendable: ServiceResponse -> bool) {
    forall r: ServiceResponse :: 0 <= r.id < g.n && sendable(r) ==> ResponseEncode(g.c, r).ok
  }

  lemma TaskIsAnswerable(g: Setting, sendable: ServiceResponse -> bool, w: State, s: R.State, story: Story, i: nat,
                         outcome: Outcome)
    requires OnlyEncodable(g, sendable) && Shows(g, w, s, story) && R.Inv(g.n, s)
    requires Careful(g, sendable, w, Respond(i, outcome)).Some?
    ensures Answerable(g, w, i, outcome)
  {
    assert TaskShown(w, w.tasks[i], s.tasks[i]);
    var c := w.written[w.tasks[i].number];
    assert SameCall(g, w.calls[c], s.calls[c]) && R.CallOk(g.n, s, c);
  }

  predicate IsCallStep(step: Step) {
    step.Begin? || step.Others? || step.Drained? || step.Abort? || step.Wake?
  }

  lemma CallsShow(g: Setting, w: State, s: R.State, story: Story, step: Step) returns (packet: R.Step)
    requires IsCallStep(step) && Shows(g, w, s, story) && R.Inv(g.n, s) && Next(g, w, step).Some?
    ensures R.Next(g.n, s, packet).Some? && CallStep(g, w, Next(g, w, step).value, s, R.Next(g.n, s, packet).value)
  {
    match step
    case Begin(call, service, args, kwargs) =>
      packet := BeginSame(g, w, s, call, service, args, kwargs);
    case Others(cursor, futures) =>
      packet := R.Others(cursor, ShadowOf(s, futures));
      forall c | c in w.calls ensures c in s.client.futures {
        assert R.CallOk(g.n, s, c);
      }
      OthersSame(g, w, s, cursor, futures);
    case Drained(call) =>
      packet := R.Drained(call);
      DrainedSame(g, w, s, call);
    case Abort(call) =>
      packet := R.Abort(call);
      AbortSame(g, w, s, call);
    case Wake(call) =>
      packet := R.Wake(call);
      WakeSame(g, w, s, call);
  }

  lemma WiresShow(g: Setting, sendable: ServiceResponse -> bool, w: State, s: R.State, story: Story, step: Step)
    returns (steps: seq<R.Step>, more: Story)
    requires LawfulParts(g.c) && OnlyEncodable(g, sendable) && !IsCallStep(step)
    requires Shows(g, w, s, story) && R.Inv(g.n, s) && Careful(g, sendable, w, step).Some?
    ensures |steps| <= 1 && (|steps| == 1 ==> R.Next(g.n, s, steps[0]).Some?)
    ensures Shows(g, Next(g, w, step).value, if steps == [] then s else R.Next(g.n, s, steps[0]).value, more)
  {
    more := story;
    match step
    case Write(call) =>
      steps := [R.Write(call)];
      more := WriteShows(g, w, s, story, call);
    case WriteTopic(m) =>
      steps := [];
      more := WriteTopicShows(g, w, s, story, m);
    case Receive => steps, more := ReceiveShows(g, w, s, story);
    case Lose(i) =>
      steps := [R.Lose(i)];
      LoseShows(g, w, s, story, i);
    case Respond(i, outcome) =>
      steps := [R.Respond(i)];
      TaskIsAnswerable(g, sendable, w, s, story, i, outcome);
      more := RespondShows(g, w, s, story, i, outcome);
    case Deliver =>
      steps := [R.Deliver];
      more := DeliverShows(g, w, s, story);
    case Choke(left) => NeverChokes(g, w, s, story, left);
    case End =>
      steps := [R.End];
      EndShows(g, w, s, story);
  }

  lemma StepShows(g: Setting, sendable: ServiceResponse -> bool, w: State, s: R.State, story: Story, step: Step)
    returns (steps: seq<R.Step>, more: Story)
    requires LawfulParts(g.c) && OnlyEncodable(g, sendable)
    requires Shows(g, w, s, story) && R.Inv(g.n, s) && Careful(g, sendable, w, step).Some?
    ensures |steps| <= 1 && (|steps| == 1 ==> R.Next(g.n, s, steps[0]).Some?)
    ensures Shows(g, Careful(g, sendable, w, step).value,
                  if steps == [] then s else R.Next(g.n, s, steps[0]).value, more)
  {
    if IsCallStep(step) {
      var packet := CallsShow(g, w, s, story, step);
      CallStepShows(g, w, Next(g, w, step).value, s, R.Next(g.n, s, packet).value, story);
      steps, more := [packet], story;
    } else {
      steps, more := WiresShow(g, sendable, w, s, story, step);
    }
  }

  // ---------- The other direction ----------

  /** The step over bytes is what the packet step stands for. */
  predicate Matches(packet: R.Step, step: Step) {
    match packet
    case Begin(call, _) => step.Begin? && step.call == call
    case Others(cursor, _) => step.Others? && step.cursor == cursor
    case Write(call) => step == Write(call)
    case Drained(call) => step == Drained(call)
    case Abort(call) => step == Abort(call)
    case Wake(call) => step == Wake(call)
    case Spawn => step == Receive
    case Lose(i) => step == Lose(i)
    case Respond(i) => step.Respond? && step.i == i
    case Deliver => step == Deliver
    case End => step == End
  }

  lemma WriteIsPossible(g: Setting, w: State, s: R.State, call: nat)
    requires SameCalls(g, w, s) && R.Next(g.n, s, R.Write(call)).Some?
    ensures Next(g, w, Write(call)).Some?
  {
    assert forall c :: c in w.calls ==> SameCall(g, w.calls[c], s.calls[c]);
  }

  lemma CallStepIsPossible(g: Setting, w: State, s: R.State, call: nat)
    requires SameCalls(g, w, s) && SameClient(w.client, s.client)
    ensures R.Next(g.n, s, R.Drained(call)).Some? ==> Next(g, w, Drained(call)).Some?
    ensures R.Next(g.n, s, R.Abort(call)).Some? ==> Next(g, w, Abort(call)).Some?
    ensures R.Next(g.n, s, R.Wake(call)).Some? ==> Next(g, w, Wake(call)).Some?
  {
    if call in w.calls && call in w.client.futures {
      assert SameCall(g, w.calls[call], s.calls[call]) && SameKind(w.client.futures[call], s.client.futures[call]);
    } else if call in w.calls {
      assert SameCall(g, w.calls[call], s.calls[call]);
    }
  }

  lemma BeginIsPossible(g: Setting, w: State, s: R.State, packet: R.Step, step: Step)
    requires SameClient(w.client, s.client) && w.calls.Keys == s.calls.Keys
    requires R.Next(g.n, s, packet).Some? && Matches(packet, step) && packet.Begin?
    ensures Next(g, w, step).Some?
  {
    var k := R.StartHandler(w.client);
    AllocatorIsExact(k.table.value.Keys, k.cursor, g.n);
  }

  lemma ReceiveIsPossible(g: Setting, w: State, s: R.State, story: Story)
    requires LawfulParts(g.c) && RequestsShown(g, w, s, story.messages) && s.requests != []
    ensures StepReceive(g, w).Some?
  {
    FirstMessage(g.c, story.messages);
  }

  lemma DeliverIsPossible(g: Setting, w: State, s: R.State, story: Story)
    requires LawfulParts(g.c) && Shows(g, w, s, story) && R.Next(g.n, s, R.Deliver).Some?
    ensures StepDeliver(g, w).Some?
  {
    ShownResponsesDecode(g, w, s, story);
  }

  lemma TaskEndIsPossible(g: Setting, w: State, s: R.State, story: Story, packet: R.Step, step: Step)
    requires Shows(g, w, s, story) && R.Next(g.n, s, packet).Some? && Matches(packet, step)
    requires packet.Lose? || packet.Respond? || packet.End?
    ensures Next(g, w, step).Some?
  {
  }

  /** Nothing that calls, server or handler could do over packets is impossible over bytes: whatever codecs,
      wires and other messages are in between, a step of Rpc always has its counterpart here. What is begun
      may be any call, and what is answered may be any outcome. */
  lemma StepIsPossible(g: Setting, w: State, s: R.State, story: Story, packet: R.Step, step: Step)
    requires LawfulParts(g.c) && Shows(g, w, s, story) && R.Inv(g.n, s)
    requires R.Next(g.n, s, packet).Some? && Matches(packet, step) && !packet.Others?
    ensures Next(g, w, step).Some?
  {
    match packet
    case Begin(_, _) => BeginIsPossible(g, w, s, packet, step);
    case Spawn => ReceiveIsPossible(g, w, s, story);
    case Deliver => DeliverIsPossible(g, w, s, story);
    case Lose(_) => TaskEndIsPossible(g, w, s, story, packet, step);
    case Respond(_) => TaskEndIsPossible(g, w, s, story, packet, step);
    case End => TaskEndIsPossible(g, w, s, story, packet, step);
    case Write(call) => WriteIsPossible(g, w, s, call);
    case Drained(call) => CallStepIsPossible(g, w, s, call);
    case Abort(call) => CallStepIsPossible(g, w, s, call);
    case Wake(call) => CallStepIsPossible(g, w, s, call);
  }

  function Reach(g: Setting, sendable: ServiceResponse -> bool, w: State, steps: seq<Step>): Option<State> {
    Run((t: State, step: Step) => Careful(g, sendable, t, step), w, steps)
  }

  lemma {:induction false} RunShows(g: Setting, sendable: ServiceResponse -> bool, w: State, s: R.State,
                                    story: Story, steps: seq<Step>)
    returns (packets: seq<R.Step>, u: R.State, more: Story)
    requires LawfulParts(g.c) && OnlyEncodable(g, sendable)
    requires Shows(g, w, s, story) && R.Inv(g.n, s) && Reach(g, sendable, w, steps).Some?
    ensures Run((t: R.State, e: R.Step) => R.Next(g.n, t, e), s, packets) == Some(u)
    ensures R.Inv(g.n, u) && Shows(g, Reach(g, sendable, w, steps).value, u, more)
    decreases |steps|
  {
    if steps == [] {
      packets, u, more := [], s, story;
    } else {
      var first, next := StepShows(g, sendable, w, s, story, steps[0]);
      var t := if first == [] then s else R.Next(g.n, s, first[0]).value;
      if first != [] {
        R.StepKeepsInv(g.n, s, first[0]);
      }
      var rest;
      rest, u, more := RunShows(g, sendable, Careful(g, sendable, w, steps[0]).value, t, next, steps[1..]);
      packets := first + rest;
      RunFirst(g.n, s, first, rest);
    }
  }

  lemma RunFirst(n: nat, s: R.State, first: seq<R.Step>, rest: seq<R.Step>)
    requires |first| <= 1 && (|first| == 1 ==> R.Next(n, s, first[0]).Some?)
    ensures var next := (t: R.State, e: R.Step) => R.Next(n, t, e);
      Run(next, s, first + rest) == Run(next, if first == [] then s else R.Next(n, s, first[0]).value, rest)
  {
    if first == [] {
      assert first + rest == rest;
    } else {
      assert (first + rest)[1..] == rest;
    }
  }

  /** The state of Rpc that an initial state shows. */
  function StartOf(w: State): R.State {
    var futures := map f | f in w.client.futures :: Shadow(w.client.futures[f]);
    R.State(R.Client(w.client.cursor, None, futures, 0), map[], [], [], [], 0)
  }

  /** Every run over bytes in which only responses are written that can be encoded shows a run of Rpc,
      packet for packet, from beginning to end. */
  lemma RefinesRpc(g: Setting, sendable: ServiceResponse -> bool, w: State, steps: seq<Step>)
    returns (packets: seq<R.Step>, u: R.State, story: Story)
    requires LawfulParts(g.c) && OnlyEncodable(g, sendable) && Initial(g, w) && Reach(g, sendable, w, steps).Some?
    ensures R.Initial(g.n, StartOf(w))
    ensures Run((t: R.State, e: R.Step) => R.Next(g.n, t, e), StartOf(w), packets) == Some(u)
    ensures R.Inv(g.n, u) && Shows(g, Reach(g, sendable, w, steps).value, u, story)
  {
    var start := Story([], [], []);
    assert FramesOf(g.c, []) == [] && ResponseFrames(g.c, []) == [];
    assert Shows(g, w, StartOf(w), start);
    packets, u, story := RunShows(g, sendable, w, StartOf(w), start, steps);
  }
}
