/** A run in which a call gets an answer cut out of the response to another call. */
module ForeignAnswer {
  import opened Streams
  import opened Runs
  import opened RequestIds
  import opened IntCodecs
  import opened CompositeCodecs
  import opened MessageCodecs
  import opened WireCalls
  import opened WireTheorems
  import R = Rpc

  const FRESH: State := State(R.Client(0, None, map[], 0), map[], [], [], [], 0, [], 0, map[])

  function Ask(id: nat, service: string): ServiceRequest {
    ServiceRequest(id, service, [], [])
  }

  function FrameOf(g: Setting, id: nat, service: string): seq<byte> {
    MessageEncode(g.c, Service(Ask(id, service))).bytes
  }

  // ---------- The bytes ----------

  /** The head of an error response to call 0, with two bytes of ID. */
  const HEAD: seq<byte> := [0, 0, ERROR_STATUS]

  /** How a successful response to call 1 begins. */
  const NEXT_HEAD: seq<byte> := [1, 0, SUCCESS_STATUS]

  lemma TwoByteIds()
    ensures FixedInt(2).encode(0) == Written([0, 0], true) && FixedInt(2).encode(1) == Written([1, 0], true)
    ensures forall rest: seq<byte> ::
      FixedInt(2).decode([0, 0] + rest) == Value(0, rest) && FixedInt(2).decode([1, 0] + rest) == Value(1, rest)
  {
    PowersOf256();
    assert LittleBytes(0, 2) == [0, 0] && LittleBytes(1, 2) == [1, 0] by {
      assert LittleBytes(0, 1) == [0];
    }
    FixedLawful(2, Little, false);
    forall rest: seq<byte>
      ensures FixedInt(2).decode([0, 0] + rest) == Value(0, rest) && FixedInt(2).decode([1, 0] + rest) == Value(1, rest)
    {
      assert RoundTripsAt(FixedInt(2), 0, rest) && RoundTripsAt(FixedInt(2), 1, rest);
    }
  }

  lemma NextHeadAsError(utf8: Form<string>, nul: string, rest: seq<byte>)
    requires utf8.load([SUCCESS_STATUS]) == Loaded(nul)
    ensures StringDecode(FixedInt(2), utf8, [1, 0] + ([SUCCESS_STATUS] + rest)) == Value(nul, rest)
  {
    TwoByteIds();
    assert FixedInt(2).decode([1, 0] + ([SUCCESS_STATUS] + rest)) == Value(1, [SUCCESS_STATUS] + rest);
    ReadBack([SUCCESS_STATUS], rest);
  }

  /** The ID of the next response is read as the length of the error, one byte, and its status as the error. */
  lemma HeadSwallowsNext(form: Form<Data>, utf8: Form<string>, nul: string, rest: seq<byte>)
    requires utf8.load([SUCCESS_STATUS]) == Loaded(nul)
    ensures ResponseDecode(BuildParts(2, DataCodec(form), utf8), HEAD + (NEXT_HEAD + rest)) ==
      Value(ServiceResponse(0, Null, Some(nul)), rest)
  {
    var c := BuildParts(2, DataCodec(form), utf8);
    var error := [1, 0] + ([SUCCESS_STATUS] + rest);
    assert HEAD + (NEXT_HEAD + rest) == [0, 0] + ([ERROR_STATUS] + error);
    TwoByteIds();
    assert c.id.decode([0, 0] + ([ERROR_STATUS] + error)) == Value(0, [ERROR_STATUS] + error);
    ReadBack([ERROR_STATUS], error);
    NextHeadAsError(utf8, nul, rest);
    assert c.error.decode(error) == Value(nul, rest);
  }

  lemma HeadIsWritten(form: Form<Data>, utf8: Form<string>, long: string)
    requires long != "" && !EncodableResponse(form, utf8, ServiceResponse(0, Null, Some(long)))
    ensures ResponseEncode(BuildParts(2, DataCodec(form), utf8), ServiceResponse(0, Null, Some(long))).bytes == HEAD
  {
    TwoByteIds();
    ManyIds(2);
    ResponseEncodable(2, form, utf8, ServiceResponse(0, Null, Some(long)));
    assert [0, 0] + [ERROR_STATUS] == HEAD;
  }

  lemma SuccessBegins(c: Parts, id: int, d: Data)
    requires c.id.encode(id).ok
    ensures ResponseEncode(c, ServiceResponse(id, d, None)).bytes ==
      c.id.encode(id).bytes + ([SUCCESS_STATUS] + c.data.encode(d).bytes)
  {
  }

  lemma NextHeadIsWritten(form: Form<Data>, utf8: Form<string>, d: Data)
    ensures NEXT_HEAD <= ResponseEncode(BuildParts(2, DataCodec(form), utf8), ServiceResponse(1, d, None)).bytes
  {
    var c := BuildParts(2, DataCodec(form), utf8);
    TwoByteIds();
    assert c.id == FixedInt(2);
    SuccessBegins(c, 1, d);
    var body := c.data.encode(d).bytes;
    assert [1, 0] + ([SUCCESS_STATUS] + body) == NEXT_HEAD + body;
  }

  lemma ManyIds(k: nat)
    requires k > 0
    ensures Pow2(8 * k) > 1
  {
    assert Pow2(8 * k) == 2 * Pow2(8 * k - 1);
  }

  // ---------- The run ----------

  /** Before call 1, with call 0 having ID 0; the server has read what is not on the wire. */
  function One(service: string, phase: R.Phase, wire: seq<byte>, tasks: seq<Task>, responses: seq<byte>,
               written: seq<nat>, read: nat, outcomes: map<nat, Outcome>): State {
    State(R.Client(1, Some(map[0 := 0]), map[0 := R.Pending], 1), map[0 := Call(Ask(0, service), phase, 0)],
          wire, tasks, responses, 0, written, read, outcomes)
  }

  lemma OneAsks(g: Setting, service: string)
    requires g.n > 1 && MessageEncode(g.c, Service(Ask(0, service))).ok
    ensures Next(g, FRESH, Begin(0, service, [], [])) == Some(One(service, R.Locking, [], [], [], [], 0, map[]))
  {
    var k := R.StartHandler(FRESH.client);
    assert R.NewId(k, g.n) == Some(0);
    assert k.table.value[0 := 0] == map[0 := 0] && k.futures[0 := R.Pending] == map[0 := R.Pending];
    assert FRESH.calls[0 := Call(Ask(0, service), R.Locking, 0)] == map[0 := Call(Ask(0, service), R.Locking, 0)];
  }

  lemma OneWrites(g: Setting, service: string)
    ensures Next(g, One(service, R.Locking, [], [], [], [], 0, map[]), Write(0))
      == Some(One(service, R.Draining, FrameOf(g, 0, service), [], [], [0], 0, map[]))
    ensures Next(g, One(service, R.Draining, FrameOf(g, 0, service), [], [], [0], 0, map[]), Drained(0))
      == Some(One(service, R.Waiting, FrameOf(g, 0, service), [], [], [0], 0, map[]))
  {
    assert [] + FrameOf(g, 0, service) == FrameOf(g, 0, service) && [] + [0] == [0];
    assert map[0 := Call(Ask(0, service), R.Locking, 0)][0 := Call(Ask(0, service), R.Draining, 0)] ==
      map[0 := Call(Ask(0, service), R.Draining, 0)];
    assert map[0 := Call(Ask(0, service), R.Draining, 0)][0 := Call(Ask(0, service), R.Waiting, 0)] ==
      map[0 := Call(Ask(0, service), R.Waiting, 0)];
  }

  lemma ReadsBack(c: Parts, q: ServiceRequest)
    requires LawfulParts(c) && MessageEncode(c, Service(q)).ok
    ensures MessageDecode(c, MessageEncode(c, Service(q)).bytes) == Value(Service(q), [])
  {
    MessageRoundTripsAt(c, Service(q), []);
    assert MessageEncode(c, Service(q)).bytes + [] == MessageEncode(c, Service(q)).bytes;
  }

  /** The service of call 0 raises, and the `repr` of the exception is too long, or no text UTF-8 takes. */
  lemma OneIsServed(g: Setting, service: string, long: string)
    requires LawfulParts(g.c) && MessageEncode(g.c, Service(Ask(0, service))).ok
    requires ResponseEncode(g.c, ServiceResponse(0, Null, Some(long))).bytes == HEAD
    ensures Next(g, One(service, R.Waiting, FrameOf(g, 0, service), [], [], [0], 0, map[]), Receive)
      == Some(One(service, R.Waiting, [], [Task(Ask(0, service), 0)], [], [0], 1, map[]))
    ensures Next(g, One(service, R.Waiting, [], [Task(Ask(0, service), 0)], [], [0], 1, map[]),
                 Respond(0, Failed(long)))
      == Some(One(service, R.Waiting, [], [], HEAD, [0], 1, map[0 := Failed(long)]))
  {
    ReadsBack(g.c, Ask(0, service));
    assert [] + [Task(Ask(0, service), 0)] == [Task(Ask(0, service), 0)] &&
      Without([Task(Ask(0, service), 0)], 0) == [];
    assert [] + HEAD == HEAD;
  }

  /** With call 1, under ID 1, while call 0 waits. */
  function Two(n: nat, future: R.Future<ServiceResponse>, service: string, phase: R.Phase, wire: seq<byte>,
               tasks: seq<Task>, responses: seq<byte>, written: seq<nat>, read: nat, outcomes: map<nat, Outcome>): State
    requires n > 1
  {
    State(R.Client(After(1, n), Some(map[0 := 0, 1 := 1]), map[0 := future, 1 := R.Pending], 1),
          map[0 := Call(Ask(0, service), R.Waiting, 0), 1 := Call(Ask(1, service), phase, 0)],
          wire, tasks, responses, 0, written, read, outcomes)
  }

  lemma TwoAsks(g: Setting, service: string, outcomes: map<nat, Outcome>)
    requires g.n > 1 && MessageEncode(g.c, Service(Ask(1, service))).ok
    ensures Next(g, One(service, R.Waiting, [], [], HEAD, [0], 1, outcomes), Begin(1, service, [], []))
      == Some(Two(g.n, R.Pending, service, R.Locking, [], [], HEAD, [0], 1, outcomes))
  {
    var w := One(service, R.Waiting, [], [], HEAD, [0], 1, outcomes);
    assert R.NewId(w.client, g.n) == Some(1);
    assert map[0 := 0][1 := 1] == map[0 := 0, 1 := 1] &&
      w.client.futures[1 := R.Pending] == map[0 := R.Pending, 1 := R.Pending];
    assert w.calls[1 := Call(Ask(1, service), R.Locking, 0)] ==
      map[0 := Call(Ask(0, service), R.Waiting, 0), 1 := Call(Ask(1, service), R.Locking, 0)];
  }

  lemma TwoWrites(g: Setting, service: string, outcomes: map<nat, Outcome>)
    requires g.n > 1
    ensures Next(g, Two(g.n, R.Pending, service, R.Locking, [], [], HEAD, [0], 1, outcomes), Write(1))
      == Some(Two(g.n, R.Pending, service, R.Draining, FrameOf(g, 1, service), [], HEAD, [0, 1], 1, outcomes))
  {
    var w := Two(g.n, R.Pending, service, R.Locking, [], [], HEAD, [0], 1, outcomes);
    assert [] + FrameOf(g, 1, service) == FrameOf(g, 1, service) && [0] + [1] == [0, 1];
    assert w.calls[1 := Call(Ask(1, service), R.Draining, 0)] ==
      map[0 := Call(Ask(0, service), R.Waiting, 0), 1 := Call(Ask(1, service), R.Draining, 0)];
  }

  lemma TwoIsServed(g: Setting, service: string, d: Data, outcomes: map<nat, Outcome>, frame: seq<byte>)
    requires g.n > 1 && LawfulParts(g.c) && MessageEncode(g.c, Service(Ask(1, service))).ok
    requires ResponseEncode(g.c, ServiceResponse(1, d, None)).bytes == frame
    ensures Next(g, Two(g.n, R.Pending, service, R.Draining, FrameOf(g, 1, service), [], HEAD, [0, 1], 1, outcomes),
                 Receive)
      == Some(Two(g.n, R.Pending, service, R.Draining, [], [Task(Ask(1, service), 1)], HEAD, [0, 1], 2, outcomes))
    ensures Next(g, Two(g.n, R.Pending, service, R.Draining, [], [Task(Ask(1, service), 1)], HEAD, [0, 1], 2, outcomes),
                 Respond(0, Returned(d)))
      == Some(Two(g.n, R.Pending, service, R.Draining, [], [], HEAD + frame, [0, 1], 2, outcomes[1 := Returned(d)]))
  {
    ReadsBack(g.c, Ask(1, service));
    assert [] + [Task(Ask(1, service), 1)] == [Task(Ask(1, service), 1)] &&
      Without([Task(Ask(1, service), 1)], 0) == [];
  }

  lemma ForeignDelivery(g: Setting, service: string, outcomes: map<nat, Outcome>, wire: seq<byte>,
                        r: ServiceResponse, rest: seq<byte>)
    requires g.n > 1 && ResponseDecode(g.c, wire) == Value(r, rest) && r.id == 0
    ensures Next(g, Two(g.n, R.Pending, service, R.Draining, [], [], wire, [0, 1], 2, outcomes), Deliver)
      == Some(Two(g.n, R.Answered(r), service, R.Draining, [], [], rest, [0, 1], 2, outcomes))
  {
    assert map[0 := R.Pending, 1 := R.Pending][0 := R.Answered(r)] == map[0 := R.Answered(r), 1 := R.Pending];
  }

  function Reach(g: Setting, w: State, steps: seq<Step>): Option<State> {
    Run((t: State, step: Step) => Next(g, t, step), w, steps)
  }

  function FirstHalf(service: string, long: string): seq<Step> {
    [Begin(0, service, [], []), Write(0), Drained(0), Receive, Respond(0, Failed(long))]
  }

  function SecondHalf(service: string, d: Data): seq<Step> {
    [Begin(1, service, [], []), Write(1), Receive, Respond(0, Returned(d)), Deliver]
  }

  function TheRun(service: string, long: string, d: Data): seq<Step> {
    FirstHalf(service, long) + SecondHalf(service, d)
  }

  lemma FirstHalfGoes(g: Setting, service: string, long: string)
    requires g.n > 1 && LawfulParts(g.c) && MessageEncode(g.c, Service(Ask(0, service))).ok
    requires ResponseEncode(g.c, ServiceResponse(0, Null, Some(long))).bytes == HEAD
    ensures Reach(g, FRESH, FirstHalf(service, long)) ==
      Some(One(service, R.Waiting, [], [], HEAD, [0], 1, map[0 := Failed(long)]))
  {
    var f0 := FrameOf(g, 0, service);
    OneAsks(g, service);
    OneWrites(g, service);
    OneIsServed(g, service, long);
    RunAlong((t: State, step: Step) => Next(g, t, step),
      [FRESH, One(service, R.Locking, [], [], [], [], 0, map[]), One(service, R.Draining, f0, [], [], [0], 0, map[]),
       One(service, R.Waiting, f0, [], [], [0], 0, map[]),
       One(service, R.Waiting, [], [Task(Ask(0, service), 0)], [], [0], 1, map[]),
       One(service, R.Waiting, [], [], HEAD, [0], 1, map[0 := Failed(long)])],
      FirstHalf(service, long));
  }

  lemma SecondHalfGoes(g: Setting, service: string, o: map<nat, Outcome>, d: Data, frame: seq<byte>,
                       r: ServiceResponse, rest: seq<byte>)
    requires g.n > 1 && LawfulParts(g.c) && MessageEncode(g.c, Service(Ask(1, service))).ok
    requires ResponseEncode(g.c, ServiceResponse(1, d, None)).bytes == frame
    requires ResponseDecode(g.c, HEAD + frame) == Value(r, rest) && r.id == 0
    ensures Reach(g, One(service, R.Waiting, [], [], HEAD, [0], 1, o), SecondHalf(service, d))
      == Some(Two(g.n, R.Answered(r), service, R.Draining, [], [], rest, [0, 1], 2, o[1 := Returned(d)]))
  {
    var f1 := FrameOf(g, 1, service);
    TwoAsks(g, service, o);
    TwoWrites(g, service, o);
    TwoIsServed(g, service, d, o, frame);
    ForeignDelivery(g, service, o[1 := Returned(d)], HEAD + frame, r, rest);
    RunAlong((t: State, step: Step) => Next(g, t, step),
      [One(service, R.Waiting, [], [], HEAD, [0], 1, o),
       Two(g.n, R.Pending, service, R.Locking, [], [], HEAD, [0], 1, o),
       Two(g.n, R.Pending, service, R.Draining, f1, [], HEAD, [0, 1], 1, o),
       Two(g.n, R.Pending, service, R.Draining, [], [Task(Ask(1, service), 1)], HEAD, [0, 1], 2, o),
       Two(g.n, R.Pending, service, R.Draining, [], [], HEAD + frame, [0, 1], 2, o[1 := Returned(d)]),
       Two(g.n, R.Answered(r), service, R.Draining, [], [], rest, [0, 1], 2, o[1 := Returned(d)])],
      SecondHalf(service, d));
  }

  lemma RequestsCanBeSent(k: nat, form: Form<Data>, utf8: Form<string>, service: string)
    requires k > 0 && ShortText(utf8, service)
    ensures var c := BuildParts(k, DataCodec(form), utf8);
      MessageEncode(c, Service(Ask(0, service))).ok && MessageEncode(c, Service(Ask(1, service))).ok
  {
    ManyIds(k);
    BuiltPartsEncode(k, DataCodec(form), utf8, Service(Ask(0, service)));
    BuiltPartsEncode(k, DataCodec(form), utf8, Service(Ask(1, service)));
  }

  lemma NodeCanAsk(k: nat, form: Form<Data>, utf8: Form<string>, repr: string -> string, service: string)
    requires k > 0 && Faithful(form) && Faithful(utf8) && utf8.load([]) == Loaded("") && ShortText(utf8, service)
    ensures var g := NodeSetting(k, form, utf8, repr);
      && g.n > 1 && LawfulParts(g.c) && g.c == BuildParts(k, DataCodec(form), utf8)
      && MessageEncode(g.c, Service(Ask(0, service))).ok && MessageEncode(g.c, Service(Ask(1, service))).ok
  {
    NodeSettingIsLawful(k, form, utf8, repr);
    ManyIds(k);
    RequestsCanBeSent(k, form, utf8, service);
  }

  lemma NulIsNotLong(form: Form<Data>, utf8: Form<string>, long: string, nul: string)
    requires long != "" && !EncodableResponse(form, utf8, ServiceResponse(0, Null, Some(long)))
    requires utf8.dump(nul) == Some([SUCCESS_STATUS])
    ensures ServiceResponse(0, Null, Some(nul)) != Normal(ServiceResponse(0, Null, Some(long)))
  {
  }

  lemma BytesOfBoth(form: Form<Data>, utf8: Form<string>, long: string, nul: string, d: Data)
    returns (frame: seq<byte>, rest: seq<byte>)
    requires Faithful(utf8) && utf8.dump(nul) == Some([SUCCESS_STATUS])
    requires long != "" && !EncodableResponse(form, utf8, ServiceResponse(0, Null, Some(long)))
    requires EncodableResponse(form, utf8, ServiceResponse(1, d, None))
    ensures var c := BuildParts(2, DataCodec(form), utf8);
      && ResponseEncode(c, ServiceResponse(0, Null, Some(long))).bytes == HEAD
      && ResponseEncode(c, ServiceResponse(1, d, None)).bytes == frame
      && ResponseDecode(c, HEAD + frame) == Value(ServiceResponse(0, Null, Some(nul)), rest)
  {
    HeadIsWritten(form, utf8, long);
    NextHeadIsWritten(form, utf8, d);
    frame := ResponseEncode(BuildParts(2, DataCodec(form), utf8), ServiceResponse(1, d, None)).bytes;
    rest := frame[|NEXT_HEAD|..];
    assert frame == NEXT_HEAD + rest;
    assert utf8.load([SUCCESS_STATUS]) == Loaded(nul);
    HeadSwallowsNext(form, utf8, nul, rest);
  }

  /** The call made the request and its future is resolved with the response. */
  predicate Got(w: State, call: nat, request: ServiceRequest, r: ServiceResponse) {
    && call in w.calls && w.calls[call].request == request
    && call in w.client.futures && w.client.futures[call] == R.Answered(r)
  }

  /** The run, by what its bytes have to be. */
  lemma TheRunGets(g: Setting, service: string, long: string, nul: string, d: Data, frame: seq<byte>, rest: seq<byte>)
    requires g.n > 1 && LawfulParts(g.c)
    requires MessageEncode(g.c, Service(Ask(0, service))).ok && MessageEncode(g.c, Service(Ask(1, service))).ok
    requires ResponseEncode(g.c, ServiceResponse(0, Null, Some(long))).bytes == HEAD
    requires ResponseEncode(g.c, ServiceResponse(1, d, None)).bytes == frame
    requires ResponseDecode(g.c, HEAD + frame) == Value(ServiceResponse(0, Null, Some(nul)), rest)
    ensures Initial(g, FRESH)
    ensures var run := Reach(g, FRESH, TheRun(service, long, d));
      run.Some? && Got(run.value, 0, Ask(0, service), ServiceResponse(0, Null, Some(nul)))
  {
    FirstHalfGoes(g, service, long);
    SecondHalfGoes(g, service, map[0 := Failed(long)], d, frame, ServiceResponse(0, Null, Some(nul)), rest);
    RunAppend((t: State, step: Step) => Next(g, t, step), FRESH, FirstHalf(service, long), SecondHalf(service, d));
  }

  lemma ForeignAnswerIn(g: Setting, form: Form<Data>, utf8: Form<string>, repr: string -> string, service: string,
                        long: string, nul: string, d: Data)
    requires g == NodeSetting(2, form, utf8, repr)
    requires Faithful(form) && Faithful(utf8) && utf8.load([]) == Loaded("") && ShortText(utf8, service)
    requires long != "" && !EncodableResponse(form, utf8, ServiceResponse(0, Null, Some(long)))
    requires EncodableResponse(form, utf8, ServiceResponse(1, d, None))
    requires utf8.dump(nul) == Some([SUCCESS_STATUS])
    ensures Initial(g, FRESH)
    ensures var run := Reach(g, FRESH, TheRun(service, long, d));
      run.Some? && Got(run.value, 0, Ask(0, service), ServiceResponse(0, Null, Some(nul)))
  {
    NodeCanAsk(2, form, utf8, repr, service);
    var frame, rest := BytesOfBoth(form, utf8, long, nul, d);
    TheRunGets(g, service, long, nul, d, frame, rest);
  }

  /** Two calls of one service. The first raises an exception whose `repr` cannot be sent; the second returns
      an ordinary result. Then the first call gets an error cut out of the response to the second: the text
      that the status byte of that response spells, which is not the answer to its request. */
  lemma CallGetsForeignAnswer(form: Form<Data>, utf8: Form<string>, repr: string -> string, service: string,
                              long: string, nul: string, d: Data)
    requires Faithful(form) && Faithful(utf8) && utf8.load([]) == Loaded("") && ShortText(utf8, service)
    requires long != "" && !EncodableResponse(form, utf8, ServiceResponse(0, Null, Some(long)))
    requires EncodableResponse(form, utf8, ServiceResponse(1, d, None))
    requires utf8.dump(nul) == Some([SUCCESS_STATUS])
    ensures Initial(NodeSetting(2, form, utf8, repr), FRESH)
    ensures var run := Reach(NodeSetting(2, form, utf8, repr), FRESH, TheRun(service, long, d));
      run.Some? && Got(run.value, 0, Ask(0, service), ServiceResponse(0, Null, Some(nul)))
    ensures ServiceResponse(0, Null, Some(nul)) != Normal(Answer(Ask(0, service), Failed(long), repr))
  {
    ForeignAnswerIn(NodeSetting(2, form, utf8, repr), form, utf8, repr, service, long, nul, d);
    NulIsNotLong(form, utf8, long, nul);
  }
}
