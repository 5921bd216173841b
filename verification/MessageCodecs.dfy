/** src/rosy/node/codec.py, topic/codec.py, service/codec.py, service/requesthandler.py and the
    codec set that builder.py puts together. */
module MessageCodecs {
  import opened Streams
  import opened IntCodecs
  import opened CompositeCodecs

  /** Any Python object; only its identity as a value matters here. */
  datatype Data = Null | Object(handle: int)

  datatype TopicMessage = TopicMessage(topic: string, args: seq<Data>, kwargs: Dict<string, Data>)
  datatype ServiceRequest = ServiceRequest(id: int, service: string, args: seq<Data>, kwargs: Dict<string, Data>)
  datatype ServiceResponse = ServiceResponse(id: int, result: Data, error: Option<string>)
  datatype Message = Topic(message: TopicMessage) | Service(request: ServiceRequest)

  const TOPIC_PREFIX: byte := 0x74
  const SERVICE_PREFIX: byte := 0x73
  const SUCCESS_STATUS: byte := 0x00
  const ERROR_STATUS: byte := 0xee

  datatype Parts = Parts(
    id: Codec<int>,
    text: Codec<string>,
    args: Codec<seq<Data>>,
    kwargs: Codec<Dict<string, Data>>,
    data: Codec<Data>,
    error: Codec<string>)

  ghost predicate LawfulParts(c: Parts) {
    && Lawful(c.id) && Lawful(c.text) && Lawful(c.args)
    && Lawful(c.kwargs) && Lawful(c.data) && Lawful(c.error)
  }

  // ---------- Topic messages and requests ----------

  function TopicEncode(c: Parts, m: TopicMessage): Written {
    c.text.encode(m.topic).Then(c.args.encode(m.args)).Then(c.kwargs.encode(m.kwargs))
  }

  function TopicDecode(c: Parts, s: seq<byte>): Parsed<TopicMessage> {
    var (topic, s1) :- c.text.decode(s);
    var (args, s2) :- c.args.decode(s1);
    var (kwargs, s3) :- c.kwargs.decode(s2);
    Value(TopicMessage(topic, args, kwargs), s3)
  }

  function TopicCodec(c: Parts): Codec<TopicMessage> {
    Codec(m => TopicEncode(c, m), s => TopicDecode(c, s))
  }

  function RequestEncode(c: Parts, r: ServiceRequest): Written {
    c.id.encode(r.id).Then(c.text.encode(r.service)).Then(c.args.encode(r.args)).Then(c.kwargs.encode(r.kwargs))
  }

  function RequestDecode(c: Parts, s: seq<byte>): Parsed<ServiceRequest> {
    var (id, s1) :- c.id.decode(s);
    var (service, s2) :- c.text.decode(s1);
    var (args, s3) :- c.args.decode(s2);
    var (kwargs, s4) :- c.kwargs.decode(s3);
    Value(ServiceRequest(id, service, args, kwargs), s4)
  }

  function RequestCodec(c: Parts): Codec<ServiceRequest> {
    Codec(r => RequestEncode(c, r), s => RequestDecode(c, s))
  }

  /** Both kinds go through a private buffer, so a message that cannot be encoded leaves no bytes. */
  function MessageEncode(c: Parts, m: Message): Written {
    var body := if m.Topic? then TopicEncode(c, m.message) else RequestEncode(c, m.request);
    var prefix := if m.Topic? then TOPIC_PREFIX else SERVICE_PREFIX;
    if body.ok then Written([prefix] + body.bytes, true) else Written([], false)
  }

  function MessageDecode(c: Parts, s: seq<byte>): Parsed<Message> {
    var (prefix, rest) :- Read(1, s);
    if prefix[0] == TOPIC_PREFIX then
      var (m, rest') :- TopicDecode(c, rest);
      Value(Topic(m), rest')
    else if prefix[0] == SERVICE_PREFIX then
      var (r, rest') :- RequestDecode(c, rest);
      Value(Service(r), rest')
    else
      Invalid
  }

  function MessageCodec(c: Parts): Codec<Message> {
    Codec(m => MessageEncode(c, m), s => MessageDecode(c, s))
  }

  // ---------- Responses ----------

  /** Python's truth value of `response.error`. */
  predicate HasError(r: ServiceResponse) {
    r.error.Some? && r.error.value != ""
  }

  function ResponseEncode(c: Parts, r: ServiceResponse): Written {
    c.id.encode(r.id).Then(
      if HasError(r) then Written([ERROR_STATUS], true).Then(c.error.encode(r.error.value))
      else Written([SUCCESS_STATUS], true).Then(c.data.encode(r.result)))
  }

  function ResponseDecode(c: Parts, s: seq<byte>): Parsed<ServiceResponse> {
    var (id, s1) :- c.id.decode(s);
    ResponseBodyDecode(c, id, s1)
  }

  function ResponseBodyDecode(c: Parts, id: int, s: seq<byte>): Parsed<ServiceResponse> {
    var (status, s1) :- Read(1, s);
    if status[0] == SUCCESS_STATUS then
      var (data, s2) :- c.data.decode(s1);
      Value(ServiceResponse(id, data, None), s2)
    else if status[0] == ERROR_STATUS then
      var (error, s2) :- c.error.decode(s1);
      Value(ServiceResponse(id, Null, Some(error)), s2)
    else
      Invalid
  }

  function ResponseReader(c: Parts): seq<byte> -> Parsed<ServiceResponse> {
    s => ResponseDecode(c, s)
  }

  /** What of a response survives the wire. */
  function Normal(r: ServiceResponse): ServiceResponse {
    if HasError(r) then r.(result := Null) else r.(error := None)
  }

  /** What became of running the callback of a service. */
  datatype Outcome = NotProvided | Returned(result: Data) | Failed(repr: string)

  function Answer(r: ServiceRequest, outcome: Outcome, repr: string -> string): ServiceResponse {
    match outcome
    case NotProvided =>
      ServiceResponse(r.id, Null, Some("service=" + repr(r.service) + " is not provided by this node"))
    case Returned(result) => ServiceResponse(r.id, result, None)
    case Failed(error) => ServiceResponse(r.id, Null, Some(error))
  }

  /** How a call ends: it returns a result, or it raises an error with a text. */
  datatype CallEnd = Result(result: Data) | Error(text: string)

  /** The end of `call`, with the response it has waited for. */
  function EndOfCall(r: ServiceResponse): CallEnd {
    if HasError(r) then Error(r.error.value) else Result(r.result)
  }

  // ---------- Laws ----------

  lemma TopicStreamsAt(c: Parts, s: seq<byte>, t: seq<byte>)
    requires LawfulParts(c)
    ensures StreamsAt(TopicCodec(c).decode, s, t)
  {
    assert StreamsAt(c.text.decode, s, t);
    if c.text.decode(s).Value? {
      var s1 := c.text.decode(s).rest;
      assert StreamsAt(c.args.decode, s1, t);
      if c.args.decode(s1).Value? {
        assert StreamsAt(c.kwargs.decode, c.args.decode(s1).rest, t);
      }
    }
  }

  lemma TopicRoundTripsAt(c: Parts, m: TopicMessage, rest: seq<byte>)
    requires LawfulParts(c)
    ensures RoundTripsAt(TopicCodec(c), m, rest)
  {
    var a, b, d := c.text.encode(m.topic), c.args.encode(m.args), c.kwargs.encode(m.kwargs);
    assert a.bytes + b.bytes + d.bytes + rest == a.bytes + (b.bytes + (d.bytes + rest));
    assert RoundTripsAt(c.text, m.topic, b.bytes + (d.bytes + rest));
    assert RoundTripsAt(c.args, m.args, d.bytes + rest);
    assert RoundTripsAt(c.kwargs, m.kwargs, rest);
  }

  lemma RequestStreamsAt(c: Parts, s: seq<byte>, t: seq<byte>)
    requires LawfulParts(c)
    ensures StreamsAt(RequestCodec(c).decode, s, t)
  {
    assert StreamsAt(c.id.decode, s, t);
    if c.id.decode(s).Value? {
      TopicStreamsAt(c, c.id.decode(s).rest, t);
    }
  }

  lemma RequestRoundTripsAt(c: Parts, r: ServiceRequest, rest: seq<byte>)
    requires LawfulParts(c)
    ensures RoundTripsAt(RequestCodec(c), r, rest)
  {
    var m := TopicMessage(r.service, r.args, r.kwargs);
    var head, tail := c.id.encode(r.id), TopicEncode(c, m);
    if RequestEncode(c, r).ok {
      assert RequestEncode(c, r).bytes + rest == head.bytes + (tail.bytes + rest);
      assert RoundTripsAt(c.id, r.id, tail.bytes + rest);
      TopicRoundTripsAt(c, m, rest);
    }
  }

  lemma MessageStreamsAt(c: Parts, s: seq<byte>, t: seq<byte>)
    requires LawfulParts(c)
    ensures StreamsAt(MessageCodec(c).decode, s, t)
    ensures AdvancesAt(MessageCodec(c).decode, s)
  {
    ReadStreams(1, s, t);
    if |s| >= 1 {
      TopicStreamsAt(c, s[1..], t);
      RequestStreamsAt(c, s[1..], t);
    }
  }

  /** Behind its prefix either kind of body is decoded as it is alone. */
  lemma MessageDecodeOf(c: Parts, prefix: byte, body: seq<byte>)
    requires prefix == TOPIC_PREFIX || prefix == SERVICE_PREFIX
    ensures prefix == TOPIC_PREFIX && TopicDecode(c, body).Value? ==>
      MessageDecode(c, [prefix] + body) == Value(Topic(TopicDecode(c, body).value), TopicDecode(c, body).rest)
    ensures prefix == SERVICE_PREFIX && RequestDecode(c, body).Value? ==>
      MessageDecode(c, [prefix] + body) == Value(Service(RequestDecode(c, body).value), RequestDecode(c, body).rest)
  {
    ReadBack([prefix], body);
  }

  lemma MessageRoundTripsAt(c: Parts, m: Message, rest: seq<byte>)
    requires LawfulParts(c)
    ensures RoundTripsAt(MessageCodec(c), m, rest)
  {
    if m.Topic? {
      var body := TopicEncode(c, m.message);
      assert [TOPIC_PREFIX] + body.bytes + rest == [TOPIC_PREFIX] + (body.bytes + rest);
      TopicRoundTripsAt(c, m.message, rest);
      MessageDecodeOf(c, TOPIC_PREFIX, body.bytes + rest);
    } else {
      var body := RequestEncode(c, m.request);
      assert [SERVICE_PREFIX] + body.bytes + rest == [SERVICE_PREFIX] + (body.bytes + rest);
      RequestRoundTripsAt(c, m.request, rest);
      MessageDecodeOf(c, SERVICE_PREFIX, body.bytes + rest);
    }
  }

  lemma MessageLawful(c: Parts)
    requires LawfulParts(c)
    ensures Lawful(MessageCodec(c))
    ensures Advancing(MessageCodec(c).decode)
  {
    forall s, t ensures StreamsAt(MessageCodec(c).decode, s, t) {
      MessageStreamsAt(c, s, t);
    }
    forall m, rest ensures RoundTripsAt(MessageCodec(c), m, rest) {
      MessageRoundTripsAt(c, m, rest);
    }
    forall s ensures AdvancesAt(MessageCodec(c).decode, s) {
      MessageStreamsAt(c, s, []);
    }
  }

  lemma ResponseBodyStreamsAt(c: Parts, id: int, s: seq<byte>, t: seq<byte>)
    requires LawfulParts(c)
    ensures Settled(ResponseBodyDecode(c, id, s), t, ResponseBodyDecode(c, id, s + t))
    ensures var p := ResponseBodyDecode(c, id, s); p.Value? ==> IsSuffix(p.rest, s) && |p.rest| < |s|
  {
    ReadStreams(1, s, t);
    if |s| >= 1 {
      assert StreamsAt(c.data.decode, s[1..], t);
      assert StreamsAt(c.error.decode, s[1..], t);
    }
  }

  lemma ResponseStreamsAt(c: Parts, s: seq<byte>, t: seq<byte>)
    requires LawfulParts(c)
    ensures StreamsAt(ResponseReader(c), s, t)
    ensures ResponseDecode(c, s).Value? ==> |ResponseDecode(c, s).rest| < |s|
  {
    assert StreamsAt(c.id.decode, s, t);
    if c.id.decode(s).Value? {
      ResponseBodyStreamsAt(c, c.id.decode(s).value, c.id.decode(s).rest, t);
    }
  }

  lemma ResponseStreams(c: Parts)
    requires LawfulParts(c)
    ensures Streaming(ResponseReader(c)) && Advancing(ResponseReader(c))
  {
    forall s, t ensures StreamsAt(ResponseReader(c), s, t) {
      ResponseStreamsAt(c, s, t);
    }
    forall s ensures AdvancesAt(ResponseReader(c), s) {
      ResponseStreamsAt(c, s, []);
    }
  }

  /** A non-empty error discards the result, an empty error becomes none, and nothing else is lost. */
  lemma ResponseNormalises(c: Parts, r: ServiceResponse, rest: seq<byte>)
    requires LawfulParts(c) && ResponseEncode(c, r).ok
    ensures ResponseDecode(c, ResponseEncode(c, r).bytes + rest) == Value(Normal(r), rest)
    ensures Normal(Normal(r)) == Normal(r)
  {
    var head := c.id.encode(r.id).bytes;
    var status := [if HasError(r) then ERROR_STATUS else SUCCESS_STATUS];
    var body := if HasError(r) then c.error.encode(r.error.value).bytes else c.data.encode(r.result).bytes;
    assert ResponseEncode(c, r).bytes + rest == head + (status + (body + rest));
    assert RoundTripsAt(c.id, r.id, status + (body + rest));
    ReadBack(status, body + rest);
    if HasError(r) {
      assert RoundTripsAt(c.error, r.error.value, rest);
    } else {
      assert RoundTripsAt(c.data, r.result, rest);
    }
  }

  /** The caller receives what the request handler answered and ends as the service did: it returns the
      service's result, and raises the text of what the service raised, or that nobody provides it; except
      that an exception whose repr is the empty string arrives as a success with result None. */
  lemma AnswerArrives(c: Parts, r: ServiceRequest, outcome: Outcome, repr: string -> string, rest: seq<byte>)
    requires LawfulParts(c) && ResponseEncode(c, Answer(r, outcome, repr)).ok
    ensures var answer := Answer(r, outcome, repr);
      var got := ResponseDecode(c, ResponseEncode(c, answer).bytes + rest);
      && got.Value? && got.rest == rest && got.value.id == r.id
      && (got.value == answer <==> outcome != Failed(""))
      && (HasError(got.value) <==> !outcome.Returned? && outcome != Failed(""))
      && (outcome.Returned? ==> EndOfCall(got.value) == Result(outcome.result))
      && (outcome.NotProvided? ==>
            EndOfCall(got.value) == Error("service=" + repr(r.service) + " is not provided by this node"))
      && (outcome.Failed? && outcome.repr != "" ==> EndOfCall(got.value) == Error(outcome.repr))
      && (outcome == Failed("") ==> EndOfCall(got.value) == Result(Null))
  {
    ResponseNormalises(c, Answer(r, outcome, repr), rest);
  }

  // ---------- The codec set of a node ----------

  function BuildParts(requestIdBytes: nat, data: Codec<Data>, utf8: Form<string>): Parts {
    var shortText := String(FixedInt(1), utf8);
    Parts(
      FixedInt(requestIdBytes),
      shortText,
      Sequence(FixedInt(1), data),
      Dictionary(FixedInt(1), shortText, data),
      data,
      String(FixedInt(2), utf8))
  }

  /** Every codec a node is built with is lawful, given only a lawful data codec and text encoding. */
  lemma BuiltPartsAreLawful(requestIdBytes: nat, data: Codec<Data>, utf8: Form<string>)
    requires Lawful(data) && Faithful(utf8) && utf8.load([]) == Loaded("")
    ensures LawfulParts(BuildParts(requestIdBytes, data, utf8))
  {
    FixedLawful(requestIdBytes, Little, false);
    FixedLawful(1, Little, false);
    FixedLawful(2, Little, false);
    StringLawful(FixedInt(1), utf8);
    StringLawful(FixedInt(2), utf8);
    SequenceLawful(FixedInt(1), data);
    DictionaryLawful(FixedInt(1), String(FixedInt(1), utf8), data);
  }

  predicate ShortText(utf8: Form<string>, x: string) {
    utf8.dump(x).Some? && |utf8.dump(x).value| < 0x100
  }

  ghost predicate EncodableCall(data: Codec<Data>, utf8: Form<string>, name: string, args: seq<Data>,
                                kwargs: Dict<string, Data>) {
    && ShortText(utf8, name)
    && |args| < 0x100
    && (forall i :: 0 <= i < |args| ==> data.encode(args[i]).ok)
    && |kwargs| < 0x100
    && (forall i :: 0 <= i < |kwargs| ==> ShortText(utf8, kwargs[i].0) && data.encode(kwargs[i].1).ok)
  }

  lemma BuiltPartsEncodeCall(k: nat, data: Codec<Data>, utf8: Form<string>, m: TopicMessage)
    ensures TopicEncode(BuildParts(k, data, utf8), m).ok <==> EncodableCall(data, utf8, m.topic, m.args, m.kwargs)
  {
    var header, text := FixedInt(1), String(FixedInt(1), utf8);
    forall n: nat ensures header.encode(n).ok <==> n < 0x100 {
      assert Pow256(1) == 0x100;
    }
    forall x ensures text.encode(x).ok <==> ShortText(utf8, x) {
    }
    SequenceEncodable(header, data, m.args);
    DictionaryEncodable(header, text, data, m.kwargs);
  }

  /** Exactly the messages within the one-byte headers can be sent; a request's ID must also be below
      the number of IDs the caller draws from. */
  lemma BuiltPartsEncode(k: nat, data: Codec<Data>, utf8: Form<string>, m: Message)
    ensures MessageEncode(BuildParts(k, data, utf8), m).ok <==>
      match m
      case Topic(t) => EncodableCall(data, utf8, t.topic, t.args, t.kwargs)
      case Service(r) => 0 <= r.id < Pow2(8 * k) && EncodableCall(data, utf8, r.service, r.args, r.kwargs)
  {
    if m.Topic? {
      BuiltPartsEncodeCall(k, data, utf8, m.message);
    } else {
      BuiltPartsEncodeCall(k, data, utf8, TopicMessage(m.request.service, m.request.args, m.request.kwargs));
      FixedUnsignedAccepts(k, Little, m.request.id);
    }
  }

  /** A node's data codec: pickle, JSON or msgpack behind a four-byte length. */
  function DataCodec(form: Form<Data>): Codec<Data> {
    Blob(FixedInt(4), form)
  }

  /** What there is to send of a response fits its length prefix. */
  predicate EncodableResponse(form: Form<Data>, utf8: Form<string>, r: ServiceResponse) {
    if HasError(r) then utf8.dump(r.error.value).Some? && |utf8.dump(r.error.value).value| < 0x1_0000
    else form.dump(r.result).Some? && |form.dump(r.result).value| < 0x1_0000_0000
  }

  lemma PowersOf256()
    ensures Pow256(1) == 0x100 && Pow256(2) == 0x1_0000 && Pow256(4) == 0x1_0000_0000
  {
    assert Pow256(4) == 0x100 * Pow256(3) && Pow256(3) == 0x100 * Pow256(2);
  }

  lemma ResponseEncodable(k: nat, form: Form<Data>, utf8: Form<string>, r: ServiceResponse)
    requires 0 <= r.id < Pow2(8 * k)
    ensures var out := ResponseEncode(BuildParts(k, DataCodec(form), utf8), r);
      var status := if HasError(r) then ERROR_STATUS else SUCCESS_STATUS;
      && (out.ok <==> EncodableResponse(form, utf8, r))
      && (!out.ok ==> out.bytes == FixedInt(k).encode(r.id).bytes + [status])
  {
    FixedUnsignedAccepts(k, Little, r.id);
    PowersOf256();
    var parts := BuildParts(k, DataCodec(form), utf8);
    if HasError(r) {
      assert !parts.error.encode(r.error.value).ok ==> parts.error.encode(r.error.value).bytes == [];
    } else {
      assert !parts.data.encode(r.result).ok ==> parts.data.encode(r.result).bytes == [];
    }
    assert forall b: byte :: [b] + [] == [b];
  }

  /** Handling a request puts a whole frame on the connection exactly if the result can be dumped and
      fits four length bytes, or the error is text that fits two. Otherwise the ID and the status stay
      there alone, and the caller takes the bytes of the next response for what is missing. */
  lemma ResponseIsWholeExactly(k: nat, form: Form<Data>, utf8: Form<string>, r: ServiceResponse)
    requires Faithful(form) && Faithful(utf8) && utf8.load([]) == Loaded("")
    requires 0 <= r.id < Pow2(8 * k)
    ensures var c := BuildParts(k, DataCodec(form), utf8);
      (exists x :: Frames(ResponseReader(c), ResponseEncode(c, r).bytes, x)) <==> EncodableResponse(form, utf8, r)
  {
    var data := DataCodec(form);
    var c := BuildParts(k, data, utf8);
    FixedLawful(4, Little, false);
    BlobLawful(FixedInt(4), form);
    BuiltPartsAreLawful(k, data, utf8);
    ResponseEncodable(k, form, utf8, r);
    var bytes := ResponseEncode(c, r).bytes;
    if EncodableResponse(form, utf8, r) {
      forall rest ensures FramesBefore(ResponseReader(c), bytes, Normal(r), rest) {
        ResponseNormalises(c, r, rest);
      }
      assert Frames(ResponseReader(c), bytes, Normal(r));
    } else {
      HeadAloneIsNoResponse(k, form, utf8, r.id, if HasError(r) then ERROR_STATUS else SUCCESS_STATUS);
      forall x ensures !Frames(ResponseReader(c), bytes, x) {
        assert bytes + [] == bytes;
        assert !FramesBefore(ResponseReader(c), bytes, x, []);
      }
    }
  }

  lemma HeadAloneIsNoResponse(k: nat, form: Form<Data>, utf8: Form<string>, id: int, status: byte)
    requires 0 <= id < Pow2(8 * k) && (status == ERROR_STATUS || status == SUCCESS_STATUS)
    ensures ResponseDecode(BuildParts(k, DataCodec(form), utf8), FixedInt(k).encode(id).bytes + [status]) == Eof
  {
    FixedUnsignedAccepts(k, Little, id);
    FixedLawful(k, Little, false);
    assert RoundTripsAt(FixedInt(k), id, [status]);
    ReadBack([status], []);
    assert [status] + [] == [status];
  }

  // ---------- The codecs as they act on writers and readers ----------

  method EncodeTopicMessage(c: Parts, m: TopicMessage) returns (buffer: Option<seq<byte>>)
    ensures buffer == if MessageEncode(c, Topic(m)).ok then Some(MessageEncode(c, Topic(m)).bytes) else None
  {
    var w := new BufferWriter();
    w.Write([TOPIC_PREFIX]);
    var ok := w.Encode(c.text, m.topic);
    if ok {
      ok := w.Encode(c.args, m.args);
    }
    if ok {
      ok := w.Encode(c.kwargs, m.kwargs);
    }
    if !ok {
      return None;
    }
    assert w.data == [TOPIC_PREFIX] + TopicEncode(c, m).bytes;
    return Some(w.data);
  }

  method EncodeServiceRequest(c: Parts, r: ServiceRequest) returns (buffer: Option<seq<byte>>)
    ensures buffer == if MessageEncode(c, Service(r)).ok then Some(MessageEncode(c, Service(r)).bytes) else None
  {
    var w := new BufferWriter();
    w.Write([SERVICE_PREFIX]);
    var ok := w.Encode(c.id, r.id);
    if ok {
      ok := w.Encode(c.text, r.service);
    }
    if ok {
      ok := w.Encode(c.args, r.args);
    }
    if ok {
      ok := w.Encode(c.kwargs, r.kwargs);
    }
    if !ok {
      return None;
    }
    assert w.data == [SERVICE_PREFIX] + RequestEncode(c, r).bytes;
    return Some(w.data);
  }

  method DecodeTopicMessage(r: BufferReader, c: Parts) returns (out: Parsed<TopicMessage>)
    requires r.Valid() && LawfulParts(c)
    modifies r
    ensures r.Valid()
    ensures out == TopicDecode(c, old(r.Remaining()))
    ensures out.Value? ==> r.Remaining() == out.rest
  {
    var topic := r.Decode(c.text);
    if topic.IsFailure() {
      return topic.PropagateFailure();
    }
    var args := r.Decode(c.args);
    if args.IsFailure() {
      return args.PropagateFailure();
    }
    var kwargs := r.Decode(c.kwargs);
    if kwargs.IsFailure() {
      return kwargs.PropagateFailure();
    }
    return Value(TopicMessage(topic.value, args.value, kwargs.value), r.Remaining());
  }

  method DecodeServiceRequest(r: BufferReader, c: Parts) returns (out: Parsed<ServiceRequest>)
    requires r.Valid() && LawfulParts(c)
    modifies r
    ensures r.Valid()
    ensures out == RequestDecode(c, old(r.Remaining()))
    ensures out.Value? ==> r.Remaining() == out.rest
  {
    var id := r.Decode(c.id);
    if id.IsFailure() {
      return id.PropagateFailure();
    }
    var service := r.Decode(c.text);
    if service.IsFailure() {
      return service.PropagateFailure();
    }
    var args := r.Decode(c.args);
    if args.IsFailure() {
      return args.PropagateFailure();
    }
    var kwargs := r.Decode(c.kwargs);
    if kwargs.IsFailure() {
      return kwargs.PropagateFailure();
    }
    return Value(ServiceRequest(id.value, service.value, args.value, kwargs.value), r.Remaining());
  }

  method DecodeMessage(r: BufferReader, c: Parts) returns (out: Parsed<Message>)
    requires r.Valid() && LawfulParts(c)
    modifies r
    ensures r.Valid()
    ensures out == MessageDecode(c, old(r.Remaining()))
    ensures old(r.Remaining()) != [] && old(r.Remaining())[0] !in {0x74, 0x73} ==> out.Invalid?
    ensures out.Value? ==> r.Remaining() == out.rest
  {
    var prefix := r.ReadExactly(1);
    if prefix.IsFailure() {
      return prefix.PropagateFailure();
    }
    if prefix.value[0] == TOPIC_PREFIX {
      var m := DecodeTopicMessage(r, c);
      return if m.Value? then Value(Topic(m.value), m.rest) else m.PropagateFailure();
    } else if prefix.value[0] == SERVICE_PREFIX {
      var q := DecodeServiceRequest(r, c);
      return if q.Value? then Value(Service(q.value), q.rest) else q.PropagateFailure();
    }
    return Invalid;
  }

  /** Responses go to the connection piece by piece, so a failing piece leaves the earlier ones there. */
  method EncodeServiceResponse(w: LockableWriter, c: Parts, r: ServiceResponse) returns (ok: bool)
    requires w.locked
    modifies w
    ensures w.locked && ok == ResponseEncode(c, r).ok
    ensures w.sent == old(w.sent) + ResponseEncode(c, r).bytes
  {
    ok := w.Encode(c.id, r.id);
    if !ok {
      return;
    }
    ghost var head := c.id.encode(r.id).bytes;
    if r.error.Some? && r.error.value != "" {
      var written := w.Write([ERROR_STATUS]);
      ok := w.Encode(c.error, r.error.value);
      assert w.sent == old(w.sent) + (head + ([ERROR_STATUS] + c.error.encode(r.error.value).bytes));
    } else {
      var written := w.Write([SUCCESS_STATUS]);
      ok := w.Encode(c.data, r.result);
      assert w.sent == old(w.sent) + (head + ([SUCCESS_STATUS] + c.data.encode(r.result).bytes));
    }
  }

  method DecodeServiceResponse(r: BufferReader, c: Parts) returns (out: Parsed<ServiceResponse>)
    requires r.Valid() && LawfulParts(c)
    modifies r
    ensures r.Valid()
    ensures out == ResponseDecode(c, old(r.Remaining()))
    ensures var id := c.id.decode(old(r.Remaining()));
      id.Value? && id.rest != [] && id.rest[0] !in {0x00, 0xee} ==> out.Invalid?
    ensures out.Value? ==> r.Remaining() == out.rest
  {
    var id := r.Decode(c.id);
    if id.IsFailure() {
      return id.PropagateFailure();
    }
    var status := r.ReadExactly(1);
    if status.IsFailure() {
      return status.PropagateFailure();
    }
    var data, error := Null, None;
    if status.value[0] == SUCCESS_STATUS {
      var d := r.Decode(c.data);
      if d.IsFailure() {
        return d.PropagateFailure();
      }
      data := d.value;
    } else if status.value[0] == ERROR_STATUS {
      var e := r.Decode(c.error);
      if e.IsFailure() {
        return e.PropagateFailure();
      }
      error := Some(e.value);
    } else {
      return Invalid;
    }
    return Value(ServiceResponse(id.value, data, error), r.Remaining());
  }

  /** One request, one response with its ID, written under the lock; the lock is free again whether
      or not the response could be encoded. No outcome means that the callback was cancelled or raised
      what is no `Exception`: then there is no response at all. */
  method HandleRequest(w: LockableWriter, c: Parts, request: ServiceRequest, outcome: Option<Outcome>,
                       repr: string -> string)
    returns (ok: bool)
    requires !w.locked
    modifies w
    ensures !w.locked
    ensures ok == (outcome.Some? && ResponseEncode(c, Answer(request, outcome.value, repr)).ok)
    ensures w.sent == old(w.sent) +
      (if outcome.Some? then ResponseEncode(c, Answer(request, outcome.value, repr)).bytes else [])
  {
    if outcome.None? {
      assert w.sent + [] == w.sent;
      return false;
    }
    var result, error := Null, None;
    match outcome.value {
      case NotProvided => error := Some("service=" + repr(request.service) + " is not provided by this node");
      case Returned(d) => result := d;
      case Failed(e) => error := Some(e);
    }
    var response := ServiceResponse(request.id, result, error);
    w.Acquire();
    ok := EncodeServiceResponse(w, c, response);
    w.Release();
  }
}
