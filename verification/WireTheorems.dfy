/** What holds of remote calls over bytes: while the responses written can be encoded every call gets its
    own answer, and what happens when one cannot. */
module WireTheorems {
  import opened Streams
  import opened IntCodecs
  import opened CompositeCodecs
  import opened MessageCodecs
  import opened ClientLoop
  import opened WireCalls
  import opened WireRefinement
  import opened RequestIds
  import R = Rpc

  // ---------- Own answers ----------

  /** Request number k was written by the call, and the call's future has the normal form of the answer to
      that request, for what became of running its service. */
  ghost predicate GotOwnAnswer(g: Setting, w: State, call: nat, k: nat)
    requires call in w.calls && call in w.client.futures
  {
    && k < |w.written| && w.written[k] == call && k in w.outcomes
    && w.client.futures[call] == R.Answered(Normal(Answer(w.calls[call].request, w.outcomes[k], g.repr)))
    && EndsAs(w.client.futures[call].answer, w.calls[call].request, w.outcomes[k], g.repr)
  }

  /** With the response r the call ends as the running of its service has: with the result, with the text of
      what was raised, or with the one that nobody provides the service. */
  predicate EndsAs(r: ServiceResponse, request: ServiceRequest, outcome: Outcome, repr: string -> string) {
    && r.id == request.id
    && match outcome
       case Returned(result) => EndOfCall(r) == Result(result)
       case NotProvided => EndOfCall(r) == Error("service=" + repr(request.service) + " is not provided by this node")
       case Failed(text) => EndOfCall(r) == if text == "" then Result(Null) else Error(text)
  }

  lemma AnswerEndsAs(request: ServiceRequest, outcome: Outcome, repr: string -> string)
    ensures EndsAs(Normal(Answer(request, outcome, repr)), request, outcome, repr)
  {
  }

  lemma AnsweredCallEnds(g: Setting, t: State, call: nat, r: ServiceResponse)
    requires call in t.calls
    ensures forall k :: IsAnswer(g, t, k, call, r) ==> EndsAs(r, t.calls[call].request, t.outcomes[k], g.repr)
  {
    forall k | IsAnswer(g, t, k, call, r) ensures EndsAs(r, t.calls[call].request, t.outcomes[k], g.repr) {
      AnswerEndsAs(t.calls[call].request, t.outcomes[k], g.repr);
    }
  }

  /** In every interleaving in which only responses are written that can be encoded, the future of a call is
      resolved with the answer to the one request the call wrote, whole and in normal form. */
  lemma AnswersAreOwn(g: Setting, sendable: ServiceResponse -> bool, w: State, steps: seq<Step>)
    requires LawfulParts(g.c) && OnlyEncodable(g, sendable) && Initial(g, w) && Reach(g, sendable, w, steps).Some?
    ensures var t := Reach(g, sendable, w, steps).value;
      && (forall j, k :: 0 <= j < k < |t.written| ==> t.written[j] != t.written[k])
      && forall call :: call in t.calls && call in t.client.futures && t.client.futures[call].Answered? ==>
           exists k :: GotOwnAnswer(g, t, call, k)
  {
    var t := Reach(g, sendable, w, steps).value;
    var packets, u, story := RefinesRpc(g, sendable, w, steps);
    forall call | call in t.calls && call in t.client.futures && t.client.futures[call].Answered?
      ensures exists k :: GotOwnAnswer(g, t, call, k)
    {
      assert SameKind(t.client.futures[call], u.client.futures[call]) && Answered(t, u, call);
      assert R.CallOk(g.n, u, call);
      AnsweredCallEnds(g, t, u.client.futures[call].answer, t.client.futures[call].answer);
      var k :| IsAnswer(g, t, k, u.client.futures[call].answer, t.client.futures[call].answer);
      assert GotOwnAnswer(g, t, call, k);
    }
  }

  /** A task works on the very request that the call of its number wrote, and has not been answered. */
  lemma TasksServeTheirCalls(g: Setting, sendable: ServiceResponse -> bool, w: State, steps: seq<Step>)
    requires LawfulParts(g.c) && OnlyEncodable(g, sendable) && Initial(g, w) && Reach(g, sendable, w, steps).Some?
    ensures var t := Reach(g, sendable, w, steps).value;
      forall i :: 0 <= i < |t.tasks| ==>
        && t.tasks[i].number < |t.written| && t.written[t.tasks[i].number] in t.calls
        && t.tasks[i].request == t.calls[t.written[t.tasks[i].number]].request
        && t.tasks[i].number !in t.outcomes
  {
    var t := Reach(g, sendable, w, steps).value;
    var packets, u, story := RefinesRpc(g, sendable, w, steps);
    assert forall i :: 0 <= i < |t.tasks| ==> TaskShown(t, t.tasks[i], u.tasks[i]);
  }

  /** What the response handler decodes is always the answer to a request whose call it knows under the
      response's ID, and it never meets anything else. */
  lemma DeliveriesAreOwn(g: Setting, sendable: ServiceResponse -> bool, w: State, steps: seq<Step>, left: nat)
    requires LawfulParts(g.c) && OnlyEncodable(g, sendable) && Initial(g, w) && Reach(g, sendable, w, steps).Some?
    ensures var t := Reach(g, sendable, w, steps).value;
      && Next(g, t, Choke(left)).None?
      && (StepDeliver(g, t).Some? ==>
            var r := ResponseDecode(g.c, t.responseWire).value;
            && r.id in t.client.table.value && t.client.table.value[r.id] in t.calls
            && t.calls[t.client.table.value[r.id]].request.id == r.id
            && Answers(g, t, t.client.table.value[r.id], r))
  {
    var packets, u, story := RefinesRpc(g, sendable, w, steps);
    NeverChokes(g, Reach(g, sendable, w, steps).value, u, story, left);
    if StepDeliver(g, Reach(g, sendable, w, steps).value).Some? {
      DeliveryIsOwn(g, Reach(g, sendable, w, steps).value, u, story);
    }
  }

  lemma DeliveryIsOwn(g: Setting, t: State, u: R.State, story: Story)
    requires LawfulParts(g.c) && Shows(g, t, u, story) && R.Inv(g.n, u) && StepDeliver(g, t).Some?
    ensures ResponseDecode(g.c, t.responseWire).Value?
    ensures var r := ResponseDecode(g.c, t.responseWire).value;
      && r.id in t.client.table.value && t.client.table.value[r.id] in t.calls
      && t.calls[t.client.table.value[r.id]].request.id == r.id
      && Answers(g, t, t.client.table.value[r.id], r)
  {
    ShownResponsesDecode(g, t, u, story);
    var p := u.responses[0];
    assert R.UnderWay(u, p) && u.client.table.value[p.id] == p.call;
    assert IsAnswer(g, t, story.numbers[0], p.call, Normal(story.answers[0]));
  }

  // ---------- When the handler reads what is no response ----------

  /** The call waits for one of these futures. */
  predicate WaitsFor(w: State, c: nat, futures: set<nat>) {
    && c in w.calls && w.calls[c].phase.Waiting?
    && c in futures && c in w.client.futures && w.client.futures[c].Pending?
  }

  /** Then it ends as at the end of its stream: the reader is out of the table, the futures found there are
      failed unless they are done, and a call waiting for one of them can leave by an exception. */
  lemma ChokeEndsHandler(g: Setting, w: State, left: nat)
    requires Next(g, w, Choke(left)).Some?
    ensures w.client.table.Some? && !ResponseDecode(g.c, w.responseWire).Value?
    ensures var u := Next(g, w, Choke(left)).value; var known := w.client.table.value.Values;
      && u.client.table == None && u.calls == w.calls && u.client.futures.Keys == w.client.futures.Keys
      && (forall f :: f in w.client.futures ==>
            u.client.futures[f] ==
              if f in known && w.client.futures[f].Pending? then R.Failed else w.client.futures[f])
      && forall c :: WaitsFor(w, c, known) ==>
           && Next(g, u, Wake(c)).Some? && c in Next(g, u, Wake(c)).value.calls
           && Next(g, u, Wake(c)).value.calls[c].phase.Raised?
  {
  }

  // ---------- Own requests ----------

  /** Step i began the call, for that service with those arguments. */
  predicate BeganAs(steps: seq<Step>, i: nat, call: nat, request: ServiceRequest) {
    i < |steps| && steps[i] == Begin(call, request.service, request.args, request.kwargs)
  }

  lemma StepKeepsRequests(g: Setting, w: State, step: Step, call: nat)
    requires Next(g, w, step).Some? && call in Next(g, w, step).value.calls
    ensures var request := Next(g, w, step).value.calls[call].request;
      if call in w.calls then request == w.calls[call].request
      else step == Begin(call, request.service, request.args, request.kwargs)
  {
    if step.Begin? && w.client.cursor < g.n {
      var k := R.StartHandler(w.client);
      AllocatorIsExact(k.table.value.Keys, k.cursor, g.n);
    }
  }

  lemma {:induction false} RequestsSinceStart(g: Setting, sendable: ServiceResponse -> bool, w: State,
                                              steps: seq<Step>, call: nat)
    requires Reach(g, sendable, w, steps).Some? && call in Reach(g, sendable, w, steps).value.calls
    ensures var request := Reach(g, sendable, w, steps).value.calls[call].request;
      if call in w.calls then request == w.calls[call].request
      else exists i :: BeganAs(steps, i, call, request)
    decreases |steps|
  {
    if steps != [] {
      var t, request := Next(g, w, steps[0]).value, Reach(g, sendable, w, steps).value.calls[call].request;
      RequestsSinceStart(g, sendable, t, steps[1..], call);
      if call in w.calls {
        CallsStay(g, w, steps[0], call);
      }
      if call in t.calls {
        StepKeepsRequests(g, w, steps[0], call);
        assert call !in w.calls ==> BeganAs(steps, 0, call, request);
      } else {
        var i: nat :| BeganAs(steps[1..], i, call, request);
        assert BeganAs(steps, i + 1, call, request);
      }
    }
  }

  lemma CallsStay(g: Setting, w: State, step: Step, call: nat)
    requires Next(g, w, step).Some? && call in w.calls
    ensures call in Next(g, w, step).value.calls
  {
    if step.Begin? {
      var k := R.StartHandler(w.client);
      AllocatorIsExact(k.table.value.Keys, k.cursor, g.n);
    }
  }

  /** The request of a call is for the service that was asked for, with the arguments that were given. */
  lemma RequestsAreAsMade(g: Setting, sendable: ServiceResponse -> bool, w: State, steps: seq<Step>, call: nat)
    requires Initial(g, w) && Reach(g, sendable, w, steps).Some?
    requires call in Reach(g, sendable, w, steps).value.calls
    ensures exists i :: BeganAs(steps, i, call, Reach(g, sendable, w, steps).value.calls[call].request)
  {
    RequestsSinceStart(g, sendable, w, steps, call);
  }

  // ---------- The codecs of a node ----------

  function NodeSetting(k: nat, form: Form<Data>, utf8: Form<string>, repr: string -> string): Setting {
    Setting(Pow2(8 * k), BuildParts(k, DataCodec(form), utf8), repr)
  }

  lemma NodeSettingIsLawful(k: nat, form: Form<Data>, utf8: Form<string>, repr: string -> string)
    requires Faithful(form) && Faithful(utf8) && utf8.load([]) == Loaded("")
    ensures var g := NodeSetting(k, form, utf8, repr);
      && LawfulParts(g.c) && OnlyEncodable(g, r => EncodableResponse(form, utf8, r))
      && forall id :: g.c.id.encode(id).ok <==> 0 <= id < g.n
  {
    FixedLawful(4, Little, false);
    BlobLawful(FixedInt(4), form);
    BuiltPartsAreLawful(k, DataCodec(form), utf8);
    var g := NodeSetting(k, form, utf8, repr);
    forall id ensures g.c.id.encode(id).ok <==> 0 <= id < g.n {
      FixedUnsignedAccepts(k, Little, id);
    }
    forall r: ServiceResponse | 0 <= r.id < g.n && EncodableResponse(form, utf8, r) ensures ResponseEncode(g.c, r).ok {
      ResponseEncodable(k, form, utf8, r);
    }
  }

  /** So with the codecs of a node calls get their own answers while every result can be dumped and fits four
      length bytes, and every error fits two. */
  lemma NodeAnswersAreOwn(k: nat, form: Form<Data>, utf8: Form<string>, repr: string -> string, w: State,
                          steps: seq<Step>)
    requires Faithful(form) && Faithful(utf8) && utf8.load([]) == Loaded("")
    requires Initial(NodeSetting(k, form, utf8, repr), w)
    requires Reach(NodeSetting(k, form, utf8, repr), r => EncodableResponse(form, utf8, r), w, steps).Some?
    ensures var g := NodeSetting(k, form, utf8, repr);
      var t := Reach(g, r => EncodableResponse(form, utf8, r), w, steps).value;
      forall call :: call in t.calls && call in t.client.futures && t.client.futures[call].Answered? ==>
        exists j :: GotOwnAnswer(g, t, call, j)
  {
    NodeSettingIsLawful(k, form, utf8, repr);
    AnswersAreOwn(NodeSetting(k, form, utf8, repr), r => EncodableResponse(form, utf8, r), w, steps);
  }

  // ---------- When the wire stays whole ----------

  ghost predicate FramesOfWire(c: Parts, wire: seq<byte>, frames: seq<seq<byte>>, rs: seq<ServiceResponse>) {
    AllFrame(ResponseReader(c), frames, rs) && Concat(frames) == wire
  }

  /** The wire carries whole responses and nothing else. */
  ghost predicate WholeWire(c: Parts, wire: seq<byte>) {
    exists frames, rs :: FramesOfWire(c, wire, frames, rs)
  }

  /** A rest that is no frame spoils any number of frames before it. */
  lemma {:induction false} RestSpoils<T>(decode: seq<byte> -> Parsed<T>, frames: seq<seq<byte>>, xs: seq<T>,
                                         rest: seq<byte>, frames': seq<seq<byte>>, xs': seq<T>)
    requires AllFrame(decode, frames, xs) && AllFrame(decode, frames', xs') && rest != [] && decode(rest) == Eof
    ensures Concat(frames') != Concat(frames) + rest
    decreases |frames|
  {
    assert [] + rest == rest;
    if Concat(frames') == Concat(frames) + rest {
      assert frames' != [];
      var tail' := Concat(frames'[1..]);
      assert Frames(decode, frames'[0], xs'[0]) && FramesBefore(decode, frames'[0], xs'[0], tail');
      if frames != [] {
        var tail := Concat(frames[1..]) + rest;
        assert Concat(frames) + rest == frames[0] + tail;
        assert Frames(decode, frames[0], xs[0]) && FramesBefore(decode, frames[0], xs[0], tail);
        RestSpoils(decode, frames[1..], xs[1..], rest, frames'[1..], xs'[1..]);
      }
    }
  }

  lemma FrameKeepsWhole(c: Parts, wire: seq<byte>, frame: seq<byte>, r: ServiceResponse)
    requires WholeWire(c, wire) && Frames(ResponseReader(c), frame, r)
    ensures WholeWire(c, wire + frame)
  {
    var frames, rs :| FramesOfWire(c, wire, frames, rs);
    ConcatAppend(frames, [frame]);
    assert Concat([frame]) == frame;
    forall i | 0 <= i < |rs| + 1 ensures Frames(ResponseReader(c), (frames + [frame])[i], (rs + [r])[i]) {
    }
    assert FramesOfWire(c, wire + frame, frames + [frame], rs + [r]);
  }

  lemma HeadSpoilsWhole(c: Parts, wire: seq<byte>, head: seq<byte>)
    requires WholeWire(c, wire) && head != [] && ResponseDecode(c, head) == Eof
    ensures !WholeWire(c, wire + head)
  {
    var frames, rs :| FramesOfWire(c, wire, frames, rs);
    forall frames', rs' ensures !FramesOfWire(c, wire + head, frames', rs') {
      if AllFrame(ResponseReader(c), frames', rs') {
        RestSpoils(ResponseReader(c), frames, rs, head, frames', rs');
      }
    }
  }

  lemma ResponseKeepsWholeExactly(k: nat, form: Form<Data>, utf8: Form<string>, wire: seq<byte>, r: ServiceResponse)
    requires Faithful(form) && Faithful(utf8) && utf8.load([]) == Loaded("")
    requires 0 <= r.id < Pow2(8 * k) && WholeWire(BuildParts(k, DataCodec(form), utf8), wire)
    ensures var c := BuildParts(k, DataCodec(form), utf8);
      WholeWire(c, wire + ResponseEncode(c, r).bytes) <==> EncodableResponse(form, utf8, r)
  {
    var c := BuildParts(k, DataCodec(form), utf8);
    ResponseEncodable(k, form, utf8, r);
    ResponseIsWholeExactly(k, form, utf8, r);
    if EncodableResponse(form, utf8, r) {
      var x :| Frames(ResponseReader(c), ResponseEncode(c, r).bytes, x);
      FrameKeepsWhole(c, wire, ResponseEncode(c, r).bytes, x);
    } else {
      HeadAloneIsNoResponse(k, form, utf8, r.id, if HasError(r) then ERROR_STATUS else SUCCESS_STATUS);
      HeadSpoilsWhole(c, wire, ResponseEncode(c, r).bytes);
    }
  }

  /** Writing a response to a wire of whole responses leaves it whole exactly if the response can be encoded. */
  lemma RespondKeepsWholeExactly(k: nat, form: Form<Data>, utf8: Form<string>, repr: string -> string, w: State,
                                 i: nat, outcome: Outcome)
    requires Faithful(form) && Faithful(utf8) && utf8.load([]) == Loaded("")
    requires i < |w.tasks| && 0 <= w.tasks[i].request.id < Pow2(8 * k) && w.ends == 0
    requires WholeWire(BuildParts(k, DataCodec(form), utf8), w.responseWire)
    ensures var g := NodeSetting(k, form, utf8, repr);
      WholeWire(g.c, Next(g, w, Respond(i, outcome)).value.responseWire) <==>
        EncodableResponse(form, utf8, Answer(w.tasks[i].request, outcome, repr))
  {
    ResponseKeepsWholeExactly(k, form, utf8, w.responseWire, Answer(w.tasks[i].request, outcome, repr));
  }
}
