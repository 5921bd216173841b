/** The bytes of a node's messages, written out: the codecs of builder.py on the wire. */
module WireFormat {
  import opened Streams
  import opened IntCodecs
  import opened CompositeCodecs
  import opened MessageCodecs

  /** The k lowest digits of n to the base 256, the lowest first. */
  function LittleEndian(n: nat, k: nat): seq<byte> {
    seq(k, i requires 0 <= i < k => n / Pow256(i) % 256)
  }

  /** What the library makes of a value it can dump. */
  function Dumped<T>(form: Form<T>, x: T): seq<byte> {
    if form.dump(x).Some? then form.dump(x).value else []
  }

  /** Data with its length in front, in k bytes. */
  function Measured(data: seq<byte>, k: nat): seq<byte> {
    LittleEndian(|data|, k) + data
  }

  function Payloads(form: Form<Data>, xs: seq<Data>): seq<byte> {
    if xs == [] then [] else Measured(Dumped(form, xs[0]), 4) + Payloads(form, xs[1..])
  }

  function Entries(form: Form<Data>, utf8: Form<string>, d: seq<(string, Data)>): seq<byte> {
    if d == [] then []
    else Measured(Dumped(utf8, d[0].0), 1) + Measured(Dumped(form, d[0].1), 4) + Entries(form, utf8, d[1..])
  }

  /** Name, positional arguments and keyword arguments: texts behind one byte of length, data behind four, and
      before the arguments of either kind a byte with their number. */
  function CallBytes(form: Form<Data>, utf8: Form<string>, name: string, args: seq<Data>,
                     kwargs: Dict<string, Data>): seq<byte> {
    Measured(Dumped(utf8, name), 1)
      + (LittleEndian(|args|, 1) + Payloads(form, args))
      + (LittleEndian(|kwargs|, 1) + Entries(form, utf8, kwargs))
  }

  lemma FixedIntBytes(n: nat, k: nat)
    requires n < Pow256(k)
    ensures FixedInt(k).encode(n) == Written(LittleEndian(n, k), true)
  {
    forall i | 0 <= i < k ensures ToBytes(n, k, Little, false).value[i] == LittleEndian(n, k)[i] {
      BytesAreDigits(n, k, Little, false, i);
    }
  }

  lemma TextBytes(utf8: Form<string>, k: nat, x: string)
    requires utf8.dump(x).Some? && |utf8.dump(x).value| < Pow256(k)
    ensures String(FixedInt(k), utf8).encode(x) == Written(Measured(Dumped(utf8, x), k), true)
  {
    FixedIntBytes(|utf8.dump(x).value|, k);
  }

  lemma PayloadBytes(form: Form<Data>, x: Data)
    requires DataCodec(form).encode(x).ok
    ensures DataCodec(form).encode(x) == Written(Measured(Dumped(form, x), 4), true)
  {
    FixedIntBytes(|form.dump(x).value|, 4);
  }

  lemma {:induction false} PayloadsBytes(form: Form<Data>, xs: seq<Data>)
    requires forall i :: 0 <= i < |xs| ==> DataCodec(form).encode(xs[i]).ok
    ensures EncodeItems(DataCodec(form), xs) == Written(Payloads(form, xs), true)
  {
    if xs != [] {
      PayloadBytes(form, xs[0]);
      PayloadsBytes(form, xs[1..]);
    }
  }

  lemma {:induction false} EntriesBytes(form: Form<Data>, utf8: Form<string>, d: seq<(string, Data)>)
    requires forall i :: 0 <= i < |d| ==> ShortText(utf8, d[i].0) && DataCodec(form).encode(d[i].1).ok
    ensures EncodeItems(Pair(String(FixedInt(1), utf8), DataCodec(form)), d) == Written(Entries(form, utf8, d), true)
  {
    if d != [] {
      PowersOf256();
      TextBytes(utf8, 1, d[0].0);
      PayloadBytes(form, d[0].1);
      EntriesBytes(form, utf8, d[1..]);
    }
  }

  lemma CallIsItsBytes(k: nat, form: Form<Data>, utf8: Form<string>, m: TopicMessage)
    requires EncodableCall(DataCodec(form), utf8, m.topic, m.args, m.kwargs)
    ensures TopicEncode(BuildParts(k, DataCodec(form), utf8), m)
         == Written(CallBytes(form, utf8, m.topic, m.args, m.kwargs), true)
  {
    PowersOf256();
    TextBytes(utf8, 1, m.topic);
    FixedIntBytes(|m.args|, 1);
    FixedIntBytes(|m.kwargs|, 1);
    PayloadsBytes(form, m.args);
    EntriesBytes(form, utf8, m.kwargs);
  }

  /** A topic message is the letter t, the topic and the arguments. */
  lemma TopicIsItsBytes(k: nat, form: Form<Data>, utf8: Form<string>, m: TopicMessage)
    requires EncodableCall(DataCodec(form), utf8, m.topic, m.args, m.kwargs)
    ensures MessageEncode(BuildParts(k, DataCodec(form), utf8), Topic(m))
         == Written([0x74] + CallBytes(form, utf8, m.topic, m.args, m.kwargs), true)
  {
    CallIsItsBytes(k, form, utf8, m);
  }

  lemma RequestIsIdAndCall(c: Parts, r: ServiceRequest)
    ensures RequestEncode(c, r) ==
      c.id.encode(r.id).Then(TopicEncode(c, TopicMessage(r.service, r.args, r.kwargs)))
  {
    var id, name, args, kwargs :=
      c.id.encode(r.id), c.text.encode(r.service), c.args.encode(r.args), c.kwargs.encode(r.kwargs);
    ThenAssociates(id, name, args);
    ThenAssociates(id, name.Then(args), kwargs);
  }

  /** A request is the letter s, the ID in k bytes, the service and the arguments. */
  lemma RequestIsItsBytes(k: nat, form: Form<Data>, utf8: Form<string>, r: ServiceRequest)
    requires 0 <= r.id < Pow2(8 * k) && EncodableCall(DataCodec(form), utf8, r.service, r.args, r.kwargs)
    ensures MessageEncode(BuildParts(k, DataCodec(form), utf8), Service(r))
         == Written([0x73] + LittleEndian(r.id, k) + CallBytes(form, utf8, r.service, r.args, r.kwargs), true)
  {
    Pow2IsPow256(k);
    FixedIntBytes(r.id, k);
    var m := TopicMessage(r.service, r.args, r.kwargs);
    CallIsItsBytes(k, form, utf8, m);
    var c := BuildParts(k, DataCodec(form), utf8);
    RequestIsIdAndCall(c, r);
    var call := CallBytes(form, utf8, r.service, r.args, r.kwargs);
    assert [0x73] + (LittleEndian(r.id, k) + call) == [0x73] + LittleEndian(r.id, k) + call;
  }

  /** A response is the ID in k bytes and then either a zero byte and the result, or the byte 0xee and the
      error as text behind two bytes of length. */
  lemma ResponseIsItsBytes(k: nat, form: Form<Data>, utf8: Form<string>, r: ServiceResponse)
    requires 0 <= r.id < Pow2(8 * k) && EncodableResponse(form, utf8, r)
    ensures ResponseEncode(BuildParts(k, DataCodec(form), utf8), r)
         == Written(LittleEndian(r.id, k) +
                      (if r.error.Some? && r.error.value != "" then [0xee] + Measured(Dumped(utf8, r.error.value), 2)
                       else [0x00] + Measured(Dumped(form, r.result), 4)), true)
  {
    Pow2IsPow256(k);
    PowersOf256();
    FixedIntBytes(r.id, k);
    if HasError(r) {
      TextBytes(utf8, 2, r.error.value);
    } else {
      PayloadBytes(form, r.result);
    }
  }
}
