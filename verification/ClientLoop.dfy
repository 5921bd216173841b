/** src/rosy/node/clienthandler.py, and what any reader makes of a stream of frames that may be cut
    off anywhere. */
module ClientLoop {
  import opened Streams
  import opened MessageCodecs

  /** How a read loop ends: with an `EOFError`, which it takes for the end of the stream, with another
      exception about what it read, or with one that came out of a callback. */
  datatype Ending = AtEof | AtGarbage | AtCallback

  datatype Log<T> = Log(values: seq<T>, ending: Ending)

  /** Everything a loop reads from `s` before it ends. */
  ghost function DecodeAll<T>(decode: seq<byte> -> Parsed<T>, s: seq<byte>): Log<T>
    requires Advancing(decode)
    decreases |s|
  {
    assert AdvancesAt(decode, s);
    match decode(s)
    case Value(x, rest) =>
      var more := DecodeAll(decode, rest);
      Log([x] + more.values, more.ending)
    case Eof => Log([], AtEof)
    case Invalid => Log([], AtGarbage)
  }

  function Concat(frames: seq<seq<byte>>): seq<byte> {
    if frames == [] then [] else frames[0] + Concat(frames[1..])
  }

  /** How many of the frames are complete before position `cut` of their concatenation. */
  function Whole(frames: seq<seq<byte>>, cut: nat): nat {
    if frames == [] || cut < |frames[0]| then 0 else 1 + Whole(frames[1..], cut - |frames[0]|)
  }

  ghost predicate AllFrame<T>(decode: seq<byte> -> Parsed<T>, frames: seq<seq<byte>>, xs: seq<T>) {
    |frames| == |xs| && forall i :: 0 <= i < |xs| ==> Frames(decode, frames[i], xs[i])
  }

  lemma {:induction false} ConcatAppend(a: seq<seq<byte>>, b: seq<seq<byte>>)
    ensures Concat(a + b) == Concat(a) + Concat(b)
  {
    if a == [] {
      assert a + b == b;
    } else {
      assert (a + b)[1..] == a[1..] + b;
      ConcatAppend(a[1..], b);
    }
  }

  /** `Whole` counts exactly the frames that fit: they end by the cut and the next one does not. */
  lemma {:induction false} WholeIsLargest(frames: seq<seq<byte>>, cut: nat)
    ensures var w := Whole(frames, cut);
      && w <= |frames|
      && (cut <= |Concat(frames)| ==> |Concat(frames[..w])| <= cut)
      && (w < |frames| ==> cut < |Concat(frames[..w + 1])|)
  {
    if frames != [] {
      var w := Whole(frames, cut);
      if cut < |frames[0]| {
        assert frames[..1][0] == frames[0];
      } else {
        WholeIsLargest(frames[1..], cut - |frames[0]|);
        assert frames[..w][1..] == frames[1..][..w - 1];
        if w < |frames| {
          assert frames[..w + 1][1..] == frames[1..][..w];
        }
      }
    }
  }

  /** Reading a cut stream of frames gives exactly the messages whose frames precede the cut, in
      order, and then end of stream: never a wrong message, never garbage. */
  lemma {:induction false} CutStream<T>(decode: seq<byte> -> Parsed<T>, frames: seq<seq<byte>>, xs: seq<T>, cut: nat)
    requires Streaming(decode) && Advancing(decode) && decode([]) == Eof
    requires AllFrame(decode, frames, xs) && cut <= |Concat(frames)|
    ensures Whole(frames, cut) <= |xs|
    ensures DecodeAll(decode, Concat(frames)[..cut]) == Log(xs[..Whole(frames, cut)], AtEof)
    decreases |frames|
  {
    if frames != [] {
      var head, tail := frames[0], Concat(frames[1..]);
      assert Frames(decode, head, xs[0]);
      if cut < |head| {
        assert (head + tail)[..cut] == head[..cut];
        ProperPrefixIsEof(decode, head, xs[0], cut);
      } else {
        var rest := tail[..cut - |head|];
        assert (head + tail)[..cut] == head + rest;
        assert FramesBefore(decode, head, xs[0], rest);
        CutStream(decode, frames[1..], xs[1..], cut - |head|);
        assert [xs[0]] + xs[1..][..Whole(frames, cut) - 1] == xs[..Whole(frames, cut)];
      }
    }
  }

  /** Whatever follows whole frames is read exactly as it would be at the start of a stream. */
  lemma {:induction false} FramesThenRest<T>(decode: seq<byte> -> Parsed<T>, frames: seq<seq<byte>>, xs: seq<T>,
      rest: seq<byte>)
    requires Advancing(decode) && AllFrame(decode, frames, xs)
    ensures var more := DecodeAll(decode, rest);
      DecodeAll(decode, Concat(frames) + rest) == Log(xs + more.values, more.ending)
    decreases |frames|
  {
    var more := DecodeAll(decode, rest);
    if frames == [] {
      assert [] + rest == rest && xs + more.values == more.values;
    } else {
      var tail := Concat(frames[1..]);
      assert frames[0] + tail + rest == frames[0] + (tail + rest);
      assert Frames(decode, frames[0], xs[0]) && FramesBefore(decode, frames[0], xs[0], tail + rest);
      FramesThenRest(decode, frames[1..], xs[1..], rest);
      assert [xs[0]] + (xs[1..] + more.values) == xs + more.values;
    }
  }

  // ---------- Topic messages and requests ----------

  function FramesOf(c: Parts, ms: seq<Message>): seq<seq<byte>> {
    seq(|ms|, i requires 0 <= i < |ms| => MessageEncode(c, ms[i]).bytes)
  }

  ghost predicate Encodable(c: Parts, ms: seq<Message>) {
    forall i :: 0 <= i < |ms| ==> MessageEncode(c, ms[i]).ok
  }

  lemma EncodedMessagesAreFrames(c: Parts, ms: seq<Message>)
    requires LawfulParts(c) && Encodable(c, ms)
    ensures AllFrame(MessageCodec(c).decode, FramesOf(c, ms), ms)
  {
    MessageLawful(c);
    var codec := MessageCodec(c);
    forall i, rest | 0 <= i < |ms| ensures FramesBefore(codec.decode, FramesOf(c, ms)[i], ms[i], rest) {
      assert RoundTripsAt(codec, ms[i], rest);
    }
  }

  /** Truncation safety of a connection: cut anywhere, the messages dispatched are exactly those whose
      full frames came before the cut. */
  lemma TruncationSafe(c: Parts, ms: seq<Message>, cut: nat)
    requires LawfulParts(c) && Encodable(c, ms) && cut <= |Concat(FramesOf(c, ms))|
    ensures Advancing(MessageCodec(c).decode)
    ensures var w := Whole(FramesOf(c, ms), cut);
      && w <= |ms|
      && DecodeAll(MessageCodec(c).decode, Concat(FramesOf(c, ms))[..cut]) == Log(ms[..w], AtEof)
      && |Concat(FramesOf(c, ms[..w]))| <= cut
      && (w < |ms| ==> cut < |Concat(FramesOf(c, ms[..w + 1]))|)
  {
    MessageLawful(c);
    EncodedMessagesAreFrames(c, ms);
    var frames, w := FramesOf(c, ms), Whole(FramesOf(c, ms), cut);
    CutStream(MessageCodec(c).decode, frames, ms, cut);
    WholeIsLargest(frames, cut);
    assert frames[..w] == FramesOf(c, ms[..w]);
    if w < |ms| {
      assert frames[..w + 1] == FramesOf(c, ms[..w + 1]);
    }
  }

  /** A byte that starts neither kind of message ends the loop with an exception, after all messages
      before it were dispatched and whatever comes behind it. */
  lemma GarbageStops(c: Parts, ms: seq<Message>, b: byte, rest: seq<byte>)
    requires LawfulParts(c) && Encodable(c, ms) && b != TOPIC_PREFIX && b != SERVICE_PREFIX
    ensures Advancing(MessageCodec(c).decode)
    ensures DecodeAll(MessageCodec(c).decode, Concat(FramesOf(c, ms)) + ([b] + rest)) == Log(ms, AtGarbage)
  {
    MessageLawful(c);
    EncodedMessagesAreFrames(c, ms);
    FramesThenRest(MessageCodec(c).decode, FramesOf(c, ms), ms, [b] + rest);
    ReadBack([b], rest);
    assert ms + [] == ms;
  }

  // ---------- The loop ----------

  function Topics(ms: seq<Message>): seq<TopicMessage> {
    if ms == [] then []
    else (if ms[0].Topic? then [ms[0].message] else []) + Topics(ms[1..])
  }

  function Requests(ms: seq<Message>): seq<ServiceRequest> {
    if ms == [] then []
    else (if ms[0].Service? then [ms[0].request] else []) + Requests(ms[1..])
  }

  lemma {:induction false} TopicsAppend(a: seq<Message>, b: seq<Message>)
    ensures Topics(a + b) == Topics(a) + Topics(b)
  {
    if a == [] {
      assert a + b == b;
    } else {
      assert (a + b)[1..] == a[1..] + b;
      TopicsAppend(a[1..], b);
      var head := if a[0].Topic? then [a[0].message] else [];
      assert head + (Topics(a[1..]) + Topics(b)) == (head + Topics(a[1..])) + Topics(b);
    }
  }

  lemma {:induction false} RequestsAppend(a: seq<Message>, b: seq<Message>)
    ensures Requests(a + b) == Requests(a) + Requests(b)
  {
    if a == [] {
      assert a + b == b;
    } else {
      assert (a + b)[1..] == a[1..] + b;
      RequestsAppend(a[1..], b);
      var head := if a[0].Service? then [a[0].request] else [];
      assert head + (Requests(a[1..]) + Requests(b)) == (head + Requests(a[1..])) + Requests(b);
    }
  }

  /** Wherever the connection is cut, the topic messages handled and the tasks started are, each in
      order, the first of the topic messages and the first of the requests written: a connection is a
      queue for either kind. */
  lemma KindsArriveInOrder(c: Parts, ms: seq<Message>, cut: nat)
    requires LawfulParts(c) && Encodable(c, ms) && cut <= |Concat(FramesOf(c, ms))|
    ensures Advancing(MessageCodec(c).decode)
    ensures var log := DecodeAll(MessageCodec(c).decode, Concat(FramesOf(c, ms))[..cut]);
      Topics(log.values) <= Topics(ms) && Requests(log.values) <= Requests(ms)
  {
    TruncationSafe(c, ms, cut);
    KindsOfPrefix(ms, Whole(FramesOf(c, ms), cut));
  }

  lemma KindsOfPrefix(ms: seq<Message>, w: nat)
    requires w <= |ms|
    ensures Topics(ms[..w]) <= Topics(ms) && Requests(ms[..w]) <= Requests(ms)
  {
    assert ms == ms[..w] + ms[w..];
    TopicsAppend(ms[..w], ms[w..]);
    RequestsAppend(ms[..w], ms[w..]);
  }

  /** What the loop dispatches of the messages it could read: callback number k of a topic message raises
      something that is let through if `fatal(k)`, and that ends the loop. The first of `ms` has number i. */
  function Dispatched(ms: seq<Message>, fatal: nat -> bool, i: nat): seq<Message>
    decreases |ms|
  {
    if ms == [] then []
    else if StopsAt(ms[0], fatal, i) then [ms[0]]
    else [ms[0]] + Dispatched(ms[1..], fatal, if ms[0].Topic? then i + 1 else i)
  }

  predicate StopsAt(m: Message, fatal: nat -> bool, i: nat) {
    m.Topic? && fatal(i)
  }

  predicate Stops(ms: seq<Message>, fatal: nat -> bool, i: nat)
    decreases |ms|
  {
    ms != [] && (StopsAt(ms[0], fatal, i) || Stops(ms[1..], fatal, if ms[0].Topic? then i + 1 else i))
  }

  /** Without a fatal callback everything read is dispatched; the first fatal one is the last message
      dispatched. */
  lemma {:induction false} DispatchedExactly(ms: seq<Message>, fatal: nat -> bool, i: nat)
    ensures var d := Dispatched(ms, fatal, i);
      && d <= ms
      && (!Stops(ms, fatal, i) ==> d == ms)
      && (Stops(ms, fatal, i) ==> d != [] && d[|d| - 1].Topic? && Topics(d) != [] && fatal(i + |Topics(d)| - 1))
      && forall k :: i <= k < i + |Topics(d)| - 1 ==> !fatal(k)
    decreases |ms|
  {
    if ms != [] {
      var rest, k := ms[1..], if ms[0].Topic? then i + 1 else i;
      if StopsAt(ms[0], fatal, i) {
        assert [ms[0]][1..] == [];
      } else {
        DispatchedExactly(rest, fatal, k);
        assert ([ms[0]] + Dispatched(rest, fatal, k))[1..] == Dispatched(rest, fatal, k);
      }
    }
  }

  /** The loop has dispatched `done`, i of them topic messages, and still has `left` of the log to read. */
  ghost predicate Midway(log: Log<Message>, done: seq<Message>, left: Log<Message>, fatal: nat -> bool, i: nat) {
    && Dispatched(log.values, fatal, 0) == done + Dispatched(left.values, fatal, i)
    && (Stops(log.values, fatal, 0) <==> Stops(left.values, fatal, i))
    && log.ending == left.ending
  }

  lemma FirstDispatched(m: Message, more: seq<Message>, fatal: nat -> bool, i: nat)
    ensures var k := if m.Topic? then i + 1 else i;
      && Dispatched([m] + more, fatal, i) == [m] + (if StopsAt(m, fatal, i) then [] else Dispatched(more, fatal, k))
      && (Stops([m] + more, fatal, i) <==> StopsAt(m, fatal, i) || Stops(more, fatal, k))
  {
    assert ([m] + more)[1..] == more;
  }

  /** One turn of the loop, in the whole log. */
  lemma LoopStep(log: Log<Message>, done: seq<Message>, m: Message, more: Log<Message>, fatal: nat -> bool, i: nat)
    requires Midway(log, done, Log([m] + more.values, more.ending), fatal, i)
    ensures StopsAt(m, fatal, i) ==> Dispatched(log.values, fatal, 0) == done + [m] && Stops(log.values, fatal, 0)
    ensures !StopsAt(m, fatal, i) ==> Midway(log, done + [m], more, fatal, if m.Topic? then i + 1 else i)
  {
    FirstDispatched(m, more.values, fatal, i);
    var rest := Dispatched(more.values, fatal, if m.Topic? then i + 1 else i);
    assert done + ([m] + rest) == (done + [m]) + rest;
    assert [m] + [] == [m];
  }

  lemma KindsOfOneMore(done: seq<Message>, m: Message)
    ensures Topics(done + [m]) == Topics(done) + (if m.Topic? then [m.message] else [])
    ensures Requests(done + [m]) == Requests(done) + (if m.Service? then [m.request] else [])
  {
    TopicsAppend(done, [m]);
    RequestsAppend(done, [m]);
  }

  /** Topic messages are handled one by one in the loop; every request starts a task of its own. The
      codec is whatever the node decodes messages with. A callback's ordinary exceptions are swallowed;
      `fatal` says which callbacks, by number, raise a cancellation or an exit. */
  method HandleClient(r: BufferReader, codec: Codec<Message>, fatal: nat -> bool)
    returns (handled: seq<TopicMessage>, tasks: seq<ServiceRequest>, ending: Ending)
    requires r.Valid() && Streaming(codec.decode) && Advancing(codec.decode)
    modifies r
    ensures var log := DecodeAll(codec.decode, old(r.Remaining())); var dispatched := Dispatched(log.values, fatal, 0);
      && handled == Topics(dispatched) && tasks == Requests(dispatched)
      && ending == if Stops(log.values, fatal, 0) then AtCallback else log.ending
  {
    handled, tasks := [], [];
    ghost var log := DecodeAll(codec.decode, r.Remaining());
    ghost var done: seq<Message>, left := [], log;
    assert [] + Dispatched(log.values, fatal, 0) == Dispatched(log.values, fatal, 0);
    while true
      invariant r.Valid() && left == DecodeAll(codec.decode, r.Remaining())
      invariant Midway(log, done, left, fatal, |handled|)
      invariant handled == Topics(done) && tasks == Requests(done)
      decreases |r.Remaining()|
    {
      assert AdvancesAt(codec.decode, r.Remaining());
      var obj := r.Decode(codec);
      if obj.IsFailure() {
        assert left.values == [] && done + [] == done;
        return handled, tasks, if obj.Eof? then AtEof else AtGarbage;
      }
      var m := obj.value;
      ghost var more := DecodeAll(codec.decode, r.Remaining());
      LoopStep(log, done, m, more, fatal, |handled|);
      KindsOfOneMore(done, m);
      done, left := done + [m], more;
      if m.Topic? {
        handled := handled + [m.message];
        if fatal(|handled| - 1) {
          return handled, tasks, AtCallback;
        }
      } else {
        tasks := tasks + [m.request];
      }
    }
  }
}
