/** src/rosy/asyncio.py: tasks that write their messages to one connection, chunk by chunk, each
    holding the writer's lock from its first chunk to its last. */
module WriterLock {
  import opened Streams
  import opened Runs
  import opened ClientLoop
  import opened MessageCodecs

  /** A task's message and the pieces it writes it in. */
  datatype Job<T> = Job(message: T, chunks: seq<seq<byte>>)

  datatype Line<T> = Line(
    bytes: seq<byte>,         // what has been written to the connection
    entered: seq<Job<T>>,     // the jobs that got the lock and kept it, in that order
    holding: bool,            // the last of them still holds the lock
    written: nat,             // how many of its chunks the holder has written
    waiting: seq<Job<T>>)     // tasks waiting for the lock

  datatype Step<T> =
    | Ask(job: Job<T>)        // a task comes for the lock
    | Withdraw(i: nat)        // a waiting task is cancelled
    | Enter(i: nat)           // a waiting task gets the lock
    | Chunk                   // the holder writes its next chunk
    | Leave                   // the holder releases the lock after its last chunk
    | Abort                   // the holder releases it earlier, by an exception

  function Next<T>(l: Line<T>, step: Step<T>): Option<Line<T>> {
    match step
    case Ask(job) => Some(l.(waiting := l.waiting + [job]))
    case Withdraw(i) =>
      if i < |l.waiting| then Some(l.(waiting := Without(l.waiting, i))) else None
    case Enter(i) =>
      if i < |l.waiting| && !l.holding then
        Some(l.(waiting := Without(l.waiting, i), entered := l.entered + [l.waiting[i]], holding := true, written := 0))
      else None
    case Chunk =>
      if l.holding && l.entered != [] && l.written < |l.entered[|l.entered| - 1].chunks| then
        Some(l.(bytes := l.bytes + l.entered[|l.entered| - 1].chunks[l.written], written := l.written + 1))
      else None
    case Leave =>
      if l.holding && l.entered != [] && l.written == |l.entered[|l.entered| - 1].chunks| then
        Some(l.(holding := false))
      else None
    case Abort =>
      if l.holding && l.entered != [] && l.written < |l.entered[|l.entered| - 1].chunks| then
        Some(l.(holding := false, entered := l.entered[..|l.entered| - 1]))
      else None
  }

  /** Messages that can be encoded are written to their last chunk: requests and topic messages go out
      as one chunk, and between the chunks of a response nothing suspends. So a task gives the lock
      up early only while it has written nothing. */
  function Orderly<T>(l: Line<T>, step: Step<T>): Option<Line<T>> {
    if step.Abort? && l.written != 0 then None else Next(l, step)
  }

  function EmptyLine<T>(): Line<T> {
    Line([], [], false, 0, [])
  }

  function FrameOf<T>(job: Job<T>): seq<byte> {
    Concat(job.chunks)
  }

  function FramesIn<T>(jobs: seq<Job<T>>): seq<seq<byte>> {
    seq(|jobs|, i requires 0 <= i < |jobs| => FrameOf(jobs[i]))
  }

  function MessagesIn<T>(jobs: seq<Job<T>>): seq<T> {
    seq(|jobs|, i requires 0 <= i < |jobs| => jobs[i].message)
  }

  /** Whole frames in lock-acquisition order, then the holder's chunks so far. */
  ghost predicate WholeFrames<T>(l: Line<T>) {
    if l.holding then
      && l.entered != []
      && var last := l.entered[|l.entered| - 1];
      && l.written <= |last.chunks|
      && l.bytes == Concat(FramesIn(l.entered[..|l.entered| - 1])) + Concat(last.chunks[..l.written])
    else
      l.bytes == Concat(FramesIn(l.entered))
  }

  lemma FramesInAppend<T>(jobs: seq<Job<T>>, job: Job<T>)
    ensures Concat(FramesIn(jobs + [job])) == Concat(FramesIn(jobs)) + FrameOf(job)
  {
    assert FramesIn(jobs + [job]) == FramesIn(jobs) + [FrameOf(job)];
    ConcatAppend(FramesIn(jobs), [FrameOf(job)]);
  }

  lemma ChunkAppend(chunks: seq<seq<byte>>, k: nat)
    requires k < |chunks|
    ensures Concat(chunks[..k + 1]) == Concat(chunks[..k]) + chunks[k]
  {
    assert chunks[..k + 1] == chunks[..k] + [chunks[k]];
    ConcatAppend(chunks[..k], [chunks[k]]);
  }

  lemma ChunkKeepsFramesWhole<T>(l: Line<T>)
    requires WholeFrames(l) && Orderly(l, Chunk).Some?
    ensures WholeFrames(Orderly(l, Chunk).value)
  {
    ChunkAppend(l.entered[|l.entered| - 1].chunks, l.written);
  }

  lemma LeaveKeepsFramesWhole<T>(l: Line<T>)
    requires WholeFrames(l) && Orderly(l, Leave).Some?
    ensures WholeFrames(Orderly(l, Leave).value)
  {
    var last := l.entered[|l.entered| - 1];
    assert last.chunks[..l.written] == last.chunks;
    FramesInAppend(l.entered[..|l.entered| - 1], last);
    assert l.entered[..|l.entered| - 1] + [last] == l.entered;
  }

  lemma StepKeepsFramesWhole<T>(l: Line<T>, step: Step<T>)
    requires WholeFrames(l) && Orderly(l, step).Some?
    ensures WholeFrames(Orderly(l, step).value)
  {
    match step
    case Enter(i) =>
      assert (l.entered + [l.waiting[i]])[..|l.entered|] == l.entered;
    case Chunk => ChunkKeepsFramesWhole(l);
    case Leave => LeaveKeepsFramesWhole(l);
    case _ =>
  }

  /** Giving the lock up early keeps the frames whole exactly when nothing of the message is out yet. */
  lemma AbortKeepsFramesWhole<T>(l: Line<T>)
    requires WholeFrames(l) && Next(l, Abort).Some?
    ensures WholeFrames(Next(l, Abort).value) <==> Concat(l.entered[|l.entered| - 1].chunks[..l.written]) == []
  {
  }

  /** Frame atomicity: after any run, with any number of tasks and any way of cutting messages into
      chunks, the connection carries whole frames in lock-acquisition order and then a prefix of the
      holder's frame. */
  lemma FrameAtomicity<T(!new)>(steps: seq<Step<T>>)
    requires Run(Orderly, EmptyLine<T>(), steps).Some?
    ensures var l := Run(Orderly, EmptyLine<T>(), steps).value;
      && WholeFrames(l)
      && l.bytes <= Concat(FramesIn(l.entered))
  {
    forall l: Line<T>, step: Step<T> ensures KeptBy(Orderly, WholeFrames, l, step) {
      if WholeFrames(l) && Orderly(l, step).Some? {
        StepKeepsFramesWhole(l, step);
      }
    }
    RunKeeps(Orderly, WholeFrames, EmptyLine<T>(), steps);
    BytesArePrefix(Run(Orderly, EmptyLine<T>(), steps).value);
  }

  lemma BytesArePrefix<T>(l: Line<T>)
    requires WholeFrames(l)
    ensures l.bytes <= Concat(FramesIn(l.entered))
  {
    if l.holding {
      var last := l.entered[|l.entered| - 1];
      assert last.chunks == last.chunks[..l.written] + last.chunks[l.written..];
      ConcatAppend(last.chunks[..l.written], last.chunks[l.written..]);
      FramesInAppend(l.entered[..|l.entered| - 1], last);
      assert l.entered[..|l.entered| - 1] + [last] == l.entered;
    }
  }

  // ---------- Whoever waits can get through ----------

  /** What the holder does by itself: it writes its chunks and releases the lock. */
  predicate IsHolders<T(!new)>(step: Step<T>) {
    step.Chunk? || step.Leave?
  }

  lemma {:induction false} HolderFinishes<T(!new)>(l: Line<T>) returns (more: seq<Step<T>>)
    requires l.holding && l.entered != [] && l.written <= |l.entered[|l.entered| - 1].chunks|
    ensures forall k :: 0 <= k < |more| ==> IsHolders(more[k])
    ensures Run(Orderly, l, more).Some?
    ensures var u, chunks := Run(Orderly, l, more).value, l.entered[|l.entered| - 1].chunks;
      !u.holding && u.entered == l.entered && u.waiting == l.waiting && u.bytes == l.bytes + Concat(chunks[l.written..])
    decreases |l.entered[|l.entered| - 1].chunks| - l.written
  {
    var chunks := l.entered[|l.entered| - 1].chunks;
    if l.written == |chunks| {
      assert l.bytes + Concat([]) == l.bytes;
      more := [Leave];
      RunAlong(Orderly, [l, l.(holding := false)], more);
    } else {
      var next := Orderly(l, Chunk).value;
      var rest := HolderFinishes(next);
      more := [Chunk] + rest;
      assert more[1..] == rest;
      assert chunks[l.written..] == [chunks[l.written]] + chunks[l.written + 1..];
      assert next.bytes + Concat(chunks[l.written + 1..]) == l.bytes + Concat(chunks[l.written..]);
    }
  }

  lemma FreeLockIsTaken<T(!new)>(l: Line<T>, i: nat) returns (more: seq<Step<T>>)
    requires !l.holding && i < |l.waiting|
    ensures Run(Orderly, l, more).Some?
    ensures var u := Run(Orderly, l, more).value;
      && !u.holding && u.entered == l.entered + [l.waiting[i]] && u.waiting == Without(l.waiting, i)
      && u.bytes == l.bytes + FrameOf(l.waiting[i])
    ensures more != [] && more[0] == Enter(i) && forall k :: 0 < k < |more| ==> IsHolders(more[k])
  {
    var entered := Orderly(l, Enter(i)).value;
    var rest := HolderFinishes(entered);
    more := [Enter(i)] + rest;
    assert more[1..] == rest;
    assert l.waiting[i].chunks[0..] == l.waiting[i].chunks;
  }

  /** The lock keeps nobody out: whatever has happened, whoever holds it can write the rest of its frame and
      leave, and then any waiting task can get in and write all of its own. */
  lemma WaiterGetsThrough<T(!new)>(steps: seq<Step<T>>, i: nat) returns (more: seq<Step<T>>)
    requires Run(Orderly, EmptyLine<T>(), steps).Some? && i < |Run(Orderly, EmptyLine<T>(), steps).value.waiting|
    ensures var l := Run(Orderly, EmptyLine<T>(), steps).value;
      Run(Orderly, l, more).Some? && var u := Run(Orderly, l, more).value;
      && !u.holding && u.entered == l.entered + [l.waiting[i]] && u.waiting == Without(l.waiting, i)
      && u.bytes == Concat(FramesIn(u.entered)) == Concat(FramesIn(l.entered)) + FrameOf(l.waiting[i])
    ensures forall k :: 0 <= k < |more| ==> IsHolders(more[k]) || more[k] == Enter(i)
  {
    var l := Run(Orderly, EmptyLine<T>(), steps).value;
    FrameAtomicity(steps);
    more := [];
    if l.holding {
      more := HolderFinishes(l);
    }
    var rest := FreeLockIsTaken(Run(Orderly, l, more).value, i);
    RunAppend(Orderly, l, more, rest);
    RunAppend(Orderly, EmptyLine<T>(), steps, more + rest);
    more := more + rest;
    FrameAtomicity(steps + more);
    FramesInAppend(l.entered, l.waiting[i]);
  }

  function Asked<T>(steps: seq<Step<T>>): seq<Job<T>> {
    if steps == [] then []
    else (if steps[0].Ask? then [steps[0].job] else []) + Asked(steps[1..])
  }

  /** How many gave up, waiting or with the lock. */
  function GivenUp<T>(steps: seq<Step<T>>): nat {
    if steps == [] then 0
    else (if steps[0].Withdraw? || steps[0].Abort? then 1 else 0) + GivenUp(steps[1..])
  }

  lemma {:induction false} CountsAddUp<T>(l: Line<T>, steps: seq<Step<T>>)
    requires Run(Orderly, l, steps).Some?
    ensures var t := Run(Orderly, l, steps).value;
      |t.entered| + |t.waiting| + GivenUp(steps) == |l.entered| + |l.waiting| + |Asked(steps)|
    decreases |steps|
  {
    if steps != [] {
      CountsAddUp(Orderly(l, steps[0]).value, steps[1..]);
    }
  }

  /** Of the jobs that came for the lock each has had it, still waits, or gave up. */
  lemma NobodyIsForgotten<T>(steps: seq<Step<T>>)
    requires Run(Orderly, EmptyLine<T>(), steps).Some?
    ensures var l := Run(Orderly, EmptyLine<T>(), steps).value;
      |l.entered| + |l.waiting| + GivenUp(steps) == |Asked(steps)|
  {
    CountsAddUp(EmptyLine<T>(), steps);
  }

  /** Every job came in with the chunks of a frame of its message. */
  ghost predicate Framed<T(!new)>(decode: seq<byte> -> Parsed<T>, l: Line<T>) {
    && (forall j :: j in l.waiting ==> Frames(decode, FrameOf(j), j.message))
    && (forall j :: j in l.entered ==> Frames(decode, FrameOf(j), j.message))
  }

  function FramedOnly<T>(framed: Job<T> -> bool, l: Line<T>, step: Step<T>): Option<Line<T>> {
    if step.Ask? && !framed(step.job) then None else Orderly(l, step)
  }

  lemma DecodesWhatArrived<T(!new)>(decode: seq<byte> -> Parsed<T>, l: Line<T>, arrived: nat)
    requires Streaming(decode) && Advancing(decode) && decode([]) == Eof
    requires WholeFrames(l) && Framed(decode, l) && arrived <= |l.bytes|
    ensures var w := Whole(FramesIn(l.entered), arrived);
      && w <= |l.entered|
      && DecodeAll(decode, l.bytes[..arrived]) == Log(MessagesIn(l.entered)[..w], AtEof)
  {
    BytesArePrefix(l);
    var frames := FramesIn(l.entered);
    assert l.bytes[..arrived] == Concat(frames)[..arrived];
    assert AllFrame(decode, frames, MessagesIn(l.entered));
    CutStream(decode, frames, MessagesIn(l.entered), arrived);
  }

  lemma AllArrived<T>(l: Line<T>)
    requires WholeFrames(l) && !l.holding
    ensures Whole(FramesIn(l.entered), |l.bytes|) == |l.entered|
  {
    var frames, w := FramesIn(l.entered), Whole(FramesIn(l.entered), |l.bytes|);
    WholeIsLargest(frames, |l.bytes|);
    if w < |frames| {
      assert frames == frames[..w + 1] + frames[w + 1..];
      ConcatAppend(frames[..w + 1], frames[w + 1..]);
    }
  }

  /** What the peer makes of it: however much of the connection has arrived, it has decoded a prefix
      of the messages in lock-acquisition order, complete up to the bytes that are still missing. */
  lemma PeerDecodesEntered<T(!new)>(decode: seq<byte> -> Parsed<T>, framed: Job<T> -> bool, steps: seq<Step<T>>,
                                    arrived: nat)
    requires Streaming(decode) && Advancing(decode) && decode([]) == Eof
    requires forall j :: framed(j) ==> Frames(decode, FrameOf(j), j.message)
    requires var run := Run((l, s) => FramedOnly(framed, l, s), EmptyLine<T>(), steps);
      run.Some? && arrived <= |run.value.bytes|
    ensures var l := Run((l, s) => FramedOnly(framed, l, s), EmptyLine<T>(), steps).value;
      var w := Whole(FramesIn(l.entered), arrived);
      && w <= |l.entered|
      && DecodeAll(decode, l.bytes[..arrived]) == Log(MessagesIn(l.entered)[..w], AtEof)
      && (!l.holding && arrived == |l.bytes| ==> w == |l.entered|)
  {
    var next := (l, s) => FramedOnly(framed, l, s);
    var inv := l => WholeFrames(l) && Framed(decode, l);
    forall l: Line<T>, step: Step<T> ensures KeptBy(next, inv, l, step) {
      if inv(l) && next(l, step).Some? {
        StepKeepsFramesWhole(l, step);
      }
    }
    RunKeeps(next, inv, EmptyLine<T>(), steps);
    var l := Run(next, EmptyLine<T>(), steps).value;
    DecodesWhatArrived(decode, l, arrived);
    if !l.holding && arrived == |l.bytes| {
      AllArrived(l);
    }
  }

  /** A job that writes an encodable topic message or request, in whatever pieces. */
  predicate WritesMessage(c: Parts, j: Job<Message>) {
    MessageEncode(c, j.message).ok && FrameOf(j) == MessageEncode(c, j.message).bytes
  }

  /** A job that writes an encodable response the peer will see as `j.message`. */
  predicate WritesResponse(c: Parts, j: Job<ServiceResponse>) {
    && Normal(j.message) == j.message && ResponseEncode(c, j.message).ok
    && FrameOf(j) == ResponseEncode(c, j.message).bytes
  }

  /** The server's read loop sees the topic messages and requests in the order their senders got the lock. */
  lemma ServerDecodesEntered(c: Parts, steps: seq<Step<Message>>, arrived: nat)
    requires LawfulParts(c)
    requires var run := Run((l, s) => FramedOnly(j => WritesMessage(c, j), l, s), EmptyLine<Message>(), steps);
      run.Some? && arrived <= |run.value.bytes|
    ensures var l := Run((l, s) => FramedOnly(j => WritesMessage(c, j), l, s), EmptyLine<Message>(), steps).value;
      var w := Whole(FramesIn(l.entered), arrived);
      && w <= |l.entered| && Advancing(MessageCodec(c).decode)
      && DecodeAll(MessageCodec(c).decode, l.bytes[..arrived]) == Log(MessagesIn(l.entered)[..w], AtEof)
  {
    MessageLawful(c);
    forall j: Job<Message> | WritesMessage(c, j) ensures Frames(MessageCodec(c).decode, FrameOf(j), j.message) {
      forall rest ensures FramesBefore(MessageCodec(c).decode, FrameOf(j), j.message, rest) {
        assert RoundTripsAt(MessageCodec(c), j.message, rest);
      }
    }
    PeerDecodesEntered(MessageCodec(c).decode, j => WritesMessage(c, j), steps, arrived);
  }

  /** The response handler sees the responses in the order their tasks got the lock, although each of
      them is written piece by piece. */
  lemma CallerDecodesEntered(c: Parts, steps: seq<Step<ServiceResponse>>, arrived: nat)
    requires LawfulParts(c) && ResponseDecode(c, []) == Eof
    requires var run := Run((l, s) => FramedOnly(j => WritesResponse(c, j), l, s), EmptyLine<ServiceResponse>(), steps);
      run.Some? && arrived <= |run.value.bytes|
    ensures
      var l := Run((l, s) => FramedOnly(j => WritesResponse(c, j), l, s), EmptyLine<ServiceResponse>(), steps).value;
      var w := Whole(FramesIn(l.entered), arrived);
      && w <= |l.entered| && Advancing(ResponseReader(c))
      && DecodeAll(ResponseReader(c), l.bytes[..arrived]) == Log(MessagesIn(l.entered)[..w], AtEof)
  {
    ResponseStreams(c);
    forall j: Job<ServiceResponse> | WritesResponse(c, j) ensures Frames(ResponseReader(c), FrameOf(j), j.message) {
      forall rest ensures FramesBefore(ResponseReader(c), FrameOf(j), j.message, rest) {
        ResponseNormalises(c, j.message, rest);
      }
    }
    PeerDecodesEntered(ResponseReader(c), j => WritesResponse(c, j), steps, arrived);
  }

  // ---------- First come, first served ----------

  /** The lock as asyncio makes it: whoever has waited longest is next. */
  function InTurn<T>(framed: Job<T> -> bool, l: Line<T>, step: Step<T>): Option<Line<T>> {
    if step.Enter? && step.i != 0 then None else FramedOnly(framed, l, step)
  }

  /** `a` is `b` with some elements left out. */
  ghost predicate Subsequence<T>(a: seq<T>, b: seq<T>) {
    || a == []
    || (b != [] && ((a[0] == b[0] && Subsequence(a[1..], b[1..])) || Subsequence(a, b[1..])))
  }

  lemma {:induction false} SubsequenceOfItself<T>(a: seq<T>)
    ensures Subsequence(a, a)
  {
    if a != [] {
      SubsequenceOfItself(a[1..]);
    }
  }

  /** What is left out of less is left out of more. */
  lemma {:induction false} SubsequenceWithOneMore<T>(a: seq<T>, front: seq<T>, x: T, back: seq<T>)
    requires Subsequence(a, front + back)
    ensures Subsequence(a, front + [x] + back)
    decreases |front|
  {
    if a != [] {
      if front == [] {
        assert front + back == back && (front + [x] + back)[1..] == back;
      } else {
        assert (front + back)[1..] == front[1..] + back;
        assert (front + [x] + back)[1..] == front[1..] + [x] + back;
        if a[0] == front[0] && Subsequence(a[1..], front[1..] + back) {
          SubsequenceWithOneMore(a[1..], front[1..], x, back);
        } else {
          SubsequenceWithOneMore(a, front[1..], x, back);
        }
      }
    }
  }

  lemma {:induction false} PrefixOfSubsequence<T>(a: seq<T>, more: seq<T>, b: seq<T>)
    requires Subsequence(a + more, b)
    ensures Subsequence(a, b)
    decreases |b|
  {
    if a != [] {
      assert (a + more)[1..] == a[1..] + more;
      if (a + more)[0] == b[0] && Subsequence((a + more)[1..], b[1..]) {
        PrefixOfSubsequence(a[1..], more, b[1..]);
      } else {
        PrefixOfSubsequence(a, more, b[1..]);
      }
    }
  }

  lemma {:induction false} MessagesOfSubsequence<T>(a: seq<Job<T>>, b: seq<Job<T>>)
    requires Subsequence(a, b)
    ensures Subsequence(MessagesIn(a), MessagesIn(b))
    decreases |b|
  {
    if a != [] {
      assert MessagesIn(a)[1..] == MessagesIn(a[1..]) && MessagesIn(b)[1..] == MessagesIn(b[1..]);
      if a[0] == b[0] && Subsequence(a[1..], b[1..]) {
        MessagesOfSubsequence(a[1..], b[1..]);
      } else {
        MessagesOfSubsequence(a, b[1..]);
      }
    }
  }

  lemma WithdrawKeepsTurns<T>(l: Line<T>, i: nat, later: seq<Job<T>>, a: seq<Job<T>>)
    requires i < |l.waiting| && Subsequence(a, l.entered + Without(l.waiting, i) + later)
    ensures Subsequence(a, l.entered + l.waiting + [] + later)
  {
    var front, back := l.entered + l.waiting[..i], l.waiting[i + 1..] + later;
    assert l.entered + Without(l.waiting, i) + later == front + back;
    assert l.entered + l.waiting + [] + later == front + [l.waiting[i]] + back;
    SubsequenceWithOneMore(a, front, l.waiting[i], back);
  }

  lemma AbortKeepsTurns<T>(l: Line<T>, later: seq<Job<T>>, a: seq<Job<T>>)
    requires l.entered != [] && Subsequence(a, l.entered[..|l.entered| - 1] + l.waiting + later)
    ensures Subsequence(a, l.entered + l.waiting + [] + later)
  {
    var front, last, back := l.entered[..|l.entered| - 1], l.entered[|l.entered| - 1], l.waiting + later;
    assert front + l.waiting + later == front + back;
    assert l.entered + l.waiting + [] + later == front + [last] + back;
    SubsequenceWithOneMore(a, front, last, back);
  }

  /** A step leaves the queue as it was, with the job that asks at its end or without one that gave up. */
  lemma StepKeepsTurns<T>(framed: Job<T> -> bool, l: Line<T>, step: Step<T>, later: seq<Job<T>>, a: seq<Job<T>>)
    requires InTurn(framed, l, step).Some?
    requires var t := InTurn(framed, l, step).value; Subsequence(a, t.entered + t.waiting + later)
    ensures Subsequence(a, l.entered + l.waiting + (if step.Ask? then [step.job] else []) + later)
  {
    var queue := l.entered + l.waiting;
    match step
    case Ask(job) =>
      assert l.entered + (l.waiting + [job]) + later == queue + [job] + later;
    case Withdraw(i) => WithdrawKeepsTurns(l, i, later, a);
    case Enter(_) =>
      assert l.entered + [l.waiting[0]] + Without(l.waiting, 0) + later == queue + [] + later;
    case Abort => AbortKeepsTurns(l, later, a);
    case _ =>
      assert queue + [] + later == queue + later;
  }

  lemma {:induction false} RunKeepsTurns<T>(framed: Job<T> -> bool, l: Line<T>, steps: seq<Step<T>>)
    requires Run((m, s) => InTurn(framed, m, s), l, steps).Some?
    ensures var t := Run((m, s) => InTurn(framed, m, s), l, steps).value;
      Subsequence(t.entered + t.waiting, l.entered + l.waiting + Asked(steps))
    decreases |steps|
  {
    var t := Run((m, s) => InTurn(framed, m, s), l, steps).value;
    if steps == [] {
      assert l.entered + l.waiting + [] == l.entered + l.waiting;
      SubsequenceOfItself(l.entered + l.waiting);
    } else {
      var next, asks := InTurn(framed, l, steps[0]).value, if steps[0].Ask? then [steps[0].job] else [];
      RunKeepsTurns(framed, next, steps[1..]);
      StepKeepsTurns(framed, l, steps[0], Asked(steps[1..]), t.entered + t.waiting);
      assert l.entered + l.waiting + asks + Asked(steps[1..]) == l.entered + l.waiting + (asks + Asked(steps[1..]));
    }
  }

  lemma {:induction false} InTurnIsFramedOnly<T>(framed: Job<T> -> bool, l: Line<T>, steps: seq<Step<T>>)
    requires Run((m, s) => InTurn(framed, m, s), l, steps).Some?
    ensures Run((m, s) => FramedOnly(framed, m, s), l, steps) == Run((m, s) => InTurn(framed, m, s), l, steps)
    decreases |steps|
  {
    if steps != [] {
      InTurnIsFramedOnly(framed, InTurn(framed, l, steps[0]).value, steps[1..]);
    }
  }

  lemma {:induction false} SubsequencePrefix<T>(a: seq<T>, b: seq<T>, w: nat)
    requires Subsequence(a, b) && w <= |a|
    ensures Subsequence(a[..w], b)
  {
    assert a == a[..w] + a[w..];
    PrefixOfSubsequence(a[..w], a[w..], b);
  }

  /** Topic messages and requests are received in the order in which their senders came for the lock:
      none is repeated and none overtakes another, however many senders there are, whoever of them gives
      up, and wherever the connection is cut. */
  lemma ReceivedInTurn(c: Parts, steps: seq<Step<Message>>, arrived: nat)
    requires LawfulParts(c)
    requires var run := Run((l, s) => InTurn(j => WritesMessage(c, j), l, s), EmptyLine<Message>(), steps);
      run.Some? && arrived <= |run.value.bytes|
    ensures Advancing(MessageCodec(c).decode)
    ensures var l := Run((l, s) => InTurn(j => WritesMessage(c, j), l, s), EmptyLine<Message>(), steps).value;
      Subsequence(DecodeAll(MessageCodec(c).decode, l.bytes[..arrived]).values, MessagesIn(Asked(steps)))
  {
    var framed := j => WritesMessage(c, j);
    InTurnIsFramedOnly(framed, EmptyLine<Message>(), steps);
    ServerDecodesEntered(c, steps, arrived);
    RunKeepsTurns(framed, EmptyLine<Message>(), steps);
    var l := Run((l, s) => InTurn(framed, l, s), EmptyLine<Message>(), steps).value;
    assert [] + [] + Asked(steps) == Asked(steps);
    PrefixOfSubsequence(l.entered, l.waiting, Asked(steps));
    MessagesOfSubsequence(l.entered, Asked(steps));
    SubsequencePrefix(MessagesIn(l.entered), MessagesIn(Asked(steps)), Whole(FramesIn(l.entered), arrived));
  }
}
