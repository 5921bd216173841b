/** Topic messages from one node to another, end to end: the sender's outbox for the receiver, the
    connection they share with the sender's requests, and the receiver's read loop. */
module TopicOrder {
  import opened Streams
  import opened Runs
  import opened MessageCodecs
  import opened ClientLoop
  import Box = Outbox

  /** One connection from the sender to the receiver, and the outbox that uses it, maybe among others. */
  datatype State = State(
    outbox: Box.State<TopicMessage>,
    written: seq<Message>)              // what went to the connection, each under the lock in one write

  datatype Step =
    | OutboxStep(step: Box.Step<TopicMessage>)
    | CallWrites(request: ServiceRequest, now: real)

  /** Only what can be encoded gets to the outbox or to the connection: senders encode first. */
  function Next(c: Parts, conn: nat, s: State, step: Step): Option<State> {
    match step
    case CallWrites(request, now) =>
      if MessageEncode(c, Service(request)).ok && s.outbox.clock <= now then
        Some(State(s.outbox.(clock := now), s.written + [Service(request)]))
      else None
    case OutboxStep(e) =>
      if e.Send? && !MessageEncode(c, Topic(e.data)).ok then None
      else match Box.Next(s.outbox, e)
        case None => None
        case Some(t) =>
          if e.Locked? && t.phase.Draining? && s.outbox.phase.Locking? && s.outbox.phase.conn == conn then
            Some(State(t, s.written + [Topic(s.outbox.phase.item.data)]))
          else
            Some(s.(outbox := t))
  }

  /** The messages of the log that went to the connection. */
  ghost function OnConnection(s: Box.State<TopicMessage>, conn: nat, log: seq<nat>): seq<nat> {
    if log == [] then []
    else
      var last := log[|log| - 1];
      OnConnection(s, conn, log[..|log| - 1])
        + if last < |s.fates| && s.fates[last].Written? && s.fates[last].conn == conn then [last] else []
  }

  ghost function DataAt(sent: seq<Box.Sent<TopicMessage>>, indices: seq<nat>): seq<TopicMessage>
    requires forall k :: 0 <= k < |indices| ==> indices[k] < |sent|
  {
    seq(|indices|, k requires 0 <= k < |indices| => sent[indices[k]].item.data)
  }

  lemma {:induction false} OnConnectionIsPart(s: Box.State<TopicMessage>, conn: nat, log: seq<nat>)
    requires forall i, j :: 0 <= i < j < |log| ==> log[i] < log[j]
    ensures IsPart(OnConnection(s, conn, log), log)
    decreases |log|
  {
    if log != [] {
      var front, last := log[..|log| - 1], log[|log| - 1];
      OnConnectionIsPart(s, conn, front);
      forall x | x in front ensures x in log && x < last {
      }
      assert last in log;
    }
  }

  /** Ascending, and all from the log. */
  ghost predicate IsPart(part: seq<nat>, log: seq<nat>) {
    && (forall k :: 0 <= k < |part| ==> part[k] in log)
    && (forall i, j :: 0 <= i < j < |part| ==> part[i] < part[j])
  }

  lemma {:induction false} OnConnectionStays(s: Box.State<TopicMessage>, t: Box.State<TopicMessage>, conn: nat,
      log: seq<nat>)
    requires forall k :: 0 <= k < |log| ==>
      log[k] < |s.fates| && log[k] < |t.fates| && s.fates[log[k]] == t.fates[log[k]]
    ensures OnConnection(t, conn, log) == OnConnection(s, conn, log)
    decreases |log|
  {
    if log != [] {
      OnConnectionStays(s, t, conn, log[..|log| - 1]);
    }
  }

  /** The topic messages on the connection are those the outbox wrote to it, in order. */
  ghost predicate Agree(c: Parts, conn: nat, s: State) {
    && Encodable(c, s.written)
    && (forall i :: 0 <= i < |s.outbox.sent| ==> MessageEncode(c, Topic(s.outbox.sent[i].item.data)).ok)
    && var part := OnConnection(s.outbox, conn, s.outbox.log);
       && (forall k :: 0 <= k < |part| ==> part[k] < |s.outbox.sent|)
       && Topics(s.written) == DataAt(s.outbox.sent, part)
  }

  lemma QuietStepKeepsAgree(c: Parts, conn: nat, s: State, t: Box.State<TopicMessage>)
    requires Agree(c, conn, s)
    requires s.outbox.sent <= t.sent && t.log == s.outbox.log
    requires forall k :: 0 <= k < |t.log| ==>
      t.log[k] < |t.fates| && t.log[k] < |s.outbox.fates| && t.fates[t.log[k]] == s.outbox.fates[t.log[k]]
    requires forall i :: 0 <= i < |t.sent| ==> MessageEncode(c, Topic(t.sent[i].item.data)).ok
    ensures Agree(c, conn, s.(outbox := t))
  {
    OnConnectionStays(s.outbox, t, conn, t.log);
    var part := OnConnection(s.outbox, conn, s.outbox.log);
    assert DataAt(t.sent, part) == DataAt(s.outbox.sent, part);
  }

  /** What a write does to the log and to what is on the connection. */
  lemma WriteLogs(conn: nat, o: Box.State<TopicMessage>, now: real)
    requires Box.Inv(o) && Box.Next(o, Box.Locked(now)).Some? && Box.Next(o, Box.Locked(now)).value.phase.Draining?
    ensures var t := Box.Next(o, Box.Locked(now)).value; var part := OnConnection(o, conn, o.log);
      && t.sent == o.sent && o.index < |o.sent| && o.phase.item == o.sent[o.index].item
      && OnConnection(t, conn, t.log) == if o.phase.conn == conn then part + [o.index] else part
  {
    var t := Box.Next(o, Box.Locked(now)).value;
    assert t.log[..|t.log| - 1] == o.log;
    assert forall k :: 0 <= k < |o.log| ==> o.log[k] != o.index;
    OnConnectionStays(o, t, conn, o.log);
    assert OnConnection(o, conn, o.log) + [] == OnConnection(o, conn, o.log);
  }

  lemma AppendKeepsAgree(c: Parts, conn: nat, s: State, t: State, i: nat)
    requires Agree(c, conn, s) && t.outbox.sent == s.outbox.sent && i < |s.outbox.sent|
    requires t.written == s.written + [Topic(s.outbox.sent[i].item.data)]
    requires OnConnection(t.outbox, conn, t.outbox.log) == OnConnection(s.outbox, conn, s.outbox.log) + [i]
    ensures Agree(c, conn, t)
  {
    var part := OnConnection(s.outbox, conn, s.outbox.log);
    TopicsAppend(s.written, [Topic(s.outbox.sent[i].item.data)]);
    assert DataAt(s.outbox.sent, part + [i]) == DataAt(s.outbox.sent, part) + [s.outbox.sent[i].item.data];
  }

  lemma ElsewhereKeepsAgree(c: Parts, conn: nat, s: State, t: State)
    requires Agree(c, conn, s) && t.outbox.sent == s.outbox.sent && t.written == s.written
    requires OnConnection(t.outbox, conn, t.outbox.log) == OnConnection(s.outbox, conn, s.outbox.log)
    ensures Agree(c, conn, t)
  {
  }

  /** What the task does once it has the lock. */
  lemma LockedWrites(c: Parts, conn: nat, s: State, now: real)
    requires Next(c, conn, s, OutboxStep(Box.Locked(now))).Some?
    requires Next(c, conn, s, OutboxStep(Box.Locked(now))).value.outbox.phase.Draining?
    ensures Box.Next(s.outbox, Box.Locked(now)).Some? && s.outbox.phase.Locking?
    ensures var t, o := Next(c, conn, s, OutboxStep(Box.Locked(now))).value, s.outbox;
      && t.outbox == Box.Next(o, Box.Locked(now)).value
      && t.written == if o.phase.conn == conn then s.written + [Topic(o.phase.item.data)] else s.written
  {
  }

  lemma LogKeepsAgree(c: Parts, conn: nat, s: State, t: State, now: real)
    requires Box.Inv(s.outbox) && Agree(c, conn, s) && s.outbox.phase.Locking?
    requires Box.Next(s.outbox, Box.Locked(now)) == Some(t.outbox) && t.outbox.phase.Draining?
    requires t.written ==
      if s.outbox.phase.conn == conn then s.written + [Topic(s.outbox.phase.item.data)] else s.written
    ensures Agree(c, conn, t)
  {
    WriteLogs(conn, s.outbox, now);
    if s.outbox.phase.conn == conn {
      AppendKeepsAgree(c, conn, s, t, s.outbox.index);
    } else {
      ElsewhereKeepsAgree(c, conn, s, t);
    }
  }

  lemma WriteKeepsAgree(c: Parts, conn: nat, s: State, now: real)
    requires Box.Inv(s.outbox) && Agree(c, conn, s) && Next(c, conn, s, OutboxStep(Box.Locked(now))).Some?
    requires Next(c, conn, s, OutboxStep(Box.Locked(now))).value.outbox.phase.Draining?
    ensures Agree(c, conn, Next(c, conn, s, OutboxStep(Box.Locked(now))).value)
  {
    LockedWrites(c, conn, s, now);
    LogKeepsAgree(c, conn, s, Next(c, conn, s, OutboxStep(Box.Locked(now))).value, now);
  }

  lemma CallKeepsAgree(c: Parts, conn: nat, s: State, request: ServiceRequest, now: real)
    requires Box.Inv(s.outbox) && Agree(c, conn, s) && Next(c, conn, s, CallWrites(request, now)).Some?
    ensures Agree(c, conn, Next(c, conn, s, CallWrites(request, now)).value)
  {
    TopicsAppend(s.written, [Service(request)]);
    assert Topics([Service(request)]) == [];
    OnConnectionStays(s.outbox, s.outbox.(clock := now), conn, s.outbox.log);
  }

  lemma StepKeepsAgree(c: Parts, conn: nat, s: State, step: Step)
    requires Box.Inv(s.outbox) && Agree(c, conn, s) && Next(c, conn, s, step).Some?
    ensures Agree(c, conn, Next(c, conn, s, step).value)
  {
    match step
    case CallWrites(request, now) =>
      CallKeepsAgree(c, conn, s, request, now);
    case OutboxStep(e) =>
      var t := Box.Next(s.outbox, e).value;
      if e.Locked? && t.phase.Draining? {
        WriteKeepsAgree(c, conn, s, e.now);
      } else {
        Box.OnlyWritingLogs(s.outbox, e);
        QuietStepKeepsAgree(c, conn, s, t);
      }
  }

  function Start(ttl: real, maxsize: int, clock: real): State {
    State(Box.Fresh(ttl, maxsize, clock), [])
  }

  function Reach(c: Parts, conn: nat, s: State, steps: seq<Step>): Option<State> {
    Run((t: State, step: Step) => Next(c, conn, t, step), s, steps)
  }

  lemma StepKeepsOutbox(c: Parts, conn: nat, s: State, step: Step)
    requires Box.Inv(s.outbox) && Next(c, conn, s, step).Some?
    ensures Box.Inv(Next(c, conn, s, step).value.outbox)
  {
    match step
    case CallWrites(request, now) => Box.ClockKeepsInv(s.outbox, now);
    case OutboxStep(e) => Box.StepKeepsInv(s.outbox, e);
  }

  lemma RunKeepsAgree(c: Parts, conn: nat, ttl: real, maxsize: int, clock: real, steps: seq<Step>)
    requires Reach(c, conn, Start(ttl, maxsize, clock), steps).Some?
    ensures var s := Reach(c, conn, Start(ttl, maxsize, clock), steps).value;
      Box.Inv(s.outbox) && Agree(c, conn, s)
  {
    var next := (t: State, step: Step) => Next(c, conn, t, step);
    var inv := (t: State) => Box.Inv(t.outbox) && Agree(c, conn, t);
    forall t: State, step: Step ensures KeptBy(next, inv, t, step) {
      if inv(t) && next(t, step).Some? {
        StepKeepsAgree(c, conn, t, step);
        StepKeepsOutbox(c, conn, t, step);
      }
    }
    RunKeeps(next, inv, Start(ttl, maxsize, clock), steps);
  }

  // ---------- At the receiver ----------

  /** `handled` is, at ascending positions, part of the messages sent: in order and without repeats. */
  ghost predicate InSendOrder(handled: seq<TopicMessage>, sent: seq<Box.Sent<TopicMessage>>, at: seq<nat>) {
    && |at| == |handled|
    && (forall k :: 0 <= k < |at| ==> at[k] < |sent| && handled[k] == sent[at[k]].item.data)
    && forall i, j :: 0 <= i < j < |at| ==> at[i] < at[j]
  }

  /** End to end: whatever the outbox drops, expires or fails to send, however its writes mix with
      requests, wherever the connection is cut, and whichever callback ends the receiver's loop, the topic
      messages the receiver handles are a part of those sent to it, in the order they were sent and none
      twice. */
  lemma TopicsArriveInOrder(c: Parts, conn: nat, ttl: real, maxsize: int, clock: real, steps: seq<Step>, arrived: nat,
                            fatal: nat -> bool)
    returns (at: seq<nat>)
    requires LawfulParts(c)
    requires var run := Reach(c, conn, Start(ttl, maxsize, clock), steps);
      run.Some? && arrived <= |Concat(FramesOf(c, run.value.written))|
    ensures Advancing(MessageCodec(c).decode)
    ensures var s := Reach(c, conn, Start(ttl, maxsize, clock), steps).value;
      var log := DecodeAll(MessageCodec(c).decode, Concat(FramesOf(c, s.written))[..arrived]);
      && log.ending == AtEof
      && InSendOrder(Topics(Dispatched(log.values, fatal, 0)), s.outbox.sent, at)
  {
    var s := Reach(c, conn, Start(ttl, maxsize, clock), steps).value;
    RunKeepsAgree(c, conn, ttl, maxsize, clock, steps);
    TruncationSafe(c, s.written, arrived);
    var log := DecodeAll(MessageCodec(c).decode, Concat(FramesOf(c, s.written))[..arrived]);
    DispatchedExactly(log.values, fatal, 0);
    at := PrefixInSendOrder(c, conn, s, Dispatched(log.values, fatal, 0));
  }

  lemma PrefixInSendOrder(c: Parts, conn: nat, s: State, dispatched: seq<Message>) returns (at: seq<nat>)
    requires Box.Inv(s.outbox) && Agree(c, conn, s) && dispatched <= s.written
    ensures InSendOrder(Topics(dispatched), s.outbox.sent, at)
  {
    assert s.written[..|dispatched|] == dispatched;
    KindsOfPrefix(s.written, |dispatched|);
    var part := OnConnection(s.outbox, conn, s.outbox.log);
    OnConnectionIsPart(s.outbox, conn, s.outbox.log);
    at := part[..|Topics(dispatched)|];
  }

  // ---------- Topic messages against requests ----------

  /** The outbox task runs only when the sender lets it, and then still has to get a connection. */
  function Overtaking(m: TopicMessage, r: ServiceRequest, conn: nat, now: real): seq<Step> {
    [OutboxStep(Box.Send(m, now)), CallWrites(r, now), OutboxStep(Box.Get(now)), OutboxStep(Box.Connected(conn)),
      OutboxStep(Box.Locked(now))]
  }

  /** Between the two kinds there is no order: any request can overtake any topic message that was sent
      to the same node before it. */
  lemma RequestOvertakesTopic(c: Parts, conn: nat, ttl: real, maxsize: int, now: real, m: TopicMessage,
                              r: ServiceRequest)
    requires 0.0 < ttl && MessageEncode(c, Topic(m)).ok && MessageEncode(c, Service(r)).ok
    ensures var run := Reach(c, conn, Start(ttl, maxsize, now), Overtaking(m, r, conn, now));
      run.Some? && run.value.written == [Service(r), Topic(m)]
  {
    var next := (t: State, step: Step) => Next(c, conn, t, step);
    var s, es := Start(ttl, maxsize, now), Overtaking(m, r, conn, now);
    var s1 := next(s, es[0]).value;
    var s2 := next(s1, es[1]).value;
    var s3 := next(s2, es[2]).value;
    var s4 := next(s3, es[3]).value;
    var s5 := next(s4, es[4]).value;
    RunAlong(next, [s, s1, s2, s3, s4, s5], es);
  }

  // ---------- Exactly when a request overtakes ----------

  /** The outbox still has, in its queue or in hand, a message in time that can be written to the connection. */
  ghost predicate CanStillWrite(o: Box.State<TopicMessage>, conn: nat) {
    && !o.phase.Stopped?
    && (|| (o.phase.Connecting? && o.clock < o.phase.item.deadline)
        || (o.phase.Locking? && o.phase.conn == conn && o.clock < o.phase.item.deadline)
        || exists k :: 0 <= k < |o.queue| && o.clock < o.queue[k].deadline)
  }

  /** The messages on the connection, by the order of their sends. */
  ghost function Part(s: State, conn: nat): seq<nat> {
    OnConnection(s.outbox, conn, s.outbox.log)
  }

  /** Since s a message that had been sent by then was written to the connection. */
  ghost predicate Late(s: State, u: State, conn: nat) {
    exists j :: |Part(s, conn)| <= j < |Part(u, conn)| && Part(u, conn)[j] < |s.outbox.sent|
  }

  /** A step writes at most the message in hand, and at the end. */
  lemma PartGrows(c: Parts, conn: nat, s: State, step: Step)
    requires Box.Inv(s.outbox) && Next(c, conn, s, step).Some?
    ensures var t := Next(c, conn, s, step).value;
      && s.outbox.sent <= t.outbox.sent && s.written <= t.written
      && Part(t, conn) ==
           if step.OutboxStep? && step.step.Locked? && t.outbox.phase.Draining? && s.outbox.phase.conn == conn
           then Part(s, conn) + [s.outbox.index] else Part(s, conn)
  {
    var t := Next(c, conn, s, step).value;
    match step
    case CallWrites(_, _) => OnConnectionStays(s.outbox, t.outbox, conn, s.outbox.log);
    case OutboxStep(e) =>
      if e.Locked? && t.outbox.phase.Draining? {
        WriteLogs(conn, s.outbox, e.now);
      } else {
        Box.OnlyWritingLogs(s.outbox, e);
        OnConnectionStays(s.outbox, t.outbox, conn, s.outbox.log);
      }
  }

  /** Of the first n messages none can be written to the connection any more. */
  ghost predicate Safe(o: Box.State<TopicMessage>, conn: nat, n: nat) {
    || o.phase.Stopped?
    || (&& (o.phase.Connecting? && o.index < n ==> o.phase.item.deadline <= o.clock)
        && (o.phase.Locking? && o.index < n ==> o.phase.conn != conn || o.phase.item.deadline <= o.clock)
        && forall k :: 0 <= k < |o.queue| && |o.fates| + k < n ==> o.queue[k].deadline <= o.clock)
  }

  lemma SendKeepsSafe(o: Box.State<TopicMessage>, data: TopicMessage, now: real, conn: nat, n: nat)
    requires Box.Inv(o) && Safe(o, conn, n) && n <= |o.sent| && Box.StepSend(o, data, now).Some?
    ensures Safe(Box.StepSend(o, data, now).value, conn, n)
  {
  }

  lemma StepKeepsSafe(c: Parts, conn: nat, s: State, step: Step, n: nat)
    requires Box.Inv(s.outbox) && Safe(s.outbox, conn, n) && n <= |s.outbox.sent| && Next(c, conn, s, step).Some?
    ensures Safe(Next(c, conn, s, step).value.outbox, conn, n)
    ensures var t := Next(c, conn, s, step).value;
      step.OutboxStep? && step.step.Locked? && t.outbox.phase.Draining? && s.outbox.phase.conn == conn ==>
        n <= s.outbox.index
  {
    if step.OutboxStep? && step.step.Send? {
      SendKeepsSafe(s.outbox, step.step.data, step.step.now, conn, n);
    }
  }

  lemma {:induction false} RunKeepsSafe(c: Parts, conn: nat, s: State, steps: seq<Step>, n: nat)
    requires Box.Inv(s.outbox) && Safe(s.outbox, conn, n) && n <= |s.outbox.sent| && Reach(c, conn, s, steps).Some?
    ensures var u := Reach(c, conn, s, steps).value;
      Part(s, conn) <= Part(u, conn) && forall j :: |Part(s, conn)| <= j < |Part(u, conn)| ==> n <= Part(u, conn)[j]
    decreases |steps|
  {
    if steps != [] {
      var t := Next(c, conn, s, steps[0]).value;
      StepKeepsOutbox(c, conn, s, steps[0]);
      StepKeepsSafe(c, conn, s, steps[0], n);
      PartGrows(c, conn, s, steps[0]);
      RunKeepsSafe(c, conn, t, steps[1..], n);
    }
  }

  lemma {:induction false} RunExtends(c: Parts, conn: nat, s: State, steps: seq<Step>)
    requires Box.Inv(s.outbox) && Reach(c, conn, s, steps).Some?
    ensures var u := Reach(c, conn, s, steps).value;
      Part(s, conn) <= Part(u, conn) && s.outbox.sent <= u.outbox.sent && s.written <= u.written
    decreases |steps|
  {
    if steps != [] {
      StepKeepsOutbox(c, conn, s, steps[0]);
      PartGrows(c, conn, s, steps[0]);
      RunExtends(c, conn, Next(c, conn, s, steps[0]).value, steps[1..]);
    }
  }

  // ---------- How a message gets behind the request ----------

  ghost predicate Overtaken(c: Parts, conn: nat, s: State, steps: seq<Step>) {
    Reach(c, conn, s, steps).Some? && Late(s, Reach(c, conn, s, steps).value, conn)
  }

  lemma StepFirst(c: Parts, conn: nat, s: State, e: Box.Step<TopicMessage>, steps: seq<Step>)
    requires Box.Inv(s.outbox) && Next(c, conn, s, OutboxStep(e)).Some? && !e.Locked? && !e.Send?
    requires Overtaken(c, conn, Next(c, conn, s, OutboxStep(e)).value, steps)
    ensures Overtaken(c, conn, s, [OutboxStep(e)] + steps)
  {
    PartGrows(c, conn, s, OutboxStep(e));
    assert ([OutboxStep(e)] + steps)[1..] == steps;
    Box.OnlyWritingLogs(s.outbox, e);
  }

  lemma LockingOvertaken(c: Parts, conn: nat, s: State) returns (steps: seq<Step>)
    requires Box.Inv(s.outbox) && s.outbox.phase.Locking? && s.outbox.phase.conn == conn
    requires s.outbox.clock < s.outbox.phase.item.deadline
    ensures Overtaken(c, conn, s, steps)
  {
    var e := OutboxStep(Box.Locked(s.outbox.clock));
    var t := Next(c, conn, s, e).value;
    PartGrows(c, conn, s, e);
    steps := [e];
    RunAlong((u: State, step: Step) => Next(c, conn, u, step), [s, t], steps);
    assert Part(t, conn)[|Part(s, conn)|] == s.outbox.index;
  }

  lemma ConnectingOvertaken(c: Parts, conn: nat, s: State) returns (steps: seq<Step>)
    requires Box.Inv(s.outbox) && s.outbox.phase.Connecting? && s.outbox.clock < s.outbox.phase.item.deadline
    ensures Overtaken(c, conn, s, steps)
  {
    StepKeepsOutbox(c, conn, s, OutboxStep(Box.Connected(conn)));
    var more := LockingOvertaken(c, conn, Next(c, conn, s, OutboxStep(Box.Connected(conn))).value);
    StepFirst(c, conn, s, Box.Connected(conn), more);
    steps := [OutboxStep(Box.Connected(conn))] + more;
  }

  lemma {:induction false} IdleOvertaken(c: Parts, conn: nat, s: State) returns (steps: seq<Step>)
    requires Box.Inv(s.outbox) && s.outbox.phase.Idle?
    requires exists k :: 0 <= k < |s.outbox.queue| && s.outbox.clock < s.outbox.queue[k].deadline
    ensures Overtaken(c, conn, s, steps)
    decreases |s.outbox.queue|
  {
    var e := Box.Get(s.outbox.clock);
    var t := Next(c, conn, s, OutboxStep(e)).value;
    StepKeepsOutbox(c, conn, s, OutboxStep(e));
    var more;
    if s.outbox.clock < s.outbox.queue[0].deadline {
      more := ConnectingOvertaken(c, conn, t);
    } else {
      var k :| 0 <= k < |s.outbox.queue| && s.outbox.clock < s.outbox.queue[k].deadline;
      assert t.outbox.queue[k - 1] == s.outbox.queue[k];
      more := IdleOvertaken(c, conn, t);
    }
    StepFirst(c, conn, s, e, more);
    steps := [OutboxStep(e)] + more;
  }

  lemma CanWriteOvertaken(c: Parts, conn: nat, s: State) returns (steps: seq<Step>)
    requires Box.Inv(s.outbox) && CanStillWrite(s.outbox, conn)
    ensures Overtaken(c, conn, s, steps)
  {
    var o := s.outbox;
    if o.phase.Connecting? && o.clock < o.phase.item.deadline {
      steps := ConnectingOvertaken(c, conn, s);
    } else if o.phase.Locking? && o.phase.conn == conn && o.clock < o.phase.item.deadline {
      steps := LockingOvertaken(c, conn, s);
    } else if o.phase.Idle? {
      steps := IdleOvertaken(c, conn, s);
    } else {
      var e := if o.phase.Draining? then Box.Drained else Box.Fail;
      StepKeepsOutbox(c, conn, s, OutboxStep(e));
      var more := IdleOvertaken(c, conn, Next(c, conn, s, OutboxStep(e)).value);
      StepFirst(c, conn, s, e, more);
      steps := [OutboxStep(e)] + more;
    }
  }

  /** A request written to the connection can overtake a topic message sent before it, in some continuation,
      exactly if at that moment the outbox has a message in time in its queue, or in hand and not bound for
      another connection. If it has none, no message sent before the request is ever written behind it. */
  lemma OvertakesExactly(c: Parts, conn: nat, ttl: real, maxsize: int, clock: real, before: seq<Step>,
                         r: ServiceRequest, now: real)
    requires Reach(c, conn, Start(ttl, maxsize, clock), before).Some?
    requires var s := Reach(c, conn, Start(ttl, maxsize, clock), before).value;
      Next(c, conn, s, CallWrites(r, now)).Some?
    ensures var s := Reach(c, conn, Start(ttl, maxsize, clock), before).value;
      var t := Next(c, conn, s, CallWrites(r, now)).value;
      (exists steps :: Overtaken(c, conn, t, steps)) <==> CanStillWrite(s.outbox.(clock := now), conn)
  {
    RunKeepsAgree(c, conn, ttl, maxsize, clock, before);
    var s := Reach(c, conn, Start(ttl, maxsize, clock), before).value;
    var t := Next(c, conn, s, CallWrites(r, now)).value;
    StepKeepsOutbox(c, conn, s, CallWrites(r, now));
    if CanStillWrite(t.outbox, conn) {
      var steps := CanWriteOvertaken(c, conn, t);
    } else {
      forall steps ensures !Overtaken(c, conn, t, steps) {
        if Reach(c, conn, t, steps).Some? {
          RunKeepsSafe(c, conn, t, steps, |t.outbox.sent|);
        }
      }
    }
  }

  lemma DataAtAppend(sent: seq<Box.Sent<TopicMessage>>, a: seq<nat>, b: seq<nat>)
    requires forall k :: 0 <= k < |a| ==> a[k] < |sent|
    requires forall k :: 0 <= k < |b| ==> b[k] < |sent|
    ensures DataAt(sent, a + b) == DataAt(sent, a) + DataAt(sent, b)
  {
  }

  lemma DataAtStays(sent: seq<Box.Sent<TopicMessage>>, more: seq<Box.Sent<TopicMessage>>, a: seq<nat>)
    requires sent <= more && forall k :: 0 <= k < |a| ==> a[k] < |sent|
    ensures DataAt(more, a) == DataAt(sent, a)
  {
  }

  lemma SameRest<T>(a: seq<T>, b: seq<T>, c: seq<T>)
    requires a + b == a + c
    ensures b == c
  {
    assert b == (a + b)[|a|..] && c == (a + c)[|a|..];
  }

  lemma WrittenSince(c: Parts, conn: nat, t: State, u: State)
    requires Agree(c, conn, t) && Agree(c, conn, u)
    requires t.written <= u.written && t.outbox.sent <= u.outbox.sent && Part(t, conn) <= Part(u, conn)
    ensures Topics(u.written[|t.written|..]) == DataAt(u.outbox.sent, Part(u, conn)[|Part(t, conn)|..])
  {
    var later, part, all := u.written[|t.written|..], Part(t, conn), Part(u, conn);
    var more := all[|part|..];
    assert forall k :: 0 <= k < |more| ==> more[k] == all[|part| + k];
    TopicsAppend(t.written, later);
    assert u.written == t.written + later && all == part + more;
    DataAtAppend(u.outbox.sent, part, more);
    DataAtStays(t.outbox.sent, u.outbox.sent, part);
    SameRest(Topics(t.written), Topics(later), DataAt(u.outbox.sent, more));
  }

  /** What `Late` means on the connection: of two moments of a run, the topic messages written between them
      are, in order, the messages that the later log has and the earlier one has not. */
  lemma LateIsBehind(c: Parts, conn: nat, ttl: real, maxsize: int, clock: real, before: seq<Step>, after: seq<Step>)
    requires Reach(c, conn, Start(ttl, maxsize, clock), before).Some?
    requires Reach(c, conn, Reach(c, conn, Start(ttl, maxsize, clock), before).value, after).Some?
    ensures var t := Reach(c, conn, Start(ttl, maxsize, clock), before).value;
      var u := Reach(c, conn, t, after).value;
      && t.written <= u.written && Part(t, conn) <= Part(u, conn)
      && (forall k :: 0 <= k < |Part(u, conn)| ==> Part(u, conn)[k] < |u.outbox.sent|)
      && Topics(u.written[|t.written|..]) == DataAt(u.outbox.sent, Part(u, conn)[|Part(t, conn)|..])
  {
    RunKeepsAgree(c, conn, ttl, maxsize, clock, before);
    RunAppend((x: State, step: Step) => Next(c, conn, x, step), Start(ttl, maxsize, clock), before, after);
    RunKeepsAgree(c, conn, ttl, maxsize, clock, before + after);
    var t := Reach(c, conn, Start(ttl, maxsize, clock), before).value;
    RunExtends(c, conn, t, after);
    WrittenSince(c, conn, t, Reach(c, conn, t, after).value);
  }
}
