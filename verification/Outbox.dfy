/** src/rosy/node/topic/outbox.py: the bounded queue of topic messages for one node, and the consumer that
    sends them. */
module Outbox {
  import opened Streams
  import opened Runs

  /** What is in the queue. */
  datatype Item<M> = Item(deadline: real, data: M)

  /** A message as its sender handed it over, and when. */
  datatype Sent<M> = Sent(at: real, item: Item<M>)

  /** What became of a message that has left the queue. */
  datatype Fate =
    | InFlight(taken: real)           // the sending task is at it and took it at that time
    | Written(conn: nat, at: real)    // handed to connection `conn` at time `at`
    | Expired(at: real)               // found too old at time `at`
    | Dropped(cause: nat)              // to make room for message `cause`
    | NotSent                         // connecting or writing failed
    | Abandoned                       // by the stop of the outbox

  /** Where the sending task is suspended. */
  datatype Phase<M> = Idle | Connecting(item: Item<M>) | Locking(item: Item<M>, conn: nat) | Draining | Stopped

  datatype State<M> = State(
    ttl: real,
    maxsize: int,
    queue: seq<Item<M>>,
    unfinished: int,         // asyncio.Queue's counter of unfinished tasks
    phase: Phase<M>,
    clock: real,             // the latest time read
    sent: seq<Sent<M>>,      // history: all messages, in order of their sends
    fates: seq<Fate>,        // history: of those that have left the queue, in the same order
    index: nat,              // history: which message the consumer is at, or was at last
    log: seq<nat>)           // history: the messages written, in order of writing

  datatype Step<M> =
    | Send(data: M, now: real)
    | Get(now: real)         // the consumer takes the next item and looks at its deadline
    | Connected(conn: nat)   // it has a connection and waits for the writer's lock
    | Locked(now: real)      // it has the lock, looks again, and writes
    | Fail                   // connecting or writing raises
    | Drained                // draining returns or raises
    | Stop                   // the consumer is cancelled

  predicate Full<M>(s: State<M>) {
    s.maxsize > 0 && |s.queue| >= s.maxsize
  }

  predicate Busy<M>(p: Phase<M>) {
    p.Connecting? || p.Locking? || p.Draining?
  }

  function Next<M>(s: State<M>, step: Step<M>): Option<State<M>> {
    match step
    case Send(data, now) => StepSend(s, data, now)
    case Get(now) =>
      if !s.phase.Idle? || s.queue == [] || now < s.clock then None
      else
        var t := s.(queue := s.queue[1..], clock := now, index := |s.fates|);
        if now >= s.queue[0].deadline then
          Some(t.(fates := s.fates + [Expired(now)], unfinished := s.unfinished - 1))
        else
          Some(t.(fates := s.fates + [InFlight(now)], phase := Connecting(s.queue[0])))
    case Connected(conn) =>
      if s.phase.Connecting? then Some(s.(phase := Locking(s.phase.item, conn))) else None
    case Locked(now) =>
      if !s.phase.Locking? || now < s.clock || s.index >= |s.fates| then None
      else if now >= s.phase.item.deadline then
        Some(s.(fates := s.fates[s.index := Expired(now)], unfinished := s.unfinished - 1, phase := Idle, clock := now))
      else
        Some(s.(fates := s.fates[s.index := Fate.Written(s.phase.conn, now)], log := s.log + [s.index],
          phase := Draining, clock := now))
    case Fail =>
      if (s.phase.Connecting? || s.phase.Locking?) && s.index < |s.fates| then
        Some(s.(fates := s.fates[s.index := NotSent], unfinished := s.unfinished - 1, phase := Idle))
      else None
    case Drained =>
      if s.phase.Draining? then Some(s.(unfinished := s.unfinished - 1, phase := Idle)) else None
    case Stop =>
      if s.phase.Stopped? then None
      else if (s.phase.Connecting? || s.phase.Locking?) && s.index < |s.fates| then
        Some(s.(fates := s.fates[s.index := Abandoned], unfinished := s.unfinished - 1, phase := Stopped))
      else
        Some(s.(unfinished := if s.phase.Draining? then s.unfinished - 1 else s.unfinished, phase := Stopped))
  }

  /** A stopped outbox refuses; a full queue first loses its oldest item. */
  function StepSend<M>(s: State<M>, data: M, now: real): Option<State<M>> {
    if s.phase.Stopped? || now < s.clock then None
    else
      var item := Item(now + s.ttl, data);
      var t := s.(clock := now, sent := s.sent + [Sent(now, item)]);
      if Full(s) then
        Some(t.(queue := s.queue[1..] + [item], fates := s.fates + [Dropped(|s.sent|)]))
      else
        Some(t.(queue := s.queue + [item], unfinished := s.unfinished + 1))
  }

  function Fresh<M>(ttl: real, maxsize: int, clock: real): State<M> {
    State(ttl, maxsize, [], 0, Idle, clock, [], [], 0, [])
  }

  // ---------- The invariant ----------

  /** What has left the queue and what is in it make up what was sent, in order. */
  ghost predicate Conserved<M>(s: State<M>) {
    && |s.fates| + |s.queue| == |s.sent|
    && forall k :: 0 <= k < |s.queue| ==> s.queue[k] == s.sent[|s.fates| + k].item
  }

  /** At most one message is in flight, the one the consumer is at; what left the queue behind it was dropped. */
  ghost predicate OneInFlight<M>(s: State<M>) {
    && (Busy(s.phase) ==> s.index < |s.fates| && s.index < |s.sent|)
    && (s.phase.Connecting? || s.phase.Locking? ==>
          s.fates[s.index].InFlight? && s.phase.item == s.sent[s.index].item)
    && (s.phase.Draining? ==> s.fates[s.index].Written?)
    && forall i :: 0 <= i < |s.fates| ==>
         && (s.fates[i].InFlight? ==> i == s.index && (s.phase.Connecting? || s.phase.Locking?))
         && (Busy(s.phase) && i > s.index ==> s.fates[i].Dropped?)
  }

  ghost predicate Counted<M>(s: State<M>) {
    && s.unfinished == |s.queue| + (if Busy(s.phase) then 1 else 0)
    && (s.maxsize > 0 ==> |s.queue| <= s.maxsize)
  }

  /** Message i is dropped only by the send of message i + maxsize. */
  ghost predicate DroppedByTheLast<M>(s: State<M>) {
    forall i :: 0 <= i < |s.fates| && s.fates[i].Dropped? ==>
      s.maxsize > 0 && s.fates[i].cause == i + s.maxsize < |s.sent|
  }

  ghost predicate OnTime<M>(s: State<M>) {
    && (forall i :: 0 <= i < |s.sent| ==> s.sent[i].at <= s.clock && s.sent[i].item.deadline == s.sent[i].at + s.ttl)
    && (forall i, j :: 0 <= i < j < |s.sent| ==> s.sent[i].at <= s.sent[j].at)
    && (forall i :: 0 <= i < |s.fates| && s.fates[i].Written? ==>
          i < |s.sent| && s.sent[i].at <= s.fates[i].at < s.sent[i].at + s.ttl)
  }

  /** What the consumer is at was in time when it was taken, and what has expired was not. */
  ghost predicate LookedAt<M>(s: State<M>) {
    forall i :: 0 <= i < |s.fates| && i < |s.sent| ==>
      && (s.fates[i].InFlight? ==> s.sent[i].at <= s.fates[i].taken < s.sent[i].at + s.ttl)
      && (s.fates[i].Expired? ==> s.sent[i].at + s.ttl <= s.fates[i].at)
  }

  /** The log has the written messages, each once, in send order. */
  ghost predicate LogInOrder<M>(s: State<M>) {
    && (forall i :: 0 <= i < |s.log| ==> s.log[i] < |s.fates| && s.fates[s.log[i]].Written?)
    && (forall i, j :: 0 <= i < j < |s.log| ==> s.log[i] < s.log[j])
    && (forall i :: 0 <= i < |s.fates| && s.fates[i].Written? ==> i in s.log)
  }

  ghost predicate Inv<M>(s: State<M>) {
    Conserved(s) && OneInFlight(s) && Counted(s) && DroppedByTheLast(s) && OnTime(s) && LookedAt(s) && LogInOrder(s)
  }

  lemma SendKeepsConserved<M>(s: State<M>, data: M, now: real)
    requires Inv(s) && StepSend(s, data, now).Some?
    ensures Conserved(StepSend(s, data, now).value)
  {
  }

  lemma StepKeepsConserved<M>(s: State<M>, step: Step<M>)
    requires Inv(s) && Next(s, step).Some?
    ensures Conserved(Next(s, step).value)
  {
    match step
    case Send(data, now) => SendKeepsConserved(s, data, now);
    case Get(now) =>
      assert forall k :: 0 <= k < |s.queue| - 1 ==> s.queue[1..][k] == s.queue[k + 1];
    case _ =>
  }

  lemma StepKeepsOneInFlight<M>(s: State<M>, step: Step<M>)
    requires Inv(s) && Next(s, step).Some?
    ensures OneInFlight(Next(s, step).value)
  {
  }

  lemma StepKeepsCounted<M>(s: State<M>, step: Step<M>)
    requires Inv(s) && Next(s, step).Some?
    ensures Counted(Next(s, step).value)
  {
  }

  lemma StepKeepsDroppedByTheLast<M>(s: State<M>, step: Step<M>)
    requires Inv(s) && Next(s, step).Some?
    ensures DroppedByTheLast(Next(s, step).value)
  {
  }

  lemma SendKeepsOnTime<M>(s: State<M>, data: M, now: real)
    requires Inv(s) && StepSend(s, data, now).Some?
    ensures OnTime(StepSend(s, data, now).value)
  {
  }

  lemma LockedKeepsOnTime<M>(s: State<M>, now: real)
    requires Inv(s) && Next(s, Step.Locked(now)).Some?
    ensures OnTime(Next(s, Step.Locked(now)).value)
  {
    var t := Next(s, Step.Locked(now)).value;
    assert forall i :: 0 <= i < |s.fates| && i != s.index ==> t.fates[i] == s.fates[i];
  }

  /** Nothing is sent or written. */
  lemma QuietKeepsOnTime<M>(s: State<M>, t: State<M>)
    requires OnTime(s) && t.sent == s.sent && t.ttl == s.ttl && s.clock <= t.clock
    requires forall i :: 0 <= i < |t.fates| && t.fates[i].Written? ==> i < |s.fates| && s.fates[i] == t.fates[i]
    ensures OnTime(t)
  {
  }

  lemma StepKeepsOnTime<M>(s: State<M>, step: Step<M>)
    requires Inv(s) && Next(s, step).Some?
    ensures OnTime(Next(s, step).value)
  {
    match step
    case Send(data, now) => SendKeepsOnTime(s, data, now);
    case Locked(now) => LockedKeepsOnTime(s, now);
    case _ => QuietKeepsOnTime(s, Next(s, step).value);
  }

  lemma StepKeepsLookedAt<M>(s: State<M>, step: Step<M>)
    requires Inv(s) && Next(s, step).Some?
    ensures LookedAt(Next(s, step).value)
  {
  }

  lemma LockedKeepsLogInOrder<M>(s: State<M>, now: real)
    requires Inv(s) && Next(s, Step.Locked(now)).Some?
    ensures LogInOrder(Next(s, Step.Locked(now)).value)
  {
    var t := Next(s, Step.Locked(now)).value;
    assert forall i :: 0 <= i < |s.fates| && i != s.index ==> t.fates[i] == s.fates[i];
    assert s.index !in s.log;
    assert forall i :: 0 <= i < |s.log| ==> s.log[i] in s.log && t.log[i] == s.log[i];
    if t.phase.Draining? {
      assert t.log[|s.log|] == s.index;
    }
  }

  lemma SendKeepsLogInOrder<M>(s: State<M>, data: M, now: real)
    requires Inv(s) && StepSend(s, data, now).Some?
    ensures LogInOrder(StepSend(s, data, now).value)
  {
  }

  lemma StepKeepsLogInOrder<M>(s: State<M>, step: Step<M>)
    requires Inv(s) && Next(s, step).Some?
    ensures LogInOrder(Next(s, step).value)
  {
    match step
    case Locked(now) => LockedKeepsLogInOrder(s, now);
    case Send(data, now) => SendKeepsLogInOrder(s, data, now);
    case _ =>
  }

  lemma StepKeepsInv<M>(s: State<M>, step: Step<M>)
    requires Inv(s) && Next(s, step).Some?
    ensures Inv(Next(s, step).value)
  {
    StepKeepsConserved(s, step);
    StepKeepsOneInFlight(s, step);
    StepKeepsCounted(s, step);
    StepKeepsDroppedByTheLast(s, step);
    StepKeepsOnTime(s, step);
    StepKeepsLookedAt(s, step);
    StepKeepsLogInOrder(s, step);
  }

  /** Time passes. */
  lemma ClockKeepsInv<M>(s: State<M>, now: real)
    requires Inv(s) && s.clock <= now
    ensures Inv(s.(clock := now))
  {
    var t := s.(clock := now);
    assert Conserved(t) && OneInFlight(t) && Counted(t) && DroppedByTheLast(t) && LookedAt(t) && LogInOrder(t);
  }

  // ---------- Every run ----------

  function Reach<M>(s: State<M>, steps: seq<Step<M>>): Option<State<M>> {
    Run((t: State<M>, step: Step<M>) => Next(t, step), s, steps)
  }

  lemma RunKeepsInv<M(!new)>(s: State<M>, steps: seq<Step<M>>)
    requires Inv(s) && Reach(s, steps).Some?
    ensures Inv(Reach(s, steps).value)
  {
    var next := (t: State<M>, step: Step<M>) => Next(t, step);
    var inv := (t: State<M>) => Inv(t);
    forall t: State<M>, step: Step<M> ensures KeptBy(next, inv, t, step) {
      if Inv(t) && Next(t, step).Some? {
        StepKeepsInv(t, step);
      }
    }
    RunKeeps(next, inv, s, steps);
  }

  function Items<M>(sent: seq<Sent<M>>): seq<Item<M>> {
    seq(|sent|, i requires 0 <= i < |sent| => sent[i].item)
  }

  /** Conservation: the messages that have left the queue, followed by the queue, are the messages sent;
      of those that have left at most one is still in flight, the written ones were written in send order
      and each once, message i was dropped only for message i + maxsize, and the queue's counter is its
      length plus one for a message being worked on. */
  lemma NothingIsLost<M(!new)>(ttl: real, maxsize: int, clock: real, steps: seq<Step<M>>)
    requires Reach(Fresh<M>(ttl, maxsize, clock), steps).Some?
    ensures var s := Reach(Fresh<M>(ttl, maxsize, clock), steps).value;
      && |s.fates| <= |s.sent|
      && Items(s.sent[..|s.fates|]) + s.queue == Items(s.sent)
      && (forall i, j :: 0 <= i < j < |s.fates| ==> !(s.fates[i].InFlight? && s.fates[j].InFlight?))
      && (forall i, j :: 0 <= i < j < |s.log| ==> s.log[i] < s.log[j])
      && (forall i: nat :: i in s.log <==> i < |s.fates| && s.fates[i].Written?)
      && (forall i :: 0 <= i < |s.fates| && s.fates[i].Dropped? ==>
        maxsize > 0 && s.fates[i].cause == i + maxsize < |s.sent|)
      && s.unfinished == |s.queue| + (if Busy(s.phase) then 1 else 0)
      && (maxsize > 0 ==> |s.queue| <= maxsize)
  {
    RunKeepsInv(Fresh<M>(ttl, maxsize, clock), steps);
    SettingsStay(Fresh<M>(ttl, maxsize, clock), steps);
    var s := Reach(Fresh<M>(ttl, maxsize, clock), steps).value;
    assert forall i :: 0 <= i < |s.queue| ==> s.queue[i] == s.sent[|s.fates| + i].item;
  }

  lemma {:induction false} SettingsStay<M>(s: State<M>, steps: seq<Step<M>>)
    requires Reach(s, steps).Some?
    ensures Reach(s, steps).value.ttl == s.ttl && Reach(s, steps).value.maxsize == s.maxsize
    decreases |steps|
  {
    if steps != [] {
      SettingsStay(Next(s, steps[0]).value, steps[1..]);
    }
  }

  /** No message is written `ttl` or more after it was sent, however long connecting or waiting for the
      lock took, and queued deadlines do not decrease from front to back. */
  lemma NothingIsLate<M(!new)>(ttl: real, maxsize: int, clock: real, steps: seq<Step<M>>)
    requires Reach(Fresh<M>(ttl, maxsize, clock), steps).Some?
    ensures var s := Reach(Fresh<M>(ttl, maxsize, clock), steps).value;
      && |s.fates| <= |s.sent|
      && (forall i :: 0 <= i < |s.fates| && s.fates[i].Written? ==> s.sent[i].at <= s.fates[i].at < s.sent[i].at + ttl)
      && (forall i, j :: 0 <= i < j < |s.queue| ==> s.queue[i].deadline <= s.queue[j].deadline)
  {
    RunKeepsInv(Fresh<M>(ttl, maxsize, clock), steps);
    SettingsStay(Fresh<M>(ttl, maxsize, clock), steps);
    var s := Reach(Fresh<M>(ttl, maxsize, clock), steps).value;
    assert forall i :: 0 <= i < |s.queue| ==> s.queue[i].deadline == s.sent[|s.fates| + i].at + ttl;
  }

  /** No connection is asked for, and no lock, for a message that was too old when the consumer took it; and
      no message counts as expired before its `ttl` is over. */
  lemma NothingExpiresEarly<M(!new)>(ttl: real, maxsize: int, clock: real, steps: seq<Step<M>>)
    requires Reach(Fresh<M>(ttl, maxsize, clock), steps).Some?
    ensures var s := Reach(Fresh<M>(ttl, maxsize, clock), steps).value;
      && |s.fates| <= |s.sent|
      && (forall i :: 0 <= i < |s.fates| && s.fates[i].Expired? ==> s.sent[i].at + ttl <= s.fates[i].at)
      && (s.phase.Connecting? || s.phase.Locking? ==>
            && s.index < |s.fates| && s.phase.item == s.sent[s.index].item && s.fates[s.index].InFlight?
            && s.sent[s.index].at <= s.fates[s.index].taken < s.sent[s.index].at + ttl)
  {
    RunKeepsInv(Fresh<M>(ttl, maxsize, clock), steps);
    SettingsStay(Fresh<M>(ttl, maxsize, clock), steps);
  }

  /** What happens to the message at the front depends on the time alone: when the consumer takes it at or
      after its deadline it is done with it at once, and before that it goes on to connect for it. */
  lemma TakenExactly<M(!new)>(ttl: real, maxsize: int, clock: real, steps: seq<Step<M>>, now: real)
    requires Reach(Fresh<M>(ttl, maxsize, clock), steps).Some?
    requires Next(Reach(Fresh<M>(ttl, maxsize, clock), steps).value, Step.Get(now)).Some?
    ensures var s := Reach(Fresh<M>(ttl, maxsize, clock), steps).value; var t := Next(s, Step.Get(now)).value;
      var i := |s.fates|;
      && i < |s.sent| && |t.fates| == i + 1 && s.queue == [s.sent[i].item] + t.queue
      && (s.sent[i].at + ttl <= now <==> t.phase.Idle?)
      && (t.phase.Idle? <==> t.fates[i] == Expired(now))
      && (t.phase.Idle? <==> t.unfinished == s.unfinished - 1)
      && (now < s.sent[i].at + ttl <==> t.phase == Connecting(s.sent[i].item))
      && (now < s.sent[i].at + ttl <==> t.fates[i] == InFlight(now) && t.unfinished == s.unfinished)
  {
    RunKeepsInv(Fresh<M>(ttl, maxsize, clock), steps);
    SettingsStay(Fresh<M>(ttl, maxsize, clock), steps);
    var s := Reach(Fresh<M>(ttl, maxsize, clock), steps).value;
    assert s.queue == [s.queue[0]] + s.queue[1..];
  }

  /** A stop is final: what was in flight is abandoned, what was queued stays where it is, and no step is
      possible any more. */
  lemma StopIsFinal<M(!new)>(ttl: real, maxsize: int, clock: real, steps: seq<Step<M>>)
    requires Reach(Fresh<M>(ttl, maxsize, clock), steps).Some?
    requires !Reach(Fresh<M>(ttl, maxsize, clock), steps).value.phase.Stopped?
    ensures var s := Reach(Fresh<M>(ttl, maxsize, clock), steps).value;
      Next(s, Step.Stop).Some? && var t := Next(s, Step.Stop).value;
      && t.queue == s.queue && t.sent == s.sent && t.log == s.log && |t.fates| == |s.fates|
      && t.unfinished == |t.queue|
      && (forall i :: 0 <= i < |s.fates| ==> t.fates[i] == if s.fates[i].InFlight? then Abandoned else s.fates[i])
      && forall step :: Next(t, step).None?
  {
    RunKeepsInv(Fresh<M>(ttl, maxsize, clock), steps);
  }

  lemma StepKeepsFate<M>(s: State<M>, step: Step<M>, i: nat)
    requires Inv(s) && Next(s, step).Some? && i < |s.fates| && !s.fates[i].InFlight?
    ensures var t := Next(s, step).value;
      i < |t.fates| && t.fates[i] == s.fates[i] && s.sent <= t.sent
  {
  }

  /** A message meets one fate and keeps it. */
  lemma {:induction false} FatesAreFinal<M(!new)>(s: State<M>, steps: seq<Step<M>>, i: nat)
    requires Inv(s) && Reach(s, steps).Some? && i < |s.fates| && !s.fates[i].InFlight?
    ensures var t := Reach(s, steps).value;
      i < |t.fates| && t.fates[i] == s.fates[i] && s.sent <= t.sent
    decreases |steps|
  {
    if steps != [] {
      StepKeepsInv(s, steps[0]);
      StepKeepsFate(s, steps[0], i);
      FatesAreFinal(Next(s, steps[0]).value, steps[1..], i);
    }
  }

  lemma OnlyWritingLogs<M>(s: State<M>, step: Step<M>)
    requires Inv(s) && Next(s, step).Some?
    requires !(step.Locked? && Next(s, step).value.phase.Draining?)
    ensures var t := Next(s, step).value;
      && t.log == s.log && s.sent <= t.sent
      && (step.Send? ==> t.sent == s.sent + [Sent(step.now, Item(step.now + s.ttl, step.data))])
      && (!step.Send? ==> t.sent == s.sent)
      && forall k :: 0 <= k < |t.log| ==>
        t.log[k] < |t.fates| && t.log[k] < |s.fates| && t.fates[t.log[k]] == s.fates[t.log[k]]
  {
  }

  // ---------- The object ----------

  class NodeOutbox<M> {
    const ttl: real
    const maxsize: int
    var queue: seq<Item<M>>
    var unfinished: int
    var phase: Phase<M>

    ghost var clock: real
    ghost var sent: seq<Sent<M>>
    ghost var fates: seq<Fate>
    ghost var index: nat
    ghost var log: seq<nat>

    ghost function View(): State<M>
      reads this
    {
      State(ttl, maxsize, queue, unfinished, phase, clock, sent, fates, index, log)
    }

    constructor (ttl: real, maxsize: int, ghost clock: real)
      ensures View() == Fresh(ttl, maxsize, clock)
    {
      this.ttl, this.maxsize := ttl, maxsize;
      queue, unfinished, phase := [], 0, Idle;
      this.clock, sent, fates, index, log := clock, [], [], 0, [];
    }

    /** False: the outbox's task has ended, and a RuntimeError is raised. */
    method Send(data: M, now: real) returns (ok: bool)
      requires clock <= now
      modifies this
      ensures ok == !old(phase).Stopped?
      ensures !ok ==> View() == old(View())
      ensures ok ==> Some(View()) == Next(old(View()), Step.Send(data, now))
      ensures ok ==>
        var full := maxsize > 0 && |old(queue)| >= maxsize; var item := Item(now + ttl, data);
        View() == old(View()).(
          queue := (if full then old(queue)[1..] else old(queue)) + [item],
          unfinished := if full then old(unfinished) else old(unfinished) + 1,
          clock := now, sent := old(sent) + [Sent(now, item)],
          fates := if full then old(fates) + [Dropped(|old(sent)|)] else old(fates))
    {
      if phase.Stopped? {
        return false;
      }
      var deadline := now + ttl;
      if maxsize > 0 && |queue| >= maxsize {
        queue := queue[1..];
        unfinished := unfinished - 1;
        fates := fates + [Dropped(|sent|)];
      }
      queue := queue + [Item(deadline, data)];
      unfinished := unfinished + 1;
      sent, clock := sent + [Sent(now, Item(deadline, data))], now;
      return true;
    }

    method Get(now: real)
      requires phase.Idle? && queue != [] && clock <= now
      modifies this
      ensures Some(View()) == Next(old(View()), Step.Get(now))
      ensures queue == old(queue)[1..] && clock == now && index == |old(fates)| && sent == old(sent) && log == old(log)
      ensures old(queue)[0].deadline <= now ==>
        phase.Idle? && unfinished == old(unfinished) - 1 && fates == old(fates) + [Expired(now)]
      ensures now < old(queue)[0].deadline ==>
        phase == Connecting(old(queue)[0]) && unfinished == old(unfinished) && fates == old(fates) + [InFlight(now)]
    {
      var item := queue[0];
      queue := queue[1..];
      clock, index := now, |fates|;
      if now >= item.deadline {
        unfinished := unfinished - 1;
        fates := fates + [Expired(now)];
      } else {
        phase := Connecting(item);
        fates := fates + [InFlight(now)];
      }
    }

    method Connected(conn: nat)
      requires phase.Connecting?
      modifies this
      ensures Some(View()) == Next(old(View()), Step.Connected(conn))
      ensures View() == old(View()).(phase := Locking(old(phase).item, conn))
    {
      phase := Locking(phase.item, conn);
    }

    /** With the lock held: what to write to the connection, or nothing if the message is too old by now. */
    method WriteUnlessExpired(now: real) returns (bytes: Option<M>)
      requires phase.Locking? && clock <= now && index < |fates|
      modifies this
      ensures Some(View()) == Next(old(View()), Step.Locked(now))
      ensures bytes == if now < old(phase).item.deadline then Some(old(phase).item.data) else None
      ensures View() == old(View()).(
        phase := if bytes.Some? then Draining else Idle,
        unfinished := if bytes.Some? then old(unfinished) else old(unfinished) - 1,
        clock := now, log := if bytes.Some? then old(log) + [index] else old(log),
        fates := old(fates)[index := if bytes.Some? then Fate.Written(old(phase).conn, now) else Expired(now)])
    {
      clock := now;
      if now >= phase.item.deadline {
        phase, unfinished := Idle, unfinished - 1;
        fates := fates[index := Expired(now)];
        return None;
      }
      bytes := Some(phase.item.data);
      fates := fates[index := Fate.Written(phase.conn, now)];
      log := log + [index];
      phase := Draining;
    }

    method Fail()
      requires (phase.Connecting? || phase.Locking?) && index < |fates|
      modifies this
      ensures Some(View()) == Next(old(View()), Step.Fail)
      ensures View() == old(View()).(
        phase := Idle, unfinished := old(unfinished) - 1, fates := old(fates)[index := NotSent])
    {
      phase, unfinished := Idle, unfinished - 1;
      fates := fates[index := NotSent];
    }

    method Drained()
      requires phase.Draining?
      modifies this
      ensures Some(View()) == Next(old(View()), Step.Drained)
      ensures View() == old(View()).(phase := Idle, unfinished := old(unfinished) - 1)
    {
      phase, unfinished := Idle, unfinished - 1;
    }

    method Stop()
      requires !phase.Stopped? && (Busy(phase) ==> index < |fates|)
      modifies this
      ensures Some(View()) == Next(old(View()), Step.Stop)
      ensures View() == old(View()).(
        phase := Stopped, unfinished := if Busy(old(phase)) then old(unfinished) - 1 else old(unfinished),
        fates := if old(phase).Connecting? || old(phase).Locking? then old(fates)[index := Abandoned] else old(fates))
    {
      if phase.Connecting? || phase.Locking? {
        fates := fates[index := Abandoned];
      }
      if Busy(phase) {
        unfinished := unfinished - 1;
      }
      phase := Stopped;
    }
  }
}
