/** src/rosy/discovery/zeroconf.py and base.py, with the topology handler and the outboxes behind them:
    what the mesh looks like reaches the topology manager, and the outboxes of departed nodes go.

    A step is a stretch without suspension or part of one, so the theorems do not depend on the event
    being cleared, the snapshot being taken and the topology being set in one go. */
module Mesh {
  import opened Streams
  import opened Runs
  import opened Specs
  import opened CompositeCodecs
  import opened Topology

  datatype Notifier =
    | Waiting                                  // for the event
    | Notified                                 // has cleared the event
    | Calling(snapshot: seq<MeshNodeSpec>)     // has evaluated `topology`
    | Cleaning(                                // has set the topology
        pending: seq<MeshNodeSpec>,            // removed nodes yet to process
        begun: bool)                           // whether one of them has lost its outbox

  datatype State = State(
    discovered: Dict<string, MeshNodeSpec>,    // _service_name_to_node
    changed: bool,                             // the _topology_changed event
    notifier: Notifier,
    topology: seq<MeshNodeSpec>,               // the manager's
    outboxes: set<NodeId>)                     // the keys of the outbox manager

  datatype Step =
    | Discover(name: string, node: MeshNodeSpec)
    | Vanish(name: string)
    | Clear
    | Snapshot
    | SetTopology
    | StopOutbox
    | StopFails                                // the stop of the outbox just taken out, or a close, raises
    | Finish
    | Send(chosen: seq<MeshNodeSpec>)          // a topic is sent to nodes of the current topology

  function Values(d: Dict<string, MeshNodeSpec>): seq<MeshNodeSpec> {
    seq(|d|, i requires 0 <= i < |d| => d[i].1)
  }

  /** `d.pop(name, None)` */
  function Pop(d: Dict<string, MeshNodeSpec>, name: string): Dict<string, MeshNodeSpec> {
    var i := IndexOf(d, name);
    if i < |d| then d[..i] + d[i + 1..] else d
  }

  function Next(s: State, step: Step): Option<State> {
    match step
    case Discover(name, node) =>
      if Get(s.discovered, name) == Some(node) then Some(s)
      else Some(s.(discovered := Put(s.discovered, name, node), changed := true))
    case Vanish(name) =>
      if Get(s.discovered, name).None? then Some(s)
      else Some(s.(discovered := Pop(s.discovered, name), changed := true))
    case Clear =>
      if s.notifier.Waiting? && s.changed then Some(s.(changed := false, notifier := Notified)) else None
    case Snapshot =>
      if s.notifier.Notified? then Some(s.(notifier := Calling(Values(s.discovered)))) else None
    case SetTopology =>
      if s.notifier.Calling? then
        var removed := Removed(s.topology, s.notifier.snapshot);
        Some(s.(topology := s.notifier.snapshot, notifier := Cleaning(removed, false)))
      else None
    case StopOutbox =>
      if s.notifier.Cleaning? && s.notifier.pending != [] then
        var pending := s.notifier.pending;
        Some(s.(outboxes := s.outboxes - {pending[0].id}, notifier := Cleaning(pending[1..], true)))
      else None
    case StopFails =>
      if s.notifier.Cleaning? && s.notifier.begun then Some(s.(notifier := Waiting)) else None
    case Finish =>
      if s.notifier.Cleaning? && s.notifier.pending == [] then Some(s.(notifier := Waiting)) else None
    case Send(chosen) =>
      if forall n :: n in chosen ==> n in s.topology then Some(s.(outboxes := s.outboxes + IdsOf(chosen))) else None
  }

  const START := State([], false, Waiting, [], {})

  // ---------- No lost update ----------

  /** If nothing is signalled, what the notifier has passed on or is about to pass on is up to date. */
  ghost predicate UpToDate(s: State) {
    !s.changed ==>
      match s.notifier
      case Waiting => s.topology == Values(s.discovered)
      case Notified => true
      case Calling(snapshot) => snapshot == Values(s.discovered)
      case Cleaning(_, _) => s.topology == Values(s.discovered)
  }

  lemma StepKeepsUpToDate(s: State, step: Step)
    requires UpToDate(s) && Next(s, step).Some?
    ensures UpToDate(Next(s, step).value)
  {
  }

  lemma RunIsUpToDate(steps: seq<Step>)
    requires Run(Next, START, steps).Some?
    ensures UpToDate(Run(Next, START, steps).value)
  {
    forall s: State, step: Step ensures KeptBy(Next, UpToDate, s, step) {
      if UpToDate(s) && Next(s, step).Some? {
        StepKeepsUpToDate(s, step);
      }
    }
    RunKeeps(Next, UpToDate, START, steps);
  }

  /** In every reachable state with the event unset and the handler past `set_topology`, the manager,
      whose lookups answer for its topology, has exactly the nodes discovered, in the order of the
      discovery map. Failing clean-ups do not matter. */
  lemma NoLostUpdate(steps: seq<Step>)
    requires Run(Next, START, steps).Some?
    ensures var s := Run(Next, START, steps).value;
      !s.changed && (s.notifier.Waiting? || s.notifier.Cleaning?) ==>
        && s.topology == Values(s.discovered) && |s.topology| == |s.discovered|
        && forall i :: 0 <= i < |s.topology| ==> s.topology[i] == s.discovered[i].1
  {
    RunIsUpToDate(steps);
  }

  /** So what callers see of a manager with that topology are the nodes discovered: asking for a topic gives
      those that listen to it and asking for a service those that provide it, in the order of the discovery
      map. */
  lemma LookupsAreCurrent(manager: MeshTopologyManager, steps: seq<Step>, name: string)
    requires Run(Next, START, steps).Some? && manager.Valid()
    requires var s := Run(Next, START, steps).value;
      manager.nodes == s.topology && !s.changed && (s.notifier.Waiting? || s.notifier.Cleaning?)
    ensures var discovered := Values(Run(Next, START, steps).value.discovered);
      var listening, providing := Lookup(manager.topicNodesCache, name), Lookup(manager.serviceNodesCache, name);
      && (exists at :: AreListeners(listening, discovered, name, at))
      && (exists at :: AreProviders(providing, discovered, name, at))
      && forall n ::
           && (n in listening <==> n in discovered && name in n.topics)
           && (n in providing <==> n in discovered && name in n.services)
  {
    NoLostUpdate(steps);
    var discovered := Values(Run(Next, START, steps).value.discovered);
    var listening := ListenersInOrder(discovered, name);
    var providing := ProvidersInOrder(discovered, name);
    forall n ensures n in Labelled(discovered, TopicsOf, name) <==> n in discovered && name in n.topics {
      FoundExactly(Labelled(discovered, TopicsOf, name), discovered, listening, n);
    }
    forall n ensures n in Labelled(discovered, ServicesOf, name) <==> n in discovered && name in n.services {
      FoundExactly(Labelled(discovered, ServicesOf, name), discovered, providing, n);
    }
  }

  lemma FoundExactly(found: seq<MeshNodeSpec>, nodes: seq<MeshNodeSpec>, at: seq<nat>, n: MeshNodeSpec)
    requires AreAt(found, nodes, at)
    ensures n in found <==> exists k :: k in at && nodes[k] == n
  {
    if k :| k in at && nodes[k] == n {
      var i :| 0 <= i < |at| && at[i] == k;
      assert found[i] == n;
    }
  }

  // ---------- The latest news of a name ----------

  predicate About(step: Step, name: string) {
    (step.Discover? || step.Vanish?) && step.name == name
  }

  /** The node was discovered under the name in step i, and nothing has been heard of the name since. */
  ghost predicate IsLastNews(steps: seq<Step>, i: nat, name: string, node: MeshNodeSpec) {
    && i < |steps| && steps[i] == Discover(name, node)
    && forall j :: i < j < |steps| ==> !About(steps[j], name)
  }

  lemma PopRemoves(d: Dict<string, MeshNodeSpec>, name: string)
    ensures var r := Pop(d, name);
      && (forall p :: p in r <==> p in d && p.0 != name)
      && ((forall i :: 0 <= i < |d| ==> d[i].0 != name) ==> r == d)
      && forall i :: 0 <= i < |d| && d[i].0 == name ==> |r| == |d| - 1 && r[..i] == d[..i] && r[i..] == d[i + 1..]
  {
    var i, r := IndexOf(d, name), Pop(d, name);
    forall p | p in d && p.0 != name ensures p in r {
      var j :| 0 <= j < |d| && d[j] == p;
      assert r[if j < i then j else j - 1] == p;
    }
  }

  lemma NewsOfStep(s: State, step: Step, name: string, node: MeshNodeSpec)
    requires Next(s, step).Some?
    ensures (name, node) in Next(s, step).value.discovered <==>
      step == Discover(name, node) || ((name, node) in s.discovered && !About(step, name))
  {
    if step.Discover? {
      PutStores(s.discovered, step.name, step.node);
      GetFinds(s.discovered, step.name);
    } else if step.Vanish? {
      PopRemoves(s.discovered, step.name);
      GetFinds(s.discovered, step.name);
    }
  }

  lemma {:induction false} NewsOfRun(s: State, steps: seq<Step>, name: string, node: MeshNodeSpec)
    requires Run(Next, s, steps).Some?
    ensures (name, node) in Run(Next, s, steps).value.discovered <==>
      || (exists i :: IsLastNews(steps, i, name, node))
      || ((name, node) in s.discovered && forall i :: 0 <= i < |steps| ==> !About(steps[i], name))
    decreases |steps|
  {
    if steps != [] {
      var t, rest := Next(s, steps[0]).value, steps[1..];
      NewsOfStep(s, steps[0], name, node);
      NewsOfRun(t, rest, name, node);
      forall i: nat ensures IsLastNews(rest, i, name, node) <==> IsLastNews(steps, i + 1, name, node) {
        assert forall j :: 0 <= j < |rest| ==> rest[j] == steps[j + 1];
        assert forall j :: 0 < j < |steps| ==> steps[j] == rest[j - 1];
      }
      if i: nat :| IsLastNews(steps, i, name, node) {
        assert i > 0 ==> IsLastNews(rest, i - 1, name, node);
        assert i == 0 ==> forall j :: 0 <= j < |rest| ==> !About(rest[j], name);
      }
      assert IsLastNews(steps, 0, name, node) <==>
        steps[0] == Discover(name, node) && forall j :: 0 <= j < |rest| ==> !About(rest[j], name);
    }
  }

  /** The discovery map says of each name what was discovered under it last, unless it has vanished since:
      a node that comes again with other topics or services replaces what was known of it. */
  lemma DiscoveredIsLatest(steps: seq<Step>, name: string, node: MeshNodeSpec)
    requires Run(Next, START, steps).Some?
    ensures (name, node) in Run(Next, START, steps).value.discovered <==> exists i :: IsLastNews(steps, i, name, node)
  {
    NewsOfRun(START, steps, name, node);
  }

  // ---------- The mesh comes to rest ----------

  /** What the notifier does by itself, if nothing fails. */
  predicate IsNotifiers(step: Step) {
    step.Clear? || step.Snapshot? || step.SetTopology? || step.StopOutbox? || step.Finish?
  }

  /** By its own steps the notifier comes from s to u. */
  ghost predicate Leads(s: State, more: seq<Step>, u: State) {
    Run(Next, s, more) == Some(u) && forall i :: 0 <= i < |more| ==> IsNotifiers(more[i])
  }

  lemma LeadsOn(s: State, step: Step, more: seq<Step>, u: State)
    requires IsNotifiers(step) && Next(s, step).Some? && Leads(Next(s, step).value, more, u)
    ensures Leads(s, [step] + more, u)
  {
    assert ([step] + more)[1..] == more;
  }

  lemma {:induction false} CleaningEnds(s: State) returns (more: seq<Step>)
    requires s.notifier.Cleaning?
    ensures Leads(s, more, s.(notifier := Waiting, outboxes := s.outboxes - IdsOf(s.notifier.pending)))
    decreases |s.notifier.pending|
  {
    var pending := s.notifier.pending;
    var u := s.(notifier := Waiting, outboxes := s.outboxes - IdsOf(pending));
    if pending == [] {
      assert u.outboxes == s.outboxes;
      more := [];
      LeadsOn(s, Finish, more, u);
      more := [Finish] + more;
    } else {
      assert pending == [pending[0]] + pending[1..];
      assert s.outboxes - {pending[0].id} - IdsOf(pending[1..]) == u.outboxes;
      more := CleaningEnds(Next(s, StopOutbox).value);
      LeadsOn(s, StopOutbox, more, u);
      more := [StopOutbox] + more;
    }
  }

  /** From where the notifier has cleared the event. */
  lemma NewsIsPassedOn(s: State) returns (more: seq<Step>, u: State)
    requires s.notifier.Notified?
    ensures Leads(s, more, u) && u.notifier.Waiting? && u.changed == s.changed
    ensures u.discovered == s.discovered && u.topology == Values(s.discovered)
  {
    var calling := Next(s, Snapshot).value;
    var cleaning := Next(calling, SetTopology).value;
    more := CleaningEnds(cleaning);
    u := cleaning.(notifier := Waiting, outboxes := cleaning.outboxes - IdsOf(cleaning.notifier.pending));
    LeadsOn(calling, SetTopology, more, u);
    LeadsOn(s, Snapshot, [SetTopology] + more, u);
    more := [Snapshot] + ([SetTopology] + more);
  }

  lemma WaitingSettles(s: State) returns (more: seq<Step>, u: State)
    requires UpToDate(s) && s.notifier.Waiting?
    ensures Leads(s, more, u) && Settled(s, u)
  {
    if s.changed {
      more, u := NewsIsPassedOn(Next(s, Clear).value);
      LeadsOn(s, Clear, more, u);
      more := [Clear] + more;
    } else {
      more, u := [], s;
    }
  }

  /** The notifier waits with nothing to pass on, and the topology has the nodes that s has discovered. */
  ghost predicate Settled(s: State, u: State) {
    u.notifier.Waiting? && !u.changed && u.discovered == s.discovered && u.topology == Values(s.discovered)
  }

  lemma LeadsFurther(s: State, more: seq<Step>, t: State, rest: seq<Step>, u: State)
    requires Leads(s, more, t) && Leads(t, rest, u)
    ensures Leads(s, more + rest, u)
  {
    RunAppend(Next, s, more, rest);
  }

  lemma NotifierComesToWait(s: State) returns (more: seq<Step>, u: State)
    requires UpToDate(s)
    ensures Leads(s, more, u) && u.notifier.Waiting? && UpToDate(u) && u.discovered == s.discovered
  {
    match s.notifier
    case Waiting => more, u := [], s;
    case Notified => more, u := NewsIsPassedOn(s);
    case Calling(_) =>
      var cleaning := Next(s, SetTopology).value;
      more := CleaningEnds(cleaning);
      u := cleaning.(notifier := Waiting, outboxes := cleaning.outboxes - IdsOf(cleaning.notifier.pending));
      LeadsOn(s, SetTopology, more, u);
      more := [SetTopology] + more;
    case Cleaning(pending, _) =>
      more := CleaningEnds(s);
      u := s.(notifier := Waiting, outboxes := s.outboxes - IdsOf(pending));
  }

  /** Whatever has happened, the notifier's own steps can bring it to rest, and then the topology is what has
      been discovered: each change is passed on, and none keeps it busy for good. */
  lemma MeshSettles(steps: seq<Step>) returns (more: seq<Step>, u: State)
    requires Run(Next, START, steps).Some?
    ensures Leads(Run(Next, START, steps).value, more, u) && Settled(Run(Next, START, steps).value, u)
  {
    var s := Run(Next, START, steps).value;
    RunIsUpToDate(steps);
    var first, t := NotifierComesToWait(s);
    var rest;
    rest, u := WaitingSettles(t);
    LeadsFurther(s, first, t, rest, u);
    more := first + rest;
  }

  // ---------- Outbox clean-up ----------

  function Pending(s: State): seq<MeshNodeSpec> {
    if s.notifier.Cleaning? then s.notifier.pending else []
  }

  /** Every outbox is for a node of the topology or one the running handler has yet to process; the
      latter are not in the topology. */
  ghost predicate NoOrphans(s: State) {
    && (forall id :: id in s.outboxes ==> id in IdsOf(s.topology) || id in IdsOf(Pending(s)))
    && IdsOf(Pending(s)) !! IdsOf(s.topology)
  }

  lemma SetTopologyLeavesNoOrphans(s: State)
    requires NoOrphans(s) && Next(s, SetTopology).Some?
    ensures NoOrphans(Next(s, SetTopology).value)
  {
    var snapshot := s.notifier.snapshot;
    forall n ensures n in Removed(s.topology, snapshot) <==> n in s.topology && n.id !in IdsOf(snapshot) {
      RemovedExactly(s.topology, snapshot, n);
    }
    forall id | id in s.outboxes && id !in IdsOf(snapshot) ensures id in IdsOf(Removed(s.topology, snapshot)) {
      var n :| n in s.topology && n.id == id;
      assert n in Removed(s.topology, snapshot);
    }
  }

  lemma StopOutboxLeavesNoOrphans(s: State)
    requires NoOrphans(s) && Next(s, StopOutbox).Some?
    ensures NoOrphans(Next(s, StopOutbox).value)
  {
    var pending := s.notifier.pending;
    assert pending == [pending[0]] + pending[1..];
  }

  lemma StepLeavesNoOrphans(s: State, step: Step)
    requires NoOrphans(s) && Next(s, step).Some? && !step.StopFails?
    ensures NoOrphans(Next(s, step).value)
  {
    match step
    case SetTopology => SetTopologyLeavesNoOrphans(s);
    case StopOutbox => StopOutboxLeavesNoOrphans(s);
    case _ =>
  }

  function NextWithoutFailure(s: State, step: Step): Option<State> {
    if step.StopFails? then None else Next(s, step)
  }

  lemma RunLeavesNoOrphans(steps: seq<Step>)
    requires Run(NextWithoutFailure, START, steps).Some?
    ensures NoOrphans(Run(NextWithoutFailure, START, steps).value)
  {
    forall s: State, step: Step ensures KeptBy(NextWithoutFailure, NoOrphans, s, step) {
      if NoOrphans(s) && NextWithoutFailure(s, step).Some? {
        StepLeavesNoOrphans(s, step);
      }
    }
    RunKeeps(NextWithoutFailure, NoOrphans, START, steps);
  }

  /** Unless stopping or closing fails, no outbox outlives its node unnoticed: sends may happen at any
      moment of the clean-up, because the topology is replaced before the first outbox is stopped. Between
      clean-ups every outbox is for a node of the topology. */
  lemma OutboxesAreCleanedUp(steps: seq<Step>)
    requires Run(NextWithoutFailure, START, steps).Some?
    ensures var s := Run(NextWithoutFailure, START, steps).value;
      && NoOrphans(s)
      && (!s.notifier.Cleaning? ==> s.outboxes <= IdsOf(s.topology))
  {
    RunLeavesNoOrphans(steps);
  }

  // ---------- Failing clean-ups ----------

  /** An outbox for a node that is neither in the topology nor about to be processed. */
  ghost predicate Orphan(s: State, id: NodeId) {
    id in s.outboxes && id !in IdsOf(s.topology) && id !in IdsOf(Pending(s))
  }

  /** From s on, no topology with that ID is in force at any moment of the run. */
  ghost predicate NeverListed(s: State, more: seq<Step>, id: NodeId)
    decreases |more|
  {
    && id !in IdsOf(s.topology)
    && (more != [] && Next(s, more[0]).Some? ==> NeverListed(Next(s, more[0]).value, more[1..], id))
  }

  lemma OrphanStaysOneStep(s: State, step: Step, id: NodeId)
    requires Orphan(s, id) && Next(s, step).Some? && id !in IdsOf(Next(s, step).value.topology)
    ensures Orphan(Next(s, step).value, id)
  {
    match step
    case SetTopology =>
      var removed := Removed(s.topology, s.notifier.snapshot);
      forall n | n in removed ensures n.id != id {
        RemovedExactly(s.topology, s.notifier.snapshot, n);
      }
    case StopOutbox =>
      var pending := s.notifier.pending;
      assert pending == [pending[0]] + pending[1..];
    case _ =>
  }

  /** An orphan stays, whatever happens, until a topology with its ID is set again. */
  lemma {:induction false} OrphansStay(s: State, more: seq<Step>, id: NodeId)
    requires Orphan(s, id) && Run(Next, s, more).Some? && NeverListed(s, more, id)
    ensures Orphan(Run(Next, s, more).value, id)
    decreases |more|
  {
    if more != [] {
      OrphanStaysOneStep(s, more[0], id);
      OrphansStay(Next(s, more[0]).value, more[1..], id);
    }
  }

  /** The first failure of a stop or close leaves orphans exactly if a node still to be processed has an
      outbox, because the handler gives up on all of them; the orphans are these nodes' outboxes. */
  lemma FailureOrphansExactly(steps: seq<Step>, id: NodeId)
    requires Run(NextWithoutFailure, START, steps).Some?
    requires Next(Run(NextWithoutFailure, START, steps).value, StopFails).Some?
    ensures var s := Run(NextWithoutFailure, START, steps).value;
      Orphan(Next(s, StopFails).value, id) <==> id in s.outboxes && id in IdsOf(s.notifier.pending)
  {
    RunLeavesNoOrphans(steps);
  }

  lemma DiscoverBoth(x: string, y: string, n: MeshNodeSpec, m: MeshNodeSpec)
    requires x != y
    ensures Get<string, MeshNodeSpec>([], x).None? && Put([], x, n) == [(x, n)]
    ensures Get([(x, n)], y).None? && Put([(x, n)], y, m) == [(x, n), (y, m)]
    ensures Values([(x, n), (y, m)]) == [n, m]
    ensures Get([(x, n), (y, m)], x).Some? && Pop([(x, n), (y, m)], x) == [(y, m)]
    ensures Get([(y, m)], y).Some? && Pop([(y, m)], y) == [] && Values([]) == []
  {
    assert IndexOf([(x, n)], y) == 1;
    assert [(x, n), (y, m)][1..] == [(y, m)];
  }

  lemma RemovedBoth(n: MeshNodeSpec, m: MeshNodeSpec)
    ensures Removed([n, m], []) == [n, m] && Removed([], [n, m]) == []
    ensures IdsOf([n, m]) == {n.id, m.id}
  {
    assert IdsOf([]) == {} && [n, m][1..] == [m] && [m][1..] == [];
    assert Removed([m], []) == [m] && Removed([n, m], []) == [n] + Removed([m], []);
    assert forall x :: x in [n, m] <==> x == n || x == m;
  }

  lemma BothDiscovered(x: string, y: string, n: MeshNodeSpec, m: MeshNodeSpec)
    requires x != y
    ensures Next(START, Discover(x, n)) == Some(START.(discovered := [(x, n)], changed := true))
    ensures Next(START.(discovered := [(x, n)], changed := true), Discover(y, m))
         == Some(START.(discovered := [(x, n), (y, m)], changed := true))
  {
    DiscoverBoth(x, y, n, m);
  }

  lemma BothFound(x: string, y: string, n: MeshNodeSpec, m: MeshNodeSpec)
    requires x != y
    ensures Run(Next, START, [Discover(x, n), Discover(y, m), Clear, Snapshot])
         == Some(State([(x, n), (y, m)], false, Calling([n, m]), [], {}))
  {
    var one: Dict<string, MeshNodeSpec> := [(x, n)];
    var both: Dict<string, MeshNodeSpec> := [(x, n), (y, m)];
    BothDiscovered(x, y, n, m);
    assert Values(both) == [n, m];
    RunAlong(Next, [START, START.(discovered := one, changed := true), START.(discovered := both, changed := true),
                    START.(discovered := both, notifier := Notified), State(both, false, Calling([n, m]), [], {})],
             [Discover(x, n), Discover(y, m), Clear, Snapshot]);
  }

  lemma BothSentTo(d: Dict<string, MeshNodeSpec>, n: MeshNodeSpec, m: MeshNodeSpec)
    ensures Run(Next, State(d, false, Calling([n, m]), [], {}), [SetTopology, Finish, Send([n, m])])
         == Some(State(d, false, Waiting, [n, m], {n.id, m.id}))
  {
    RemovedBoth(n, m);
    var s := State(d, false, Waiting, [n, m], {});
    assert {} + {n.id, m.id} == {n.id, m.id};
    assert Next(s, Send([n, m])) == Some(s.(outboxes := {n.id, m.id}));
    RunAlong(Next, [State(d, false, Calling([n, m]), [], {}), s.(notifier := Cleaning([], false)), s,
                    s.(outboxes := {n.id, m.id})],
             [SetTopology, Finish, Send([n, m])]);
  }

  lemma BothGone(x: string, y: string, n: MeshNodeSpec, m: MeshNodeSpec, nodes: seq<MeshNodeSpec>, ids: set<NodeId>)
    requires x != y
    ensures Run(Next, State([(x, n), (y, m)], false, Waiting, nodes, ids), [Vanish(x), Vanish(y), Clear, Snapshot])
         == Some(State([], false, Calling([]), nodes, ids))
  {
    DiscoverBoth(x, y, n, m);
    var one: Dict<string, MeshNodeSpec> := [(y, m)];
    var both: Dict<string, MeshNodeSpec> := [(x, n), (y, m)];
    RunAlong(Next, [State(both, false, Waiting, nodes, ids), State(one, true, Waiting, nodes, ids),
                    State([], true, Waiting, nodes, ids), State([], false, Notified, nodes, ids),
                    State([], false, Calling([]), nodes, ids)],
             [Vanish(x), Vanish(y), Clear, Snapshot]);
  }

  lemma FirstStopFails(n: MeshNodeSpec, m: MeshNodeSpec)
    requires n.id != m.id
    ensures Run(Next, State([], false, Calling([]), [n, m], {n.id, m.id}), [SetTopology, StopOutbox, StopFails])
         == Some(State([], false, Waiting, [], {m.id}))
  {
    RemovedBoth(n, m);
    assert [n, m][1..] == [m] && {n.id, m.id} - {n.id} == {m.id};
    RunAlong(Next, [State([], false, Calling([]), [n, m], {n.id, m.id}),
                    State([], false, Cleaning([n, m], false), [], {n.id, m.id}),
                    State([], false, Cleaning([m], true), [], {m.id}), State([], false, Waiting, [], {m.id})],
             [SetTopology, StopOutbox, StopFails]);
  }

  /** Two nodes are discovered and sent to. */
  function Arrival(x: string, y: string, n: MeshNodeSpec, m: MeshNodeSpec): seq<Step> {
    [Discover(x, n), Discover(y, m), Clear, Snapshot] + [SetTopology, Finish, Send([n, m])]
  }

  /** They leave together, and the stop of the first outbox fails. */
  function Departure(x: string, y: string): seq<Step> {
    [Vanish(x), Vanish(y), Clear, Snapshot] + [SetTopology, StopOutbox, StopFails]
  }

  /** So a failing stop does leave an outbox behind, for any two nodes. */
  lemma FailureLeavesOrphan(x: string, y: string, n: MeshNodeSpec, m: MeshNodeSpec)
    requires x != y && n.id != m.id
    ensures var run := Run(Next, START, Arrival(x, y, n, m) + Departure(x, y));
      run.Some? && Orphan(run.value, m.id)
  {
    var both: Dict<string, MeshNodeSpec> := [(x, n), (y, m)];
    BothFound(x, y, n, m);
    BothSentTo(both, n, m);
    RunAppend(Next, START, [Discover(x, n), Discover(y, m), Clear, Snapshot], [SetTopology, Finish, Send([n, m])]);
    var s := State(both, false, Waiting, [n, m], {n.id, m.id});
    BothGone(x, y, n, m, [n, m], {n.id, m.id});
    FirstStopFails(n, m);
    RunAppend(Next, s, [Vanish(x), Vanish(y), Clear, Snapshot], [SetTopology, StopOutbox, StopFails]);
    RunAppend(Next, START, Arrival(x, y, n, m), Departure(x, y));
  }

  // ---------- The discovery object ----------

  class ZeroconfNodeDiscovery {
    var serviceNameToNode: Dict<string, MeshNodeSpec>
    var topologyChanged: bool

    constructor ()
      ensures serviceNameToNode == [] && !topologyChanged
    {
      serviceNameToNode, topologyChanged := [], false;
    }

    /** The `topology` property. */
    function Topology(): seq<MeshNodeSpec>
      reads this
    {
      Values(serviceNameToNode)
    }

    /** The end of `_check_node`: the service info of a node has arrived. */
    method CheckNode(name: string, node: MeshNodeSpec)
      modifies this
      ensures forall s: State :: s.discovered == old(serviceNameToNode) && s.changed == old(topologyChanged) ==>
        Next(s, Discover(name, node)) == Some(s.(discovered := serviceNameToNode, changed := topologyChanged))
      ensures forall p :: p in serviceNameToNode <==> p == (name, node) || (p in old(serviceNameToNode) && p.0 != name)
      ensures topologyChanged <==> old(topologyChanged) || (name, node) !in old(serviceNameToNode)
      ensures (name, node) in old(serviceNameToNode) ==> serviceNameToNode == old(serviceNameToNode)
    {
      GetFinds(serviceNameToNode, name);
      PutStores(serviceNameToNode, name, node);
      var existing := Get(serviceNameToNode, name);
      if existing != Some(node) {
        serviceNameToNode := Put(serviceNameToNode, name, node);
        topologyChanged := true;
      }
    }

    /** The end of `_remove_node`. */
    method RemoveNode(name: string)
      modifies this
      ensures forall s: State :: s.discovered == old(serviceNameToNode) && s.changed == old(topologyChanged) ==>
        Next(s, Vanish(name)) == Some(s.(discovered := serviceNameToNode, changed := topologyChanged))
      ensures forall p :: p in serviceNameToNode <==> p in old(serviceNameToNode) && p.0 != name
      ensures topologyChanged <==> old(topologyChanged) || serviceNameToNode != old(serviceNameToNode)
    {
      GetFinds(serviceNameToNode, name);
      PopRemoves(serviceNameToNode, name);
      if Get(serviceNameToNode, name).Some? {
        serviceNameToNode := Pop(serviceNameToNode, name);
        topologyChanged := true;
      }
    }
  }
}
