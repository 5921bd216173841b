/** src/rosy/node/topic/outbox.py (NodeOutboxManager), topic/sender.py and the handler of topology
    changes in topology.py. */
module Senders {
  import opened Streams
  import opened Specs
  import opened Topology
  import opened Connections
  import Box = Outbox
  import Grouping
  import LoadBalancing
  import MessageCodecs
  import RoundRobin

  type Frame = seq<byte>

  const TTL := 5.0
  const MAXSIZE := 100

  class NodeOutboxManager {
    var outboxes: map<NodeId, Box.NodeOutbox<Frame>>

    /** Every outbox that can be got from here is running and in order, and no two nodes share one. */
    ghost predicate Valid()
      reads this, outboxes.Values
    {
      && (forall id :: id in outboxes ==> Running(outboxes[id]))
      && forall a, b :: a in outboxes && b in outboxes && a != b ==> outboxes[a] != outboxes[b]
    }

    /** What has been sent to a node so far, as far as there is an outbox for it. */
    ghost function LogOf(id: NodeId): seq<Box.Sent<Frame>>
      reads this, outboxes.Values
    {
      if id in outboxes then outboxes[id].sent else []
    }

    ghost predicate NotAfter(now: real)
      reads this, outboxes.Values
    {
      forall id :: id in outboxes ==> outboxes[id].clock <= now
    }

    constructor ()
      ensures Valid() && outboxes == map[]
    {
      outboxes := map[];
    }

    method GetOutbox(node: MeshNodeSpec, ghost clock: real) returns (outbox: Box.NodeOutbox<Frame>)
      requires Valid()
      modifies this
      ensures Valid()
      ensures outboxes == old(outboxes)[node.id := outbox]
      ensures node.id in old(outboxes) ==> outbox == old(outboxes)[node.id] && outboxes == old(outboxes)
      ensures node.id !in old(outboxes) ==> fresh(outbox) && outbox.View() == Box.Fresh(5.0, 100, clock)
    {
      if node.id !in outboxes {
        outbox := new Box.NodeOutbox(TTL, MAXSIZE, clock);
        outboxes := outboxes[node.id := outbox];
      } else {
        outbox := outboxes[node.id];
      }
    }

    /** A stopped outbox is out of the map before it stops. */
    method StopOutbox(node: MeshNodeSpec)
      requires Valid()
      modifies this, if node.id in outboxes then {outboxes[node.id]} else {}
      ensures Valid()
      ensures outboxes == old(outboxes) - {node.id}
      ensures node.id in old(outboxes) ==> old(outboxes)[node.id].phase.Stopped?
    {
      if node.id in outboxes {
        var outbox := outboxes[node.id];
        outboxes := outboxes - {node.id};
        outbox.Stop();
      }
    }
  }

  ghost predicate Running(outbox: Box.NodeOutbox<Frame>)
    reads outbox
  {
    && !outbox.phase.Stopped? && outbox.ttl == TTL
    && (Box.Busy(outbox.phase) ==> outbox.index < |outbox.fates|)
  }

  // ---------- TopicSender ----------

  /** The clock as it is read at one outbox after the other. */
  ghost predicate Ascending(nows: seq<real>) {
    forall i, j :: 0 <= i < j < |nows| ==> nows[i] <= nows[j]
  }

  /** What an outbox with the log `before` has been sent after a frame went to the nodes one by one. */
  ghost function AfterSends(before: seq<Box.Sent<Frame>>, nodes: seq<MeshNodeSpec>, id: NodeId, frame: Frame,
                            nows: seq<real>):
    seq<Box.Sent<Frame>>
    requires |nows| == |nodes|
    decreases |nodes|
  {
    if nodes == [] then before
    else
      var last := |nodes| - 1;
      AfterSend(AfterSends(before, nodes[..last], id, frame, nows[..last]), nodes[last].id == id, frame, nows[last])
  }

  ghost function AfterSend(before: seq<Box.Sent<Frame>>, hit: bool, frame: Frame, now: real): seq<Box.Sent<Frame>> {
    if hit then before + [Box.Sent(now, Box.Item(now + TTL, frame))] else before
  }

  lemma {:induction false} NotSentTo(before: seq<Box.Sent<Frame>>, nodes: seq<MeshNodeSpec>, id: NodeId, frame: Frame,
                                     nows: seq<real>)
    requires |nows| == |nodes| && forall i :: 0 <= i < |nodes| ==> nodes[i].id != id
    ensures AfterSends(before, nodes, id, frame, nows) == before
    decreases |nodes|
  {
    if nodes != [] {
      var last := |nodes| - 1;
      NotSentTo(before, nodes[..last], id, frame, nows[..last]);
    }
  }

  lemma {:induction false} SentOnce(before: seq<Box.Sent<Frame>>, nodes: seq<MeshNodeSpec>, i: nat, frame: Frame,
                                    nows: seq<real>)
    requires |nows| == |nodes| && i < |nodes| && forall j :: 0 <= j < |nodes| && j != i ==> nodes[j].id != nodes[i].id
    ensures AfterSends(before, nodes, nodes[i].id, frame, nows) == AfterSend(before, true, frame, nows[i])
    decreases |nodes|
  {
    var last := |nodes| - 1;
    if i == last {
      NotSentTo(before, nodes[..last], nodes[i].id, frame, nows[..last]);
    } else {
      SentOnce(before, nodes[..last], i, frame, nows[..last]);
    }
  }

  /** The frame goes to the outbox of each chosen node, once, at its end and with the time read there, and to
      nobody else's. */
  lemma SendsExactly(before: seq<Box.Sent<Frame>>, nodes: seq<MeshNodeSpec>, id: NodeId, frame: Frame, nows: seq<real>)
    requires |nows| == |nodes| && forall i, j :: 0 <= i < j < |nodes| ==> nodes[i].id != nodes[j].id
    ensures id !in IdsOf(nodes) ==> AfterSends(before, nodes, id, frame, nows) == before
    ensures forall i :: 0 <= i < |nodes| && nodes[i].id == id ==>
      AfterSends(before, nodes, id, frame, nows) == AfterSend(before, true, frame, nows[i])
  {
    if id !in IdsOf(nodes) {
      NotSentTo(before, nodes, id, frame, nows);
    }
    forall i | 0 <= i < |nodes| && nodes[i].id == id
      ensures AfterSends(before, nodes, id, frame, nows) == AfterSend(before, true, frame, nows[i])
    {
      SentOnce(before, nodes, i, frame, nows);
    }
  }

  /** What a send means for an outbox that is running. */
  method SendFrame(outbox: Box.NodeOutbox<Frame>, frame: Frame, now: real)
    requires Running(outbox) && outbox.clock <= now
    modifies outbox
    ensures Running(outbox) && outbox.clock == now
    ensures outbox.sent == AfterSend(old(outbox.sent), true, frame, now)
  {
    var ok := outbox.Send(frame, now);
  }

  method SendToOne(manager: NodeOutboxManager, node: MeshNodeSpec, frame: Frame, now: real)
    requires manager.Valid() && manager.NotAfter(now)
    modifies manager, manager.outboxes.Values
    ensures manager.Valid() && manager.NotAfter(now)
    ensures forall id :: id in old(manager.outboxes) ==>
      id in manager.outboxes && manager.outboxes[id] == old(manager.outboxes)[id]
    ensures forall id :: id in manager.outboxes && id !in old(manager.outboxes) ==> fresh(manager.outboxes[id])
    ensures forall id :: manager.LogOf(id) == AfterSend(old(manager.LogOf(id)), node.id == id, frame, now)
  {
    var outbox := manager.GetOutbox(node, now);
    assert forall id :: manager.LogOf(id) == old(manager.LogOf(id));
    label got:
    SendFrame(outbox, frame, now);
    forall id ensures manager.LogOf(id) == AfterSend(old@got(manager.LogOf(id)), node.id == id, frame, now) {
    }
  }

  /** The last part of `TopicSender.send`, after the message has been encoded; each outbox reads the clock. */
  method SendToAll(manager: NodeOutboxManager, nodes: seq<MeshNodeSpec>, frame: Frame, nows: seq<real>)
    requires |nows| == |nodes| && Ascending(nows)
    requires manager.Valid() && (nows != [] ==> manager.NotAfter(nows[0]))
    modifies manager, manager.outboxes.Values
    ensures manager.Valid()
    ensures forall id :: manager.LogOf(id) == AfterSends(old(manager.LogOf(id)), nodes, id, frame, nows)
  {
    ghost var boxes := manager.outboxes;
    for i := 0 to |nodes|
      invariant manager.Valid() && (i < |nodes| ==> manager.NotAfter(nows[i]))
      invariant forall id :: id in boxes ==> id in manager.outboxes && manager.outboxes[id] == boxes[id]
      invariant forall id :: id in manager.outboxes && id !in boxes ==> fresh(manager.outboxes[id])
      invariant forall id :: manager.LogOf(id) == AfterSends(old(manager.LogOf(id)), nodes[..i], id, frame, nows[..i])
    {
      assert nodes[..i + 1][..i] == nodes[..i] && nows[..i + 1][..i] == nows[..i];
      SendToOne(manager, nodes[i], frame, nows[i]);
    }
    assert nodes[..|nodes|] == nodes && nows[..|nows|] == nows;
  }

  /** Who a send of a topic goes to. */
  ghost function Chosen(topologyManager: MeshTopologyManager, balancer: Grouping.GroupingTopicLoadBalancer,
                        topic: string, draws: NodeId -> real, nows: seq<real>): seq<MeshNodeSpec>
    requires |nows| == |Grouping.Groups(Labelled(topologyManager.nodes, TopicsOf, topic), balancer.groupKey)|
    reads topologyManager, balancer.loadBalancer
  {
    var groups := Grouping.Groups(Labelled(topologyManager.nodes, TopicsOf, topic), balancer.groupKey);
    Grouping.PicksOf(balancer.loadBalancer.lastUsed, balancer.loadBalancer.t0, draws, Grouping.CallsFor(groups, nows))
  }

  /** One listener of every group is chosen, and nobody who does not list the topic under its topics. */
  ghost predicate ServesListeners(chosen: seq<MeshNodeSpec>, nodes: seq<MeshNodeSpec>, topic: string,
                                  key: Grouping.GroupKey) {
    && (forall n :: n in chosen ==> n in nodes && topic in n.topics)
    && (forall i, j :: 0 <= i < j < |chosen| ==> key(chosen[i]) != key(chosen[j]))
    && forall n :: n in nodes && topic in n.topics ==> RoundRobin.HasOneOf(chosen, key, key(n))
  }

  lemma FoundAreDistinct(found: seq<MeshNodeSpec>, nodes: seq<MeshNodeSpec>, at: seq<nat>)
    requires AreAt(found, nodes, at) && RoundRobin.DistinctIds(nodes)
    ensures RoundRobin.DistinctIds(found)
  {
  }

  /** A send goes to one listener of every group. */
  lemma ChosenServeListeners(topologyManager: MeshTopologyManager, balancer: Grouping.GroupingTopicLoadBalancer,
                             topic: string, draws: NodeId -> real, nows: seq<real>)
    requires RoundRobin.DistinctIds(topologyManager.nodes)
    requires |nows| == |Grouping.Groups(Labelled(topologyManager.nodes, TopicsOf, topic), balancer.groupKey)|
    ensures ServesListeners(Chosen(topologyManager, balancer, topic, draws, nows), topologyManager.nodes, topic,
                            balancer.groupKey)
  {
    var nodes, key := topologyManager.nodes, balancer.groupKey;
    var listeners, chosen := Labelled(nodes, TopicsOf, topic), Chosen(topologyManager, balancer, topic, draws, nows);
    var at := ListenersInOrder(nodes, topic);
    FoundAreDistinct(listeners, nodes, at);
    RoundRobin.OneOfEachName(balancer.loadBalancer.lastUsed, balancer.loadBalancer.t0, draws, listeners, key, nows);
    forall n | n in nodes && topic in n.topics ensures RoundRobin.HasOneOf(chosen, key, key(n)) {
      LabelledExactly(nodes, TopicsOf, topic, n);
      assert n in multiset(nodes) && n in multiset(listeners);
      var i :| 0 <= i < |listeners| && listeners[i] == n;
      assert RoundRobin.HasOneOf(chosen, key, key(listeners[i]));
    }
    forall n | n in listeners ensures n in nodes && topic in n.topics {
      LabelledExactly(nodes, TopicsOf, topic, n);
      assert n in multiset(listeners) && n in multiset(nodes);
    }
  }

  /** `PeerSelector.get_nodes_for_topic` with the default balancer. */
  method GetNodesForTopic(topologyManager: MeshTopologyManager, balancer: Grouping.GroupingTopicLoadBalancer,
                          topic: string, draws: NodeId -> real, nows: seq<real>)
    returns (nodes: seq<MeshNodeSpec>)
    requires topologyManager.Valid()
    requires |nows| == |Grouping.Groups(Labelled(topologyManager.nodes, TopicsOf, topic), balancer.groupKey)|
    modifies topologyManager, balancer.loadBalancer
    ensures topologyManager.Valid() && topologyManager.nodes == old(topologyManager.nodes)
    ensures nodes == old(Chosen(topologyManager, balancer, topic, draws, nows))
  {
    var peers := topologyManager.GetNodesListeningToTopic(topic);
    nodes := balancer.ChooseNodes(peers, draws, nows);
  }

  /** `PeerSelector.get_node_for_service` with the same balancer: nobody if the service is not provided, and
      otherwise a provider that no other provider has waited longer than. */
  method GetNodeForService(topologyManager: MeshTopologyManager, balancer: LoadBalancing.LeastRecentLoadBalancer,
                           service: string, draws: NodeId -> real, now: real)
    returns (node: Option<MeshNodeSpec>)
    requires topologyManager.Valid()
    modifies topologyManager, balancer
    ensures topologyManager.Valid() && topologyManager.nodes == old(topologyManager.nodes)
    ensures node.None? <==> forall n :: n in topologyManager.nodes ==> service !in n.services
    ensures node.None? ==> balancer.lastUsed == old(balancer.lastUsed)
    ensures node.Some? ==>
      && node.value in topologyManager.nodes && service in node.value.services
      && node.value.id in balancer.lastUsed && balancer.lastUsed[node.value.id] == now
      && forall n :: n in topologyManager.nodes && service in n.services ==>
           LoadBalancing.LastUsed(old(balancer.lastUsed), balancer.t0, draws, node.value.id)
             <= LoadBalancing.LastUsed(old(balancer.lastUsed), balancer.t0, draws, n.id)
  {
    var peers := topologyManager.GetNodesProvidingService(service);
    forall n ensures n in peers <==> n in topologyManager.nodes && service in n.services {
      LabelledExactly(topologyManager.nodes, ServicesOf, service, n);
      assert n in peers <==> n in multiset(peers);
      assert n in topologyManager.nodes <==> n in multiset(topologyManager.nodes);
    }
    if peers == [] {
      return None;
    }
    ghost var r := LoadBalancing.PickIsFirstLeastRecent(balancer.lastUsed, balancer.t0, draws, peers);
    var chosen := balancer.GetLeastRecentNode(peers, draws, now);
    return Some(chosen);
  }

  /** The rest of `TopicSender.send`: false, and nothing sent, if the message cannot be encoded; but if
      there is nobody to send to that is not noticed. */
  method EncodeAndSend(manager: NodeOutboxManager, nodes: seq<MeshNodeSpec>, c: MessageCodecs.Parts,
                       message: MessageCodecs.TopicMessage, nows: seq<real>)
    returns (ok: bool)
    requires |nows| == |nodes| && Ascending(nows)
    requires manager.Valid() && (nows != [] ==> manager.NotAfter(nows[0]))
    modifies manager, manager.outboxes.Values
    ensures manager.Valid()
    ensures var out := MessageCodecs.MessageEncode(c, MessageCodecs.Topic(message));
      && ok == (nodes == [] || out.ok)
      && forall id :: manager.LogOf(id) ==
           if out.ok then AfterSends(old(manager.LogOf(id)), nodes, id, out.bytes, nows) else old(manager.LogOf(id))
  {
    if nodes == [] {
      return true;
    }
    var data := MessageCodecs.EncodeTopicMessage(c, message);
    if data.None? {
      return false;
    }
    SendToAll(manager, nodes, data.value, nows);
    return true;
  }

  /** `nows` are the clock readings of the balancer and `times` those of the outboxes. */
  method SendTopic(topologyManager: MeshTopologyManager, balancer: Grouping.GroupingTopicLoadBalancer,
                   manager: NodeOutboxManager, c: MessageCodecs.Parts, message: MessageCodecs.TopicMessage,
                   draws: NodeId -> real, nows: seq<real>, times: seq<real>)
    returns (ok: bool)
    requires topologyManager.Valid() && manager.Valid()
    requires |nows| == |times| ==
      |Grouping.Groups(Labelled(topologyManager.nodes, TopicsOf, message.topic), balancer.groupKey)|
    requires Ascending(times) && (times != [] ==> manager.NotAfter(times[0]))
    modifies topologyManager, balancer.loadBalancer, manager, manager.outboxes.Values
    ensures topologyManager.nodes == old(topologyManager.nodes) && manager.Valid()
    ensures var chosen := old(Chosen(topologyManager, balancer, message.topic, draws, nows));
      var out := MessageCodecs.MessageEncode(c, MessageCodecs.Topic(message));
      && |chosen| == |times| && ok == (chosen == [] || out.ok)
      && forall id :: manager.LogOf(id) ==
           if out.ok then AfterSends(old(manager.LogOf(id)), chosen, id, out.bytes, times) else old(manager.LogOf(id))
  {
    var nodes := GetNodesForTopic(topologyManager, balancer, message.topic, draws, nows);
    ok := EncodeAndSend(manager, nodes, c, message, times);
  }

  /** So every name among the listeners is served once: the frame is enqueued for exactly one node of each,
      once, and for nobody who does not listen. */
  lemma SendServesEachNameOnce(used: map<NodeId, real>, t0: real, draws: NodeId -> real, listeners: seq<MeshNodeSpec>,
                               key: Grouping.GroupKey, nows: seq<real>, before: seq<Box.Sent<Frame>>, id: NodeId,
                               frame: Frame, times: seq<real>)
    requires RoundRobin.DistinctIds(listeners) && |nows| == |times| == |Grouping.Groups(listeners, key)|
    ensures var chosen := Grouping.PicksOf(used, t0, draws, Grouping.CallsFor(Grouping.Groups(listeners, key), nows));
      && RoundRobin.OneOfEach(chosen, listeners, key) && |chosen| == |times|
      && (id !in IdsOf(chosen) ==> AfterSends(before, chosen, id, frame, times) == before)
      && forall i :: 0 <= i < |chosen| && chosen[i].id == id ==>
           AfterSends(before, chosen, id, frame, times) == AfterSend(before, true, frame, times[i])
  {
    RoundRobin.OneOfEachName(used, t0, draws, listeners, key, nows);
    var chosen := Grouping.PicksOf(used, t0, draws, Grouping.CallsFor(Grouping.Groups(listeners, key), nows));
    SendsExactly(before, chosen, id, frame, times);
  }

  // ---------- TopologyChangedHandler ----------

  /** The handler when nothing fails and nobody gets in between: the new topology is set first, then the
      removed nodes lose their outboxes and their connections, and nobody else does. (Mesh has it with
      everything in between.) */
  method HandleTopologyChange(topologyManager: MeshTopologyManager, connectionManager: PeerConnectionManager,
                              outboxManager: NodeOutboxManager, newTopology: seq<MeshNodeSpec>)
    requires outboxManager.Valid()
    modifies topologyManager, connectionManager, outboxManager, outboxManager.outboxes.Values
    ensures topologyManager.Valid() && topologyManager.nodes == newTopology
    ensures outboxManager.Valid()
    ensures var removed := IdsOf(Removed(old(topologyManager.nodes), newTopology));
      && outboxManager.outboxes == old(outboxManager.outboxes) - removed
      && connectionManager.connections == old(connectionManager.connections) - removed
      && forall id :: id in removed && id in old(outboxManager.outboxes) ==>
        old(outboxManager.outboxes)[id].phase.Stopped?
  {
    ghost var boxes := outboxManager.outboxes;
    var removedNodes := topologyManager.GetRemovedNodes(newTopology);
    topologyManager.SetTopology(newTopology);
    for i := 0 to |removedNodes|
      invariant topologyManager.Valid() && topologyManager.nodes == newTopology
      invariant outboxManager.Valid()
      invariant outboxManager.outboxes == boxes - IdsOf(removedNodes[..i])
      invariant connectionManager.connections == old(connectionManager.connections) - IdsOf(removedNodes[..i])
      invariant forall id :: id in IdsOf(removedNodes[..i]) && id in boxes ==> boxes[id].phase.Stopped?
    {
      IdsOfNext(removedNodes, i);
      ghost var gone := IdsOf(removedNodes[..i]);
      MinusOneMore(boxes, gone, removedNodes[i].id);
      MinusOneMore(old(connectionManager.connections), gone, removedNodes[i].id);
      RemoveNode(connectionManager, outboxManager, removedNodes[i]);
    }
    assert removedNodes[..|removedNodes|] == removedNodes;
  }

  lemma MinusOneMore<V>(m: map<NodeId, V>, gone: set<NodeId>, id: NodeId)
    ensures m - gone - {id} == m - (gone + {id})
  {
  }

  lemma IdsOfNext(nodes: seq<MeshNodeSpec>, i: nat)
    requires i < |nodes|
    ensures IdsOf(nodes[..i + 1]) == IdsOf(nodes[..i]) + {nodes[i].id}
  {
    assert nodes[..i + 1] == nodes[..i] + [nodes[i]];
  }

  method RemoveNode(connectionManager: PeerConnectionManager, outboxManager: NodeOutboxManager, node: MeshNodeSpec)
    requires outboxManager.Valid()
    modifies connectionManager, outboxManager
    modifies if node.id in outboxManager.outboxes then {outboxManager.outboxes[node.id]} else {}
    ensures outboxManager.Valid()
    ensures outboxManager.outboxes == old(outboxManager.outboxes) - {node.id}
    ensures node.id in old(outboxManager.outboxes) ==> old(outboxManager.outboxes)[node.id].phase.Stopped?
    ensures connectionManager.connections == old(connectionManager.connections) - {node.id}
  {
    outboxManager.StopOutbox(node);
    connectionManager.CloseConnection(node.id);
  }
}
