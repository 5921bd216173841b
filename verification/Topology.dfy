/** src/rosy/node/topology.py: MeshTopologyManager. */
module Topology {
  import opened Specs

  type Labels = MeshNodeSpec -> set<string>

  function TopicsOf(node: MeshNodeSpec): set<string> {
    node.topics
  }

  function ServicesOf(node: MeshNodeSpec): set<string> {
    node.services
  }

  /** The nodes with a label, in topology order. */
  function Labelled(nodes: seq<MeshNodeSpec>, labels: Labels, name: string): seq<MeshNodeSpec> {
    if nodes == [] then []
    else
      var last := nodes[|nodes| - 1];
      Labelled(nodes[..|nodes| - 1], labels, name) + if name in labels(last) then [last] else []
  }

  /** `d[key]` on a defaultdict of lists. */
  function Lookup(d: map<string, seq<MeshNodeSpec>>, key: string): seq<MeshNodeSpec> {
    if key in d then d[key] else []
  }

  function IdsOf(nodes: seq<MeshNodeSpec>): set<NodeId> {
    set n | n in nodes :: n.id
  }

  function Removed(nodes: seq<MeshNodeSpec>, newNodes: seq<MeshNodeSpec>): seq<MeshNodeSpec> {
    if nodes == [] then []
    else (if nodes[0].id in IdsOf(newNodes) then [] else [nodes[0]]) + Removed(nodes[1..], newNodes)
  }

  lemma {:induction false} RemovedExactly(nodes: seq<MeshNodeSpec>, newNodes: seq<MeshNodeSpec>, n: MeshNodeSpec)
    ensures n in Removed(nodes, newNodes) <==> n in nodes && n.id !in IdsOf(newNodes)
  {
    if nodes != [] {
      RemovedExactly(nodes[1..], newNodes, n);
      assert nodes == [nodes[0]] + nodes[1..];
    }
  }

  /** A lookup gives exactly the nodes with that label; none is repeated or left out, and their order is
      that of the topology. */
  lemma {:induction false} LabelledExactly(nodes: seq<MeshNodeSpec>, labels: Labels, name: string, n: MeshNodeSpec)
    ensures multiset(Labelled(nodes, labels, name))[n] == if name in labels(n) then multiset(nodes)[n] else 0
  {
    if nodes != [] {
      var front, last := nodes[..|nodes| - 1], nodes[|nodes| - 1];
      LabelledExactly(front, labels, name, n);
      assert nodes == front + [last];
    }
  }

  /** `found` are the nodes at the places `at`, in topology order. */
  ghost predicate AreAt(found: seq<MeshNodeSpec>, nodes: seq<MeshNodeSpec>, at: seq<nat>) {
    && |found| == |at|
    && (forall i :: 0 <= i < |at| ==> at[i] < |nodes| && found[i] == nodes[at[i]])
    && forall i, j :: 0 <= i < j < |at| ==> at[i] < at[j]
  }

  /** `found` are the nodes that list the topic under their topics, in topology order. */
  ghost predicate AreListeners(found: seq<MeshNodeSpec>, nodes: seq<MeshNodeSpec>, topic: string, at: seq<nat>) {
    AreAt(found, nodes, at) && forall k: nat :: k in at <==> k < |nodes| && topic in nodes[k].topics
  }

  /** `found` are the nodes that list the service under their services, in topology order. */
  ghost predicate AreProviders(found: seq<MeshNodeSpec>, nodes: seq<MeshNodeSpec>, service: string, at: seq<nat>) {
    AreAt(found, nodes, at) && forall k: nat :: k in at <==> k < |nodes| && service in nodes[k].services
  }

  /** A lookup gives the nodes that have the label as the topology has them, one after the other. */
  lemma {:induction false} LabelledInOrder(nodes: seq<MeshNodeSpec>, labels: Labels, name: string)
    returns (at: seq<nat>)
    ensures AreAt(Labelled(nodes, labels, name), nodes, at)
    ensures forall k: nat :: k in at <==> k < |nodes| && name in labels(nodes[k])
  {
    at := [];
    if nodes != [] {
      var front, last := nodes[..|nodes| - 1], nodes[|nodes| - 1];
      at := LabelledInOrder(front, labels, name);
      assert nodes == front + [last];
      if name in labels(last) {
        at := OneMorePlace(Labelled(front, labels, name), front, at, last);
      }
    }
  }

  lemma OneMorePlace(found: seq<MeshNodeSpec>, nodes: seq<MeshNodeSpec>, at: seq<nat>, last: MeshNodeSpec)
    returns (more: seq<nat>)
    requires AreAt(found, nodes, at)
    ensures AreAt(found + [last], nodes + [last], more)
    ensures forall k: nat :: k in more <==> k in at || k == |nodes|
  {
    more := at + [|nodes|];
    assert more[|at|] == |nodes|;
    forall k | k in at ensures k in more {
      var i :| 0 <= i < |at| && at[i] == k;
      assert more[i] == k;
    }
  }

  lemma ListenersInOrder(nodes: seq<MeshNodeSpec>, topic: string) returns (at: seq<nat>)
    ensures AreListeners(Labelled(nodes, TopicsOf, topic), nodes, topic, at)
  {
    at := LabelledInOrder(nodes, TopicsOf, topic);
  }

  lemma ProvidersInOrder(nodes: seq<MeshNodeSpec>, service: string) returns (at: seq<nat>)
    ensures AreProviders(Labelled(nodes, ServicesOf, service), nodes, service, at)
  {
    at := LabelledInOrder(nodes, ServicesOf, service);
  }

  /** One more node in an index. */
  function AddNode(cache: map<string, seq<MeshNodeSpec>>, node: MeshNodeSpec, name: string):
    map<string, seq<MeshNodeSpec>>
  {
    cache[name := Lookup(cache, name) + [node]]
  }

  method CacheNode(cache: map<string, seq<MeshNodeSpec>>, labels: Labels, node: MeshNodeSpec)
    returns (r: map<string, seq<MeshNodeSpec>>)
    ensures forall name :: Lookup(r, name) == Lookup(cache, name) + (if name in labels(node) then [node] else [])
  {
    r := cache;
    var left := labels(node);
    while left != {}
      invariant left <= labels(node)
      invariant forall name ::
        Lookup(r, name) == Lookup(cache, name) + (if name in labels(node) - left then [node] else [])
    {
      var name :| name in left;
      r := AddNode(r, node, name);
      left := left - {name};
    }
  }

  method CacheNodes(nodes: seq<MeshNodeSpec>, labels: Labels) returns (cache: map<string, seq<MeshNodeSpec>>)
    ensures forall name :: Lookup(cache, name) == Labelled(nodes, labels, name)
  {
    cache := map[];
    for i := 0 to |nodes|
      invariant forall name :: Lookup(cache, name) == Labelled(nodes[..i], labels, name)
    {
      cache := CacheNode(cache, labels, nodes[i]);
      assert nodes[..i + 1][..i] == nodes[..i];
    }
    assert nodes[..|nodes|] == nodes;
  }

  class MeshTopologyManager {
    var nodes: seq<MeshNodeSpec>
    var topicNodesCache: map<string, seq<MeshNodeSpec>>
    var serviceNodesCache: map<string, seq<MeshNodeSpec>>

    /** The indexes answer for the current topology. */
    ghost predicate Valid()
      reads this
    {
      forall name ::
        && Lookup(topicNodesCache, name) == Labelled(nodes, TopicsOf, name)
        && Lookup(serviceNodesCache, name) == Labelled(nodes, ServicesOf, name)
    }

    constructor ()
      ensures Valid() && nodes == []
    {
      nodes, topicNodesCache, serviceNodesCache := [], map[], map[];
    }

    method SetTopology(topology: seq<MeshNodeSpec>)
      modifies this
      ensures Valid() && nodes == topology
    {
      nodes := topology;
      topicNodesCache := CacheNodes(nodes, TopicsOf);
      serviceNodesCache := CacheNodes(nodes, ServicesOf);
    }

    /** Asking for a topic nobody listens to stores an empty list, which changes no answer. */
    method GetNodesListeningToTopic(topic: string) returns (listening: seq<MeshNodeSpec>)
      requires Valid()
      modifies this
      ensures Valid() && nodes == old(nodes)
      ensures listening == Labelled(nodes, TopicsOf, topic)
      ensures exists at :: AreListeners(listening, nodes, topic, at)
    {
      ghost var at := ListenersInOrder(nodes, topic);
      listening := Lookup(topicNodesCache, topic);
      topicNodesCache := topicNodesCache[topic := listening];
    }

    method GetNodesProvidingService(service: string) returns (providing: seq<MeshNodeSpec>)
      requires Valid()
      modifies this
      ensures Valid() && nodes == old(nodes)
      ensures providing == Labelled(nodes, ServicesOf, service)
      ensures exists at :: AreProviders(providing, nodes, service, at)
    {
      ghost var at := ProvidersInOrder(nodes, service);
      providing := Lookup(serviceNodesCache, service);
      serviceNodesCache := serviceNodesCache[service := providing];
    }

    function GetRemovedNodes(newTopology: seq<MeshNodeSpec>): seq<MeshNodeSpec>
      reads this
    {
      Removed(nodes, newTopology)
    }
  }
}
