/** src/rosy/node/loadbalancing.py: name groups, and the round robin they add up to. */
module Grouping {
  import opened Specs
  import opened LoadBalancing

  // ---------- sorted and groupby ----------

  /** Python's order of strings. */
  predicate Less(a: string, b: string) {
    if b == "" then false
    else if a == "" then true
    else if a[0] != b[0] then a[0] < b[0]
    else Less(a[1..], b[1..])
  }

  type GroupKey = MeshNodeSpec -> string

  function NodeName(node: MeshNodeSpec): string {
    node.id.name
  }

  /** The stable sort by key. */
  function Sorted(nodes: seq<MeshNodeSpec>, key: GroupKey): seq<MeshNodeSpec> {
    if nodes == [] then [] else Insert(nodes[0], Sorted(nodes[1..], key), key)
  }

  function Insert(node: MeshNodeSpec, nodes: seq<MeshNodeSpec>, key: GroupKey): seq<MeshNodeSpec> {
    if nodes != [] && Less(key(nodes[0]), key(node)) then [nodes[0]] + Insert(node, nodes[1..], key)
    else [node] + nodes
  }

  /** Maximal stretches of neighbours with the same key. */
  function GroupBy(nodes: seq<MeshNodeSpec>, key: GroupKey): (groups: seq<seq<MeshNodeSpec>>)
    ensures forall i :: 0 <= i < |groups| ==> groups[i] != []
  {
    if nodes == [] then []
    else
      var groups := GroupBy(nodes[1..], key);
      if groups != [] && key(groups[0][0]) == key(nodes[0]) then [[nodes[0]] + groups[0]] + groups[1..]
      else [[nodes[0]]] + groups
  }

  function Groups(nodes: seq<MeshNodeSpec>, key: GroupKey): (groups: seq<seq<MeshNodeSpec>>)
    ensures forall i :: 0 <= i < |groups| ==> groups[i] != []
  {
    GroupBy(Sorted(nodes, key), key)
  }

  function WithKey(nodes: seq<MeshNodeSpec>, key: GroupKey, k: string): seq<MeshNodeSpec> {
    if nodes == [] then []
    else (if key(nodes[0]) == k then [nodes[0]] else []) + WithKey(nodes[1..], key, k)
  }

  ghost predicate Ascending(nodes: seq<MeshNodeSpec>, key: GroupKey) {
    |nodes| > 1 ==> !Less(key(nodes[1]), key(nodes[0])) && Ascending(nodes[1..], key)
  }

  lemma {:induction false} LessIsTotal(a: string, b: string)
    ensures Less(a, b) || a == b || Less(b, a)
    ensures !(Less(a, b) && Less(b, a)) && !Less(a, a)
  {
    if a != "" && b != "" {
      LessIsTotal(a[1..], b[1..]);
      assert a == [a[0]] + a[1..] && b == [b[0]] + b[1..];
    } else if a != "" {
      LessIsTotal(a[1..], a[1..]);
    }
  }

  lemma {:induction false} LessIsTransitive(a: string, b: string, c: string)
    requires Less(a, b) && Less(b, c)
    ensures Less(a, c)
  {
    if a != "" && a[0] == b[0] == c[0] {
      LessIsTransitive(a[1..], b[1..], c[1..]);
    }
  }

  /** The strings agree before i, and there a ends or has the smaller character. */
  predicate FirstDifference(a: string, b: string, i: nat) {
    && i <= |a| && i < |b| && a[..i] == b[..i]
    && (i < |a| ==> a[i] < b[i])
  }

  lemma {:induction false} LessIsLexicographic(a: string, b: string)
    ensures Less(a, b) <==> exists i :: FirstDifference(a, b, i)
  {
    if b != "" && a != "" && a[0] == b[0] {
      LessIsLexicographic(a[1..], b[1..]);
      forall i: nat ensures FirstDifference(a[1..], b[1..], i) <==> FirstDifference(a, b, i + 1) {
        assert i < |a| && i < |b| ==> a[..i + 1] == [a[0]] + a[1..][..i] && b[..i + 1] == [b[0]] + b[1..][..i];
        assert i < |a| && i < |b| ==> a[..i + 1][1..] == a[1..][..i] && b[..i + 1][1..] == b[1..][..i];
      }
      if i: nat :| FirstDifference(a, b, i) {
        assert FirstDifference(a[1..], b[1..], i - 1);
      }
    } else {
      assert Less(a, b) ==> FirstDifference(a, b, 0);
      if i: nat :| FirstDifference(a, b, i) {
        assert i > 0 ==> a[..i][0] == b[..i][0];
      }
    }
  }

  lemma {:induction false} InsertKeepsOrder(node: MeshNodeSpec, nodes: seq<MeshNodeSpec>, key: GroupKey)
    requires Ascending(nodes, key)
    ensures Ascending(Insert(node, nodes, key), key)
  {
    if nodes != [] {
      LessIsTotal(key(nodes[0]), key(node));
      if Less(key(nodes[0]), key(node)) {
        var tail := Insert(node, nodes[1..], key);
        InsertKeepsOrder(node, nodes[1..], key);
        assert ([nodes[0]] + tail)[1..] == tail;
      } else {
        assert ([node] + nodes)[1..] == nodes;
      }
    }
  }

  lemma {:induction false} InsertIsStable(node: MeshNodeSpec, nodes: seq<MeshNodeSpec>, key: GroupKey, k: string)
    ensures WithKey(Insert(node, nodes, key), key, k) == WithKey([node] + nodes, key, k)
  {
    assert ([node] + nodes)[1..] == nodes;
    if nodes != [] && Less(key(nodes[0]), key(node)) {
      var tail := Insert(node, nodes[1..], key);
      InsertIsStable(node, nodes[1..], key, k);
      LessIsTotal(key(nodes[0]), key(node));
      assert ([nodes[0]] + tail)[1..] == tail && ([node] + nodes[1..])[1..] == nodes[1..];
    }
  }

  lemma {:induction false} SortedIsStable(nodes: seq<MeshNodeSpec>, key: GroupKey, k: string)
    ensures Ascending(Sorted(nodes, key), key)
    ensures WithKey(Sorted(nodes, key), key, k) == WithKey(nodes, key, k)
  {
    if nodes != [] {
      var tail := Sorted(nodes[1..], key);
      SortedIsStable(nodes[1..], key, k);
      InsertKeepsOrder(nodes[0], tail, key);
      InsertIsStable(nodes[0], tail, key, k);
      assert ([nodes[0]] + tail)[1..] == tail;
    }
  }

  lemma {:induction false} NoneWithKey(nodes: seq<MeshNodeSpec>, key: GroupKey, k: string)
    ensures WithKey(nodes, key, k) == [] <==> forall i :: 0 <= i < |nodes| ==> key(nodes[i]) != k
  {
    if nodes != [] {
      NoneWithKey(nodes[1..], key, k);
      assert forall i :: 0 < i < |nodes| ==> nodes[i] == nodes[1..][i - 1];
    }
  }

  /** Each group is all the nodes of one key, in the given order. */
  ghost predicate WholeGroups(groups: seq<seq<MeshNodeSpec>>, nodes: seq<MeshNodeSpec>, key: GroupKey) {
    forall i :: 0 <= i < |groups| ==> groups[i] != [] && groups[i] == WithKey(nodes, key, key(groups[i][0]))
  }

  ghost predicate KeysAscend(groups: seq<seq<MeshNodeSpec>>, key: GroupKey)
    requires forall i :: 0 <= i < |groups| ==> groups[i] != []
  {
    forall i, j :: 0 <= i < j < |groups| ==> Less(key(groups[i][0]), key(groups[j][0]))
  }

  ghost predicate HasGroup(groups: seq<seq<MeshNodeSpec>>, key: GroupKey, k: string) {
    exists i :: 0 <= i < |groups| && groups[i] != [] && key(groups[i][0]) == k
  }

  ghost predicate AllHaveGroups(groups: seq<seq<MeshNodeSpec>>, nodes: seq<MeshNodeSpec>, key: GroupKey) {
    forall n :: 0 <= n < |nodes| ==> HasGroup(groups, key, key(nodes[n]))
  }

  lemma {:induction false} GroupByPartitions(nodes: seq<MeshNodeSpec>, key: GroupKey)
    requires Ascending(nodes, key)
    ensures var groups := GroupBy(nodes, key);
      && WholeGroups(groups, nodes, key) && KeysAscend(groups, key) && AllHaveGroups(groups, nodes, key)
      && (nodes != [] ==> groups != [] && key(groups[0][0]) == key(nodes[0]))
  {
    if nodes != [] {
      var rest := GroupBy(nodes[1..], key);
      GroupByPartitions(nodes[1..], key);
      if rest != [] && key(rest[0][0]) == key(nodes[0]) {
        MergeKeepsWhole(nodes, key, rest);
        var groups := [[nodes[0]] + rest[0]] + rest[1..];
        forall i | 0 <= i < |groups| ensures key(groups[i][0]) == key(rest[i][0]) {
        }
        MoreHaveGroups(nodes, key, rest, groups);
      } else {
        StartsBelow(nodes, key, rest);
        StartKeepsWhole(nodes, key, rest);
        var groups := [[nodes[0]]] + rest;
        forall i | 0 <= i < |rest| ensures HasGroup(groups, key, key(rest[i][0])) {
          assert groups[i + 1] == rest[i];
        }
        MoreHaveGroups(nodes, key, rest, groups);
      }
    }
  }

  lemma MoreHaveGroups(nodes: seq<MeshNodeSpec>, key: GroupKey, rest: seq<seq<MeshNodeSpec>>,
                       groups: seq<seq<MeshNodeSpec>>)
    requires nodes != [] && groups != [] && groups[0] != [] && key(groups[0][0]) == key(nodes[0])
    requires AllHaveGroups(rest, nodes[1..], key)
    requires forall i :: 0 <= i < |rest| && rest[i] != [] ==> HasGroup(groups, key, key(rest[i][0]))
    ensures AllHaveGroups(groups, nodes, key)
  {
    forall n | 0 <= n < |nodes| ensures HasGroup(groups, key, key(nodes[n])) {
      if n > 0 {
        assert HasGroup(rest, key, key(nodes[1..][n - 1]));
      }
    }
  }

  lemma MergeKeepsWhole(nodes: seq<MeshNodeSpec>, key: GroupKey, rest: seq<seq<MeshNodeSpec>>)
    requires nodes != [] && WholeGroups(rest, nodes[1..], key) && KeysAscend(rest, key)
    requires rest != [] && key(rest[0][0]) == key(nodes[0])
    ensures WholeGroups([[nodes[0]] + rest[0]] + rest[1..], nodes, key)
  {
    var groups := [[nodes[0]] + rest[0]] + rest[1..];
    forall i | 0 <= i < |groups| ensures groups[i] != [] && groups[i] == WithKey(nodes, key, key(groups[i][0])) {
      if i > 0 {
        assert groups[i] == rest[i];
        LessIsTotal(key(rest[0][0]), key(rest[i][0]));
      }
    }
  }

  /** A node that does not join the first group comes before all of them. */
  lemma StartsBelow(nodes: seq<MeshNodeSpec>, key: GroupKey, rest: seq<seq<MeshNodeSpec>>)
    requires nodes != [] && Ascending(nodes, key) && WholeGroups(rest, nodes[1..], key) && KeysAscend(rest, key)
    requires |nodes| > 1 ==> rest != [] && key(rest[0][0]) == key(nodes[1]) != key(nodes[0])
    ensures forall i :: 0 <= i < |rest| ==> Less(key(nodes[0]), key(rest[i][0]))
  {
    forall i | 0 <= i < |rest| ensures Less(key(nodes[0]), key(rest[i][0])) {
      if |nodes| > 1 {
        LessIsTotal(key(nodes[0]), key(nodes[1]));
        if i > 0 {
          LessIsTransitive(key(nodes[0]), key(rest[0][0]), key(rest[i][0]));
        }
      }
    }
  }

  lemma StartKeepsWhole(nodes: seq<MeshNodeSpec>, key: GroupKey, rest: seq<seq<MeshNodeSpec>>)
    requires nodes != [] && WholeGroups(rest, nodes[1..], key) && AllHaveGroups(rest, nodes[1..], key)
    requires forall i :: 0 <= i < |rest| ==> Less(key(nodes[0]), key(rest[i][0]))
    ensures WholeGroups([[nodes[0]]] + rest, nodes, key)
  {
    var groups, k := [[nodes[0]]] + rest, key(nodes[0]);
    LessIsTotal(k, k);
    forall n | 0 <= n < |nodes[1..]| ensures key(nodes[1..][n]) != k {
      assert HasGroup(rest, key, key(nodes[1..][n]));
    }
    NoneWithKey(nodes[1..], key, k);
    forall i | 0 <= i < |groups| ensures groups[i] != [] && groups[i] == WithKey(nodes, key, key(groups[i][0])) {
      if i > 0 {
        assert groups[i] == rest[i - 1];
      }
    }
  }

  /** Sorting and grouping splits the listeners into their name groups. */
  lemma GroupsPartition(nodes: seq<MeshNodeSpec>, key: GroupKey)
    ensures var groups := Groups(nodes, key);
      WholeGroups(groups, nodes, key) && KeysAscend(groups, key) && AllHaveGroups(groups, nodes, key)
  {
    var s := Sorted(nodes, key);
    SortedIsStable(nodes, key, "");
    GroupByPartitions(s, key);
    var groups := Groups(nodes, key);
    forall i | 0 <= i < |groups| ensures groups[i] == WithKey(nodes, key, key(groups[i][0])) {
      SortedIsStable(nodes, key, key(groups[i][0]));
    }
    forall n | 0 <= n < |nodes| ensures HasGroup(groups, key, key(nodes[n])) {
      var k := key(nodes[n]);
      SortedIsStable(nodes, key, k);
      NoneWithKey(nodes, key, k);
      NoneWithKey(s, key, k);
      var m :| 0 <= m < |s| && key(s[m]) == k;
      assert HasGroup(groups, key, key(s[m]));
    }
  }

  // ---------- GroupingTopicLoadBalancer ----------

  class GroupingTopicLoadBalancer {
    const groupKey: GroupKey
    const loadBalancer: LeastRecentLoadBalancer

    constructor (groupKey: GroupKey, loadBalancer: LeastRecentLoadBalancer)
      ensures this.groupKey == groupKey && this.loadBalancer == loadBalancer
    {
      this.groupKey, this.loadBalancer := groupKey, loadBalancer;
    }

    /** One choice per group, in order of the keys, each made by the shared balancer. */
    method ChooseNodes(nodes: seq<MeshNodeSpec>, draws: NodeId -> real, nows: seq<real>)
      returns (chosen: seq<MeshNodeSpec>)
      requires |nows| == |Groups(nodes, groupKey)|
      modifies loadBalancer
      ensures var calls := CallsFor(Groups(nodes, groupKey), nows);
        && loadBalancer.lastUsed == UsedAfter(old(loadBalancer.lastUsed), loadBalancer.t0, draws, calls)
        && chosen == PicksOf(old(loadBalancer.lastUsed), loadBalancer.t0, draws, calls)
    {
      chosen := [];
      if nodes == [] {
        return;
      }
      var groups := Groups(nodes, groupKey);
      ghost var calls := CallsFor(groups, nows);
      for i := 0 to |groups|
        invariant loadBalancer.lastUsed == UsedAfter(old(loadBalancer.lastUsed), loadBalancer.t0, draws, calls[..i])
        invariant chosen == PicksOf(old(loadBalancer.lastUsed), loadBalancer.t0, draws, calls[..i])
      {
        var picked := loadBalancer.ChooseNodes(groups[i], draws, nows[i]);
        assert calls[..i + 1][..i] == calls[..i];
        chosen := chosen + picked;
      }
      assert calls[..|groups|] == calls;
    }
  }

  function PicksOf(used: map<NodeId, real>, t0: real, draws: NodeId -> real, calls: seq<Call>):
    (picks: seq<MeshNodeSpec>)
    requires SomebodyToChoose(calls)
    ensures |picks| == |calls|
    decreases |calls|
  {
    if calls == [] then []
    else
      var before, last := calls[..|calls| - 1], calls[|calls| - 1];
      PicksOf(used, t0, draws, before) + [Pick(UsedAfter(used, t0, draws, before), t0, draws, last.nodes)]
  }

  function CallsFor(groups: seq<seq<MeshNodeSpec>>, nows: seq<real>): (calls: seq<Call>)
    requires |nows| == |groups|
    requires forall i :: 0 <= i < |groups| ==> groups[i] != []
    ensures SomebodyToChoose(calls)
  {
    seq(|groups|, i requires 0 <= i < |groups| => Call(groups[i], nows[i]))
  }

  lemma {:induction false} PicksAreCandidates(used: map<NodeId, real>, t0: real, draws: NodeId -> real,
      calls: seq<Call>)
    requires SomebodyToChoose(calls)
    ensures forall i :: 0 <= i < |calls| ==> PicksOf(used, t0, draws, calls)[i] in calls[i].nodes
    decreases |calls|
  {
    if calls != [] {
      PicksAreCandidates(used, t0, draws, calls[..|calls| - 1]);
    }
  }
}
