/** What the least-recent choice amounts to for a group of nodes that is offered again and again: a
    round robin, which choices made elsewhere do not disturb. */
module RoundRobin {
  import opened Specs
  import opened LoadBalancing
  import opened Grouping

  /** `turns` are the choices in which the group was offered, in order: each offers the whole group, and
      from the first of them to the last no other choice offers any of it. */
  ghost predicate GroupTurns(h: History, group: set<NodeId>, turns: seq<nat>) {
    && (forall p :: 0 <= p < |turns| ==> turns[p] < |h.candidates| && OffersExactly(h, turns[p], group))
    && (forall p, q :: 0 <= p < q < |turns| ==> turns[p] < turns[q])
    && (|turns| > 0 ==> forall i :: turns[0] <= i <= turns[|turns| - 1] && i !in turns ==> OffersNone(h, i, group))
  }

  ghost predicate OffersExactly(h: History, i: nat, group: set<NodeId>)
    requires i < |h.candidates|
  {
    forall x :: x in h.candidates[i] <==> x in group
  }

  ghost predicate OffersNone(h: History, i: nat, group: set<NodeId>)
    requires i < |h.candidates|
  {
    forall x :: x in h.candidates[i] ==> x !in group
  }

  /** Who was picked in the group's turns p to q-1. */
  ghost function PickedIn(h: History, turns: seq<nat>, p: nat, q: nat): set<NodeId>
    requires p <= q <= |turns| && forall r :: 0 <= r < |turns| ==> turns[r] < |h.picks|
  {
    if p == q then {} else PickedIn(h, turns, p, q - 1) + {h.picks[turns[q - 1]]}
  }

  ghost predicate PickedBetween(h: History, turns: seq<nat>, p: nat, q: nat, x: NodeId)
    requires p <= q <= |turns| && forall r :: 0 <= r < |turns| ==> turns[r] < |h.picks|
  {
    exists r :: p <= r < q && h.picks[turns[r]] == x
  }

  lemma {:induction false} PickedInContains(h: History, turns: seq<nat>, p: nat, q: nat, x: NodeId)
    requires p <= q <= |turns| && forall r :: 0 <= r < |turns| ==> turns[r] < |h.picks|
    ensures x in PickedIn(h, turns, p, q) <==> PickedBetween(h, turns, p, q, x)
    ensures |PickedIn(h, turns, p, q)| <= q - p
  {
    if p < q {
      PickedInContains(h, turns, p, q - 1, x);
    }
  }

  lemma {:induction false} UnusedSince(h: History, first: NodeId -> real, i: nat, j: nat, x: NodeId)
    requires i <= j <= |h.picks| == |h.times|
    requires forall k :: i <= k < j ==> h.picks[k] != x
    ensures LastUse(h, first, j, x) == LastUse(h, first, i, x)
  {
    if i < j {
      UnusedSince(h, first, i, j - 1, x);
    }
  }

  lemma {:induction false} UsedSince(h: History, first: NodeId -> real, i: nat, j: nat, x: NodeId)
    requires i < j <= |h.picks| == |h.times| && ClockRuns(h, first)
    requires h.picks[i] == x
    ensures LastUse(h, first, j, x) >= h.times[i]
  {
    if i + 1 < j {
      UsedSince(h, first, i, j - 1, x);
    }
  }

  /** Two turns less than a whole round apart pick different members. */
  lemma PicksDiffer(h: History, first: NodeId -> real, group: set<NodeId>, turns: seq<nat>, p: nat, q: nat)
    requires LeastRecentEachTime(h, first) && ClockRuns(h, first) && GroupTurns(h, group, turns)
    requires p < q < |turns| && q - p < |group|
    ensures h.picks[turns[p]] != h.picks[turns[q]]
  {
    var i, j, x := turns[p], turns[q], h.picks[turns[q]];
    if h.picks[i] == x {
      var y := SomebodyLeftOut(h, group, turns, p, q);
      forall k: nat | i <= k < j ensures h.picks[k] != y {
        assert LeastRecentAt(h, first, k);
        if k in turns {
          var r :| 0 <= r < |turns| && turns[r] == k;
          assert p <= r < q;
          PickedInContains(h, turns, p, q, y);
        } else {
          assert OffersNone(h, k, group);
        }
      }
      assert OffersExactly(h, j, group) && LeastRecentAt(h, first, j);
      UnusedSince(h, first, i, j, y);
      UsedInThePast(h, first, i, y);
      UsedSince(h, first, i, j, x);
    }
  }

  lemma SomebodyLeftOut(h: History, group: set<NodeId>, turns: seq<nat>, p: nat, q: nat) returns (y: NodeId)
    requires |h.candidates| == |h.picks| && GroupTurns(h, group, turns)
    requires p <= q <= |turns| && q - p < |group|
    ensures y in group && y !in PickedIn(h, turns, p, q)
  {
    var picked := PickedIn(h, turns, p, q);
    if group <= picked {
      CardinalityOfSubset(group, picked);
      PickedInContains(h, turns, p, q, h.picks[turns[p]]);
    }
    y :| y in group && y !in picked;
  }

  lemma PickIsNew(h: History, first: NodeId -> real, group: set<NodeId>, turns: seq<nat>, p: nat, q: nat)
    requires LeastRecentEachTime(h, first) && ClockRuns(h, first) && GroupTurns(h, group, turns)
    requires p <= q < |turns| && q - p < |group|
    ensures h.picks[turns[q]] in group && h.picks[turns[q]] !in PickedIn(h, turns, p, q)
  {
    var x := h.picks[turns[q]];
    assert OffersExactly(h, turns[q], group) && LeastRecentAt(h, first, turns[q]);
    PickedInContains(h, turns, p, q, x);
    forall r | p <= r < q ensures h.picks[turns[r]] != x {
      PicksDiffer(h, first, group, turns, r, q);
    }
  }

  lemma {:induction false} PicksAreOfTheGroup(h: History, first: NodeId -> real, group: set<NodeId>,
      turns: seq<nat>, p: nat, q: nat)
    requires LeastRecentEachTime(h, first) && ClockRuns(h, first) && GroupTurns(h, group, turns)
    requires p <= q <= |turns| && q - p <= |group|
    ensures PickedIn(h, turns, p, q) <= group && |PickedIn(h, turns, p, q)| == q - p
  {
    if p < q {
      PicksAreOfTheGroup(h, first, group, turns, p, q - 1);
      PickIsNew(h, first, group, turns, p, q - 1);
    }
  }

  /** Any |group| consecutive turns pick every member exactly once, and after that many turns the same
      member comes again. */
  lemma RoundRobinOfGroup(h: History, first: NodeId -> real, group: set<NodeId>, turns: seq<nat>, p: nat)
    requires LeastRecentEachTime(h, first) && ClockRuns(h, first) && GroupTurns(h, group, turns)
    requires 0 < |group| && p + |group| <= |turns|
    ensures PickedIn(h, turns, p, p + |group|) == group
    ensures forall r, s :: p <= r < s < p + |group| ==> h.picks[turns[r]] != h.picks[turns[s]]
    ensures p + |group| < |turns| ==> h.picks[turns[p + |group|]] == h.picks[turns[p]]
  {
    var k := |group|;
    WholeRound(h, first, group, turns, p);
    forall r, s | p <= r < s < p + k ensures h.picks[turns[r]] != h.picks[turns[s]] {
      PicksDiffer(h, first, group, turns, r, s);
    }
    if p + k < |turns| {
      NextRoundStartsAlike(h, first, group, turns, p);
    }
  }

  lemma NextRoundStartsAlike(h: History, first: NodeId -> real, group: set<NodeId>, turns: seq<nat>, p: nat)
    requires LeastRecentEachTime(h, first) && ClockRuns(h, first) && GroupTurns(h, group, turns)
    requires 0 < |group| && p + |group| < |turns|
    ensures h.picks[turns[p + |group|]] == h.picks[turns[p]]
  {
    var k, x := |group|, h.picks[turns[p]];
    PickIsNew(h, first, group, turns, p, p);
    WholeRound(h, first, group, turns, p + 1);
    PickedInContains(h, turns, p + 1, p + 1 + k, x);
    forall r | p < r < p + k ensures h.picks[turns[r]] != x {
      PicksDiffer(h, first, group, turns, p, r);
    }
  }

  lemma WholeRound(h: History, first: NodeId -> real, group: set<NodeId>, turns: seq<nat>, p: nat)
    requires LeastRecentEachTime(h, first) && ClockRuns(h, first) && GroupTurns(h, group, turns)
    requires p + |group| <= |turns|
    ensures PickedIn(h, turns, p, p + |group|) == group
  {
    var picked := PickedIn(h, turns, p, p + |group|);
    PicksAreOfTheGroup(h, first, group, turns, p, p + |group|);
    assert group == picked + (group - picked);
  }

  // ---------- Topic sends ----------

  ghost predicate DistinctIds(nodes: seq<MeshNodeSpec>) {
    forall i, j :: 0 <= i < j < |nodes| ==> nodes[i].id != nodes[j].id
  }

  ghost function IdSet(nodes: seq<MeshNodeSpec>): set<NodeId> {
    set x | x in Ids(nodes)
  }

  lemma {:induction false} WithKeyIsPart(nodes: seq<MeshNodeSpec>, key: GroupKey, k: string)
    requires DistinctIds(nodes)
    ensures forall m :: m in WithKey(nodes, key, k) <==> m in nodes && key(m) == k
    ensures DistinctIds(WithKey(nodes, key, k))
  {
    if nodes != [] {
      WithKeyIsPart(nodes[1..], key, k);
      assert nodes == [nodes[0]] + nodes[1..];
      assert forall m :: m in nodes[1..] ==> m.id != nodes[0].id;
    }
  }

  lemma {:induction false} IdSetSize(nodes: seq<MeshNodeSpec>)
    requires DistinctIds(nodes)
    ensures |IdSet(nodes)| == |nodes|
  {
    if nodes != [] {
      var tail := nodes[1..];
      IdSetSize(tail);
      assert Ids(nodes) == [nodes[0].id] + Ids(tail);
      assert IdSet(nodes) == {nodes[0].id} + IdSet(tail);
      assert nodes[0].id !in IdSet(tail);
    }
  }

  /** The choice that send a makes for group j, when sends start at choice `start` and make g each. */
  function Turn(start: nat, g: nat, a: nat, j: nat): nat {
    start + a * g + j
  }

  /** From choice `start` on, `sends` topic sends to the same listeners and nothing else: each makes one
      choice per group, in the order of the groups. */
  ghost predicate Rounds(calls: seq<Call>, start: nat, groups: seq<seq<MeshNodeSpec>>, sends: nat) {
    && |calls| == start + sends * |groups|
    && forall a, j :: 0 <= a < sends && 0 <= j < |groups| ==>
         Turn(start, |groups|, a, j) < |calls| && calls[Turn(start, |groups|, a, j)].nodes == groups[j]
  }

  /** The choices that the sends make for group j. */
  function TurnsFor(start: nat, g: nat, sends: nat, j: nat): (turns: seq<nat>)
    ensures |turns| == sends
    ensures forall a :: 0 <= a < sends ==> turns[a] == Turn(start, g, a, j)
  {
    seq(sends, a requires 0 <= a < sends => Turn(start, g, a, j))
  }

  lemma MultiplesAscend(a: nat, b: nat, g: nat)
    requires a <= b
    ensures a * g <= b * g
  {
  }

  lemma TurnOf(start: nat, g: nat, sends: nat, i: nat) returns (a: nat, j: nat)
    requires start <= i < start + sends * g
    ensures a < sends && j < g && i == Turn(start, g, a, j)
  {
    var o := i - start;
    assert g > 0;
    a, j := o / g, o % g;
    assert o == a * g + j;
    if sends <= a {
      MultiplesAscend(sends, a, g);
    }
  }

  lemma TurnsAscend(start: nat, g: nat, a: nat, b: nat, j: nat)
    requires a < b && j < g
    ensures Turn(start, g, a, j) < Turn(start, g, b, j)
  {
    MultiplesAscend(a + 1, b, g);
  }

  lemma DistinctIdsIdentify(nodes: seq<MeshNodeSpec>, m: MeshNodeSpec, n: MeshNodeSpec)
    requires DistinctIds(nodes) && m in nodes && n in nodes && m.id == n.id
    ensures m == n
  {
  }

  /** The groups of distinct listeners share no member. */
  lemma GroupsAreDisjoint(nodes: seq<MeshNodeSpec>, key: GroupKey, u: nat, v: nat)
    requires DistinctIds(nodes)
    requires u < |Groups(nodes, key)| && v < |Groups(nodes, key)| && u != v
    ensures forall m: MeshNodeSpec, n: MeshNodeSpec ::
      m in Groups(nodes, key)[u] && n in Groups(nodes, key)[v] ==> m.id != n.id
  {
    var groups := Groups(nodes, key);
    GroupsPartition(nodes, key);
    var ku, kv := key(groups[u][0]), key(groups[v][0]);
    WithKeyIsPart(nodes, key, ku);
    WithKeyIsPart(nodes, key, kv);
    LessIsTotal(ku, kv);
    LessIsTotal(ku, ku);
    assert ku != kv;
    forall m: MeshNodeSpec, n: MeshNodeSpec | m in groups[u] && n in groups[v] ensures m.id != n.id {
      assert key(m) == ku && key(n) == kv;
      if m.id == n.id {
        DistinctIdsIdentify(nodes, m, n);
      }
    }
  }

  lemma GroupIdsAreDisjoint(nodes: seq<MeshNodeSpec>, key: GroupKey, u: nat, v: nat)
    requires DistinctIds(nodes)
    requires u < |Groups(nodes, key)| && v < |Groups(nodes, key)| && u != v
    ensures forall x :: x in Ids(Groups(nodes, key)[u]) ==> x !in IdSet(Groups(nodes, key)[v])
  {
    var a, b := Groups(nodes, key)[u], Groups(nodes, key)[v];
    GroupsAreDisjoint(nodes, key, u, v);
    forall i, k | 0 <= i < |a| && 0 <= k < |b| ensures Ids(a)[i] != Ids(b)[k] {
      assert a[i] in a && b[k] in b;
    }
  }

  lemma SendsOfferTheGroup(t0: real, draws: NodeId -> real, calls: seq<Call>, start: nat,
                           groups: seq<seq<MeshNodeSpec>>, sends: nat, j: nat, a: nat)
    requires SomebodyToChoose(calls) && Rounds(calls, start, groups, sends) && j < |groups| && a < sends
    ensures Turn(start, |groups|, a, j) < |calls|
    ensures OffersExactly(HistoryOf(t0, draws, calls), Turn(start, |groups|, a, j), IdSet(groups[j]))
  {
    var i := Turn(start, |groups|, a, j);
    assert HistoryOf(t0, draws, calls).candidates[i] == Ids(calls[i].nodes);
  }

  lemma OthersOfferNone(t0: real, draws: NodeId -> real, calls: seq<Call>, start: nat, nodes: seq<MeshNodeSpec>,
                        key: GroupKey, sends: nat, j: nat, i: nat)
    requires SomebodyToChoose(calls) && DistinctIds(nodes)
    requires j < |Groups(nodes, key)| && Rounds(calls, start, Groups(nodes, key), sends)
    requires start <= i < |calls| && i !in TurnsFor(start, |Groups(nodes, key)|, sends, j)
    ensures OffersNone(HistoryOf(t0, draws, calls), i, IdSet(Groups(nodes, key)[j]))
  {
    var groups := Groups(nodes, key);
    var a, u := TurnOf(start, |groups|, sends, i);
    assert calls[Turn(start, |groups|, a, u)].nodes == groups[u];
    assert HistoryOf(t0, draws, calls).candidates[i] == Ids(groups[u]);
    assert TurnsFor(start, |groups|, sends, j)[a] == Turn(start, |groups|, a, j);
    if u != j {
      GroupIdsAreDisjoint(nodes, key, u, j);
    }
  }

  lemma SendsGiveTurns(t0: real, draws: NodeId -> real, calls: seq<Call>, start: nat, nodes: seq<MeshNodeSpec>,
                       key: GroupKey, sends: nat, j: nat)
    requires SomebodyToChoose(calls) && DistinctIds(nodes)
    requires j < |Groups(nodes, key)| && Rounds(calls, start, Groups(nodes, key), sends)
    ensures var groups := Groups(nodes, key);
      GroupTurns(HistoryOf(t0, draws, calls), IdSet(groups[j]), TurnsFor(start, |groups|, sends, j))
  {
    var groups := Groups(nodes, key);
    var turns := TurnsFor(start, |groups|, sends, j);
    var h, group := HistoryOf(t0, draws, calls), IdSet(groups[j]);
    forall a | 0 <= a < sends ensures turns[a] < |calls| && OffersExactly(h, turns[a], group) {
      SendsOfferTheGroup(t0, draws, calls, start, groups, sends, j, a);
    }
    forall a, b | 0 <= a < b < sends ensures turns[a] < turns[b] {
      TurnsAscend(start, |groups|, a, b, j);
    }
    if sends > 0 {
      forall i | turns[0] <= i <= turns[sends - 1] && i !in turns ensures OffersNone(h, i, group) {
        OthersOfferNone(t0, draws, calls, start, nodes, key, sends, j, i);
      }
    }
  }

  /** The |group| turns from p on pick every member exactly once, and the turn after them picks as turn p. */
  ghost predicate GoesRound(h: History, group: seq<MeshNodeSpec>, turns: seq<nat>, p: nat) {
    && p + |group| <= |turns|
    && (forall a :: 0 <= a < |turns| ==> turns[a] < |h.picks|)
    && PickedIn(h, turns, p, p + |group|) == IdSet(group)
    && (forall a, b :: p <= a < b < p + |group| ==> h.picks[turns[a]] != h.picks[turns[b]])
    && (p + |group| < |turns| ==> h.picks[turns[p + |group|]] == h.picks[turns[p]])
  }

  /** The round robin of a group, in terms of its members' IDs. */
  lemma GroupGoesRound(h: History, first: NodeId -> real, group: seq<MeshNodeSpec>, turns: seq<nat>, p: nat)
    requires LeastRecentEachTime(h, first) && ClockRuns(h, first) && GroupTurns(h, IdSet(group), turns)
    requires DistinctIds(group) && group != [] && p + |group| <= |turns|
    ensures GoesRound(h, group, turns, p)
  {
    IdSetSize(group);
    RoundRobinOfGroup(h, first, IdSet(group), turns, p);
  }

  /** Topic sends to fixed listeners, with no other use of the balancer in between and whatever use of it
      before: for each name group of k members, any k consecutive sends pick every member exactly once,
      and the picks repeat with period k. The groups do not disturb each other although they share the
      balancer. */
  lemma TopicSendsGoRound(t0: real, draws: NodeId -> real, calls: seq<Call>, start: nat, nodes: seq<MeshNodeSpec>,
                          key: GroupKey, sends: nat, j: nat, p: nat)
    requires SomebodyToChoose(calls) && DistinctIds(nodes)
    requires 0.0 <= t0 && forall y :: 0.0 <= draws(y) < 1.0
    requires forall i :: 0 <= i < |calls| ==> t0 < calls[i].now
    requires forall i, k :: 0 <= i < k < |calls| ==> calls[i].now < calls[k].now
    requires j < |Groups(nodes, key)| && Rounds(calls, start, Groups(nodes, key), sends)
    requires p + |Groups(nodes, key)[j]| <= sends
    ensures GoesRound(HistoryOf(t0, draws, calls), Groups(nodes, key)[j],
                      TurnsFor(start, |Groups(nodes, key)|, sends, j), p)
  {
    var groups := Groups(nodes, key);
    BalancerIsLeastRecent(t0, draws, calls);
    BalancerClockRuns(t0, draws, calls);
    SendsGiveTurns(t0, draws, calls, start, nodes, key, sends, j);
    GroupsPartition(nodes, key);
    WithKeyIsPart(nodes, key, key(groups[j][0]));
    GroupGoesRound(HistoryOf(t0, draws, calls), Defaults(t0, draws), groups[j], TurnsFor(start, |groups|, sends, j), p);
  }

  lemma MembersAreListeners(nodes: seq<MeshNodeSpec>, key: GroupKey, u: nat)
    requires DistinctIds(nodes) && u < |Groups(nodes, key)|
    ensures forall m :: m in Groups(nodes, key)[u] ==> m in nodes && key(m) == key(Groups(nodes, key)[u][0])
  {
    GroupsPartition(nodes, key);
    WithKeyIsPart(nodes, key, key(Groups(nodes, key)[u][0]));
  }

  lemma ChosenIsMember(used: map<NodeId, real>, t0: real, draws: NodeId -> real, nodes: seq<MeshNodeSpec>,
                       key: GroupKey, nows: seq<real>, i: nat)
    requires DistinctIds(nodes) && |nows| == |Groups(nodes, key)| && i < |nows|
    ensures var m := PicksOf(used, t0, draws, CallsFor(Groups(nodes, key), nows))[i];
      m in Groups(nodes, key)[i] && m in nodes && key(m) == key(Groups(nodes, key)[i][0])
  {
    PicksAreCandidates(used, t0, draws, CallsFor(Groups(nodes, key), nows));
    MembersAreListeners(nodes, key, i);
  }

  ghost predicate OneOfEach(chosen: seq<MeshNodeSpec>, nodes: seq<MeshNodeSpec>, key: GroupKey) {
    && DistinctIds(chosen)
    && (forall i :: 0 <= i < |chosen| ==> chosen[i] in nodes)
    && (forall i, j :: 0 <= i < j < |chosen| ==> key(chosen[i]) != key(chosen[j]))
    && (forall n :: 0 <= n < |nodes| ==> HasOneOf(chosen, key, key(nodes[n])))
  }

  ghost predicate HasOneOf(chosen: seq<MeshNodeSpec>, key: GroupKey, k: string) {
    exists i :: 0 <= i < |chosen| && key(chosen[i]) == k
  }

  /** A send chooses one listener of each name and nobody twice. */
  lemma OneOfEachName(used: map<NodeId, real>, t0: real, draws: NodeId -> real, nodes: seq<MeshNodeSpec>,
                      key: GroupKey, nows: seq<real>)
    requires DistinctIds(nodes) && |nows| == |Groups(nodes, key)|
    ensures OneOfEach(PicksOf(used, t0, draws, CallsFor(Groups(nodes, key), nows)), nodes, key)
  {
    var groups := Groups(nodes, key);
    var chosen := PicksOf(used, t0, draws, CallsFor(groups, nows));
    assert |chosen| == |groups|;
    forall i | 0 <= i < |chosen|
      ensures chosen[i] in groups[i] && chosen[i] in nodes && key(chosen[i]) == key(groups[i][0])
    {
      ChosenIsMember(used, t0, draws, nodes, key, nows, i);
    }
    MembersOfGroups(chosen, nodes, key);
  }

  lemma MembersOfGroups(chosen: seq<MeshNodeSpec>, nodes: seq<MeshNodeSpec>, key: GroupKey)
    requires DistinctIds(nodes) && |chosen| == |Groups(nodes, key)|
    requires forall i :: 0 <= i < |chosen| ==>
      chosen[i] in Groups(nodes, key)[i] && chosen[i] in nodes && key(chosen[i]) == key(Groups(nodes, key)[i][0])
    ensures OneOfEach(chosen, nodes, key)
  {
    var groups := Groups(nodes, key);
    GroupsPartition(nodes, key);
    forall i, j | 0 <= i < j < |chosen| ensures key(chosen[i]) != key(chosen[j]) && chosen[i].id != chosen[j].id {
      LessIsTotal(key(groups[i][0]), key(groups[i][0]));
      GroupsAreDisjoint(nodes, key, i, j);
    }
    forall n | 0 <= n < |nodes| ensures HasOneOf(chosen, key, key(nodes[n])) {
      assert HasGroup(groups, key, key(nodes[n]));
    }
  }

  // ---------- New nodes ----------

  ghost predicate NotYetPicked(h: History, i: nat, x: NodeId)
    requires i <= |h.picks|
  {
    forall k :: 0 <= k < i ==> h.picks[k] != x
  }

  lemma NewIsPreferred(h: History, first: NodeId -> real, i: nat, x: NodeId)
    requires LeastRecentEachTime(h, first) && ClockRuns(h, first)
    requires i < |h.picks| && x in h.candidates[i] && NotYetPicked(h, i, x)
    ensures NotYetPicked(h, i, h.picks[i]) && first(h.picks[i]) <= first(x)
  {
    var pick := h.picks[i];
    assert LeastRecentAt(h, first, i);
    UnusedSince(h, first, 0, i, x);
    forall k | 0 <= k < i ensures h.picks[k] != pick {
      if h.picks[k] == pick {
        UnusedSince(h, first, 0, k, x);
        UsedInThePast(h, first, k, x);
        UsedSince(h, first, k, i, pick);
      }
    }
    UnusedSince(h, first, 0, i, pick);
  }

  lemma SmallerDraw(t0: real, draws: NodeId -> real, x: NodeId, y: NodeId)
    requires 0.0 < t0 && Defaults(t0, draws)(x) <= Defaults(t0, draws)(y)
    ensures draws(x) <= draws(y)
  {
    var a, b := draws(x), draws(y);
    assert t0 * a <= t0 * b;
  }

  /** A candidate that was never chosen is preferred to all that were, and among those never chosen the draws
      decide. */
  lemma NewNodesComeFirst(t0: real, draws: NodeId -> real, calls: seq<Call>, i: nat, x: NodeId)
    requires SomebodyToChoose(calls) && i < |calls|
    requires 0.0 < t0 && forall y :: 0.0 <= draws(y) < 1.0
    requires forall j :: 0 <= j < |calls| ==> t0 < calls[j].now
    requires forall j, k :: 0 <= j < k < |calls| ==> calls[j].now < calls[k].now
    requires var h := HistoryOf(t0, draws, calls); x in h.candidates[i] && NotYetPicked(h, i, x)
    ensures var h := HistoryOf(t0, draws, calls);
      NotYetPicked(h, i, h.picks[i]) && draws(h.picks[i]) <= draws(x)
  {
    BalancerIsLeastRecent(t0, draws, calls);
    BalancerClockRuns(t0, draws, calls);
    NewIsPreferred(HistoryOf(t0, draws, calls), Defaults(t0, draws), i, x);
    SmallerDraw(t0, draws, HistoryOf(t0, draws, calls).picks[i], x);
  }

  // ---------- When the balancer is used for something else in between ----------

  ghost predicate PickedWithin(h: History, i: nat, j: nat, y: NodeId)
    requires j <= |h.picks|
  {
    exists k :: i <= k < j && h.picks[k] == y
  }

  /** Exactly when a node is chosen a second time while it is not chosen in between: if every other
      candidate has been, for whatever topic or service. */
  lemma ChosenAgainExactly(h: History, first: NodeId -> real, i: nat, j: nat)
    requires LeastRecentEachTime(h, first) && ClockRuns(h, first)
    requires i < j < |h.picks| && h.picks[i] in h.candidates[j] && !PickedWithin(h, i + 1, j, h.picks[i])
    ensures h.picks[j] == h.picks[i] <==>
      forall y :: y in h.candidates[j] && y != h.picks[i] ==> PickedWithin(h, i + 1, j, y)
  {
    var x := h.picks[i];
    assert LeastRecentAt(h, first, j);
    UnusedSince(h, first, i + 1, j, x);
    if h.picks[j] == x {
      forall y | y in h.candidates[j] && y != x ensures PickedWithin(h, i + 1, j, y) {
        if !PickedWithin(h, i + 1, j, y) {
          UnusedSince(h, first, i, j, y);
          UsedInThePast(h, first, i, y);
        }
      }
    } else if PickedWithin(h, i + 1, j, h.picks[j]) {
      var k :| i + 1 <= k < j && h.picks[k] == h.picks[j];
      UsedSince(h, first, k, j, h.picks[j]);
    }
  }

  /** A send to two nodes of one name, a service call to one of them, and another send. */
  function SendCallSend(a: MeshNodeSpec, b: MeshNodeSpec, provider: MeshNodeSpec, nows: seq<real>): (calls: seq<Call>)
    requires |nows| == 3
    ensures SomebodyToChoose(calls)
  {
    [Call([a, b], nows[0]), Call([provider], nows[1]), Call([a, b], nows[2])]
  }

  lemma SameTwice(h: History, first: NodeId -> real, a: NodeId, b: NodeId, provider: NodeId)
    requires LeastRecentEachTime(h, first) && ClockRuns(h, first)
    requires h.candidates == [[a, b], [provider], [a, b]] && a != b
    requires provider == if h.picks[0] == a then b else a
    ensures h.picks[2] == h.picks[0]
  {
    assert LeastRecentAt(h, first, 0) && LeastRecentAt(h, first, 1);
    assert h.picks[1] in h.candidates[1];
    ChosenAgainExactly(h, first, 0, 2);
  }

  lemma HistoryOfSendCallSend(t0: real, draws: NodeId -> real, a: MeshNodeSpec, b: MeshNodeSpec,
                              provider: MeshNodeSpec, nows: seq<real>)
    requires |nows| == 3
    ensures var h := HistoryOf(t0, draws, SendCallSend(a, b, provider, nows));
      && h.candidates == [[a.id, b.id], [provider.id], [a.id, b.id]] && |h.picks| == 3
      && h.picks[0] == Pick(map[], t0, draws, [a, b]).id
  {
    var calls := SendCallSend(a, b, provider, nows);
    assert calls[..0] == [];
    assert Ids([a, b]) == [a.id, b.id] && Ids([provider]) == [provider.id];
  }

  /** Two nodes of one name listen to a topic, and between two sends a service call goes to the one that
      was not chosen. Then both sends choose the same node. */
  lemma ServiceCallBreaksRoundRobin(t0: real, draws: NodeId -> real, a: MeshNodeSpec, b: MeshNodeSpec, nows: seq<real>)
    requires 0.0 <= t0 && forall y :: 0.0 <= draws(y) < 1.0
    requires a.id != b.id && |nows| == 3 && t0 < nows[0] < nows[1] < nows[2]
    ensures var provider := if Pick(map[], t0, draws, [a, b]) == a then b else a;
      var picks := HistoryOf(t0, draws, SendCallSend(a, b, provider, nows)).picks;
      |picks| == 3 && picks[2] == picks[0]
  {
    var provider := if Pick(map[], t0, draws, [a, b]) == a then b else a;
    var calls := SendCallSend(a, b, provider, nows);
    BalancerIsLeastRecent(t0, draws, calls);
    BalancerClockRuns(t0, draws, calls);
    HistoryOfSendCallSend(t0, draws, a, b, provider, nows);
    SameTwice(HistoryOf(t0, draws, calls), Defaults(t0, draws), a.id, b.id, provider.id);
  }
}
