/** The round robin among listeners of one name, in terms of what successive sends of a topic return. */
module NameRounds {
  import opened Specs
  import opened LoadBalancing
  import opened Grouping
  import opened RoundRobin

  /** The times that a number of sends read from the clock, one for each group. */
  ghost predicate TimesFor(groups: seq<seq<MeshNodeSpec>>, nowss: seq<seq<real>>) {
    && (forall i :: 0 <= i < |groups| ==> groups[i] != [])
    && forall a :: 0 <= a < |nowss| ==> |nowss[a]| == |groups|
  }

  /** What successive sends to the same listeners ask of the balancer. */
  function SendCalls(groups: seq<seq<MeshNodeSpec>>, nowss: seq<seq<real>>): (calls: seq<Call>)
    requires TimesFor(groups, nowss)
    ensures SomebodyToChoose(calls)
    decreases |nowss|
  {
    if nowss == [] then []
    else SendCalls(groups, nowss[..|nowss| - 1]) + CallsFor(groups, nowss[|nowss| - 1])
  }

  /** What send number a returns: the result of GroupingTopicLoadBalancer.ChooseNodes on the map that the
      sends before it left, themselves on the map `used`. */
  function ChosenInSend(used: map<NodeId, real>, t0: real, draws: NodeId -> real, groups: seq<seq<MeshNodeSpec>>,
                        nowss: seq<seq<real>>, a: nat): (chosen: seq<MeshNodeSpec>)
    requires TimesFor(groups, nowss) && a < |nowss|
    ensures |chosen| == |groups|
  {
    PicksOf(UsedAfter(used, t0, draws, SendCalls(groups, nowss[..a])), t0, draws, CallsFor(groups, nowss[a]))
  }

  /** Whom the sends chose of group j. */
  function PickedInSends(used: map<NodeId, real>, t0: real, draws: NodeId -> real, groups: seq<seq<MeshNodeSpec>>,
                         nowss: seq<seq<real>>, j: nat): (picked: seq<NodeId>)
    requires TimesFor(groups, nowss) && j < |groups|
    ensures |picked| == |nowss|
  {
    seq(|nowss|, a requires 0 <= a < |nowss| => ChosenInSend(used, t0, draws, groups, nowss, a)[j].id)
  }

  // ---------- Sends as calls of the balancer ----------

  lemma {:induction false} SendCallsBegin(groups: seq<seq<MeshNodeSpec>>, nowss: seq<seq<real>>, a: nat)
    requires TimesFor(groups, nowss) && a <= |nowss|
    ensures SendCalls(groups, nowss[..a]) <= SendCalls(groups, nowss)
    ensures |SendCalls(groups, nowss)| == |nowss| * |groups|
    decreases |nowss|
  {
    if nowss != [] {
      var front := nowss[..|nowss| - 1];
      SendCallsBegin(groups, front, if a < |nowss| then a else 0);
      assert |nowss| * |groups| == |front| * |groups| + |groups|;
      if a < |nowss| {
        assert nowss[..a] == front[..a];
      } else {
        assert nowss[..a] == nowss;
      }
    }
  }

  /** Where the choice for group j of send a stands among all calls, and what comes before it. */
  lemma CallOfSend(before: seq<Call>, groups: seq<seq<MeshNodeSpec>>, nowss: seq<seq<real>>, a: nat, j: nat)
    requires TimesFor(groups, nowss) && a < |nowss| && j < |groups|
    ensures var calls, i := before + SendCalls(groups, nowss), Turn(|before|, |groups|, a, j);
      && i < |calls| && calls[i] == Call(groups[j], nowss[a][j])
      && calls[..i] == before + (SendCalls(groups, nowss[..a]) + CallsFor(groups, nowss[a])[..j])
  {
    SendCallsBegin(groups, nowss[..a], 0);
    SendCallsBegin(groups, nowss, a + 1);
    assert nowss[..a + 1][..a] == nowss[..a] && nowss[..a + 1][a] == nowss[a];
    var earlier, own := SendCalls(groups, nowss[..a]), CallsFor(groups, nowss[a]);
    assert earlier + own <= SendCalls(groups, nowss);
    assert |earlier| == a * |groups|;
    assert (earlier + own)[..|earlier| + j] == earlier + own[..j];
  }

  lemma SendsMakeRounds(before: seq<Call>, groups: seq<seq<MeshNodeSpec>>, nowss: seq<seq<real>>)
    requires TimesFor(groups, nowss)
    ensures Rounds(before + SendCalls(groups, nowss), |before|, groups, |nowss|)
  {
    SendCallsBegin(groups, nowss, 0);
    forall a, j | 0 <= a < |nowss| && 0 <= j < |groups|
      ensures Turn(|before|, |groups|, a, j) < |before + SendCalls(groups, nowss)|
      ensures (before + SendCalls(groups, nowss))[Turn(|before|, |groups|, a, j)].nodes == groups[j]
    {
      CallOfSend(before, groups, nowss, a, j);
    }
  }

  lemma {:induction false} PicksOfAt(used: map<NodeId, real>, t0: real, draws: NodeId -> real, calls: seq<Call>, j: nat)
    requires SomebodyToChoose(calls) && j < |calls|
    ensures PicksOf(used, t0, draws, calls)[j] ==
      Pick(UsedAfter(used, t0, draws, calls[..j]), t0, draws, calls[j].nodes)
    decreases |calls|
  {
    var front := calls[..|calls| - 1];
    if j < |front| {
      PicksOfAt(used, t0, draws, front, j);
      assert front[..j] == calls[..j] && front[j] == calls[j];
    } else {
      assert calls[..j] == front;
    }
  }

  /** What the sends return is what the history of all calls says. */
  lemma SendsAreHistory(t0: real, draws: NodeId -> real, before: seq<Call>, groups: seq<seq<MeshNodeSpec>>,
                        nowss: seq<seq<real>>, a: nat, j: nat)
    requires SomebodyToChoose(before) && TimesFor(groups, nowss) && a < |nowss| && j < |groups|
    ensures var i := Turn(|before|, |groups|, a, j); var h := HistoryOf(t0, draws, before + SendCalls(groups, nowss));
      && i < |h.picks|
      && h.picks[i] == ChosenInSend(UsedAfter(map[], t0, draws, before), t0, draws, groups, nowss, a)[j].id
  {
    var earlier, own := SendCalls(groups, nowss[..a]), CallsFor(groups, nowss[a]);
    CallOfSend(before, groups, nowss, a, j);
    UsedAfterAppend(map[], t0, draws, before, earlier + own[..j]);
    UsedAfterAppend(UsedAfter(map[], t0, draws, before), t0, draws, earlier, own[..j]);
    PicksOfAt(UsedAfter(UsedAfter(map[], t0, draws, before), t0, draws, earlier), t0, draws, own, j);
  }

  // ---------- The round robin ----------

  function Elements(ids: seq<NodeId>): set<NodeId> {
    set x | x in ids
  }

  /** From p on, k successive picks are the k members, each once, and the next repeats the first. */
  ghost predicate TakeTurns(picked: seq<NodeId>, members: seq<MeshNodeSpec>, p: nat) {
    && p + |members| <= |picked|
    && Elements(picked[p..p + |members|]) == IdSet(members)
    && (forall a, b :: p <= a < b < p + |members| ==> picked[a] != picked[b])
    && (p + |members| < |picked| ==> picked[p + |members|] == picked[p])
  }

  lemma {:induction false} PickedInIsSlice(h: History, turns: seq<nat>, picked: seq<NodeId>, p: nat, q: nat)
    requires p <= q <= |turns| == |picked|
    requires forall a :: 0 <= a < |turns| ==> turns[a] < |h.picks| && h.picks[turns[a]] == picked[a]
    ensures PickedIn(h, turns, p, q) == Elements(picked[p..q])
  {
    if p < q {
      PickedInIsSlice(h, turns, picked, p, q - 1);
      assert picked[p..q] == picked[p..q - 1] + [picked[q - 1]];
    }
  }

  lemma GoingRoundIsTakingTurns(h: History, group: seq<MeshNodeSpec>, turns: seq<nat>, picked: seq<NodeId>, p: nat)
    requires GoesRound(h, group, turns, p) && |turns| == |picked|
    requires forall a :: 0 <= a < |turns| ==> turns[a] < |h.picks| && h.picks[turns[a]] == picked[a]
    ensures TakeTurns(picked, group, p)
  {
    PickedInIsSlice(h, turns, picked, p, p + |group|);
  }

  /** Clock readings of all calls come one after the other, after the balancer was made. */
  ghost predicate ClockRunsOn(t0: real, calls: seq<Call>) {
    && 0.0 <= t0
    && (forall i :: 0 <= i < |calls| ==> t0 < calls[i].now)
    && forall i, k :: 0 <= i < k < |calls| ==> calls[i].now < calls[k].now
  }

  lemma GroupTakesTurns(t0: real, draws: NodeId -> real, before: seq<Call>, nodes: seq<MeshNodeSpec>, key: GroupKey,
                        nowss: seq<seq<real>>, j: nat, p: nat)
    requires SomebodyToChoose(before) && DistinctIds(nodes) && TimesFor(Groups(nodes, key), nowss)
    requires ClockRunsOn(t0, before + SendCalls(Groups(nodes, key), nowss)) && forall y :: 0.0 <= draws(y) < 1.0
    requires j < |Groups(nodes, key)| && p + |Groups(nodes, key)[j]| <= |nowss|
    ensures TakeTurns(PickedInSends(UsedAfter(map[], t0, draws, before), t0, draws, Groups(nodes, key), nowss, j),
      Groups(nodes, key)[j], p)
  {
    var groups := Groups(nodes, key);
    var calls := before + SendCalls(groups, nowss);
    var h, turns := HistoryOf(t0, draws, calls), TurnsFor(|before|, |groups|, |nowss|, j);
    var picked := PickedInSends(UsedAfter(map[], t0, draws, before), t0, draws, groups, nowss, j);
    SendsMakeRounds(before, groups, nowss);
    TopicSendsGoRound(t0, draws, calls, |before|, nodes, key, |nowss|, j, p);
    forall a | 0 <= a < |turns| ensures turns[a] < |h.picks| && h.picks[turns[a]] == picked[a] {
      SendsAreHistory(t0, draws, before, groups, nowss, a, j);
    }
    GoingRoundIsTakingTurns(h, groups[j], turns, picked, p);
  }

  /** The nodes of a name, in the given order. */
  function Named(nodes: seq<MeshNodeSpec>, name: string): seq<MeshNodeSpec> {
    if nodes == [] then []
    else (if nodes[0].id.name == name then [nodes[0]] else []) + Named(nodes[1..], name)
  }

  lemma {:induction false} NamedIsGroup(nodes: seq<MeshNodeSpec>, name: string)
    ensures WithKey(nodes, NodeName, name) == Named(nodes, name)
  {
    if nodes != [] {
      NamedIsGroup(nodes[1..], name);
    }
  }

  /** With the key a node's balancer is built with: after any use of the balancer, successive sends to the
      same listeners, with no other use in between, go round the listeners of each name. The result is
      the group's position among what each send returns. */
  lemma ListenersOfANameTakeTurns(t0: real, draws: NodeId -> real, before: seq<Call>, nodes: seq<MeshNodeSpec>,
                                  nowss: seq<seq<real>>, name: string, p: nat) returns (j: nat)
    requires SomebodyToChoose(before) && DistinctIds(nodes) && TimesFor(Groups(nodes, NodeName), nowss)
    requires ClockRunsOn(t0, before + SendCalls(Groups(nodes, NodeName), nowss)) && forall y :: 0.0 <= draws(y) < 1.0
    requires Named(nodes, name) != [] && p + |Named(nodes, name)| <= |nowss|
    ensures j < |Groups(nodes, NodeName)|
    ensures TakeTurns(PickedInSends(UsedAfter(map[], t0, draws, before), t0, draws, Groups(nodes, NodeName), nowss, j),
                      Named(nodes, name), p)
  {
    var groups := Groups(nodes, NodeName);
    NamedIsGroup(nodes, name);
    GroupsPartition(nodes, NodeName);
    NoneWithKey(nodes, NodeName, name);
    var n :| 0 <= n < |nodes| && NodeName(nodes[n]) == name;
    assert HasGroup(groups, NodeName, NodeName(nodes[n]));
    j :| 0 <= j < |groups| && groups[j] != [] && NodeName(groups[j][0]) == name;
    GroupTakesTurns(t0, draws, before, nodes, NodeName, nowss, j, p);
  }
}
