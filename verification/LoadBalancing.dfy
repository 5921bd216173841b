/** src/rosy/node/loadbalancing.py: the balancer that chooses the node least recently chosen, which all
    topics and services of a node share. */
module LoadBalancing {
  import opened Specs

  // ---------- One choice ----------

  /** `_last_used[x]`, where `draws(x)` is the random number in [0, 1) that a node gets when it is first
      looked at and t0 the time the balancer was made. */
  function LastUsed(used: map<NodeId, real>, t0: real, draws: NodeId -> real, x: NodeId): real {
    if x in used then used[x] else t0 * draws(x)
  }

  /** When each node counts as last used before its first choice. */
  function Defaults(t0: real, draws: NodeId -> real): NodeId -> real {
    y => t0 * draws(y)
  }

  /** Looking nodes up stores their defaults. */
  function Touched(used: map<NodeId, real>, t0: real, draws: NodeId -> real, nodes: seq<MeshNodeSpec>):
    map<NodeId, real>
    decreases |nodes|
  {
    if nodes == [] then used
    else Touched(used[nodes[0].id := LastUsed(used, t0, draws, nodes[0].id)], t0, draws, nodes[1..])
  }

  /** The position of the first minimum, as `min` with a key gives it. */
  function FirstMin(keys: seq<real>): (r: nat)
    requires keys != []
    ensures r < |keys|
    ensures forall i :: 0 <= i < |keys| ==> keys[r] <= keys[i]
    ensures forall i :: 0 <= i < r ==> keys[r] < keys[i]
  {
    if |keys| == 1 then 0
    else
      var r := FirstMin(keys[1..]) + 1;
      assert forall i :: 1 <= i < |keys| ==> keys[i] == keys[1..][i - 1];
      if keys[0] <= keys[r] then 0 else r
  }

  function Keys(used: map<NodeId, real>, t0: real, draws: NodeId -> real, nodes: seq<MeshNodeSpec>): (keys: seq<real>)
    ensures |keys| == |nodes|
  {
    seq(|nodes|, i requires 0 <= i < |nodes| => LastUsed(used, t0, draws, nodes[i].id))
  }

  function Pick(used: map<NodeId, real>, t0: real, draws: NodeId -> real, nodes: seq<MeshNodeSpec>): MeshNodeSpec
    requires nodes != []
  {
    nodes[FirstMin(Keys(used, t0, draws, nodes))]
  }

  function Choose(used: map<NodeId, real>, t0: real, draws: NodeId -> real, nodes: seq<MeshNodeSpec>, now: real):
    map<NodeId, real>
    requires nodes != []
  {
    Touched(used, t0, draws, nodes)[Pick(used, t0, draws, nodes).id := now]
  }

  lemma {:induction false} TouchedKeepsLastUsed(used: map<NodeId, real>, t0: real, draws: NodeId -> real,
      nodes: seq<MeshNodeSpec>, x: NodeId)
    ensures LastUsed(Touched(used, t0, draws, nodes), t0, draws, x) == LastUsed(used, t0, draws, x)
    decreases |nodes|
  {
    if nodes != [] {
      TouchedKeepsLastUsed(used[nodes[0].id := LastUsed(used, t0, draws, nodes[0].id)], t0, draws, nodes[1..], x);
    }
  }

  /** The choice is the first of the nodes used least recently. */
  lemma PickIsFirstLeastRecent(used: map<NodeId, real>, t0: real, draws: NodeId -> real, nodes: seq<MeshNodeSpec>)
    returns (r: nat)
    requires nodes != []
    ensures r < |nodes| && Pick(used, t0, draws, nodes) == nodes[r]
    ensures forall i :: 0 <= i < |nodes| ==>
      var mine, other := LastUsed(used, t0, draws, nodes[r].id), LastUsed(used, t0, draws, nodes[i].id);
      mine <= other && (i < r ==> mine < other)
  {
    var keys := Keys(used, t0, draws, nodes);
    r := FirstMin(keys);
    assert forall i :: 0 <= i < |nodes| ==> keys[i] == LastUsed(used, t0, draws, nodes[i].id);
  }

  lemma {:induction false} TouchedStores(used: map<NodeId, real>, t0: real, draws: NodeId -> real,
      nodes: seq<MeshNodeSpec>, x: NodeId)
    ensures x in Touched(used, t0, draws, nodes) <==> x in used || exists i :: 0 <= i < |nodes| && nodes[i].id == x
    decreases |nodes|
  {
    if nodes != [] {
      TouchedStores(used[nodes[0].id := LastUsed(used, t0, draws, nodes[0].id)], t0, draws, nodes[1..], x);
      assert forall i :: 0 < i < |nodes| ==> nodes[i] == nodes[1..][i - 1];
      assert forall i :: 0 <= i < |nodes[1..]| ==> nodes[1..][i] == nodes[i + 1];
    }
  }

  /** What a choice leaves behind: the time of the node chosen, what each other node had, and for every other
      candidate that had no time the default it was judged by, which it keeps. */
  lemma ChoiceStores(used: map<NodeId, real>, t0: real, draws: NodeId -> real, nodes: seq<MeshNodeSpec>, now: real,
                     x: NodeId)
    requires nodes != []
    ensures var after := Choose(used, t0, draws, nodes, now);
      && (x in after <==> x in used || exists i :: 0 <= i < |nodes| && nodes[i].id == x)
      && (x in after ==> after[x] == if x == Pick(used, t0, draws, nodes).id then now
                                     else if x in used then used[x] else t0 * draws(x))
  {
    TouchedStores(used, t0, draws, nodes, x);
    TouchedKeepsLastUsed(used, t0, draws, nodes, x);
    var r := FirstMin(Keys(used, t0, draws, nodes));
    assert nodes[r].id == Pick(used, t0, draws, nodes).id;
  }

  /** A default lies in the past exactly if the clock does not start below zero. */
  lemma DefaultsLieInThePast(t0: real, draw: real)
    requires 0.0 <= draw < 1.0
    ensures t0 * draw <= t0 <==> 0.0 <= t0
  {
    assert t0 - t0 * draw == t0 * (1.0 - draw);
    if 0.0 <= t0 {
      assert 0.0 <= t0 * (1.0 - draw);
    } else {
      assert -t0 * (1.0 - draw) > 0.0;
    }
  }

  lemma KeysOfOneMore(used: map<NodeId, real>, t0: real, draws: NodeId -> real, nodes: seq<MeshNodeSpec>, i: nat)
    requires i < |nodes|
    ensures Keys(used, t0, draws, nodes[..i + 1]) ==
      Keys(used, t0, draws, nodes[..i]) + [LastUsed(used, t0, draws, nodes[i].id)]
  {
  }

  class LeastRecentLoadBalancer {
    const t0: real
    var lastUsed: map<NodeId, real>

    constructor (now: real)
      ensures t0 == now && lastUsed == map[]
    {
      t0, lastUsed := now, map[];
    }

    method GetLeastRecentNode(nodes: seq<MeshNodeSpec>, draws: NodeId -> real, now: real) returns (node: MeshNodeSpec)
      requires nodes != []
      modifies this
      ensures node == Pick(old(lastUsed), t0, draws, nodes)
      ensures lastUsed == Choose(old(lastUsed), t0, draws, nodes, now)
    {
      var times: seq<real> := [];
      for i := 0 to |nodes|
        invariant times == Keys(old(lastUsed), t0, draws, nodes[..i])
        invariant Touched(old(lastUsed), t0, draws, nodes) == Touched(lastUsed, t0, draws, nodes[i..])
        invariant forall x :: LastUsed(lastUsed, t0, draws, x) == LastUsed(old(lastUsed), t0, draws, x)
      {
        var id := nodes[i].id;
        assert LastUsed(lastUsed, t0, draws, id) == LastUsed(old(lastUsed), t0, draws, id);
        KeysOfOneMore(old(lastUsed), t0, draws, nodes, i);
        assert nodes[i..][0] == nodes[i] && nodes[i..][1..] == nodes[i + 1..];
        if id !in lastUsed {
          lastUsed := lastUsed[id := t0 * draws(id)];
        } else {
          assert lastUsed == lastUsed[id := lastUsed[id]];
        }
        assert lastUsed[id] == LastUsed(old(lastUsed), t0, draws, id);
        times := times + [lastUsed[id]];
      }
      assert nodes[..|nodes|] == nodes;
      node := nodes[FirstMin(times)];
      lastUsed := lastUsed[node.id := now];
    }

    method ChooseNodes(nodes: seq<MeshNodeSpec>, draws: NodeId -> real, now: real) returns (chosen: seq<MeshNodeSpec>)
      modifies this
      ensures nodes == [] ==> chosen == [] && lastUsed == old(lastUsed)
      ensures nodes != [] ==> chosen == [Pick(old(lastUsed), t0, draws, nodes)]
      ensures nodes != [] ==> lastUsed == Choose(old(lastUsed), t0, draws, nodes, now)
    {
      chosen := [];
      if nodes != [] {
        var node := GetLeastRecentNode(nodes, draws, now);
        chosen := [node];
      }
    }
  }

  // ---------- Runs of choices ----------

  /** One use of the balancer: a service call, or one name group of a topic send. */
  datatype Call = Call(nodes: seq<MeshNodeSpec>, now: real)

  /** What happened: who could be chosen, when, and who was. */
  datatype History = History(candidates: seq<seq<NodeId>>, times: seq<real>, picks: seq<NodeId>)

  /** When x was last chosen before choice i, or `first(x)` if it never was. */
  ghost function LastUse(h: History, first: NodeId -> real, i: nat, x: NodeId): real
    requires i <= |h.picks| == |h.times|
  {
    if i == 0 then first(x)
    else if h.picks[i - 1] == x then h.times[i - 1]
    else LastUse(h, first, i - 1, x)
  }

  /** Each choice went to a candidate no other candidate had waited longer than. */
  ghost predicate LeastRecentEachTime(h: History, first: NodeId -> real) {
    && |h.candidates| == |h.times| == |h.picks|
    && forall i: nat :: i < |h.picks| ==> LeastRecentAt(h, first, i)
  }

  ghost predicate LeastRecentAt(h: History, first: NodeId -> real, i: nat)
    requires |h.candidates| == |h.times| == |h.picks| && i < |h.picks|
  {
    && h.picks[i] in h.candidates[i]
    && forall x :: x in h.candidates[i] ==> LastUse(h, first, i, h.picks[i]) <= LastUse(h, first, i, x)
  }

  /** Every candidate of the choices a to b-1 is among `all`. */
  ghost predicate CandidatesAmong(h: History, a: nat, b: nat, all: set<NodeId>)
    requires a <= b <= |h.candidates|
  {
    forall i, k :: a <= i < b && 0 <= k < |h.candidates[i]| ==> h.candidates[i][k] in all
  }

  ghost predicate ClockRuns(h: History, first: NodeId -> real) {
    && (forall i, j :: 0 <= i < j < |h.times| ==> h.times[i] < h.times[j])
    && (|h.times| > 0 ==> forall x :: first(x) < h.times[0])
  }

  ghost predicate SomebodyToChoose(calls: seq<Call>) {
    forall i :: 0 <= i < |calls| ==> calls[i].nodes != []
  }

  function UsedAfter(used: map<NodeId, real>, t0: real, draws: NodeId -> real, calls: seq<Call>): map<NodeId, real>
    requires SomebodyToChoose(calls)
    decreases |calls|
  {
    if calls == [] then used
    else
      var last := calls[|calls| - 1];
      Choose(UsedAfter(used, t0, draws, calls[..|calls| - 1]), t0, draws, last.nodes, last.now)
  }

  lemma {:induction false} UsedAfterAppend(used: map<NodeId, real>, t0: real, draws: NodeId -> real, a: seq<Call>,
      b: seq<Call>)
    requires SomebodyToChoose(a) && SomebodyToChoose(b)
    ensures UsedAfter(used, t0, draws, a + b) == UsedAfter(UsedAfter(used, t0, draws, a), t0, draws, b)
    decreases |b|
  {
    if b == [] {
      assert a + b == a;
    } else {
      assert (a + b)[..|a + b| - 1] == a + b[..|b| - 1];
      UsedAfterAppend(used, t0, draws, a, b[..|b| - 1]);
    }
  }

  function Ids(nodes: seq<MeshNodeSpec>): seq<NodeId> {
    seq(|nodes|, i requires 0 <= i < |nodes| => nodes[i].id)
  }

  function HistoryOf(t0: real, draws: NodeId -> real, calls: seq<Call>): History
    requires SomebodyToChoose(calls)
  {
    History(
      seq(|calls|, i requires 0 <= i < |calls| => Ids(calls[i].nodes)),
      seq(|calls|, i requires 0 <= i < |calls| => calls[i].now),
      seq(|calls|, i requires 0 <= i < |calls| =>
        Pick(UsedAfter(map[], t0, draws, calls[..i]), t0, draws, calls[i].nodes).id))
  }

  /** A choice uses the node picked and leaves the others as they were. */
  lemma ChooseUses(used: map<NodeId, real>, t0: real, draws: NodeId -> real, nodes: seq<MeshNodeSpec>, now: real,
                   x: NodeId)
    requires nodes != []
    ensures LastUsed(Choose(used, t0, draws, nodes, now), t0, draws, x)
         == if x == Pick(used, t0, draws, nodes).id then now else LastUsed(used, t0, draws, x)
  {
    TouchedKeepsLastUsed(used, t0, draws, nodes, x);
  }

  lemma UnusedAtFirst(t0: real, draws: NodeId -> real, x: NodeId)
    ensures LastUsed(map[], t0, draws, x) == Defaults(t0, draws)(x)
  {
  }

  lemma UsedAfterOneMore(t0: real, draws: NodeId -> real, calls: seq<Call>, i: nat, x: NodeId)
    requires SomebodyToChoose(calls) && i < |calls|
    ensures LastUsed(UsedAfter(map[], t0, draws, calls[..i + 1]), t0, draws, x)
         == if HistoryOf(t0, draws, calls).picks[i] == x then calls[i].now
            else LastUsed(UsedAfter(map[], t0, draws, calls[..i]), t0, draws, x)
  {
    assert calls[..i + 1][..i] == calls[..i];
    ChooseUses(UsedAfter(map[], t0, draws, calls[..i]), t0, draws, calls[i].nodes, calls[i].now, x);
  }

  lemma {:induction false} UsedMapIsHistory(t0: real, draws: NodeId -> real, calls: seq<Call>, i: nat, x: NodeId)
    requires SomebodyToChoose(calls)
    requires i <= |calls|
    ensures LastUsed(UsedAfter(map[], t0, draws, calls[..i]), t0, draws, x)
         == LastUse(HistoryOf(t0, draws, calls), Defaults(t0, draws), i, x)
  {
    if i == 0 {
      UnusedAtFirst(t0, draws, x);
      assert calls[..0] == [];
    } else {
      UsedMapIsHistory(t0, draws, calls, i - 1, x);
      UsedAfterOneMore(t0, draws, calls, i - 1, x);
    }
  }

  lemma BalancerIsLeastRecentAt(t0: real, draws: NodeId -> real, calls: seq<Call>, i: nat)
    requires SomebodyToChoose(calls) && i < |calls|
    ensures LeastRecentAt(HistoryOf(t0, draws, calls), Defaults(t0, draws), i)
  {
    var h, first := HistoryOf(t0, draws, calls), Defaults(t0, draws);
    var used, nodes := UsedAfter(map[], t0, draws, calls[..i]), calls[i].nodes;
    var keys := Keys(used, t0, draws, nodes);
    var r := FirstMin(keys);
    assert h.picks[i] == nodes[r].id && h.candidates[i] == Ids(nodes) && Ids(nodes)[r] == nodes[r].id;
    forall j | 0 <= j < |nodes| ensures keys[j] == LastUse(h, first, i, Ids(nodes)[j]) {
      UsedMapIsHistory(t0, draws, calls, i, nodes[j].id);
    }
  }

  /** What the balancer's map makes it do is to choose the least recently chosen each time. */
  lemma BalancerIsLeastRecent(t0: real, draws: NodeId -> real, calls: seq<Call>)
    requires SomebodyToChoose(calls)
    ensures LeastRecentEachTime(HistoryOf(t0, draws, calls), Defaults(t0, draws))
  {
    var h, first := HistoryOf(t0, draws, calls), Defaults(t0, draws);
    forall i: nat | i < |calls| ensures LeastRecentAt(h, first, i) {
      BalancerIsLeastRecentAt(t0, draws, calls, i);
    }
  }

  lemma {:induction false} UsedInThePast(h: History, first: NodeId -> real, i: nat, x: NodeId)
    requires |h.picks| == |h.times| && ClockRuns(h, first) && i < |h.times|
    ensures LastUse(h, first, i, x) < h.times[i]
  {
    if i > 0 {
      UsedInThePast(h, first, i - 1, x);
    }
  }

  // ---------- Nobody starves ----------

  /** In how many of the choices a to b-1 x was a candidate. */
  ghost function Candidacies(h: History, a: nat, b: nat, x: NodeId): nat
    requires a <= b <= |h.candidates|
  {
    if a == b then 0 else Candidacies(h, a, b - 1, x) + if x in h.candidates[b - 1] then 1 else 0
  }

  /** The nodes of `all` not used later than x: its rank in the queue for the next choice. */
  ghost function Rank(h: History, first: NodeId -> real, all: set<NodeId>, i: nat, x: NodeId): set<NodeId>
    requires i <= |h.picks| == |h.times|
  {
    set y | y in all && LastUse(h, first, i, y) <= LastUse(h, first, i, x)
  }

  /** As long as x is passed over, every choice it could have had moves it up by one place, and no other
      choice moves it down. */
  lemma {:induction false} RankFalls(h: History, first: NodeId -> real, all: set<NodeId>, a: nat, b: nat, x: NodeId)
    requires LeastRecentEachTime(h, first) && ClockRuns(h, first)
    requires a <= b <= |h.picks|
    requires forall i :: a <= i < b ==> h.picks[i] != x
    requires CandidatesAmong(h, a, b, all)
    ensures |Rank(h, first, all, b, x)| + Candidacies(h, a, b, x) <= |all|
  {
    if a == b {
      CardinalityOfSubset(Rank(h, first, all, b, x), all);
    } else {
      RankFalls(h, first, all, a, b - 1, x);
      RankFallsByOne(h, first, all, b - 1, x);
    }
  }

  lemma RankFallsByOne(h: History, first: NodeId -> real, all: set<NodeId>, i: nat, x: NodeId)
    requires LeastRecentEachTime(h, first) && ClockRuns(h, first)
    requires i < |h.picks| && h.picks[i] != x && CandidatesAmong(h, i, i + 1, all)
    ensures |Rank(h, first, all, i + 1, x)| + (if x in h.candidates[i] then 1 else 0) <= |Rank(h, first, all, i, x)|
  {
    var before, after, pick := Rank(h, first, all, i, x), Rank(h, first, all, i + 1, x), h.picks[i];
    assert LeastRecentAt(h, first, i);
    UsedInThePast(h, first, i, x);
    assert pick !in after && after <= before;
    if x in h.candidates[i] {
      assert pick in before;
      CardinalityOfSubset(after, before - {pick});
    } else {
      CardinalityOfSubset(after, before);
    }
  }

  lemma {:induction false} CardinalityOfSubset<T>(a: set<T>, b: set<T>)
    requires a <= b
    ensures |a| <= |b|
  {
    if a != {} {
      var x :| x in a;
      CardinalityOfSubset(a - {x}, b - {x});
    }
  }

  /** With m distinct candidates over a stretch of choices, nobody who was a candidate in m of them goes
      without, however the candidate lists change in between. */
  lemma NobodyStarves(h: History, first: NodeId -> real, all: set<NodeId>, a: nat, b: nat, x: NodeId)
    requires LeastRecentEachTime(h, first) && ClockRuns(h, first)
    requires a <= b <= |h.picks| && x in all
    requires CandidatesAmong(h, a, b, all)
    requires |all| <= Candidacies(h, a, b, x)
    ensures exists i :: a <= i < b && h.picks[i] == x
  {
    if forall i :: a <= i < b ==> h.picks[i] != x {
      assert x in Rank(h, first, all, b, x);
      RankFalls(h, first, all, a, b, x);
    }
  }

  /** The same for the balancer itself, from the clock alone. */
  lemma BalancerStarvesNobody(t0: real, draws: NodeId -> real, calls: seq<Call>, all: set<NodeId>, a: nat, b: nat,
                              x: NodeId)
    requires SomebodyToChoose(calls)
    requires 0.0 <= t0 && forall y :: 0.0 <= draws(y) < 1.0
    requires forall j :: 0 <= j < |calls| ==> t0 < calls[j].now
    requires forall i, j :: 0 <= i < j < |calls| ==> calls[i].now < calls[j].now
    requires a <= b <= |calls| && x in all
    requires CandidatesAmong(HistoryOf(t0, draws, calls), a, b, all)
    requires |all| <= Candidacies(HistoryOf(t0, draws, calls), a, b, x)
    ensures exists i :: a <= i < b && HistoryOf(t0, draws, calls).picks[i] == x
  {
    BalancerIsLeastRecent(t0, draws, calls);
    BalancerClockRuns(t0, draws, calls);
    NobodyStarves(HistoryOf(t0, draws, calls), Defaults(t0, draws), all, a, b, x);
  }

  lemma DefaultsBefore(t0: real, draws: NodeId -> real, now: real)
    requires 0.0 <= t0 < now && forall y :: 0.0 <= draws(y) < 1.0
    ensures forall x :: Defaults(t0, draws)(x) < now
  {
    forall x ensures Defaults(t0, draws)(x) < now {
      var draw := draws(x);
      DefaultsLieInThePast(t0, draw);
      assert Defaults(t0, draws)(x) == t0 * draw;
    }
  }

  lemma BalancerClockRuns(t0: real, draws: NodeId -> real, calls: seq<Call>)
    requires SomebodyToChoose(calls)
    requires 0.0 <= t0 && forall y :: 0.0 <= draws(y) < 1.0
    requires forall j :: 0 <= j < |calls| ==> t0 < calls[j].now
    requires forall i, j :: 0 <= i < j < |calls| ==> calls[i].now < calls[j].now
    ensures ClockRuns(HistoryOf(t0, draws, calls), Defaults(t0, draws))
  {
    var h := HistoryOf(t0, draws, calls);
    assert forall i :: 0 <= i < |calls| ==> h.times[i] == calls[i].now;
    if calls != [] {
      DefaultsBefore(t0, draws, calls[0].now);
    }
  }
}
