/** src/rosy/node/peer/connection.py: PeerConnectionManager, with any number of tasks asking for
    connections to any number of nodes while topology changes and transports close them. */
module Connections {
  import opened Streams
  import opened Runs
  import opened Specs

  type Conn = nat
  type Task = nat

  /** Where a task inside `get_connection` is suspended, holding the node's lock. */
  datatype Getter =
    | Closing(node: NodeId)             // waiting for the closing of the cached connection
    | Building(node: NodeId)            // waiting for the connection builder

  datatype State = State(
    entries: map<NodeId, Conn>,         // _connections
    locks: map<NodeId, Task>,           // which task holds a node's lock
    getters: map<Task, Getter>,
    built: set<Conn>,                   // history: what the builder has returned
    closed: set<Conn>,                  // history: connections that had close() called
    dying: set<Conn>)                   // connections that are closing, by us or by their transport

  datatype Step =
    | Get(task: Task, node: NodeId)     // get the node's lock and look at the cache
    | Closed(task: Task)                // the cached connection has closed
    | Built(task: Task, conn: Conn)     // the builder returns a new connection
    | Fail(task: Task)                  // the await raises or the getter is cancelled
    | Close(node: NodeId)               // close_connection, called from outside
    | TransportCloses(conn: Conn)

  function Next(s: State, step: Step): Option<State> {
    match step
    case Get(task, node) =>
      if task in s.getters || node in s.locks then None
      else if node !in s.entries then
        Some(s.(locks := s.locks[node := task], getters := s.getters[task := Building(node)]))
      else if s.entries[node] in s.dying then
        Some(Drop(s, node).(locks := s.locks[node := task], getters := s.getters[task := Closing(node)]))
      else
        Some(s)   // returns the cached connection and releases the lock
    case Closed(task) =>
      if task in s.getters && s.getters[task].Closing? then
        Some(s.(getters := s.getters[task := Building(s.getters[task].node)]))
      else None
    case Built(task, conn) =>
      if task in s.getters && s.getters[task].Building? && conn !in s.built && conn !in s.closed then
        Some(Leave(s, task).(entries := s.entries[s.getters[task].node := conn], built := s.built + {conn}))
      else None
    case Fail(task) =>
      if task in s.getters then Some(Leave(s, task)) else None
    case Close(node) => Some(Drop(s, node))
    case TransportCloses(conn) => Some(s.(dying := s.dying + {conn}))
  }

  /** Takes the cached connection out and calls close() on it. */
  function Drop(s: State, node: NodeId): State {
    if node in s.entries then
      s.(entries := s.entries - {node}, closed := s.closed + {s.entries[node]}, dying := s.dying + {s.entries[node]})
    else s
  }

  /** A getter leaves `get_connection` and releases its lock. */
  function Leave(s: State, task: Task): State
    requires task in s.getters
  {
    s.(getters := s.getters - {task}, locks := s.locks - {s.getters[task].node})
  }

  const EMPTY := State(map[], map[], map[], {}, {}, {})

  /** Whoever is inside holds the lock, and while a lock is held the cache has no entry for its node. */
  ghost predicate LockedAndEmpty(s: State) {
    && (forall t :: t in s.getters ==> s.getters[t].node in s.locks && s.locks[s.getters[t].node] == t)
    && (forall n :: n in s.locks ==> s.locks[n] in s.getters && s.getters[s.locks[n]].node == n && n !in s.entries)
  }

  /** Every connection the builder returned is in the cache, once and not closed by us, or was closed. */
  ghost predicate NoLeak(s: State) {
    && s.built == s.entries.Values + s.closed
    && s.entries.Values !! s.closed
    && s.closed <= s.dying
    && forall m, n :: m in s.entries && n in s.entries && m != n ==> s.entries[m] != s.entries[n]
  }

  ghost predicate Inv(s: State) {
    LockedAndEmpty(s) && NoLeak(s)
  }

  lemma DropKeepsNoLeak(s: State, node: NodeId)
    requires NoLeak(s)
    ensures NoLeak(Drop(s, node))
  {
    if node in s.entries {
      var t := Drop(s, node);
      forall c | c in s.entries.Values && c != s.entries[node] ensures c in t.entries.Values {
        var n :| n in s.entries && s.entries[n] == c;
        assert n in t.entries && t.entries[n] == c;
      }
    }
  }

  lemma BuiltKeepsNoLeak(s: State, task: Task, conn: Conn)
    requires Inv(s) && Next(s, Built(task, conn)).Some?
    ensures NoLeak(Next(s, Built(task, conn)).value)
  {
    var node, t := s.getters[task].node, Next(s, Built(task, conn)).value;
    forall c | c in s.entries.Values ensures c in t.entries.Values {
      var n :| n in s.entries && s.entries[n] == c;
      assert n in t.entries && t.entries[n] == c;
    }
    assert t.entries[node] == conn;
  }

  lemma StepKeepsInv(s: State, step: Step)
    requires Inv(s) && Next(s, step).Some?
    ensures Inv(Next(s, step).value)
  {
    match step
    case Get(task, node) => DropKeepsNoLeak(s, node);
    case Close(node) => DropKeepsNoLeak(s, node);
    case Built(task, conn) => BuiltKeepsNoLeak(s, task, conn);
    case _ =>
  }

  // ---------- Every run ----------

  lemma RunKeepsInv(steps: seq<Step>)
    requires Run(Next, EMPTY, steps).Some?
    ensures Inv(Run(Next, EMPTY, steps).value)
  {
    forall s: State, step: Step ensures KeptBy(Next, Inv, s, step) {
      if Inv(s) && Next(s, step).Some? {
        StepKeepsInv(s, step);
      }
    }
    RunKeeps(Next, Inv, EMPTY, steps);
  }

  /** Per node at most one task is building or waiting for the old connection to close, and when a build
      succeeds its node has no connection in the cache, so storing the new one overwrites nothing. */
  lemma SingleFlight(steps: seq<Step>)
    requires Run(Next, EMPTY, steps).Some?
    ensures var s := Run(Next, EMPTY, steps).value;
      && (forall t, u :: t in s.getters && u in s.getters && s.getters[t].node == s.getters[u].node ==> t == u)
      && (forall t :: t in s.getters ==> s.getters[t].node !in s.entries)
  {
    RunKeepsInv(steps);
  }

  /** Every connection the builder ever returned is either in the cache, under one node, or has been
      closed, and never both. */
  lemma NoConnectionLeaks(steps: seq<Step>)
    requires Run(Next, EMPTY, steps).Some?
    ensures var s := Run(Next, EMPTY, steps).value;
      && (forall c :: c in s.built ==> ((exists n :: n in s.entries && s.entries[n] == c) <==> c !in s.closed))
      && (forall m, n :: m in s.entries && n in s.entries && s.entries[m] == s.entries[n] ==> m == n)
  {
    RunKeepsInv(steps);
    var s := Run(Next, EMPTY, steps).value;
    forall c | c in s.built ensures (exists n :: n in s.entries && s.entries[n] == c) <==> c !in s.closed {
      assert c in s.entries.Values <==> c !in s.closed;
    }
  }

  /** While a task is inside for a node nobody else gets in, and when it leaves the lock is free: after a
      failed build or a cancellation, which change nothing else, whoever asks next gets in and builds; after
      a build everybody finds the new connection. */
  lemma LeavingFreesTheLock(steps: seq<Step>, task: Task)
    requires Run(Next, EMPTY, steps).Some? && task in Run(Next, EMPTY, steps).value.getters
    ensures var s := Run(Next, EMPTY, steps).value; var node := s.getters[task].node;
      && (forall t :: Next(s, Get(t, node)).None?)
      && Next(s, Fail(task)).Some?
      && var u := Next(s, Fail(task)).value;
         && u == s.(getters := s.getters - {task}, locks := s.locks - {node})
         && forall t :: t !in u.getters ==>
              Next(u, Get(t, node)) == Some(u.(locks := u.locks[node := t], getters := u.getters[t := Building(node)]))
    ensures var s := Run(Next, EMPTY, steps).value; var node := s.getters[task].node;
      forall conn :: Next(s, Built(task, conn)).Some? ==>
        var u := Next(s, Built(task, conn)).value;
        && node !in u.locks && task !in u.getters && node in u.entries && u.entries[node] == conn
        && forall t :: t !in u.getters && conn !in u.dying ==> Next(u, Get(t, node)) == Some(u)
  {
    RunKeepsInv(steps);
  }

  /** Whoever asks gets the cached connection exactly if it is alive. One that has died, whoever has closed it,
      is taken out and closed, and a new one is built in its place. */
  lemma OnlyLiveConnectionsAreGiven(steps: seq<Step>, task: Task, node: NodeId)
    requires Run(Next, EMPTY, steps).Some?
    requires var s := Run(Next, EMPTY, steps).value; node in s.entries && task !in s.getters
    ensures var s := Run(Next, EMPTY, steps).value; var conn := s.entries[node];
      && (Next(s, Get(task, node)) == Some(s) <==> conn !in s.dying)
      && Next(s, TransportCloses(conn)).Some?
      && var t := Next(Next(s, TransportCloses(conn)).value, Get(task, node));
         t.Some? && var u := t.value;
         && node !in u.entries && conn in u.closed && u.locks == s.locks[node := task]
         && u.getters == s.getters[task := Closing(node)]
         && Next(u, Closed(task)) == Some(u.(getters := u.getters[task := Building(node)]))
  {
    RunKeepsInv(steps);
  }

  /** Without anybody asking for it again the node gets a connection after all. */
  ghost predicate Reappears(s: State, node: NodeId, more: seq<Step>) {
    && (forall i :: 0 <= i < |more| && more[i].Get? ==> more[i].node != node)
    && Run(Next, s, more).Some? && node in Run(Next, s, more).value.entries
  }

  lemma {:induction false} UnlockedStaysOut(s: State, node: NodeId, more: seq<Step>)
    requires Inv(s) && node !in s.locks && node !in s.entries
    ensures !Reappears(s, node, more)
    decreases |more|
  {
    if more != [] && Next(s, more[0]).Some? && !(more[0].Get? && more[0].node == node) {
      var t := Next(s, more[0]).value;
      StepKeepsInv(s, more[0]);
      assert node !in t.locks && node !in t.entries;
      UnlockedStaysOut(t, node, more[1..]);
      assert forall i :: 0 <= i < |more[1..]| ==> more[1..][i] == more[i + 1];
    }
  }

  lemma BuiltReappears(s: State, node: NodeId, task: Task) returns (more: seq<Step>)
    requires Inv(s) && task in s.getters && s.getters[task] == Building(node)
    ensures Reappears(s, node, more)
  {
    var conn := UpperBound(s.built + s.closed);
    more := [Built(task, conn)];
    RunAlong(Next, [s, Next(s, Built(task, conn)).value], more);
  }

  lemma LockedReappears(s: State, node: NodeId) returns (more: seq<Step>)
    requires Inv(s) && node in s.locks
    ensures Reappears(s, node, more)
  {
    var task := s.locks[node];
    if s.getters[task].Building? {
      more := BuiltReappears(s, node, task);
    } else {
      StepKeepsInv(s, Closed(task));
      var rest := BuiltReappears(Next(s, Closed(task)).value, node, task);
      more := [Closed(task)] + rest;
      assert more[1..] == rest;
    }
  }

  /** What closing a node's connection achieves depends on the lock only: whatever happens next, until
      somebody asks for one again the node stays without a connection exactly if nobody is inside
      `get_connection` for it. A build under way is not stopped and its result is cached. */
  lemma CloseSticksExactly(steps: seq<Step>, node: NodeId)
    requires Run(Next, EMPTY, steps).Some?
    ensures var s := Drop(Run(Next, EMPTY, steps).value, node);
      && node !in s.entries
      && (node in s.locks <==> exists more :: Reappears(s, node, more))
  {
    RunKeepsInv(steps);
    var s := Drop(Run(Next, EMPTY, steps).value, node);
    StepKeepsInv(Run(Next, EMPTY, steps).value, Close(node));
    if node in s.locks {
      var more := LockedReappears(s, node);
    } else {
      forall more ensures !Reappears(s, node, more) {
        UnlockedStaysOut(s, node, more);
      }
    }
  }

  // ---------- The object ----------

  class PeerConnectionManager {
    var connections: map<NodeId, Conn>
    var connectionsLocks: map<NodeId, Task>
    var getters: map<Task, Getter>
    ghost var built: set<Conn>
    ghost var closed: set<Conn>
    var dying: set<Conn>

    ghost function View(): State
      reads this
    {
      State(connections, connectionsLocks, getters, built, closed, dying)
    }

    constructor ()
      ensures View() == EMPTY
    {
      connections, connectionsLocks, getters := map[], map[], map[];
      built, closed, dying := {}, {}, {};
    }

    /** The start of `get_connection`, once the node's lock is free: the cached connection if it is
        alive. Otherwise this getter goes on to close it, if there is one, and to build a new one. */
    method GetConnection(task: Task, node: NodeId) returns (cached: Option<Conn>)
      requires task !in getters && node !in connectionsLocks
      modifies this
      ensures Some(View()) == Next(old(View()), Step.Get(task, node))
      ensures cached.Some? <==> node in old(connections) && old(connections)[node] !in old(dying)
      ensures cached.Some? ==> View() == old(View()) && cached.value == connections[node]
      ensures cached.None? ==> task in getters && node !in connections
    {
      if node !in connections {
        connectionsLocks, getters := connectionsLocks[node := task], getters[task := Building(node)];
        return None;
      }
      if connections[node] in dying {
        CloseConnection(node);
        connectionsLocks, getters := connectionsLocks[node := task], getters[task := Closing(node)];
        return None;
      }
      return Some(connections[node]);
    }

    method ConnectionClosed(task: Task)
      requires task in getters && getters[task].Closing?
      modifies this
      ensures Some(View()) == Next(old(View()), Step.Closed(task))
      ensures View() == old(View()).(getters := old(getters)[task := Building(old(getters)[task].node)])
    {
      getters := getters[task := Building(getters[task].node)];
    }

    method StoreConnection(task: Task, conn: Conn)
      requires task in getters && getters[task].Building? && conn !in built && conn !in closed
      modifies this
      ensures Some(View()) == Next(old(View()), Step.Built(task, conn))
      ensures var node := old(getters)[task].node;
        && connections == old(connections)[node := conn] && built == old(built) + {conn}
        && getters == old(getters) - {task} && connectionsLocks == old(connectionsLocks) - {node}
        && closed == old(closed) && dying == old(dying)
    {
      var node := getters[task].node;
      connections := connections[node := conn];
      built := built + {conn};
      getters, connectionsLocks := getters - {task}, connectionsLocks - {node};
    }

    method GiveUp(task: Task)
      requires task in getters
      modifies this
      ensures Some(View()) == Next(old(View()), Step.Fail(task))
      ensures getters == old(getters) - {task}
      ensures connectionsLocks == old(connectionsLocks) - {old(getters)[task].node}
      ensures connections == old(connections) && built == old(built) && closed == old(closed) && dying == old(dying)
    {
      getters, connectionsLocks := getters - {task}, connectionsLocks - {getters[task].node};
    }

    method CloseConnection(node: NodeId)
      modifies this
      ensures View() == Drop(old(View()), node)
      ensures connections == old(connections) - {node}
      ensures closed == old(closed) + if node in old(connections) then {old(connections)[node]} else {}
      ensures dying == old(dying) + if node in old(connections) then {old(connections)[node]} else {}
      ensures connectionsLocks == old(connectionsLocks) && getters == old(getters) && built == old(built)
    {
      if node in connections {
        var conn := connections[node];
        connections := connections - {node};
        closed, dying := closed + {conn}, dying + {conn};
      }
    }
  }
}
