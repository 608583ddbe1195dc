/**
 Execution states of workloads: the hysteresis on an agent's own reports, the
 nested map that stores all known states, and who decides about an entry of it.
 */
module WorkloadStates {
  import opened Options
  import opened Workloads

  datatype PendingState = Initial | WaitingToStart | Starting | StartingFailed
  datatype StoppingState = BeingStopped | WaitingToStop | RequestedAtRuntime | DeleteFailed
  datatype FailedState = ExecFailed | Unknown | Lost

  datatype StateKind =
    | AgentDisconnected
    | Pending(pending: PendingState)
    | Running
    | Stopping(stopping: StoppingState)
    | Succeeded
    | Failed(failed: FailedState)
    | NotScheduled
    | Removed

  datatype ExecutionState = ExecutionState(kind: StateKind, info: string)
  datatype WorkloadState = WorkloadState(instanceName: InstanceName, state: ExecutionState)

  /** The workload is about to be stopped and the runtime does not know or has not finished yet. */
  predicate StopPending(e: ExecutionState) {
    e.kind == Stopping(RequestedAtRuntime) || e.kind == Stopping(WaitingToStop)
  }

  /** What a runtime may still report about a workload that is being stopped. */
  predicate Outdated(e: ExecutionState) {
    e.kind.Running? || e.kind.Succeeded? || e.kind.Failed?
  }

  function Transition(before: ExecutionState, incoming: ExecutionState): ExecutionState {
    if StopPending(before) && Outdated(incoming) then before else incoming
  }

  // ---------- The nested state map ----------

  type StateMap = map<string, map<string, map<string, ExecutionState>>>

  function Get(m: StateMap, i: InstanceName): Option<ExecutionState> {
    if i.agentName in m && i.workloadName in m[i.agentName] && i.id in m[i.agentName][i.workloadName]
    then Some(m[i.agentName][i.workloadName][i.id]) else None
  }

  /** No agent without workloads and no workload without instances is kept. */
  predicate NoEmptyPaths(m: StateMap) {
    forall a :: a in m ==> NoEmptyNames(m[a])
  }

  predicate NoEmptyNames(names: map<string, map<string, ExecutionState>>) {
    names.Keys != {} && forall w :: w in names ==> names[w].Keys != {}
  }

  function Insert(m: StateMap, i: InstanceName, e: ExecutionState): StateMap {
    var names := if i.agentName in m then m[i.agentName] else map[];
    var ids := if i.workloadName in names then names[i.workloadName] else map[];
    m[i.agentName := names[i.workloadName := ids[i.id := e]]]
  }

  function Remove(m: StateMap, i: InstanceName): StateMap {
    if i.agentName in m && i.workloadName in m[i.agentName] then
      var ids := m[i.agentName][i.workloadName] - {i.id};
      var names := m[i.agentName] - {i.workloadName};
      if ids.Keys != {} then m[i.agentName := m[i.agentName][i.workloadName := ids]]
      else if names.Keys != {} then m[i.agentName := names]
      else m - {i.agentName}
    else m
  }

  function Process(m: StateMap, s: WorkloadState): StateMap {
    if s.state.kind.Removed? then Remove(m, s.instanceName) else Insert(m, s.instanceName, s.state)
  }

  function ProcessAll(m: StateMap, states: seq<WorkloadState>): StateMap {
    if states == [] then m else Process(ProcessAll(m, states[..|states| - 1]), states[|states| - 1])
  }

  lemma InsertLookup(m: StateMap, i: InstanceName, e: ExecutionState, j: InstanceName)
    ensures Get(Insert(m, i, e), j) == if j == i then Some(e) else Get(m, j)
  {
  }

  lemma RemoveLookup(m: StateMap, i: InstanceName, j: InstanceName)
    ensures Get(Remove(m, i), j) == if j == i then None else Get(m, j)
  {
    if i.agentName in m && i.workloadName in m[i.agentName] && j != i && Get(m, j).Some? {
      var ids, names := m[i.agentName][i.workloadName] - {i.id}, m[i.agentName] - {i.workloadName};
      assert j.agentName == i.agentName && j.workloadName == i.workloadName ==> j.id in ids.Keys;
      assert j.agentName == i.agentName && j.workloadName != i.workloadName ==> j.workloadName in names.Keys;
    }
  }

  lemma ProcessKeepsPaths(m: StateMap, s: WorkloadState)
    requires NoEmptyPaths(m)
    ensures NoEmptyPaths(Process(m, s))
  {
    var i := s.instanceName;
    var m': StateMap := Process(m, s);
    if i.agentName in m' {
      var names: map<string, map<string, ExecutionState>> := m'[i.agentName];
      assert i.agentName in m ==> NoEmptyNames(m[i.agentName]);
      assert !s.state.kind.Removed? ==> i.workloadName in names.Keys && i.id in names[i.workloadName].Keys;
      assert i.workloadName in names ==> i.workloadName in names.Keys;
      assert NoEmptyNames(names);
    }
  }

  /** The map behaves like a flat one, and holds nothing but its entries. */
  lemma ProcessAt(m: StateMap, s: WorkloadState, j: InstanceName)
    ensures Get(Process(m, s), j) ==
            if j != s.instanceName then Get(m, j) else if s.state.kind.Removed? then None else Some(s.state)
  {
    InsertLookup(m, s.instanceName, s.state, j);
    RemoveLookup(m, s.instanceName, j);
  }

  lemma SameStates(a: StateMap, b: StateMap)
    requires NoEmptyPaths(a) && NoEmptyPaths(b) && forall i :: Get(a, i) == Get(b, i)
    ensures a == b
  {
    hide NoEmptyPaths, Get;
    forall x
      ensures x in a <==> x in b
      ensures x in a && x in b ==> a[x] == b[x]
    {
      SameAgent(a, b, x);
    }
  }

  lemma SameAgent(a: StateMap, b: StateMap, x: string)
    requires NoEmptyPaths(a) && NoEmptyPaths(b) && forall i :: Get(a, i) == Get(b, i)
    ensures x in a <==> x in b
    ensures x in a && x in b ==> a[x] == b[x]
  {
    AgentKept(a, b, x);
    AgentKept(b, a, x);
    if x in a && x in b {
      forall y
        ensures y in a[x] <==> y in b[x]
        ensures y in a[x] && y in b[x] ==> a[x][y] == b[x][y]
      {
        NameKept(a, b, x, y);
        NameKept(b, a, x, y);
        if y in a[x] && y in b[x] {
          SameIds(a, b, x, y);
        }
      }
    }
  }

  lemma NameKept(a: StateMap, b: StateMap, x: string, y: string)
    requires NoEmptyPaths(a) && forall i :: Get(a, i) == Get(b, i)
    ensures x in a && y in a[x] ==> x in b && y in b[x]
  {
    if x in a && y in a[x] {
      assert NoEmptyNames(a[x]);
      var z :| z in a[x][y].Keys;
      assert Get(a, InstanceName(x, y, z)) == Get(b, InstanceName(x, y, z));
    }
  }

  lemma AgentKept(a: StateMap, b: StateMap, x: string)
    requires NoEmptyPaths(a) && forall i :: Get(a, i) == Get(b, i)
    ensures x in a ==> x in b
  {
    if x in a {
      assert NoEmptyNames(a[x]);
      var y :| y in a[x].Keys;
      NameKept(a, b, x, y);
    }
  }

  lemma SameIds(a: StateMap, b: StateMap, x: string, y: string)
    requires x in a && y in a[x] && x in b && y in b[x] && forall i :: Get(a, i) == Get(b, i)
    ensures a[x][y] == b[x][y]
  {
    forall z
      ensures z in a[x][y] <==> z in b[x][y]
      ensures z in a[x][y] ==> a[x][y][z] == b[x][y][z]
    {
      assert Get(a, InstanceName(x, y, z)) == Get(b, InstanceName(x, y, z));
    }
  }

  class StateStore {
    var states: StateMap

    constructor ()
      ensures states == map[]
    {
      states := map[];
    }

    method RemoveState(i: InstanceName)
      modifies this
      ensures states == Remove(old(states), i)
    {
      if i.agentName in states && i.workloadName in states[i.agentName] {
        var names := states[i.agentName];
        var ids := names[i.workloadName] - {i.id};
        names := names[i.workloadName := ids];
        states := states[i.agentName := names];
        if ids.Keys == {} {
          assert names - {i.workloadName} == old(states)[i.agentName] - {i.workloadName};
          names := names - {i.workloadName};
          states := states[i.agentName := names];
          if names.Keys == {} {
            states := states - {i.agentName};
          }
        }
      }
    }

    method InsertState(s: WorkloadState)
      modifies this
      ensures states == Insert(old(states), s.instanceName, s.state)
    {
      var i := s.instanceName;
      if i.agentName !in states {
        states := states[i.agentName := map[]];
      }
      var names := states[i.agentName];
      if i.workloadName !in names {
        names := names[i.workloadName := map[]];
      }
      var ids := names[i.workloadName][i.id := s.state];
      assert names[i.workloadName := ids] == states[i.agentName][i.workloadName := ids];
      states := states[i.agentName := names[i.workloadName := ids]];
      assert states == old(states)[i.agentName := names[i.workloadName := ids]];
    }

    method ProcessNewStates(news: seq<WorkloadState>)
      modifies this
      ensures states == ProcessAll(old(states), news)
    {
      hide Insert, Remove;
      for k := 0 to |news|
        invariant states == ProcessAll(old(states), news[..k])
      {
        assert news[..k + 1][..k] == news[..k];
        if news[k].state.kind.Removed? {
          RemoveState(news[k].instanceName);
        } else {
          InsertState(news[k]);
        }
      }
      assert news[..|news|] == news;
    }

    /** An own report goes through the hysteresis, is stored and forwarded to the server. */
    method StoreAndForwardOwnWorkloadState(s: WorkloadState) returns (forwarded: WorkloadState)
      modifies this
      ensures forwarded == Filtered(old(states), s) && states == Process(old(states), forwarded)
      ensures forwarded.instanceName == s.instanceName
      ensures Get(states, s.instanceName) == if forwarded.state.kind.Removed? then None else Some(forwarded.state)
    {
      forwarded := s;
      var known := Get(states, s.instanceName);
      if known.Some? {
        forwarded := s.(state := Transition(known.value, s.state));
      }
      ProcessNewStates([forwarded]);
      assert [forwarded][..0] == [];
      assert ProcessAll(old(states), [forwarded]) == Process(ProcessAll(old(states), []), forwarded);
      ProcessAt(old(states), forwarded, s.instanceName);
    }
  }

  function Filtered(m: StateMap, s: WorkloadState): WorkloadState {
    var known := Get(m, s.instanceName);
    if known.Some? then s.(state := Transition(known.value, s.state)) else s
  }

  // ---------- Who decides about an entry ----------

  /** What an agent gets of the states the server distributes: never its own. */
  function ForeignStates(states: seq<WorkloadState>, agent: string): seq<WorkloadState> {
    if states == [] then []
    else
      var rest, s := ForeignStates(states[..|states| - 1], agent), states[|states| - 1];
      if s.instanceName.agentName != agent then rest + [s] else rest
  }

  datatype StateEvent = OwnReport(report: WorkloadState) | FromServer(states: seq<WorkloadState>)

  function Handle(m: StateMap, agent: string, ev: StateEvent): StateMap {
    match ev
    case OwnReport(s) => Process(m, Filtered(m, s))
    case FromServer(states) => ProcessAll(m, ForeignStates(states, agent))
  }

  function HandleAll(m: StateMap, agent: string, events: seq<StateEvent>): StateMap {
    if events == [] then m else Handle(HandleAll(m, agent, events[..|events| - 1]), agent, events[|events| - 1])
  }

  /** The reports about one instance, put one after the other through the hysteresis. */
  function OwnView(before: Option<ExecutionState>, events: seq<StateEvent>, i: InstanceName): Option<ExecutionState> {
    if events == [] then before
    else
      var v, ev := OwnView(before, events[..|events| - 1], i), events[|events| - 1];
      if ev.OwnReport? && ev.report.instanceName == i then
        var e := if v.Some? then Transition(v.value, ev.report.state) else ev.report.state;
        if e.kind.Removed? then None else Some(e)
      else v
  }

  lemma {:induction false} ForeignLeavesOwn(m: StateMap, states: seq<WorkloadState>, agent: string, i: InstanceName)
    requires i.agentName == agent
    ensures Get(ProcessAll(m, ForeignStates(states, agent)), i) == Get(m, i)
  {
    if states != [] {
      var rest, s := ForeignStates(states[..|states| - 1], agent), states[|states| - 1];
      ForeignLeavesOwn(m, states[..|states| - 1], agent, i);
      if s.instanceName.agentName != agent {
        assert (rest + [s])[..|rest|] == rest;
        ProcessAt(ProcessAll(m, rest), s, i);
      }
    }
  }

  /** Whatever the server distributes, an agent's own entries are the fold of its own reports. */
  lemma {:induction false} OwnEntriesAreOwnReports(m: StateMap, agent: string, events: seq<StateEvent>, i: InstanceName)
    requires i.agentName == agent
    ensures Get(HandleAll(m, agent, events), i) == OwnView(Get(m, i), events, i)
  {
    if events != [] {
      var init, ev := events[..|events| - 1], events[|events| - 1];
      OwnEntriesAreOwnReports(m, agent, init, i);
      var m' := HandleAll(m, agent, init);
      match ev
      case OwnReport(s) => ProcessAt(m', Filtered(m', s), i);
      case FromServer(states) => ForeignLeavesOwn(m', states, agent, i);
    }
  }

  /** A pending stop is never overwritten by outdated reports, however many of them arrive. */
  lemma {:induction false} PendingStopSticks(m: StateMap, agent: string, events: seq<StateEvent>, i: InstanceName)
    requires i.agentName == agent && Get(m, i).Some? && StopPending(Get(m, i).value)
    requires forall k :: 0 <= k < |events| && events[k].OwnReport? && events[k].report.instanceName == i ==>
               Outdated(events[k].report.state)
    ensures Get(HandleAll(m, agent, events), i) == Get(m, i)
  {
    if events != [] {
      var init, ev := events[..|events| - 1], events[|events| - 1];
      PendingStopSticks(m, agent, init, i);
      var m' := HandleAll(m, agent, init);
      match ev
      case OwnReport(s) => ProcessAt(m', Filtered(m', s), i);
      case FromServer(states) => ForeignLeavesOwn(m', states, agent, i);
    }
  }

  predicate IsOwnReport(ev: StateEvent, i: InstanceName) {
    ev.OwnReport? && ev.report.instanceName == i
  }

  lemma {:induction false} OthersLeaveEntry(m: StateMap, agent: string, events: seq<StateEvent>, k: nat,
                                            i: InstanceName)
    requires i.agentName == agent && k <= |events| && forall j :: k <= j < |events| ==> !IsOwnReport(events[j], i)
    ensures Get(HandleAll(m, agent, events), i) == Get(HandleAll(m, agent, events[..k]), i)
    decreases |events|
  {
    if k == |events| {
      assert events[..k] == events;
    } else {
      var init, ev := events[..|events| - 1], events[|events| - 1];
      OthersLeaveEntry(m, agent, init, k, i);
      assert init[..k] == events[..k];
      var m' := HandleAll(m, agent, init);
      match ev
      case OwnReport(s) => ProcessAt(m', Filtered(m', s), i);
      case FromServer(states) => ForeignLeavesOwn(m', states, agent, i);
    }
  }

  /**
   Over every run, the last report about an own workload decides: its entry is that
   report, or gone if it says so, if and only if it is not the case that a stop was
   pending and the report is an outdated one. Otherwise the entry is as before.
   */
  lemma LastReportDecidesIff(m: StateMap, agent: string, events: seq<StateEvent>, k: nat, i: InstanceName)
    requires i.agentName == agent && k < |events| && IsOwnReport(events[k], i)
    requires forall j :: k < j < |events| ==> !IsOwnReport(events[j], i)
    ensures var before, after := Get(HandleAll(m, agent, events[..k]), i), Get(HandleAll(m, agent, events), i);
            var e := events[k].report.state;
            var stopPending := before.Some?
                               && before.value.kind in {Stopping(RequestedAtRuntime), Stopping(WaitingToStop)};
            var outdated := e.kind.Running? || e.kind.Succeeded? || e.kind.Failed?;
            && (after == (if e.kind.Removed? then None else Some(e)) <==> !(stopPending && outdated))
            && (stopPending && outdated ==> after == before)
  {
    OthersLeaveEntry(m, agent, events, k + 1, i);
    assert events[..k + 1][..k] == events[..k];
    var m' := HandleAll(m, agent, events[..k]);
    ProcessAt(m', Filtered(m', events[k].report), i);
  }

  /** The store never keeps an empty path, over any run. */
  lemma {:induction false} NoEmptyPathsEver(m: StateMap, states: seq<WorkloadState>)
    requires NoEmptyPaths(m)
    ensures NoEmptyPaths(ProcessAll(m, states))
  {
    if states != [] {
      NoEmptyPathsEver(m, states[..|states| - 1]);
      ProcessKeepsPaths(ProcessAll(m, states[..|states| - 1]), states[|states| - 1]);
    }
  }
}
