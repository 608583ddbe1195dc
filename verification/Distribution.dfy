/**
 From the server to the agents: the changes of an update are split by agent, and
 each agent is told about its own workloads only.
 */
module Distribution {
  import opened Options
  import opened Grouping
  import opened Workloads
  import opened WorkloadStates
  import opened Operations
  import opened ServerHello
  import opened Scheduler
  import opened RuntimeManager
  import opened ServerState

  function AgentOf(w: WorkloadNamed): string {
    w.instanceName.agentName
  }

  function DeletedAgentOf(d: DeletedWorkload): string {
    d.instanceName.agentName
  }

  function InstanceAgentOf(i: InstanceName): string {
    i.agentName
  }

  datatype UpdatedWorkloads = UpdatedWorkloads(added: seq<WorkloadNamed>, deleted: seq<DeletedWorkload>)

  function UpdateFor(added: seq<WorkloadNamed>, deleted: seq<DeletedWorkload>, a: string): UpdatedWorkloads {
    UpdatedWorkloads(Having(added, AgentOf, a), Having(deleted, DeletedAgentOf, a))
  }

  /** One message per agent that is concerned, in the order the workloads came in. */
  method GetWorkloadsPerAgent(added: seq<WorkloadNamed>, deleted: seq<DeletedWorkload>)
    returns (m: map<string, UpdatedWorkloads>)
    ensures forall a :: a in m ==> m[a] == UpdateFor(added, deleted, a) && m[a] != UpdatedWorkloads([], [])
    ensures forall a :: a !in m ==> UpdateFor(added, deleted, a) == UpdatedWorkloads([], [])
  {
    m := map[];
    for i := 0 to |added|
      invariant IsDistribution(m, added[..i], []) && forall a :: a in m ==> m[a] != UpdatedWorkloads([], [])
    {
      var a := AgentOf(added[i]);
      var u := if a in m then m[a] else UpdatedWorkloads([], []);
      AddedDistributed(m, added[..i], [], added[i]);
      assert added[..i + 1] == added[..i] + [added[i]];
      m := m[a := u.(added := u.added + [added[i]])];
    }
    assert added[..|added|] == added;
    for i := 0 to |deleted|
      invariant IsDistribution(m, added, deleted[..i]) && forall a :: a in m ==> m[a] != UpdatedWorkloads([], [])
    {
      var a := DeletedAgentOf(deleted[i]);
      var u := if a in m then m[a] else UpdatedWorkloads([], []);
      DeletedDistributed(m, added, deleted[..i], deleted[i]);
      assert deleted[..i + 1] == deleted[..i] + [deleted[i]];
      m := m[a := u.(deleted := u.deleted + [deleted[i]])];
    }
    assert deleted[..|deleted|] == deleted;
    assert forall a :: MessageFor(m, a) == UpdateFor(added, deleted, a);
  }

  function MessageFor(m: map<string, UpdatedWorkloads>, a: string): UpdatedWorkloads {
    if a in m then m[a] else UpdatedWorkloads([], [])
  }

  ghost predicate IsDistribution(m: map<string, UpdatedWorkloads>, added: seq<WorkloadNamed>,
                                 deleted: seq<DeletedWorkload>) {
    forall a :: MessageFor(m, a) == UpdateFor(added, deleted, a)
  }

  lemma AddedDistributed(m: map<string, UpdatedWorkloads>, added: seq<WorkloadNamed>, deleted: seq<DeletedWorkload>,
                         w: WorkloadNamed)
    requires IsDistribution(m, added, deleted)
    ensures var u := MessageFor(m, AgentOf(w));
            IsDistribution(m[AgentOf(w) := u.(added := u.added + [w])], added + [w], deleted)
  {
    hide Having;
    var u := MessageFor(m, AgentOf(w));
    var m' := m[AgentOf(w) := u.(added := u.added + [w])];
    forall a
      ensures MessageFor(m', a) == UpdateFor(added + [w], deleted, a)
    {
      assert MessageFor(m, a) == UpdateFor(added, deleted, a);
      HavingConcat(added, [w], AgentOf, a);
      HavingOne(w, AgentOf, a);
      assert Having(added, AgentOf, a) + [] == Having(added, AgentOf, a);
    }
  }

  lemma DeletedDistributed(m: map<string, UpdatedWorkloads>, added: seq<WorkloadNamed>, deleted: seq<DeletedWorkload>,
                           d: DeletedWorkload)
    requires IsDistribution(m, added, deleted)
    ensures var u := MessageFor(m, DeletedAgentOf(d));
            IsDistribution(m[DeletedAgentOf(d) := u.(deleted := u.deleted + [d])], added, deleted + [d])
  {
    hide Having;
    var u := MessageFor(m, DeletedAgentOf(d));
    var m' := m[DeletedAgentOf(d) := u.(deleted := u.deleted + [d])];
    forall a
      ensures MessageFor(m', a) == UpdateFor(added, deleted + [d], a)
    {
      assert MessageFor(m, a) == UpdateFor(added, deleted, a);
      HavingConcat(deleted, [d], DeletedAgentOf, a);
      HavingOne(d, DeletedAgentOf, a);
      assert Having(deleted, DeletedAgentOf, a) + [] == Having(deleted, DeletedAgentOf, a);
    }
  }

  /** Nothing is lost, duplicated or sent to the wrong agent. */
  lemma DistributionIsPartition(added: seq<WorkloadNamed>, deleted: seq<DeletedWorkload>, a: string, w: WorkloadNamed,
                                d: DeletedWorkload)
    ensures multiset(UpdateFor(added, deleted, a).added)[w] == if AgentOf(w) == a then multiset(added)[w] else 0
    ensures multiset(UpdateFor(added, deleted, a).deleted)[d] ==
            if DeletedAgentOf(d) == a then multiset(deleted)[d] else 0
  {
    HavingOccurrences(added, AgentOf, a, w);
    HavingOccurrences(deleted, DeletedAgentOf, a, d);
  }

  method GroupWorkloadInstanceNamesByAgent(names: seq<InstanceName>) returns (groups: Groups<InstanceName>)
    ensures IsGrouping(groups, names, InstanceAgentOf)
    ensures forall a :: a in groups <==> exists i :: 0 <= i < |names| && names[i].agentName == a
  {
    groups := GroupBy(names, InstanceAgentOf);
  }

  datatype StateMessage = StateMessage(agent: string, states: seq<WorkloadState>)

  function StateMessages(agents: seq<string>, states: seq<WorkloadState>, stays: string -> bool): seq<StateMessage> {
    if agents == [] then []
    else
      var agent := agents[|agents| - 1];
      var rest, foreign := StateMessages(agents[..|agents| - 1], states, stays), ForeignStates(states, agent);
      if foreign == [] || !stays(agent) then rest else rest + [StateMessage(agent, foreign)]
  }

  /**
   Workload states go to every agent but the one they are about; empty messages are
   skipped, and so are agents that have gone since their names were taken.
   */
  method DistributeWorkloadStates(agents: seq<string>, states: seq<WorkloadState>, stays: string -> bool)
    returns (sent: seq<StateMessage>)
    ensures sent == StateMessages(agents, states, stays)
  {
    sent := [];
    for i := 0 to |agents|
      invariant sent == StateMessages(agents[..i], states, stays)
    {
      assert agents[..i + 1][..i] == agents[..i];
      var filtered: seq<WorkloadState> := [];
      for k := 0 to |states|
        invariant filtered == ForeignStates(states[..k], agents[i])
      {
        assert states[..k + 1][..k] == states[..k];
        if states[k].instanceName.agentName != agents[i] {
          filtered := filtered + [states[k]];
        }
      }
      assert states[..|states|] == states;
      if filtered != [] {
        if stays(agents[i]) {
          sent := sent + [StateMessage(agents[i], filtered)];
        }
      }
    }
    assert agents[..|agents|] == agents;
  }

  lemma {:induction false} ForeignMembers(states: seq<WorkloadState>, a: string)
    ensures forall s :: s in ForeignStates(states, a) <==> s in states && s.instanceName.agentName != a
  {
    if states != [] {
      var last := |states| - 1;
      ForeignMembers(states[..last], a);
      assert states == states[..last] + [states[last]];
    }
  }

  lemma {:induction false} ForeignOccurrences(states: seq<WorkloadState>, a: string, s: WorkloadState)
    ensures multiset(ForeignStates(states, a))[s] == if s.instanceName.agentName != a then multiset(states)[s] else 0
  {
    if states != [] {
      var last := |states| - 1;
      ForeignOccurrences(states[..last], a, s);
      assert states == states[..last] + [states[last]];
    }
  }

  /** Every message has something to tell: exactly the states of the other agents, each as often, none of its own. */
  lemma {:induction false} NoOwnStates(agents: seq<string>, states: seq<WorkloadState>, stays: string -> bool,
                                       msg: StateMessage, s: WorkloadState)
    requires msg in StateMessages(agents, states, stays)
    ensures msg.agent in agents && stays(msg.agent) && msg.states != []
    ensures multiset(msg.states)[s] == if s.instanceName.agentName != msg.agent then multiset(states)[s] else 0
  {
    var last := |agents| - 1;
    var rest := StateMessages(agents[..last], states, stays);
    if msg in rest {
      NoOwnStates(agents[..last], states, stays, msg, s);
    } else {
      ForeignOccurrences(states, agents[last], s);
    }
  }

  /** And every agent that stays hears of every state of another agent. */
  lemma {:induction false} EveryAgentHears(agents: seq<string>, states: seq<WorkloadState>, stays: string -> bool,
                                           a: string, s: WorkloadState)
    requires a in agents && stays(a) && s in states && s.instanceName.agentName != a
    ensures exists msg :: msg in StateMessages(agents, states, stays) && msg.agent == a && s in msg.states
  {
    var last := |agents| - 1;
    var rest := StateMessages(agents[..last], states, stays);
    if a == agents[last] {
      ForeignMembers(states, a);
      var msg := StateMessage(a, ForeignStates(states, a));
      assert msg in rest + [msg];
    } else {
      EveryAgentHears(agents[..last], states, stays, a, s);
      var msg :| msg in rest && msg.agent == a && s in msg.states;
      assert msg in StateMessages(agents, states, stays);
    }
  }

  // ---------- The whole way from a desired state to the agents ----------

  /** What the server wants an agent to run. */
  function WantedAt(r: Rendered, a: string): WorkloadMap {
    map n | n in r && AgentOf(r[n]) == a :: Managed(Some(r[n]))
  }

  lemma {:induction false} HavingDistinct(added: seq<WorkloadNamed>, a: string)
    requires DistinctNames(added)
    ensures DistinctNames(Having(added, AgentOf, a))
  {
    if added != [] {
      HavingDistinct(added[1..], a);
      HavingMembers(added[1..], AgentOf, a);
      forall w | w in added[1..]
        ensures NameOf(w) != NameOf(added[0])
      {
        var i :| 0 <= i < |added[1..]| && added[1..][i] == w;
        assert added[i + 1] == w;
      }
    }
  }

  lemma {:induction false} HavingDistinctDeleted(deleted: seq<DeletedWorkload>, a: string)
    requires DistinctDeleted(deleted)
    ensures DistinctDeleted(Having(deleted, DeletedAgentOf, a))
  {
    if deleted != [] {
      HavingDistinctDeleted(deleted[1..], a);
      HavingMembers(deleted[1..], DeletedAgentOf, a);
      forall d | d in deleted[1..]
        ensures DeletedName(d) != DeletedName(deleted[0])
      {
        var i :| 0 <= i < |deleted[1..]| && deleted[1..][i] == d;
        assert deleted[i + 1] == d;
      }
    }
  }

  lemma AddedMapOf(ws: seq<WorkloadNamed>, n: string)
    requires DistinctNames(ws)
    ensures n in AddedMap(AsNew(ws)) <==> exists w :: w in ws && NameOf(w) == n
    ensures forall w :: w in ws && NameOf(w) == n ==> AddedMap(AsNew(ws))[n].workloadNamed == w
  {
    var m := AddedMap(AsNew(ws));
    forall w | w in ws && NameOf(w) == n
      ensures n in m && m[n].workloadNamed == w
    {
      var i :| 0 <= i < |ws| && ws[i] == w;
      assert ReusableName(AsNew(ws)[i]) == n;
      var k :| 0 <= k < |AsNew(ws)| && AsNew(ws)[k] == m[n];
      assert NameOf(ws[k]) == n;
      SameWorkload(ws, ws[k], w);
    }
    if n in m {
      var k :| 0 <= k < |AsNew(ws)| && AsNew(ws)[k] == m[n];
      assert ws[k] in ws && NameOf(ws[k]) == n;
    }
  }

  /** At one name: the message takes the agent from the old to the new desired state. */
  lemma MessageMeansAt(r0: Rendered, r1: Rendered, added: seq<WorkloadNamed>, deleted: seq<DeletedWorkload>, a: string,
                       n: string)
    requires ProperNames(r0) && ProperNames(r1)
    requires AddedFor(r0, r1, r0.Keys + r1.Keys, added) && DeletedFor(r0, r1, r0.Keys + r1.Keys, deleted)
    ensures var u := UpdateFor(added, deleted, a);
            Lookup(FinalMap(WantedAt(r0, a), AsNew(u.added), u.deleted), n) == Lookup(WantedAt(r1, a), n)
  {
    var ws, ds := Having(added, AgentOf, a), Having(deleted, DeletedAgentOf, a);
    HavingDistinct(added, a);
    HavingMembers(added, AgentOf, a);
    HavingMembers(deleted, DeletedAgentOf, a);
    AddedMapOf(ws, n);
    AddedHere(r0, r1, added, a, n);
    DeletedHere(r0, r1, deleted, a, n);
  }

  lemma AddedHere(r0: Rendered, r1: Rendered, added: seq<WorkloadNamed>, a: string, n: string)
    requires ProperNames(r1) && AddedFor(r0, r1, r0.Keys + r1.Keys, added)
    ensures var ws := Having(added, AgentOf, a);
            && ((exists w :: w in ws && NameOf(w) == n) <==> n in r1 && AgentOf(r1[n]) == a && Differs(r0, r1, n))
            && (forall w :: w in ws && NameOf(w) == n ==> n in r1 && w == r1[n])
  {
    HavingMembers(added, AgentOf, a);
    if n in r1 && AgentOf(r1[n]) == a && Differs(r0, r1, n) {
      assert r1[n] in added && NameOf(r1[n]) == n;
    }
  }

  lemma DeletedHere(r0: Rendered, r1: Rendered, deleted: seq<DeletedWorkload>, a: string, n: string)
    requires ProperNames(r0) && DeletedFor(r0, r1, r0.Keys + r1.Keys, deleted)
    ensures IsDeleted(Having(deleted, DeletedAgentOf, a), n) <==> n in r0 && AgentOf(r0[n]) == a && Differs(r0, r1, n)
  {
    var ds := Having(deleted, DeletedAgentOf, a);
    HavingMembers(deleted, DeletedAgentOf, a);
    if i :| 0 <= i < |ds| && DeletedName(ds[i]) == n {
      assert ds[i] in ds;
    }
    if n in r0 && AgentOf(r0[n]) == a && Differs(r0, r1, n) {
      var i :| 0 <= i < |deleted| && DeletedName(deleted[i]) == n;
      assert deleted[i] in deleted && deleted[i] in ds;
      var k :| 0 <= k < |ds| && ds[k] == deleted[i];
    }
  }

  /** The message an agent gets for an update means exactly the new desired state at that agent. */
  lemma MessageMeansNewState(r0: Rendered, r1: Rendered, added: seq<WorkloadNamed>, deleted: seq<DeletedWorkload>,
                             a: string)
    requires ProperNames(r0) && ProperNames(r1)
    requires AddedFor(r0, r1, r0.Keys + r1.Keys, added) && DeletedFor(r0, r1, r0.Keys + r1.Keys, deleted)
    ensures var u := UpdateFor(added, deleted, a);
            && FinalMap(WantedAt(r0, a), AsNew(u.added), u.deleted) == WantedAt(r1, a)
            && DistinctDeleted(u.deleted)
  {
    var u := UpdateFor(added, deleted, a);
    HavingDistinctDeleted(deleted, a);
    forall n
      ensures Lookup(FinalMap(WantedAt(r0, a), AsNew(u.added), u.deleted), n) == Lookup(WantedAt(r1, a), n)
    {
      MessageMeansAt(r0, r1, added, deleted, a, n);
    }
    SameLookups(FinalMap(WantedAt(r0, a), AsNew(u.added), u.deleted), WantedAt(r1, a));
  }

  // ---------- Deletions the server keeps back ----------

  /** The workload has no agent, or its agent is unknown to the server and it never left its first state. */
  predicate NeverStarted(d: DeletedWorkload, known: set<string>, states: StateMap) {
    DeletedAgentOf(d) == "" ||
    (DeletedAgentOf(d) !in known && Get(states, d.instanceName).Some?
     && Get(states, d.instanceName).value.kind == Pending(Initial))
  }

  function ReportRemoved(d: DeletedWorkload): WorkloadState {
    WorkloadState(d.instanceName, ExecutionState(Removed, ""))
  }

  /** What is sent on, what is reported as removed instead, and the states that are left. */
  datatype Withholding = Withholding(retained: seq<DeletedWorkload>, reports: seq<WorkloadState>, states: StateMap)

  function Withhold(states: StateMap, deleted: seq<DeletedWorkload>, known: set<string>): Withholding {
    if deleted == [] then Withholding([], [], states)
    else
      var d, k := deleted[|deleted| - 1], Withhold(states, deleted[..|deleted| - 1], known);
      if NeverStarted(d, known, k.states)
      then Withholding(k.retained, k.reports + [ReportRemoved(d)], Remove(k.states, d.instanceName))
      else k.(retained := k.retained + [d])
  }

  /** The states are looked at while entries go from them. */
  method HandleNotStartedDeletedWorkloads(store: StateStore, deleted: seq<DeletedWorkload>, known: set<string>)
    returns (retained: seq<DeletedWorkload>, reports: seq<WorkloadState>)
    modifies store
    ensures Withholding(retained, reports, store.states) == Withhold(old(store.states), deleted, known)
  {
    hide Remove, NeverStarted;
    retained, reports := [], [];
    for i := 0 to |deleted|
      invariant Withholding(retained, reports, store.states) == Withhold(old(store.states), deleted[..i], known)
    {
      assert deleted[..i + 1][..i] == deleted[..i];
      if NeverStarted(deleted[i], known, store.states) {
        store.RemoveState(deleted[i].instanceName);
        reports := reports + [ReportRemoved(deleted[i])];
      } else {
        retained := retained + [deleted[i]];
      }
    }
    assert deleted[..|deleted|] == deleted;
  }

  /** The server forgets exactly what it reports as removed. */
  lemma {:induction false} ForgetsWhatItReports(states: StateMap, deleted: seq<DeletedWorkload>, known: set<string>)
    ensures var k := Withhold(states, deleted, known);
            k.states == ProcessAll(states, k.reports) && |k.retained| + |k.reports| == |deleted|
  {
    hide Remove, NeverStarted;
    if deleted != [] {
      ForgetsWhatItReports(states, deleted[..|deleted| - 1], known);
      var k := Withhold(states, deleted[..|deleted| - 1], known);
      var r := ReportRemoved(deleted[|deleted| - 1]);
      assert (k.reports + [r])[..|k.reports|] == k.reports;
    }
  }

  /** Of different workloads, those that never started by the states before are kept back and forgotten. */
  lemma {:induction false} KeptBack(states: StateMap, deleted: seq<DeletedWorkload>, known: set<string>,
                                       d: DeletedWorkload)
    requires DistinctDeleted(deleted)
    ensures var k := Withhold(states, deleted, known);
            && (d in k.retained <==> d in deleted && !NeverStarted(d, known, states))
            && (ReportRemoved(d) in k.reports <==>
                exists e :: e in deleted && e.instanceName == d.instanceName && NeverStarted(e, known, states))
            && Get(k.states, d.instanceName) ==
               if ReportRemoved(d) in k.reports then None else Get(states, d.instanceName)
  {
    if deleted != [] {
      var last := |deleted| - 1;
      var init, e := deleted[..last], deleted[last];
      assert deleted == init + [e];
      assert forall i :: 0 <= i < last ==> init[i] == deleted[i];
      KeptBack(states, init, known, d);
      KeptBack(states, init, known, e);
      NotAmong(deleted);
      RemoveLookup(Withhold(states, init, known).states, e.instanceName, d.instanceName);
      hide Remove, Get, DistinctDeleted;
    }
  }

  /**
   Of different workloads exactly those are kept back, reported and forgotten that have
   no agent, or an unknown one and are still in their first state.
   */
  lemma KeptBackIff(states: StateMap, deleted: seq<DeletedWorkload>, known: set<string>, d: DeletedWorkload)
    requires DistinctDeleted(deleted)
    ensures var k := Withhold(states, deleted, known);
            var agent, state := d.instanceName.agentName, Get(states, d.instanceName);
            var never := agent == "" || (agent !in known && state.Some? && state.value.kind == Pending(Initial));
            && (d in k.retained <==> d in deleted && !never)
            && (WorkloadState(d.instanceName, ExecutionState(Removed, "")) in k.reports <==>
                never && exists e :: e in deleted && e.instanceName == d.instanceName)
            && Get(k.states, d.instanceName) ==
               if WorkloadState(d.instanceName, ExecutionState(Removed, "")) in k.reports then None else state
  {
    KeptBack(states, deleted, known, d);
    hide Withhold, Get, DistinctDeleted;
  }

  lemma NotAmong(deleted: seq<DeletedWorkload>)
    requires DistinctDeleted(deleted) && deleted != []
    ensures forall d :: d in deleted[..|deleted| - 1] ==> d.instanceName != deleted[|deleted| - 1].instanceName
  {
  }

  ghost predicate IsPartOf(part: seq<DeletedWorkload>, whole: seq<DeletedWorkload>) {
    (forall d :: d in part ==> d in whole) && (DistinctDeleted(whole) ==> DistinctDeleted(part))
  }

  /** What is sent on is part of what was deleted, and all of it at an agent the server knows. */
  lemma {:induction false} RetainedIsPart(states: StateMap, deleted: seq<DeletedWorkload>, known: set<string>,
                                          a: string)
    ensures var k := Withhold(states, deleted, known);
            && IsPartOf(k.retained, deleted)
            && (a != "" && a in known ==> Having(k.retained, DeletedAgentOf, a) == Having(deleted, DeletedAgentOf, a))
  {
    if deleted != [] {
      var last := |deleted| - 1;
      var k, d := Withhold(states, deleted[..last], known), deleted[last];
      RetainedIsPart(states, deleted[..last], known, a);
      PartGrows(k.retained, deleted, last);
      assert deleted[..last + 1] == deleted == deleted[..last] + [d];
      HavingConcat(deleted[..last], [d], DeletedAgentOf, a);
      HavingConcat(k.retained, [d], DeletedAgentOf, a);
      HavingOne(d, DeletedAgentOf, a);
      hide IsPartOf, Having;
    }
  }

  lemma PartGrows(part: seq<DeletedWorkload>, whole: seq<DeletedWorkload>, i: nat)
    requires i < |whole| && IsPartOf(part, whole[..i])
    ensures IsPartOf(part, whole[..i + 1]) && IsPartOf(part + [whole[i]], whole[..i + 1])
  {
    var before, after := whole[..i], whole[..i + 1];
    assert after == before + [whole[i]];
    if DistinctDeleted(after) {
      assert forall j, k :: 0 <= j < k < i ==> after[j] == before[j] && after[k] == before[k];
      forall d | d in part
        ensures DeletedName(d) != DeletedName(whole[i])
      {
        var j :| 0 <= j < i && before[j] == d;
        assert after[j] == d && after[i] == whole[i];
      }
      assert forall j :: 0 <= j < |part| ==> part[j] in part;
    }
  }

  // ---------- What an agent was told ----------

  /** What an event says about a name is what the server wants of the agent under that name. */
  ghost predicate Tells(r: Rendered, a: string, ev: Event) {
    match ev
    case Pass => true
    case Message(added, deleted, _, _) =>
      forall n :: IsNamed(added, deleted, n) ==> Lookup(FinalMap(map[], added, deleted), n) == Lookup(WantedAt(r, a), n)
    case Hello(workloads, _, _, _, _) => ListsAgent(workloads, r, a) && ProperNames(r)
  }

  /**
   The message of an update tells the truth whatever deletions were kept back, and if
   none of the agent was it names every workload of it that is new, changed or gone.
   */
  lemma MessageTells(r0: Rendered, r1: Rendered, added: seq<WorkloadNamed>, deleted: seq<DeletedWorkload>,
                     retained: seq<DeletedWorkload>, a: string, ready: Fulfilled, ops: seq<WorkloadOperation>)
    requires ProperNames(r0) && ProperNames(r1) && IsPartOf(retained, deleted)
    requires AddedFor(r0, r1, r0.Keys + r1.Keys, added) && DeletedFor(r0, r1, r0.Keys + r1.Keys, deleted)
    ensures var u := UpdateFor(added, retained, a);
            && DistinctDeleted(u.deleted) && Tells(r1, a, Message(AsNew(u.added), u.deleted, ready, ops))
            && (Having(retained, DeletedAgentOf, a) == Having(deleted, DeletedAgentOf, a) ==>
                forall n :: !IsNamed(AsNew(u.added), u.deleted, n) ==>
                  Lookup(WantedAt(r0, a), n) == Lookup(WantedAt(r1, a), n))
  {
    var u, full := UpdateFor(added, retained, a), UpdateFor(added, deleted, a);
    HavingDistinctDeleted(retained, a);
    MessageMeansNewState(r0, r1, added, deleted, a);
    HavingMembers(deleted, DeletedAgentOf, a);
    HavingMembers(retained, DeletedAgentOf, a);
    hide Having, AddedFor, DeletedFor, WantedAt, AddedMap, AsNew;
    forall n
      ensures IsNamed(AsNew(u.added), u.deleted, n) ==>
                Lookup(FinalMap(map[], AsNew(u.added), u.deleted), n) == Lookup(WantedAt(r1, a), n)
      ensures u.deleted == full.deleted && !IsNamed(AsNew(u.added), u.deleted, n) ==>
                Lookup(WantedAt(r0, a), n) == Lookup(WantedAt(r1, a), n)
    {
      NamedByPart(u.deleted, full.deleted, n);
      FinalMapAt(WantedAt(r0, a), map[], AsNew(full.added), full.deleted, n);
      FinalMapOfPart(AsNew(u.added), u.deleted, full.deleted, n);
    }
  }

  lemma NamedByPart(part: seq<DeletedWorkload>, whole: seq<DeletedWorkload>, n: string)
    requires forall d :: d in part ==> d in whole
    ensures IsDeleted(part, n) ==> IsDeleted(whole, n)
  {
    if i :| 0 <= i < |part| && DeletedName(part[i]) == n {
      assert part[i] in whole;
    }
  }

  lemma FinalMapOfPart(added: seq<ReusableWorkload>, part: seq<DeletedWorkload>, whole: seq<DeletedWorkload>, n: string)
    requires IsDeleted(part, n) ==> IsDeleted(whole, n)
    ensures IsNamed(added, part, n) ==>
              && IsNamed(added, whole, n)
              && Lookup(FinalMap(map[], added, part), n) == Lookup(FinalMap(map[], added, whole), n)
  {
  }

  /** `wanted[i]` is what the server wants when the agent has handled the first i events; it may change untold. */
  ghost predicate TellsTruth(wanted: seq<Rendered>, a: string, events: seq<Event>) {
    |wanted| == |events| + 1 && forall i :: 0 <= i < |events| ==> Tells(wanted[i + 1], a, events[i])
  }

  /** How many events it takes up to the last one that is about the name. */
  function LastTold(events: seq<Event>, n: string): (k: nat)
    ensures k <= |events|
  {
    if events == [] then 0
    else if IsNamedBy(events[|events| - 1], n) then |events|
    else LastTold(events[..|events| - 1], n)
  }

  lemma ListedIsWanted(ws: seq<WorkloadNamed>, r: Rendered, a: string, n: string)
    requires ListsAgent(ws, r, a) && ProperNames(r)
    ensures Lookup(AsMap(ws), n) == Lookup(WantedAt(r, a), n)
  {
    AsMapAt(ws, n);
    hide AsMap;
    if n in WantedAt(r, a) {
      assert r[n] in ws && NameOf(r[n]) == n;
    }
  }

  lemma ToldAt(m: WorkloadMap, r: Rendered, a: string, ev: Event, n: string)
    requires Tells(r, a, ev) && IsNamedBy(ev, n)
    ensures Lookup(MeantBy(m, ev), n) == Lookup(WantedAt(r, a), n)
  {
    match ev
    case Message(added, deleted, _, _) => FinalMapAt(m, map[], added, deleted, n);
    case Hello(workloads, _, _, _, _) => ListedIsWanted(workloads, r, a, n);
  }

  /** What the events mean at a name is what the server wanted when it last told of it. */
  lemma {:induction false} MeantIsLastTold(m: WorkloadMap, wanted: seq<Rendered>, a: string, events: seq<Event>,
                                           n: string)
    requires TellsTruth(wanted, a, events)
    ensures Lookup(Meant(m, events), n) ==
            if LastTold(events, n) == 0 then Lookup(m, n) else Lookup(WantedAt(wanted[LastTold(events, n)], a), n)
  {
    hide Tells, MeantBy, WantedAt, IsNamedBy, Meant;
    if events == [] {
      MeantNothing(m);
    } else {
      var last := |events| - 1;
      var init, front := events[..last], wanted[..last + 1];
      assert forall i :: 0 <= i < last ==> init[i] == events[i];
      assert forall i :: 0 <= i <= last ==> front[i] == wanted[i];
      MeantIsLastTold(m, front, a, init, n);
      MeantNext(m, events);
      MeantByAt(Meant(m, init), m, events[last], n);
      if IsNamedBy(events[last], n) {
        ToldAt(Meant(m, init), wanted[last + 1], a, events[last], n);
      }
    }
  }

  /**
   End to end, name by name, over every run of messages, hellos and passes, with
   messages dropped and deletions kept back: the agent owes what the server wanted
   when it last told of the name, if and only if that event was kept. If it was, the
   agent owes what the server wants now exactly when nothing changed untold since.
   What does not wait is what the agent runs.
   */
  lemma AgentRunsWhatServerWantsIff(run: seq<AgentState>, events: seq<Event>, wanted: seq<Rendered>, a: string,
                                    n: string)
    requires IsAgentRun(run, events) && TellsTruth(wanted, a, events)
    requires LastTold(events, n) == 0 ==> Lookup(WhatIsOwed(run[0]), n) == Lookup(WantedAt(wanted[0], a), n)
    ensures var last, told := run[|events|], WantedAt(wanted[LastTold(events, n)], a);
            var now := WantedAt(wanted[|events|], a);
            && (Lookup(WhatIsOwed(last), n) == Lookup(told, n) <==> LastWordKept(run, events, n))
            && (LastWordKept(run, events, n) ==>
                (Lookup(WhatIsOwed(last), n) == Lookup(now, n) <==> Lookup(told, n) == Lookup(now, n)))
            && (n !in last.queue ==> Lookup(last.workloads, n) == Lookup(WhatIsOwed(last), n))
  {
    var last := run[|events|];
    AgentConvergesAtIff(run, events, n);
    MeantIsLastTold(WhatIsOwed(run[0]), wanted, a, events, n);
    if n !in last.queue {
      NothingWaitsAt(last, n);
    }
  }

  // ---------- When nothing changes untold ----------

  /** The server's changes reach the agent: passes change nothing, and a message has the whole difference. */
  ghost predicate TellsAll(r0: Rendered, r1: Rendered, a: string, ev: Event) {
    match ev
    case Pass => r1 == r0
    case Message(sent, gone, _, _) =>
      && ProperNames(r0) && ProperNames(r1)
      && exists added, deleted ::
           && AddedFor(r0, r1, r0.Keys + r1.Keys, added) && DeletedFor(r0, r1, r0.Keys + r1.Keys, deleted)
           && sent == AsNew(UpdateFor(added, deleted, a).added) && gone == UpdateFor(added, deleted, a).deleted
    case Hello(workloads, _, _, _, _) => ListsAgent(workloads, r1, a) && ProperNames(r1)
  }

  ghost predicate TellsAllTheTime(wanted: seq<Rendered>, a: string, events: seq<Event>) {
    |wanted| == |events| + 1 && forall i :: 0 <= i < |events| ==> TellsAll(wanted[i], wanted[i + 1], a, events[i])
  }

  lemma AllIsTrue(r0: Rendered, r1: Rendered, a: string, ev: Event)
    requires TellsAll(r0, r1, a, ev)
    ensures Tells(r1, a, ev)
    ensures forall n :: !IsNamedBy(ev, n) ==> Lookup(WantedAt(r0, a), n) == Lookup(WantedAt(r1, a), n)
  {
    if ev.Message? {
      var added, deleted :|
        && AddedFor(r0, r1, r0.Keys + r1.Keys, added) && DeletedFor(r0, r1, r0.Keys + r1.Keys, deleted)
        && ev.added == AsNew(UpdateFor(added, deleted, a).added) && ev.deleted == UpdateFor(added, deleted, a).deleted;
      hide AddedFor, DeletedFor, WantedAt, UpdateFor, IsNamed;
      MessageTells(r0, r1, added, deleted, deleted, a, ev.ready, ev.ops);
    }
  }

  lemma {:induction false} NothingUntold(wanted: seq<Rendered>, a: string, events: seq<Event>, n: string)
    requires TellsAllTheTime(wanted, a, events)
    ensures TellsTruth(wanted, a, events)
    ensures Lookup(WantedAt(wanted[LastTold(events, n)], a), n) == Lookup(WantedAt(wanted[|events|], a), n)
  {
    hide TellsAll, Tells, WantedAt, IsNamedBy;
    forall i | 0 <= i < |events|
      ensures Tells(wanted[i + 1], a, events[i])
    {
      AllIsTrue(wanted[i], wanted[i + 1], a, events[i]);
    }
    if events != [] {
      var last := |events| - 1;
      var init, front := events[..last], wanted[..last + 1];
      assert forall i :: 0 <= i < last ==> init[i] == events[i];
      assert forall i :: 0 <= i <= last ==> front[i] == wanted[i];
      NothingUntold(front, a, init, n);
      AllIsTrue(wanted[last], wanted[last + 1], a, events[last]);
    }
  }

  /** The whole map: with every change told, the agent owes what is wanted exactly when the last words were kept. */
  lemma AgentRunsAllServerWantsIff(run: seq<AgentState>, events: seq<Event>, wanted: seq<Rendered>, a: string)
    requires IsAgentRun(run, events) && TellsAllTheTime(wanted, a, events)
    requires WhatIsOwed(run[0]) == WantedAt(wanted[0], a)
    ensures var last := run[|events|];
            && (WhatIsOwed(last) == WantedAt(wanted[|events|], a) <==> EveryLastWordKept(run, events))
            && (last.queue == map[] ==> last.workloads == WhatIsOwed(last))
  {
    var m, now := WhatIsOwed(run[0]), WantedAt(wanted[|events|], a);
    AgentConvergesIff(run, events);
    hide IsAgentRun, TellsAllTheTime, WhatIsOwed, WantedAt, Meant, EveryLastWordKept;
    forall n
      ensures Lookup(Meant(m, events), n) == Lookup(now, n)
    {
      NothingUntold(wanted, a, events, n);
      MeantIsLastTold(m, wanted, a, events, n);
    }
    SameLookups(Meant(m, events), now);
  }
}
