/**
 The runtime manager of an agent: the workload map, the loops that reconcile it
 with a server hello, and the execution of workload operations on it.
 */
module RuntimeManager {
  import opened Options
  import opened Sequences
  import opened Grouping
  import opened Workloads
  import opened Operations
  import opened Scheduler
  import opened ServerHello

  // ---------- The added workloads, grouped by runtime ----------

  function RuntimeOf(w: WorkloadNamed): string {
    w.workload.runtime
  }

  /** The first workload of the list with the name, or the length of the list. */
  function PositionByName(ws: seq<WorkloadNamed>, n: string): (i: nat)
    ensures i <= |ws|
    ensures forall k :: 0 <= k < i ==> NameOf(ws[k]) != n
    ensures i < |ws| ==> NameOf(ws[i]) == n
  {
    if ws == [] then 0 else if NameOf(ws[0]) == n then 0 else 1 + PositionByName(ws[1..], n)
  }

  method FindByName(ws: seq<WorkloadNamed>, n: string) returns (i: nat)
    ensures i == PositionByName(ws, n)
  {
    i := 0;
    while i < |ws| && NameOf(ws[i]) != n
      invariant 0 <= i <= |ws| && PositionByName(ws, n) == i + PositionByName(ws[i..], n)
    {
      assert ws[i..][1..] == ws[i + 1..];
      i := i + 1;
    }
  }

  /** The group around a position of the whole list. */
  lemma GroupAround(ws: seq<WorkloadNamed>, i: nat, r: string)
    requires i < |ws|
    ensures Having(ws, RuntimeOf, r) ==
            Having(ws[..i], RuntimeOf, r) + Having([ws[i]], RuntimeOf, r) + Having(ws[i + 1..], RuntimeOf, r)
    ensures Having(RemoveAt(ws, i), RuntimeOf, r) == Having(ws[..i], RuntimeOf, r) + Having(ws[i + 1..], RuntimeOf, r)
  {
    assert ws == ws[..i] + [ws[i]] + ws[i + 1..];
    HavingConcat(ws[..i], [ws[i]], RuntimeOf, r);
    HavingConcat(ws[..i] + [ws[i]], ws[i + 1..], RuntimeOf, r);
    HavingConcat(ws[..i], ws[i + 1..], RuntimeOf, r);
  }

  lemma FirstBehind(before: seq<WorkloadNamed>, w: WorkloadNamed, after: seq<WorkloadNamed>, n: string)
    requires NameOf(w) == n && forall v :: v in before ==> NameOf(v) != n
    ensures PositionByName(before + [w] + after, n) == |before|
    ensures RemoveAt(before + [w] + after, |before|) == before + after
  {
    var all := before + [w] + after;
    var k := PositionByName(all, n);
    assert all[|before|] == w;
    assert forall i :: 0 <= i < |before| ==> all[i] == before[i] && before[i] in before;
  }

  /** Searching the group of the runtime finds the workload that the whole list would give. */
  lemma SearchInGroup(ws: seq<WorkloadNamed>, x: Found)
    requires Position(ws, x) < |ws|
    ensures var i, group := Position(ws, x), Having(ws, RuntimeOf, x.runtime);
            var k := PositionByName(group, FoundName(x));
            k < |group| && group[k] == ws[i] && Having(RemoveAt(ws, i), RuntimeOf, x.runtime) == RemoveAt(group, k)
  {
    hide Having, PositionByName, RemoveAt;
    var i, r := Position(ws, x), x.runtime;
    var before, after := Having(ws[..i], RuntimeOf, r), Having(ws[i + 1..], RuntimeOf, r);
    GroupAround(ws, i, r);
    HavingOne(ws[i], RuntimeOf, r);
    HavingMembers(ws[..i], RuntimeOf, r);
    forall v | v in before
      ensures NameOf(v) != FoundName(x)
    {
      assert v in ws[..i] && !Matches(v, x);
    }
    FirstBehind(before, ws[i], after, FoundName(x));
    assert (before + [ws[i]] + after)[|before|] == ws[i];
  }

  lemma NotInGroup(ws: seq<WorkloadNamed>, x: Found)
    requires Position(ws, x) == |ws|
    ensures var group := Having(ws, RuntimeOf, x.runtime); PositionByName(group, FoundName(x)) == |group|
  {
    hide Having;
    var group := Having(ws, RuntimeOf, x.runtime);
    HavingMembers(ws, RuntimeOf, x.runtime);
    forall k | 0 <= k < |group|
      ensures NameOf(group[k]) != FoundName(x)
    {
      assert group[k] in group && !Matches(group[k], x);
    }
  }

  /** Taking the found workload out of its group takes it out of the list. */
  lemma RemoveFromGroup(groups: Groups<WorkloadNamed>, ws: seq<WorkloadNamed>, x: Found, rest: seq<WorkloadNamed>)
    requires IsGrouping(groups, ws, RuntimeOf) && Position(ws, x) < |ws|
    requires rest == Having(RemoveAt(ws, Position(ws, x)), RuntimeOf, x.runtime)
    ensures IsGrouping(groups[x.runtime := rest], RemoveAt(ws, Position(ws, x)), RuntimeOf)
  {
    hide Having, RemoveAt;
    var i := Position(ws, x);
    forall r
      ensures Group(groups[x.runtime := rest], r) == Having(RemoveAt(ws, i), RuntimeOf, r)
    {
      if r != x.runtime {
        assert Group(groups, r) == Having(ws, RuntimeOf, r);
        GroupAround(ws, i, r);
        HavingOne(ws[i], RuntimeOf, r);
        assert Having(ws[..i], RuntimeOf, r) + [] == Having(ws[..i], RuntimeOf, r);
      }
    }
  }

  // ---------- The runtime manager ----------

  /** The part of the state a hello works on, seen as a reconciliation step. */
  ghost predicate Reached(h: Reconciliation, workloads: WorkloadMap, groups: Groups<WorkloadNamed>,
                          newAdded: seq<ReusableWorkload>,
                          deleted: seq<DeletedWorkload>, before: seq<InstanceName>, stopped: seq<InstanceName>)
  {
    && workloads == h.workloads && newAdded == h.newAdded && deleted == h.deleted && stopped == before + h.stopped
    && IsGrouping(groups, h.pending, RuntimeOf)
  }

  /** Deleting what is not managed is answered with a report of its own. */
  function GoneNow(m: WorkloadMap, op: WorkloadOperation): seq<InstanceName> {
    if op.Delete? && DeletedName(op.oldWorkload) !in m then [op.oldWorkload.instanceName] else []
  }

  function GoneAlready(m: WorkloadMap, ops: seq<WorkloadOperation>): seq<InstanceName> {
    if ops == [] then []
    else
      var init, op := ops[..|ops| - 1], ops[|ops| - 1];
      GoneAlready(m, init) + GoneNow(Execute(m, init), op)
  }

  /** The deletions of an instance that find nothing under its name when they are executed. */
  ghost function FindNothing(m: WorkloadMap, ops: seq<WorkloadOperation>, i: InstanceName): set<nat> {
    set k: nat | k < |ops| && ops[k].Delete? && ops[k].oldWorkload.instanceName == i
                 && i.workloadName !in Execute(m, ops[..k])
  }

  lemma FindNothingNext(m: WorkloadMap, ops: seq<WorkloadOperation>, i: InstanceName)
    requires ops != []
    ensures var last := |ops| - 1;
            var finds := ops[last].Delete? && ops[last].oldWorkload.instanceName == i
                         && i.workloadName !in Execute(m, ops[..last]);
            && last !in FindNothing(m, ops[..last], i)
            && FindNothing(m, ops, i) == FindNothing(m, ops[..last], i) + (if finds then {last} else {})
  {
    hide Execute;
    var last := |ops| - 1;
    var init := ops[..last];
    forall k: nat | k < last
      ensures init[k] == ops[k] && init[..k] == ops[..k]
    {
    }
  }

  /** What is reported as gone already: exactly those, each as often. */
  lemma {:induction false} GoneAlreadyCounts(m: WorkloadMap, ops: seq<WorkloadOperation>, i: InstanceName)
    ensures multiset(GoneAlready(m, ops))[i] == |FindNothing(m, ops, i)|
  {
    if ops == [] {
      assert FindNothing(m, ops, i) == {};
    } else {
      GoneAlreadyCounts(m, ops[..|ops| - 1], i);
      FindNothingNext(m, ops, i);
      hide FindNothing, Execute;
    }
  }

  class RuntimeManager {
    var workloads: WorkloadMap
    const scheduler: WorkloadScheduler
    /** Deletions asked of a runtime directly. */
    var stopped: seq<InstanceName>
    /** Workloads reported as removed because they were gone already. */
    var reportedRemoved: seq<InstanceName>

    constructor ()
      ensures workloads == map[] && stopped == [] && reportedRemoved == []
      ensures fresh(scheduler) && scheduler.queue == map[] && scheduler.reported == []
    {
      scheduler := new WorkloadScheduler();
      workloads, stopped, reportedRemoved := map[], [], [];
    }

    method AddWorkload(r: ReusableWorkload)
      modifies this
      ensures workloads == Apply(old(workloads), Create(r))
      ensures stopped == old(stopped) && reportedRemoved == old(reportedRemoved)
    {
      workloads := workloads[ReusableName(r) := Managed(Some(r.workloadNamed))];
    }

    method DeleteWorkload(d: DeletedWorkload)
      modifies this
      ensures workloads == Apply(old(workloads), Delete(d)) && stopped == old(stopped)
      ensures reportedRemoved == old(reportedRemoved) + GoneNow(old(workloads), Delete(d))
    {
      if DeletedName(d) in workloads {
        workloads := workloads - {DeletedName(d)};
      } else {
        reportedRemoved := reportedRemoved + [d.instanceName];
      }
    }

    method UpdateWorkload(w: WorkloadNamed, ghost d: DeletedWorkload)
      modifies this
      ensures workloads == Apply(old(workloads), Update(w, d))
      ensures stopped == old(stopped) && reportedRemoved == old(reportedRemoved)
    {
      if NameOf(w) in workloads {
        workloads := workloads[NameOf(w) := Managed(Some(w))];
      } else {
        AddWorkload(ReusableWorkload(w, None));
      }
    }

    method UpdateDeleteOnly(d: DeletedWorkload)
      modifies this
      ensures workloads == Apply(old(workloads), WorkloadOperation.UpdateDeleteOnly(d))
      ensures stopped == old(stopped) && reportedRemoved == old(reportedRemoved)
    {
      if DeletedName(d) in workloads {
        workloads := workloads[DeletedName(d) := Managed(None)];
      }
    }

    method ExecuteWorkloadOperations(ops: seq<WorkloadOperation>)
      modifies this
      ensures workloads == Execute(old(workloads), ops) && stopped == old(stopped)
      ensures reportedRemoved == old(reportedRemoved) + GoneAlready(old(workloads), ops)
    {
      assert reportedRemoved + [] == reportedRemoved;
      for i := 0 to |ops|
        invariant workloads == Execute(old(workloads), ops[..i]) && stopped == old(stopped)
        invariant reportedRemoved == old(reportedRemoved) + GoneAlready(old(workloads), ops[..i])
      {
        assert ops[..i + 1][..i] == ops[..i];
        ConcatAssociates(old(reportedRemoved), GoneAlready(old(workloads), ops[..i]), GoneNow(workloads, ops[i]));
        match ops[i]
        case Create(r) => AddWorkload(r);
        case Update(w, d) => UpdateWorkload(w, d);
        case UpdateDeleteOnly(d) => UpdateDeleteOnly(d);
        case Delete(d) => DeleteWorkload(d);
      }
      assert ops[..|ops|] == ops;
    }

    /** One existing workload of a runtime: resumed, restarted, replaced or removed. */
    method ReconcileExisting(x: Found, groups: Groups<WorkloadNamed>, newAdded: seq<ReusableWorkload>,
                             deleted: seq<DeletedWorkload>, ghost h: Reconciliation, ghost before: seq<InstanceName>)
      returns (groups': Groups<WorkloadNamed>, newAdded': seq<ReusableWorkload>, deleted': seq<DeletedWorkload>)
      requires Reached(h, workloads, groups, newAdded, deleted, before, stopped)
      modifies this
      ensures Reached(ReconcileOne(h, x), workloads, groups', newAdded', deleted', before, stopped)
      ensures reportedRemoved == old(reportedRemoved)
    {
      hide IsGrouping, PositionByName, RemoveAt;
      groups', newAdded', deleted' := groups, newAdded, deleted;
      var e := x.existing;
      var group := Group(groups, x.runtime);
      var k := FindByName(group, FoundName(x));
      GroupIs(groups, h.pending, RuntimeOf, x.runtime);
      ghost var i := Position(h.pending, x);
      if k < |group| {
        if i == |h.pending| {
          NotInGroup(h.pending, x);
        }
        SearchInGroup(h.pending, x);
        var w := group[k];
        groups' := groups[x.runtime := RemoveAt(group, k)];
        RemoveFromGroup(groups, h.pending, x, RemoveAt(group, k));
        if IsResumable(e, w.instanceName) {
          workloads := workloads[NameOf(w) := Managed(Some(w))];
        } else if IsReusable(e, w.instanceName) {
          newAdded' := newAdded + [ReusableWorkload(w, e.workloadId)];
        } else {
          if FoundName(x) !in workloads {
            workloads := workloads[NameOf(w) := Managed(Some(WorkloadNamed(e.instanceName, DEFAULT_SPEC)))];
          }
          newAdded' := newAdded + [ReusableWorkload(w, None)];
          deleted' := deleted + [DeletedWorkload(e.instanceName, map[])];
        }
      } else {
        if i < |h.pending| {
          SearchInGroup(h.pending, x);
        }
        if FoundName(x) in workloads {
          workloads := workloads - {FoundName(x)};
        } else {
          ConcatAssociates(before, h.stopped, [e.instanceName]);
          stopped := stopped + [e.instanceName];
        }
      }
    }

    /** The loop over what one runtime listed. */
    method ReconcileListing(l: Listing, groups: Groups<WorkloadNamed>, newAdded: seq<ReusableWorkload>,
                            deleted: seq<DeletedWorkload>, ghost h: Reconciliation, ghost before: seq<InstanceName>)
      returns (groups': Groups<WorkloadNamed>, newAdded': seq<ReusableWorkload>, deleted': seq<DeletedWorkload>)
      requires Reached(h, workloads, groups, newAdded, deleted, before, stopped)
      modifies this
      ensures Reached(Reconcile(h, FoundIn(l)), workloads, groups', newAdded', deleted', before, stopped)
      ensures reportedRemoved == old(reportedRemoved)
    {
      hide Reached, ReconcileOne;
      groups', newAdded', deleted' := groups, newAdded, deleted;
      if l.existing.Some? {
        var states := l.existing.value;
        ghost var found := FoundIn(l);
        for j := 0 to |states|
          invariant Reached(Reconcile(h, found[..j]), workloads, groups', newAdded', deleted', before, stopped)
          invariant reportedRemoved == old(reportedRemoved)
        {
          assert found[..j + 1][..j] == found[..j];
          groups', newAdded', deleted' := ReconcileExisting(Found(l.runtime, states[j]), groups', newAdded', deleted',
                                                            Reconcile(h, found[..j]), before);
        }
        assert found[..|states|] == found;
      }
    }

    /**
     Matches the added workloads with what the runtimes have. The listings come in
     the order of the runtime map, which is any order; failed ones are skipped.
     */
    method ResumeAndRemoveFromAddedWorkloads(added: seq<WorkloadNamed>, listings: seq<Listing>)
      returns (newAdded: seq<ReusableWorkload>, deleted: seq<DeletedWorkload>)
      modifies this
      ensures var h := Reconcile(Start(old(workloads), added), AllFound(listings));
              && workloads == h.workloads && stopped == old(stopped) + h.stopped
              && deleted == h.deleted && HandsOn(h, newAdded)
      ensures reportedRemoved == old(reportedRemoved)
    {
      hide Reconcile, FoundIn;
      var groups := GroupBy(added, RuntimeOf);
      newAdded, deleted := [], [];
      ghost var start, before := Start(workloads, added), stopped;
      ReconcileNothing(start);
      assert stopped == before + [];
      for i := 0 to |listings|
        invariant Reached(Reconcile(start, AllFound(listings[..i])), workloads, groups, newAdded, deleted, before,
                          stopped)
        invariant reportedRemoved == old(reportedRemoved)
      {
        ghost var done := AllFound(listings[..i]);
        assert listings[..i + 1][..i] == listings[..i];
        ReconcileConcat(start, done, FoundIn(listings[i]));
        groups, newAdded, deleted := ReconcileListing(listings[i], groups, newAdded, deleted, Reconcile(start, done),
                                                      before);
      }
      assert listings[..|listings|] == listings;
      ghost var h := Reconcile(start, AllFound(listings));
      var rest := Flatten(groups, h.pending, RuntimeOf);
      newAdded := newAdded + AsNew(rest);
    }

    /** Operations that are ready are carried out at once, the others wait. */
    method ExecuteWorkloads(added: seq<ReusableWorkload>, deleted: seq<DeletedWorkload>, f: Fulfilled)
      requires WellKeyed(scheduler.queue)
      modifies this, scheduler
      ensures WellKeyed(scheduler.queue) && stopped == old(stopped)
      ensures IsMessage(AgentState(old(workloads), old(scheduler.queue)), added, deleted, f,
                        AgentState(workloads, scheduler.queue))
      ensures AllTold(old(scheduler.queue), old(scheduler.reported)) ==> AllTold(scheduler.queue, scheduler.reported)
    {
      hide AllTold, IsTransform, Execute, QueueWithNew, ReleasedNew, Released, Remaining, Lists;
      var ops := TransformIntoWorkloadOperations(workloads, added, deleted);
      TransformFromOutside(workloads.Keys, added, deleted, ops);
      var ready := scheduler.EnqueueFilteredWorkloadOperations(ops, f);
      ExecuteWorkloadOperations(ready);
    }

    method HandleUpdateWorkload(added: seq<WorkloadNamed>, deleted: seq<DeletedWorkload>, f: Fulfilled)
      requires WellKeyed(scheduler.queue)
      modifies this, scheduler
      ensures WellKeyed(scheduler.queue) && stopped == old(stopped)
      ensures IsMessage(AgentState(old(workloads), old(scheduler.queue)), AsNew(added), deleted, f,
                        AgentState(workloads, scheduler.queue))
      ensures AllTold(old(scheduler.queue), old(scheduler.reported)) ==> AllTold(scheduler.queue, scheduler.reported)
    {
      ExecuteWorkloads(AsNew(added), deleted, f);
    }

    method HandleServerHello(added: seq<WorkloadNamed>, listings: seq<Listing>, f: Fulfilled)
      requires WellKeyed(scheduler.queue)
      modifies this, scheduler
      ensures WellKeyed(scheduler.queue)
      ensures var h := Reconcile(Start(old(workloads), added), AllFound(listings));
              && stopped == old(stopped) + h.stopped
              && IsHello(h, old(scheduler.queue), f, AgentState(workloads, scheduler.queue))
      ensures AllTold(old(scheduler.queue), old(scheduler.reported)) ==> AllTold(scheduler.queue, scheduler.reported)
    {
      hide AllTold, Reconcile, IsMessage, HandsOn;
      var newAdded, deleted := ResumeAndRemoveFromAddedWorkloads(added, listings);
      ExecuteWorkloads(newAdded, deleted, f);
    }

    /** A pass over the queue when workload states have changed. */
    method UpdateWorkloadsOnFulfilledDependencies(f: Fulfilled)
      requires WellKeyed(scheduler.queue)
      modifies this, scheduler
      ensures WellKeyed(scheduler.queue) && stopped == old(stopped)
      ensures IsPass(AgentState(old(workloads), old(scheduler.queue)), AgentState(workloads, scheduler.queue))
      ensures AllTold(old(scheduler.queue), old(scheduler.reported)) ==> AllTold(scheduler.queue, scheduler.reported)
    {
      hide AllTold, Execute, Released, Remaining, Lists;
      var ready := scheduler.NextWorkloadOperations(f);
      if ready != [] {
        ExecuteWorkloadOperations(ready);
      } else {
        ExecuteNothing(workloads);
      }
    }
  }

  lemma ExecuteNothing(m: WorkloadMap)
    ensures Execute(m, []) == m
  {
  }

  lemma ReconcileNothing(h: Reconciliation)
    ensures Reconcile(h, []) == h
  {
  }

  lemma {:induction false} ReconcileConcat(h: Reconciliation, a: seq<Found>, b: seq<Found>)
    ensures Reconcile(h, a + b) == Reconcile(Reconcile(h, a), b)
  {
    if b == [] {
      assert a + b == a;
    } else {
      assert (a + b)[..|a + b| - 1] == a + b[..|b| - 1];
      ReconcileConcat(h, a, b[..|b| - 1]);
    }
  }

  lemma TransformFromOutside(known: set<string>, added: seq<ReusableWorkload>, deleted: seq<DeletedWorkload>,
                             ops: seq<WorkloadOperation>)
    requires IsTransform(known, added, deleted, ops)
    ensures FromOutside(ops)
  {
    forall i | 0 <= i < |ops|
      ensures EntryOf(ops[i]).Some? && OneName(EntryOf(ops[i]).value)
    {
      if i < |deleted| {
        DeletedOpsAt(AddedMap(added), deleted, i);
        assert ops[i] == ops[..|deleted|][i];
      } else {
        AddOpsAt(known, added, deleted, ops, i);
      }
    }
  }

  // ---------- The agent over whole runs ----------

  /** An update message: transformed, filtered through the queue, the ready part executed. */
  ghost predicate IsMessage(a: AgentState, added: seq<ReusableWorkload>, deleted: seq<DeletedWorkload>, f: Fulfilled,
                            b: AgentState)
  {
    exists ops :: IsTransform(a.workloads.Keys, added, deleted, ops) && IsBatch(a, ops, f, b)
  }

  ghost predicate IsBatch(a: AgentState, ops: seq<WorkloadOperation>, f: Fulfilled, b: AgentState) {
    var q := QueueWithNew(a.queue, ops, f);
    && b.queue == Remaining(q, f)
    && exists more :: Lists(more, Released(q, f)) && b.workloads == Execute(a.workloads, ReleasedNew(ops, f) + more)
  }

  ghost predicate IsHello(h: Reconciliation, q: Queue, f: Fulfilled, b: AgentState) {
    exists newAdded :: HandsOn(h, newAdded) && IsMessage(AgentState(h.workloads, q), newAdded, h.deleted, f, b)
  }

  lemma {:induction false} ExecuteConcat(m: WorkloadMap, a: seq<WorkloadOperation>, b: seq<WorkloadOperation>)
    ensures Execute(m, a + b) == Execute(Execute(m, a), b)
  {
    if b == [] {
      assert a + b == a;
    } else {
      assert (a + b)[..|a + b| - 1] == a + b[..|b| - 1];
      ExecuteConcat(m, a, b[..|b| - 1]);
    }
  }

  lemma {:induction false} NewKeepWellKeyed(q: Queue, ops: seq<WorkloadOperation>, f: Fulfilled)
    requires WellKeyed(q) && FromOutside(ops)
    ensures WellKeyed(QueueWithNew(q, ops, f))
  {
    if ops != [] {
      var last := ops[|ops| - 1];
      assert last in ops;
      NewKeepWellKeyed(q, ops[..|ops| - 1], f);
      RemainKeepsName(EntryOf(last).value, f);
    }
  }

  function WhatIsOwed(a: AgentState): WorkloadMap {
    Settled(a.workloads, a.queue)
  }

  ghost predicate NoneStaleFor(q: Queue, ops: seq<WorkloadOperation>, f: Fulfilled, n: string) {
    forall op :: op in ops && OperationName(op) == n ==> !Stale(q, op, f)
  }

  ghost predicate NoneStale(q: Queue, ops: seq<WorkloadOperation>, f: Fulfilled) {
    forall op :: op in ops ==> !Stale(q, op, f)
  }

  /**
   At every name, a message changes what the agent owes as its sender means, whatever
   is ready, if and only if no operation for that name is ready and finds a different
   older one waiting.
   */
  lemma MessageHonouredAtIff(a: AgentState, added: seq<ReusableWorkload>, deleted: seq<DeletedWorkload>, f: Fulfilled,
                             ops: seq<WorkloadOperation>, b: AgentState, n: string)
    requires WellKeyed(a.queue) && DistinctDeleted(deleted)
    requires IsTransform(a.workloads.Keys, added, deleted, ops) && IsBatch(a, ops, f, b)
    ensures WellKeyed(b.queue)
    ensures Lookup(WhatIsOwed(b), n) == Lookup(FinalMap(WhatIsOwed(a), added, deleted), n) <==>
            NoneStaleFor(a.queue, ops, f, n)
  {
    hide IsTransform, Execute, QueueWithNew, ReleasedNew, Released, Remaining, Lists, Settled, FinalMap, Stale;
    hide WellKeyed;
    var q, m := QueueWithNew(a.queue, ops, f), Execute(a.workloads, ReleasedNew(ops, f));
    var more :| Lists(more, Released(q, f)) && b.workloads == Execute(a.workloads, ReleasedNew(ops, f) + more);
    TransformFromOutside(a.workloads.Keys, added, deleted, ops);
    TransformOnePerNameIff(a.workloads.Keys, added, deleted, ops);
    NewKeepWellKeyed(a.queue, ops, f);
    RemainingWellKeyed(q, f);
    ExecuteConcat(a.workloads, ReleasedNew(ops, f), more);
    PassKeepsSettled(m, q, f, more);
    BatchPoint(a.workloads, a.queue, ops, f, n);
    SettledLookup(m, q, n);
    UpdateReachesFinalMap(WhatIsOwed(a), a.workloads.Keys, added, deleted, ops, ops);
    StaleByPosition(a.queue, ops, f, n);
  }

  lemma StaleByPosition(q: Queue, ops: seq<WorkloadOperation>, f: Fulfilled, n: string)
    ensures NoneStaleFor(q, ops, f, n) <==>
            forall k :: 0 <= k < |ops| && OperationName(ops[k]) == n ==> !Stale(q, ops[k], f)
  {
    hide Stale;
    forall op | op in ops
      ensures exists k :: 0 <= k < |ops| && ops[k] == op
    {
    }
  }

  /** The whole map: no ready operation of the message finds a different older one waiting. */
  lemma MessageHonouredIff(a: AgentState, added: seq<ReusableWorkload>, deleted: seq<DeletedWorkload>, f: Fulfilled,
                           ops: seq<WorkloadOperation>, b: AgentState)
    requires WellKeyed(a.queue) && DistinctDeleted(deleted)
    requires IsTransform(a.workloads.Keys, added, deleted, ops) && IsBatch(a, ops, f, b)
    ensures WhatIsOwed(b) == FinalMap(WhatIsOwed(a), added, deleted) <==> NoneStale(a.queue, ops, f)
  {
    hide IsTransform, IsBatch, WellKeyed, DistinctDeleted, FinalMap, Stale, Settled;
    forall n
      ensures Lookup(WhatIsOwed(b), n) == Lookup(FinalMap(WhatIsOwed(a), added, deleted), n) <==>
              NoneStaleFor(a.queue, ops, f, n)
    {
      MessageHonouredAtIff(a, added, deleted, f, ops, b, n);
    }
    if NoneStale(a.queue, ops, f) {
      SameLookups(WhatIsOwed(b), FinalMap(WhatIsOwed(a), added, deleted));
    } else {
      var op :| op in ops && Stale(a.queue, op, f);
      assert !NoneStaleFor(a.queue, ops, f, OperationName(op));
    }
  }

  /** The message adds or deletes a workload of this name. */
  predicate IsNamed(added: seq<ReusableWorkload>, deleted: seq<DeletedWorkload>, n: string) {
    n in AddedMap(added) || IsDeleted(deleted, n)
  }

  lemma UnnamedHasNoOperation(known: set<string>, added: seq<ReusableWorkload>, deleted: seq<DeletedWorkload>,
                              ops: seq<WorkloadOperation>, n: string)
    requires IsTransform(known, added, deleted, ops) && !IsNamed(added, deleted, n)
    ensures forall op :: op in ops ==> OperationName(op) != n
  {
    forall i | 0 <= i < |ops|
      ensures OperationName(ops[i]) != n
    {
      if i < |deleted| {
        DeletedOpName(known, added, deleted, ops, i);
      } else {
        AddOpsAt(known, added, deleted, ops, i);
      }
    }
  }

  /** A message decides alone about what it names, and leaves the rest. */
  lemma FinalMapAt(m: WorkloadMap, m': WorkloadMap, added: seq<ReusableWorkload>, deleted: seq<DeletedWorkload>,
                   n: string)
    ensures IsNamed(added, deleted, n) ==>
              Lookup(FinalMap(m, added, deleted), n) == Lookup(FinalMap(m', added, deleted), n)
    ensures !IsNamed(added, deleted, n) ==> Lookup(FinalMap(m, added, deleted), n) == Lookup(m, n)
  {
  }

  lemma NoOperationIsStale(q: Queue, ops: seq<WorkloadOperation>, f: Fulfilled, n: string)
    requires forall op :: op in ops ==> OperationName(op) != n
    ensures NoneStaleFor(q, ops, f, n)
  {
  }

  lemma NothingWaitsAt(a: AgentState, n: string)
    requires n !in a.queue
    ensures Lookup(WhatIsOwed(a), n) == Lookup(a.workloads, n)
  {
    SettledLookup(a.workloads, a.queue, n);
  }

  // ---------- A hello at any agent ----------

  /**
   A hello, whatever the agent runs and whatever waits: the names it hands on are
   decided by it exactly when no ready operation finds a different older one waiting,
   under the others what waited goes on waiting, and under every name for which
   nothing waited the agent owes the outcome.
   */
  lemma HelloOutcomeAt(m0: WorkloadMap, q: Queue, added: seq<WorkloadNamed>, found: seq<Found>,
                       newAdded: seq<ReusableWorkload>, f: Fulfilled, ops: seq<WorkloadOperation>, b: AgentState,
                       n: string)
    requires DistinctNames(added) && WellKeyed(q)
    requires var h := Reconcile(Start(m0, added), found);
             && HandsOn(h, newAdded) && IsTransform(h.workloads.Keys, newAdded, h.deleted, ops)
             && IsBatch(AgentState(h.workloads, q), ops, f, b)
    ensures IsNamed(newAdded, Reconcile(Start(m0, added), found).deleted, n) ==>
              (IsOutcomeAt(m0, added, found, n, Lookup(WhatIsOwed(b), n)) <==> NoneStaleFor(q, ops, f, n))
    ensures !IsNamed(newAdded, Reconcile(Start(m0, added), found).deleted, n) ==>
              Lookup(WhatIsOwed(b), n) == SettledAt(Reconcile(Start(m0, added), found).workloads, q, n)
    ensures n !in q ==> IsOutcomeAt(m0, added, found, n, Lookup(WhatIsOwed(b), n))
  {
    var h := Reconcile(Start(m0, added), found);
    var a := AgentState(h.workloads, q);
    if !IsNamed(newAdded, h.deleted, n) {
      UnnamedHasNoOperation(h.workloads.Keys, newAdded, h.deleted, ops, n);
      NoOperationIsStale(q, ops, f, n);
      SettledLookup(h.workloads, q, n);
    }
    FinalMapByFate(m0, added, found, newAdded);
    MessageHonouredAtIff(a, newAdded, h.deleted, f, ops, b, n);
    FinalMapAt(WhatIsOwed(a), h.workloads, newAdded, h.deleted, n);
    var m := FinalMap(h.workloads, newAdded, h.deleted);
    OutcomeIsUnique(m0, added, found, n, Lookup(m, n), Lookup(WhatIsOwed(b), n));
    if n !in q {
      hide Reconcile, HandsOn, IsTransform, IsBatch, IsOutcomeAt, Settled, FinalMap, IsNamed;
      NothingWaitsAt(a, n);
      NothingIsStale(q, ops, f, n);
    }
  }

  lemma NothingIsStale(q: Queue, ops: seq<WorkloadOperation>, f: Fulfilled, n: string)
    requires n !in q
    ensures NoneStaleFor(q, ops, f, n)
  {
  }

  lemma OutcomeIsUnique(m0: WorkloadMap, added: seq<WorkloadNamed>, found: seq<Found>, n: string, u: Option<Managed>,
                        v: Option<Managed>)
    requires IsOutcomeAt(m0, added, found, n, u)
    ensures IsOutcomeAt(m0, added, found, n, v) <==> v == u
  {
  }

  predicate AllReady(f: Fulfilled, ops: seq<WorkloadOperation>) {
    forall op :: op in ops && EntryOf(op).Some? ==> Remain(EntryOf(op).value, f).None?
  }

  /** Nothing waited: the agent owes the outcome everywhere, and has it if everything is ready. */
  lemma HelloOutcome(m0: WorkloadMap, added: seq<WorkloadNamed>, found: seq<Found>, newAdded: seq<ReusableWorkload>,
                     f: Fulfilled, ops: seq<WorkloadOperation>, b: AgentState)
    requires DistinctNames(added)
    requires var h := Reconcile(Start(m0, added), found);
             && HandsOn(h, newAdded) && IsTransform(h.workloads.Keys, newAdded, h.deleted, ops)
             && IsBatch(AgentState(h.workloads, map[]), ops, f, b)
    ensures IsOutcome(m0, added, found, WhatIsOwed(b))
    ensures AllReady(f, ops) ==> b.queue == map[] && IsOutcome(m0, added, found, b.workloads)
  {
    var h := Reconcile(Start(m0, added), found);
    hide Reconcile, HandsOn, IsTransform, IsBatch, IsOutcomeAt, Settled;
    forall n
      ensures IsOutcomeAt(m0, added, found, n, Lookup(WhatIsOwed(b), n))
    {
      HelloOutcomeAt(m0, map[], added, found, newAdded, f, ops, b, n);
    }
    if AllReady(f, ops) {
      NothingWaits(ops, f);
      EmptyQueueStays(AgentState(h.workloads, map[]), ops, f, b);
      NothingOwed(b.workloads);
    }
  }

  lemma {:induction false} NothingWaits(ops: seq<WorkloadOperation>, f: Fulfilled)
    requires AllReady(f, ops)
    ensures QueueWithNew(map[], ops, f) == map[]
  {
    if ops != [] {
      assert ops[|ops| - 1] in ops;
      NothingWaits(ops[..|ops| - 1], f);
    }
  }

  lemma EmptyQueueStays(a: AgentState, ops: seq<WorkloadOperation>, f: Fulfilled, b: AgentState)
    requires IsBatch(a, ops, f, b) && QueueWithNew(a.queue, ops, f) == map[]
    ensures b.queue == map[]
  {
  }

  /** The map a hello means. */
  function AsMap(ws: seq<WorkloadNamed>): WorkloadMap {
    if ws == [] then map[] else AsMap(ws[..|ws| - 1])[NameOf(ws[|ws| - 1]) := Managed(Some(ws[|ws| - 1]))]
  }

  lemma {:induction false} AsMapAt(ws: seq<WorkloadNamed>, n: string)
    requires DistinctNames(ws)
    ensures n in AsMap(ws) <==> IsAdded(ws, n)
    ensures forall w :: w in ws && NameOf(w) == n ==> Lookup(AsMap(ws), n) == Some(Managed(Some(w)))
  {
    if ws != [] {
      var init, last := ws[..|ws| - 1], ws[|ws| - 1];
      AsMapAt(init, n);
      assert ws == init + [last];
      if IsAdded(init, n) {
        var w :| w in init && NameOf(w) == n;
        assert w in ws;
      }
      if NameOf(last) == n {
        assert last in ws;
      }
      forall w | w in ws && NameOf(w) == n
        ensures NameOf(last) == n ==> w == last
      {
        if NameOf(last) == n {
          SameWorkload(ws, w, last);
        }
      }
    }
  }

  /**
   A hello can decide about a name: what it hands on meets no different older
   operation; what waits otherwise leads to what is wanted; and if nothing waits, a
   resumed workload was not listed again and an old entry was listed.
   */
  ghost predicate HelloKept(a: AgentState, workloads: seq<WorkloadNamed>, found: seq<Found>,
                            handedOn: seq<ReusableWorkload>, ready: Fulfilled, ops: seq<WorkloadOperation>, n: string)
  {
    var h := Reconcile(Start(a.workloads, workloads), found);
    if IsNamed(handedOn, h.deleted, n) then NoneStaleFor(a.queue, ops, ready, n)
    else if n in a.queue then Effect(Owed(a.queue[n]), Lookup(h.workloads, n)) == Lookup(AsMap(workloads), n)
    else
      && (forall w :: w in workloads && NameOf(w) == n ==> !ListedAfterResume(found, w))
      && (n in a.workloads && !IsAdded(workloads, n) ==> IsListed(found, n))
  }

  /** What a hello hands on or replaces is wanted and not lost. */
  lemma NamedIsWanted(m0: WorkloadMap, ws: seq<WorkloadNamed>, found: seq<Found>, handedOn: seq<ReusableWorkload>,
                      n: string)
    requires DistinctNames(ws) && HandsOn(Reconcile(Start(m0, ws), found), handedOn)
    requires IsNamed(handedOn, Reconcile(Start(m0, ws), found).deleted, n)
    ensures exists w :: w in ws && NameOf(w) == n && FateOf(found, w) != Lost
  {
    var h, fate: WorkloadNamed -> Fate := Reconcile(Start(m0, ws), found), w => FateOf(found, w);
    ReconcileByFate(m0, ws, found);
    HandedOnNames(ws, fate, h, handedOn);
    hide Reconcile, HandsOn, AddedMap, PendingByFate, AddedByFate, FateOf;
    forall d | d in h.deleted
      ensures DeletedName(d) in AddedMap(handedOn)
    {
      var w :| w in ws && NameOf(w) == DeletedName(d) && fate(w) == Restarted;
    }
  }

  /** From any map and queue, at every name: a hello makes the agent owe what is wanted exactly when it is kept. */
  lemma HelloHonouredAtIff(a: AgentState, ws: seq<WorkloadNamed>, found: seq<Found>, handedOn: seq<ReusableWorkload>,
                           f: Fulfilled, ops: seq<WorkloadOperation>, b: AgentState, n: string)
    requires DistinctNames(ws) && WellKeyed(a.queue)
    requires var h := Reconcile(Start(a.workloads, ws), found);
             && HandsOn(h, handedOn) && IsTransform(h.workloads.Keys, handedOn, h.deleted, ops)
             && IsBatch(AgentState(h.workloads, a.queue), ops, f, b)
    ensures WellKeyed(b.queue)
    ensures Lookup(WhatIsOwed(b), n) == Lookup(AsMap(ws), n) <==> HelloKept(a, ws, found, handedOn, f, ops, n)
  {
    var h := Reconcile(Start(a.workloads, ws), found);
    HelloKeepsWellKeyed(a, ws, found, handedOn, f, ops, b);
    HelloOutcomeAt(a.workloads, a.queue, ws, found, handedOn, f, ops, b, n);
    AsMapAt(ws, n);
    if IsNamed(handedOn, h.deleted, n) {
      NamedIsWanted(a.workloads, ws, found, handedOn, n);
      hide Reconcile, HandsOn, IsTransform, IsBatch, AsMap, Settled, NoneStaleFor, IsNamed, FateOf;
      var w :| w in ws && NameOf(w) == n && FateOf(found, w) != Lost;
      assert IsAdded(ws, n);
      OutcomeOfAdded(a.workloads, ws, found, w, Lookup(WhatIsOwed(b), n));
    } else if n !in a.queue {
      hide Reconcile, HandsOn, IsTransform, IsBatch, AsMap, Settled, IsNamed, ListedAfterResume, IsListed;
      OutcomeIsWantedIff(a.workloads, ws, found, n, Lookup(WhatIsOwed(b), n));
    }
  }

  lemma HelloKeepsWellKeyed(a: AgentState, ws: seq<WorkloadNamed>, found: seq<Found>, handedOn: seq<ReusableWorkload>,
                            f: Fulfilled, ops: seq<WorkloadOperation>, b: AgentState)
    requires DistinctNames(ws) && WellKeyed(a.queue)
    requires var h := Reconcile(Start(a.workloads, ws), found);
             && HandsOn(h, handedOn) && IsTransform(h.workloads.Keys, handedOn, h.deleted, ops)
             && IsBatch(AgentState(h.workloads, a.queue), ops, f, b)
    ensures WellKeyed(b.queue)
  {
    var h := Reconcile(Start(a.workloads, ws), found);
    FinalMapByFate(a.workloads, ws, found, handedOn);
    MessageHonouredAtIff(AgentState(h.workloads, a.queue), handedOn, h.deleted, f, ops, b, "");
  }

  lemma OutcomeOfAdded(m0: WorkloadMap, ws: seq<WorkloadNamed>, found: seq<Found>, w: WorkloadNamed, v: Option<Managed>)
    requires DistinctNames(ws) && w in ws
    ensures IsOutcomeAt(m0, ws, found, NameOf(w), v) <==>
            v == if FateOf(found, w) == Lost then None else Some(Managed(Some(w)))
  {
    forall u | u in ws && NameOf(u) == NameOf(w)
      ensures u == w
    {
      SameWorkload(ws, u, w);
    }
    assert IsAdded(ws, NameOf(w));
  }

  lemma OutcomeIsWantedIff(m0: WorkloadMap, ws: seq<WorkloadNamed>, found: seq<Found>, n: string, v: Option<Managed>)
    requires DistinctNames(ws) && IsOutcomeAt(m0, ws, found, n, v)
    ensures v == Lookup(AsMap(ws), n) <==>
            && (forall w :: w in ws && NameOf(w) == n ==> !ListedAfterResume(found, w))
            && (n in m0 && !IsAdded(ws, n) ==> IsListed(found, n))
  {
    AsMapAt(ws, n);
    hide AsMap, ListedAfterResume, IsListed, FateOf;
    if IsAdded(ws, n) {
      var w :| w in ws && NameOf(w) == n;
      FateByPosition(found, w);
      forall u | u in ws && NameOf(u) == n
        ensures u == w
      {
        SameWorkload(ws, u, w);
      }
    }
  }

  // ---------- Runs of messages, hellos and passes ----------

  /** Messages and hellos carry the operations they were turned into and what was ready then. */
  datatype Event =
    | Pass
    | Message(added: seq<ReusableWorkload>, deleted: seq<DeletedWorkload>, ready: Fulfilled,
              ops: seq<WorkloadOperation>)
    | Hello(workloads: seq<WorkloadNamed>, found: seq<Found>, handedOn: seq<ReusableWorkload>, ready: Fulfilled,
            ops: seq<WorkloadOperation>)

  /**
   One event at the agent: a pass; a message that deletes no name twice; or a hello with
   distinct names, reconciled with what the runtimes list.
   */
  ghost predicate IsStep(a: AgentState, ev: Event, b: AgentState) {
    match ev
    case Pass => IsPass(a, b)
    case Message(added, deleted, ready, ops) =>
      DistinctDeleted(deleted) && IsTransform(a.workloads.Keys, added, deleted, ops) && IsBatch(a, ops, ready, b)
    case Hello(workloads, found, handedOn, ready, ops) =>
      var h := Reconcile(Start(a.workloads, workloads), found);
      && DistinctNames(workloads) && HandsOn(h, handedOn)
      && IsTransform(h.workloads.Keys, handedOn, h.deleted, ops)
      && IsBatch(AgentState(h.workloads, a.queue), ops, ready, b)
  }

  ghost predicate IsAgentRun(run: seq<AgentState>, events: seq<Event>) {
    && |run| == |events| + 1 && WellKeyed(run[0].queue)
    && forall i :: 0 <= i < |events| ==> IsStep(run[i], events[i], run[i + 1])
  }

  /** The map the server means by all it has told. */
  function Meant(m: WorkloadMap, events: seq<Event>): WorkloadMap {
    if events == [] then m
    else
      var before, ev := Meant(m, events[..|events| - 1]), events[|events| - 1];
      match ev
      case Pass => before
      case Message(added, deleted, _, _) => FinalMap(before, added, deleted)
      case Hello(workloads, _, _, _, _) => AsMap(workloads)
  }

  /** Whether an event decides about the name; a hello is about all names. */
  predicate IsNamedBy(ev: Event, n: string) {
    match ev
    case Pass => false
    case Message(added, deleted, _, _) => IsNamed(added, deleted, n)
    case Hello(_, _, _, _, _) => true
  }

  /** The event could decide about the name: no different older operation was in its way. */
  ghost predicate Kept(a: AgentState, ev: Event, n: string) {
    match ev
    case Pass => true
    case Message(_, _, ready, ops) => NoneStaleFor(a.queue, ops, ready, n)
    case Hello(workloads, found, handedOn, ready, ops) => HelloKept(a, workloads, found, handedOn, ready, ops, n)
  }

  /** The last event about the name was kept. */
  ghost predicate LastWordKept(run: seq<AgentState>, events: seq<Event>, n: string)
    requires |run| == |events| + 1
  {
    if events == [] then true
    else
      var last := |events| - 1;
      if IsNamedBy(events[last], n) then Kept(run[last], events[last], n)
      else LastWordKept(run[..last + 1], events[..last], n)
  }

  /** What one event means after what was meant before. */
  function MeantBy(m: WorkloadMap, ev: Event): WorkloadMap {
    match ev
    case Pass => m
    case Message(added, deleted, _, _) => FinalMap(m, added, deleted)
    case Hello(workloads, _, _, _, _) => AsMap(workloads)
  }

  lemma MeantByAt(m: WorkloadMap, m': WorkloadMap, ev: Event, n: string)
    ensures IsNamedBy(ev, n) ==> Lookup(MeantBy(m, ev), n) == Lookup(MeantBy(m', ev), n)
    ensures !IsNamedBy(ev, n) ==> Lookup(MeantBy(m, ev), n) == Lookup(m, n)
  {
    hide FinalMap, IsNamed;
    if ev.Message? {
      FinalMapAt(m, m', ev.added, ev.deleted, n);
    }
  }

  /** A step at one name: unchanged if the event does not name it, settled by the event alone if it does. */
  lemma StepAt(a: AgentState, ev: Event, b: AgentState, n: string, m: WorkloadMap)
    requires WellKeyed(a.queue) && IsStep(a, ev, b)
    ensures WellKeyed(b.queue)
    ensures !IsNamedBy(ev, n) ==> Lookup(WhatIsOwed(b), n) == Lookup(WhatIsOwed(a), n)
    ensures IsNamedBy(ev, n) ==> (Lookup(WhatIsOwed(b), n) == Lookup(MeantBy(m, ev), n) <==> Kept(a, ev, n))
  {
    hide IsTransform, IsBatch, NoneStaleFor, Settled, FinalMap, WellKeyed, Execute, Remaining, Released, Lists, IsNamed;
    hide Reconcile, HandsOn, HelloKept, AsMap;
    match ev
    case Pass =>
      var f, ready :|
        Lists(ready, Released(a.queue, f)) && b == AgentState(Execute(a.workloads, ready), Remaining(a.queue, f));
      PassKeepsSettled(a.workloads, a.queue, f, ready);
      RemainingWellKeyed(a.queue, f);
    case Message(added, deleted, ready, ops) =>
      MessageHonouredAtIff(a, added, deleted, ready, ops, b, n);
      FinalMapAt(WhatIsOwed(a), m, added, deleted, n);
      if !IsNamed(added, deleted, n) {
        UnnamedHasNoOperation(a.workloads.Keys, added, deleted, ops, n);
        NoOperationIsStale(a.queue, ops, ready, n);
      }
    case Hello(workloads, found, handedOn, ready, ops) =>
      HelloHonouredAtIff(a, workloads, found, handedOn, ready, ops, b, n);
  }

  /**
   Over any run of messages, hellos and passes, with any dependencies fulfilled at any
   time: at every name the agent owes what it was told if and only if the last event
   about that name was kept.
   */
  lemma {:induction false} AgentConvergesAtIff(run: seq<AgentState>, events: seq<Event>, n: string)
    requires IsAgentRun(run, events)
    ensures WellKeyed(run[|events|].queue)
    ensures Lookup(WhatIsOwed(run[|events|]), n) == Lookup(Meant(WhatIsOwed(run[0]), events), n) <==>
            LastWordKept(run, events, n)
  {
    hide IsStep, WellKeyed, Settled, MeantBy, Kept, Meant, IsNamedBy;
    if events == [] {
      MeantNothing(WhatIsOwed(run[0]));
    } else {
      var last := |events| - 1;
      var init, front := events[..last], run[..last + 1];
      assert forall i :: 0 <= i < last ==> init[i] == events[i];
      assert forall i :: 0 <= i <= last ==> front[i] == run[i];
      assert IsStep(run[last], events[last], run[last + 1]);
      AgentConvergesAtIff(front, init, n);
      StepAt(run[last], events[last], run[last + 1], n, Meant(WhatIsOwed(run[0]), init));
      MeantNext(WhatIsOwed(run[0]), events);
      MeantByAt(Meant(WhatIsOwed(run[0]), init), WhatIsOwed(run[0]), events[last], n);
    }
  }

  lemma MeantNext(m: WorkloadMap, events: seq<Event>)
    requires events != []
    ensures Meant(m, events) == MeantBy(Meant(m, events[..|events| - 1]), events[|events| - 1])
  {
  }

  lemma MeantNothing(m: WorkloadMap)
    ensures Meant(m, []) == m
  {
  }

  ghost predicate EveryLastWordKept(run: seq<AgentState>, events: seq<Event>)
    requires |run| == |events| + 1
  {
    forall n :: LastWordKept(run, events, n)
  }

  lemma KeptIsOwed(run: seq<AgentState>, events: seq<Event>)
    requires IsAgentRun(run, events) && EveryLastWordKept(run, events)
    ensures WhatIsOwed(run[|events|]) == Meant(WhatIsOwed(run[0]), events)
  {
    var last, meant := WhatIsOwed(run[|events|]), Meant(WhatIsOwed(run[0]), events);
    hide IsAgentRun, LastWordKept, WhatIsOwed, Meant;
    forall n
      ensures Lookup(last, n) == Lookup(meant, n)
    {
      assert LastWordKept(run, events, n);
      AgentConvergesAtIff(run, events, n);
    }
    SameLookups(last, meant);
  }

  /** For the whole map: it is owed exactly when all last words were kept, and present once nothing waits. */
  lemma AgentConvergesIff(run: seq<AgentState>, events: seq<Event>)
    requires IsAgentRun(run, events)
    ensures var last := run[|events|];
            && (WhatIsOwed(last) == Meant(WhatIsOwed(run[0]), events) <==> EveryLastWordKept(run, events))
            && (last.queue == map[] ==> last.workloads == WhatIsOwed(last))
  {
    var last := run[|events|];
    if last.queue == map[] {
      NothingOwed(last.workloads);
    }
    hide IsAgentRun, LastWordKept, WhatIsOwed, Meant;
    if EveryLastWordKept(run, events) {
      KeptIsOwed(run, events);
    } else {
      var n :| !LastWordKept(run, events, n);
      AgentConvergesAtIff(run, events, n);
    }
  }
}
