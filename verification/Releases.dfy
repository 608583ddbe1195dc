/**
 When the waiting queue lets an operation go: never before its dependencies are
 fulfilled, and at once when they are. The statements speak of the operation and
 of what is fulfilled alone.
 */
module Releases {
  import opened Options
  import opened Sequences
  import opened Workloads
  import opened Operations
  import opened Scheduler
  import opened ServerHello
  import opened RuntimeManager

  /** One turn of the queue: new operations come in, then the queue is passed over. */
  datatype Turn = Turn(before: Queue, batch: seq<WorkloadOperation>, f: Fulfilled, ready: seq<WorkloadOperation>,
                       after: Queue)

  /** What the two methods of the scheduler do; a pass alone is a turn without new operations. */
  ghost predicate IsTurn(t: Turn) {
    var q := QueueWithNew(t.before, t.batch, t.f);
    && WellKeyed(t.before) && FromOutside(t.batch) && t.after == Remaining(q, t.f)
    && exists more :: t.ready == ReleasedNew(t.batch, t.f) + more && Lists(more, Released(q, t.f))
  }

  lemma PassIsTurn(q: Queue, f: Fulfilled, ready: seq<WorkloadOperation>)
    requires WellKeyed(q) && Lists(ready, Released(q, f))
    ensures IsTurn(Turn(q, [], f, ready, Remaining(q, f)))
  {
    assert ready == [] + ready;
  }

  // ---------- Nothing goes too early ----------

  /** What an operation needs at the moment it is released; an update may have had its old version deleted before. */
  predicate Allowed(op: WorkloadOperation, f: Fulfilled, q: Queue) {
    match op
    case Create(r) => f.create(r.workloadNamed)
    case Delete(d) => f.delete(d)
    case UpdateDeleteOnly(d) => f.delete(d)
    case Update(w, d) => f.create(w) && (f.delete(d) || (NameOf(w) in q && q[NameOf(w)] == UpdateCreate(w, d)))
  }

  lemma {:induction false} NewAreAllowed(q: Queue, ops: seq<WorkloadOperation>, f: Fulfilled, op: WorkloadOperation)
    requires op in ReleasedNew(ops, f)
    ensures Allowed(op, f, q)
  {
    if op in ReleasedNew(ops[..|ops| - 1], f) {
      NewAreAllowed(q, ops[..|ops| - 1], f, op);
    }
  }

  /** An update whose old version is deleted waits from before, or its old version goes now. */
  lemma {:induction false} WaitingUpdate(q: Queue, ops: seq<WorkloadOperation>, f: Fulfilled, n: string)
    requires FromOutside(ops) && n in QueueWithNew(q, ops, f) && QueueWithNew(q, ops, f)[n].UpdateCreate?
    ensures var e := QueueWithNew(q, ops, f)[n];
            || (n in q && q[n] == e)
            || (f.delete(e.oldWorkload) && !f.create(e.newWorkload)
                && UpdateDeleteOnly(e.oldWorkload) in ReleasedNew(ops, f))
  {
    if ops != [] {
      var init, op := ops[..|ops| - 1], ops[|ops| - 1];
      assert op in ops;
      if n in QueueWithNew(q, init, f) && QueueWithNew(q, init, f)[n] == QueueWithNew(q, ops, f)[n] {
        WaitingUpdate(q, init, f, n);
      }
    }
  }

  lemma EntryIsAllowed(e: PendingEntry, f: Fulfilled, q: Queue)
    requires OneName(e) && Release(e, f).Some?
    requires e.UpdateCreate? ==>
               f.delete(e.oldWorkload) || (NameOf(e.newWorkload) in q && q[NameOf(e.newWorkload)] == e)
    ensures Allowed(Release(e, f).value, f, q)
  {
  }

  /** Whatever a turn releases has its dependencies fulfilled at that turn. */
  lemma ReleasedAreAllowed(t: Turn, op: WorkloadOperation)
    requires IsTurn(t) && op in t.ready
    ensures Allowed(op, t.f, t.before)
  {
    hide Allowed, Release, QueueWithNew, ReleasedNew, Remaining, FromOutside;
    var q := QueueWithNew(t.before, t.batch, t.f);
    NewKeepWellKeyed(t.before, t.batch, t.f);
    var more :| t.ready == ReleasedNew(t.batch, t.f) + more && Lists(more, Released(q, t.f));
    if op in ReleasedNew(t.batch, t.f) {
      NewAreAllowed(t.before, t.batch, t.f, op);
    } else {
      var n := OperationName(op);
      if q[n].UpdateCreate? {
        WaitingUpdate(t.before, t.batch, t.f, n);
      }
      EntryIsAllowed(q[n], t.f, t.before);
    }
  }

  /** The turns of a queue that starts empty. */
  ghost predicate IsQueueRun(turns: seq<Turn>) {
    && (turns != [] ==> turns[0].before == map[])
    && (forall k :: 0 <= k < |turns| ==> IsTurn(turns[k]))
    && (forall k :: 0 < k < |turns| ==> turns[k].before == turns[k - 1].after)
  }

  /** The old version could be deleted at an earlier turn, and was. */
  ghost predicate WasDeleted(turns: seq<Turn>, d: DeletedWorkload) {
    exists j :: 0 <= j < |turns| && turns[j].f.delete(d) && UpdateDeleteOnly(d) in turns[j].ready
  }

  /** An update that has only its creation left after a turn had it left before, or its old version goes now. */
  lemma HalfDoneUpdate(t: Turn, n: string)
    requires IsTurn(t) && n in t.after && t.after[n].UpdateCreate?
    ensures var e := t.after[n];
            || (n in t.before && t.before[n] == e)
            || (t.f.delete(e.oldWorkload) && UpdateDeleteOnly(e.oldWorkload) in t.ready)
  {
    var q := QueueWithNew(t.before, t.batch, t.f);
    var more :| t.ready == ReleasedNew(t.batch, t.f) + more && Lists(more, Released(q, t.f));
    hide Release, Remain, QueueWithNew, ReleasedNew, FromOutside, WellKeyed;
    LeftToCreate(q[n], t.f);
    if q[n].UpdateCreate? {
      WaitingUpdate(t.before, t.batch, t.f, n);
    } else {
      assert n in Released(q, t.f) && Released(q, t.f)[n] in more;
    }
  }

  lemma LeftToCreate(e: PendingEntry, f: Fulfilled)
    requires Remain(e, f).Some? && Remain(e, f).value.UpdateCreate?
    ensures var left := Remain(e, f).value;
            e == left || (!e.UpdateCreate? && f.delete(left.oldWorkload)
                          && Release(e, f) == Some(UpdateDeleteOnly(left.oldWorkload)))
  {
  }

  lemma {:induction false} HalfDoneWasDeleted(turns: seq<Turn>, n: string)
    requires turns != [] && IsQueueRun(turns)
    requires var t := turns[|turns| - 1]; n in t.after && t.after[n].UpdateCreate?
    ensures WasDeleted(turns, turns[|turns| - 1].after[n].oldWorkload)
  {
    var last := |turns| - 1;
    var t, init := turns[last], turns[..last];
    HalfDoneUpdate(t, n);
    hide IsTurn;
    var d := t.after[n].oldWorkload;
    if !(t.f.delete(d) && UpdateDeleteOnly(d) in t.ready) {
      assert last > 0 && t.before == turns[last - 1].after == init[|init| - 1].after;
      HalfDoneWasDeleted(init, n);
      var j :| 0 <= j < |init| && init[j].f.delete(d) && UpdateDeleteOnly(d) in init[j].ready;
      assert turns[j] == init[j];
    }
  }

  /**
   Over every run: nothing is created before its dependencies are fulfilled, nothing is
   deleted before its dependents allow it, and an update starts its new version only
   when the old one may go now or went at an earlier turn that allowed it.
   */
  lemma NothingTooEarly(turns: seq<Turn>, k: nat, op: WorkloadOperation)
    requires IsQueueRun(turns) && k < |turns| && op in turns[k].ready
    ensures match op
            case Create(r) => turns[k].f.create(r.workloadNamed)
            case Delete(d) => turns[k].f.delete(d)
            case UpdateDeleteOnly(d) => turns[k].f.delete(d)
            case Update(w, d) => turns[k].f.create(w) && (turns[k].f.delete(d) || WasDeleted(turns[..k], d))
  {
    hide IsTurn, WasDeleted;
    ReleasedAreAllowed(turns[k], op);
    if op.Update? && !turns[k].f.delete(op.oldWorkload) {
      var before := turns[..k];
      assert k > 0 && turns[k].before == turns[k - 1].after == before[|before| - 1].after;
      HalfDoneWasDeleted(before, NameOf(op.newWorkload));
    }
  }

  // ---------- Nothing waits longer than it has to ----------

  /** At one turn and one name: what is released, and what waits on. */
  ghost predicate Gives(t: Turn, n: string, released: seq<WorkloadOperation>, waits: Option<PendingEntry>) {
    && OperationsOn(t.ready, n) == released
    && (if n in t.after then waits == Some(t.after[n]) else waits == None)
  }

  function Only<T>(x: Option<T>): seq<T> {
    if x.Some? then [x.value] else []
  }

  /** A turn at one name: what is new comes first, then the entry that waits by then. */
  lemma TurnAt(t: Turn, n: string)
    requires IsTurn(t)
    ensures var q := QueueWithNew(t.before, t.batch, t.f);
            Gives(t, n, OperationsOn(ReleasedNew(t.batch, t.f), n) + (if n in q then Only(Release(q[n], t.f)) else []),
                  if n in q then Remain(q[n], t.f) else None)
  {
    var q := QueueWithNew(t.before, t.batch, t.f);
    NewKeepWellKeyed(t.before, t.batch, t.f);
    var more :| t.ready == ReleasedNew(t.batch, t.f) + more && Lists(more, Released(q, t.f));
    OperationsOnConcat(ReleasedNew(t.batch, t.f), more, n);
    hide OperationsOn, Release, Remain, QueueWithNew, ReleasedNew, Lists;
    if n in q && Release(q[n], t.f).Some? {
      ReleasedName(q[n], t.f);
    }
    ListedOn(more, Released(q, t.f), n);
  }

  /** An entry that waits and is not replaced goes at the first turn that allows it, and not before. */
  lemma WaitingIsReleasedIff(t: Turn, n: string)
    requires IsTurn(t) && n in t.before && forall op :: op in t.batch ==> OperationName(op) != n
    ensures match t.before[n]
            case PendingCreate(r) =>
              if t.f.create(r.workloadNamed) then Gives(t, n, [Create(r)], None) else Gives(t, n, [], Some(t.before[n]))
            case PendingDelete(d) =>
              if t.f.delete(d) then Gives(t, n, [Delete(d)], None) else Gives(t, n, [], Some(t.before[n]))
            case UpdateCreate(w, d) =>
              if t.f.create(w) then Gives(t, n, [Update(w, d)], None) else Gives(t, n, [], Some(t.before[n]))
            case UpdateDelete(w, d) =>
              if !t.f.delete(d) then Gives(t, n, [], Some(t.before[n]))
              else if t.f.create(w) then Gives(t, n, [Update(w, d)], None)
              else Gives(t, n, [UpdateDeleteOnly(d)], Some(UpdateCreate(w, d)))
  {
    TurnAt(t, n);
    BatchElsewhere(map[], t.before, t.batch, t.f, n);
    NewElsewhere(t.batch, t.f, n);
    hide OperationsOn, QueueWithNew, ReleasedNew;
  }

  predicate NotYet(e: PendingEntry, f: Fulfilled) {
    match e
    case PendingCreate(r) => !f.create(r.workloadNamed)
    case PendingDelete(d) => !f.delete(d)
    case UpdateCreate(w, _) => !f.create(w)
    case UpdateDelete(_, d) => !f.delete(d)
  }

  /** Over a run an entry waits, and nothing happens to its workload, as long as nothing allows or replaces it. */
  lemma {:induction false} KeepsWaiting(turns: seq<Turn>, j: nat, k: nat, n: string)
    requires IsQueueRun(turns) && j <= k < |turns| && n in turns[j].before
    requires forall i :: j <= i < k ==>
               && NotYet(turns[j].before[n], turns[i].f)
               && forall op :: op in turns[i].batch ==> OperationName(op) != n
    ensures n in turns[k].before && turns[k].before[n] == turns[j].before[n]
    ensures forall i :: j <= i < k ==> OperationsOn(turns[i].ready, n) == []
    decreases k
  {
    hide OperationsOn, IsTurn, NotYet;
    if j < k {
      KeepsWaiting(turns, j, k - 1, n);
      WaitsOn(turns[k - 1], n);
    }
  }

  lemma WaitsOn(t: Turn, n: string)
    requires IsTurn(t) && n in t.before && NotYet(t.before[n], t.f)
    requires forall op :: op in t.batch ==> OperationName(op) != n
    ensures n in t.after && t.after[n] == t.before[n] && OperationsOn(t.ready, n) == []
  {
    hide OperationsOn, IsTurn;
    WaitingIsReleasedIff(t, n);
  }

  lemma {:induction false} NewElsewhere(ops: seq<WorkloadOperation>, f: Fulfilled, n: string)
    requires FromOutside(ops) && forall op :: op in ops ==> OperationName(op) != n
    ensures OperationsOn(ReleasedNew(ops, f), n) == []
  {
    if ops != [] {
      var init, op := ops[..|ops| - 1], ops[|ops| - 1];
      assert op in ops;
      NewElsewhere(init, f, n);
      ReleaseName(op, f);
      var e := EntryOf(op).value;
      if Release(e, f).Some? {
        OneOperationOn(ReleasedNew(init, f), Release(e, f).value, n);
      } else {
        assert ReleasedNew(ops, f) == ReleasedNew(init, f);
      }
    }
  }

  lemma {:induction false} NewAt(ops: seq<WorkloadOperation>, f: Fulfilled, k: nat)
    requires FromOutside(ops) && OnePerName(ops) && k < |ops|
    ensures var r := Release(EntryOf(ops[k]).value, f);
            OperationsOn(ReleasedNew(ops, f), OperationName(ops[k])) == Only(r)
  {
    hide Release;
    var last := |ops| - 1;
    var init, op := ops[..last], ops[last];
    assert op in ops && ops[k] in ops;
    ReleaseName(op, f);
    var e := EntryOf(op).value;
    if Release(e, f).Some? {
      OneOperationOn(ReleasedNew(init, f), Release(e, f).value, OperationName(ops[k]));
    } else {
      assert ReleasedNew(ops, f) == ReleasedNew(init, f);
    }
    if k < last {
      assert init[k] == ops[k];
      NewAt(init, f, k);
    } else {
      NewElsewhere(init, f, OperationName(op));
    }
  }

  /** What is released and what waits when an operation of the batch meets an older entry or none. */
  lemma NewWithOlder(t: Turn, k: nat)
    requires IsTurn(t) && OnePerName(t.batch) && k < |t.batch|
    ensures var n, e := OperationName(t.batch[k]), EntryOf(t.batch[k]).value;
            var now := Only(Release(e, t.f));
            && (Remain(e, t.f).Some? ==> Gives(t, n, now, Remain(e, t.f)))
            && (Remain(e, t.f).None? && n !in t.before ==> Gives(t, n, now, None))
            && (Remain(e, t.f).None? ==> now <= OperationsOn(t.ready, n))
  {
    hide Release, Remain, OperationsOn, ReleasedNew, QueueWithNew, OnePerName, Execute, Effect, Released, Remaining;
    assert t.batch[k] in t.batch;
    TurnAt(t, OperationName(t.batch[k]));
    BatchAt(map[], t.before, t.batch, t.f, k);
    NewAt(t.batch, t.f, k);
    RemainsOnce(EntryOf(t.batch[k]).value, t.f);
  }

  /** What waits on waits through a second look at the same moment. */
  lemma RemainsOnce(e: PendingEntry, f: Fulfilled)
    ensures Remain(e, f).Some? ==>
              Remain(Remain(e, f).value, f) == Remain(e, f) && Release(Remain(e, f).value, f) == None
  {
  }

  /**
   A new operation goes at once if it is allowed, whatever waits under its name, and
   otherwise waits in place of it.
   */
  lemma NewIsReleasedIff(t: Turn, k: nat)
    requires IsTurn(t) && OnePerName(t.batch) && k < |t.batch|
    ensures var n := OperationName(t.batch[k]);
            match t.batch[k]
            case Create(r) =>
              if t.f.create(r.workloadNamed) then GoesAtOnce(t, k) else Gives(t, n, [], Some(PendingCreate(r)))
            case Delete(d) => if t.f.delete(d) then GoesAtOnce(t, k) else Gives(t, n, [], Some(PendingDelete(d)))
            case Update(w, d) =>
              if !t.f.delete(d) then Gives(t, n, [], Some(UpdateDelete(w, d)))
              else if t.f.create(w) then GoesAtOnce(t, k)
              else Gives(t, n, [UpdateDeleteOnly(d)], Some(UpdateCreate(w, d)))
            case UpdateDeleteOnly(_) => false
  {
    assert t.batch[k] in t.batch && FromOutside(t.batch);
    hide IsTurn, OnePerName, OperationsOn, Gives, Release, Remain;
    NewWithOlder(t, k);
    EntryOfNew(t.batch[k], t.f);
  }

  lemma EntryOfNew(op: WorkloadOperation, f: Fulfilled)
    requires EntryOf(op).Some?
    ensures var e := EntryOf(op).value;
            var now, later := Release(e, f), Remain(e, f);
            match op
            case Create(r) => e == PendingCreate(r)
                              && (if f.create(r.workloadNamed) then now == Some(op) && later == None
                                  else now == None && later == Some(e))
            case Delete(d) => e == PendingDelete(d)
                              && (if f.delete(d) then now == Some(op) && later == None
                                  else now == None && later == Some(e))
            case Update(w, d) => e == UpdateDelete(w, d)
                                 && (if !f.delete(d) then now == None && later == Some(e)
                                     else if f.create(w) then now == Some(op) && later == None
                                     else now == Some(UpdateDeleteOnly(d)) && later == Some(UpdateCreate(w, d)))
            case UpdateDeleteOnly(_) => false
  {
  }

  /** The operation is released; it is all that happens to the workload unless something older waits for it. */
  ghost predicate GoesAtOnce(t: Turn, k: nat)
    requires k < |t.batch|
  {
    var n := OperationName(t.batch[k]);
    && [t.batch[k]] <= OperationsOn(t.ready, n)
    && (n !in t.before ==> Gives(t, n, [t.batch[k]], None))
  }

  // ---------- What this means for the workloads of an agent ----------

  /** What an operation left under its name when it changed something there. */
  predicate Leaves(op: WorkloadOperation, v: Option<Managed>) {
    match op
    case Create(r) => v == Some(Managed(Some(r.workloadNamed)))
    case Update(w, _) => v == Some(Managed(Some(w)))
    case UpdateDeleteOnly(_) => v == Some(Managed(None))
    case Delete(_) => v == None
  }

  lemma {:induction false} ChangedBy(m: WorkloadMap, ops: seq<WorkloadOperation>, n: string)
    returns (op: WorkloadOperation)
    requires Lookup(Execute(m, ops), n) != Lookup(m, n)
    ensures op in ops && OperationName(op) == n && Leaves(op, Lookup(Execute(m, ops), n))
  {
    var init := ops[..|ops| - 1];
    if Lookup(Execute(m, init), n) == Lookup(Execute(m, ops), n) {
      op := ChangedBy(m, init, n);
    } else {
      op := ops[|ops| - 1];
    }
  }

  /** The map that the operations of an event find: after a hello, the one that was reconciled. */
  function BaseMap(a: AgentState, ev: Event): WorkloadMap {
    if ev.Hello? then Reconcile(Start(a.workloads, ev.workloads), ev.found).workloads else a.workloads
  }

  /** The turn of the queue that an event at the agent makes. */
  ghost predicate Carries(a: AgentState, ev: Event, t: Turn, b: AgentState) {
    && IsTurn(t) && t.before == a.queue && t.after == b.queue
    && (!ev.Pass? ==> t.f == ev.ready && t.batch == ev.ops)
    && b.workloads == Execute(BaseMap(a, ev), t.ready)
  }

  lemma BatchIsTurn(a: AgentState, ops: seq<WorkloadOperation>, f: Fulfilled, b: AgentState) returns (t: Turn)
    requires WellKeyed(a.queue) && FromOutside(ops) && IsBatch(a, ops, f, b)
    ensures IsTurn(t) && t.before == a.queue && t.after == b.queue && t.f == f && t.batch == ops
    ensures b.workloads == Execute(a.workloads, t.ready)
  {
    var q := QueueWithNew(a.queue, ops, f);
    var more :| Lists(more, Released(q, f)) && b.workloads == Execute(a.workloads, ReleasedNew(ops, f) + more);
    t := Turn(a.queue, ops, f, ReleasedNew(ops, f) + more, b.queue);
  }

  lemma StepIsTurn(a: AgentState, ev: Event, b: AgentState) returns (t: Turn)
    requires WellKeyed(a.queue) && IsStep(a, ev, b)
    ensures Carries(a, ev, t, b)
  {
    hide IsTransform, IsBatch, Lists, IsTurn, Execute, Reconcile, HandsOn, WellKeyed, Remaining, Released, FromOutside;
    match ev
    case Pass =>
      var f, ready :|
        Lists(ready, Released(a.queue, f)) && b == AgentState(Execute(a.workloads, ready), Remaining(a.queue, f));
      PassIsTurn(a.queue, f, ready);
      t := Turn(a.queue, [], f, ready, Remaining(a.queue, f));
    case Message(added, deleted, ready, ops) =>
      TransformFromOutside(a.workloads.Keys, added, deleted, ops);
      t := BatchIsTurn(a, ops, ready, b);
    case Hello(workloads, found, handedOn, ready, ops) =>
      var h := Reconcile(Start(a.workloads, workloads), found);
      TransformFromOutside(h.workloads.Keys, handedOn, h.deleted, ops);
      t := BatchIsTurn(AgentState(h.workloads, a.queue), ops, ready, b);
  }

  lemma FrontOfRun(run: seq<AgentState>, events: seq<Event>)
    requires IsAgentRun(run, events) && events != []
    ensures var last := |events| - 1;
            && IsAgentRun(run[..last + 1], events[..last]) && WellKeyed(run[last].queue)
            && IsStep(run[last], events[last], run[last + 1])
  {
    hide IsStep, WellKeyed;
    var last := |events| - 1;
    AgentConvergesAtIff(run[..last + 1], events[..last], "");
  }

  ghost predicate AllCarried(run: seq<AgentState>, events: seq<Event>, turns: seq<Turn>) {
    && |run| == |events| + 1 && |turns| == |events|
    && forall i :: 0 <= i < |events| ==> Carries(run[i], events[i], turns[i], run[i + 1])
  }

  lemma CarriedGrows(run: seq<AgentState>, events: seq<Event>, turns: seq<Turn>, t: Turn)
    requires |run| == |events| + 1 && events != []
    requires AllCarried(run[..|events|], events[..|events| - 1], turns)
    requires Carries(run[|events| - 1], events[|events| - 1], t, run[|events|])
    ensures AllCarried(run, events, turns + [t])
    ensures turns != [] ==> t.before == turns[|turns| - 1].after
  {
    hide IsTurn, Execute, BaseMap;
    var last := |events| - 1;
    var front, init := run[..last + 1], events[..last];
    assert last > 0 ==> Carries(front[last - 1], init[last - 1], turns[last - 1], front[last]);
    forall i | 0 <= i < last
      ensures Carries(run[i], events[i], (turns + [t])[i], run[i + 1])
    {
      assert Carries(front[i], init[i], turns[i], front[i + 1]);
    }
  }

  /** A run of an agent is a run of its queue. */
  lemma {:induction false} AgentRunIsQueueRun(run: seq<AgentState>, events: seq<Event>) returns (turns: seq<Turn>)
    requires IsAgentRun(run, events) && run[0].queue == map[]
    ensures IsQueueRun(turns) && AllCarried(run, events, turns)
  {
    turns := [];
    if events != [] {
      var last := |events| - 1;
      FrontOfRun(run, events);
      hide IsAgentRun, IsTurn, IsStep, IsQueueRun, AllCarried, WellKeyed, Execute, BaseMap;
      turns := AgentRunIsQueueRun(run[..last + 1], events[..last]);
      var t := StepIsTurn(run[last], events[last], run[last + 1]);
      CarriedGrows(run, events, turns, t);
      assert turns == [] ==> last == 0 by {
        SameLength(run[..last + 1], events[..last], turns);
      }
      QueueRunGrows(turns, t);
      turns := turns + [t];
    }
  }

  lemma SameLength(run: seq<AgentState>, events: seq<Event>, turns: seq<Turn>)
    requires AllCarried(run, events, turns)
    ensures |turns| == |events|
  {
  }

  lemma QueueRunGrows(turns: seq<Turn>, t: Turn)
    requires IsQueueRun(turns) && IsTurn(t)
    requires t.before == if turns == [] then map[] else turns[|turns| - 1].after
    ensures IsQueueRun(turns + [t])
  {
    hide IsTurn;
  }

  /**
   Over every run of messages, hellos and passes: a workload is started, stopped or left
   without a version only at an event at which its dependencies allow just that, and its
   old version may go then or went before.
   */
  lemma AgentNeverActsEarly(run: seq<AgentState>, events: seq<Event>, i: nat, n: string)
    returns (turns: seq<Turn>, op: WorkloadOperation)
    requires IsAgentRun(run, events) && run[0].queue == map[] && i < |events|
    requires Lookup(run[i + 1].workloads, n) != Lookup(BaseMap(run[i], events[i]), n)
    ensures IsQueueRun(turns) && AllCarried(run, events, turns)
    ensures OperationName(op) == n && Leaves(op, Lookup(run[i + 1].workloads, n))
    ensures match op
            case Create(r) => turns[i].f.create(r.workloadNamed)
            case Delete(d) => turns[i].f.delete(d)
            case UpdateDeleteOnly(d) => turns[i].f.delete(d)
            case Update(w, d) => turns[i].f.create(w) && (turns[i].f.delete(d) || WasDeleted(turns[..i], d))
  {
    hide IsTurn, IsQueueRun, Execute, WasDeleted;
    turns := AgentRunIsQueueRun(run, events);
    op := ChangedBy(BaseMap(run[i], events[i]), turns[i].ready, n);
    NothingTooEarly(turns, i, op);
  }

  lemma NothingHappensAt(m: WorkloadMap, ops: seq<WorkloadOperation>, n: string)
    requires OperationsOn(ops, n) == []
    ensures Lookup(Execute(m, ops), n) == Lookup(m, n)
  {
    ExecuteIsLocal(m, ops, n);
  }

  /** And an event that allows what waits has it done: the workload has its version, or is stopped, right after it. */
  lemma AgentActsAtOnceIff(a: AgentState, ev: Event, t: Turn, b: AgentState, n: string)
    requires Carries(a, ev, t, b) && n in a.queue && forall op :: op in t.batch ==> OperationName(op) != n
    ensures var before, after := Lookup(BaseMap(a, ev), n), Lookup(b.workloads, n);
            match a.queue[n]
            case PendingCreate(r) =>
              if t.f.create(r.workloadNamed) then after == Some(Managed(Some(r.workloadNamed))) && n !in b.queue
              else after == before && n in b.queue
            case PendingDelete(d) =>
              if t.f.delete(d) then after == None && n !in b.queue else after == before && n in b.queue
            case UpdateCreate(w, d) =>
              if t.f.create(w) then after == Some(Managed(Some(w))) && n !in b.queue
              else after == before && n in b.queue
            case UpdateDelete(w, d) =>
              if !t.f.delete(d) then after == before && n in b.queue
              else if t.f.create(w) then after == Some(Managed(Some(w))) && n !in b.queue
              else after == (if before.Some? then Some(Managed(None)) else None) && n in b.queue
  {
    var m := BaseMap(a, ev);
    WaitingIsReleasedIff(t, n);
    hide IsTurn, OperationsOn, Execute, BaseMap;
    var mine := OperationsOn(t.ready, n);
    if mine == [] {
      NothingHappensAt(m, t.ready, n);
    } else {
      HappensAt(m, t.ready, n, mine[0]);
    }
  }
}
