/**
 The waiting queue of an agent. Operations whose dependencies are not fulfilled
 wait under the name of their workload; every pass over the queue releases what
 has become ready. Which dependencies are fulfilled at a pass is arbitrary.
 */
module Scheduler {
  import opened Options
  import opened Workloads
  import opened Operations

  datatype PendingEntry =
    | PendingCreate(reusable: ReusableWorkload)
    | PendingDelete(oldWorkload: DeletedWorkload)
    | UpdateCreate(newWorkload: WorkloadNamed, oldWorkload: DeletedWorkload)
    | UpdateDelete(newWorkload: WorkloadNamed, oldWorkload: DeletedWorkload)

  type Queue = map<string, PendingEntry>

  /** Which workloads may be created and which deleted at the moment. */
  datatype Fulfilled = Fulfilled(create: WorkloadNamed -> bool, delete: DeletedWorkload -> bool)

  /** The operation an entry still has to bring about. */
  function Owed(e: PendingEntry): WorkloadOperation {
    match e
    case PendingCreate(r) => Create(r)
    case PendingDelete(d) => Delete(d)
    case UpdateCreate(w, d) => Update(w, d)
    case UpdateDelete(w, d) => Update(w, d)
  }

  predicate OneName(e: PendingEntry) {
    e.UpdateCreate? || e.UpdateDelete? ==> NameOf(e.newWorkload) == DeletedName(e.oldWorkload)
  }

  predicate WellKeyed(q: Queue) {
    forall n :: n in q ==> OneName(q[n]) && OperationName(Owed(q[n])) == n
  }

  /** The operation that is released, if any. */
  function Release(e: PendingEntry, f: Fulfilled): Option<WorkloadOperation> {
    match e
    case PendingCreate(r) => if f.create(r.workloadNamed) then Some(Create(r)) else None
    case PendingDelete(d) => if f.delete(d) then Some(Delete(d)) else None
    case UpdateCreate(w, d) => if f.create(w) then Some(Update(w, d)) else None
    case UpdateDelete(w, d) =>
      if f.create(w) && f.delete(d) then Some(Update(w, d))
      else if f.delete(d) then Some(UpdateDeleteOnly(d)) else None
  }

  /** What waits on. */
  function Remain(e: PendingEntry, f: Fulfilled): Option<PendingEntry> {
    match e
    case PendingCreate(r) => if f.create(r.workloadNamed) then None else Some(e)
    case PendingDelete(d) => if f.delete(d) then None else Some(e)
    case UpdateCreate(w, d) => if f.create(w) then None else Some(e)
    case UpdateDelete(w, d) =>
      if f.create(w) && f.delete(d) then None
      else if f.delete(d) then Some(UpdateCreate(w, d)) else Some(e)
  }

  function Released(q: Queue, f: Fulfilled): map<string, WorkloadOperation> {
    map n | n in q && Release(q[n], f).Some? :: Release(q[n], f).value
  }

  function Remaining(q: Queue, f: Fulfilled): Queue {
    map n | n in q && Remain(q[n], f).Some? :: Remain(q[n], f).value
  }

  /** A new operation enters as the entry it would wait as; partial updates never come in from outside. */
  function EntryOf(op: WorkloadOperation): Option<PendingEntry> {
    match op
    case Create(r) => Some(PendingCreate(r))
    case Update(w, d) => Some(UpdateDelete(w, d))
    case Delete(d) => Some(PendingDelete(d))
    case UpdateDeleteOnly(_) => None
  }

  function ReleasedNew(ops: seq<WorkloadOperation>, f: Fulfilled): seq<WorkloadOperation> {
    if ops == [] then []
    else
      var e := EntryOf(ops[|ops| - 1]);
      ReleasedNew(ops[..|ops| - 1], f)
      + (if e.Some? && Release(e.value, f).Some? then [Release(e.value, f).value] else [])
  }

  function QueueWithNew(q: Queue, ops: seq<WorkloadOperation>, f: Fulfilled): Queue {
    if ops == [] then q
    else
      var before, e := QueueWithNew(q, ops[..|ops| - 1], f), EntryOf(ops[|ops| - 1]);
      if e.Some? && Remain(e.value, f).Some?
      then before[OperationName(ops[|ops| - 1]) := Remain(e.value, f).value] else before
  }

  // ---------- What is told about waiting workloads ----------

  datatype WaitingReport = WaitingToStart(instanceName: InstanceName) | WaitingToStop(instanceName: InstanceName)

  /** New entries are reported, and updates whose old version may go now. */
  function Reports(e: PendingEntry, f: Fulfilled, isNew: bool): seq<WaitingReport> {
    match e
    case PendingCreate(r) =>
      if !f.create(r.workloadNamed) && isNew then [WaitingToStart(r.workloadNamed.instanceName)] else []
    case PendingDelete(d) => if !f.delete(d) && isNew then [WaitingToStop(d.instanceName)] else []
    case UpdateCreate(_, _) => []
    case UpdateDelete(w, d) =>
      if f.create(w) && f.delete(d) then []
      else if f.delete(d) then [WaitingToStart(w.instanceName)]
      else if isNew then [WaitingToStop(d.instanceName)] else []
  }

  /** What an entry that waits is waiting for. */
  function Told(e: PendingEntry): WaitingReport {
    match e
    case PendingCreate(r) => WaitingToStart(r.workloadNamed.instanceName)
    case PendingDelete(d) => WaitingToStop(d.instanceName)
    case UpdateCreate(w, _) => WaitingToStart(w.instanceName)
    case UpdateDelete(_, d) => WaitingToStop(d.instanceName)
  }

  function LastReport(reports: seq<WaitingReport>, n: string): Option<WaitingReport> {
    if reports == [] then None
    else
      var last := reports[|reports| - 1];
      if last.instanceName.workloadName == n then Some(last) else LastReport(reports[..|reports| - 1], n)
  }

  /** The last report about a workload that waits says what it waits for. */
  ghost predicate AllTold(q: Queue, reports: seq<WaitingReport>) {
    forall n :: n in q ==> LastReport(reports, n) == Some(Told(q[n]))
  }

  lemma LastReportAppend(reports: seq<WaitingReport>, more: seq<WaitingReport>, n: string)
    requires |more| <= 1
    ensures LastReport(reports + more, n) ==
            if more != [] && more[0].instanceName.workloadName == n then Some(more[0]) else LastReport(reports, n)
  {
    if more == [] {
      assert reports + more == reports;
    } else {
      assert (reports + more)[..|reports|] == reports;
    }
  }

  /** Handling an entry keeps the reports right, about it and about all others. */
  lemma HandlingTells(e: PendingEntry, f: Fulfilled, isNew: bool, reports: seq<WaitingReport>, n: string)
    requires OneName(e) && ((isNew && !e.UpdateCreate?) || LastReport(reports, OperationName(Owed(e))) == Some(Told(e)))
    ensures var after := reports + Reports(e, f, isNew);
            && (n != OperationName(Owed(e)) ==> LastReport(after, n) == LastReport(reports, n))
            && (n == OperationName(Owed(e)) && Remain(e, f).Some? ==>
                LastReport(after, n) == Some(Told(Remain(e, f).value)))
  {
    LastReportAppend(reports, Reports(e, f, isNew), n);
  }

  /** A report is made just when there is news: a new entry has to wait, or an update may only start later. */
  lemma ReportedIffNews(e: PendingEntry, f: Fulfilled, isNew: bool)
    requires isNew ==> !e.UpdateCreate?
    ensures Reports(e, f, isNew) ==
            if Remain(e, f).Some? && (isNew || Remain(e, f).value != e) then [Told(Remain(e, f).value)] else []
  {
  }

  lemma NewEntryTold(q: Queue, e: PendingEntry, f: Fulfilled, reports: seq<WaitingReport>)
    requires AllTold(q, reports) && OneName(e) && !e.UpdateCreate?
    ensures var q' := if Remain(e, f).Some? then q[OperationName(Owed(e)) := Remain(e, f).value] else q;
            AllTold(q', reports + Reports(e, f, true))
  {
    var name := OperationName(Owed(e));
    if Remain(e, f).None? {
      assert Reports(e, f, true) == [];
      assert reports + [] == reports;
    } else {
      forall n
        ensures n != name ==> LastReport(reports + Reports(e, f, true), n) == LastReport(reports, n)
        ensures n == name ==> LastReport(reports + Reports(e, f, true), n) == Some(Told(Remain(e, f).value))
      {
        HandlingTells(e, f, true, reports, n);
      }
    }
  }

  lemma OldEntryTold(rest: Queue, kept: Queue, n: string, e: PendingEntry, f: Fulfilled, reports: seq<WaitingReport>)
    requires AllTold(rest, reports) && AllTold(kept, reports) && n in rest && n !in kept && rest[n] == e
    requires OneName(e) && OperationName(Owed(e)) == n
    ensures var after := reports + Reports(e, f, false);
            && AllTold(rest - {n}, after)
            && AllTold(if Remain(e, f).Some? then kept[n := Remain(e, f).value] else kept, after)
  {
    forall k
      ensures k != n ==> LastReport(reports + Reports(e, f, false), k) == LastReport(reports, k)
      ensures k == n && Remain(e, f).Some? ==>
                LastReport(reports + Reports(e, f, false), k) == Some(Told(Remain(e, f).value))
    {
      HandlingTells(e, f, false, reports, k);
    }
  }

  class WorkloadScheduler {
    var queue: Queue
    var reported: seq<WaitingReport>

    constructor ()
      ensures queue == map[] && reported == []
    {
      queue, reported := map[], [];
    }

    /** The four branches that put an entry back, merge it or release it. */
    method Handle(e: PendingEntry, f: Fulfilled, isNew: bool) returns (ready: seq<WorkloadOperation>)
      modifies this
      ensures ready == if Release(e, f).Some? then [Release(e, f).value] else []
      ensures queue == if Remain(e, f).Some? then old(queue)[OperationName(Owed(e)) := Remain(e, f).value]
                       else old(queue)
      ensures reported == old(reported) + Reports(e, f, isNew)
    {
      ready := [];
      match e
      case PendingCreate(r) =>
        if f.create(r.workloadNamed) {
          ready := [Create(r)];
        } else {
          if isNew {
            reported := reported + [WaitingToStart(r.workloadNamed.instanceName)];
          }
          queue := queue[ReusableName(r) := e];
        }
      case PendingDelete(d) =>
        if f.delete(d) {
          ready := [Delete(d)];
        } else {
          if isNew {
            reported := reported + [WaitingToStop(d.instanceName)];
          }
          queue := queue[DeletedName(d) := e];
        }
      case UpdateCreate(w, d) =>
        if f.create(w) {
          ready := [Update(w, d)];
        } else {
          queue := queue[NameOf(w) := e];
        }
      case UpdateDelete(w, d) =>
        if f.create(w) && f.delete(d) {
          ready := [Update(w, d)];
        } else if f.delete(d) {
          reported := reported + [WaitingToStart(w.instanceName)];
          queue := queue[NameOf(w) := UpdateCreate(w, d)];
          ready := [UpdateDeleteOnly(d)];
        } else {
          if isNew {
            reported := reported + [WaitingToStop(d.instanceName)];
          }
          queue := queue[NameOf(w) := e];
        }
    }

    /** One pass over the whole queue, in any order. */
    method NextWorkloadOperations(f: Fulfilled) returns (ready: seq<WorkloadOperation>)
      requires WellKeyed(queue)
      modifies this
      ensures queue == Remaining(old(queue), f) && WellKeyed(queue)
      ensures Lists(ready, Released(old(queue), f))
      ensures AllTold(old(queue), old(reported)) ==> AllTold(queue, reported)
    {
      hide Lists, Released, Remaining, Release, Remain, AllTold, Reports;
      var rest := queue;
      queue := map[];
      ready := [];
      ghost var all: Queue, done: Queue := rest, map[];
      ghost var told := AllTold(rest, reported);
      PassStart(f);
      NothingToTell(reported);
      RemainingWellKeyed(all, f);
      while rest.Keys != {}
        invariant WellKeyed(all) && rest.Keys <= all.Keys && forall n :: n in rest ==> rest[n] == all[n]
        invariant done == all - rest.Keys && queue == Remaining(done, f) && Lists(ready, Released(done, f))
        invariant queue.Keys <= done.Keys && (told ==> AllTold(rest, reported) && AllTold(queue, reported))
        decreases rest.Keys
      {
        var n :| n in rest.Keys;
        var e := rest[n];
        if told {
          OldEntryTold(rest, queue, n, e, f, reported);
        }
        var released := Handle(e, f, false);
        PassOneMore(ready, done, n, e, f);
        ready := ready + released;
        rest := rest - {n};
        assert all - rest.Keys == done[n := e];
        done := done[n := e];
      }
      assert done == all;
    }

    method EnqueueFilteredWorkloadOperations(ops: seq<WorkloadOperation>, f: Fulfilled)
      returns (ready: seq<WorkloadOperation>)
      requires WellKeyed(queue) && FromOutside(ops)
      modifies this
      ensures var q := QueueWithNew(old(queue), ops, f);
              && queue == Remaining(q, f) && WellKeyed(queue)
              && exists more :: ready == ReleasedNew(ops, f) + more && Lists(more, Released(q, f))
      ensures AllTold(old(queue), old(reported)) ==> AllTold(queue, reported)
    {
      hide Lists, Released, Remaining, Release, Remain, AllTold, Reports;
      ready := [];
      for i := 0 to |ops|
        invariant ready == ReleasedNew(ops[..i], f)
        invariant queue == QueueWithNew(old(queue), ops[..i], f) && WellKeyed(queue)
        invariant AllTold(old(queue), old(reported)) ==> AllTold(queue, reported)
      {
        assert ops[..i + 1][..i] == ops[..i] && ops[i] in ops;
        var e := EntryOf(ops[i]);
        if e.Some? {
          RemainKeepsName(e.value, f);
          if AllTold(queue, reported) {
            NewEntryTold(queue, e.value, f, reported);
          }
          var released := Handle(e.value, f, true);
          ready := ready + released;
        }
      }
      assert ops[..|ops|] == ops;
      var more := NextWorkloadOperations(f);
      ready := ready + more;
    }
  }

  lemma NothingToTell(reports: seq<WaitingReport>)
    ensures AllTold(map[], reports)
  {
  }

  lemma RemainKeepsName(e: PendingEntry, f: Fulfilled)
    requires OneName(e)
    ensures Remain(e, f).Some? ==>
              OneName(Remain(e, f).value) && OperationName(Owed(Remain(e, f).value)) == OperationName(Owed(e))
  {
  }

  lemma PassStart(f: Fulfilled)
    ensures Remaining(map[], f) == map[] && Lists([], Released(map[], f))
  {
  }

  lemma RemainingWellKeyed(q: Queue, f: Fulfilled)
    requires WellKeyed(q)
    ensures WellKeyed(Remaining(q, f))
  {
  }

  lemma RemainingOneMore(done: Queue, n: string, e: PendingEntry, f: Fulfilled)
    requires n !in done
    ensures Remaining(done[n := e], f) ==
            if Remain(e, f).Some? then Remaining(done, f)[n := Remain(e, f).value] else Remaining(done, f)
  {
    hide Remain;
  }

  lemma ReleasedOneMore(done: Queue, n: string, e: PendingEntry, f: Fulfilled)
    requires n !in done
    ensures Released(done[n := e], f) ==
            if Release(e, f).Some? then Released(done, f)[n := Release(e, f).value] else Released(done, f)
  {
    hide Release;
  }

  lemma ReleasedName(e: PendingEntry, f: Fulfilled)
    requires OneName(e) && Release(e, f).Some?
    ensures OperationName(Release(e, f).value) == OperationName(Owed(e))
  {
  }

  lemma PassOneMore(ready: seq<WorkloadOperation>, done: Queue, n: string, e: PendingEntry, f: Fulfilled)
    requires Lists(ready, Released(done, f)) && n !in done && OneName(e) && OperationName(Owed(e)) == n
    ensures Lists(ready + (if Release(e, f).Some? then [Release(e, f).value] else []), Released(done[n := e], f))
    ensures Remaining(done[n := e], f) ==
            if Remain(e, f).Some? then Remaining(done, f)[n := Remain(e, f).value] else Remaining(done, f)
  {
    RemainingOneMore(done, n, e, f);
    ReleasedOneMore(done, n, e, f);
    assert n !in Released(done, f);
    hide Lists, Released, Remaining, Release, Remain, Owed, OneName;
    if Release(e, f).Some? {
      ReleasedName(e, f);
      ListsOneMore(ready, Released(done, f), Release(e, f).value);
    } else {
      assert ready + [] == ready;
    }
  }

  // ---------- What the agent still owes ----------

  /** The workload map once everything that waits has been carried out. */
  function SettledAt(m: WorkloadMap, q: Queue, n: string): Option<Managed> {
    if n in q then Effect(Owed(q[n]), Lookup(m, n)) else Lookup(m, n)
  }

  function Settled(m: WorkloadMap, q: Queue): WorkloadMap {
    map n | n in m.Keys + q.Keys && SettledAt(m, q, n).Some? :: SettledAt(m, q, n).value
  }

  lemma SettledLookup(m: WorkloadMap, q: Queue, n: string)
    ensures Lookup(Settled(m, q), n) == SettledAt(m, q, n)
  {
  }

  lemma ListedAt(m: WorkloadMap, ops: seq<WorkloadOperation>, named: map<string, WorkloadOperation>, n: string)
    requires Lists(ops, named) && (n in named ==> OperationName(named[n]) == n)
    ensures Lookup(Execute(m, ops), n) == if n in named then Effect(named[n], Lookup(m, n)) else Lookup(m, n)
  {
    if n in named {
      assert named[n] in ops;
      var k :| 0 <= k < |ops| && ops[k] == named[n];
      ExecuteAt(m, ops, k);
    } else {
      forall i | 0 <= i < |ops|
        ensures OperationName(ops[i]) != n
      {
        assert ops[i] in ops;
      }
      ExecuteElsewhere(m, ops, n);
    }
  }

  /** Releasing now or later comes to the same. */
  lemma ReleaseThenRemain(e: PendingEntry, f: Fulfilled, v: Option<Managed>)
    ensures var v' := if Release(e, f).Some? then Effect(Release(e, f).value, v) else v;
            Effect(Owed(e), v) == if Remain(e, f).Some? then Effect(Owed(Remain(e, f).value), v') else v'
  {
  }

  lemma PassAt(m: WorkloadMap, q: Queue, f: Fulfilled, ready: seq<WorkloadOperation>, n: string)
    requires WellKeyed(q) && Lists(ready, Released(q, f))
    ensures SettledAt(Execute(m, ready), Remaining(q, f), n) == SettledAt(m, q, n)
  {
    assert n in Released(q, f) ==> OperationName(Released(q, f)[n]) == n;
    ListedAt(m, ready, Released(q, f), n);
    hide Effect, Lists, WellKeyed, Release, Remain;
    if n in q {
      ReleaseThenRemain(q[n], f, Lookup(m, n));
    }
  }

  /** A pass changes when things happen, never what the agent ends up with. */
  lemma PassKeepsSettled(m: WorkloadMap, q: Queue, f: Fulfilled, ready: seq<WorkloadOperation>)
    requires WellKeyed(q) && Lists(ready, Released(q, f))
    ensures Settled(Execute(m, ready), Remaining(q, f)) == Settled(m, q)
  {
    var m', q' := Execute(m, ready), Remaining(q, f);
    forall n
      ensures Lookup(Settled(m', q'), n) == Lookup(Settled(m, q), n)
    {
      SettledLookup(m', q', n);
      SettledLookup(m, q, n);
      PassAt(m, q, f, ready, n);
    }
    hide Settled, Execute, Remaining;
    SameLookups(Settled(m', q'), Settled(m, q));
  }

  datatype AgentState = AgentState(workloads: WorkloadMap, queue: Queue)

  /** One pass with some dependencies fulfilled, its ready operations executed. */
  ghost predicate IsPass(a: AgentState, b: AgentState) {
    exists f, ready ::
      Lists(ready, Released(a.queue, f)) && b == AgentState(Execute(a.workloads, ready), Remaining(a.queue, f))
  }

  /**
   Over any number of passes with any dependencies fulfilled at each of them the
   agent owes the same map, and once nothing waits any more it has it.
   */
  lemma {:induction false} DeferredOperationsConverge(run: seq<AgentState>)
    requires run != [] && WellKeyed(run[0].queue)
    requires forall i :: 0 <= i < |run| - 1 ==> IsPass(run[i], run[i + 1])
    ensures var last := run[|run| - 1];
            && WellKeyed(last.queue)
            && Settled(last.workloads, last.queue) == Settled(run[0].workloads, run[0].queue)
            && (last.queue == map[] ==> last.workloads == Settled(run[0].workloads, run[0].queue))
  {
    var k := |run| - 1;
    if k > 0 {
      DeferredOperationsConverge(run[..k]);
      var a := run[k - 1];
      assert a == run[..k][k - 1] && IsPass(run[k - 1], run[k - 1 + 1]);
      var f, ready :| Lists(ready, Released(a.queue, f))
                      && run[k] == AgentState(Execute(a.workloads, ready), Remaining(a.queue, f));
      PassKeepsSettled(a.workloads, a.queue, f, ready);
      RemainingWellKeyed(a.queue, f);
    }
    if run[k].queue == map[] {
      NothingOwed(run[k].workloads);
    }
  }

  lemma NothingOwed(m: WorkloadMap)
    ensures Settled(m, map[]) == m
  {
  }

  // ---------- A new batch of operations ----------

  predicate FromOutside(ops: seq<WorkloadOperation>) {
    forall op :: op in ops ==> EntryOf(op).Some? && OneName(EntryOf(op).value)
  }

  lemma ReleaseName(op: WorkloadOperation, f: Fulfilled)
    requires EntryOf(op).Some? && OneName(EntryOf(op).value)
    ensures Release(EntryOf(op).value, f).Some? ==>
              OperationName(Release(EntryOf(op).value, f).value) == OperationName(op)
    ensures Owed(EntryOf(op).value) == op
  {
  }

  /** The released operations and the queue agree with the batch name by name. */
  lemma {:induction false} BatchElsewhere(m: WorkloadMap, q: Queue, ops: seq<WorkloadOperation>, f: Fulfilled,
                                          n: string)
    requires FromOutside(ops) && forall i :: 0 <= i < |ops| ==> OperationName(ops[i]) != n
    ensures Lookup(Execute(m, ReleasedNew(ops, f)), n) == Lookup(m, n)
    ensures n in QueueWithNew(q, ops, f) <==> n in q
    ensures n in q ==> QueueWithNew(q, ops, f)[n] == q[n]
  {
    if ops != [] {
      var init, op := ops[..|ops| - 1], ops[|ops| - 1];
      assert op in ops;
      BatchElsewhere(m, q, init, f, n);
      ReleaseName(op, f);
      ExecuteOneMore(m, ReleasedNew(init, f), Release(EntryOf(op).value, f));
    }
  }

  lemma ExecuteOneMore(m: WorkloadMap, ops: seq<WorkloadOperation>, op: Option<WorkloadOperation>)
    ensures Execute(m, ops + (if op.Some? then [op.value] else [])) ==
            if op.Some? then Apply(Execute(m, ops), op.value) else Execute(m, ops)
  {
    if op.Some? {
      assert (ops + [op.value])[..|ops|] == ops;
    } else {
      assert ops + [] == ops;
    }
  }

  lemma {:induction false} BatchAt(m: WorkloadMap, q: Queue, ops: seq<WorkloadOperation>, f: Fulfilled, k: nat)
    requires FromOutside(ops) && OnePerName(ops) && k < |ops|
    ensures var n, e := OperationName(ops[k]), EntryOf(ops[k]).value;
            && Lookup(Execute(m, ReleasedNew(ops, f)), n) ==
               (if Release(e, f).Some? then Effect(Release(e, f).value, Lookup(m, n)) else Lookup(m, n))
            && (n in QueueWithNew(q, ops, f) <==> Remain(e, f).Some? || n in q)
            && (n in QueueWithNew(q, ops, f) ==>
                QueueWithNew(q, ops, f)[n] == if Remain(e, f).Some? then Remain(e, f).value else q[n])
  {
    hide Release, Remain, Effect, Execute, OneName;
    var last := |ops| - 1;
    var init, op := ops[..last], ops[last];
    var n := OperationName(ops[k]);
    assert op in ops && ops[k] in ops;
    ReleaseName(op, f);
    ExecuteOneMore(m, ReleasedNew(init, f), Release(EntryOf(op).value, f));
    if k < last {
      assert init[k] == ops[k];
      BatchAt(m, q, init, f, k);
    } else {
      BatchElsewhere(m, q, init, f, n);
    }
  }

  /** An older entry waits under the name of an operation that was ready at once, and it wants something else. */
  predicate Stale(q: Queue, op: WorkloadOperation, f: Fulfilled) {
    && OperationName(op) in q
    && EntryOf(op).Some? && Remain(EntryOf(op).value, f).None?
    && Effect(Owed(q[OperationName(op)]), None) != Effect(op, None)
  }

  /** One operation against an older entry, without the maps around them. */
  lemma OperationSettles(op: WorkloadOperation, older: Option<PendingEntry>, f: Fulfilled, v: Option<Managed>)
    requires EntryOf(op).Some?
    ensures var e := EntryOf(op).value;
            var v' := if Release(e, f).Some? then Effect(Release(e, f).value, v) else v;
            var waiting := if Remain(e, f).Some? then Remain(e, f) else older;
            (if waiting.Some? then Effect(Owed(waiting.value), v') else v') ==
            if older.Some? && Remain(e, f).None? && Effect(Owed(older.value), None) != Effect(op, None)
            then Effect(Owed(older.value), None) else Effect(op, None)
  {
  }

  lemma BatchAtSettled(m: WorkloadMap, q: Queue, ops: seq<WorkloadOperation>, f: Fulfilled, k: nat)
    requires FromOutside(ops) && OnePerName(ops) && k < |ops|
    ensures var n := OperationName(ops[k]);
            SettledAt(Execute(m, ReleasedNew(ops, f)), QueueWithNew(q, ops, f), n) ==
            if Stale(q, ops[k], f) then Effect(Owed(q[n]), None) else Effect(ops[k], None)
  {
    hide Release, Remain, Effect, Owed, Execute, QueueWithNew, ReleasedNew, OnePerName;
    var n := OperationName(ops[k]);
    assert ops[k] in ops;
    BatchAt(m, q, ops, f, k);
    OperationSettles(ops[k], if n in q then Some(q[n]) else None, f, Lookup(m, n));
  }

  lemma BatchPoint(m: WorkloadMap, q: Queue, ops: seq<WorkloadOperation>, f: Fulfilled, n: string)
    requires FromOutside(ops) && OnePerName(ops)
    ensures SettledAt(Execute(m, ReleasedNew(ops, f)), QueueWithNew(q, ops, f), n) ==
            Lookup(Execute(Settled(m, q), ops), n)
            <==> (forall k :: 0 <= k < |ops| && OperationName(ops[k]) == n ==> !Stale(q, ops[k], f))
  {
    hide Execute, ReleasedNew, QueueWithNew, Owed, Settled;
    SettledLookup(m, q, n);
    if k :| 0 <= k < |ops| && OperationName(ops[k]) == n {
      BatchAtSettled(m, q, ops, f, k);
      ExecuteAt(Settled(m, q), ops, k);
      assert ops[k] in ops;
    } else {
      BatchElsewhere(m, q, ops, f, n);
      ExecuteElsewhere(Settled(m, q), ops, n);
    }
  }

  /**
   The batch decides about its workloads if and only if no ready operation of it
   finds a different older entry waiting: that entry stays in the queue and is
   carried out afterwards.
   */
  lemma BatchHonouredIff(m: WorkloadMap, q: Queue, ops: seq<WorkloadOperation>, f: Fulfilled)
    requires WellKeyed(q) && FromOutside(ops) && OnePerName(ops)
    ensures Settled(Execute(m, ReleasedNew(ops, f)), QueueWithNew(q, ops, f)) == Execute(Settled(m, q), ops)
            <==> (forall op :: op in ops ==> !Stale(q, op, f))
  {
    var left, right := Settled(Execute(m, ReleasedNew(ops, f)), QueueWithNew(q, ops, f)), Execute(Settled(m, q), ops);
    forall n
      ensures Lookup(left, n) == Lookup(right, n)
              <==> (forall k :: 0 <= k < |ops| && OperationName(ops[k]) == n ==> !Stale(q, ops[k], f))
    {
      SettledLookup(Execute(m, ReleasedNew(ops, f)), QueueWithNew(q, ops, f), n);
      BatchPoint(m, q, ops, f, n);
    }
    hide Settled, Execute, Stale;
    if op :| op in ops && Stale(q, op, f) {
      var k :| 0 <= k < |ops| && ops[k] == op;
      assert Lookup(left, OperationName(op)) != Lookup(right, OperationName(op));
    } else {
      SameLookups(left, right);
    }
  }

  /** A workload that is deleted while its creation still waits comes back later. */
  lemma DeletedWorkloadComesBack(r: ReusableWorkload, d: DeletedWorkload, f: Fulfilled)
    requires ReusableName(r) == DeletedName(d) && f.delete(d)
    ensures var q, ops := map[DeletedName(d) := PendingCreate(r)], [Delete(d)];
            && Lookup(Execute(Settled(map[], q), ops), DeletedName(d)) == None
            && Lookup(Settled(Execute(map[], ReleasedNew(ops, f)), QueueWithNew(q, ops, f)), DeletedName(d))
               == Some(Managed(Some(r.workloadNamed)))
  {
    var q, ops := map[DeletedName(d) := PendingCreate(r)], [Delete(d)];
    assert ops[0] == Delete(d);
    BatchAtSettled(map[], q, ops, f, 0);
    SettledLookup(Execute(map[], ReleasedNew(ops, f)), QueueWithNew(q, ops, f), DeletedName(d));
    ExecuteAt(Settled(map[], q), ops, 0);
  }
}
