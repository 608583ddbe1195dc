/**
 What a hello does with every container that the runtimes list: none is left
 running that nobody manages. All of it is said by the positions of the listings
 and by which added workloads they match.
 */
module Listings {
  import opened Options
  import opened Sequences
  import opened Workloads
  import opened Operations
  import opened ServerHello

  // ---------- Which added workload a listing stands for ----------

  /** The added workloads of that runtime and name, in order. */
  function Matching(ws: seq<WorkloadNamed>, x: Found): seq<WorkloadNamed> {
    if ws == [] then [] else (if Matches(ws[0], x) then [ws[0]] else []) + Matching(ws[1..], x)
  }

  predicate SamePlace(x: Found, y: Found) {
    x.runtime == y.runtime && FoundName(x) == FoundName(y)
  }

  /** How often the runtime has listed that name. */
  function TimesListed(found: seq<Found>, x: Found): nat {
    if found == [] then 0
    else TimesListed(found[..|found| - 1], x) + (if SamePlace(found[|found| - 1], x) then 1 else 0)
  }

  /** The workload that the next listing stands for: each listing of a name takes the next one with it. */
  function MatchFor(added: seq<WorkloadNamed>, earlier: seq<Found>, x: Found): Option<WorkloadNamed> {
    var ws, k := Matching(added, x), TimesListed(earlier, x);
    if k < |ws| then Some(ws[k]) else None
  }

  // ---------- What becomes of a listing ----------

  datatype Outcome = TakenOver | Reused | Replaced | Ended | Stopped

  function OutcomeOf(w: Option<WorkloadNamed>, e: Existing, managed: bool): Outcome {
    match w
    case Some(w) =>
      if e.state.kind.Running? && e.instanceName == w.instanceName then TakenOver
      else if e.state.kind.Succeeded? && e.workloadId.Some? && e.instanceName == w.instanceName then Reused
      else Replaced
    case None => if managed then Ended else Stopped
  }

  /** What the agent manages under a name after the listings; a replaced container is managed until it is updated. */
  function EntryAfter(m: WorkloadMap, added: seq<WorkloadNamed>, found: seq<Found>, n: string): Option<Managed> {
    if found == [] then Lookup(m, n)
    else
      var init, x := found[..|found| - 1], found[|found| - 1];
      var before, w := EntryAfter(m, added, init, n), MatchFor(added, init, x);
      if FoundName(x) != n then before else NextEntry(before, w, x.existing)
  }

  function NextEntry(before: Option<Managed>, w: Option<WorkloadNamed>, e: Existing): Option<Managed> {
    match OutcomeOf(w, e, before.Some?)
    case TakenOver => Some(Managed(w))
    case Reused => before
    case Replaced =>
      if before.Some? then before
      else Some(Managed(Some(WorkloadNamed(e.instanceName, WorkloadSpec("", map[], false, "")))))
    case Ended => None
    case Stopped => None
  }

  function LastOutcome(m: WorkloadMap, added: seq<WorkloadNamed>, found: seq<Found>): Outcome
    requires found != []
  {
    var init, x := found[..|found| - 1], found[|found| - 1];
    OutcomeOf(MatchFor(added, init, x), x.existing, EntryAfter(m, added, init, FoundName(x)).Some?)
  }

  /** The instances with an outcome, in the order they are listed. */
  function With(m: WorkloadMap, added: seq<WorkloadNamed>, found: seq<Found>, o: Outcome): seq<InstanceName> {
    if found == [] then []
    else
      With(m, added, found[..|found| - 1], o)
      + (if LastOutcome(m, added, found) == o then [found[|found| - 1].existing.instanceName] else [])
  }

  function Instances(found: seq<Found>): seq<InstanceName> {
    if found == [] then [] else Instances(found[..|found| - 1]) + [found[|found| - 1].existing.instanceName]
  }

  // ---------- The added workloads that are left ----------

  lemma {:induction false} MatchingConcat(a: seq<WorkloadNamed>, b: seq<WorkloadNamed>, x: Found)
    ensures Matching(a + b, x) == Matching(a, x) + Matching(b, x)
  {
    if a == [] {
      assert a + b == b;
    } else {
      MatchingConcat(a[1..], b, x);
      DropConcat(a, b, 1);
      ConcatAssociates(if Matches(a[0], x) then [a[0]] else [], Matching(a[1..], x), Matching(b, x));
    }
  }

  lemma {:induction false} NoneMatching(ws: seq<WorkloadNamed>, x: Found)
    requires forall k :: 0 <= k < |ws| ==> !Matches(ws[k], x)
    ensures Matching(ws, x) == []
  {
    if ws != [] {
      NoneMatching(ws[1..], x);
    }
  }

  /** The workload at a position splits the list of those that match. */
  lemma MatchingAround(ws: seq<WorkloadNamed>, i: nat, x: Found)
    requires i < |ws|
    ensures Matching(ws, x) ==
            Matching(ws[..i], x) + ((if Matches(ws[i], x) then [ws[i]] else []) + Matching(ws[i + 1..], x))
    ensures Matching(RemoveAt(ws, i), x) == Matching(ws[..i], x) + Matching(ws[i + 1..], x)
  {
    assert ws == ws[..i] + ws[i..] && ws[i..][1..] == ws[i + 1..];
    MatchingConcat(ws[..i], ws[i..], x);
    MatchingConcat(ws[..i], ws[i + 1..], x);
  }

  lemma PositionIsFirst(ws: seq<WorkloadNamed>, x: Found)
    ensures Position(ws, x) < |ws| <==> Matching(ws, x) != []
    ensures Position(ws, x) < |ws| ==>
              ws[Position(ws, x)] == Matching(ws, x)[0]
              && Matching(RemoveAt(ws, Position(ws, x)), x) == Matching(ws, x)[1..]
  {
    var i := Position(ws, x);
    if i < |ws| {
      MatchingAround(ws, i, x);
      NoneMatching(ws[..i], x);
    } else {
      NoneMatching(ws, x);
    }
  }

  lemma RemoveElsewhere(ws: seq<WorkloadNamed>, x: Found, y: Found)
    requires Position(ws, x) < |ws| && !SamePlace(x, y)
    ensures Matching(RemoveAt(ws, Position(ws, x)), y) == Matching(ws, y)
  {
    var i := Position(ws, x);
    assert !Matches(ws[i], y);
    MatchingAround(ws, i, y);
    assert [] + Matching(ws[i + 1..], y) == Matching(ws[i + 1..], y);
  }

  lemma {:induction false} SameMatching(ws: seq<WorkloadNamed>, x: Found, y: Found)
    requires SamePlace(x, y)
    ensures Matching(ws, x) == Matching(ws, y)
  {
    if ws != [] {
      SameMatching(ws[1..], x, y);
    }
  }

  function Rest<T>(s: seq<T>, k: nat): seq<T> {
    if k <= |s| then s[k..] else []
  }

  lemma PendingOf(h: Reconciliation, x: Found)
    ensures ReconcileOne(h, x).pending ==
            if Position(h.pending, x) < |h.pending| then RemoveAt(h.pending, Position(h.pending, x)) else h.pending
  {
  }

  /** Of the added workloads with a runtime and name, those are left that were not listed yet. */
  lemma {:induction false} LeftOver(m: WorkloadMap, added: seq<WorkloadNamed>, found: seq<Found>, y: Found)
    ensures Matching(Reconcile(Start(m, added), found).pending, y) == Rest(Matching(added, y), TimesListed(found, y))
  {
    if found != [] {
      var init, x := found[..|found| - 1], found[|found| - 1];
      var h := Reconcile(Start(m, added), init);
      LeftOver(m, added, init, y);
      PendingOf(h, x);
      hide Reconcile, ReconcileOne, RemoveAt, Matching;
      if SamePlace(x, y) {
        SameMatching(h.pending, x, y);
        PositionIsFirst(h.pending, x);
        if Position(h.pending, x) < |h.pending| {
          SameMatching(RemoveAt(h.pending, Position(h.pending, x)), x, y);
        }
      } else if Position(h.pending, x) < |h.pending| {
        RemoveElsewhere(h.pending, x, y);
      }
    }
  }

  lemma MatchIsFound(m: WorkloadMap, added: seq<WorkloadNamed>, init: seq<Found>, x: Found)
    ensures var ws, w := Reconcile(Start(m, added), init).pending, MatchFor(added, init, x);
            && (Position(ws, x) < |ws| <==> w.Some?)
            && (w.Some? ==> ws[Position(ws, x)] == w.value && NameOf(w.value) == FoundName(x))
  {
    LeftOver(m, added, init, x);
    PositionIsFirst(Reconcile(Start(m, added), init).pending, x);
    hide Reconcile, Matching, TimesListed;
  }

  // ---------- Every listing is accounted for ----------

  function DeletedInstances(ds: seq<DeletedWorkload>): seq<InstanceName> {
    if ds == [] then [] else DeletedInstances(ds[..|ds| - 1]) + [ds[|ds| - 1].instanceName]
  }

  function WorkloadInstances(ws: seq<WorkloadNamed>): seq<InstanceName> {
    if ws == [] then [] else WorkloadInstances(ws[..|ws| - 1]) + [ws[|ws| - 1].instanceName]
  }

  /** The workloads that are handed on together with a container to reuse. */
  function ReusedInstances(rs: seq<ReusableWorkload>): seq<InstanceName> {
    if rs == [] then []
    else
      var last := rs[|rs| - 1];
      ReusedInstances(rs[..|rs| - 1])
      + (if last.runtimeWorkloadId.Some? then [last.workloadNamed.instanceName] else [])
  }

  /** What has become of the listings, in the lists of the reconciliation. */
  ghost predicate ListsAccount(m: WorkloadMap, added: seq<WorkloadNamed>, found: seq<Found>, h: Reconciliation) {
    && WorkloadInstances(h.resumed) == With(m, added, found, TakenOver)
    && ReusedInstances(h.newAdded) == With(m, added, found, Reused)
    && DeletedInstances(h.deleted) == With(m, added, found, Replaced)
    && h.stopped == With(m, added, found, Stopped)
  }

  ghost predicate MapAccounts(m: WorkloadMap, added: seq<WorkloadNamed>, found: seq<Found>, h: Reconciliation) {
    forall n :: Lookup(h.workloads, n) == EntryAfter(m, added, found, n)
  }

  ghost predicate ListsGrow(h: Reconciliation, h': Reconciliation, o: Outcome, i: InstanceName) {
    && WorkloadInstances(h'.resumed) == WorkloadInstances(h.resumed) + (if o == TakenOver then [i] else [])
    && ReusedInstances(h'.newAdded) == ReusedInstances(h.newAdded) + (if o == Reused then [i] else [])
    && DeletedInstances(h'.deleted) == DeletedInstances(h.deleted) + (if o == Replaced then [i] else [])
    && h'.stopped == h.stopped + (if o == Stopped then [i] else [])
  }

  ghost predicate EntryChanges(m: WorkloadMap, m': WorkloadMap, n: string, v: Option<Managed>) {
    forall k :: Lookup(m', k) == if k == n then v else Lookup(m, k)
  }

  /** One listing: what is added to the lists, and which name the agent manages then. */
  lemma OneListing(h: Reconciliation, x: Found, w: Option<WorkloadNamed>)
    requires Position(h.pending, x) < |h.pending| <==> w.Some?
    requires w.Some? ==> h.pending[Position(h.pending, x)] == w.value && NameOf(w.value) == FoundName(x)
    ensures var n, i, h' := FoundName(x), x.existing.instanceName, ReconcileOne(h, x);
            var o := OutcomeOf(w, x.existing, n in h.workloads);
            && ListsGrow(h, h', o, i)
            && EntryChanges(h.workloads, h'.workloads, n, NextEntry(Lookup(h.workloads, n), w, x.existing))
  {
    hide RemoveAt, Position, WorkloadInstances, ReusedInstances, DeletedInstances;
    if w.Some? {
      var h1 := h.(pending := RemoveAt(h.pending, Position(h.pending, x)));
      InstancesOneMore(h, w.value, x.existing.workloadId, DeletedWorkload(x.existing.instanceName, map[]));
      assert ReconcileOne(h, x) == TakeUp(h1, w.value, x.existing);
    } else {
      assert ReconcileOne(h, x) == Unneeded(h, x.existing);
    }
  }

  lemma InstancesOneMore(h: Reconciliation, w: WorkloadNamed, id: Option<string>, d: DeletedWorkload)
    ensures WorkloadInstances(h.resumed + [w]) == WorkloadInstances(h.resumed) + [w.instanceName]
    ensures ReusedInstances(h.newAdded + [ReusableWorkload(w, None)]) == ReusedInstances(h.newAdded)
    ensures id.Some? ==>
              ReusedInstances(h.newAdded + [ReusableWorkload(w, id)]) == ReusedInstances(h.newAdded) + [w.instanceName]
    ensures DeletedInstances(h.deleted + [d]) == DeletedInstances(h.deleted) + [d.instanceName]
  {
    assert (h.resumed + [w])[..|h.resumed|] == h.resumed;
    assert (h.newAdded + [ReusableWorkload(w, None)])[..|h.newAdded|] == h.newAdded;
    assert (h.newAdded + [ReusableWorkload(w, id)])[..|h.newAdded|] == h.newAdded;
    assert (h.deleted + [d])[..|h.deleted|] == h.deleted;
  }

  /**
   From any workload map and whatever is added, by the positions of the listings: the
   listed containers are exactly those taken over, reused, replaced, ended with their
   entry and stopped at the runtime, and the names in the map follow from them.
   */
  lemma {:induction false} EveryListingAccounted(m: WorkloadMap, added: seq<WorkloadNamed>, found: seq<Found>)
    ensures ListsAccount(m, added, found, Reconcile(Start(m, added), found))
    ensures MapAccounts(m, added, found, Reconcile(Start(m, added), found))
  {
    if found != [] {
      var init, x := found[..|found| - 1], found[|found| - 1];
      var h, w := Reconcile(Start(m, added), init), MatchFor(added, init, x);
      EveryListingAccounted(m, added, init);
      MatchIsFound(m, added, init, x);
      OneListing(h, x, w);
      assert Lookup(h.workloads, FoundName(x)) == EntryAfter(m, added, init, FoundName(x));
      ReconcileLast(m, added, found);
      hide Reconcile, ReconcileOne, MatchFor, OutcomeOf, EntryAfter, NextEntry, ListsAccount, MapAccounts, ListsGrow;
      hide EntryChanges;
      AccountsGrow(m, added, found, h, ReconcileOne(h, x));
    }
  }

  lemma AccountsGrow(m: WorkloadMap, added: seq<WorkloadNamed>, found: seq<Found>, h: Reconciliation,
                     h': Reconciliation)
    requires found != []
    requires var init, x, o := found[..|found| - 1], found[|found| - 1], LastOutcome(m, added, found);
             && ListsAccount(m, added, init, h) && MapAccounts(m, added, init, h)
             && ListsGrow(h, h', o, x.existing.instanceName)
             && EntryChanges(h.workloads, h'.workloads, FoundName(x),
                             NextEntry(Lookup(h.workloads, FoundName(x)), MatchFor(added, init, x), x.existing))
    ensures ListsAccount(m, added, found, h') && MapAccounts(m, added, found, h')
  {
    hide WorkloadInstances, ReusedInstances, DeletedInstances;
    var init, x := found[..|found| - 1], found[|found| - 1];
    forall n
      ensures Lookup(h'.workloads, n) == EntryAfter(m, added, found, n)
    {
      hide MatchFor, NextEntry;
      assert Lookup(h.workloads, n) == EntryAfter(m, added, init, n);
    }
  }

  lemma ReconcileLast(m: WorkloadMap, added: seq<WorkloadNamed>, found: seq<Found>)
    requires found != []
    ensures Reconcile(Start(m, added), found) ==
            ReconcileOne(Reconcile(Start(m, added), found[..|found| - 1]), found[|found| - 1])
  {
  }

  lemma WithLast(m: WorkloadMap, added: seq<WorkloadNamed>, found: seq<Found>, o: Outcome)
    requires found != []
    ensures multiset(With(m, added, found, o)) ==
            multiset(With(m, added, found[..|found| - 1], o))
            + (if LastOutcome(m, added, found) == o then multiset{found[|found| - 1].existing.instanceName}
               else multiset{})
  {
    hide LastOutcome;
  }

  /** Each listed instance has one of the five outcomes, as often as it is listed. */
  lemma {:induction false} OutcomesPartition(m: WorkloadMap, added: seq<WorkloadNamed>, found: seq<Found>)
    ensures multiset(Instances(found)) ==
            multiset(With(m, added, found, TakenOver)) + multiset(With(m, added, found, Reused))
            + multiset(With(m, added, found, Replaced)) + multiset(With(m, added, found, Ended))
            + multiset(With(m, added, found, Stopped))
  {
    if found != [] {
      OutcomesPartition(m, added, found[..|found| - 1]);
      WithLast(m, added, found, TakenOver);
      WithLast(m, added, found, Reused);
      WithLast(m, added, found, Replaced);
      WithLast(m, added, found, Ended);
      WithLast(m, added, found, Stopped);
      hide With, LastOutcome;
    }
  }

  /** A container is only reused for the instance it was listed for, when that has ended, and under its own id. */
  lemma {:induction false} ReusedAsListed(m: WorkloadMap, added: seq<WorkloadNamed>, found: seq<Found>,
                                          r: ReusableWorkload)
    requires r in Reconcile(Start(m, added), found).newAdded && r.runtimeWorkloadId.Some?
    ensures exists x :: x in found && Matches(r.workloadNamed, x) && x.existing.state.kind.Succeeded?
                        && x.existing.instanceName == r.workloadNamed.instanceName
                        && x.existing.workloadId == r.runtimeWorkloadId
  {
    var init, x := found[..|found| - 1], found[|found| - 1];
    if r in Reconcile(Start(m, added), init).newAdded {
      ReusedAsListed(m, added, init, r);
    } else {
      assert x in found;
    }
  }

  // ---------- What is listed at all ----------

  function SizeOf(listings: seq<Listing>): nat {
    if listings == [] then 0
    else
      var last := listings[|listings| - 1].existing;
      SizeOf(listings[..|listings| - 1]) + (if last.Some? then |last.value| else 0)
  }

  /** Everything that a runtime answered is looked at, and nothing else; a runtime that fails is skipped. */
  lemma {:induction false} FoundIsListed(listings: seq<Listing>, x: Found)
    ensures x in AllFound(listings) <==>
            exists l :: l in listings && l.runtime == x.runtime && l.existing.Some? && x.existing in l.existing.value
    ensures |AllFound(listings)| == SizeOf(listings)
  {
    if listings != [] {
      var init, last := listings[..|listings| - 1], listings[|listings| - 1];
      FoundIsListed(init, x);
      assert listings == init + [last];
      InOneListing(last, x);
      hide FoundIn;
    }
  }

  lemma InOneListing(l: Listing, x: Found)
    ensures x in FoundIn(l) <==> l.runtime == x.runtime && l.existing.Some? && x.existing in l.existing.value
    ensures |FoundIn(l)| == if l.existing.Some? then |l.existing.value| else 0
  {
    if l.runtime == x.runtime && l.existing.Some? && x.existing in l.existing.value {
      var i :| 0 <= i < |l.existing.value| && l.existing.value[i] == x.existing;
      assert FoundIn(l)[i] == x;
    }
  }

  // ---------- Names listed once ----------

  predicate IsMatched(added: seq<WorkloadNamed>, x: Found) {
    exists w :: w in added && Matches(w, x)
  }

  /** The instances that match no added workload and whose names the agent does not manage. */
  function Orphans(m: WorkloadMap, added: seq<WorkloadNamed>, found: seq<Found>): seq<InstanceName> {
    if found == [] then []
    else
      var x := found[|found| - 1];
      Orphans(m, added, found[..|found| - 1])
      + (if !IsMatched(added, x) && FoundName(x) !in m then [x.existing.instanceName] else [])
  }

  lemma {:induction false} NotListedYet(m: WorkloadMap, added: seq<WorkloadNamed>, found: seq<Found>, x: Found)
    requires forall i :: 0 <= i < |found| ==> FoundName(found[i]) != FoundName(x)
    ensures TimesListed(found, x) == 0 && EntryAfter(m, added, found, FoundName(x)) == Lookup(m, FoundName(x))
  {
    if found != [] {
      NotListedYet(m, added, found[..|found| - 1], x);
    }
  }

  lemma MatchedIff(added: seq<WorkloadNamed>, x: Found)
    ensures IsMatched(added, x) <==> Matching(added, x) != []
  {
    PositionIsFirst(added, x);
    if w :| w in added && Matches(w, x) {
      var i :| 0 <= i < |added| && added[i] == w;
    }
    if Position(added, x) < |added| {
      assert added[Position(added, x)] in added;
    }
  }

  /** With every name listed once, exactly the orphaned containers are stopped: none of them runs on. */
  lemma {:induction false} OrphansAreStopped(m: WorkloadMap, added: seq<WorkloadNamed>, found: seq<Found>)
    requires forall i, j :: 0 <= i < j < |found| ==> FoundName(found[i]) != FoundName(found[j])
    ensures Reconcile(Start(m, added), found).stopped == Orphans(m, added, found)
    ensures With(m, added, found, Stopped) == Orphans(m, added, found)
  {
    EveryListingAccounted(m, added, found);
    hide Reconcile, Matching, IsMatched;
    if found != [] {
      var init, x := found[..|found| - 1], found[|found| - 1];
      OrphansAreStopped(m, added, init);
      NotListedYet(m, added, init, x);
      MatchedIff(added, x);
    }
  }
}
