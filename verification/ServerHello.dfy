/**
 Reconciliation after a server hello: the workloads the server wants are matched
 against the containers each runtime still has, to resume, restart, replace,
 delete or create them.
 */
module ServerHello {
  import opened Options
  import opened Sequences
  import opened Workloads
  import opened Operations
  import WorkloadStates

  datatype Existing = Existing(instanceName: InstanceName, state: WorkloadStates.ExecutionState,
                               workloadId: Option<string>)

  /** What one runtime answers when asked for its workloads; asking may fail. */
  datatype Listing = Listing(runtime: string, existing: Option<seq<Existing>>)

  /** An existing workload together with the runtime that listed it. */
  datatype Found = Found(runtime: string, existing: Existing)

  function FoundName(x: Found): string {
    x.existing.instanceName.workloadName
  }

  const DEFAULT_SPEC: WorkloadSpec := WorkloadSpec("", map[], false, "")

  predicate IsResumable(e: Existing, name: InstanceName) {
    e.state.kind.Running? && e.instanceName == name
  }

  predicate IsReusable(e: Existing, name: InstanceName) {
    e.state.kind.Succeeded? && e.workloadId.Some? && e.instanceName == name
  }

  /**
   The state of the reconciliation: the workload map, the added workloads not yet
   matched, and the lists it returns. `resumed` records what was resumed as it is,
   `stopped` what was deleted directly at its runtime.
   */
  datatype Reconciliation = Reconciliation(
    workloads: WorkloadMap,
    pending: seq<WorkloadNamed>,
    resumed: seq<WorkloadNamed>,
    newAdded: seq<ReusableWorkload>,
    deleted: seq<DeletedWorkload>,
    stopped: seq<InstanceName>)

  predicate Matches(w: WorkloadNamed, x: Found) {
    w.workload.runtime == x.runtime && NameOf(w) == FoundName(x)
  }

  /** The first unmatched workload of the runtime with the name, or the length of the list. */
  function Position(pending: seq<WorkloadNamed>, x: Found): (i: nat)
    ensures i <= |pending|
    ensures forall k :: 0 <= k < i ==> !Matches(pending[k], x)
    ensures i < |pending| ==> Matches(pending[i], x)
  {
    if pending == [] then 0 else if Matches(pending[0], x) then 0 else 1 + Position(pending[1..], x)
  }

  function TakeUp(h: Reconciliation, w: WorkloadNamed, e: Existing): Reconciliation {
    if IsResumable(e, w.instanceName) then
      h.(workloads := h.workloads[NameOf(w) := Managed(Some(w))], resumed := h.resumed + [w])
    else if IsReusable(e, w.instanceName) then
      h.(newAdded := h.newAdded + [ReusableWorkload(w, e.workloadId)])
    else
      h.(workloads := if e.instanceName.workloadName in h.workloads then h.workloads
                      else h.workloads[NameOf(w) := Managed(Some(WorkloadNamed(e.instanceName, DEFAULT_SPEC)))],
         newAdded := h.newAdded + [ReusableWorkload(w, None)],
         deleted := h.deleted + [DeletedWorkload(e.instanceName, map[])])
  }

  function Unneeded(h: Reconciliation, e: Existing): Reconciliation {
    var n := e.instanceName.workloadName;
    if n in h.workloads then h.(workloads := h.workloads - {n}) else h.(stopped := h.stopped + [e.instanceName])
  }

  function ReconcileOne(h: Reconciliation, x: Found): Reconciliation {
    var i := Position(h.pending, x);
    if i < |h.pending| then TakeUp(h.(pending := RemoveAt(h.pending, i)), h.pending[i], x.existing)
    else Unneeded(h, x.existing)
  }

  function Reconcile(h: Reconciliation, found: seq<Found>): Reconciliation {
    if found == [] then h else ReconcileOne(Reconcile(h, found[..|found| - 1]), found[|found| - 1])
  }

  function FoundIn(l: Listing): seq<Found> {
    if l.existing.None? then [] else seq(|l.existing.value|, i requires 0 <= i < |l.existing.value| =>
                                           Found(l.runtime, l.existing.value[i]))
  }

  function AllFound(listings: seq<Listing>): seq<Found> {
    if listings == [] then [] else AllFound(listings[..|listings| - 1]) + FoundIn(listings[|listings| - 1])
  }

  function Start(workloads: WorkloadMap, added: seq<WorkloadNamed>): Reconciliation {
    Reconciliation(workloads, added, [], [], [], [])
  }

  // ---------- Conservation ----------

  function Specs(rs: seq<ReusableWorkload>): seq<WorkloadNamed> {
    seq(|rs|, i requires 0 <= i < |rs| => rs[i].workloadNamed)
  }

  ghost function Accounted(h: Reconciliation): multiset<WorkloadNamed> {
    multiset(h.pending) + multiset(h.resumed) + multiset(Specs(h.newAdded))
  }

  ghost predicate DeletedAreAdded(h: Reconciliation) {
    forall d :: d in h.deleted ==> exists r :: r in h.newAdded && ReusableName(r) == DeletedName(d)
  }

  lemma SpecsSnoc(rs: seq<ReusableWorkload>, r: ReusableWorkload)
    ensures Specs(rs + [r]) == Specs(rs) + [r.workloadNamed]
  {
  }

  lemma MultisetRemoveAt<T>(s: seq<T>, i: nat)
    requires i < |s|
    ensures multiset(s) == multiset(RemoveAt(s, i)) + multiset{s[i]}
  {
    assert s == s[..i] + [s[i]] + s[i + 1..];
  }

  lemma TakeUpConserves(h: Reconciliation, w: WorkloadNamed, e: Existing)
    requires DeletedAreAdded(h) && NameOf(w) == e.instanceName.workloadName
    ensures Accounted(TakeUp(h, w, e)) == Accounted(h) + multiset{w}
    ensures DeletedAreAdded(TakeUp(h, w, e))
  {
    var id := if IsReusable(e, w.instanceName) then e.workloadId else None;
    var r := ReusableWorkload(w, id);
    SpecsSnoc(h.newAdded, r);
    assert r in h.newAdded + [r] && ReusableName(r) == NameOf(w);
    assert forall q :: q in h.newAdded ==> q in h.newAdded + [r];
  }

  lemma OneConserves(h: Reconciliation, x: Found)
    requires DeletedAreAdded(h)
    ensures Accounted(ReconcileOne(h, x)) == Accounted(h) && DeletedAreAdded(ReconcileOne(h, x))
  {
    var i := Position(h.pending, x);
    if i < |h.pending| {
      MultisetRemoveAt(h.pending, i);
      TakeUpConserves(h.(pending := RemoveAt(h.pending, i)), h.pending[i], x.existing);
      hide TakeUp, RemoveAt, Specs;
    }
  }

  /** No added workload is lost or duplicated, and whatever is deleted is also added again. */
  lemma {:induction false} ReconcileConserves(workloads: WorkloadMap, added: seq<WorkloadNamed>, found: seq<Found>)
    ensures var h := Reconcile(Start(workloads, added), found);
            Accounted(h) == multiset(added) && DeletedAreAdded(h)
  {
    if found == [] {
      assert Specs([]) == [];
    } else {
      hide Accounted, DeletedAreAdded, ReconcileOne;
      ReconcileConserves(workloads, added, found[..|found| - 1]);
      OneConserves(Reconcile(Start(workloads, added), found[..|found| - 1]), found[|found| - 1]);
    }
  }

  // ---------- The fate of each added workload ----------

  /** What becomes of one workload: only the listings of its own name matter. */
  datatype Fate = Unlisted | Resumed | Restarted | Lost

  function NextFate(before: Fate, w: WorkloadNamed, x: Found): Fate {
    if FoundName(x) != NameOf(w) then before
    else match before
      case Unlisted =>
        if x.runtime != w.workload.runtime then Unlisted
        else if IsResumable(x.existing, w.instanceName) then Resumed else Restarted
      case Resumed => Lost
      case Restarted => Restarted
      case Lost => Lost
  }

  function FateOf(found: seq<Found>, w: WorkloadNamed): Fate {
    if found == [] then Unlisted else NextFate(FateOf(found[..|found| - 1], w), w, found[|found| - 1])
  }

  predicate DistinctNames(ws: seq<WorkloadNamed>) {
    forall i, j :: 0 <= i < j < |ws| ==> NameOf(ws[i]) != NameOf(ws[j])
  }

  /** Every unmatched workload is unlisted and the other way round; the names stay distinct. */
  ghost predicate PendingByFate(added: seq<WorkloadNamed>, fate: WorkloadNamed -> Fate, h: Reconciliation) {
    && DistinctNames(h.pending)
    && (forall w :: w in h.pending ==> w in added && fate(w) == Unlisted)
    && (forall w :: w in added && fate(w) == Unlisted ==> w in h.pending)
  }

  ghost predicate AddedByFate(added: seq<WorkloadNamed>, fate: WorkloadNamed -> Fate, h: Reconciliation) {
    && (forall r :: r in h.newAdded ==> r.workloadNamed in added && fate(r.workloadNamed) == Restarted)
    && (forall w :: w in added && fate(w) == Restarted ==> exists r :: r in h.newAdded && r.workloadNamed == w)
  }

  /** A resumed workload has its entry and a lost one has none; the map decides nothing about the others. */
  ghost predicate MapByFate(added: seq<WorkloadNamed>, fate: WorkloadNamed -> Fate, m: WorkloadMap) {
    forall w :: w in added ==>
      && (fate(w) == Resumed ==> Lookup(m, NameOf(w)) == Some(Managed(Some(w))))
      && (fate(w) == Lost ==> Lookup(m, NameOf(w)) == None)
  }

  ghost predicate DeletedByFate(added: seq<WorkloadNamed>, fate: WorkloadNamed -> Fate, h: Reconciliation) {
    && DistinctDeleted(h.deleted)
    && (forall d :: d in h.deleted ==> exists w :: w in added && NameOf(w) == DeletedName(d) && fate(w) == Restarted)
  }

  ghost predicate ByFate(added: seq<WorkloadNamed>, fate: WorkloadNamed -> Fate, h: Reconciliation) {
    && PendingByFate(added, fate, h)
    && AddedByFate(added, fate, h)
    && MapByFate(added, fate, h.workloads)
    && DeletedByFate(added, fate, h)
  }

  lemma SameWorkload(added: seq<WorkloadNamed>, v: WorkloadNamed, w: WorkloadNamed)
    requires DistinctNames(added) && v in added && w in added && NameOf(v) == NameOf(w)
    ensures v == w
  {
    var i :| 0 <= i < |added| && added[i] == v;
    var j :| 0 <= j < |added| && added[j] == w;
    assert i <= j || j <= i;
  }

  /** Only the fate of `w` changes, to `f`. */
  ghost predicate Changes(added: seq<WorkloadNamed>, fate: WorkloadNamed -> Fate, fate': WorkloadNamed -> Fate,
                          w: WorkloadNamed, f: Fate)
  {
    w in added && fate'(w) == f && forall v :: v in added && v != w ==> fate'(v) == fate(v)
  }

  lemma RemoveAtDistinct(ws: seq<WorkloadNamed>, i: nat)
    requires i < |ws| && DistinctNames(ws)
    ensures DistinctNames(RemoveAt(ws, i))
    ensures forall w :: w in RemoveAt(ws, i) <==> w in ws && w != ws[i]
  {
    var r := RemoveAt(ws, i);
    assert forall k :: 0 <= k < |r| ==> r[k] == ws[if k < i then k else k + 1];
    forall w | w in ws && w != ws[i]
      ensures w in r
    {
      var k :| 0 <= k < |ws| && ws[k] == w;
      assert r[if k < i then k else k - 1] == w;
    }
  }

  lemma TakeUpPending(added: seq<WorkloadNamed>, fate: WorkloadNamed -> Fate, fate': WorkloadNamed -> Fate,
                      h: Reconciliation, i: nat, f: Fate, h': Reconciliation)
    requires PendingByFate(added, fate, h) && i < |h.pending| && f != Unlisted
    requires Changes(added, fate, fate', h.pending[i], f) && h'.pending == RemoveAt(h.pending, i)
    ensures PendingByFate(added, fate', h')
  {
    RemoveAtDistinct(h.pending, i);
  }

  lemma OthersByFate(added: seq<WorkloadNamed>, fate: WorkloadNamed -> Fate, fate': WorkloadNamed -> Fate,
                     w: WorkloadNamed,
                     f: Fate, m: WorkloadMap, m': WorkloadMap)
    requires DistinctNames(added) && MapByFate(added, fate, m) && Changes(added, fate, fate', w, f)
    requires forall n :: n != NameOf(w) ==> Lookup(m', n) == Lookup(m, n)
    requires f == Restarted || (f == Resumed && Lookup(m', NameOf(w)) == Some(Managed(Some(w))))
    ensures MapByFate(added, fate', m')
  {
    forall v | v in added && v != w
      ensures Lookup(m', NameOf(v)) == Lookup(m, NameOf(v)) && fate'(v) == fate(v)
    {
      if NameOf(v) == NameOf(w) {
        SameWorkload(added, v, w);
      }
    }
  }

  lemma ResumeByFate(added: seq<WorkloadNamed>, fate: WorkloadNamed -> Fate, fate': WorkloadNamed -> Fate,
                     h: Reconciliation, w: WorkloadNamed, h': Reconciliation)
    requires DistinctNames(added) && fate(w) == Unlisted && Changes(added, fate, fate', w, Resumed)
    requires AddedByFate(added, fate, h) && MapByFate(added, fate, h.workloads) && DeletedByFate(added, fate, h)
    requires h'.newAdded == h.newAdded && h'.deleted == h.deleted
    requires h'.workloads == h.workloads[NameOf(w) := Managed(Some(w))]
    ensures AddedByFate(added, fate', h') && MapByFate(added, fate', h'.workloads) && DeletedByFate(added, fate', h')
  {
    OthersByFate(added, fate, fate', w, Resumed, h.workloads, h'.workloads);
  }

  lemma RestartByFate(added: seq<WorkloadNamed>, fate: WorkloadNamed -> Fate, fate': WorkloadNamed -> Fate,
                      h: Reconciliation, w: WorkloadNamed, id: Option<string>, old': Managed, h': Reconciliation)
    requires DistinctNames(added) && fate(w) == Unlisted && Changes(added, fate, fate', w, Restarted)
    requires AddedByFate(added, fate, h) && MapByFate(added, fate, h.workloads)
    requires h'.newAdded == h.newAdded + [ReusableWorkload(w, id)]
    requires h'.workloads == h.workloads || h'.workloads == h.workloads[NameOf(w) := old']
    ensures AddedByFate(added, fate', h') && MapByFate(added, fate', h'.workloads)
  {
    var r := ReusableWorkload(w, id);
    assert r in h'.newAdded && forall q :: q in h.newAdded ==> q in h'.newAdded;
    OthersByFate(added, fate, fate', w, Restarted, h.workloads, h'.workloads);
  }

  lemma ReplaceDeletes(added: seq<WorkloadNamed>, fate: WorkloadNamed -> Fate, fate': WorkloadNamed -> Fate,
                       h: Reconciliation, w: WorkloadNamed, d: DeletedWorkload, h': Reconciliation)
    requires DistinctNames(added) && fate(w) == Unlisted && Changes(added, fate, fate', w, Restarted)
    requires DeletedByFate(added, fate, h) && DeletedName(d) == NameOf(w)
    requires h'.deleted == h.deleted || h'.deleted == h.deleted + [d]
    ensures DeletedByFate(added, fate', h')
  {
    forall c | c in h.deleted
      ensures DeletedName(c) != DeletedName(d)
    {
      var v :| v in added && NameOf(v) == DeletedName(c) && fate(v) == Restarted;
      if NameOf(v) == NameOf(w) {
        SameWorkload(added, v, w);
      }
    }
    forall c | c in h'.deleted
      ensures exists v :: v in added && NameOf(v) == DeletedName(c) && fate'(v) == Restarted
    {
      if c in h.deleted {
        var v :| v in added && NameOf(v) == DeletedName(c) && fate(v) == Restarted;
        assert v != w && fate'(v) == Restarted;
      }
    }
    forall i, j | 0 <= i < j < |h'.deleted|
      ensures DeletedName(h'.deleted[i]) != DeletedName(h'.deleted[j])
    {
      assert h.deleted[i] in h.deleted;
    }
  }

  /** Nothing but the map changes when an existing workload is not needed. */
  lemma UnneededByFate(added: seq<WorkloadNamed>, fate: WorkloadNamed -> Fate, fate': WorkloadNamed -> Fate,
                       h: Reconciliation, n: string, h': Reconciliation)
    requires DistinctNames(added) && ByFate(added, fate, h)
    requires h'.pending == h.pending && h'.newAdded == h.newAdded && h'.deleted == h.deleted
    requires h'.workloads == h.workloads - {n}
    requires forall w :: w in added ==> fate'(w) == if NameOf(w) == n && fate(w) == Resumed then Lost else fate(w)
    ensures ByFate(added, fate', h')
  {
    forall w | w in added && fate'(w) == Restarted
      ensures exists r :: r in h'.newAdded && r.workloadNamed == w
    {
      assert fate(w) == Restarted;
    }
  }

  lemma TakeUpByFate(added: seq<WorkloadNamed>, fate: WorkloadNamed -> Fate, fate': WorkloadNamed -> Fate,
                     h: Reconciliation, x: Found, i: nat)
    requires DistinctNames(added) && ByFate(added, fate, h) && i < |h.pending| && Matches(h.pending[i], x)
    requires Changes(added, fate, fate', h.pending[i],
                     if IsResumable(x.existing, h.pending[i].instanceName) then Resumed else Restarted)
    ensures ByFate(added, fate', TakeUp(h.(pending := RemoveAt(h.pending, i)), h.pending[i], x.existing))
  {
    hide PendingByFate, AddedByFate, MapByFate, DeletedByFate, Changes, RemoveAt, DistinctNames;
    var w, e := h.pending[i], x.existing;
    assert fate(w) == Unlisted by {
      PendingIsUnlisted(added, fate, h, i);
    }
    var h1 := h.(pending := RemoveAt(h.pending, i));
    var h' := TakeUp(h1, w, e);
    if IsResumable(e, w.instanceName) {
      TakeUpPending(added, fate, fate', h, i, Resumed, h');
      ResumeByFate(added, fate, fate', h, w, h');
    } else {
      TakeUpPending(added, fate, fate', h, i, Restarted, h');
      var id := if IsReusable(e, w.instanceName) then e.workloadId else None;
      RestartByFate(added, fate, fate', h, w, id, Managed(Some(WorkloadNamed(e.instanceName, DEFAULT_SPEC))), h');
      ReplaceDeletes(added, fate, fate', h, w, DeletedWorkload(e.instanceName, map[]), h');
    }
  }

  lemma PendingIsUnlisted(added: seq<WorkloadNamed>, fate: WorkloadNamed -> Fate, h: Reconciliation, i: nat)
    requires PendingByFate(added, fate, h) && i < |h.pending|
    ensures h.pending[i] in added && fate(h.pending[i]) == Unlisted
  {
  }

  /** An unmatched listing: its name is unknown, listed by another runtime, or matched before. */
  lemma UnmatchedFate(added: seq<WorkloadNamed>, fate: WorkloadNamed -> Fate, h: Reconciliation, x: Found)
    requires DistinctNames(added) && PendingByFate(added, fate, h) && Position(h.pending, x) == |h.pending|
    ensures forall w :: w in added ==>
              NextFate(fate(w), w, x) == if NameOf(w) == FoundName(x) && fate(w) == Resumed then Lost else fate(w)
  {
    forall w | w in added && NameOf(w) == FoundName(x) && fate(w) == Unlisted
      ensures x.runtime != w.workload.runtime
    {
      var k :| 0 <= k < |h.pending| && h.pending[k] == w;
      assert !Matches(h.pending[k], x);
    }
  }

  lemma MatchedFate(added: seq<WorkloadNamed>, fate: WorkloadNamed -> Fate, fate': WorkloadNamed -> Fate,
                    h: Reconciliation, x: Found, i: nat)
    requires DistinctNames(added) && PendingByFate(added, fate, h) && i < |h.pending| && Matches(h.pending[i], x)
    requires forall w :: w in added ==> fate'(w) == NextFate(fate(w), w, x)
    ensures Changes(added, fate, fate', h.pending[i],
                    if IsResumable(x.existing, h.pending[i].instanceName) then Resumed else Restarted)
  {
    var w := h.pending[i];
    assert w in h.pending;
    forall v | v in added && v != w
      ensures fate'(v) == fate(v)
    {
      if NameOf(v) == NameOf(w) {
        SameWorkload(added, v, w);
      }
    }
  }

  lemma OneByFate(added: seq<WorkloadNamed>, fate: WorkloadNamed -> Fate, fate': WorkloadNamed -> Fate,
                  h: Reconciliation, x: Found)
    requires DistinctNames(added) && ByFate(added, fate, h)
    requires forall w :: w in added ==> fate'(w) == NextFate(fate(w), w, x)
    ensures ByFate(added, fate', ReconcileOne(h, x))
  {
    hide PendingByFate, AddedByFate, MapByFate, DeletedByFate, Changes, DistinctNames, TakeUp, NextFate;
    var i := Position(h.pending, x);
    if i < |h.pending| {
      MatchedFate(added, fate, fate', h, x, i);
      TakeUpByFate(added, fate, fate', h, x, i);
    } else {
      UnmatchedFate(added, fate, h, x);
      UnneededByFate(added, fate, fate', h, FoundName(x), ReconcileOne(h, x));
    }
  }

  /** From any workload map, what happened to each added workload is exactly what its own listings say. */
  lemma {:induction false} ReconcileByFate(m: WorkloadMap, added: seq<WorkloadNamed>, found: seq<Found>)
    requires DistinctNames(added)
    ensures ByFate(added, w => FateOf(found, w), Reconcile(Start(m, added), found))
  {
    if found != [] {
      var init, x := found[..|found| - 1], found[|found| - 1];
      ReconcileByFate(m, added, init);
      hide ByFate, ReconcileOne, DistinctNames;
      OneByFate(added, w => FateOf(init, w), w => FateOf(found, w), Reconcile(Start(m, added), init), x);
    }
  }

  predicate IsListed(found: seq<Found>, n: string) {
    exists i :: 0 <= i < |found| && FoundName(found[i]) == n
  }

  ghost predicate IsAdded(added: seq<WorkloadNamed>, n: string) {
    exists w :: w in added && NameOf(w) == n
  }

  lemma PendingIsAdded(m: WorkloadMap, added: seq<WorkloadNamed>, found: seq<Found>, w: WorkloadNamed)
    requires w in Reconcile(Start(m, added), found).pending
    ensures w in added
  {
    ReconcileConserves(m, added, found);
    assert w in multiset(Reconcile(Start(m, added), found).pending);
    assert w in multiset(added);
  }

  /** An entry nobody asks for any more goes with its first listing, and survives if no runtime lists it. */
  lemma {:induction false} OldEntrySurvivesUnlisted(m: WorkloadMap, added: seq<WorkloadNamed>, found: seq<Found>,
                                                    n: string)
    requires !IsAdded(added, n)
    ensures Lookup(Reconcile(Start(m, added), found).workloads, n) == if IsListed(found, n) then None else Lookup(m, n)
  {
    if found != [] {
      var init, x := found[..|found| - 1], found[|found| - 1];
      OldEntrySurvivesUnlisted(m, added, init, n);
      ListedNext(found, n);
      hide IsListed, ReconcileOne;
      var h := Reconcile(Start(m, added), init);
      forall w | w in h.pending
        ensures NameOf(w) != n
      {
        PendingIsAdded(m, added, init, w);
      }
      UnneededAt(h, x, n);
    }
  }

  lemma UnneededAt(h: Reconciliation, x: Found, n: string)
    requires forall w :: w in h.pending ==> NameOf(w) != n
    ensures Lookup(ReconcileOne(h, x).workloads, n) == if FoundName(x) == n then None else Lookup(h.workloads, n)
  {
    var i := Position(h.pending, x);
    if i < |h.pending| {
      assert h.pending[i] in h.pending && NameOf(h.pending[i]) == FoundName(x);
    }
  }

  lemma ListedNext(found: seq<Found>, n: string)
    requires found != []
    ensures IsListed(found, n) <==> IsListed(found[..|found| - 1], n) || FoundName(found[|found| - 1]) == n
  {
    var init := found[..|found| - 1];
    if i :| 0 <= i < |init| && FoundName(init[i]) == n {
      assert found[i] == init[i];
    }
    if i :| 0 <= i < |found| - 1 && FoundName(found[i]) == n {
      assert init[i] == found[i];
    }
  }

  // ---------- The outcome of a hello ----------

  function AsNew(ws: seq<WorkloadNamed>): seq<ReusableWorkload> {
    seq(|ws|, i requires 0 <= i < |ws| => ReusableWorkload(ws[i], None))
  }

  /** What the reconciliation hands on: its own list, then the unmatched workloads in hash map order. */
  ghost predicate HandsOn(h: Reconciliation, newAdded: seq<ReusableWorkload>) {
    exists rest :: multiset(rest) == multiset(h.pending) && newAdded == h.newAdded + AsNew(rest)
  }

  lemma SpecsConcat(a: seq<ReusableWorkload>, ws: seq<WorkloadNamed>)
    ensures Specs(a + AsNew(ws)) == Specs(a) + ws
  {
  }

  /** With no assumption on names: every added workload is resumed or handed on, and none of them twice. */
  lemma HandedOnConserves(m: WorkloadMap, added: seq<WorkloadNamed>, found: seq<Found>, newAdded: seq<ReusableWorkload>)
    requires HandsOn(Reconcile(Start(m, added), found), newAdded)
    ensures var h := Reconcile(Start(m, added), found);
            && multiset(h.resumed) + multiset(Specs(newAdded)) == multiset(added)
            && forall d :: d in h.deleted ==> exists r :: r in newAdded && ReusableName(r) == DeletedName(d)
  {
    var h := Reconcile(Start(m, added), found);
    var rest :| multiset(rest) == multiset(h.pending) && newAdded == h.newAdded + AsNew(rest);
    ReconcileConserves(m, added, found);
    SpecsConcat(h.newAdded, rest);
    forall d | d in h.deleted
      ensures exists r :: r in newAdded && ReusableName(r) == DeletedName(d)
    {
      var r :| r in h.newAdded && ReusableName(r) == DeletedName(d);
      assert r in newAdded;
    }
  }

  /** Every handed-on workload is an added one that was restarted or not listed, and all of these are handed on. */
  lemma HandedOn(added: seq<WorkloadNamed>, fate: WorkloadNamed -> Fate, h: Reconciliation,
                 newAdded: seq<ReusableWorkload>)
    requires PendingByFate(added, fate, h) && AddedByFate(added, fate, h) && HandsOn(h, newAdded)
    ensures forall r :: r in newAdded ==>
              r.workloadNamed in added && (fate(r.workloadNamed) == Restarted || fate(r.workloadNamed) == Unlisted)
    ensures forall w :: w in added && (fate(w) == Restarted || fate(w) == Unlisted) ==>
              exists r :: r in newAdded && r.workloadNamed == w
  {
    var rest :| multiset(rest) == multiset(h.pending) && newAdded == h.newAdded + AsNew(rest);
    forall r | r in newAdded
      ensures r.workloadNamed in added && (fate(r.workloadNamed) == Restarted || fate(r.workloadNamed) == Unlisted)
    {
      if r !in h.newAdded {
        assert r in AsNew(rest) && r.workloadNamed in rest;
        assert r.workloadNamed in multiset(h.pending);
      }
    }
    forall w | w in added && (fate(w) == Restarted || fate(w) == Unlisted)
      ensures exists r :: r in newAdded && r.workloadNamed == w
    {
      if fate(w) == Restarted {
        var r :| r in h.newAdded && r.workloadNamed == w;
        assert r in newAdded;
      } else {
        assert w in multiset(rest);
        var k :| 0 <= k < |rest| && rest[k] == w;
        assert AsNew(rest)[k] == ReusableWorkload(w, None) && AsNew(rest)[k] in newAdded;
      }
    }
  }

  /** What a hello leaves under a name: the wanted version unless it was lost, or the old entry unless it was listed. */
  ghost predicate IsOutcomeAt(m0: WorkloadMap, added: seq<WorkloadNamed>, found: seq<Found>, n: string,
                              v: Option<Managed>) {
    && (forall w :: w in added && NameOf(w) == n ==>
          v == if FateOf(found, w) == Lost then None else Some(Managed(Some(w))))
    && (!IsAdded(added, n) ==> v == if IsListed(found, n) then None else Lookup(m0, n))
  }

  ghost predicate IsOutcome(m0: WorkloadMap, added: seq<WorkloadNamed>, found: seq<Found>, m: WorkloadMap) {
    forall n :: IsOutcomeAt(m0, added, found, n, Lookup(m, n))
  }

  lemma HandedOnNames(added: seq<WorkloadNamed>, fate: WorkloadNamed -> Fate, h: Reconciliation,
                      newAdded: seq<ReusableWorkload>)
    requires PendingByFate(added, fate, h) && AddedByFate(added, fate, h) && HandsOn(h, newAdded)
    ensures forall w :: w in added && (fate(w) == Restarted || fate(w) == Unlisted) ==> NameOf(w) in AddedMap(newAdded)
    ensures forall n :: n in AddedMap(newAdded) ==>
              var w := AddedMap(newAdded)[n].workloadNamed;
              w in added && NameOf(w) == n && (fate(w) == Restarted || fate(w) == Unlisted)
  {
    HandedOn(added, fate, h, newAdded);
    hide PendingByFate, AddedByFate, HandsOn;
    forall w | w in added && (fate(w) == Restarted || fate(w) == Unlisted)
      ensures NameOf(w) in AddedMap(newAdded)
    {
      var r :| r in newAdded && r.workloadNamed == w;
      var k :| 0 <= k < |newAdded| && newAdded[k] == r;
    }
  }

  lemma ResumedStays(added: seq<WorkloadNamed>, fate: WorkloadNamed -> Fate, h: Reconciliation, w: WorkloadNamed)
    requires DistinctNames(added) && DeletedByFate(added, fate, h) && w in added && fate(w) == Resumed
    ensures !IsDeleted(h.deleted, NameOf(w))
  {
    forall d | d in h.deleted
      ensures DeletedName(d) != NameOf(w)
    {
      var v :| v in added && NameOf(v) == DeletedName(d) && fate(v) == Restarted;
      if NameOf(v) == NameOf(w) {
        SameWorkload(added, v, w);
      }
    }
  }

  lemma AddedOutcome(added: seq<WorkloadNamed>, fate: WorkloadNamed -> Fate, h: Reconciliation,
                     newAdded: seq<ReusableWorkload>, w: WorkloadNamed)
    requires DistinctNames(added) && ByFate(added, fate, h) && HandsOn(h, newAdded) && w in added
    ensures Lookup(FinalMap(h.workloads, newAdded, h.deleted), NameOf(w)) ==
            if fate(w) == Lost then None else Some(Managed(Some(w)))
  {
    HandedOnNames(added, fate, h, newAdded);
    hide HandsOn, AddedMap, PendingByFate, AddedByFate, IsDeleted;
    var n := NameOf(w);
    if n in AddedMap(newAdded) {
      SameWorkload(added, AddedMap(newAdded)[n].workloadNamed, w);
    } else if fate(w) == Resumed {
      ResumedStays(added, fate, h, w);
    }
  }

  lemma OtherOutcome(m0: WorkloadMap, added: seq<WorkloadNamed>, found: seq<Found>, newAdded: seq<ReusableWorkload>,
                     n: string)
    requires DistinctNames(added) && HandsOn(Reconcile(Start(m0, added), found), newAdded) && !IsAdded(added, n)
    ensures var h := Reconcile(Start(m0, added), found);
            && n !in AddedMap(newAdded) && !IsDeleted(h.deleted, n)
            && Lookup(FinalMap(h.workloads, newAdded, h.deleted), n) ==
               if IsListed(found, n) then None else Lookup(m0, n)
  {
    var h, fate: WorkloadNamed -> Fate := Reconcile(Start(m0, added), found), w => FateOf(found, w);
    ReconcileByFate(m0, added, found);
    HandedOnNames(added, fate, h, newAdded);
    OldEntrySurvivesUnlisted(m0, added, found, n);
    hide Reconcile, HandsOn, AddedMap, PendingByFate, AddedByFate, IsListed;
    forall d | d in h.deleted
      ensures DeletedName(d) != n
    {
      var v :| v in added && NameOf(v) == DeletedName(d) && fate(v) == Restarted;
    }
  }

  lemma FinalMapByFate(m0: WorkloadMap, added: seq<WorkloadNamed>, found: seq<Found>, newAdded: seq<ReusableWorkload>)
    requires DistinctNames(added) && HandsOn(Reconcile(Start(m0, added), found), newAdded)
    ensures var h := Reconcile(Start(m0, added), found);
            IsOutcome(m0, added, found, FinalMap(h.workloads, newAdded, h.deleted)) && DistinctDeleted(h.deleted)
  {
    var h := Reconcile(Start(m0, added), found);
    var m := FinalMap(h.workloads, newAdded, h.deleted);
    ReconcileByFate(m0, added, found);
    assert DistinctDeleted(h.deleted);
    hide Reconcile, HandsOn, ByFate, FinalMap, FateOf, IsListed, DistinctNames;
    forall n
      ensures IsOutcomeAt(m0, added, found, n, Lookup(m, n))
    {
      forall w | w in added && NameOf(w) == n
        ensures Lookup(m, n) == if FateOf(found, w) == Lost then None else Some(Managed(Some(w)))
      {
        AddedOutcome(added, v => FateOf(found, v), h, newAdded, w);
      }
      if !IsAdded(added, n) {
        OtherOutcome(m0, added, found, newAdded, n);
      }
    }
  }

  /**
   A hello at an agent with any workload map, every operation ready: whatever order
   the operations come in, the agent ends up running the added workloads that were
   not lost, each in the version the server wants; what is not asked for is gone if
   a runtime listed it; and nothing is only deleted.
   */
  lemma HelloReachesOutcome(m0: WorkloadMap, added: seq<WorkloadNamed>, found: seq<Found>,
                            newAdded: seq<ReusableWorkload>,
                            ops: seq<WorkloadOperation>, ops': seq<WorkloadOperation>)
    requires DistinctNames(added)
    requires var h := Reconcile(Start(m0, added), found);
             HandsOn(h, newAdded) && IsTransform(h.workloads.Keys, newAdded, h.deleted, ops)
    requires multiset(ops') == multiset(ops)
    ensures IsOutcome(m0, added, found, Execute(Reconcile(Start(m0, added), found).workloads, ops'))
    ensures forall op :: op in ops ==> !op.Delete?
  {
    var h := Reconcile(Start(m0, added), found);
    ReconcileByFate(m0, added, found);
    FinalMapByFate(m0, added, found, newAdded);
    UpdateReachesFinalMap(h.workloads, h.workloads.Keys, newAdded, h.deleted, ops, ops');
    NoBareDelete(added, found, h, newAdded, ops);
  }

  /** Each replaced instance becomes one update that pairs the old with the new version. */
  lemma NoBareDelete(added: seq<WorkloadNamed>, found: seq<Found>, h: Reconciliation, newAdded: seq<ReusableWorkload>,
                     ops: seq<WorkloadOperation>)
    requires DistinctNames(added) && ByFate(added, w => FateOf(found, w), h) && HandsOn(h, newAdded)
    requires IsTransform(h.workloads.Keys, newAdded, h.deleted, ops)
    ensures |h.deleted| <= |ops|
    ensures forall i :: 0 <= i < |h.deleted| ==> ops[i].Update? && ops[i].oldWorkload == h.deleted[i]
    ensures forall op :: op in ops ==> !op.Delete?
  {
    assert |h.deleted| <= |ops|;
    var fate: WorkloadNamed -> Fate := w => FateOf(found, w);
    HandedOnNames(added, fate, h, newAdded);
    hide HandsOn, FateOf, PendingByFate, AddedByFate, MapByFate, AddedMap, IsTransform;
    forall i | 0 <= i < |h.deleted|
      ensures DeletedName(h.deleted[i]) in AddedMap(newAdded)
    {
      assert h.deleted[i] in h.deleted;
    }
    OnlyReplaced(h.workloads.Keys, newAdded, h.deleted, ops);
  }

  // ---------- When a workload is lost ----------

  /** The first listing of the workload by its own runtime, found running in the wanted version. */
  predicate ResumedAt(found: seq<Found>, w: WorkloadNamed, j: nat) {
    && j < |found| && Matches(w, found[j]) && IsResumable(found[j].existing, w.instanceName)
    && forall i :: 0 <= i < j ==> !Matches(w, found[i])
  }

  ghost predicate ListedAfterResume(found: seq<Found>, w: WorkloadNamed) {
    exists j, k :: 0 <= j < k < |found| && ResumedAt(found, w, j) && FoundName(found[k]) == NameOf(w)
  }

  ghost predicate MatchedIn(found: seq<Found>, w: WorkloadNamed) {
    exists i :: 0 <= i < |found| && Matches(w, found[i])
  }

  ghost predicate ResumedIn(found: seq<Found>, w: WorkloadNamed) {
    exists j :: ResumedAt(found, w, j)
  }

  lemma ResumedAtInit(found: seq<Found>, w: WorkloadNamed, j: nat)
    requires found != [] && j < |found| - 1
    ensures ResumedAt(found, w, j) <==> ResumedAt(found[..|found| - 1], w, j)
  {
    var init := found[..|found| - 1];
    assert forall i :: 0 <= i < |init| ==> init[i] == found[i];
  }

  /** The automaton agrees with the positions in the listing. */
  lemma {:induction false} FateByPosition(found: seq<Found>, w: WorkloadNamed)
    ensures FateOf(found, w) == Unlisted <==> !MatchedIn(found, w)
    ensures FateOf(found, w) == Resumed <==> ResumedIn(found, w) && !ListedAfterResume(found, w)
    ensures FateOf(found, w) == Lost <==> ListedAfterResume(found, w)
  {
    if found != [] {
      var last := |found| - 1;
      var init, x := found[..last], found[last];
      FateByPosition(init, w);
      MatchedGrows(init, x, w);
      ResumedGrows(init, x, w);
      ListedGrows(init, x, w);
      assert init + [x] == found;
    }
  }

  lemma MatchedGrows(init: seq<Found>, x: Found, w: WorkloadNamed)
    ensures MatchedIn(init + [x], w) <==> MatchedIn(init, w) || Matches(w, x)
  {
    var found := init + [x];
    assert found[|init|] == x;
    assert forall i :: 0 <= i < |init| ==> init[i] == found[i];
  }

  lemma ResumedGrows(init: seq<Found>, x: Found, w: WorkloadNamed)
    ensures ResumedIn(init + [x], w) <==>
            ResumedIn(init, w) || (!MatchedIn(init, w) && Matches(w, x) && IsResumable(x.existing, w.instanceName))
  {
    var found := init + [x];
    assert found[|init|] == x && found[..|init|] == init;
    assert forall i :: 0 <= i < |init| ==> init[i] == found[i];
    if j: nat :| ResumedAt(init, w, j) {
      ResumedAtInit(found, w, j);
    }
    if j: nat :| ResumedAt(found, w, j) {
      if j < |init| {
        ResumedAtInit(found, w, j);
      }
    }
    if !MatchedIn(init, w) && Matches(w, x) && IsResumable(x.existing, w.instanceName) {
      assert ResumedAt(found, w, |init|);
    }
  }

  lemma ListedGrows(init: seq<Found>, x: Found, w: WorkloadNamed)
    ensures ListedAfterResume(init + [x], w) <==>
            ListedAfterResume(init, w) || (ResumedIn(init, w) && FoundName(x) == NameOf(w))
  {
    var found := init + [x];
    assert found[|init|] == x && found[..|init|] == init;
    assert forall i :: 0 <= i < |init| ==> init[i] == found[i];
    if j, k :| 0 <= j < k < |init| && ResumedAt(init, w, j) && FoundName(init[k]) == NameOf(w) {
      ResumedAtInit(found, w, j);
      assert FoundName(found[k]) == NameOf(w);
    }
    if ResumedIn(init, w) && FoundName(x) == NameOf(w) {
      var j: nat :| ResumedAt(init, w, j);
      ResumedAtInit(found, w, j);
      assert FoundName(found[|init|]) == NameOf(w);
    }
    if j, k :| 0 <= j < k < |found| && ResumedAt(found, w, j) && FoundName(found[k]) == NameOf(w) {
      ResumedAtInit(found, w, j);
      if k < |init| {
        assert FoundName(init[k]) == NameOf(w);
      }
    }
  }

  ghost function Names(ws: seq<WorkloadNamed>): set<string> {
    set w | w in ws :: NameOf(w)
  }

  /**
   The agent manages exactly the added workloads if and only if none that was
   resumed is listed once more afterwards, by whichever runtime, and every old entry
   that is not asked for is listed.
   */
  lemma HelloKeysIff(m0: WorkloadMap, added: seq<WorkloadNamed>, found: seq<Found>, m: WorkloadMap)
    requires DistinctNames(added) && IsOutcome(m0, added, found, m)
    ensures m.Keys == Names(added) <==>
            && (forall w :: w in added ==> !ListedAfterResume(found, w))
            && (forall n :: n in m0 && !IsAdded(added, n) ==> IsListed(found, n))
  {
    hide DistinctNames, ListedAfterResume, IsListed;
    forall w | w in added
      ensures NameOf(w) in m <==> !ListedAfterResume(found, w)
    {
      FateByPosition(found, w);
      assert IsOutcomeAt(m0, added, found, NameOf(w), Lookup(m, NameOf(w)));
    }
    forall n | !IsAdded(added, n)
      ensures n in m <==> n in m0 && !IsListed(found, n)
    {
      assert IsOutcomeAt(m0, added, found, n, Lookup(m, n));
    }
    forall n
      ensures n in Names(added) <==> IsAdded(added, n)
    {
    }
    if m.Keys == Names(added) {
      forall n | n in m0 && !IsAdded(added, n)
        ensures IsListed(found, n)
      {
        assert n !in Names(added);
      }
      forall w | w in added
        ensures !ListedAfterResume(found, w)
      {
        assert NameOf(w) in Names(added);
      }
    } else {
      var n :| (n in m.Keys) != (n in Names(added));
      if IsAdded(added, n) {
        var w :| w in added && NameOf(w) == n;
      }
    }
  }

  /** Existing names that are distinct across the runtimes: every workload survives. */
  lemma ListedOnceNeverLost(found: seq<Found>, w: WorkloadNamed)
    requires forall i, j :: 0 <= i < j < |found| ==> FoundName(found[i]) != FoundName(found[j])
    ensures !ListedAfterResume(found, w)
  {
    forall j, k | 0 <= j < k < |found| && ResumedAt(found, w, j)
      ensures FoundName(found[k]) != NameOf(w)
    {
      assert FoundName(found[j]) == NameOf(w);
    }
  }

  /** ... and the order in which the runtimes answer does not matter. */
  lemma ListingOrderDoesNotMatter(found: seq<Found>, found': seq<Found>, w: WorkloadNamed)
    requires forall i, j :: 0 <= i < j < |found| ==> FoundName(found[i]) != FoundName(found[j])
    requires forall i, j :: 0 <= i < j < |found'| ==> FoundName(found'[i]) != FoundName(found'[j])
    requires forall x :: x in found <==> x in found'
    ensures FateOf(found, w) == FateOf(found', w)
  {
    FateByPosition(found, w);
    FateByPosition(found', w);
    ListedOnceNeverLost(found, w);
    ListedOnceNeverLost(found', w);
    MatchedElsewhere(found, found', w);
    MatchedElsewhere(found', found, w);
  }

  lemma MatchedElsewhere(found: seq<Found>, found': seq<Found>, w: WorkloadNamed)
    requires forall i, j :: 0 <= i < j < |found'| ==> FoundName(found'[i]) != FoundName(found'[j])
    requires forall x :: x in found ==> x in found'
    ensures MatchedIn(found, w) ==> MatchedIn(found', w)
    ensures ResumedIn(found, w) ==> ResumedIn(found', w)
  {
    if i :| 0 <= i < |found| && Matches(w, found[i]) {
      assert found[i] in found';
      var k :| 0 <= k < |found'| && found'[k] == found[i];
      assert Matches(w, found'[k]);
    }
    if j: nat :| ResumedAt(found, w, j) {
      assert found[j] in found';
      var k :| 0 <= k < |found'| && found'[k] == found[j];
      assert ResumedAt(found', w, k);
    }
  }

  /**
   A name that two runtimes list is where the order counts: the running workload is
   resumed and then taken away again, or kept, depending on who answers first.
   */
  lemma OrderDecides(w: WorkloadNamed, own: Found, foreign: Found)
    requires Matches(w, own) && IsResumable(own.existing, w.instanceName)
    requires FoundName(foreign) == NameOf(w) && foreign.runtime != w.workload.runtime
    ensures FateOf([own, foreign], w) == Lost && FateOf([foreign, own], w) == Resumed
  {
    assert [own, foreign][..1] == [own] && [own][..0] == [];
    assert [foreign, own][..1] == [foreign] && [foreign][..0] == [];
    assert FateOf([own], w) == NextFate(FateOf([], w), w, own);
    assert FateOf([foreign], w) == NextFate(FateOf([], w), w, foreign);
  }
}
