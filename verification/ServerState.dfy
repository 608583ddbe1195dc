/**
 The state of the server: what a new desired state adds and deletes, the
 incremental cycle check, and the delete conditions of dependent workloads.
 */
module ServerState {
  import opened Options
  import opened Workloads
  import opened Operations
  import opened NameOrder
  import opened CycleCheck
  import CycleCheckGap
  import opened ServerHello

  datatype Desired = Desired(workloads: map<string, WorkloadSpec>, configs: string)
  type Rendered = map<string, WorkloadNamed>

  /** Rendering fills in names and templates and keeps the dependencies. */
  predicate Renders(d: Desired, r: Rendered) {
    && r.Keys == d.workloads.Keys
    && forall n :: n in r ==> NameOf(r[n]) == n && r[n].workload.dependencies == d.workloads[n].dependencies
  }

  function DependenciesOf(workloads: map<string, WorkloadSpec>): Dependencies {
    map n | n in workloads :: workloads[n].dependencies.Keys
  }

  ghost function GraphOf(workloads: map<string, WorkloadSpec>): Graph {
    InOrder(DependenciesOf(workloads))
  }

  // ---------- Added and deleted workloads ----------

  /** Every dependency counts, whatever its condition, and nothing else is an edge. */
  lemma EdgesAreDependencies(workloads: map<string, WorkloadSpec>, n: Name, d: Name)
    ensures n in GraphOf(workloads) && d in GraphOf(workloads)[n] <==> n in workloads && d in workloads[n].dependencies
  {
    if n in workloads {
      SortedMembers(DependenciesOf(workloads)[n]);
    }
  }

  predicate Differs(current: Rendered, target: Rendered, n: string) {
    !(n in current && n in target && current[n] == target[n])
  }

  /** Of the given names, exactly the new and changed workloads, each once. */
  ghost predicate AddedFor(current: Rendered, target: Rendered, names: set<string>, added: seq<WorkloadNamed>) {
    && DistinctNames(added)
    && (forall w :: w in added ==>
        var n := NameOf(w); n in names && n in target && w == target[n] && Differs(current, target, n))
    && (forall n :: n in names && n in target && Differs(current, target, n) ==> target[n] in added)
  }

  /** Of the given names, exactly the gone and changed workloads, each once, in their old version. */
  ghost predicate DeletedFor(current: Rendered, target: Rendered, names: set<string>, deleted: seq<DeletedWorkload>) {
    && DistinctDeleted(deleted)
    && (forall d :: d in deleted ==>
        var n := DeletedName(d);
        n in names && n in current && d.instanceName == current[n].instanceName && Differs(current, target, n))
    && (forall n :: n in names && n in current && Differs(current, target, n) ==> IsDeleted(deleted, n))
  }

  predicate ProperNames(r: Rendered) {
    forall n :: n in r ==> NameOf(r[n]) == n
  }

  lemma AddedOneMore(current: Rendered, target: Rendered, names: set<string>, added: seq<WorkloadNamed>, n: string)
    requires AddedFor(current, target, names, added) && ProperNames(target) && n !in names
    ensures n in target && Differs(current, target, n) ==> AddedFor(current, target, names + {n}, added + [target[n]])
    ensures !(n in target && Differs(current, target, n)) ==> AddedFor(current, target, names + {n}, added)
  {
    forall i | 0 <= i < |added|
      ensures NameOf(added[i]) != n
    {
      assert added[i] in added;
    }
  }

  lemma DeletedOneMore(current: Rendered, target: Rendered, names: set<string>, deleted: seq<DeletedWorkload>,
                       n: string)
    requires DeletedFor(current, target, names, deleted) && ProperNames(current) && n !in names
    ensures n in current && Differs(current, target, n) ==>
              DeletedFor(current, target, names + {n}, deleted + [DeletedWorkload(current[n].instanceName, map[])])
    ensures !(n in current && Differs(current, target, n)) ==> DeletedFor(current, target, names + {n}, deleted)
  {
    forall i | 0 <= i < |deleted|
      ensures DeletedName(deleted[i]) != n
    {
      assert deleted[i] in deleted;
    }
    if n in current && Differs(current, target, n) {
      var d := DeletedWorkload(current[n].instanceName, map[]);
      assert (deleted + [d])[|deleted|] == d && DeletedName(d) == n;
      forall k | IsDeleted(deleted, k)
        ensures IsDeleted(deleted + [d], k)
      {
        var i :| 0 <= i < |deleted| && DeletedName(deleted[i]) == k;
        assert (deleted + [d])[i] == deleted[i];
      }
    }
  }

  /** Both hash maps are walked in any order. */
  method ExtractAddedAndDeletedWorkloads(current: Rendered, target: Rendered)
    returns (added: seq<WorkloadNamed>, deleted: seq<DeletedWorkload>)
    requires ProperNames(current) && ProperNames(target)
    ensures AddedFor(current, target, current.Keys + target.Keys, added)
    ensures DeletedFor(current, target, current.Keys + target.Keys, deleted)
    ensures forall d :: d in deleted ==> d.dependencies == map[]
    ensures forall n :: n in target ==> (target[n] in added <==> n !in current || current[n] != target[n])
    ensures forall n :: n in current ==> (IsDeleted(deleted, n) <==> n !in target || current[n] != target[n])
  {
    hide AddedFor, DeletedFor;
    added, deleted := [], [];
    var rest := current.Keys;
    ghost var names: set<string> := {};
    NothingExtracted(current, target);
    while rest != {}
      invariant rest !! names && rest + names == current.Keys
      invariant AddedFor(current, target, names, added) && DeletedFor(current, target, names, deleted)
      invariant forall d :: d in deleted ==> d.dependencies == map[]
      decreases rest
    {
      var n :| n in rest;
      AddedOneMore(current, target, names, added, n);
      DeletedOneMore(current, target, names, deleted, n);
      if n in target {
        if current[n] != target[n] {
          added := added + [target[n]];
          deleted := deleted + [DeletedWorkload(current[n].instanceName, map[])];
        }
      } else {
        deleted := deleted + [DeletedWorkload(current[n].instanceName, map[])];
      }
      rest := rest - {n};
      names := names + {n};
    }
    rest := target.Keys;
    while rest != {}
      invariant current.Keys <= names && rest <= target.Keys && names == current.Keys + (target.Keys - rest)
      invariant AddedFor(current, target, names, added) && DeletedFor(current, target, names, deleted)
      invariant forall d :: d in deleted ==> d.dependencies == map[]
      decreases rest
    {
      var n :| n in rest;
      if n !in current {
        AddedOneMore(current, target, names, added, n);
        DeletedOneMore(current, target, names, deleted, n);
        added := added + [target[n]];
      }
      rest := rest - {n};
      assert n in current ==> names + {n} == names;
      names := names + {n};
    }
    assert names == current.Keys + target.Keys;
    ExactlyTheChanges(current, target, added, deleted);
  }

  /** Only what is new, changed or gone is told: a workload that stays as it is is never touched. */
  lemma ExactlyTheChanges(current: Rendered, target: Rendered, added: seq<WorkloadNamed>, deleted: seq<DeletedWorkload>)
    requires ProperNames(current) && ProperNames(target)
    requires AddedFor(current, target, current.Keys + target.Keys, added)
    requires DeletedFor(current, target, current.Keys + target.Keys, deleted)
    ensures forall n :: n in target ==> (target[n] in added <==> n !in current || current[n] != target[n])
    ensures forall n :: n in current ==> (IsDeleted(deleted, n) <==> n !in target || current[n] != target[n])
  {
    forall n | n in current && IsDeleted(deleted, n)
      ensures n !in target || current[n] != target[n]
    {
      var i :| 0 <= i < |deleted| && DeletedName(deleted[i]) == n;
      assert deleted[i] in deleted;
    }
  }

  lemma NothingExtracted(current: Rendered, target: Rendered)
    ensures AddedFor(current, target, {}, []) && DeletedFor(current, target, {}, [])
  {
  }

  lemma SomeDifference(current: Rendered, target: Rendered, added: seq<WorkloadNamed>, deleted: seq<DeletedWorkload>)
    requires AddedFor(current, target, current.Keys + target.Keys, added)
    requires DeletedFor(current, target, current.Keys + target.Keys, deleted)
    ensures current == target ==> added == [] && deleted == []
  {
    if added != [] {
      assert added[0] in added && Differs(current, target, NameOf(added[0]));
    }
    if deleted != [] {
      assert deleted[0] in deleted && Differs(current, target, DeletedName(deleted[0]));
    }
  }

  lemma NoDifference(current: Rendered, target: Rendered)
    requires AddedFor(current, target, current.Keys + target.Keys, [])
    requires DeletedFor(current, target, current.Keys + target.Keys, [])
    ensures current == target
  {
    forall n | n in current.Keys + target.Keys
      ensures !Differs(current, target, n)
    {
      assert !IsDeleted([], n);
    }
  }

  // ---------- The incremental cycle check ----------

  lemma SubWalk(g: Graph, w: seq<Name>, a: nat, b: nat)
    requires IsWalk(g, w) && a < b <= |w|
    ensures IsWalk(g, w[a..b])
  {
    var v := w[a..b];
    assert forall i :: 0 <= i < |v| ==> v[i] in g;
    forall i | 0 <= i < |v| - 1
      ensures v[i + 1] in g[v[i]]
    {
      assert w[a + i + 1] in g[w[a + i]];
    }
  }

  lemma CycleThrough(g: Graph, w: seq<Name>, i: nat)
    requires IsWalk(g, w) && |w| > 1 && w[0] == w[|w| - 1] && i < |w| - 1
    ensures OnCycle(g, w[i])
  {
    if i == 0 {
      assert WalkFromTo(g, w, w[0], w[0]);
    } else {
      SubWalk(g, w, i, |w|);
      SubWalk(g, w, 1, i + 1);
      assert w[i..] == w[i..|w|];
      WalkConcat(g, w[i..], w[1..i + 1]);
      assert WalkFromTo(g, w[i..] + w[1..i + 1], w[i], w[i]);
    }
  }

  /** Looking only at the changed workloads is enough: a new cycle passes through one of them. */
  lemma IncrementalCheckIsComplete(before: Graph, after: Graph, starts: seq<Name>)
    requires Acyclic(before)
    requires forall n :: n in after && after[n] != [] && n !in starts ==> n in before && before[n] == after[n]
    ensures CycleFrom(after, starts) <==> !Acyclic(after)
  {
    if !Acyclic(after) {
      var n :| OnCycle(after, n);
      var w :| WalkFromTo(after, w, n, n) && |w| > 1;
      if i :| 0 <= i < |w| - 1 && w[i] in starts {
        CycleThrough(after, w, i);
        assert WalkFromTo(after, [w[i]], w[i], w[i]);
        assert Reaches(after, w[i], w[i]);
      } else {
        CycleWasThere(before, after, starts, w);
      }
    }
  }

  lemma CycleWasThere(before: Graph, after: Graph, starts: seq<Name>, w: seq<Name>)
    requires IsWalk(after, w) && |w| > 1 && w[0] == w[|w| - 1]
    requires forall n :: n in after && after[n] != [] && n !in starts ==> n in before && before[n] == after[n]
    requires forall i :: 0 <= i < |w| - 1 ==> w[i] !in starts
    ensures OnCycle(before, w[0])
  {
    forall i | 0 <= i < |w| - 1
      ensures w[i] in before && before[w[i]] == after[w[i]]
    {
      assert w[i + 1] in after[w[i]];
    }
    assert w[|w| - 1] == w[0] && w[0] in before;
    assert WalkFromTo(before, w, w[0], w[0]);
  }

  function StartNodes(added: seq<WorkloadNamed>): (r: seq<Name>)
    ensures forall n :: n in r <==> exists w :: w in added && NameOf(w) == n && w.workload.dependencies != map[]
  {
    if added == [] then []
    else
      assert added == [added[0]] + added[1..];
      (if added[0].workload.dependencies != map[] then [NameOf(added[0])] else []) + StartNodes(added[1..])
  }

  /** Everything that is not a start node has the dependencies it had. */
  lemma StartsCoverChanges(d0: Desired, r0: Rendered, d1: Desired, r1: Rendered, added: seq<WorkloadNamed>)
    requires Renders(d0, r0) && Renders(d1, r1) && AddedFor(r0, r1, r0.Keys + r1.Keys, added)
    ensures var before, after := GraphOf(d0.workloads), GraphOf(d1.workloads);
            forall n :: n in after && after[n] != [] && n !in StartNodes(added) ==> n in before && before[n] == after[n]
  {
    var starts := StartNodes(added);
    var before, after := GraphOf(d0.workloads), GraphOf(d1.workloads);
    forall n | n in r1 && Differs(r0, r1, n) && r1[n].workload.dependencies != map[]
      ensures n in starts
    {
      assert r1[n] in added && NameOf(r1[n]) == n;
    }
    forall n | n in after && after[n] != []
      ensures r1[n].workload.dependencies != map[]
    {
      SortedMembers(d1.workloads[n].dependencies.Keys);
    }
  }

  lemma CycleWithoutDependent(g: Graph, p: Name, z: Name, n: Name)
    requires p in g && CycleCheckGap.Unused(g, z) && OnCycle(g[z := [p]], n)
    ensures OnCycle(g, n)
  {
    var before := g[z := [p]];
    var w :| WalkFromTo(before, w, n, n) && |w| > 1;
    forall i | 1 <= i < |w|
      ensures w[i] != z
    {
      assert w[i - 1 + 1] in before[w[i - 1]];
    }
    assert w[0] == w[|w| - 1] != z;
    assert forall i :: 0 <= i < |w| ==> w[i] != z;
    assert WalkFromTo(g, w, n, n);
  }

  /** A workload nobody depends on closes no cycle. */
  lemma DependentIsHarmless(g: Graph, p: Name, z: Name)
    requires Acyclic(g) && p in g && CycleCheckGap.Unused(g, z)
    ensures Acyclic(g[z := [p]])
  {
    var before := g[z := [p]];
    forall n
      ensures !OnCycle(before, n)
    {
      if OnCycle(before, n) {
        CycleWithoutDependent(g, p, z, n);
      }
    }
  }

  lemma SmallestInFront(z: Name, deps: seq<Name>)
    requires SortedNames(deps) && forall d :: d in deps ==> NameAtMost(z, d)
    ensures SortedNames([z] + deps)
  {
    assert deps[..0] + [z] + deps[0..] == [z] + deps;
    InsertSorted(deps, z, 0);
  }

  /**
   Where the check falls short: z depends on p, and an update lets p depend on z.
   The changed workload p is the only start node. Every such update to otherwise
   acyclic dependencies is refused if and only if there are no late shortcuts. The
   dependency lists are sorted; the lists with z in front are so if z is the name of
   the smallest dependency.
   */
  lemma ClosingUpdatesRefusedIff(g: Graph, z: Name)
    requires Acyclic(g) && CycleCheckGap.Unused(g, z)
    ensures forall p :: p in g ==>
              var before, after := g[z := [p]], CycleCheckGap.Close(g, p, z);
              && Acyclic(before) && !Acyclic(after)
              && forall n :: n in after && n != p ==> n in before && before[n] == after[n]
    ensures NoLateShortcut(g) <==>
            forall p, run, cycle :: p in g && IsRun(CycleCheckGap.Close(g, p, z), [p], run, cycle) ==> cycle.Some?
    ensures SortedGraph(g) && (forall n, d :: n in g && d in g[n] ==> NameAtMost(z, d)) ==>
              forall p :: p in g ==> SortedGraph(CycleCheckGap.Close(g, p, z))
  {
    CycleCheckGap.LoopsNoticedIff(g, z);
    if SortedGraph(g) && (forall n, d :: n in g && d in g[n] ==> NameAtMost(z, d)) {
      forall p | p in g
        ensures SortedGraph(CycleCheckGap.Close(g, p, z))
      {
        SmallestInFront(z, g[p]);
      }
    }
    forall p | p in g
      ensures Acyclic(g[z := [p]]) && !Acyclic(CycleCheckGap.Close(g, p, z))
    {
      DependentIsHarmless(g, p, z);
      CycleCheckGap.ClosedIsCyclic(g, p, z);
    }
  }

  // ---------- Delete conditions ----------

  type DeleteGraph = map<string, map<string, DeleteCondition>>

  predicate Waits(g: DeleteGraph, d: string, n: string) {
    d in g && n in g[d]
  }

  /** The workload needs the dependency to be running. */
  predicate NeedsRunning(w: WorkloadNamed, d: string) {
    d in w.workload.dependencies && w.workload.dependencies[d] == AddCondRunning
  }

  function InsertCondition(g: DeleteGraph, d: string, n: string): DeleteGraph {
    var conditions := if d in g then g[d] else map[];
    g[d := conditions[n := DelCondNotPendingNorRunning]]
  }

  /** Exactly the added workloads that need a dependency running are recorded for it. */
  ghost predicate Recorded(g: DeleteGraph, added: seq<WorkloadNamed>, g': DeleteGraph) {
    forall d, n :: Waits(g', d, n) <==> Waits(g, d, n) || exists w :: w in added && NameOf(w) == n && NeedsRunning(w, d)
  }

  ghost predicate OneCondition(g: DeleteGraph) {
    forall d, n :: Waits(g, d, n) ==> g[d][n] == DelCondNotPendingNorRunning
  }

  /** The dependencies of each added workload are walked in any order. */
  method InsertIntoDeleteGraph(g: DeleteGraph, added: seq<WorkloadNamed>) returns (g': DeleteGraph)
    requires OneCondition(g)
    ensures Recorded(g, added, g') && OneCondition(g')
    ensures forall d, n :: Waits(g', d, n) <==>
              || Waits(g, d, n)
              || exists w :: w in added && NameOf(w) == n && d in w.workload.dependencies
                             && w.workload.dependencies[d] == AddCondRunning
  {
    g' := g;
    for i := 0 to |added|
      invariant Recorded(g, added[..i], g') && OneCondition(g')
    {
      ghost var before := g';
      var deps := added[i].workload.dependencies;
      var rest := deps.Keys;
      while rest != {}
        invariant rest <= deps.Keys && OneCondition(g')
        invariant forall d, n :: Waits(g', d, n) <==>
                    Waits(before, d, n) || (n == NameOf(added[i]) && d !in rest && NeedsRunning(added[i], d))
        decreases rest
      {
        var d :| d in rest;
        if deps[d] == AddCondRunning {
          g' := InsertCondition(g', d, NameOf(added[i]));
        }
        rest := rest - {d};
      }
      RecordedOneMore(g, added[..i], before, added[i], g');
      assert added[..i + 1] == added[..i] + [added[i]];
    }
    assert added[..|added|] == added;
  }

  lemma RecordedOneMore(g: DeleteGraph, added: seq<WorkloadNamed>, before: DeleteGraph, w: WorkloadNamed,
                        after: DeleteGraph)
    requires Recorded(g, added, before)
    requires forall d, n :: Waits(after, d, n) <==> Waits(before, d, n) || (n == NameOf(w) && NeedsRunning(w, d))
    ensures Recorded(g, added + [w], after)
  {
    forall d, n
      ensures Waits(after, d, n) <==>
              Waits(g, d, n) || exists v :: v in added + [w] && NameOf(v) == n && NeedsRunning(v, d)
    {
      assert w in added + [w];
      if v :| v in added && NameOf(v) == n && NeedsRunning(v, d) {
        assert v in added + [w];
      }
    }
  }

  function WithConditions(g: DeleteGraph, d: DeletedWorkload): DeletedWorkload {
    if DeletedName(d) in g then d.(dependencies := g[DeletedName(d)]) else d
  }

  method ApplyDeleteConditionsTo(g: DeleteGraph, deleted: seq<DeletedWorkload>) returns (r: seq<DeletedWorkload>)
    ensures |r| == |deleted| && forall i :: 0 <= i < |r| ==> r[i] == WithConditions(g, deleted[i])
  {
    r := deleted;
    for i := 0 to |deleted|
      invariant |r| == |deleted|
      invariant forall k :: 0 <= k < i ==> r[k] == WithConditions(g, deleted[k])
      invariant forall k :: i <= k < |deleted| ==> r[k] == deleted[k]
    {
      if DeletedName(r[i]) in g {
        r := r[i := r[i].(dependencies := g[DeletedName(r[i])])];
      }
    }
  }

  datatype GraphEvent = Stored(added: seq<WorkloadNamed>) | Gone(name: string)

  ghost predicate IsHistory(events: seq<GraphEvent>, graphs: seq<DeleteGraph>) {
    && |graphs| == |events| + 1 && graphs[0] == map[]
    && forall i :: 0 <= i < |events| ==>
         match events[i]
         case Stored(added) => Recorded(graphs[i], added, graphs[i + 1])
         case Gone(name) => graphs[i + 1] == graphs[i] - {name}
  }

  ghost predicate StoredAt(events: seq<GraphEvent>, k: int, d: string, n: string) {
    && 0 <= k < |events| && events[k].Stored?
    && (exists w :: w in events[k].added && NameOf(w) == n && NeedsRunning(w, d))
    && forall j :: k < j < |events| ==> events[j] != Gone(d)
  }

  ghost predicate EverStored(events: seq<GraphEvent>, d: string, n: string) {
    exists k :: StoredAt(events, k, d, n)
  }

  /** A deletion waits for exactly those recorded as needing the workload since it was last removed. */
  lemma {:induction false} DeleteGraphHistory(events: seq<GraphEvent>, graphs: seq<DeleteGraph>, d: string, n: string)
    requires IsHistory(events, graphs)
    ensures Waits(graphs[|events|], d, n) <==> EverStored(events, d, n)
  {
    if events != [] {
      var last := |events| - 1;
      var init := events[..last];
      var front := graphs[..last + 1];
      assert forall i :: 0 <= i < last ==> init[i] == events[i];
      assert forall i :: 0 <= i <= last ==> front[i] == graphs[i];
      DeleteGraphHistory(init, front, d, n);
      HistoryStep(events, graphs, d, n);
    }
  }

  lemma HistoryStep(events: seq<GraphEvent>, graphs: seq<DeleteGraph>, d: string, n: string)
    requires IsHistory(events, graphs) && events != []
    requires Waits(graphs[|events| - 1], d, n) <==> EverStored(events[..|events| - 1], d, n)
    ensures Waits(graphs[|events|], d, n) <==> EverStored(events, d, n)
  {
    var last := |events| - 1;
    var init := events[..last];
    assert graphs[last + 1] == graphs[|events|];
    forall k | 0 <= k < last
      ensures StoredAt(events, k, d, n) <==> StoredAt(init, k, d, n) && events[last] != Gone(d)
    {
      assert init[k] == events[k];
      if StoredAt(init, k, d, n) && events[last] != Gone(d) {
        forall j | k < j < |events|
          ensures events[j] != Gone(d)
        {
          assert j < last ==> init[j] == events[j];
        }
      }
    }
    match events[last]
    case Stored(added) =>
      assert StoredAt(events, last, d, n) <==> exists w :: w in added && NameOf(w) == n && NeedsRunning(w, d);
      if k :| StoredAt(init, k, d, n) {
        assert StoredAt(events, k, d, n);
      }
    case Gone(name) =>
      assert !StoredAt(events, last, d, n);
      if k :| StoredAt(init, k, d, n) {
        assert name != d ==> StoredAt(events, k, d, n);
      }
  }

  /** A dependent that outlives the removal of what it needs is no longer waited for. */
  lemma DependentForgotten(w: WorkloadNamed, v: WorkloadNamed, graphs: seq<DeleteGraph>)
    requires NeedsRunning(w, NameOf(v)) && NameOf(w) != NameOf(v)
    requires IsHistory([Stored([w]), Gone(NameOf(v)), Stored([v])], graphs)
    ensures Waits(graphs[1], NameOf(v), NameOf(w)) && !Waits(graphs[3], NameOf(v), NameOf(w))
  {
    var events := [Stored([w]), Gone(NameOf(v)), Stored([v])];
    assert events[0] == Stored([w]) && events[1] == Gone(NameOf(v)) && events[2] == Stored([v]);
    assert w in [w] && Recorded(graphs[0], [w], graphs[0 + 1]) && graphs[1 + 1] == graphs[1] - {NameOf(v)}
           && Recorded(graphs[2], [v], graphs[2 + 1]);
    assert Waits(graphs[0 + 1], NameOf(v), NameOf(w));
    assert !Waits(graphs[2], NameOf(v), NameOf(w));
    assert Waits(graphs[2 + 1], NameOf(v), NameOf(w)) <==>
      || Waits(graphs[2], NameOf(v), NameOf(w))
      || exists u :: u in [v] && NameOf(u) == NameOf(w) && NeedsRunning(u, NameOf(v));
  }

  // ---------- The server state ----------

  datatype UpdateResult =
    | Invalid
    | CycleInDependencies(workload: Name)
    | Unchanged
    | Changed(added: seq<WorkloadNamed>, deleted: seq<DeletedWorkload>)

  /** Every workload of the agent, each once. */
  ghost predicate ListsAgent(ws: seq<WorkloadNamed>, r: Rendered, agent: string) {
    && DistinctNames(ws)
    && (forall w :: w in ws ==> NameOf(w) in r && w == r[NameOf(w)] && w.instanceName.agentName == agent)
    && (forall n :: n in r && r[n].instanceName.agentName == agent ==> r[n] in ws)
  }

  class ServerState {
    var state: Desired
    var rendered: Rendered
    var deleteGraph: DeleteGraph

    constructor ()
      ensures Valid() && rendered == map[] && deleteGraph == map[] && Acyclic(GraphOf(state.workloads))
    {
      state, rendered, deleteGraph := Desired(map[], ""), map[], map[];
    }

    ghost predicate Valid()
      reads this
    {
      Renders(state, rendered) && OneCondition(deleteGraph)
    }

    /** The rendering of the new state is given; it may have failed or be malformed. */
    method Update(target: Desired, rendering: Option<Rendered>) returns (r: UpdateResult)
      requires Valid() && (rendering.Some? ==> Renders(target, rendering.value))
      modifies this
      ensures Valid()
      ensures r.Invalid? <==> rendering.None?
      ensures r.Invalid? || r.CycleInDependencies? ==>
                state == old(state) && rendered == old(rendered) && deleteGraph == old(deleteGraph)
      ensures r.Unchanged? ==>
                state == target && rendered == old(rendered) == rendering.value && deleteGraph == old(deleteGraph)
      ensures rendering.Some? && rendering.value == old(rendered) ==> r.Unchanged?
      ensures r.Changed? ==>
                && state == target && rendered == rendering.value && Recorded(old(deleteGraph), r.added, deleteGraph)
                && var names := old(rendered).Keys + rendered.Keys;
                && AddedFor(old(rendered), rendered, names, r.added)
                && DeletedFor(old(rendered), rendered, names, r.deleted)
                && forall d :: d in r.deleted ==>
                     d.dependencies == if DeletedName(d) in deleteGraph then deleteGraph[DeletedName(d)] else map[]
      ensures r.CycleInDependencies? ==> OnCycle(GraphOf(target.workloads), r.workload)
      ensures rendering.Some? && Acyclic(GraphOf(old(state).workloads)) && NoLateShortcut(GraphOf(target.workloads)) ==>
                (r.CycleInDependencies? <==> !Acyclic(GraphOf(target.workloads)))
    {
      if rendering.None? {
        return Invalid;
      }
      var added, deleted := ExtractAddedAndDeletedWorkloads(rendered, rendering.value);
      SomeDifference(rendered, rendering.value, added, deleted);
      if added == [] && deleted == [] {
        NoDifference(rendered, rendering.value);
        SameGraph(state, target, rendered);
        state := target;
        return Unchanged;
      }
      hide Acyclic, AddedFor, DeletedFor, Renders, OneCondition, NoLateShortcut, OnCycle;
      var cycle := CheckChanges(target, rendering.value, added);
      if cycle.Some? {
        return CycleInDependencies(cycle.value);
      }
      var conditioned := Store(target, rendering.value, added, deleted);
      r := Changed(added, conditioned);
    }

    /** What the server tells an agent that says hello; the map is walked in any order. */
    method GetWorkloadsForAgent(agent: string) returns (ws: seq<WorkloadNamed>)
      requires Valid()
      ensures ListsAgent(ws, rendered, agent)
    {
      ws := [];
      var rest := rendered.Keys;
      while rest != {}
        invariant rest <= rendered.Keys && DistinctNames(ws)
        invariant forall w :: w in ws ==>
                    var n := NameOf(w);
                    n in rendered && n !in rest && w == rendered[n] && w.instanceName.agentName == agent
        invariant forall n :: n in rendered && n !in rest && rendered[n].instanceName.agentName == agent ==>
                    rendered[n] in ws
        decreases rest
      {
        var n :| n in rest;
        var w := rendered[n];
        if w.instanceName.agentName == agent {
          assert forall i :: 0 <= i < |ws| ==> ws[i] in ws;
          ws := ws + [w];
        }
        rest := rest - {n};
      }
    }

    method CheckChanges(target: Desired, newRendered: Rendered, added: seq<WorkloadNamed>) returns (cycle: Option<Name>)
      requires Valid() && Renders(target, newRendered)
      requires AddedFor(rendered, newRendered, rendered.Keys + newRendered.Keys, added)
      ensures cycle.Some? ==> OnCycle(GraphOf(target.workloads), cycle.value)
      ensures Acyclic(GraphOf(state.workloads)) && NoLateShortcut(GraphOf(target.workloads)) ==>
                (cycle.Some? <==> !Acyclic(GraphOf(target.workloads)))
    {
      hide Acyclic, AddedFor, NoLateShortcut, OnCycle, IsRun, IsStartOrder;
      StartsCoverChanges(state, rendered, target, newRendered, added);
      cycle := Dfs(DependenciesOf(target.workloads), Some(StartNodes(added)));
      CheckedBy(GraphOf(state.workloads), GraphOf(target.workloads), StartNodes(added), cycle);
    }

    method Store(target: Desired, newRendered: Rendered, added: seq<WorkloadNamed>, deleted: seq<DeletedWorkload>)
      returns (conditioned: seq<DeletedWorkload>)
      requires Valid() && Renders(target, newRendered) && forall d :: d in deleted ==> d.dependencies == map[]
      requires DeletedFor(rendered, newRendered, rendered.Keys + newRendered.Keys, deleted)
      modifies this
      ensures Valid() && state == target && rendered == newRendered && Recorded(old(deleteGraph), added, deleteGraph)
      ensures DeletedFor(old(rendered), rendered, old(rendered).Keys + rendered.Keys, conditioned)
      ensures forall d :: d in conditioned ==>
                d.dependencies == if DeletedName(d) in deleteGraph then deleteGraph[DeletedName(d)] else map[]
    {
      hide DeletedFor, OneCondition, Recorded, Renders;
      deleteGraph := InsertIntoDeleteGraph(deleteGraph, added);
      conditioned := ApplyDeleteConditionsTo(deleteGraph, deleted);
      ConditionsKeepDeleted(rendered, newRendered, deleteGraph, deleted, conditioned);
      assert forall i :: 0 <= i < |deleted| ==> deleted[i] in deleted;
      state, rendered := target, newRendered;
    }
  }

  lemma SameGraph(a: Desired, b: Desired, r: Rendered)
    requires Renders(a, r) && Renders(b, r)
    ensures GraphOf(a.workloads) == GraphOf(b.workloads)
  {
  }

  lemma CheckedBy(before: Graph, after: Graph, nodes: seq<Name>, cycle: Option<Name>)
    requires forall n :: n in after && after[n] != [] && n !in nodes ==> n in before && before[n] == after[n]
    requires exists starts, run :: IsStartOrder(after, Some(nodes), starts) && IsRun(after, starts, run, cycle)
    ensures cycle.Some? ==> OnCycle(after, cycle.value)
    ensures Acyclic(before) && NoLateShortcut(after) ==> (cycle.Some? <==> !Acyclic(after))
  {
    var starts, run :| IsStartOrder(after, Some(nodes), starts) && IsRun(after, starts, run, cycle);
    SameMembers(starts, nodes);
    hide Acyclic, NoLateShortcut, OnCycle, CycleFrom, IsRun, IsStartOrder;
    CheckResult(after, starts, run, cycle);
    if Acyclic(before) {
      IncrementalCheckIsComplete(before, after, starts);
    }
  }

  lemma ConditionsKeepDeleted(current: Rendered, target: Rendered, g: DeleteGraph, deleted: seq<DeletedWorkload>,
                              r: seq<DeletedWorkload>)
    requires DeletedFor(current, target, current.Keys + target.Keys, deleted)
    requires |r| == |deleted| && forall i :: 0 <= i < |r| ==> r[i] == WithConditions(g, deleted[i])
    ensures DeletedFor(current, target, current.Keys + target.Keys, r)
  {
    assert forall i :: 0 <= i < |r| ==> DeletedName(r[i]) == DeletedName(deleted[i]);
    forall d | d in r
      ensures exists e :: e in deleted && e.instanceName == d.instanceName
    {
      var i :| 0 <= i < |r| && r[i] == d;
      assert deleted[i] in deleted;
    }
    hide WithConditions, Differs;
    ConditionsKeepNames(deleted, r);
  }

  lemma ConditionsKeepNames(deleted: seq<DeletedWorkload>, r: seq<DeletedWorkload>)
    requires |r| == |deleted| && forall i :: 0 <= i < |r| ==> DeletedName(r[i]) == DeletedName(deleted[i])
    ensures DistinctDeleted(deleted) ==> DistinctDeleted(r)
    ensures forall n :: IsDeleted(deleted, n) ==> IsDeleted(r, n)
  {
    forall n | IsDeleted(deleted, n)
      ensures IsDeleted(r, n)
    {
      var i :| 0 <= i < |deleted| && DeletedName(deleted[i]) == n;
      assert DeletedName(r[i]) == n;
    }
  }
}
