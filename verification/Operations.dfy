/**
 Workload operations and what executing a list of them does to the workload map
 of an agent, whatever order they come in.
 */
module Operations {
  import opened Options
  import opened Sequences
  import opened Workloads

  /** A managed workload: what it was last told to run, nothing once its old version was only deleted. */
  datatype Managed = Managed(target: Option<WorkloadNamed>)

  type WorkloadMap = map<string, Managed>

  // ---------- The effect of operations ----------

  function Lookup(m: WorkloadMap, n: string): Option<Managed> {
    if n in m then Some(m[n]) else None
  }

  function Put(m: WorkloadMap, n: string, v: Option<Managed>): WorkloadMap {
    if v.Some? then m[n := v.value] else m - {n}
  }

  /** What an operation leaves under its own name. */
  function Effect(op: WorkloadOperation, before: Option<Managed>): Option<Managed> {
    match op
    case Create(r) => Some(Managed(Some(r.workloadNamed)))
    case Update(w, _) => Some(Managed(Some(w)))
    case UpdateDeleteOnly(_) => if before.Some? then Some(Managed(None)) else None
    case Delete(_) => None
  }

  function Apply(m: WorkloadMap, op: WorkloadOperation): WorkloadMap {
    Put(m, OperationName(op), Effect(op, Lookup(m, OperationName(op))))
  }

  function Execute(m: WorkloadMap, ops: seq<WorkloadOperation>): WorkloadMap {
    if ops == [] then m else Apply(Execute(m, ops[..|ops| - 1]), ops[|ops| - 1])
  }

  /** Two operations on one workload only ever both delete it. */
  predicate Compatible(ops: seq<WorkloadOperation>) {
    forall i, j :: 0 <= i < j < |ops| && OperationName(ops[i]) == OperationName(ops[j]) ==>
      ops[i].Delete? && ops[j].Delete?
  }

  lemma {:induction false} ExecuteElsewhere(m: WorkloadMap, ops: seq<WorkloadOperation>, n: string)
    requires forall i :: 0 <= i < |ops| ==> OperationName(ops[i]) != n
    ensures Lookup(Execute(m, ops), n) == Lookup(m, n)
  {
    if ops != [] {
      ExecuteElsewhere(m, ops[..|ops| - 1], n);
    }
  }

  lemma {:induction false} ExecuteAt(m: WorkloadMap, ops: seq<WorkloadOperation>, k: nat)
    requires Compatible(ops) && k < |ops|
    ensures var n := OperationName(ops[k]); Lookup(Execute(m, ops), n) == Effect(ops[k], Lookup(m, n))
  {
    var n, last := OperationName(ops[k]), |ops| - 1;
    var init := ops[..last];
    if k < last {
      assert init[k] == ops[k];
      ExecuteAt(m, init, k);
      assert OperationName(ops[last]) == n ==> ops[k].Delete? && ops[last].Delete?;
    } else if i :| 0 <= i < last && OperationName(ops[i]) == n {
      assert ops[i].Delete? && ops[last].Delete?;
    } else {
      ExecuteElsewhere(m, init, n);
    }
  }

  lemma SameLookups(a: WorkloadMap, b: WorkloadMap)
    requires forall n :: Lookup(a, n) == Lookup(b, n)
    ensures a == b
  {
    forall n
      ensures n in a <==> n in b
      ensures n in a ==> a[n] == b[n]
    {
      assert Lookup(a, n) == Lookup(b, n);
    }
  }

  lemma PermutedCompatible(ops: seq<WorkloadOperation>, ops': seq<WorkloadOperation>)
    requires Compatible(ops) && multiset(ops) == multiset(ops')
    ensures Compatible(ops')
  {
    forall i, j | 0 <= i < j < |ops'| && OperationName(ops'[i]) == OperationName(ops'[j])
      ensures ops'[i].Delete? && ops'[j].Delete?
    {
      var a, b := ops'[i], ops'[j];
      assert a in multiset(ops) && b in multiset(ops);
      if a == b {
        TwiceInSequence(ops', i, j);
        var k, l := TwoPlaces(ops, a);
      } else {
        var k :| 0 <= k < |ops| && ops[k] == a;
        var l :| 0 <= l < |ops| && ops[l] == b;
        assert k < l || l < k;
      }
    }
  }

  lemma TwiceInSequence<T>(s: seq<T>, i: nat, j: nat)
    requires i < j < |s| && s[i] == s[j]
    ensures multiset(s)[s[i]] >= 2
  {
    assert s == s[..i] + [s[i]] + s[i + 1..j] + [s[j]] + s[j + 1..];
  }

  lemma {:induction false} TwoPlaces<T>(s: seq<T>, x: T) returns (k: nat, l: nat)
    requires multiset(s)[x] >= 2
    ensures k < l < |s| && s[k] == x && s[l] == x
  {
    assert s == [s[0]] + s[1..];
    if s[0] == x {
      assert x in multiset(s[1..]);
      l :| 0 <= l < |s| - 1 && s[1..][l] == x;
      k, l := 0, l + 1;
    } else {
      k, l := TwoPlaces(s[1..], x);
      k, l := k + 1, l + 1;
    }
  }

  /** Compatible operations may be executed in any order. */
  lemma OrderDoesNotMatter(m: WorkloadMap, ops: seq<WorkloadOperation>, ops': seq<WorkloadOperation>)
    requires Compatible(ops) && multiset(ops) == multiset(ops')
    ensures Execute(m, ops) == Execute(m, ops')
  {
    PermutedCompatible(ops, ops');
    forall n
      ensures Lookup(Execute(m, ops), n) == Lookup(Execute(m, ops'), n)
    {
      if k :| 0 <= k < |ops| && OperationName(ops[k]) == n {
        assert ops[k] in multiset(ops');
        var l :| 0 <= l < |ops'| && ops'[l] == ops[k];
        ExecuteAt(m, ops, k);
        ExecuteAt(m, ops', l);
      } else {
        forall l | 0 <= l < |ops'|
          ensures OperationName(ops'[l]) != n
        {
          assert ops'[l] in multiset(ops);
        }
        ExecuteElsewhere(m, ops, n);
        ExecuteElsewhere(m, ops', n);
      }
    }
    SameLookups(Execute(m, ops), Execute(m, ops'));
  }

  // ---------- From added and deleted workloads to operations ----------

  predicate NoneLater(added: seq<ReusableWorkload>, i: nat)
    requires i < |added|
  {
    forall j :: i < j < |added| ==> ReusableName(added[j]) != ReusableName(added[i])
  }

  /** The added workloads by name; a later one replaces an earlier one. */
  function AddedMap(added: seq<ReusableWorkload>): (r: map<string, ReusableWorkload>)
    ensures forall n :: n in r ==> ReusableName(r[n]) == n && r[n] in added
    ensures forall i :: 0 <= i < |added| ==> ReusableName(added[i]) in r
  {
    if added == [] then map[]
    else AddedMap(added[..|added| - 1])[ReusableName(added[|added| - 1]) := added[|added| - 1]]
  }

  lemma {:induction false} LastAddedCounts(added: seq<ReusableWorkload>, i: nat)
    requires i < |added| && NoneLater(added, i)
    ensures AddedMap(added)[ReusableName(added[i])] == added[i]
  {
    var last := |added| - 1;
    if i < last {
      assert NoneLater(added[..last], i);
      LastAddedCounts(added[..last], i);
    }
  }

  predicate WellNamed(left: map<string, ReusableWorkload>) {
    forall n :: n in left ==> ReusableName(left[n]) == n
  }

  /** The operations for the deleted workloads: an update when the name was also added. */
  function DeletedOps(left: map<string, ReusableWorkload>, deleted: seq<DeletedWorkload>): (r: seq<WorkloadOperation>)
    ensures |r| == |deleted|
  {
    if deleted == [] then []
    else
      var n := DeletedName(deleted[0]);
      (if n in left then [Update(left[n].workloadNamed, deleted[0])] else [Delete(deleted[0])])
      + DeletedOps(left - {n}, deleted[1..])
  }

  /** The added workloads for which nothing was deleted. */
  function StillAdded(left: map<string, ReusableWorkload>, deleted: seq<DeletedWorkload>): map<string,
                      ReusableWorkload> {
    map n | n in left && (forall i :: 0 <= i < |deleted| ==> DeletedName(deleted[i]) != n) :: left[n]
  }

  function AddOp(known: set<string>, r: ReusableWorkload): WorkloadOperation {
    if ReusableName(r) in known
    then Update(r.workloadNamed, DeletedWorkload(r.workloadNamed.instanceName, map[]))
    else Create(r)
  }

  function AddOps(known: set<string>, left: map<string, ReusableWorkload>): map<string, WorkloadOperation> {
    map n | n in left :: AddOp(known, left[n])
  }

  /** A hash map drained into a list: each value once, in any order. */
  ghost predicate Lists(ops: seq<WorkloadOperation>, named: map<string, WorkloadOperation>) {
    && (forall op :: op in ops ==> OperationName(op) in named && named[OperationName(op)] == op)
    && (forall n :: n in named ==> named[n] in ops)
    && (forall i, j :: 0 <= i < j < |ops| ==> OperationName(ops[i]) != OperationName(ops[j]))
  }

  ghost predicate IsTransform(known: set<string>, added: seq<ReusableWorkload>, deleted: seq<DeletedWorkload>,
                              ops: seq<WorkloadOperation>)
  {
    && |deleted| <= |ops|
    && ops[..|deleted|] == DeletedOps(AddedMap(added), deleted)
    && Lists(ops[|deleted|..], AddOps(known, StillAdded(AddedMap(added), deleted)))
  }

  lemma StillAddedSnoc(left: map<string, ReusableWorkload>, deleted: seq<DeletedWorkload>, d: DeletedWorkload)
    ensures StillAdded(left, deleted + [d]) == StillAdded(left, deleted) - {DeletedName(d)}
  {
    var a, b := StillAdded(left, deleted + [d]), StillAdded(left, deleted) - {DeletedName(d)};
    forall n | n in left
      ensures n in a <==> n in b
    {
      assert (deleted + [d])[|deleted|] == d;
      assert forall i :: 0 <= i < |deleted| ==> (deleted + [d])[i] == deleted[i];
    }
  }

  /** Updates for what is both deleted and added, deletions first, then the rest in hash map order. */
  method TransformIntoWorkloadOperations(workloads: WorkloadMap, added: seq<ReusableWorkload>,
                                         deleted: seq<DeletedWorkload>)
    returns (ops: seq<WorkloadOperation>)
    ensures IsTransform(workloads.Keys, added, deleted, ops)
  {
    ops := [];
    var left := CollectAdded(added);
    ghost var all := left;
    assert StillAdded(all, []) == all && deleted[..0] == [] && deleted[0..] == deleted;
    for i := 0 to |deleted|
      invariant |ops| == i && ops + DeletedOps(left, deleted[i..]) == DeletedOps(all, deleted)
      invariant left == StillAdded(all, deleted[..i])
    {
      var n := DeletedName(deleted[i]);
      assert deleted[i..][1..] == deleted[i + 1..] && deleted[..i + 1] == deleted[..i] + [deleted[i]];
      StillAddedSnoc(all, deleted[..i], deleted[i]);
      ghost var rest := DeletedOps(left - {n}, deleted[i + 1..]);
      if n in left {
        ConcatAssociates(ops, [Update(left[n].workloadNamed, deleted[i])], rest);
        ops := ops + [Update(left[n].workloadNamed, deleted[i])];
      } else {
        ConcatAssociates(ops, [Delete(deleted[i])], rest);
        ops := ops + [Delete(deleted[i])];
      }
      left := left - {n};
    }
    hide StillAdded, AddOps, AddedMap, DeletedOps, Lists;
    assert deleted[..|deleted|] == deleted && deleted[|deleted|..] == [];
    var addOps := DrainAdded(workloads, left);
    assert (ops + addOps)[..|deleted|] == ops && (ops + addOps)[|deleted|..] == addOps;
    ops := ops + addOps;
  }

  method CollectAdded(added: seq<ReusableWorkload>) returns (left: map<string, ReusableWorkload>)
    ensures left == AddedMap(added)
  {
    left := map[];
    for i := 0 to |added|
      invariant left == AddedMap(added[..i])
    {
      assert added[..i + 1][..i] == added[..i];
      left := left[ReusableName(added[i]) := added[i]];
    }
    assert added[..|added|] == added;
  }

  method DrainAdded(workloads: WorkloadMap, left: map<string, ReusableWorkload>) returns (ops: seq<WorkloadOperation>)
    requires WellNamed(left)
    ensures Lists(ops, AddOps(workloads.Keys, left))
  {
    ops := [];
    var rest := left;
    ghost var named := AddOps(workloads.Keys, left);
    while rest.Keys != {}
      invariant rest.Keys <= left.Keys && forall n :: n in rest ==> rest[n] == left[n]
      invariant Lists(ops, named - rest.Keys)
      decreases rest.Keys
    {
      var n :| n in rest.Keys;
      var r := rest[n];
      ghost var done := ops;
      if ReusableName(r) in workloads {
        ops := ops + [Update(r.workloadNamed, DeletedWorkload(r.workloadNamed.instanceName, map[]))];
      } else {
        ops := ops + [Create(r)];
      }
      ghost var named1 := named - rest.Keys;
      rest := rest - {n};
      ListsOneMore(done, named1, named[n]);
      assert named - rest.Keys == named1[n := named[n]];
    }
    assert named - {} == named;
  }

  lemma ListsOneMore(ops: seq<WorkloadOperation>, named: map<string, WorkloadOperation>, op: WorkloadOperation)
    requires Lists(ops, named) && OperationName(op) !in named
    ensures Lists(ops + [op], named[OperationName(op) := op])
  {
    forall i | 0 <= i < |ops|
      ensures OperationName(ops[i]) in named
    {
      assert ops[i] in ops;
    }
  }

  // ---------- What an update achieves ----------

  predicate IsDeleted(deleted: seq<DeletedWorkload>, n: string) {
    exists i :: 0 <= i < |deleted| && DeletedName(deleted[i]) == n
  }

  /** The map the sender of an update means: deleted names go, added names run their new version. */
  function FinalMap(m: WorkloadMap, added: seq<ReusableWorkload>, deleted: seq<DeletedWorkload>): WorkloadMap {
    var a := AddedMap(added);
    map n | n in m.Keys + a.Keys && (n in a || !IsDeleted(deleted, n)) ::
      if n in a then Managed(Some(a[n].workloadNamed)) else m[n]
  }

  /** No added workload is deleted twice in the same message. */
  predicate ReplacedOnce(added: seq<ReusableWorkload>, deleted: seq<DeletedWorkload>) {
    forall i, j :: 0 <= i < j < |deleted| && DeletedName(deleted[i]) == DeletedName(deleted[j]) ==>
      DeletedName(deleted[i]) !in AddedMap(added)
  }

  lemma {:induction false} DeletedOpsAt(left: map<string, ReusableWorkload>, deleted: seq<DeletedWorkload>, i: nat)
    requires i < |deleted| && WellNamed(left)
    ensures var n, op := DeletedName(deleted[i]), DeletedOps(left, deleted)[i];
            && OperationName(op) == n
            && if n in left && !IsDeleted(deleted[..i], n) then op == Update(left[n].workloadNamed, deleted[i])
               else op == Delete(deleted[i])
  {
    var n := DeletedName(deleted[i]);
    if i > 0 {
      var d := DeletedName(deleted[0]);
      DeletedOpsAt(left - {d}, deleted[1..], i - 1);
      assert deleted[1..][i - 1] == deleted[i];
      assert IsDeleted(deleted[..i], n) <==> d == n || IsDeleted(deleted[1..][..i - 1], n) by {
        assert deleted[..i] == [deleted[0]] + deleted[1..][..i - 1];
        IsDeletedCons(deleted[0], deleted[1..][..i - 1], n);
      }
    }
  }

  lemma IsDeletedCons(d: DeletedWorkload, ds: seq<DeletedWorkload>, n: string)
    ensures IsDeleted([d] + ds, n) <==> DeletedName(d) == n || IsDeleted(ds, n)
  {
    assert ([d] + ds)[0] == d;
    if i :| 0 <= i < |ds| && DeletedName(ds[i]) == n {
      assert ([d] + ds)[i + 1] == ds[i];
    }
  }

  lemma AddOpsAt(known: set<string>, added: seq<ReusableWorkload>, deleted: seq<DeletedWorkload>,
                 ops: seq<WorkloadOperation>, i: nat)
    requires IsTransform(known, added, deleted, ops) && |deleted| <= i < |ops|
    ensures var n := OperationName(ops[i]);
            n in AddedMap(added) && !IsDeleted(deleted, n) && ops[i] == AddOp(known, AddedMap(added)[n])
  {
    assert ops[|deleted|..][i - |deleted|] == ops[i] && ops[i] in ops[|deleted|..];
  }

  /** The emitted operations never work against each other exactly when nothing is replaced twice. */
  lemma TransformCompatible(known: set<string>, added: seq<ReusableWorkload>, deleted: seq<DeletedWorkload>,
                            ops: seq<WorkloadOperation>)
    requires IsTransform(known, added, deleted, ops) && ReplacedOnce(added, deleted)
    ensures Compatible(ops)
  {
    var head, tail := ops[..|deleted|], ops[|deleted|..];
    assert forall k :: 0 <= k < |deleted| ==> ops[k] == head[k];
    assert forall k :: |deleted| <= k < |ops| ==> ops[k] == tail[k - |deleted|];
    forall i, j | 0 <= i < j < |ops| && OperationName(ops[i]) == OperationName(ops[j])
      ensures ops[i].Delete? && ops[j].Delete?
    {
      if i < |deleted| {
        DeletedOpsAt(AddedMap(added), deleted, i);
        if j < |deleted| {
          DeletedOpsAt(AddedMap(added), deleted, j);
        } else {
          AddOpsAt(known, added, deleted, ops, j);
        }
      }
    }
  }

  predicate OnePerName(ops: seq<WorkloadOperation>) {
    forall i, j :: 0 <= i < j < |ops| ==> OperationName(ops[i]) != OperationName(ops[j])
  }

  predicate DistinctDeleted(deleted: seq<DeletedWorkload>) {
    forall i, j :: 0 <= i < j < |deleted| ==> DeletedName(deleted[i]) != DeletedName(deleted[j])
  }

  lemma DeletedOpName(known: set<string>, added: seq<ReusableWorkload>, deleted: seq<DeletedWorkload>,
                      ops: seq<WorkloadOperation>, i: nat)
    requires IsTransform(known, added, deleted, ops) && i < |deleted|
    ensures OperationName(ops[i]) == DeletedName(deleted[i])
  {
    hide AddedMap, Lists, StillAdded, DeletedOps;
    DeletedOpsAt(AddedMap(added), deleted, i);
    assert ops[i] == ops[..|deleted|][i];
  }

  lemma AddOpsApart(known: set<string>, added: seq<ReusableWorkload>, deleted: seq<DeletedWorkload>,
                    ops: seq<WorkloadOperation>, i: nat, j: nat)
    requires IsTransform(known, added, deleted, ops) && |deleted| <= i < j < |ops|
    ensures OperationName(ops[i]) != OperationName(ops[j])
  {
    hide AddedMap, StillAdded, DeletedOps, AddOps;
    var tail := ops[|deleted|..];
    assert tail[i - |deleted|] == ops[i] && tail[j - |deleted|] == ops[j];
  }

  lemma DeletedApartFromAdded(known: set<string>, added: seq<ReusableWorkload>, deleted: seq<DeletedWorkload>,
                              ops: seq<WorkloadOperation>, i: nat, j: nat)
    requires IsTransform(known, added, deleted, ops) && i < |deleted| <= j < |ops|
    ensures OperationName(ops[i]) != OperationName(ops[j])
  {
    DeletedOpName(known, added, deleted, ops, i);
    AddOpsAt(known, added, deleted, ops, j);
    hide IsTransform, AddedMap;
  }

  /** At most one operation per name, exactly when no name is deleted twice. */
  lemma TransformOnePerNameIff(known: set<string>, added: seq<ReusableWorkload>, deleted: seq<DeletedWorkload>,
                               ops: seq<WorkloadOperation>)
    requires IsTransform(known, added, deleted, ops)
    ensures OnePerName(ops) <==> DistinctDeleted(deleted)
  {
    assert |deleted| <= |ops|;
    hide IsTransform;
    forall i | 0 <= i < |deleted|
      ensures OperationName(ops[i]) == DeletedName(deleted[i])
    {
      DeletedOpName(known, added, deleted, ops, i);
    }
    if DistinctDeleted(deleted) {
      forall i, j | 0 <= i < j < |ops|
        ensures OperationName(ops[i]) != OperationName(ops[j])
      {
        if i >= |deleted| {
          AddOpsApart(known, added, deleted, ops, i, j);
        } else if j >= |deleted| {
          DeletedApartFromAdded(known, added, deleted, ops, i, j);
        }
      }
    }
  }

  /** Some operation for the name settles it as intended. */
  lemma TransformCovers(known: set<string>, added: seq<ReusableWorkload>, deleted: seq<DeletedWorkload>,
                        ops: seq<WorkloadOperation>, n: string) returns (k: nat)
    requires IsTransform(known, added, deleted, ops) && (n in AddedMap(added) || IsDeleted(deleted, n))
    ensures k < |ops| && OperationName(ops[k]) == n
    ensures n in AddedMap(added) ==>
              forall v :: Effect(ops[k], v) == Some(Managed(Some(AddedMap(added)[n].workloadNamed)))
    ensures n !in AddedMap(added) ==> ops[k].Delete?
  {
    var a := AddedMap(added);
    if IsDeleted(deleted, n) {
      k := FirstDeleted(deleted, n);
      DeletedOpsAt(a, deleted, k);
      assert ops[k] == ops[..|deleted|][k];
    } else {
      k := AddOpsCover(known, added, deleted, ops, n);
    }
  }

  lemma AddOpsCover(known: set<string>, added: seq<ReusableWorkload>, deleted: seq<DeletedWorkload>,
                    ops: seq<WorkloadOperation>, n: string) returns (k: nat)
    requires IsTransform(known, added, deleted, ops) && n in AddedMap(added) && !IsDeleted(deleted, n)
    ensures |deleted| <= k < |ops| && ops[k] == AddOp(known, AddedMap(added)[n])
  {
    var left, tail := StillAdded(AddedMap(added), deleted), ops[|deleted|..];
    assert n in left && AddOps(known, left)[n] in tail;
    var i :| 0 <= i < |tail| && tail[i] == AddOps(known, left)[n];
    k := i + |deleted|;
  }

  lemma {:induction false} FirstDeleted(deleted: seq<DeletedWorkload>, n: string) returns (k: nat)
    requires IsDeleted(deleted, n)
    ensures k < |deleted| && DeletedName(deleted[k]) == n && !IsDeleted(deleted[..k], n)
  {
    if DeletedName(deleted[0]) == n {
      k := 0;
    } else {
      assert deleted == [deleted[0]] + deleted[1..];
      IsDeletedCons(deleted[0], deleted[1..], n);
      k := FirstDeleted(deleted[1..], n);
      assert deleted[..k + 1] == [deleted[0]] + deleted[1..][..k];
      IsDeletedCons(deleted[0], deleted[1..][..k], n);
      k := k + 1;
    }
  }

  /** Executed in any order, the operations of an update give the map its sender means. */
  lemma UpdateReachesFinalMap(m: WorkloadMap, known: set<string>, added: seq<ReusableWorkload>,
                              deleted: seq<DeletedWorkload>, ops: seq<WorkloadOperation>, ops': seq<WorkloadOperation>)
    requires IsTransform(known, added, deleted, ops) && ReplacedOnce(added, deleted)
    requires multiset(ops') == multiset(ops)
    ensures Execute(m, ops') == FinalMap(m, added, deleted)
  {
    TransformCompatible(known, added, deleted, ops);
    forall n
      ensures Lookup(Execute(m, ops), n) == Lookup(FinalMap(m, added, deleted), n)
    {
      if n in AddedMap(added) || IsDeleted(deleted, n) {
        var k := TransformCovers(known, added, deleted, ops, n);
        ExecuteAt(m, ops, k);
      } else {
        forall i | 0 <= i < |ops|
          ensures OperationName(ops[i]) != n
        {
          if i < |deleted| {
            DeletedOpsAt(AddedMap(added), deleted, i);
            assert ops[i] == ops[..|deleted|][i];
          } else {
            AddOpsAt(known, added, deleted, ops, i);
          }
        }
        ExecuteElsewhere(m, ops, n);
      }
    }
    SameLookups(Execute(m, ops), FinalMap(m, added, deleted));
    OrderDoesNotMatter(m, ops, ops');
  }

  lemma {:induction false} LastDeleteWins(m: WorkloadMap, ops: seq<WorkloadOperation>, k: nat)
    requires k < |ops| && ops[k].Delete?
    requires forall i :: k < i < |ops| && OperationName(ops[i]) == OperationName(ops[k]) ==> ops[i].Delete?
    ensures Lookup(Execute(m, ops), OperationName(ops[k])) == None
  {
    if k < |ops| - 1 {
      var init := ops[..|ops| - 1];
      assert init[k] == ops[k];
      LastDeleteWins(m, init, k);
    }
  }

  /**
   The update is carried out as meant, as emitted and in any other order, if and only
   if no added workload is deleted twice in it: the second deletion would take away
   the version just started.
   */
  lemma UpdateReachesFinalMapIff(m: WorkloadMap, known: set<string>, added: seq<ReusableWorkload>,
                                 deleted: seq<DeletedWorkload>, ops: seq<WorkloadOperation>)
    requires IsTransform(known, added, deleted, ops)
    ensures Execute(m, ops) == FinalMap(m, added, deleted) <==> ReplacedOnce(added, deleted)
    ensures ReplacedOnce(added, deleted) <==>
            forall ops' :: multiset(ops') == multiset(ops) ==> Execute(m, ops') == FinalMap(m, added, deleted)
  {
    if ReplacedOnce(added, deleted) {
      forall ops' | multiset(ops') == multiset(ops)
        ensures Execute(m, ops') == FinalMap(m, added, deleted)
      {
        UpdateReachesFinalMap(m, known, added, deleted, ops, ops');
      }
      UpdateReachesFinalMap(m, known, added, deleted, ops, ops);
    } else {
      var i, j :| 0 <= i < j < |deleted| && DeletedName(deleted[i]) == DeletedName(deleted[j])
                  && DeletedName(deleted[i]) in AddedMap(added);
      var n := DeletedName(deleted[i]);
      forall k | j <= k < |ops| && OperationName(ops[k]) == n
        ensures ops[k].Delete?
      {
        if k < |deleted| {
          DeletedOpsAt(AddedMap(added), deleted, k);
          assert ops[k] == ops[..|deleted|][k] && deleted[..k][i] == deleted[i];
        } else {
          AddOpsAt(known, added, deleted, ops, k);
        }
      }
      DeletedOpsAt(AddedMap(added), deleted, j);
      assert ops[j] == ops[..|deleted|][j];
      LastDeleteWins(m, ops, j);
      assert Lookup(FinalMap(m, added, deleted), n).Some?;
    }
  }

  /** When every deleted workload is also added, and only once, nothing is merely deleted. */
  lemma OnlyReplaced(known: set<string>, added: seq<ReusableWorkload>, deleted: seq<DeletedWorkload>,
                     ops: seq<WorkloadOperation>)
    requires IsTransform(known, added, deleted, ops) && DistinctDeleted(deleted)
    requires forall i :: 0 <= i < |deleted| ==> DeletedName(deleted[i]) in AddedMap(added)
    ensures forall i :: 0 <= i < |deleted| ==> ops[i].Update? && ops[i].oldWorkload == deleted[i]
    ensures forall i :: 0 <= i < |ops| ==> !ops[i].Delete?
  {
    forall i | 0 <= i < |deleted|
      ensures ops[i].Update? && ops[i].oldWorkload == deleted[i]
    {
      DeletedOpsAt(AddedMap(added), deleted, i);
      assert ops[i] == ops[..|deleted|][i];
    }
    forall i | |deleted| <= i < |ops|
      ensures !ops[i].Delete?
    {
      AddOpsAt(known, added, deleted, ops, i);
    }
  }

  // ---------- Operations on one workload ----------

  /** The operations on one workload, in order. */
  function OperationsOn(ops: seq<WorkloadOperation>, n: string): seq<WorkloadOperation> {
    if ops == [] then []
    else
      var last := ops[|ops| - 1];
      OperationsOn(ops[..|ops| - 1], n) + (if OperationName(last) == n then [last] else [])
  }

  lemma {:induction false} OperationsOnConcat(a: seq<WorkloadOperation>, b: seq<WorkloadOperation>, n: string)
    ensures OperationsOn(a + b, n) == OperationsOn(a, n) + OperationsOn(b, n)
  {
    if b == [] {
      assert a + b == a;
    } else {
      var init, last := b[..|b| - 1], b[|b| - 1];
      OperationsOnConcat(a, init, n);
      assert (a + b)[..|a + b| - 1] == a + init && (a + b)[|a + b| - 1] == last;
      ConcatAssociates(OperationsOn(a, n), OperationsOn(init, n), if OperationName(last) == n then [last] else []);
    }
  }

  lemma {:induction false} NoOperationsOn(ops: seq<WorkloadOperation>, n: string)
    requires forall op :: op in ops ==> OperationName(op) != n
    ensures OperationsOn(ops, n) == []
  {
    if ops != [] {
      NoOperationsOn(ops[..|ops| - 1], n);
    }
  }

  lemma {:induction false} OnlyOperationOn(ops: seq<WorkloadOperation>, k: nat)
    requires k < |ops| && forall i :: 0 <= i < |ops| && i != k ==> OperationName(ops[i]) != OperationName(ops[k])
    ensures OperationsOn(ops, OperationName(ops[k])) == [ops[k]]
  {
    var last := |ops| - 1;
    if k < last {
      OnlyOperationOn(ops[..last], k);
    } else {
      NoOperationsOn(ops[..last], OperationName(ops[k]));
    }
  }

  lemma ListedOn(ops: seq<WorkloadOperation>, named: map<string, WorkloadOperation>, n: string)
    requires Lists(ops, named) && (n in named ==> OperationName(named[n]) == n)
    ensures OperationsOn(ops, n) == if n in named then [named[n]] else []
  {
    hide OperationsOn;
    if n !in named {
      NoOperationsOn(ops, n);
    } else {
      assert named[n] in ops;
      var k :| 0 <= k < |ops| && ops[k] == named[n];
      forall i | 0 <= i < |ops| && i != k
        ensures OperationName(ops[i]) != n
      {
        assert i < k || k < i;
      }
      OnlyOperationOn(ops, k);
    }
  }

  lemma OneOperationOn(ops: seq<WorkloadOperation>, op: WorkloadOperation, n: string)
    ensures OperationsOn(ops + [op], n) == OperationsOn(ops, n) + (if OperationName(op) == n then [op] else [])
  {
    assert (ops + [op])[..|ops|] == ops;
  }

  /** What the only operation on a workload does to it. */
  lemma HappensAt(m: WorkloadMap, ops: seq<WorkloadOperation>, n: string, op: WorkloadOperation)
    requires OperationsOn(ops, n) == [op]
    ensures OperationName(op) == n
    ensures Lookup(Execute(m, ops), n) ==
            match op
            case Create(r) => Some(Managed(Some(r.workloadNamed)))
            case Update(w, _) => Some(Managed(Some(w)))
            case UpdateDeleteOnly(_) => if n in m then Some(Managed(None)) else None
            case Delete(_) => None
  {
    ExecuteIsLocal(m, ops, n);
    assert [op][..0] == [];
    assert Execute(m, [op]) == Apply(Execute(m, []), op);
    OperationsOnName(ops, n);
    assert op in OperationsOn(ops, n);
  }

  lemma {:induction false} OperationsOnName(ops: seq<WorkloadOperation>, n: string)
    ensures forall op :: op in OperationsOn(ops, n) ==> op in ops && OperationName(op) == n
  {
    if ops != [] {
      OperationsOnName(ops[..|ops| - 1], n);
    }
  }

  lemma {:induction false} ExecuteIsLocal(m: WorkloadMap, ops: seq<WorkloadOperation>, n: string)
    ensures Lookup(Execute(m, ops), n) == Lookup(Execute(m, OperationsOn(ops, n)), n)
  {
    if ops != [] {
      var init, last := ops[..|ops| - 1], ops[|ops| - 1];
      ExecuteIsLocal(m, init, n);
      if OperationName(last) == n {
        var mine := OperationsOn(init, n);
        assert (mine + [last])[..|mine|] == mine;
      } else {
        assert OperationsOn(ops, n) == OperationsOn(init, n);
      }
    }
  }

  /**
   What a message is turned into, workload by workload: an update to the version added
   last if it is also deleted or already known, a creation if it is new, a deletion if
   it is only deleted, and nothing otherwise.
   */
  lemma TransformAt(known: set<string>, added: seq<ReusableWorkload>, deleted: seq<DeletedWorkload>,
                    ops: seq<WorkloadOperation>, n: string)
    requires IsTransform(known, added, deleted, ops) && DistinctDeleted(deleted)
    ensures forall i :: 0 <= i < |added| && ReusableName(added[i]) == n && NoneLater(added, i) ==>
              && (forall k :: 0 <= k < |deleted| && DeletedName(deleted[k]) == n ==>
                  OperationsOn(ops, n) == [Update(added[i].workloadNamed, deleted[k])])
              && (!IsDeleted(deleted, n) ==>
                  var w := added[i].workloadNamed;
                  OperationsOn(ops, n) ==
                  if n in known then [Update(w, DeletedWorkload(w.instanceName, map[]))] else [Create(added[i])])
    ensures (forall i :: 0 <= i < |added| ==> ReusableName(added[i]) != n) ==>
              && (forall k :: 0 <= k < |deleted| && DeletedName(deleted[k]) == n ==>
                  OperationsOn(ops, n) == [Delete(deleted[k])])
              && (!IsDeleted(deleted, n) ==> OperationsOn(ops, n) == [])
  {
    TransformOnePerNameIff(known, added, deleted, ops);
    forall k | 0 <= k < |deleted| && DeletedName(deleted[k]) == n
      ensures OperationsOn(ops, n) ==
              if n in AddedMap(added) then [Update(AddedMap(added)[n].workloadNamed, deleted[k])]
              else [Delete(deleted[k])]
    {
      DeletedAt(known, added, deleted, ops, k);
    }
    if !IsDeleted(deleted, n) {
      AddedAt(known, added, deleted, ops, n);
    }
    forall i | 0 <= i < |added| && NoneLater(added, i)
      ensures AddedMap(added)[ReusableName(added[i])] == added[i]
    {
      LastAddedCounts(added, i);
    }
    hide IsTransform, OperationsOn, OnePerName, DistinctDeleted;
  }

  lemma DeletedAt(known: set<string>, added: seq<ReusableWorkload>, deleted: seq<DeletedWorkload>,
                  ops: seq<WorkloadOperation>, k: nat)
    requires IsTransform(known, added, deleted, ops) && DistinctDeleted(deleted) && OnePerName(ops) && k < |deleted|
    ensures var n := DeletedName(deleted[k]);
            OperationsOn(ops, n) == if n in AddedMap(added)
                                    then [Update(AddedMap(added)[n].workloadNamed, deleted[k])]
                                    else [Delete(deleted[k])]
  {
    hide AddedMap, Lists, StillAdded, DeletedOps, AddOps, OperationsOn;
    DeletedOpsAt(AddedMap(added), deleted, k);
    assert ops[k] == ops[..|deleted|][k];
    DeletedOpName(known, added, deleted, ops, k);
    OnlyOperationOn(ops, k);
  }

  lemma AddedAt(known: set<string>, added: seq<ReusableWorkload>, deleted: seq<DeletedWorkload>,
                ops: seq<WorkloadOperation>, n: string)
    requires IsTransform(known, added, deleted, ops) && OnePerName(ops) && !IsDeleted(deleted, n)
    ensures OperationsOn(ops, n) == if n in AddedMap(added) then [AddOp(known, AddedMap(added)[n])] else []
  {
    if n in AddedMap(added) {
      var k := AddOpsCover(known, added, deleted, ops, n);
      hide AddedMap, Lists, StillAdded, DeletedOps, AddOps, OperationsOn, IsTransform;
      OnlyOperationOn(ops, k);
    } else {
      hide OperationsOn;
      forall i | 0 <= i < |ops|
        ensures OperationName(ops[i]) != n
      {
        if i < |deleted| {
          DeletedOpName(known, added, deleted, ops, i);
        } else {
          AddOpsAt(known, added, deleted, ops, i);
        }
      }
      NoOperationsOn(ops, n);
    }
  }
}
