/**
 The control interface of a workload over its life: created, kept, exchanged or
 taken away by updates, and ended by the deletion of the workload.
 */
module Lifecycle {
  import opened Options
  import opened Workloads
  import opened Authorizer

  /** What an update asks for. */
  datatype Info = Info(path: string, authorizer: Authorizer)

  /** A held control interface with the number of the task that serves it. */
  datatype Interface = Interface(task: nat, path: string, authorizer: Authorizer)

  /** Tasks are numbered in the order they are spawned. */
  datatype Tasks = Tasks(held: Option<Interface>, spawned: nat, aborted: set<nat>)

  const NONE: Tasks := Tasks(None, 0, {})

  predicate SameConfiguration(info: Info, current: Interface) {
    info.path == current.path && info.authorizer == current.authorizer
  }

  predicate IsChanged(held: Option<Interface>, info: Option<Info>) {
    match (held, info)
    case (None, None) => false
    case (Some(current), Some(wanted)) => !SameConfiguration(wanted, current)
    case _ => true
  }

  function Abort(t: Tasks): Tasks {
    if t.held.Some? then t.(held := None, aborted := t.aborted + {t.held.value.task}) else t
  }

  /** Creating the pipes may fail; then there is no interface. */
  function CreateInterface(t: Tasks, info: Option<Info>, created: bool): Tasks {
    if info.Some? && created
    then t.(held := Some(Interface(t.spawned, info.value.path, info.value.authorizer)), spawned := t.spawned + 1)
    else t.(held := None)
  }

  /** One update: the new workload, if any, with what it asks for and whether creating it would work. */
  datatype Change = Change(workload: Option<WorkloadNamed>, info: Option<Info>, created: bool)

  /** A workload that needs no control interface never gets one, whatever is asked for. */
  function Updated(t: Tasks, c: Change): Tasks {
    if !IsChanged(t.held, c.info) then t
    else if c.workload.Some? && !c.workload.value.workload.needsControlInterface then Abort(t)
    else CreateInterface(Abort(t), c.info, c.created)
  }

  class Workload {
    var controlInterface: Option<Interface>
    var spawned: nat
    var aborted: set<nat>

    ghost function Current(): Tasks
      reads this
    {
      Tasks(controlInterface, spawned, aborted)
    }

    constructor (info: Option<Info>, created: bool)
      ensures Current() == CreateInterface(NONE, info, created)
    {
      spawned, aborted := 0, {};
      controlInterface := None;
      if info.Some? && created {
        controlInterface, spawned := Some(Interface(0, info.value.path, info.value.authorizer)), 1;
      }
    }

    method ExchangeControlInterface(info: Option<Info>, noAccess: bool, created: bool)
      modifies this
      ensures Current() == if noAccess then Abort(old(Current()))
                           else CreateInterface(Abort(old(Current())), info, created)
    {
      if controlInterface.Some? {
        aborted := aborted + {controlInterface.value.task};
        controlInterface := None;
      }
      if noAccess {
        return;
      }
      if info.Some? && created {
        controlInterface := Some(Interface(spawned, info.value.path, info.value.authorizer));
        spawned := spawned + 1;
      }
    }

    /** Returns the path that is passed on to the workload. */
    method Update(c: Change) returns (path: Option<string>)
      modifies this
      ensures Current() == Updated(old(Current()), c)
      ensures path == if controlInterface.Some? then Some(controlInterface.value.path) else None
    {
      if IsChanged(controlInterface, c.info) {
        var noAccess := c.workload.Some? && !c.workload.value.workload.needsControlInterface;
        ExchangeControlInterface(c.info, noAccess, c.created);
      }
      path := if controlInterface.Some? then Some(controlInterface.value.path) else None;
    }

    method Delete()
      modifies this
      ensures Current() == Abort(old(Current()))
    {
      if controlInterface.Some? {
        aborted := aborted + {controlInterface.value.task};
        controlInterface := None;
      }
    }
  }

  // ---------- Over any sequence of updates ----------

  function Updates(t: Tasks, changes: seq<Change>): Tasks {
    if changes == [] then t else Updated(Updates(t, changes[..|changes| - 1]), changes[|changes| - 1])
  }

  /** The tasks that go on are exactly the one of the held interface. */
  ghost predicate OnlyHeldRuns(t: Tasks) {
    && (t.held.Some? ==> t.held.value.task < t.spawned)
    && (forall k :: k in t.aborted ==> k < t.spawned)
    && (forall k: nat :: k < t.spawned && k !in t.aborted <==> t.held.Some? && t.held.value.task == k)
  }

  lemma UpdateKeepsOneTask(t: Tasks, c: Change)
    requires OnlyHeldRuns(t)
    ensures OnlyHeldRuns(Updated(t, c))
  {
    AbortEndsAll(t);
    assert Abort(t).held.None?;
  }

  lemma AbortEndsAll(t: Tasks)
    requires OnlyHeldRuns(t)
    ensures OnlyHeldRuns(Abort(t)) && forall k: nat :: k < t.spawned ==> k in Abort(t).aborted
  {
  }

  /**
   Over any sequence of updates, failing creations included, at most the held
   interface has a task that is not aborted, and deletion leaves none.
   */
  lemma {:induction false} AtMostOneTask(info: Option<Info>, created: bool, changes: seq<Change>)
    ensures var t := Updates(CreateInterface(NONE, info, created), changes);
            OnlyHeldRuns(t) && forall k: nat :: k < t.spawned ==> k in Abort(t).aborted
  {
    var start := CreateInterface(NONE, info, created);
    if changes != [] {
      AtMostOneTask(info, created, changes[..|changes| - 1]);
      UpdateKeepsOneTask(Updates(start, changes[..|changes| - 1]), changes[|changes| - 1]);
    }
    AbortEndsAll(Updates(start, changes));
  }

  /** A held interface is always the one the latest update asked for. */
  lemma HeldIsLatest(t: Tasks, changes: seq<Change>)
    requires changes != [] && Updates(t, changes).held.Some?
    ensures var last := changes[|changes| - 1];
            last.info.Some? && SameConfiguration(last.info.value, Updates(t, changes).held.value)
  {
  }

  /** The configuration asked for, with nothing where the workload needs no interface. */
  function Asked(c: Change): Option<Info> {
    if c.workload.Some? && !c.workload.value.workload.needsControlInterface then None else c.info
  }

  function Configuration(t: Tasks): Option<Info> {
    if t.held.Some? then Some(Info(t.held.value.path, t.held.value.authorizer)) else None
  }

  /** The configuration after an update: kept if it is asked for, else what is asked for if creating it works. */
  function ConfiguredBy(before: Option<Info>, c: Change): Option<Info> {
    if c.info == before then before else if c.created then Asked(c) else None
  }

  function ConfiguredLast(before: Option<Info>, changes: seq<Change>): Option<Info> {
    if changes == [] then before
    else ConfiguredBy(ConfiguredLast(before, changes[..|changes| - 1]), changes[|changes| - 1])
  }

  /** How often a run of updates asks for an interface that is not the present one, and creating it works. */
  function NewlyCreated(before: Option<Info>, changes: seq<Change>): nat {
    if changes == [] then 0
    else
      var init, c := changes[..|changes| - 1], changes[|changes| - 1];
      NewlyCreated(before, init)
      + (if c.info != ConfiguredLast(before, init) && c.created && Asked(c).Some? then 1 else 0)
  }

  /**
   Over any updates, failing creations and workloads without an interface included:
   the configuration follows from what was asked for alone, and a task is started
   just as often as an interface that is not the present one is asked for and created.
   */
  lemma {:induction false} StartsCountChanges(t: Tasks, changes: seq<Change>)
    ensures var t' := Updates(t, changes);
            && Configuration(t') == ConfiguredLast(Configuration(t), changes)
            && t'.spawned == t.spawned + NewlyCreated(Configuration(t), changes)
  {
    if changes != [] {
      StartsCountChanges(t, changes[..|changes| - 1]);
    }
  }

  /** An unchanged configuration never restarts the task, whatever else changes. */
  lemma {:induction false} UnchangedNeverRestarts(t: Tasks, changes: seq<Change>)
    requires t.held.Some? && forall i :: 0 <= i < |changes| ==> changes[i].info == Configuration(t)
    ensures Updates(t, changes) == t
  {
    if changes != [] {
      var last := |changes| - 1;
      var init := changes[..last];
      assert forall i :: 0 <= i < last ==> init[i] == changes[i];
      UnchangedNeverRestarts(t, init);
    }
  }
}
