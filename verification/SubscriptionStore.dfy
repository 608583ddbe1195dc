/**
 The log subscriptions of an agent: tasks that collect logs are spawned,
 registered under their request id, and remove themselves when they are done,
 while requests are cancelled or repeated. Removing an entry aborts its task.
 */
module SubscriptionStore {
  // ---------- The store ----------

  class SubscriptionStore {
    var store: map<string, nat>
    /** The tasks whose abort was asked for. */
    var aborted: set<nat>

    constructor ()
      ensures store == map[] && aborted == {}
    {
      store, aborted := map[], {};
    }

    /** Replacing an entry drops the old one, which aborts its task. */
    method AddSubscription(id: string, task: nat)
      modifies this
      ensures Subscriptions(store, aborted) == Add(Subscriptions(old(store), old(aborted)), id, task)
    {
      if id in store {
        aborted := aborted + {store[id]};
      }
      store := store[id := task];
    }

    method DeleteSubscription(id: string)
      modifies this
      ensures Subscriptions(store, aborted) == Delete(Subscriptions(old(store), old(aborted)), id)
    {
      if id in store {
        aborted := aborted + {store[id]};
        store := store - {id};
      }
    }

    method DeleteAllSubscriptions()
      modifies this
      ensures Subscriptions(store, aborted) == DeleteAll(Subscriptions(old(store), old(aborted)))
    {
      aborted := aborted + (set id | id in store :: store[id]);
      store := map[];
    }
  }

  datatype Subscriptions = Subscriptions(store: map<string, nat>, aborted: set<nat>)

  function Delete(s: Subscriptions, id: string): Subscriptions {
    if id in s.store then Subscriptions(s.store - {id}, s.aborted + {s.store[id]}) else s
  }

  function Add(s: Subscriptions, id: string, task: nat): Subscriptions {
    var cleared := Delete(s, id);
    cleared.(store := s.store[id := task])
  }

  function DeleteAll(s: Subscriptions): Subscriptions {
    Subscriptions(map[], s.aborted + (set id | id in s.store :: s.store[id]))
  }

  // ---------- Tasks and the agent manager ----------

  /** A task collects, then removes its subscription without awaiting anything, then is done. */
  datatype Phase = Collecting | Removing | Finished

  /** Tasks are numbered in the order they are spawned. */
  datatype Task = Task(id: string, phase: Phase, registered: bool)

  datatype State = State(tasks: seq<Task>, subscriptions: Subscriptions)

  datatype Event =
    | Spawn(id: string)
    | Register(task: nat)
    | EndOfLogs(task: nat)
    | RemoveOwn(task: nat)
    | Cancel(id: string)
    | ServerGone

  const INIT: State := State([], Subscriptions(map[], {}))

  /** The manager registers a task right after it was spawned; the task runs in between as it likes. */
  predicate Enabled(s: State, ev: Event) {
    match ev
    case Spawn(_) => AllRegistered(s)
    case Cancel(_) => AllRegistered(s)
    case ServerGone => AllRegistered(s)
    case Register(t) => t < |s.tasks| && !s.tasks[t].registered
    case EndOfLogs(t) => t < |s.tasks| && s.tasks[t].phase.Collecting? && t !in s.subscriptions.aborted
    case RemoveOwn(t) => t < |s.tasks| && s.tasks[t].phase.Removing?
  }

  predicate AllRegistered(s: State) {
    forall t :: 0 <= t < |s.tasks| ==> s.tasks[t].registered
  }

  function Next(s: State, ev: Event): State
    requires Enabled(s, ev)
  {
    match ev
    case Spawn(id) => s.(tasks := s.tasks + [Task(id, Collecting, false)])
    case Register(t) =>
      State(s.tasks[t := s.tasks[t].(registered := true)], Add(s.subscriptions, s.tasks[t].id, t))
    case EndOfLogs(t) => s.(tasks := s.tasks[t := s.tasks[t].(phase := Removing)])
    case RemoveOwn(t) =>
      State(s.tasks[t := s.tasks[t].(phase := Finished)], Delete(s.subscriptions, s.tasks[t].id))
    case Cancel(id) => s.(subscriptions := Delete(s.subscriptions, id))
    case ServerGone => s.(subscriptions := DeleteAll(s.subscriptions))
  }

  ghost predicate IsRunFrom(start: State, run: seq<State>, events: seq<Event>) {
    && |run| == |events| + 1 && run[0] == start
    && forall i :: 0 <= i < |events| ==> Enabled(run[i], events[i]) && run[i + 1] == Next(run[i], events[i])
  }

  ghost predicate IsRun(run: seq<State>, events: seq<Event>) {
    IsRunFrom(INIT, run, events)
  }

  /** The stored tasks are registered under their own ids and not aborted; all other registered ones have ended. */
  ghost predicate Inv(s: State) {
    && (forall id :: id in s.subscriptions.store ==>
        var t := s.subscriptions.store[id];
        t < |s.tasks| && s.tasks[t].registered && s.tasks[t].id == id && t !in s.subscriptions.aborted)
    && (forall t :: 0 <= t < |s.tasks| && Active(s, t) ==> Stored(s, t))
    && (forall t :: t in s.subscriptions.aborted ==> t < |s.tasks| && s.tasks[t].registered)
  }

  /** Registered and neither finished nor aborted. */
  predicate Active(s: State, t: nat)
    requires t < |s.tasks|
  {
    s.tasks[t].registered && !s.tasks[t].phase.Finished? && t !in s.subscriptions.aborted
  }

  predicate Stored(s: State, t: nat)
    requires t < |s.tasks|
  {
    s.tasks[t].id in s.subscriptions.store && s.subscriptions.store[s.tasks[t].id] == t
  }

  lemma NextKeepsInv(s: State, ev: Event)
    requires Inv(s) && Enabled(s, ev)
    ensures Inv(Next(s, ev))
  {
    match ev
    case Spawn(id) =>
      forall u | 0 <= u < |s.tasks| && Active(Next(s, ev), u)
        ensures Stored(Next(s, ev), u)
      {
        assert Active(s, u);
      }
    case Register(t) => RegisterKeepsInv(s, t);
    case EndOfLogs(t) =>
      forall u | 0 <= u < |s.tasks| && Active(Next(s, ev), u)
        ensures Stored(Next(s, ev), u)
      {
        assert Active(s, u);
      }
    case RemoveOwn(t) => RemoveKeepsInv(s, t);
    case Cancel(id) => DeleteKeepsInv(s, id);
    case ServerGone =>
      forall u | 0 <= u < |s.tasks|
        ensures !Active(Next(s, ev), u)
      {
        assert Active(s, u) ==> Stored(s, u);
      }
  }

  lemma DeleteKeepsInv(s: State, id: string)
    requires Inv(s)
    ensures Inv(s.(subscriptions := Delete(s.subscriptions, id)))
  {
    var s' := s.(subscriptions := Delete(s.subscriptions, id));
    forall t | 0 <= t < |s.tasks| && Active(s', t)
      ensures Stored(s', t)
    {
      assert Stored(s, t);
    }
  }

  lemma RegisterKeepsInv(s: State, t: nat)
    requires Inv(s) && Enabled(s, Register(t))
    ensures Inv(Next(s, Register(t)))
  {
    DeleteKeepsInv(s, s.tasks[t].id);
    var mid, s' := s.(subscriptions := Delete(s.subscriptions, s.tasks[t].id)), Next(s, Register(t));
    forall u | 0 <= u < |s'.tasks| && Active(s', u)
      ensures Stored(s', u)
    {
      if u != t {
        assert Stored(mid, u);
      }
    }
  }

  lemma RemoveKeepsInv(s: State, t: nat)
    requires Inv(s) && Enabled(s, RemoveOwn(t))
    ensures Inv(Next(s, RemoveOwn(t)))
  {
    DeleteKeepsInv(s, s.tasks[t].id);
    var mid, s' := s.(subscriptions := Delete(s.subscriptions, s.tasks[t].id)), Next(s, RemoveOwn(t));
    forall u | 0 <= u < |s'.tasks| && Active(s', u)
      ensures Stored(s', u)
    {
      assert Stored(mid, u);
    }
  }

  lemma {:induction false} RunKeepsInv(run: seq<State>, events: seq<Event>)
    requires IsRun(run, events)
    ensures Inv(run[|events|])
  {
    if events != [] {
      var last := |events| - 1;
      assert run[last + 1] == Next(run[last], events[last]);
      RunKeepsInv(run[..last + 1], events[..last]);
      NextKeepsInv(run[last], events[last]);
    }
  }

  /** No collector is ever lost sight of: what is registered and still active is stored under its id. */
  lemma NoLeakedCollector(run: seq<State>, events: seq<Event>, t: nat)
    requires IsRun(run, events)
    requires t < |run[|events|].tasks| && Active(run[|events|], t)
    ensures Stored(run[|events|], t)
  {
    RunKeepsInv(run, events);
  }

  /** Once the server is gone no registered task goes on collecting. */
  lemma ServerGoneStopsAll(run: seq<State>, events: seq<Event>, t: nat)
    requires IsRun(run, events) && events != [] && events[|events| - 1] == ServerGone
    requires t < |run[|events|].tasks| && run[|events|].tasks[t].phase.Collecting?
    ensures t in run[|events|].subscriptions.aborted
  {
    var last := |events| - 1;
    assert Enabled(run[last], events[last]) && run[last + 1] == Next(run[last], events[last]);
    RunKeepsInv(run, events);
    assert Active(run[last + 1], t) ==> Stored(run[last + 1], t);
  }

  // ---------- Who aborts whom ----------

  /** When a task is registered, no other task with the same id is about to remove its subscription. */
  predicate NoneRemoving(s: State, t: nat)
    requires t < |s.tasks|
  {
    forall u :: 0 <= u < |s.tasks| && u != t && s.tasks[u].id == s.tasks[t].id ==> !s.tasks[u].phase.Removing?
  }

  /** Only the task spawned last may be unregistered. */
  ghost predicate RegisteredInOrder(s: State) {
    forall t :: 0 <= t < |s.tasks| - 1 ==> s.tasks[t].registered
  }

  lemma NextInOrder(s: State, ev: Event)
    requires RegisteredInOrder(s) && Enabled(s, ev)
    ensures RegisteredInOrder(Next(s, ev))
  {
  }

  lemma {:induction false} RunInOrder(run: seq<State>, events: seq<Event>)
    requires IsRun(run, events)
    ensures RegisteredInOrder(run[|events|])
  {
    if events != [] {
      var last := |events| - 1;
      assert Enabled(run[last], events[last]) && run[last + 1] == Next(run[last], events[last]);
      RunInOrder(run[..last + 1], events[..last]);
      NextInOrder(run[last], events[last]);
    }
  }

  /** What a step takes away from a task that still collects. */
  predicate Aborts(s: State, ev: Event, t: nat)
    requires Enabled(s, ev)
  {
    t < |s.tasks| && s.tasks[t].phase.Collecting? && t !in s.subscriptions.aborted
    && t in Next(s, ev).subscriptions.aborted
  }

  /** Somebody asked for it: a cancel, a lost server, or a newer request with the same id. */
  predicate Wanted(s: State, ev: Event, t: nat)
    requires Enabled(s, ev) && t < |s.tasks|
  {
    match ev
    case Cancel(id) => id == s.tasks[t].id
    case ServerGone => true
    case Register(u) => u > t && s.tasks[u].id == s.tasks[t].id
    case RemoveOwn(u) => u > t && s.tasks[u].id == s.tasks[t].id
    case Spawn(_) => false
    case EndOfLogs(_) => false
  }

  /** Every older task of the same id is done, or was aborted before it came to its end. */
  ghost predicate Undisturbed(s: State, t: nat) {
    && Inv(s) && RegisteredInOrder(s) && t < |s.tasks| && s.tasks[t].registered
    && forall u :: 0 <= u < t && s.tasks[u].id == s.tasks[t].id ==>
         s.tasks[u].phase.Finished? || (s.tasks[u].phase.Collecting? && u in s.subscriptions.aborted)
  }

  lemma RegisterUndisturbed(s: State, t: nat)
    requires Inv(s) && RegisteredInOrder(s) && Enabled(s, Register(t)) && NoneRemoving(s, t)
    ensures Undisturbed(Next(s, Register(t)), t)
  {
    NextKeepsInv(s, Register(t));
    NextInOrder(s, Register(t));
    forall u | 0 <= u < t && s.tasks[u].id == s.tasks[t].id && !s.tasks[u].phase.Finished?
      ensures u in Next(s, Register(t)).subscriptions.aborted
    {
      assert Active(s, u) ==> Stored(s, u);
    }
  }

  lemma NextUndisturbed(s: State, ev: Event, t: nat)
    requires Undisturbed(s, t) && Enabled(s, ev)
    ensures Undisturbed(Next(s, ev), t)
    ensures Aborts(s, ev, t) ==> Wanted(s, ev, t)
  {
    NextKeepsInv(s, ev);
    NextInOrder(s, ev);
    if Aborts(s, ev, t) {
      AbortIsOfStored(s, ev, t);
    }
  }

  /** A task loses its entry only to a step about its id, or to the loss of the server. */
  lemma AbortIsOfStored(s: State, ev: Event, t: nat)
    requires Enabled(s, ev) && Aborts(s, ev, t)
    ensures Stored(s, t) || exists id :: id in s.subscriptions.store && s.subscriptions.store[id] == t
  {
  }

  lemma {:induction false} RunUndisturbed(s: State, run: seq<State>, events: seq<Event>, t: nat)
    requires Undisturbed(s, t) && IsRunFrom(s, run, events)
    ensures Undisturbed(run[|events|], t)
  {
    if events != [] {
      var last := |events| - 1;
      assert Enabled(run[last], events[last]) && run[last + 1] == Next(run[last], events[last]);
      RunUndisturbed(s, run[..last + 1], events[..last], t);
      NextUndisturbed(run[last], events[last], t);
    }
  }

  /** Whatever follows, the task is only stopped on request. */
  ghost predicate OnlyStoppedOnRequest(s: State, t: nat) {
    forall run: seq<State>, events: seq<Event>, ev: Event ::
      IsRunFrom(s, run, events) && Enabled(run[|events|], ev) && Aborts(run[|events|], ev, t) ==>
        Wanted(run[|events|], ev, t)
  }

  /**
   Over all that can follow, a collector is only stopped on request, if and only if no
   other task with its id was about to remove its subscription when it was registered.
   */
  lemma RegistrationIsSafeIff(run: seq<State>, events: seq<Event>, t: nat)
    requires IsRun(run, events) && Enabled(run[|events|], Register(t)) && run[|events|].tasks[t].phase.Collecting?
    ensures NoneRemoving(run[|events|], t) <==> OnlyStoppedOnRequest(Next(run[|events|], Register(t)), t)
  {
    RunInOrder(run, events);
    RunKeepsInv(run, events);
    var s := run[|events|];
    var s' := Next(s, Register(t));
    if NoneRemoving(s, t) {
      RegisterUndisturbed(s, t);
      forall more: seq<State>, next: seq<Event>, ev: Event
        | IsRunFrom(s', more, next) && Enabled(more[|next|], ev) && Aborts(more[|next|], ev, t)
        ensures Wanted(more[|next|], ev, t)
      {
        RunUndisturbed(s', more, next, t);
        NextUndisturbed(more[|next|], ev, t);
      }
    } else {
      var u :| 0 <= u < |s.tasks| && u != t && s.tasks[u].id == s.tasks[t].id && s.tasks[u].phase.Removing?;
      assert t == |s.tasks| - 1 && t !in s.subscriptions.aborted;
      assert s'.subscriptions.store[s.tasks[t].id] == t && t !in s'.subscriptions.aborted;
      var more, none: seq<Event> := [s'], [];
      assert IsRunFrom(s', more, none) && more[|none|] == s';
      assert Enabled(s', RemoveOwn(u)) && Aborts(s', RemoveOwn(u), t) && !Wanted(s', RemoveOwn(u), t);
    }
  }

  lemma {:induction false} WasRegistered(run: seq<State>, events: seq<Event>, t: nat)
    requires IsRun(run, events) && t < |run[|events|].tasks| && run[|events|].tasks[t].registered
    ensures exists i :: 0 <= i < |events| && events[i] == Register(t)
  {
    var last := |events| - 1;
    assert Enabled(run[last], events[last]) && run[last + 1] == Next(run[last], events[last]);
    if events[last] != Register(t) {
      WasRegistered(run[..last + 1], events[..last], t);
      var i :| 0 <= i < last && events[..last][i] == Register(t);
      assert events[i] == Register(t);
    }
  }

  /** Over every run: an unwanted stop goes back to a registration while another task of that id removed itself. */
  lemma UnwantedStopHasCause(run: seq<State>, events: seq<Event>, ev: Event, t: nat)
    requires IsRun(run, events) && Enabled(run[|events|], ev) && Aborts(run[|events|], ev, t)
    requires !Wanted(run[|events|], ev, t)
    ensures exists i :: 0 <= i < |events| && events[i] == Register(t) && t < |run[i].tasks| && !NoneRemoving(run[i], t)
  {
    RunKeepsInv(run, events);
    AbortIsOfStored(run[|events|], ev, t);
    WasRegistered(run, events, t);
    var i :| 0 <= i < |events| && events[i] == Register(t);
    assert Enabled(run[i], events[i]);
    if NoneRemoving(run[i], t) {
      UndisturbedSince(run, events, i, t);
      NextUndisturbed(run[|events|], ev, t);
    }
  }

  lemma UndisturbedSince(run: seq<State>, events: seq<Event>, i: nat, t: nat)
    requires IsRun(run, events) && i < |events| && events[i] == Register(t) && t < |run[i].tasks|
    requires NoneRemoving(run[i], t)
    ensures Undisturbed(run[|events|], t)
  {
    assert Enabled(run[i], events[i]) && run[i + 1] == Next(run[i], events[i]);
    RunInOrder(run[..i + 1], events[..i]);
    RunKeepsInv(run[..i + 1], events[..i]);
    RegisterUndisturbed(run[i], t);
    hide Undisturbed;
    SuffixRun(run, events, i + 1);
    RunUndisturbed(run[i + 1], run[i + 1..], events[i + 1..], t);
  }

  lemma SuffixRun(run: seq<State>, events: seq<Event>, i: nat)
    requires IsRun(run, events) && i <= |events|
    ensures IsRunFrom(run[i], run[i..], events[i..])
  {
    var more, next := run[i..], events[i..];
    forall j | 0 <= j < |next|
      ensures Enabled(more[j], next[j]) && more[j + 1] == Next(more[j], next[j])
    {
      assert Enabled(run[i + j], events[i + j]) && run[i + j + 1] == Next(run[i + j], events[i + j]);
    }
  }

  /** It can happen: an id reused at that moment lets the finished task stop its successor. */
  lemma FinishedTaskStopsItsSuccessor(id: string) returns (run: seq<State>, events: seq<Event>)
    ensures IsRun(run, events)
    ensures var s := run[|events|];
            && Enabled(s, RemoveOwn(0)) && Aborts(s, RemoveOwn(0), 1) && !Wanted(s, RemoveOwn(0), 1)
            && s.tasks[1] == Task(id, Collecting, true)
  {
    events := [Spawn(id), Register(0), EndOfLogs(0), Spawn(id), Register(1)];
    var s1 := Next(INIT, Spawn(id));
    var s2 := Next(s1, Register(0));
    var s3 := Next(s2, EndOfLogs(0));
    var s4 := Next(s3, Spawn(id));
    var s5 := Next(s4, Register(1));
    run := [INIT, s1, s2, s3, s4, s5];
    assert s5.subscriptions.store == map[id := 1] && s5.subscriptions.aborted == {0};
  }

  // ---------- Entries of finished tasks ----------

  /** Steps that take the entry of an id away: a cancel, a lost server, a newer registration, a task removing itself. */
  predicate TakesEntry(s: State, ev: Event, id: string)
    requires Enabled(s, ev)
  {
    match ev
    case Cancel(other) => other == id
    case ServerGone => true
    case Register(u) => s.tasks[u].id == id
    case RemoveOwn(u) => s.tasks[u].id == id
    case Spawn(_) => false
    case EndOfLogs(_) => false
  }

  lemma StoredNext(s: State, ev: Event, t: nat)
    requires Inv(s) && Enabled(s, ev) && t < |s.tasks| && ev != Register(t)
    ensures Stored(Next(s, ev), t) <==> Stored(s, t) && !TakesEntry(s, ev, s.tasks[t].id)
    ensures Stored(Next(s, ev), t) ==> Next(s, ev).tasks[t].phase.Finished? == s.tasks[t].phase.Finished?
  {
  }

  lemma {:induction false} NotRegisteredYet(run: seq<State>, events: seq<Event>, t: nat)
    requires IsRun(run, events) && (t < |run[|events|].tasks| ==> !run[|events|].tasks[t].registered)
    ensures forall i :: 0 <= i < |events| ==> events[i] != Register(t)
  {
    if events != [] {
      var last := |events| - 1;
      assert Enabled(run[last], events[last]) && run[last + 1] == Next(run[last], events[last]);
      NotRegisteredYet(run[..last + 1], events[..last], t);
      assert forall i :: 0 <= i < last ==> events[..last][i] == events[i];
    }
  }

  ghost predicate FinishedWhenRegistered(run: seq<State>, events: seq<Event>, t: nat)
    requires |run| == |events| + 1
  {
    exists i :: 0 <= i < |events| && events[i] == Register(t) && t < |run[i].tasks| && run[i].tasks[t].phase.Finished?
  }

  /**
   Over every run: a task that is done still has an entry, if and only if it was done
   already when it was registered.
   */
  lemma {:induction false} FinishedEntryIff(run: seq<State>, events: seq<Event>, t: nat)
    requires IsRun(run, events) && t < |run[|events|].tasks| && Stored(run[|events|], t)
    ensures run[|events|].tasks[t].phase.Finished? <==> FinishedWhenRegistered(run, events, t)
  {
    var last := |events| - 1;
    var init, front := events[..last], run[..last + 1];
    assert Enabled(run[last], events[last]) && run[last + 1] == Next(run[last], events[last]);
    assert forall i :: 0 <= i < last ==> init[i] == events[i];
    assert forall i :: 0 <= i <= last ==> front[i] == run[i];
    RunKeepsInv(front, init);
    if events[last] == Register(t) {
      NotRegisteredYet(front, init, t);
      assert forall i :: 0 <= i < last ==> events[i] != Register(t);
    } else {
      StoredNext(run[last], events[last], t);
      FinishedEntryIff(front, init, t);
      if i :| 0 <= i < last && init[i] == Register(t) && t < |front[i].tasks| && front[i].tasks[t].phase.Finished? {
        assert events[i] == Register(t) && run[i].tasks[t].phase.Finished?;
      }
      if i :| 0 <= i < |events| && events[i] == Register(t) && t < |run[i].tasks| && run[i].tasks[t].phase.Finished? {
        assert init[i] == Register(t) && front[i].tasks[t].phase.Finished?;
      }
    }
  }

  /** And how long an entry stays: until the first step that takes it away. */
  lemma {:induction false} EntryStaysIff(run: seq<State>, events: seq<Event>, i: nat, t: nat)
    requires IsRun(run, events) && i < |events| && events[i] == Register(t)
    ensures t < |run[i].tasks| && t < |run[|events|].tasks|
    ensures Stored(run[|events|], t) <==>
            forall j :: i < j < |events| ==>
              Enabled(run[j], events[j]) && !TakesEntry(run[j], events[j], run[i].tasks[t].id)
    ensures run[|events|].tasks[t].id == run[i].tasks[t].id
  {
    var last := |events| - 1;
    var init, front := events[..last], run[..last + 1];
    assert Enabled(run[last], events[last]) && run[last + 1] == Next(run[last], events[last]);
    assert forall j :: 0 <= j < last ==> init[j] == events[j];
    assert forall j :: 0 <= j <= last ==> front[j] == run[j];
    if i < last {
      EntryStaysIff(front, init, i, t);
      RunKeepsInv(front, init);
      RegisteredStays(front, init, i, t);
      StoredNext(run[last], events[last], t);
    }
  }

  lemma {:induction false} RegisteredStays(run: seq<State>, events: seq<Event>, i: nat, t: nat)
    requires IsRun(run, events) && i < |events| && events[i] == Register(t)
    ensures t < |run[|events|].tasks| && run[|events|].tasks[t].registered
  {
    var last := |events| - 1;
    assert Enabled(run[last], events[last]) && run[last + 1] == Next(run[last], events[last]);
    if i < last {
      RegisteredStays(run[..last + 1], events[..last], i, t);
    }
  }

  /** It can happen: the task is done before it is registered, and its entry stays. */
  lemma FinishedEntryStays(id: string) returns (run: seq<State>, events: seq<Event>)
    ensures IsRun(run, events)
    ensures var s := run[|events|]; |s.tasks| == 1 && s.tasks[0] == Task(id, Finished, true) && Stored(s, 0)
  {
    events := [Spawn(id), EndOfLogs(0), RemoveOwn(0), Register(0)];
    var s1 := Next(INIT, Spawn(id));
    var s2 := Next(s1, EndOfLogs(0));
    var s3 := Next(s2, RemoveOwn(0));
    var s4 := Next(s3, Register(0));
    run := [INIT, s1, s2, s3, s4];
  }
}
