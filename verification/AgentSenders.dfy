/**
 The connections of agents to the server: each one registers its sender under
 the agent's name, and takes the entry away when the connection breaks.
 */
module AgentSenders {
  import opened Options

  // ---------- The sender map ----------

  /** Senders are numbered like the connections they belong to. */
  type Senders = map<string, nat>

  function SenderOf(senders: Senders, name: string): Option<nat> {
    if name in senders then Some(senders[name]) else None
  }

  function WithSender(senders: Senders, name: string, sender: nat): Senders {
    senders[name := sender]
  }

  /** The entry of the name goes, whoever it belongs to. */
  function WithoutSender(senders: Senders, name: string): Senders {
    senders - {name}
  }

  class AgentSendersMap {
    var senders: Senders

    constructor ()
      ensures senders == map[]
    {
      senders := map[];
    }

    method Get(name: string) returns (sender: Option<nat>)
      ensures sender == SenderOf(senders, name)
    {
      sender := None;
      if name in senders {
        sender := Some(senders[name]);
      }
    }

    method Insert(name: string, sender: nat)
      modifies this
      ensures senders == WithSender(old(senders), name, sender)
    {
      senders := senders[name := sender];
    }

    method Remove(name: string)
      modifies this
      ensures senders == WithoutSender(old(senders), name)
    {
      senders := senders - {name};
    }
  }

  // ---------- Connections ----------

  /** Registered but not announced, served, broken, unregistered but not reported, and over. */
  datatype Phase = Registered | Open | Interrupted | Unregistered | Over
  datatype Connection = Connection(name: string, phase: Phase)
  datatype Report = AgentHello(name: string) | AgentGone(name: string)
  datatype State = State(connections: seq<Connection>, senders: Senders, reports: seq<Report>)

  datatype Event =
    | Connect(name: string)
    | Announce(connection: nat)
    | End(connection: nat)
    | Fail(connection: nat)
    | Unregister(connection: nat)
    | ReportGone(connection: nat)

  const INIT: State := State([], map[], [])

  predicate At(s: State, c: nat, phase: Phase) {
    c < |s.connections| && s.connections[c].phase == phase
  }

  predicate Enabled(s: State, ev: Event) {
    match ev
    case Connect(_) => true
    case Announce(c) => At(s, c, Registered)
    case End(c) => At(s, c, Open)
    case Fail(c) => At(s, c, Open)
    case Unregister(c) => At(s, c, Interrupted)
    case ReportGone(c) => At(s, c, Unregistered)
  }

  function Moved(s: State, c: nat, phase: Phase): seq<Connection>
    requires c < |s.connections|
  {
    s.connections[c := s.connections[c].(phase := phase)]
  }

  /** A goodbye or the end of the stream leaves the sender registered; only an interruption removes it. */
  function Next(s: State, ev: Event): State
    requires Enabled(s, ev)
  {
    match ev
    case Connect(name) =>
      s.(connections := s.connections + [Connection(name, Registered)],
         senders := WithSender(s.senders, name, |s.connections|))
    case Announce(c) =>
      s.(connections := Moved(s, c, Open), reports := s.reports + [AgentHello(s.connections[c].name)])
    case End(c) => s.(connections := Moved(s, c, Over))
    case Fail(c) => s.(connections := Moved(s, c, Interrupted))
    case Unregister(c) =>
      s.(connections := Moved(s, c, Unregistered), senders := WithoutSender(s.senders, s.connections[c].name))
    case ReportGone(c) =>
      s.(connections := Moved(s, c, Over), reports := s.reports + [AgentGone(s.connections[c].name)])
  }

  /**
   The gRPC server with its connections. The steps of one connection are methods, so
   that the steps of the others can come between them.
   */
  class AgentConnections {
    const agentSenders: AgentSendersMap
    var connections: seq<Connection>
    var reports: seq<Report>

    ghost function Now(): State
      reads this, agentSenders
    {
      State(connections, agentSenders.senders, reports)
    }

    constructor ()
      ensures Now() == INIT && fresh(agentSenders)
    {
      agentSenders := new AgentSendersMap();
      connections, reports := [], [];
    }

    /** The first message of a stream is a hello: the sender is stored. */
    method StoreSender(name: string)
      modifies this, agentSenders
      ensures Now() == Next(old(Now()), Connect(name))
    {
      agentSenders.Insert(name, |connections|);
      connections := connections + [Connection(name, Registered)];
    }

    method ForwardHello(c: nat)
      requires Enabled(Now(), Announce(c))
      modifies this
      ensures Now() == Next(old(Now()), Announce(c))
    {
      reports := reports + [AgentHello(connections[c].name)];
      connections := connections[c := connections[c].(phase := Open)];
    }

    /** The forwarding task of a connection returns, with or without an error. */
    method ForwardingEnds(c: nat, error: bool)
      requires Enabled(Now(), Fail(c))
      modifies this
      ensures Now() == Next(old(Now()), if error then Fail(c) else End(c))
    {
      connections := connections[c := connections[c].(phase := if error then Interrupted else Over)];
    }

    method RemoveSender(c: nat)
      requires Enabled(Now(), Unregister(c))
      modifies this, agentSenders
      ensures Now() == Next(old(Now()), Unregister(c))
    {
      agentSenders.Remove(connections[c].name);
      connections := connections[c := connections[c].(phase := Unregistered)];
    }

    method InformServer(c: nat)
      requires Enabled(Now(), ReportGone(c))
      modifies this
      ensures Now() == Next(old(Now()), ReportGone(c))
    {
      reports := reports + [AgentGone(connections[c].name)];
      connections := connections[c := connections[c].(phase := Over)];
    }

    /** Where a message for an agent goes: to its open connection, if connections came one after the other. */
    method Route(name: string) returns (sender: Option<nat>)
      ensures Inv(Now()) ==>
                forall c :: 0 <= c < |connections| && connections[c] == Connection(name, Open) ==> sender == Some(c)
    {
      sender := agentSenders.Get(name);
    }
  }

  ghost predicate IsRunFrom(start: State, run: seq<State>, events: seq<Event>) {
    && |run| == |events| + 1 && run[0] == start
    && forall i :: 0 <= i < |events| ==> Enabled(run[i], events[i]) && run[i + 1] == Next(run[i], events[i])
  }

  ghost predicate IsRun(run: seq<State>, events: seq<Event>) {
    IsRunFrom(INIT, run, events)
  }

  // ---------- One connection after the other ----------

  /** A new connection of an agent comes only when its old ones are over. */
  predicate OldOnesOver(s: State, ev: Event) {
    ev.Connect? ==>
      forall c :: 0 <= c < |s.connections| && s.connections[c].name == ev.name ==> s.connections[c].phase.Over?
  }

  /** Whether the last report about the agent says it is there. */
  function Present(reports: seq<Report>, name: string): bool {
    if reports == [] then false
    else
      var last := reports[|reports| - 1];
      if last.name == name then last.AgentHello? else Present(reports[..|reports| - 1], name)
  }

  ghost predicate Inv(s: State) {
    && (forall c, d :: 0 <= c < d < |s.connections| && s.connections[c].name == s.connections[d].name ==>
        s.connections[c].phase.Over?)
    && (forall c :: 0 <= c < |s.connections| ==>
        s.connections[c].phase.Over? || s.connections[c].phase.Unregistered? || Reachable(s, c))
    && (forall c :: 0 <= c < |s.connections| ==>
        s.connections[c].phase.Open? ==> Present(s.reports, s.connections[c].name))
  }

  lemma PresentSnoc(reports: seq<Report>, r: Report, name: string)
    ensures Present(reports + [r], name) == if r.name == name then r.AgentHello? else Present(reports, name)
  {
    assert (reports + [r])[..|reports|] == reports;
  }

  lemma NextKeepsInv(s: State, ev: Event)
    requires Inv(s) && Enabled(s, ev) && OldOnesOver(s, ev)
    ensures Inv(Next(s, ev))
  {
    hide Present;
    var s' := Next(s, ev);
    if ev.Announce? || ev.ReportGone? {
      var r := s'.reports[|s.reports|];
      forall c | 0 <= c < |s'.connections| && s'.connections[c].phase.Open?
        ensures Present(s'.reports, s'.connections[c].name)
      {
        PresentSnoc(s.reports, r, s'.connections[c].name);
        assert c < ev.connection || c == ev.connection || ev.connection < c;
      }
    }
  }

  lemma {:induction false} RunKeepsInv(run: seq<State>, events: seq<Event>)
    requires IsRun(run, events) && forall i :: 0 <= i < |events| ==> OldOnesOver(run[i], events[i])
    ensures Inv(run[|events|])
  {
    if events != [] {
      var last := |events| - 1;
      assert Enabled(run[last], events[last]) && run[last + 1] == Next(run[last], events[last]);
      var before := events[..last];
      assert forall i :: 0 <= i < last ==> before[i] == events[i];
      RunKeepsInv(run[..last + 1], before);
      NextKeepsInv(run[last], events[last]);
    }
  }

  /**
   If every old connection of an agent is over before the next begins, messages for
   an agent go to its open connection, and the server knows that the agent is there.
   */
  lemma OpenConnectionsAreReachable(run: seq<State>, events: seq<Event>, c: nat)
    requires IsRun(run, events) && forall i :: 0 <= i < |events| ==> OldOnesOver(run[i], events[i])
    requires At(run[|events|], c, Open)
    ensures var s := run[|events|]; var name := s.connections[c].name;
            name in s.senders && s.senders[name] == c && Present(s.reports, name)
  {
    RunKeepsInv(run, events);
  }

  predicate Reachable(s: State, c: nat) {
    c < |s.connections| && s.connections[c].name in s.senders && s.senders[s.connections[c].name] == c
  }

  predicate InUse(s: State, c: nat) {
    At(s, c, Open) || At(s, c, Registered)
  }

  /** No other connection of the agent that still holds or will still remove the entry. */
  predicate NoneBefore(s: State, name: string) {
    forall c :: 0 <= c < |s.connections| && s.connections[c].name == name ==>
      s.connections[c].phase.Over? || s.connections[c].phase.Unregistered?
  }

  /** Exactly then a new connection takes nobody's entry and is itself not taken away by an older one next. */
  lemma ConnectIsSafeIff(s: State, name: string)
    ensures var s' := Next(s, Connect(name));
            NoneBefore(s, name) <==>
            && (forall c :: 0 <= c < |s.connections| && s.connections[c].name == name ==>
                  InUse(s, c) ==> Reachable(s', c))
            && (forall c :: 0 <= c < |s.connections| && Enabled(s', Unregister(c)) ==>
                  Reachable(Next(s', Unregister(c)), |s.connections|))
  {
    var s' := Next(s, Connect(name));
    if c :| 0 <= c < |s.connections| && s.connections[c].name == name
            && !s.connections[c].phase.Over? && !s.connections[c].phase.Unregistered? {
      assert s'.connections[c] == s.connections[c];
      if s.connections[c].phase.Interrupted? {
        assert Enabled(s', Unregister(c)) && !Reachable(Next(s', Unregister(c)), |s.connections|);
      } else {
        assert !Reachable(s', c);
      }
    }
  }

  // ---------- What a new connection has to fear ----------

  ghost predicate NoOther(events: seq<Event>, name: string) {
    forall i :: 0 <= i < |events| ==> events[i] != Connect(name)
  }

  /** Something that can follow without another hello of the agent. */
  ghost predicate Follows(s: State, run: seq<State>, events: seq<Event>, name: string) {
    IsRunFrom(s, run, events) && NoOther(events, name)
  }

  /** Whatever happens next short of another hello of the agent, the connection keeps its sender while it is open. */
  ghost predicate StaysReachable(s: State, name: string, c: nat) {
    forall run: seq<State>, events: seq<Event> :: Follows(s, run, events, name) && At(run[|events|], c, Open) ==>
      Reachable(run[|events|], c)
  }

  /** ... and the server knows of the agent while the connection is open. */
  ghost predicate StaysKnown(s: State, name: string, c: nat) {
    forall run: seq<State>, events: seq<Event> :: Follows(s, run, events, name) && At(run[|events|], c, Open) ==>
      Present(run[|events|].reports, name)
  }

  /** All other connections of the agent are in one of the two last phases, or in the very last. */
  ghost predicate OthersDone(s: State, name: string, c: nat, reported: bool) {
    && c < |s.connections| && s.connections[c].name == name
    && forall d :: 0 <= d < |s.connections| && d != c && s.connections[d].name == name ==>
         s.connections[d].phase.Over? || (!reported && s.connections[d].phase.Unregistered?)
  }

  ghost predicate Kept(s: State, name: string, c: nat, reported: bool) {
    && OthersDone(s, name, c, reported)
    && (InUse(s, c) || At(s, c, Interrupted) ==> Reachable(s, c))
    && (reported && At(s, c, Open) ==> Present(s.reports, name))
  }

  lemma NextKeeps(s: State, ev: Event, name: string, c: nat, reported: bool)
    requires Kept(s, name, c, reported) && Enabled(s, ev) && ev != Connect(name)
    ensures Kept(Next(s, ev), name, c, reported)
  {
    hide Present;
    var s' := Next(s, ev);
    if ev.Announce? || ev.ReportGone? {
      PresentSnoc(s.reports, s'.reports[|s.reports|], name);
    }
  }

  lemma {:induction false} RunKeeps(s: State, run: seq<State>, events: seq<Event>, name: string, c: nat, reported: bool)
    requires Kept(s, name, c, reported) && IsRunFrom(s, run, events) && NoOther(events, name)
    ensures Kept(run[|events|], name, c, reported)
  {
    if events != [] {
      var last := |events| - 1;
      assert Enabled(run[last], events[last]) && run[last + 1] == Next(run[last], events[last]);
      var before := events[..last];
      assert forall i :: 0 <= i < last ==> before[i] == events[i];
      RunKeeps(s, run[..last + 1], before, name, c, reported);
      NextKeeps(run[last], events[last], name, c, reported);
    }
  }

  lemma RunCons(s: State, ev: Event, run: seq<State>, events: seq<Event>)
    requires Enabled(s, ev) && IsRunFrom(Next(s, ev), run, events)
    ensures IsRunFrom(s, [s] + run, [ev] + events)
  {
    var run', events' := [s] + run, [ev] + events;
    forall i | 0 <= i < |events'|
      ensures Enabled(run'[i], events'[i]) && run'[i + 1] == Next(run'[i], events'[i])
    {
      if i > 0 {
        assert Enabled(run[i - 1], events[i - 1]) && run[i - 1 + 1] == Next(run[i - 1], events[i - 1]);
      }
    }
  }

  function Rank(phase: Phase): nat {
    match phase
    case Registered => 4
    case Open => 3
    case Interrupted => 2
    case Unregistered => 1
    case Over => 0
  }

  function TowardsEnd(phase: Phase, d: nat): Event {
    match phase
    case Registered => Announce(d)
    case Open => Fail(d)
    case Interrupted => Unregister(d)
    case _ => ReportGone(d)
  }

  /** An older connection that is not over can go through its remaining phases next. */
  lemma {:induction false} OldOneFinishes(s: State, name: string, c: nat, d: nat)
    returns (run: seq<State>, events: seq<Event>)
    requires At(s, c, Open) && c != d && d < |s.connections| && !s.connections[d].phase.Over?
    requires s.connections[c].name == s.connections[d].name == name
    ensures IsRunFrom(s, run, events) && NoOther(events, name) && At(run[|events|], c, Open)
    ensures !Present(run[|events|].reports, name)
    ensures !At(s, d, Unregistered) || name !in s.senders ==> !Reachable(run[|events|], c)
    decreases Rank(s.connections[d].phase)
  {
    hide Present;
    var ev := TowardsEnd(s.connections[d].phase, d);
    var s' := Next(s, ev);
    if At(s, d, Unregistered) {
      PresentSnoc(s.reports, AgentGone(name), name);
      run, events := [s'], [];
    } else {
      run, events := OldOneFinishes(s', name, c, d);
    }
    RunCons(s, ev, run, events);
    assert ([s] + run)[|[ev] + events|] == run[|events|];
    run, events := [s] + run, [ev] + events;
  }

  lemma OldOneDisturbs(s: State, name: string, d: nat) returns (run: seq<State>, events: seq<Event>)
    requires d < |s.connections| && s.connections[d].name == name && !s.connections[d].phase.Over?
    ensures var s', c := Next(s, Connect(name)), |s.connections|;
            && IsRunFrom(s', run, events) && NoOther(events, name) && At(run[|events|], c, Open)
            && !Present(run[|events|].reports, name) && (!At(s, d, Unregistered) ==> !Reachable(run[|events|], c))
  {
    var s', c := Next(s, Connect(name)), |s.connections|;
    var s1 := Next(s', Announce(c));
    run, events := OldOneFinishes(s1, name, c, d);
    RunCons(s', Announce(c), run, events);
    assert ([s'] + run)[|[Announce(c)] + events|] == run[|events|];
    run, events := [s'] + run, [Announce(c)] + events;
  }

  /**
   Over all that can follow, a new connection keeps its sender while it is open if and
   only if every older connection of the agent has given up its own.
   */
  lemma StaysReachableIff(s: State, name: string)
    ensures StaysReachable(Next(s, Connect(name)), name, |s.connections|) <==> NoneBefore(s, name)
  {
    var s', c := Next(s, Connect(name)), |s.connections|;
    if NoneBefore(s, name) {
      forall run: seq<State>, events: seq<Event> | Follows(s', run, events, name) && At(run[|events|], c, Open)
        ensures Reachable(run[|events|], c)
      {
        RunKeeps(s', run, events, name, c, false);
      }
    } else {
      var d :| 0 <= d < |s.connections| && s.connections[d].name == name
               && !s.connections[d].phase.Over? && !s.connections[d].phase.Unregistered?;
      var run, events := OldOneDisturbs(s, name, d);
    }
  }

  /**
   Over all that can follow, the server knows of the agent while its new connection is
   open if and only if every older connection of the agent is over.
   */
  lemma StaysKnownIff(s: State, name: string)
    ensures StaysKnown(Next(s, Connect(name)), name, |s.connections|) <==> OldOnesOver(s, Connect(name))
  {
    var s', c := Next(s, Connect(name)), |s.connections|;
    if OldOnesOver(s, Connect(name)) {
      forall run: seq<State>, events: seq<Event> | Follows(s', run, events, name) && At(run[|events|], c, Open)
        ensures Present(run[|events|].reports, name)
      {
        RunKeeps(s', run, events, name, c, true);
      }
    } else {
      var d :| 0 <= d < |s.connections| && s.connections[d].name == name && !s.connections[d].phase.Over?;
      var run, events := OldOneDisturbs(s, name, d);
    }
  }

  /** A report that comes late lets the server drop an agent that is connected and has its sender. */
  lemma LateReportHidesAgent(name: string) returns (run: seq<State>, events: seq<Event>)
    ensures IsRun(run, events) && At(run[|events|], 1, Open)
    ensures Reachable(run[|events|], 1) && !Present(run[|events|].reports, name)
  {
    hide Present;
    events := [Connect(name), Announce(0), Fail(0), Unregister(0), Connect(name), Announce(1), ReportGone(0)];
    var s1 := Next(INIT, Connect(name));
    var s2 := Next(s1, Announce(0));
    var s3 := Next(s2, Fail(0));
    var s4 := Next(s3, Unregister(0));
    var s5 := Next(s4, Connect(name));
    var s6 := Next(s5, Announce(1));
    run := [INIT, s1, s2, s3, s4, s5, s6, Next(s6, ReportGone(0))];
    PresentSnoc(s6.reports, AgentGone(name), name);
  }

  /** An old task that notices its broken connection late cuts off the agent that is back already. */
  lemma LateRemovalCutsOff(name: string) returns (run: seq<State>, events: seq<Event>)
    ensures IsRun(run, events) && At(run[|events|], 1, Open) && !Reachable(run[|events|], 1)
  {
    events := [Connect(name), Announce(0), Fail(0), Connect(name), Announce(1), Unregister(0)];
    var s1 := Next(INIT, Connect(name));
    var s2 := Next(s1, Announce(0));
    var s3 := Next(s2, Fail(0));
    var s4 := Next(s3, Connect(name));
    var s5 := Next(s4, Announce(1));
    var s6 := Next(s5, Unregister(0));
    run := [INIT, s1, s2, s3, s4, s5, s6];
  }

  // ---------- How long a sender stays ----------

  /** A new hello of the agent, or the removal by any of its connections. */
  predicate TakesSender(s: State, ev: Event, name: string)
    requires Enabled(s, ev)
  {
    ev == Connect(name) || (ev.Unregister? && s.connections[ev.connection].name == name)
  }

  lemma ReachableNext(s: State, ev: Event, c: nat)
    requires Enabled(s, ev) && c < |s.connections|
    ensures Reachable(Next(s, ev), c) <==> Reachable(s, c) && !TakesSender(s, ev, s.connections[c].name)
    ensures Next(s, ev).connections[c].name == s.connections[c].name
  {
  }

  /**
   Over every run: the sender of a connection is registered if and only if since it
   was stored the agent said no new hello and none of its connections was removed. How
   the connection itself ended does not matter.
   */
  lemma {:induction false} SenderStaysIff(run: seq<State>, events: seq<Event>, i: nat, name: string)
    requires IsRun(run, events) && i < |events| && events[i] == Connect(name)
    ensures var c := |run[i].connections|;
            && c < |run[|events|].connections| && run[|events|].connections[c].name == name
            && (Reachable(run[|events|], c) <==>
                forall j :: i < j < |events| ==> Enabled(run[j], events[j]) && !TakesSender(run[j], events[j], name))
  {
    var last := |events| - 1;
    var init, front := events[..last], run[..last + 1];
    assert Enabled(run[last], events[last]) && run[last + 1] == Next(run[last], events[last]);
    assert forall j :: 0 <= j < last ==> init[j] == events[j];
    assert forall j :: 0 <= j <= last ==> front[j] == run[j];
    if i < last {
      SenderStaysIff(front, init, i, name);
      ReachableNext(run[last], events[last], |run[i].connections|);
    }
  }

  /** So an orderly end takes nothing, and a sender that was registered then stays until one of these steps. */
  lemma EndLeavesSender(run: seq<State>, events: seq<Event>, i: nat, k: nat, name: string)
    requires IsRun(run, events) && i < k < |events| && events[i] == Connect(name)
    requires events[k] == End(|run[i].connections|)
    ensures At(run[k + 1], |run[i].connections|, Over)
    ensures Reachable(run[|events|], |run[i].connections|) <==>
            && Reachable(run[k], |run[i].connections|)
            && forall j :: k < j < |events| ==> Enabled(run[j], events[j]) && !TakesSender(run[j], events[j], name)
  {
    assert Enabled(run[k], events[k]) && run[k + 1] == Next(run[k], events[k]);
    var init, front := events[..k], run[..k + 1];
    assert forall j :: 0 <= j < k ==> init[j] == events[j];
    assert forall j :: 0 <= j <= k ==> front[j] == run[j];
    SenderStaysIff(run, events, i, name);
    SenderStaysIff(front, init, i, name);
    assert !TakesSender(run[k], events[k], name);
  }

  // ---------- What every connection goes through ----------

  predicate Concerns(ev: Event, c: nat) {
    !ev.Connect? && ev.connection == c
  }

  function EventsOf(events: seq<Event>, c: nat): seq<Event> {
    if events == [] then []
    else
      var last := events[|events| - 1];
      EventsOf(events[..|events| - 1], c) + (if Concerns(last, c) then [last] else [])
  }

  ghost predicate FitsPhase(history: seq<Event>, c: nat, phase: Phase) {
    match phase
    case Registered => history == []
    case Open => history == [Announce(c)]
    case Interrupted => history == [Announce(c), Fail(c)]
    case Unregistered => history == [Announce(c), Fail(c), Unregister(c)]
    case Over => history == [Announce(c), End(c)] || history == [Announce(c), Fail(c), Unregister(c), ReportGone(c)]
  }

  lemma {:induction false} NoEventsYet(run: seq<State>, events: seq<Event>, c: nat)
    requires IsRun(run, events) && c >= |run[|events|].connections|
    ensures EventsOf(events, c) == []
  {
    if events != [] {
      var last := |events| - 1;
      assert Enabled(run[last], events[last]) && run[last + 1] == Next(run[last], events[last]);
      NoEventsYet(run[..last + 1], events[..last], c);
    }
  }

  /** One step of a connection's history; a step of another connection leaves it. */
  lemma HistoryStep(s: State, ev: Event, history: seq<Event>, c: nat)
    requires Enabled(s, ev) && c < |s.connections| && FitsPhase(history, c, s.connections[c].phase)
    ensures FitsPhase(history + (if Concerns(ev, c) then [ev] else []), c, Next(s, ev).connections[c].phase)
  {
    match ev
    case Connect(_) => assert history + [] == history;
    case Announce(d) => assert c != d ==> history + [] == history;
    case End(d) => assert c != d ==> history + [] == history;
    case Fail(d) => assert c != d ==> history + [] == history;
    case Unregister(d) => assert c != d ==> history + [] == history;
    case ReportGone(d) => assert c != d ==> history + [] == history;
  }

  lemma HistoryStart(s: State, ev: Event, c: nat)
    requires Enabled(s, ev) && |s.connections| <= c < |Next(s, ev).connections|
    ensures ev.Connect? && FitsPhase([], c, Next(s, ev).connections[c].phase)
  {
  }

  /**
   Over every run, sequential or not: a connection that was interrupted gives rise
   to one removal and then one report that the agent is gone, any other to neither.
   */
  lemma {:induction false} OneRemovalOneReport(run: seq<State>, events: seq<Event>, c: nat)
    requires IsRun(run, events) && c < |run[|events|].connections|
    ensures FitsPhase(EventsOf(events, c), c, run[|events|].connections[c].phase)
  {
    if events != [] {
      var last := |events| - 1;
      assert Enabled(run[last], events[last]) && run[last + 1] == Next(run[last], events[last]);
      hide Next, Enabled, FitsPhase;
      if c < |run[last].connections| {
        OneRemovalOneReport(run[..last + 1], events[..last], c);
        HistoryStep(run[last], events[last], EventsOf(events[..last], c), c);
      } else {
        NoEventsYet(run[..last + 1], events[..last], c);
        HistoryStart(run[last], events[last], c);
        assert [] + [] == EventsOf(events, c);
      }
    }
  }
}
