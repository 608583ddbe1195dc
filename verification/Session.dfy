/**
 The session of a workload on its control interface: the initial hello, then a
 loop that takes responses from the server and requests from the workload in any
 order. Every write to the pipe may fail.
 */
module Session {
  import opened Sequences
  import opened Options
  import opened Authorizer
  import RequestId

  datatype ResponseContent = LogEntries(data: string) | AccessDenied | OtherContent(data: string)
  datatype Response = Response(id: string, content: ResponseContent)
  datatype Request = Request(id: string, content: Option<RequestContent>)

  /** What reading from the pipe gives; the last two are well-formed messages. */
  datatype Read = Undecodable | Unconvertible | Hello(version: string) | Asks(request: Request)
  datatype WriteResult = Written | ReceiverGone | IoError

  /** One round of the loop, with the result of the write to the pipe it may do. */
  datatype Input =
    | ServerSends(response: Option<Response>, write: WriteResult)
    | WorkloadSends(read: Read, write: WriteResult)

  datatype PipeMessage = Accepted | ConnectionClosed | Reply(response: Response)
  datatype Output =
    | ToPipe(message: PipeMessage, write: WriteResult)
    | Forward(request: Request)
    | CancelLogs(id: string)

  datatype Config = Config(prefix: string, authorizer: Authorizer, compatible: string -> bool)

  // ---------- What the task does ----------

  predicate Opens(c: Config, first: Read) {
    first.Hello? && c.compatible(first.version)
  }

  function Opening(c: Config, first: Read, write: WriteResult): Output {
    if Opens(c, first) then ToPipe(Accepted, write) else ToPipe(ConnectionClosed, write)
  }

  predicate Closes(c: Config, x: Input) {
    x.WorkloadSends? && x.read.Hello? && !c.compatible(x.read.version)
  }

  function Reaction(c: Config, x: Input): seq<Output> {
    match x
    case ServerSends(None, _) => []
    case ServerSends(Some(r), write) =>
      [ToPipe(Reply(r), write)]
      + (if write.ReceiverGone? && r.content.LogEntries? then [CancelLogs(RequestId.PrefixId(c.prefix, r.id))] else [])
    case WorkloadSends(Asks(q), write) =>
      if Authorize(c.authorizer, q.content) then [Forward(q.(id := RequestId.PrefixId(c.prefix, q.id)))]
      else [ToPipe(Reply(Response(q.id, AccessDenied)), write)]
    case WorkloadSends(Hello(_), write) => if Closes(c, x) then [ToPipe(ConnectionClosed, write)] else []
    case WorkloadSends(_, _) => []
  }

  /** The rounds that take place: up to and including one that closes the session. */
  function Handled(c: Config, inputs: seq<Input>): seq<Input> {
    if inputs == [] then []
    else if Closes(c, inputs[0]) then [inputs[0]]
    else [inputs[0]] + Handled(c, inputs[1..])
  }

  function Reactions(c: Config, inputs: seq<Input>): seq<Output> {
    if inputs == [] then [] else Reactions(c, inputs[..|inputs| - 1]) + Reaction(c, inputs[|inputs| - 1])
  }

  function SessionLog(c: Config, first: Read, write: WriteResult, inputs: seq<Input>): seq<Output> {
    [Opening(c, first, write)]
    + (if Opens(c, first) && write.Written? then Reactions(c, Handled(c, inputs)) else [])
  }

  class ControlInterfaceTask {
    const config: Config
    var log: seq<Output>

    constructor (config: Config)
      ensures this.config == config && log == []
    {
      this.config, log := config, [];
    }

    method CheckInitialHello(first: Read) returns (ok: bool)
      ensures ok == Opens(config, first)
    {
      match first
      case Hello(version) => ok := config.compatible(version);
      case Undecodable => ok := false;
      case Unconvertible => ok := false;
      case Asks(_) => ok := false;
    }

    method ForwardFromServer(r: Response, write: WriteResult) returns (noReader: Option<Response>)
      modifies this
      ensures log == old(log) + [ToPipe(Reply(r), write)]
      ensures noReader == if write.ReceiverGone? then Some(r) else None
    {
      log := log + [ToPipe(Reply(r), write)];
      noReader := if write.ReceiverGone? then Some(r) else None;
    }

    method HandleRound(x: Input) returns (open: bool)
      modifies this
      ensures log == old(log) + Reaction(config, x) && open == !Closes(config, x)
    {
      open := true;
      match x
      case ServerSends(response, write) =>
        if response.Some? {
          var noReader := ForwardFromServer(response.value, write);
          if noReader.Some? && noReader.value.content.LogEntries? {
            log := log + [CancelLogs(RequestId.PrefixId(config.prefix, noReader.value.id))];
          }
        }
      case WorkloadSends(Asks(q), write) =>
        if Authorize(config.authorizer, q.content) {
          log := log + [Forward(q.(id := RequestId.PrefixId(config.prefix, q.id)))];
        } else {
          var _ := ForwardFromServer(Response(q.id, AccessDenied), write);
        }
      case WorkloadSends(Hello(version), write) =>
        if !config.compatible(version) {
          log := log + [ToPipe(ConnectionClosed, write)];
          open := false;
        }
      case WorkloadSends(Undecodable, _) =>
      case WorkloadSends(Unconvertible, _) =>
    }

    method Run(first: Read, write: WriteResult, inputs: seq<Input>)
      requires log == []
      modifies this
      ensures log == SessionLog(config, first, write, inputs)
    {
      var ok := CheckInitialHello(first);
      if !ok {
        log := log + [ToPipe(ConnectionClosed, write)];
        return;
      }
      log := log + [ToPipe(Accepted, write)];
      if !write.Written? {
        return;
      }
      Loop(inputs);
    }

    method Loop(inputs: seq<Input>)
      modifies this
      ensures log == old(log) + Reactions(config, Handled(config, inputs))
    {
      hide Reaction, Reactions, Handled;
      var i := 0;
      ghost var handled: seq<Input> := [];
      assert inputs[0..] == inputs && [] + Handled(config, inputs) == Handled(config, inputs);
      NothingHandled(config);
      while i < |inputs|
        invariant 0 <= i <= |inputs|
        invariant log == old(log) + Reactions(config, handled)
        invariant Handled(config, inputs) == handled + Handled(config, inputs[i..])
      {
        var open := HandleRound(inputs[i]);
        ReactionsSnoc(config, handled, inputs[i]);
        HandledNext(config, inputs, i);
        ConcatAssociates(old(log), Reactions(config, handled), Reaction(config, inputs[i]));
        ConcatAssociates(handled, [inputs[i]], Handled(config, inputs[i + 1..]));
        handled := handled + [inputs[i]];
        if !open {
          assert [inputs[i]] + [] == [inputs[i]];
          return;
        }
        i := i + 1;
      }
      assert inputs[i..] == [] && handled + [] == handled;
    }
  }

  lemma NothingHandled(c: Config)
    ensures Handled(c, []) == [] && Reactions(c, []) == []
  {
  }

  lemma ReactionsSnoc(c: Config, inputs: seq<Input>, x: Input)
    ensures Reactions(c, inputs + [x]) == Reactions(c, inputs) + Reaction(c, x)
  {
    assert (inputs + [x])[..|inputs|] == inputs;
  }

  lemma HandledNext(c: Config, inputs: seq<Input>, i: nat)
    requires i < |inputs|
    ensures Handled(c, inputs[i..]) ==
            [inputs[i]] + (if Closes(c, inputs[i]) then [] else Handled(c, inputs[i + 1..]))
  {
    assert inputs[i..][1..] == inputs[i + 1..];
  }

  // ---------- What the whole trace keeps ----------

  lemma {:induction false} ReactionsAt(c: Config, inputs: seq<Input>, k: nat) returns (i: nat)
    requires k < |Reactions(c, inputs)|
    ensures i < |inputs| && Reactions(c, inputs)[k] in Reaction(c, inputs[i])
  {
    var init, last := inputs[..|inputs| - 1], inputs[|inputs| - 1];
    if k < |Reactions(c, init)| {
      i := ReactionsAt(c, init, k);
      assert init[i] == inputs[i];
    } else {
      i := |inputs| - 1;
      assert Reactions(c, inputs)[k] == Reaction(c, last)[k - |Reactions(c, init)|];
    }
  }

  lemma NeverAccepts(c: Config, x: Input, o: Output)
    requires o in Reaction(c, x)
    ensures !(o.ToPipe? && o.message.Accepted?)
  {
  }

  /** Nothing reaches the server before a compatible hello was answered, and the answer is the first and only one. */
  lemma NothingBeforeAccepted(c: Config, first: Read, write: WriteResult, inputs: seq<Input>, k: nat)
    requires k < |SessionLog(c, first, write, inputs)|
    ensures var log := SessionLog(c, first, write, inputs);
            && (log[k].Forward? || log[k].CancelLogs? ==>
                k > 0 && first.Hello? && c.compatible(first.version) && log[0] == ToPipe(Accepted, Written))
            && (log[k].ToPipe? && log[k].message.Accepted? <==>
                k == 0 && first.Hello? && c.compatible(first.version))
  {
    if k > 0 {
      hide Authorize, Handled, Reactions;
      var handled := Handled(c, inputs);
      var i := ReactionsAt(c, handled, k - 1);
      assert SessionLog(c, first, write, inputs)[k] == Reactions(c, handled)[k - 1];
      NeverAccepts(c, handled[i], Reactions(c, handled)[k - 1]);
    }
  }

  lemma {:induction false} OnlyLastCloses(c: Config, inputs: seq<Input>, i: nat)
    requires i < |Handled(c, inputs)| - 1
    ensures !Closes(c, Handled(c, inputs)[i])
  {
    if i > 0 {
      OnlyLastCloses(c, inputs[1..], i - 1);
    }
  }

  predicate IsClosed(o: Output) {
    o.ToPipe? && o.message.ConnectionClosed?
  }

  lemma ReactionOpen(c: Config, x: Input, o: Output)
    requires !Closes(c, x) && o in Reaction(c, x)
    ensures !IsClosed(o)
  {
  }

  lemma ReactionsOpen(c: Config, inputs: seq<Input>, k: nat)
    requires k < |Reactions(c, inputs)| && forall i :: 0 <= i < |inputs| ==> !Closes(c, inputs[i])
    ensures !IsClosed(Reactions(c, inputs)[k])
  {
    var i := ReactionsAt(c, inputs, k);
    ReactionOpen(c, inputs[i], Reactions(c, inputs)[k]);
  }

  lemma ReactionsClosed(c: Config, inputs: seq<Input>, k: nat)
    requires forall i :: 0 <= i < |inputs| - 1 ==> !Closes(c, inputs[i])
    requires k < |Reactions(c, inputs)| && IsClosed(Reactions(c, inputs)[k])
    ensures k == |Reactions(c, inputs)| - 1
  {
    var init, last := inputs[..|inputs| - 1], inputs[|inputs| - 1];
    forall j | 0 <= j < |Reactions(c, init)|
      ensures !IsClosed(Reactions(c, init)[j])
    {
      ReactionsOpen(c, init, j);
    }
    LastReaction(c, last);
  }

  lemma LastReaction(c: Config, x: Input)
    ensures forall k :: 0 <= k < |Reaction(c, x)| && IsClosed(Reaction(c, x)[k]) ==> k == |Reaction(c, x)| - 1
  {
  }

  /** After the connection was closed nothing follows, to the pipe or to the server. */
  lemma NothingAfterClosed(c: Config, first: Read, write: WriteResult, inputs: seq<Input>, k: nat)
    requires k < |SessionLog(c, first, write, inputs)| && IsClosed(SessionLog(c, first, write, inputs)[k])
    ensures k == |SessionLog(c, first, write, inputs)| - 1
  {
    if k > 0 {
      var handled := Handled(c, inputs);
      forall i | 0 <= i < |handled| - 1
        ensures !Closes(c, handled[i])
      {
        OnlyLastCloses(c, inputs, i);
      }
      assert SessionLog(c, first, write, inputs)[k] == Reactions(c, handled)[k - 1];
      ReactionsClosed(c, handled, k - 1);
    }
  }

  /** The rounds up to the first hello with an incompatible version take place, and no others. */
  lemma {:induction false} HandledUntil(c: Config, inputs: seq<Input>, i: nat)
    requires i <= |inputs|
    requires forall j, v, w :: 0 <= j < i && inputs[j] == WorkloadSends(Hello(v), w) ==> c.compatible(v)
    requires i < |inputs| ==> exists v, w :: inputs[i] == WorkloadSends(Hello(v), w) && !c.compatible(v)
    ensures Handled(c, inputs) == if i < |inputs| then inputs[..i + 1] else inputs
  {
    if inputs != [] {
      assert inputs[0].WorkloadSends? && inputs[0].read.Hello? ==>
          inputs[0] == WorkloadSends(Hello(inputs[0].read.version), inputs[0].write);
      if i > 0 {
        HandledUntil(c, inputs[1..], i - 1);
      }
    }
  }

  /**
   A session is closed at once if it does not begin with a compatible hello, later by an
   incompatible one, and for no other reason.
   */
  lemma ClosedIff(c: Config, first: Read, write: WriteResult, inputs: seq<Input>, i: nat)
    requires i <= |inputs|
    requires forall j, v, w :: 0 <= j < i && inputs[j] == WorkloadSends(Hello(v), w) ==> c.compatible(v)
    requires i < |inputs| ==> exists v, w :: inputs[i] == WorkloadSends(Hello(v), w) && !c.compatible(v)
    ensures var log := SessionLog(c, first, write, inputs);
            var accepted := first.Hello? && c.compatible(first.version);
            && (IsClosed(log[0]) <==> !accepted)
            && ((exists k :: 0 < k < |log| && IsClosed(log[k])) <==> accepted && write.Written? && i < |inputs|)
  {
    var log, handled := SessionLog(c, first, write, inputs), Handled(c, inputs);
    HandledUntil(c, inputs, i);
    if Opens(c, first) && write.Written? {
      if i < |inputs| {
        assert Closes(c, handled[i]) && handled[..i] + [handled[i]] == handled;
        ReactionsSnoc(c, handled[..i], handled[i]);
        assert IsClosed(log[|log| - 1]);
      } else {
        forall k | 0 < k < |log|
          ensures !IsClosed(log[k])
        {
          ReactionsOpen(c, handled, k - 1);
          assert log[k] == Reactions(c, handled)[k - 1];
        }
      }
    }
  }

  lemma {:induction false} HandledPrefix(c: Config, inputs: seq<Input>, n: nat)
    requires n <= |inputs|
    ensures Handled(c, inputs[..n]) <= Handled(c, inputs)
  {
    if n > 0 {
      assert inputs[..n][1..] == inputs[1..][..n - 1];
      HandledPrefix(c, inputs[1..], n - 1);
    }
  }

  lemma {:induction false} ReactionsPrefix(c: Config, a: seq<Input>, b: seq<Input>)
    requires a <= b
    ensures Reactions(c, a) <= Reactions(c, b)
  {
    if a != b {
      assert a <= b[..|b| - 1];
      ReactionsPrefix(c, a, b[..|b| - 1]);
    }
  }

  /** The trace only grows, so what holds of every trace holds at every moment. */
  lemma LogOnlyGrows(c: Config, first: Read, write: WriteResult, inputs: seq<Input>, n: nat)
    requires n <= |inputs|
    ensures SessionLog(c, first, write, inputs[..n]) <= SessionLog(c, first, write, inputs)
  {
    HandledPrefix(c, inputs, n);
    ReactionsPrefix(c, Handled(c, inputs[..n]), Handled(c, inputs));
  }

  // ---------- Every request is answered once, in order ----------

  function Forwarded(log: seq<Output>): seq<Request> {
    if log == [] then []
    else Forwarded(log[..|log| - 1]) + (if log[|log| - 1].Forward? then [log[|log| - 1].request] else [])
  }

  function Replied(log: seq<Output>): seq<Response> {
    if log == [] then []
    else
      var o := log[|log| - 1];
      Replied(log[..|log| - 1]) + (if o.ToPipe? && o.message.Reply? then [o.message.response] else [])
  }

  function Cancelled(log: seq<Output>): seq<string> {
    if log == [] then []
    else Cancelled(log[..|log| - 1]) + (if log[|log| - 1].CancelLogs? then [log[|log| - 1].id] else [])
  }

  /** The authorized requests of the workload, with the prefix. */
  function ToForward(c: Config, inputs: seq<Input>): seq<Request> {
    if inputs == [] then []
    else
      var rest, x := ToForward(c, inputs[..|inputs| - 1]), inputs[|inputs| - 1];
      if x.WorkloadSends? && x.read.Asks? && Authorize(c.authorizer, x.read.request.content)
      then rest + [x.read.request.(id := c.prefix + x.read.request.id)] else rest
  }

  /** The responses of the server and the denials, the latter with the workload's own id. */
  function ToReply(c: Config, inputs: seq<Input>): seq<Response> {
    if inputs == [] then []
    else
      var rest, x := ToReply(c, inputs[..|inputs| - 1]), inputs[|inputs| - 1];
      if x.ServerSends? then (if x.response.Some? then rest + [x.response.value] else rest)
      else if x.read.Asks? && !Authorize(c.authorizer, x.read.request.content)
      then rest + [Response(x.read.request.id, AccessDenied)] else rest
  }

  /** The log entries that found no reader. */
  function ToCancel(c: Config, inputs: seq<Input>): seq<string> {
    if inputs == [] then []
    else
      var rest, x := ToCancel(c, inputs[..|inputs| - 1]), inputs[|inputs| - 1];
      if x.ServerSends? && x.response.Some? && x.write.ReceiverGone? && x.response.value.content.LogEntries?
      then rest + [c.prefix + x.response.value.id] else rest
  }

  lemma {:induction false} ProjectConcat(a: seq<Output>, b: seq<Output>)
    ensures Forwarded(a + b) == Forwarded(a) + Forwarded(b)
    ensures Replied(a + b) == Replied(a) + Replied(b)
    ensures Cancelled(a + b) == Cancelled(a) + Cancelled(b)
  {
    if b == [] {
      assert a + b == a;
    } else {
      var init := b[..|b| - 1];
      assert (a + b)[..|a + b| - 1] == a + init;
      ProjectConcat(a, init);
      ConcatAssociates(Forwarded(a), Forwarded(init), Forwarded(b)[|Forwarded(init)|..]);
      ConcatAssociates(Replied(a), Replied(init), Replied(b)[|Replied(init)|..]);
      ConcatAssociates(Cancelled(a), Cancelled(init), Cancelled(b)[|Cancelled(init)|..]);
    }
  }

  lemma ProjectOne(o: Output)
    ensures Forwarded([o]) == if o.Forward? then [o.request] else []
    ensures Replied([o]) == if o.ToPipe? && o.message.Reply? then [o.message.response] else []
    ensures Cancelled([o]) == if o.CancelLogs? then [o.id] else []
  {
    assert [o][..0] == [];
    assert Forwarded([o]) == Forwarded([]) + (if o.Forward? then [o.request] else []);
    assert Replied([o]) == Replied([]) + (if o.ToPipe? && o.message.Reply? then [o.message.response] else []);
    assert Cancelled([o]) == Cancelled([]) + (if o.CancelLogs? then [o.id] else []);
  }

  lemma ToOne(c: Config, x: Input)
    ensures ToForward(c, [x]) == (if x.WorkloadSends? && x.read.Asks? && Authorize(c.authorizer, x.read.request.content)
                                  then [x.read.request.(id := c.prefix + x.read.request.id)] else [])
    ensures ToReply(c, [x]) == (if x.ServerSends? then (if x.response.Some? then [x.response.value] else [])
                                else if x.read.Asks? && !Authorize(c.authorizer, x.read.request.content)
                                then [Response(x.read.request.id, AccessDenied)] else [])
    ensures ToCancel(c, [x]) == (if x.ServerSends? && x.response.Some? && x.write.ReceiverGone?
                                    && x.response.value.content.LogEntries?
                                 then [c.prefix + x.response.value.id] else [])
  {
    hide Authorize;
    assert [x][..0] == [];
    assert ToForward(c, []) == [] && ToReply(c, []) == [] && ToCancel(c, []) == [];
  }

  lemma ProjectReaction(c: Config, x: Input)
    ensures Forwarded(Reaction(c, x)) == ToForward(c, [x])
    ensures Replied(Reaction(c, x)) == ToReply(c, [x])
    ensures Cancelled(Reaction(c, x)) == ToCancel(c, [x])
  {
    ToOne(c, x);
    hide Authorize, ToForward, ToReply, ToCancel;
    var r := Reaction(c, x);
    if |r| == 1 {
      assert r == [r[0]];
      ProjectOne(r[0]);
    } else if |r| == 2 {
      assert r == [r[0]] + [r[1]];
      ProjectConcat([r[0]], [r[1]]);
      ProjectOne(r[0]);
      ProjectOne(r[1]);
    }
  }

  lemma ToSnoc(c: Config, inputs: seq<Input>, x: Input)
    ensures ToForward(c, inputs + [x]) == ToForward(c, inputs) + ToForward(c, [x])
    ensures ToReply(c, inputs + [x]) == ToReply(c, inputs) + ToReply(c, [x])
    ensures ToCancel(c, inputs + [x]) == ToCancel(c, inputs) + ToCancel(c, [x])
  {
    assert (inputs + [x])[..|inputs|] == inputs && [x][..0] == [];
    assert ToForward(c, []) == [] && ToReply(c, []) == [] && ToCancel(c, []) == [];
  }

  lemma {:induction false} ProjectReactions(c: Config, inputs: seq<Input>)
    ensures Forwarded(Reactions(c, inputs)) == ToForward(c, inputs)
    ensures Replied(Reactions(c, inputs)) == ToReply(c, inputs)
    ensures Cancelled(Reactions(c, inputs)) == ToCancel(c, inputs)
  {
    if inputs != [] {
      hide Reaction, Forwarded, Replied, Cancelled, ToForward, ToReply, ToCancel;
      var init, x := inputs[..|inputs| - 1], inputs[|inputs| - 1];
      assert inputs == init + [x];
      ProjectReactions(c, init);
      ProjectConcat(Reactions(c, init), Reaction(c, x));
      ProjectReaction(c, x);
      ToSnoc(c, init, x);
    }
  }

  /**
   In an open session each request that is taken up is forwarded once with the
   prefix if it is authorized and answered once with its own id if not; the
   responses of the server are passed on; and exactly the log entries that found
   no reader are cancelled. All of it happens in the order of the rounds.
   */
  lemma SessionAnswersInOrder(c: Config, first: Read, inputs: seq<Input>)
    requires Opens(c, first)
    ensures var log, handled := SessionLog(c, first, Written, inputs), Handled(c, inputs);
            && Forwarded(log) == ToForward(c, handled)
            && Replied(log) == ToReply(c, handled)
            && Cancelled(log) == ToCancel(c, handled)
  {
    var opening := ToPipe(Accepted, Written);
    ProjectReactions(c, Handled(c, inputs));
    ProjectConcat([opening], Reactions(c, Handled(c, inputs)));
    ProjectOne(opening);
  }

  lemma {:induction false} ForwardedFrom(c: Config, inputs: seq<Input>, q: Request)
    requires q in ToForward(c, inputs)
    ensures exists x :: x in inputs && x.WorkloadSends? && x.read.Asks?
                        && Authorize(c.authorizer, x.read.request.content)
                        && q == x.read.request.(id := c.prefix + x.read.request.id)
  {
    var init, x := inputs[..|inputs| - 1], inputs[|inputs| - 1];
    if q in ToForward(c, init) {
      ForwardedFrom(c, init, q);
      var y :| y in init && y.WorkloadSends? && y.read.Asks? && Authorize(c.authorizer, y.read.request.content)
               && q == y.read.request.(id := c.prefix + y.read.request.id);
      assert y in inputs;
    } else {
      assert x in inputs;
    }
  }

  /** Whatever the server answers to a forwarded request comes back to this workload under its own id. */
  lemma AnswersComeBack(agents: map<string, set<string>>, agent: string, workload: string, c: Config, first: Read,
                        inputs: seq<Input>, q: Request)
    requires agent in agents && workload in agents[agent] && c.prefix == RequestId.WorkloadPrefix(workload)
    requires agent != "" && RequestId.SEPARATOR !in agent && RequestId.SEPARATOR !in workload
    requires Opens(c, first) && q in Forwarded(SessionLog(c, first, Written, inputs))
    ensures exists x :: x in Handled(c, inputs) && x.WorkloadSends? && x.read.Asks?
                        && Authorize(c.authorizer, x.read.request.content)
                        && RequestId.Deliver(agents, RequestId.Prepend(q.id, agent))
                           == Some(RequestId.Delivery(agent, workload, x.read.request.id))
  {
    SessionAnswersInOrder(c, first, inputs);
    ForwardedFrom(c, Handled(c, inputs), q);
    var x :| x in Handled(c, inputs) && x.WorkloadSends? && x.read.Asks?
             && Authorize(c.authorizer, x.read.request.content)
             && q == x.read.request.(id := c.prefix + x.read.request.id);
    RequestId.ResponseReachesRequester(agents, agent, workload, x.read.request.id);
    assert RequestId.AtServer(agent, workload, x.read.request.id) == RequestId.Prepend(q.id, agent);
  }
}
