/**
 Forwarding of logs: the receivers of all requested workloads are read as they
 become ready, in any order, until each of them has ended.
 */
module LogFacade {
  import opened Sequences
  import opened Workloads

  type Batch = seq<string>

  /** A log receiver with the batches it will still give before it ends. */
  datatype Receiver = Receiver(workload: InstanceName, batches: seq<Batch>)
  datatype LogMessage = Entries(workload: InstanceName, lines: Batch) | Stop(workload: InstanceName)

  /** A read that is under way; `receiver` counts the receivers from 0. */
  datatype LogFuture = LogFuture(receiver: nat, rest: Receiver)

  /** What one receiver gives rise to: its batches in order, then one stop. */
  function Expected(r: Receiver): seq<LogMessage>
    decreases |r.batches|
  {
    if r.batches == [] then [Stop(r.workload)]
    else [Entries(r.workload, r.batches[0])] + Expected(r.(batches := r.batches[1..]))
  }

  /** The messages that came from one receiver. */
  function Of(sent: seq<LogMessage>, order: seq<nat>, r: nat): seq<LogMessage>
    requires |sent| == |order|
  {
    if sent == [] then []
    else
      Of(sent[..|sent| - 1], order[..|order| - 1], r)
      + (if order[|order| - 1] == r then [sent[|sent| - 1]] else [])
  }

  /** Every receiver's messages arrive completely and in order, however they are interleaved. */
  ghost predicate IsInterleaving(receivers: seq<Receiver>, order: seq<nat>, sent: seq<LogMessage>) {
    && |order| == |sent| && (forall i :: 0 <= i < |order| ==> order[i] < |receivers|)
    && (forall r :: 0 <= r < |receivers| ==> Of(sent, order, r) == Expected(receivers[r]))
  }

  function Remaining(futures: seq<LogFuture>): nat {
    if futures == [] then 0 else |futures[0].rest.batches| + 1 + Remaining(futures[1..])
  }

  lemma {:induction false} RemainingConcat(a: seq<LogFuture>, b: seq<LogFuture>)
    ensures Remaining(a + b) == Remaining(a) + Remaining(b)
  {
    if a == [] {
      assert a + b == b;
    } else {
      DropConcat(a, b, 1);
      RemainingConcat(a[1..], b);
    }
  }

  lemma RemainingOne(f: LogFuture)
    ensures Remaining([f]) == |f.rest.batches| + 1
  {
    assert [f][1..] == [];
  }

  lemma RemainingRemoveAt(futures: seq<LogFuture>, i: nat)
    requires i < |futures|
    ensures Remaining(futures) == Remaining(RemoveAt(futures, i)) + |futures[i].rest.batches| + 1
  {
    assert futures == futures[..i] + [futures[i]] + futures[i + 1..];
    RemainingConcat(futures[..i] + [futures[i]], futures[i + 1..]);
    RemainingConcat(futures[..i], [futures[i]]);
    RemainingConcat(futures[..i], futures[i + 1..]);
    RemainingOne(futures[i]);
  }

  /** What is still to come from a receiver. */
  ghost predicate Accounts(receivers: seq<Receiver>, futures: seq<LogFuture>, order: seq<nat>, sent: seq<LogMessage>) {
    && |order| == |sent| && (forall i :: 0 <= i < |order| ==> order[i] < |receivers|)
    && (forall i :: 0 <= i < |futures| ==> futures[i].receiver < |receivers|)
    && (forall i, j :: 0 <= i < j < |futures| ==> futures[i].receiver != futures[j].receiver)
    && (forall i :: 0 <= i < |futures| ==>
        var r := futures[i].receiver; Of(sent, order, r) + Expected(futures[i].rest) == Expected(receivers[r]))
    && (forall r :: 0 <= r < |receivers| && (forall i :: 0 <= i < |futures| ==> futures[i].receiver != r) ==>
        Of(sent, order, r) == Expected(receivers[r]))
  }

  lemma OfSnoc(sent: seq<LogMessage>, order: seq<nat>, m: LogMessage, s: nat, r: nat)
    requires |sent| == |order|
    ensures Of(sent + [m], order + [s], r) == Of(sent, order, r) + (if s == r then [m] else [])
  {
    assert (sent + [m])[..|sent|] == sent && (order + [s])[..|order|] == order;
  }

  lemma EntriesAccounted(receivers: seq<Receiver>, futures: seq<LogFuture>, order: seq<nat>, sent: seq<LogMessage>,
                         i: nat)
    requires Accounts(receivers, futures, order, sent) && i < |futures| && futures[i].rest.batches != []
    ensures var f := futures[i];
            Accounts(receivers, RemoveAt(futures, i) + [f.(rest := f.rest.(batches := f.rest.batches[1..]))],
                     order + [f.receiver], sent + [Entries(f.rest.workload, f.rest.batches[0])])
  {
    hide Of, Expected;
    var f := futures[i];
    ExpectedNext(f.rest);
    var m, next := Entries(f.rest.workload, f.rest.batches[0]), f.(rest := f.rest.(batches := f.rest.batches[1..]));
    var futures' := RemoveAt(futures, i) + [next];
    var last := |futures| - 1;
    assert forall k :: 0 <= k < i ==> futures'[k] == futures[k];
    assert forall k :: i <= k < last ==> futures'[k] == futures[k + 1];
    assert futures'[last] == next;
    OfSnoc(sent, order, m, f.receiver, f.receiver);
    ConcatAssociates(Of(sent, order, f.receiver), [m], Expected(next.rest));
    Unconcerned(sent, order, m, f.receiver);
    forall r | 0 <= r < |receivers| && (forall k :: 0 <= k < |futures'| ==> futures'[k].receiver != r)
      ensures Of(sent + [m], order + [f.receiver], r) == Expected(receivers[r])
    {
      assert futures'[last].receiver != r;
      forall k | 0 <= k < |futures|
        ensures futures[k].receiver != r
      {
        assert k < i ==> futures'[k] == futures[k];
        assert k > i ==> futures'[k - 1] == futures[k];
      }
    }
  }

  lemma ExpectedNext(r: Receiver)
    requires r.batches != []
    ensures Expected(r) == [Entries(r.workload, r.batches[0])] + Expected(r.(batches := r.batches[1..]))
  {
  }

  lemma Unconcerned(sent: seq<LogMessage>, order: seq<nat>, m: LogMessage, s: nat)
    requires |sent| == |order|
    ensures forall r: nat :: r != s ==> Of(sent + [m], order + [s], r) == Of(sent, order, r)
  {
    forall r: nat | r != s
      ensures Of(sent + [m], order + [s], r) == Of(sent, order, r)
    {
      OfSnoc(sent, order, m, s, r);
    }
  }

  lemma StopAccounted(receivers: seq<Receiver>, futures: seq<LogFuture>, order: seq<nat>, sent: seq<LogMessage>, i: nat)
    requires Accounts(receivers, futures, order, sent) && i < |futures| && futures[i].rest.batches == []
    ensures var f := futures[i];
            Accounts(receivers, RemoveAt(futures, i), order + [f.receiver], sent + [Stop(f.rest.workload)])
  {
    hide Of;
    var f := futures[i];
    var m, futures' := Stop(f.rest.workload), RemoveAt(futures, i);
    assert forall k :: 0 <= k < i ==> futures'[k] == futures[k];
    assert forall k :: i <= k < |futures'| ==> futures'[k] == futures[k + 1];
    OfSnoc(sent, order, m, f.receiver, f.receiver);
    Unconcerned(sent, order, m, f.receiver);
    forall r | 0 <= r < |receivers| && (forall k :: 0 <= k < |futures'| ==> futures'[k].receiver != r)
      ensures Of(sent + [m], order + [f.receiver], r) == Expected(receivers[r])
    {
      if r != f.receiver {
        forall k | 0 <= k < |futures|
          ensures futures[k].receiver != r
        {
          assert k < i ==> futures'[k] == futures[k];
          assert k > i ==> futures'[k - 1] == futures[k];
        }
      }
    }
  }

  /** At the start everything the receivers will give is still to come. */
  method ConvertLogReceiversToFutures(receivers: seq<Receiver>) returns (futures: seq<LogFuture>)
    ensures Accounts(receivers, futures, [], [])
  {
    futures := seq(|receivers|, i requires 0 <= i < |receivers| => LogFuture(i, receivers[i]));
    NothingSent(receivers, futures);
  }

  /** The futures complete in any order; each batch puts its receiver back, the end of a receiver sends its stop. */
  method ConsumeFuturesAndForwardLogsUntilStop(receivers: seq<Receiver>) returns (sent: seq<LogMessage>,
                                               ghost order: seq<nat>)
    ensures IsInterleaving(receivers, order, sent)
    ensures |sent| == 0 || sent[|sent| - 1].Stop?
  {
    hide Accounts, Expected, Of, Remaining;
    var futures := ConvertLogReceiversToFutures(receivers);
    sent, order := [], [];
    while futures != []
      invariant Accounts(receivers, futures, order, sent)
      invariant futures == [] ==> |sent| == 0 || sent[|sent| - 1].Stop?
      decreases Remaining(futures)
    {
      var i: nat :| i < |futures|;
      var f := futures[i];
      RemainingRemoveAt(futures, i);
      if f.rest.batches != [] {
        EntriesAccounted(receivers, futures, order, sent, i);
        var next := f.(rest := f.rest.(batches := f.rest.batches[1..]));
        RemainingConcat(RemoveAt(futures, i), [next]);
        RemainingOne(next);
        sent := sent + [Entries(f.rest.workload, f.rest.batches[0])];
        futures := RemoveAt(futures, i) + [next];
      } else {
        StopAccounted(receivers, futures, order, sent, i);
        sent := sent + [Stop(f.rest.workload)];
        futures := RemoveAt(futures, i);
      }
      order := order + [f.receiver];
    }
    AllStopped(receivers, order, sent);
  }

  lemma NothingSent(receivers: seq<Receiver>, futures: seq<LogFuture>)
    requires |futures| == |receivers| && forall i :: 0 <= i < |futures| ==> futures[i] == LogFuture(i, receivers[i])
    ensures Accounts(receivers, futures, [], [])
  {
  }

  lemma AllStopped(receivers: seq<Receiver>, order: seq<nat>, sent: seq<LogMessage>)
    requires Accounts(receivers, [], order, sent)
    ensures IsInterleaving(receivers, order, sent)
  {
  }

  // ---------- What an interleaving means ----------

  /** Exactly one stop per receiver, and it comes last. */
  lemma {:induction false} OneStopAtTheEnd(r: Receiver)
    ensures var e := Expected(r);
            && |e| == |r.batches| + 1 && e[|r.batches|] == Stop(r.workload)
            && forall i :: 0 <= i < |r.batches| ==> e[i] == Entries(r.workload, r.batches[i])
    decreases |r.batches|
  {
    if r.batches != [] {
      OneStopAtTheEnd(r.(batches := r.batches[1..]));
    }
  }

  function WithName(sent: seq<LogMessage>, w: InstanceName): seq<LogMessage> {
    if sent == [] then []
    else WithName(sent[..|sent| - 1], w) + (if sent[|sent| - 1].workload == w then [sent[|sent| - 1]] else [])
  }

  ghost predicate Sources(receivers: seq<Receiver>, order: seq<nat>, sent: seq<LogMessage>) {
    && |order| == |sent|
    && forall i :: 0 <= i < |sent| ==> order[i] < |receivers| && sent[i].workload == receivers[order[i]].workload
  }

  lemma {:induction false} NameIsSource(receivers: seq<Receiver>, order: seq<nat>, sent: seq<LogMessage>, r: nat)
    requires Sources(receivers, order, sent) && r < |receivers|
    requires forall q :: 0 <= q < |receivers| && q != r ==> receivers[q].workload != receivers[r].workload
    ensures WithName(sent, receivers[r].workload) == Of(sent, order, r)
  {
    if sent != [] {
      var last := |sent| - 1;
      NameIsSource(receivers, order[..last], sent[..last], r);
      assert order[last] < |receivers| && sent[last].workload == receivers[order[last]].workload;
    }
  }

  lemma {:induction false} OfMember(sent: seq<LogMessage>, order: seq<nat>, i: nat)
    requires |sent| == |order| && i < |sent|
    ensures sent[i] in Of(sent, order, order[i])
  {
    var last := |sent| - 1;
    if i < last {
      OfMember(sent[..last], order[..last], i);
      assert sent[..last][i] == sent[i] && order[..last][i] == order[i];
    }
  }

  lemma InterleavingSources(receivers: seq<Receiver>, order: seq<nat>, sent: seq<LogMessage>)
    requires IsInterleaving(receivers, order, sent)
    ensures Sources(receivers, order, sent)
  {
    forall i | 0 <= i < |sent|
      ensures sent[i].workload == receivers[order[i]].workload
    {
      OfMember(sent, order, i);
      var r := receivers[order[i]];
      OneStopAtTheEnd(r);
      var k :| 0 <= k < |Expected(r)| && Expected(r)[k] == sent[i];
    }
  }

  /** The receivers behind the messages under a name. */
  function OrderWithName(sent: seq<LogMessage>, order: seq<nat>, w: InstanceName): (r: seq<nat>)
    requires |sent| == |order|
    ensures |r| == |WithName(sent, w)|
  {
    if sent == [] then []
    else
      var last := |sent| - 1;
      OrderWithName(sent[..last], order[..last], w) + (if sent[last].workload == w then [order[last]] else [])
  }

  lemma {:induction false} OfWithName(receivers: seq<Receiver>, order: seq<nat>, sent: seq<LogMessage>, r: nat)
    requires Sources(receivers, order, sent) && r < |receivers|
    ensures var w := receivers[r].workload;
            Of(WithName(sent, w), OrderWithName(sent, order, w), r) == Of(sent, order, r)
  {
    if sent != [] {
      var last, w := |sent| - 1, receivers[r].workload;
      OfWithName(receivers, order[..last], sent[..last], r);
      if sent[last].workload == w {
        OfSnoc(WithName(sent[..last], w), OrderWithName(sent[..last], order[..last], w), sent[last], order[last], r);
      } else {
        assert order[last] != r;
        assert WithName(sent, w) == WithName(sent[..last], w);
        assert OrderWithName(sent, order, w) == OrderWithName(sent[..last], order[..last], w);
        assert Of(sent, order, r) == Of(sent[..last], order[..last], r);
      }
    }
  }

  /**
   Seen by workload name: the messages under a name interleave what the receivers of
   that workload give, each complete and in order; with one receiver they are its own.
   */
  lemma EachWorkloadCompletely(receivers: seq<Receiver>, order: seq<nat>, sent: seq<LogMessage>, r: nat)
    requires IsInterleaving(receivers, order, sent) && r < |receivers|
    ensures var w := receivers[r].workload;
            && Of(WithName(sent, w), OrderWithName(sent, order, w), r) == Expected(receivers[r])
            && ((forall q :: 0 <= q < |receivers| && q != r ==> receivers[q].workload != w) ==>
                WithName(sent, w) == Expected(receivers[r]))
  {
    InterleavingSources(receivers, order, sent);
    OfWithName(receivers, order, sent, r);
    if forall q :: 0 <= q < |receivers| && q != r ==> receivers[q].workload != receivers[r].workload {
      NameIsSource(receivers, order, sent, r);
    }
  }
}
