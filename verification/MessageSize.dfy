/**
 The log splitter: it packs log entries greedily into responses of about 2 MiB
 and cuts an entry that is too large on its own. The splitter runs twice on the
 same data, at the agent and again in the server's gRPC sink.
 */
module MessageSize {
  import opened Options
  import opened Sequences
  import opened Utf8

  // ---------- Protocol Buffers sizes ----------

  /** The strings of an instance name as they are encoded. */
  datatype EncodedName = EncodedName(workloadName: seq<byte>, agentName: seq<byte>, id: seq<byte>)
  datatype LogEntry = LogEntry(workloadName: Option<EncodedName>, message: seq<byte>)

  /** A LogEntriesResponse has one field, the repeated log entries. */
  type LogEntriesResponse = seq<LogEntry>

  /** Bytes of a base 128 varint. */
  function VarintLen(n: nat): (len: nat)
    ensures len >= 1
  {
    if n < 128 then 1 else 1 + VarintLen(n / 128)
  }

  /** A length-delimited record with a field number of at most 15. */
  function RecordLen(payload: nat): nat {
    1 + VarintLen(payload) + payload
  }

  function StringLen(s: seq<byte>): nat {
    if s == [] then 0 else RecordLen(|s|)
  }

  function NameLen(name: Option<EncodedName>): nat {
    match name
    case None => 0
    case Some(n) => RecordLen(StringLen(n.workloadName) + StringLen(n.agentName) + StringLen(n.id))
  }

  function EntryLen(e: LogEntry): nat {
    NameLen(e.workloadName) + StringLen(e.message)
  }

  function ResponseLen(r: LogEntriesResponse): nat {
    if r == [] then 0 else ResponseLen(r[..|r| - 1]) + RecordLen(EntryLen(r[|r| - 1]))
  }

  lemma {:induction false} VarintMonotone(m: nat, n: nat)
    requires m <= n
    ensures VarintLen(m) <= VarintLen(n)
  {
    if n >= 128 {
      VarintMonotone(m / 128, n / 128);
    }
  }

  lemma RecordMonotone(m: nat, n: nat)
    requires m <= n
    ensures RecordLen(m) <= RecordLen(n) - (n - m)
  {
    VarintMonotone(m, n);
  }

  lemma VarintBelowLimit(n: nat)
    ensures n < LIMIT ==> VarintLen(n) <= 3
    ensures n == LIMIT ==> VarintLen(n) == 4
    ensures n == LIMIT - 4 ==> VarintLen(n) == 3
  {
    if n <= LIMIT {
      assert VarintLen(n) == if n < 128 then 1 else 1 + VarintLen(n / 128);
      assert VarintLen(n / 128) == if n / 128 < 128 then 1 else 1 + VarintLen(n / 128 / 128);
      assert VarintLen(n / 128 / 128) == if n / 128 / 128 < 128 then 1 else 1 + VarintLen(n / 128 / 128 / 128);
    }
  }

  // ---------- Truncation ----------

  const LIMIT: nat := 2 * 1024 * 1024
  const NOTICE: seq<byte> := Ascii(" [truncated]")
  const INFO: seq<byte> :=
    Ascii("The previous message was truncated due to exceeding the maximum 2 MB size.")
  const REPEATED_FIELD_OVERHEAD: nat := 10

  predicate Oversized(e: LogEntry) {
    EntryLen(e) > LIMIT
  }

  function SaturatingSub(a: nat, b: nat): nat {
    if a < b then 0 else a - b
  }

  function InfoEntry(name: Option<EncodedName>): LogEntry {
    LogEntry(name, INFO)
  }

  function MaxMessageSize(e: LogEntry): nat {
    var overhead := EntryLen(e) - |e.message|;
    SaturatingSub(SaturatingSub(SaturatingSub(SaturatingSub(LIMIT, overhead), |NOTICE|),
                                EntryLen(InfoEntry(e.workloadName))), REPEATED_FIELD_OVERHEAD)
  }

  /** The largest boundary of `s` that is at most `end`. */
  function BoundaryAtMost(s: seq<byte>, end: nat): (k: nat)
    ensures k <= end && IsCharBoundary(s, k)
    ensures forall i :: k < i <= end ==> !IsCharBoundary(s, i)
  {
    if IsCharBoundary(s, end) then end else BoundaryAtMost(s, end - 1)
  }

  function TruncatedEntry(e: LogEntry): LogEntry {
    if MaxMessageSize(e) < |e.message| then
      e.(message := e.message[..BoundaryAtMost(e.message, MaxMessageSize(e))] + NOTICE)
    else e
  }

  function TruncatedPair(e: LogEntry): LogEntriesResponse {
    [TruncatedEntry(e), InfoEntry(e.workloadName)]
  }

  method TruncateLogEntry(e: LogEntry) returns (truncated: LogEntry, info: LogEntry)
    ensures [truncated, info] == TruncatedPair(e)
  {
    info := LogEntry(e.workloadName, INFO);
    var overhead := EntryLen(e) - |e.message|;
    var maxMessageSize := SaturatingSub(LIMIT, overhead);
    maxMessageSize := SaturatingSub(maxMessageSize, |NOTICE|);
    maxMessageSize := SaturatingSub(maxMessageSize, EntryLen(info));
    maxMessageSize := SaturatingSub(maxMessageSize, REPEATED_FIELD_OVERHEAD);
    var message := e.message;
    if maxMessageSize < |e.message| {
      var end := maxMessageSize;
      while end > 0 && !IsCharBoundary(e.message, end)
        invariant 0 <= end <= maxMessageSize
        invariant BoundaryAtMost(e.message, end) == BoundaryAtMost(e.message, maxMessageSize)
      {
        end := end - 1;
      }
      message := e.message[..end] + NOTICE;
    }
    truncated := LogEntry(e.workloadName, message);
  }

  /**
   The cut keeps the longest prefix of whole code points within the budget, gives
   away at most three bytes of the budget, and the result is valid UTF-8.
   */
  lemma TruncationPoint(e: LogEntry)
    requires Valid(e.message) && MaxMessageSize(e) < |e.message|
    ensures var k := BoundaryAtMost(e.message, MaxMessageSize(e));
            && MaxMessageSize(e) - 3 <= k <= MaxMessageSize(e)
            && TruncatedEntry(e).message == e.message[..k] + NOTICE
            && Valid(e.message[..k]) && Valid(TruncatedEntry(e).message)
            && forall i :: k < i <= MaxMessageSize(e) ==> !Valid(e.message[..i])
  {
    var budget := MaxMessageSize(e);
    var k := BoundaryAtMost(e.message, budget);
    var near := BoundaryNearby(e.message, budget);
    assert near <= k;
    CutAtBoundary(e.message, k);
    AsciiValid(NOTICE);
    ConcatValid(e.message[..k], NOTICE);
    forall i | k < i <= budget
      ensures !Valid(e.message[..i])
    {
      if Valid(e.message[..i]) {
        ValidPrefixEndsAtBoundary(e.message, i);
      }
    }
  }

  // ---------- Packing ----------

  function Closed(cur: LogEntriesResponse): seq<LogEntriesResponse> {
    if cur == [] then [] else [cur]
  }

  /** The responses that are still to come when `cur` is open and `es` are left. */
  function Pack(cur: LogEntriesResponse, es: seq<LogEntry>): seq<LogEntriesResponse>
    decreases |es|
  {
    if es == [] then Closed(cur)
    else if Oversized(es[0]) then Closed(cur) + [TruncatedPair(es[0])] + Pack([], es[1..])
    else if ResponseLen(cur) + EntryLen(es[0]) > LIMIT then Closed(cur) + Pack([es[0]], es[1..])
    else Pack(cur + [es[0]], es[1..])
  }

  function Split(r: LogEntriesResponse): seq<LogEntriesResponse> {
    if ResponseLen(r) <= LIMIT then [r] else Pack([], r)
  }

  lemma SentOversized(sent: seq<LogEntriesResponse>, cur: LogEntriesResponse, es: seq<LogEntry>)
    requires es != [] && Oversized(es[0])
    ensures sent + Closed(cur) + [TruncatedPair(es[0])] + Pack([], es[1..]) == sent + Pack(cur, es)
  {
    ConcatAssociates(sent, Closed(cur), [TruncatedPair(es[0])]);
    ConcatAssociates(sent, Closed(cur) + [TruncatedPair(es[0])], Pack([], es[1..]));
  }

  lemma SentClosed(sent: seq<LogEntriesResponse>, cur: LogEntriesResponse)
    ensures sent + Closed(cur) == if cur == [] then sent else sent + [cur]
  {
  }

  /** The same with the responses that are already complete. */
  ghost function PackAfter(sent: seq<LogEntriesResponse>, cur: LogEntriesResponse, es: seq<LogEntry>)
    : seq<LogEntriesResponse>
    decreases |es|
  {
    if es == [] then sent + Closed(cur)
    else if Oversized(es[0]) then PackAfter(sent + Closed(cur) + [TruncatedPair(es[0])], [], es[1..])
    else if ResponseLen(cur) + EntryLen(es[0]) > LIMIT then PackAfter(sent + Closed(cur), [es[0]], es[1..])
    else PackAfter(sent, cur + [es[0]], es[1..])
  }

  lemma {:induction false} PackAfterIsPack(sent: seq<LogEntriesResponse>, cur: LogEntriesResponse, es: seq<LogEntry>)
    ensures PackAfter(sent, cur, es) == sent + Pack(cur, es)
    decreases |es|
  {
    if es == [] {
    } else if Oversized(es[0]) {
      PackAfterIsPack(sent + Closed(cur) + [TruncatedPair(es[0])], [], es[1..]);
      SentOversized(sent, cur, es);
    } else if ResponseLen(cur) + EntryLen(es[0]) > LIMIT {
      PackAfterIsPack(sent + Closed(cur), [es[0]], es[1..]);
      ConcatAssociates(sent, Closed(cur), Pack([es[0]], es[1..]));
    } else {
      PackAfterIsPack(sent, cur + [es[0]], es[1..]);
    }
  }

  method ProcessLogEntriesResponse(logs: LogEntriesResponse) returns (result: seq<LogEntriesResponse>)
    ensures result == Split(logs)
  {
    if ResponseLen(logs) <= LIMIT {
      return [logs];
    }
    result := [];
    var current: LogEntriesResponse := [];
    PackAfterIsPack([], [], logs);
    assert logs[0..] == logs && [] + Pack([], logs) == Pack([], logs);
    for i := 0 to |logs|
      invariant PackAfter(result, current, logs[i..]) == PackAfter([], [], logs)
    {
      var entry := logs[i];
      var entrySize := EntryLen(entry);
      assert logs[i..][0] == entry && logs[i..][1..] == logs[i + 1..];
      SentClosed(result, current);
      if entrySize > LIMIT {
        if current != [] {
          result := result + [current];
          current := [];
        }
        var truncated, info := TruncateLogEntry(entry);
        result := result + [[truncated, info]];
      } else if ResponseLen(current) + entrySize > LIMIT {
        if current != [] {
          result := result + [current];
        }
        current := [entry];
      } else {
        current := current + [entry];
      }
    }
    SentClosed(result, current);
    if current != [] {
      result := result + [current];
    }
  }

  // ---------- Content ----------

  function Flatten(rs: seq<LogEntriesResponse>): seq<LogEntry> {
    if rs == [] then [] else rs[0] + Flatten(rs[1..])
  }

  /** What the receiver should see: every oversized entry cut and announced, all others as they are. */
  function Expand(es: seq<LogEntry>): seq<LogEntry> {
    if es == [] then []
    else (if Oversized(es[0]) then TruncatedPair(es[0]) else [es[0]]) + Expand(es[1..])
  }

  lemma {:induction false} FlattenConcat(a: seq<LogEntriesResponse>, b: seq<LogEntriesResponse>)
    ensures Flatten(a + b) == Flatten(a) + Flatten(b)
  {
    if a == [] {
      assert a + b == b;
    } else {
      FlattenConcat(a[1..], b);
      DropConcat(a, b, 1);
      ConcatAssociates(a[0], Flatten(a[1..]), Flatten(b));
    }
  }

  lemma FlattenClosed(cur: LogEntriesResponse)
    ensures Flatten(Closed(cur)) == cur
  {
    if cur != [] {
      assert Flatten([cur]) == cur + Flatten([]);
    }
  }

  lemma FlattenOne(r: LogEntriesResponse)
    ensures Flatten([r]) == r
  {
    assert Flatten([r]) == r + Flatten([]);
  }

  lemma {:induction false} PackKeepsContent(cur: LogEntriesResponse, es: seq<LogEntry>)
    ensures Flatten(Pack(cur, es)) == cur + Expand(es)
    decreases |es|
  {
    FlattenClosed(cur);
    if es == [] {
    } else if Oversized(es[0]) {
      PackKeepsContent([], es[1..]);
      OversizedKeepsContent(cur, es);
    } else if ResponseLen(cur) + EntryLen(es[0]) > LIMIT {
      PackKeepsContent([es[0]], es[1..]);
      FlattenConcat(Closed(cur), Pack([es[0]], es[1..]));
    } else {
      PackKeepsContent(cur + [es[0]], es[1..]);
      ConcatAssociates(cur, [es[0]], Expand(es[1..]));
    }
  }

  lemma OversizedKeepsContent(cur: LogEntriesResponse, es: seq<LogEntry>)
    requires es != [] && Oversized(es[0]) && Flatten(Pack([], es[1..])) == [] + Expand(es[1..])
    ensures Flatten(Pack(cur, es)) == cur + Expand(es)
  {
    var pair, rest := TruncatedPair(es[0]), Pack([], es[1..]);
    FlattenConcat(Closed(cur) + [pair], rest);
    FlattenConcat(Closed(cur), [pair]);
    FlattenClosed(cur);
    FlattenOne(pair);
    assert [] + Expand(es[1..]) == Expand(es[1..]);
    ConcatAssociates(cur, pair, Expand(es[1..]));
  }

  lemma {:induction false} EntryWithinResponse(r: LogEntriesResponse, i: nat)
    requires i < |r|
    ensures ResponseLen(r[..i]) + RecordLen(EntryLen(r[i])) <= ResponseLen(r)
    decreases |r|
  {
    if i == |r| - 1 {
    } else {
      EntryWithinResponse(r[..|r| - 1], i);
      assert r[..|r| - 1][..i] == r[..i];
    }
  }

  lemma {:induction false} ExpandSmall(es: seq<LogEntry>)
    requires forall e :: e in es ==> !Oversized(e)
    ensures Expand(es) == es
  {
    if es != [] {
      ExpandSmall(es[1..]);
    }
  }

  /** Nothing is lost, reordered or duplicated; only oversized entries change. */
  lemma SplitKeepsContent(r: LogEntriesResponse)
    ensures Flatten(Split(r)) == Expand(r)
  {
    if ResponseLen(r) <= LIMIT {
      forall i | 0 <= i < |r|
        ensures !Oversized(r[i])
      {
        EntryWithinResponse(r, i);
      }
      ExpandSmall(r);
      FlattenOne(r);
    } else {
      PackKeepsContent([], r);
    }
  }

  // ---------- Shape of the responses ----------

  /** The greedy test: what the loop checks before an entry joins an open response. */
  predicate Fits(c: LogEntriesResponse) {
    && c != []
    && forall k :: 0 <= k < |c| ==> !Oversized(c[k]) && ResponseLen(c[..k]) + EntryLen(c[k]) <= LIMIT
  }

  ghost predicate CutFrom(c: LogEntriesResponse, es: seq<LogEntry>) {
    exists e :: e in es && Oversized(e) && c == TruncatedPair(e)
  }

  lemma FitsAppend(c: LogEntriesResponse, e: LogEntry)
    requires c == [] || Fits(c)
    ensures Fits(c + [e]) <==> !Oversized(e) && ResponseLen(c) + EntryLen(e) <= LIMIT
  {
    assert (c + [e])[..|c|] == c;
    forall k | 0 <= k < |c|
      ensures (c + [e])[..k] == c[..k] && (c + [e])[k] == c[k]
    {
    }
    if Fits(c + [e]) {
      assert (c + [e])[|c|] == e;
    }
  }

  lemma FitsOne(e: LogEntry)
    ensures Fits([e]) <==> !Oversized(e)
  {
    FitsAppend([], e);
    assert [] + [e] == [e];
  }

  /** Every response is a cut pair or passes the greedy test, and every oversized entry gives its pair. */
  lemma {:induction false} PackShape(cur: LogEntriesResponse, es: seq<LogEntry>)
    requires cur == [] || Fits(cur)
    ensures forall c :: c in Pack(cur, es) ==> c != [] && (Fits(c) || CutFrom(c, es))
    ensures forall e :: e in es && Oversized(e) ==> TruncatedPair(e) in Pack(cur, es)
    ensures cur != [] || es != [] ==> Pack(cur, es) != []
    decreases |es|
  {
    if es != [] {
      var next := if Oversized(es[0]) then []
                  else if ResponseLen(cur) + EntryLen(es[0]) > LIMIT then [es[0]] else cur + [es[0]];
      FitsAppend(cur, es[0]);
      FitsOne(es[0]);
      PackShape(next, es[1..]);
      forall c | c in Pack(cur, es)
        ensures c != [] && (Fits(c) || CutFrom(c, es))
      {
        if c in Pack(next, es[1..]) && !Fits(c) {
          var e :| e in es[1..] && Oversized(e) && c == TruncatedPair(e);
          assert e in es;
        } else if Oversized(es[0]) && c == TruncatedPair(es[0]) {
          assert es[0] in es;
        }
      }
    }
  }

  /** Neither of two neighbours was cut only if they could not have been one response. */
  ghost predicate Separate(c: LogEntriesResponse, d: LogEntriesResponse, es: seq<LogEntry>) {
    CutFrom(c, es) || CutFrom(d, es) || (d != [] && ResponseLen(c) + EntryLen(d[0]) > LIMIT)
  }

  lemma SeparateTail(c: LogEntriesResponse, d: LogEntriesResponse, es: seq<LogEntry>)
    requires es != [] && Separate(c, d, es[1..])
    ensures Separate(c, d, es)
  {
    CutFromTail(c, es);
    CutFromTail(d, es);
  }

  lemma {:induction false} PackMaximal(cur: LogEntriesResponse, es: seq<LogEntry>, i: nat)
    requires i + 1 < |Pack(cur, es)|
    ensures Separate(Pack(cur, es)[i], Pack(cur, es)[i + 1], es)
    decreases |es|
  {
    hide TruncatedPair, ResponseLen, EntryLen;
    var out, k := Pack(cur, es), |Closed(cur)|;
    if Oversized(es[0]) {
      assert es[0] in es && out[k] == TruncatedPair(es[0]);
      if i > k {
        PackMaximal([], es[1..], i - k - 1);
        SeparateTail(out[i], out[i + 1], es);
      }
    } else if ResponseLen(cur) + EntryLen(es[0]) > LIMIT {
      if i >= k {
        PackMaximal([es[0]], es[1..], i - k);
        SeparateTail(out[i], out[i + 1], es);
      } else {
        PackStartsWithOpen([es[0]], es[1..]);
      }
    } else {
      PackMaximal(cur + [es[0]], es[1..], i);
      SeparateTail(out[i], out[i + 1], es);
    }
  }

  lemma CutFromTail(c: LogEntriesResponse, es: seq<LogEntry>)
    requires es != []
    ensures CutFrom(c, es[1..]) ==> CutFrom(c, es)
  {
    if CutFrom(c, es[1..]) {
      var e :| e in es[1..] && Oversized(e) && c == TruncatedPair(e);
      assert e in es;
    }
  }

  lemma {:induction false} PackStartsWithOpen(cur: LogEntriesResponse, es: seq<LogEntry>)
    requires cur != []
    ensures Pack(cur, es) != [] && Pack(cur, es)[0] != [] && Pack(cur, es)[0][0] == cur[0]
    decreases |es|
  {
    if es != [] && !Oversized(es[0]) && ResponseLen(cur) + EntryLen(es[0]) <= LIMIT {
      PackStartsWithOpen(cur + [es[0]], es[1..]);
    }
  }

  // ---------- Size bound ----------

  /** The smallest pair a truncation can produce for a name: the message is the notice alone. */
  function MinimalPair(name: Option<EncodedName>): LogEntriesResponse {
    [LogEntry(name, NOTICE), InfoEntry(name)]
  }

  lemma PairLen(a: LogEntry, b: LogEntry)
    ensures ResponseLen([a]) == RecordLen(EntryLen(a))
    ensures ResponseLen([a, b]) == RecordLen(EntryLen(a)) + RecordLen(EntryLen(b))
  {
    assert [a, b][..1] == [a] && [a][..0] == [];
    assert ResponseLen([a]) == ResponseLen([]) + RecordLen(EntryLen(a));
    assert ResponseLen([a, b]) == ResponseLen([a]) + RecordLen(EntryLen(b));
  }

  /** The ten bytes of slack pay for both record headers: a cut that did not saturate always fits. */
  lemma CutWithoutSaturationFits(e: LogEntry)
    requires Oversized(e) && MaxMessageSize(e) > 0
    ensures ResponseLen(TruncatedPair(e)) <= LIMIT
    ensures EntryLen(LogEntry(e.workloadName, NOTICE)) <= EntryLen(TruncatedEntry(e))
  {
    var t, info := TruncatedEntry(e), InfoEntry(e.workloadName);
    assert |t.message| <= MaxMessageSize(e) + 12 < |e.message|;
    VarintMonotone(|t.message|, |e.message|);
    VarintMonotone(12, |t.message|);
    assert EntryLen(t) + EntryLen(info) + 10 <= LIMIT;
    VarintBelowLimit(EntryLen(t));
    VarintBelowLimit(EntryLen(info));
    PairLen(t, info);
  }

  /** With a saturated budget the message is cut to nothing, or there was none to cut. */
  lemma SaturatedCut(e: LogEntry)
    requires Oversized(e) && MaxMessageSize(e) == 0
    ensures e.message != [] ==> TruncatedPair(e) == MinimalPair(e.workloadName)
    ensures e.message == [] ==> Oversized(TruncatedEntry(e)) && Oversized(LogEntry(e.workloadName, NOTICE))
  {
    if e.message != [] {
      assert e.message[..0] + NOTICE == NOTICE;
    }
  }

  lemma FitsPair(a: LogEntry, b: LogEntry)
    ensures Fits([a, b]) <==> !Oversized(a) && !Oversized(b) && RecordLen(EntryLen(a)) + EntryLen(b) <= LIMIT
  {
    FitsOne(a);
    PairLen(a, b);
    if Fits([a, b]) {
      assert [a, b][..1] == [a];
      assert [a, b][0] == a && [a, b][1] == b;
    } else if Fits([a]) {
      FitsAppend([a], b);
    }
  }

  /** A cut pair stays within the limit exactly when the smallest pair for its name does. */
  lemma CutFitsIff(e: LogEntry)
    requires Oversized(e)
    ensures ResponseLen(TruncatedPair(e)) <= LIMIT <==> ResponseLen(MinimalPair(e.workloadName)) <= LIMIT
    ensures Fits(TruncatedPair(e)) <==> Fits(MinimalPair(e.workloadName))
  {
    var t, info, n := TruncatedEntry(e), InfoEntry(e.workloadName), LogEntry(e.workloadName, NOTICE);
    PairLen(t, info);
    PairLen(n, info);
    FitsPair(t, info);
    FitsPair(n, info);
    if MaxMessageSize(e) > 0 {
      CutWithoutSaturationFits(e);
      RecordMonotone(EntryLen(n), EntryLen(t));
    } else {
      SaturatedCut(e);
    }
  }

  /** What a cut entry becomes: a prefix with the notice, then the info, both under the name of the entry. */
  lemma CutPairSays(e: LogEntry)
    requires Oversized(e)
    ensures |TruncatedPair(e)| == 2
    ensures TruncatedPair(e)[0].workloadName == TruncatedPair(e)[1].workloadName == e.workloadName
    ensures TruncatedPair(e)[1].message == INFO
    ensures TruncatedPair(e)[0].message == e.message == []
            || exists k :: 0 <= k < |e.message| && TruncatedPair(e)[0].message == e.message[..k] + NOTICE
  {
    if e.message != [] {
      var k := BoundaryAtMost(e.message, MaxMessageSize(e));
      assert k < |e.message|;
    }
  }

  lemma BudgetBound(e: LogEntry)
    requires Oversized(e) && e.message != []
    ensures var header := NameLen(e.workloadName) + 1 + VarintLen(|e.message|);
            MaxMessageSize(e) >= LIMIT - header - 12 - EntryLen(InfoEntry(e.workloadName)) - 10
    ensures MaxMessageSize(e) < |e.message|
  {
  }

  /**
   The cut wastes next to nothing: the pair is at most 8 bytes and the length prefix of
   the message below the limit, so no prefix that is as much longer would have fitted.
   */
  lemma CutUsesTheRoom(e: LogEntry)
    requires Oversized(e) && Valid(e.message)
    ensures ResponseLen(TruncatedPair(e)) >= LIMIT - 8 - VarintLen(|e.message|)
    ensures |e.message| < 256 * 1024 * 1024 ==> ResponseLen(TruncatedPair(e)) >= LIMIT - 12
  {
    var t, info := TruncatedEntry(e), InfoEntry(e.workloadName);
    PairLen(t, info);
    if e.message != [] {
      BudgetBound(e);
      TruncationPoint(e);
      assert |NOTICE| == 12;
      hide MaxMessageSize, BoundaryAtMost, VarintLen;
      assert EntryLen(t) >= NameLen(e.workloadName) + 2 + |t.message|;
    }
    VarintBelow256MiB(|e.message|);
  }

  lemma VarintBelow256MiB(n: nat)
    ensures n < 256 * 1024 * 1024 ==> VarintLen(n) <= 4
  {
    if n < 256 * 1024 * 1024 {
      VarintBelowLimit(n / 128);
    }
  }

  /** A response that passes the greedy test exceeds the limit by at most five bytes. */
  lemma FitsBound(c: LogEntriesResponse)
    requires Fits(c)
    ensures ResponseLen(c) <= LIMIT + (if |c| == 1 then 5 else 4)
  {
    var k := |c| - 1;
    assert ResponseLen(c[..k]) + EntryLen(c[k]) <= LIMIT;
    VarintBelowLimit(EntryLen(c[k]));
    if k > 0 {
      EntryWithinResponse(c[..k], 0);
    }
  }

  /**
   No response is empty when the input had to be split, no response exceeds the
   limit by more than five bytes unless the name alone of a cut entry is too
   large, and a cut pair never uses those five bytes.
   */
  lemma SplitBound(r: LogEntriesResponse, c: LogEntriesResponse)
    requires c in Split(r)
    ensures ResponseLen(r) > LIMIT ==> c != []
    ensures ResponseLen(c) <= LIMIT + 5 || (CutFrom(c, r) && !Fits(c))
    ensures CutFrom(c, r) && ResponseLen(r) > LIMIT ==>
              exists e :: e in r && Oversized(e) && c == TruncatedPair(e)
                          && (ResponseLen(c) <= LIMIT <==> ResponseLen(MinimalPair(e.workloadName)) <= LIMIT)
  {
    if ResponseLen(r) > LIMIT {
      PackShape([], r);
      if Fits(c) {
        FitsBound(c);
      }
      if CutFrom(c, r) {
        var e :| e in r && Oversized(e) && c == TruncatedPair(e);
        CutFitsIff(e);
      }
    }
  }

  /** The five bytes are attained: an entry of exactly 2 MiB passes through alone. */
  lemma SplitBoundIsTight() returns (e: LogEntry)
    ensures EntryLen(e) == LIMIT && Split([e]) == [[e]] && ResponseLen([e]) == LIMIT + 5
  {
    e := LogEntry(None, seq(LIMIT - 4, i => 65));
    VarintBelowLimit(LIMIT - 4);
    VarintBelowLimit(LIMIT);
    PairLen(e, e);
    assert [e][1..] == [] && [] + [e] == [e];
    assert Pack([], [e]) == Pack([e], []);
  }

  // ---------- The second pass ----------

  lemma {:induction false} PackFits(c: LogEntriesResponse, k: nat)
    requires Fits(c) && k <= |c|
    ensures Pack(c[..k], c[k..]) == [c]
    decreases |c| - k
  {
    hide ResponseLen, EntryLen, TruncatedPair;
    if k == |c| {
      assert c[..k] == c;
    } else {
      assert c[..k] + [c[k]] == c[..k + 1];
      assert c[k..][1..] == c[k + 1..];
      PackFits(c, k + 1);
    }
  }

  lemma OversizedSplits(cur: LogEntriesResponse, es: seq<LogEntry>, c: LogEntriesResponse)
    requires es != [] && Oversized(es[0]) && |c| == |cur| + |es|
    requires es[1..] != [] ==> Pack([], es[1..]) != []
    ensures Pack(cur, es) != [c]
  {
    hide TruncatedEntry, ResponseLen, Oversized, InfoEntry;
    var out := Pack(cur, es);
    assert |out| == |Closed(cur)| + 1 + |Pack([], es[1..])|;
    assert out[|Closed(cur)|] == TruncatedPair(es[0]) && |TruncatedPair(es[0])| == 2;
  }

  lemma {:induction false} PackSplitsMisfit(c: LogEntriesResponse, k: nat)
    requires k < |c| && (k == 0 || Fits(c[..k])) && !Fits(c)
    ensures Pack(c[..k], c[k..]) != [c]
    decreases |c| - k
  {
    hide TruncatedPair, ResponseLen, EntryLen;
    var cur, rest := c[..k], c[k + 1..];
    assert c[k..][1..] == rest && c[k..][0] == c[k];
    FitsAppend(cur, c[k]);
    assert cur + [c[k]] == c[..k + 1];
    if Oversized(c[k]) {
      PackShape([], rest);
      OversizedSplits(cur, c[k..], c);
    } else if ResponseLen(cur) + EntryLen(c[k]) > LIMIT {
      FitsOne(c[k]);
      PackShape([c[k]], rest);
    } else {
      assert c[..|c|] == c;
      PackSplitsMisfit(c, k + 1);
    }
  }

  lemma SmallFits(c: LogEntriesResponse)
    requires c != [] && ResponseLen(c) <= LIMIT
    ensures Fits(c)
  {
    forall k | 0 <= k < |c|
      ensures !Oversized(c[k]) && ResponseLen(c[..k]) + EntryLen(c[k]) <= LIMIT
    {
      EntryWithinResponse(c, k);
    }
  }

  /** The splitter leaves a response alone exactly when it is empty or passes the greedy test. */
  lemma FixedPointIff(c: LogEntriesResponse)
    ensures Split(c) == [c] <==> c == [] || Fits(c)
  {
    if ResponseLen(c) <= LIMIT {
      if c != [] {
        SmallFits(c);
      }
    } else {
      assert c[..0] == [] && c[0..] == c;
      if Fits(c) {
        PackFits(c, 0);
      } else {
        PackSplitsMisfit(c, 0);
      }
    }
  }

  /** A name that leaves room for a cut pair; an instance name of up to a mebibyte does. */
  predicate NameLeavesRoom(name: Option<EncodedName>) {
    Fits(MinimalPair(name))
  }

  /**
   The second pass changes nothing exactly when every oversized entry has a name
   that leaves room for its cut pair.
   */
  lemma SplitIdempotentIff(r: LogEntriesResponse)
    ensures (forall c :: c in Split(r) ==> Split(c) == [c])
            <==> (forall e :: e in r && Oversized(e) ==> NameLeavesRoom(e.workloadName))
  {
    if ResponseLen(r) <= LIMIT {
      forall i | 0 <= i < |r|
        ensures !Oversized(r[i])
      {
        EntryWithinResponse(r, i);
      }
    } else {
      PackShape([], r);
      forall e | e in r && Oversized(e)
        ensures Split(TruncatedPair(e)) == [TruncatedPair(e)] <==> NameLeavesRoom(e.workloadName)
      {
        CutFitsIff(e);
        FixedPointIff(TruncatedPair(e));
      }
      forall c | c in Split(r) && Fits(c)
        ensures Split(c) == [c]
      {
        FixedPointIff(c);
      }
    }
  }

  lemma RoomForSmallNames(name: Option<EncodedName>)
    requires NameLen(name) <= LIMIT / 2 - 60
    ensures NameLeavesRoom(name)
  {
    var n, info := LogEntry(name, NOTICE), InfoEntry(name);
    FitsPair(n, info);
    VarintBelowLimit(EntryLen(n));
  }

  /** What the server's sink forwards for the responses an agent sent. */
  function SplitAll(rs: seq<LogEntriesResponse>): seq<LogEntriesResponse> {
    if rs == [] then [] else Split(rs[0]) + SplitAll(rs[1..])
  }

  /**
   The sending loop of the interface: the responses of the calls leave in order. The
   channel takes `accepts` messages before it is closed; the first failing send ends it.
   */
  method LogEntriesResponseCalls(incoming: seq<LogEntriesResponse>, accepts: nat)
    returns (sent: seq<LogEntriesResponse>, ok: bool)
    ensures ok <==> |SplitAll(incoming)| <= accepts
    ensures sent == if ok then SplitAll(incoming) else SplitAll(incoming)[..accepts]
  {
    hide Split, SplitAll;
    sent := [];
    assert incoming[0..] == incoming && [] + SplitAll(incoming) == SplitAll(incoming);
    for i := 0 to |incoming|
      invariant sent + SplitAll(incoming[i..]) == SplitAll(incoming) && |sent| <= accepts
    {
      var resized := ProcessLogEntriesResponse(incoming[i]);
      ghost var before, rest := sent, SplitAll(incoming[i + 1..]);
      SplitAllNext(incoming, i);
      ConcatAssociates(before, resized, rest);
      for j := 0 to |resized|
        invariant sent == before + resized[..j] && |sent| <= accepts
      {
        assert before + resized + rest == sent + (resized[j..] + rest);
        if |sent| == accepts {
          return sent, false;
        }
        sent := sent + [resized[j]];
      }
      assert resized[..|resized|] == resized;
    }
    SplitAllNone();
    assert incoming[|incoming|..] == [] && sent + [] == sent;
    ok := true;
  }

  lemma SplitAllNone()
    ensures SplitAll([]) == []
  {
  }

  lemma SplitAllNext(rs: seq<LogEntriesResponse>, i: nat)
    requires i < |rs|
    ensures SplitAll(rs[i..]) == Split(rs[i]) + SplitAll(rs[i + 1..])
  {
    assert rs[i..][1..] == rs[i + 1..];
  }

  predicate Unchanged(c: LogEntriesResponse) {
    Split(c) == [c]
  }

  lemma SplitNeverEmpty(c: LogEntriesResponse)
    ensures |Split(c)| >= 1
  {
    SplitKeepsContent(c);
    if ResponseLen(c) > LIMIT {
      assert Expand(c) != [];
    }
  }

  lemma {:induction false} SplitAllGrows(rs: seq<LogEntriesResponse>)
    ensures |SplitAll(rs)| >= |rs|
  {
    if rs != [] {
      SplitAllGrows(rs[1..]);
      SplitNeverEmpty(rs[0]);
    }
  }

  lemma {:induction false} SplitAllFixedIff(rs: seq<LogEntriesResponse>)
    ensures SplitAll(rs) == rs <==> forall i :: 0 <= i < |rs| ==> Unchanged(rs[i])
  {
    if rs != [] {
      hide Split;
      SplitAllFixedIff(rs[1..]);
      SplitNeverEmpty(rs[0]);
      SplitAllGrows(rs[1..]);
      assert rs == [rs[0]] + rs[1..];
      if SplitAll(rs) == rs {
        assert |Split(rs[0])| == 1 && SplitAll(rs)[0] == Split(rs[0])[0];
        assert SplitAll(rs)[1..] == SplitAll(rs[1..]);
      }
    }
  }

  /**
   Agent and server together send what the agent alone would have sent, exactly when
   the names of the cut entries leave room for the notices.
   */
  lemma TwoPassesAreOneIff(r: LogEntriesResponse)
    ensures SplitAll(Split(r)) == Split(r) <==>
            forall e :: e in r && Oversized(e) ==> NameLeavesRoom(e.workloadName)
  {
    hide Split, SplitAll, Oversized, NameLeavesRoom;
    var cs := Split(r);
    SplitIdempotentIff(r);
    SplitAllFixedIff(cs);
    if forall c :: c in cs ==> Split(c) == [c] {
      assert forall i :: 0 <= i < |cs| ==> cs[i] in cs && Unchanged(cs[i]);
    } else {
      var c :| c in cs && Split(c) != [c];
      var i :| 0 <= i < |cs| && cs[i] == c;
      assert !Unchanged(cs[i]);
    }
  }
}
