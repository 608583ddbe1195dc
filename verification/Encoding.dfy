/**
 The bytes of a log response as the Protocol Buffers encoding specification has
 them, sections "Base 128 Varints" and "Length-Delimited Records". The sizes that
 the log splitter computes are the lengths of these bytes.
 */
module Encoding {
  import opened Options
  import opened Sequences
  import opened Utf8
  import opened MessageSize

  // ---------- Varints ----------

  function Varint(n: nat): (s: seq<byte>)
    ensures |s| == VarintLen(n)
  {
    if n < 128 then [n] else [n % 128 + 128] + Varint(n / 128)
  }

  datatype Number = Number(value: nat, rest: seq<byte>)

  function ReadVarint(s: seq<byte>): (r: Option<Number>)
    ensures r.Some? ==> |r.value.rest| < |s|
  {
    if s == [] then None
    else if s[0] < 128 then Some(Number(s[0], s[1..]))
    else
      var more := ReadVarint(s[1..]);
      if more.None? then None else Some(Number(s[0] - 128 + 128 * more.value.value, more.value.rest))
  }

  lemma {:induction false} VarintRoundTrip(n: nat, rest: seq<byte>)
    ensures ReadVarint(Varint(n) + rest) == Some(Number(n, rest))
  {
    var s := Varint(n) + rest;
    if n < 128 {
      assert s[1..] == rest;
    } else {
      VarintRoundTrip(n / 128, rest);
      assert s[1..] == Varint(n / 128) + rest;
    }
  }

  // ---------- Fields ----------

  /** A length-delimited field; the wire type of such fields is 2. */
  datatype Field = Field(number: nat, payload: seq<byte>)

  predicate Small(fs: seq<Field>) {
    forall f :: f in fs ==> 1 <= f.number <= 15
  }

  function Record(f: Field): (s: seq<byte>)
    requires 1 <= f.number <= 15
    ensures |s| == RecordLen(|f.payload|)
  {
    [f.number * 8 + 2] + Varint(|f.payload|) + f.payload
  }

  function Write(fs: seq<Field>): seq<byte>
    requires Small(fs)
  {
    if fs == [] then [] else Write(fs[..|fs| - 1]) + Record(fs[|fs| - 1])
  }

  function Read(s: seq<byte>): Option<seq<Field>>
    decreases |s|
  {
    if s == [] then Some([])
    else if s[0] % 8 != 2 then None
    else
      var len := ReadVarint(s[1..]);
      if len.None? || len.value.value > |len.value.rest| then None
      else
        var n, rest := len.value.value, len.value.rest;
        var more := Read(rest[n..]);
        if more.None? then None else Some([Field(s[0] / 8, rest[..n])] + more.value)
  }

  lemma ReadRecord(f: Field, rest: seq<byte>)
    requires 1 <= f.number <= 15
    ensures Read(Record(f) + rest) == match Read(rest)
                                      case None => None
                                      case Some(fs) => Some([f] + fs)
  {
    hide Varint, ReadVarint;
    var s, n := Record(f) + rest, |f.payload|;
    var after := f.payload + rest;
    assert s[1..] == Varint(n) + after;
    VarintRoundTrip(n, after);
    assert s[0] == f.number * 8 + 2 && after[..n] == f.payload && after[n..] == rest;
  }

  lemma {:induction false} ReadWritten(fs: seq<Field>, rest: seq<byte>)
    requires Small(fs)
    ensures Read(Write(fs) + rest) == match Read(rest)
                                      case None => None
                                      case Some(more) => Some(fs + more)
  {
    hide Read, Record;
    if fs == [] {
      assert Write(fs) + rest == rest;
      assert Read(rest).Some? ==> [] + Read(rest).value == Read(rest).value;
    } else {
      var init, last := fs[..|fs| - 1], fs[|fs| - 1];
      ReadWritten(init, Record(last) + rest);
      ConcatAssociates(Write(init), Record(last), rest);
      ReadRecord(last, rest);
      if Read(rest).Some? {
        ConcatAssociates(init, [last], Read(rest).value);
        assert init + [last] == fs;
      }
    }
  }

  lemma WrittenIsRead(fs: seq<Field>)
    requires Small(fs)
    ensures Read(Write(fs)) == Some(fs)
  {
    ReadWritten(fs, []);
    assert Write(fs) + [] == Write(fs) && fs + [] == fs;
  }

  // ---------- Messages ----------

  /** An empty string is not encoded. */
  function StringField(number: nat, s: seq<byte>): seq<Field> {
    if s == [] then [] else [Field(number, s)]
  }

  function EncodeName(n: EncodedName): seq<byte> {
    Write(StringField(1, n.workloadName) + StringField(2, n.agentName) + StringField(3, n.id))
  }

  function EncodeEntry(e: LogEntry): seq<byte> {
    Write((if e.workloadName.Some? then [Field(1, EncodeName(e.workloadName.value))] else [])
          + StringField(2, e.message))
  }

  function EntryFields(r: LogEntriesResponse): (fs: seq<Field>)
    ensures Small(fs)
  {
    seq(|r|, i requires 0 <= i < |r| => Field(1, EncodeEntry(r[i])))
  }

  function EncodeResponse(r: LogEntriesResponse): seq<byte> {
    Write(EntryFields(r))
  }

  // ---------- The computed sizes are the sizes of the bytes ----------

  function SumLen(fs: seq<Field>): nat {
    if fs == [] then 0 else SumLen(fs[..|fs| - 1]) + RecordLen(|fs[|fs| - 1].payload|)
  }

  lemma {:induction false} WriteLen(fs: seq<Field>)
    requires Small(fs)
    ensures |Write(fs)| == SumLen(fs)
  {
    if fs != [] {
      WriteLen(fs[..|fs| - 1]);
    }
  }

  lemma SumSnoc(fs: seq<Field>, number: nat, s: seq<byte>)
    ensures SumLen(fs + StringField(number, s)) == SumLen(fs) + StringLen(s)
    ensures SumLen(fs + [Field(number, s)]) == SumLen(fs) + RecordLen(|s|)
  {
    assert (fs + [Field(number, s)])[..|fs|] == fs;
    assert fs + [] == fs;
  }

  lemma EntrySize(e: LogEntry)
    ensures |EncodeEntry(e)| == EntryLen(e)
  {
    var head: seq<Field> := [];
    if e.workloadName.Some? {
      var n := e.workloadName.value;
      var one := StringField(1, n.workloadName);
      var two := one + StringField(2, n.agentName);
      WriteLen(two + StringField(3, n.id));
      SumSnoc([], 1, n.workloadName);
      assert [] + one == one;
      SumSnoc(one, 2, n.agentName);
      SumSnoc(two, 3, n.id);
      head := [Field(1, EncodeName(n))];
      SumSnoc([], 1, EncodeName(n));
      assert [] + head == head;
    }
    WriteLen(head + StringField(2, e.message));
    SumSnoc(head, 2, e.message);
  }

  /** The size of a response, by which the splitter decides, is the number of its bytes. */
  lemma {:induction false} ResponseSize(r: LogEntriesResponse)
    ensures |EncodeResponse(r)| == ResponseLen(r)
  {
    if r != [] {
      var init, last := r[..|r| - 1], r[|r| - 1];
      ResponseSize(init);
      EntrySize(last);
      assert EntryFields(r)[..|r| - 1] == EntryFields(init);
      assert EntryFields(r)[|r| - 1] == Field(1, EncodeEntry(last));
    }
  }

  // ---------- And the bytes are the response ----------

  /** The payload of the last field with the number. */
  function Payload(fs: seq<Field>, number: nat): Option<seq<byte>> {
    if fs == [] then None
    else if fs[|fs| - 1].number == number then Some(fs[|fs| - 1].payload)
    else Payload(fs[..|fs| - 1], number)
  }

  function TextOf(fs: seq<Field>, number: nat): seq<byte> {
    if Payload(fs, number).Some? then Payload(fs, number).value else []
  }

  function DecodeName(s: seq<byte>): Option<EncodedName> {
    var fs := Read(s);
    if fs.None? then None else Some(EncodedName(TextOf(fs.value, 1), TextOf(fs.value, 2), TextOf(fs.value, 3)))
  }

  function DecodeEntry(s: seq<byte>): Option<LogEntry> {
    var fs := Read(s);
    if fs.None? then None
    else
      var name := Payload(fs.value, 1);
      if name.None? then Some(LogEntry(None, TextOf(fs.value, 2)))
      else if DecodeName(name.value).None? then None
      else Some(LogEntry(DecodeName(name.value), TextOf(fs.value, 2)))
  }

  function DecodeEntries(fs: seq<Field>): Option<LogEntriesResponse> {
    if fs == [] then Some([])
    else
      var init, last := DecodeEntries(fs[..|fs| - 1]), DecodeEntry(fs[|fs| - 1].payload);
      if init.None? || last.None? then None else Some(init.value + [last.value])
  }

  function DecodeResponse(s: seq<byte>): Option<LogEntriesResponse> {
    var fs := Read(s);
    if fs.None? then None else DecodeEntries(fs.value)
  }

  lemma PayloadSnoc(fs: seq<Field>, number: nat, s: seq<byte>, wanted: nat)
    ensures Payload(fs + [Field(number, s)], wanted) == if wanted == number then Some(s) else Payload(fs, wanted)
    ensures TextOf(fs + StringField(number, s), wanted) ==
            if wanted == number && s != [] then s else TextOf(fs, wanted)
  {
    assert (fs + [Field(number, s)])[..|fs|] == fs;
    assert fs + [] == fs;
  }

  lemma NameRoundTrip(n: EncodedName)
    ensures DecodeName(EncodeName(n)) == Some(n)
  {
    var one := StringField(1, n.workloadName);
    var two := one + StringField(2, n.agentName);
    var three := two + StringField(3, n.id);
    WrittenIsRead(three);
    hide Read, Write, Payload, StringField;
    assert [] + one == one;
    forall k
      ensures TextOf([], k) == []
    {
      NoPayload(k);
    }
    forall k
      ensures TextOf(three, k) == if k == 1 then n.workloadName else if k == 2 then n.agentName
                                  else if k == 3 then n.id else []
    {
      PayloadSnoc([], 1, n.workloadName, k);
      PayloadSnoc(one, 2, n.agentName, k);
      PayloadSnoc(two, 3, n.id, k);
    }
  }

  lemma NoPayload(k: nat)
    ensures Payload([], k) == None
  {
  }

  lemma EntryRoundTrip(e: LogEntry)
    ensures DecodeEntry(EncodeEntry(e)) == Some(e)
  {
    var head := if e.workloadName.Some? then [Field(1, EncodeName(e.workloadName.value))] else [];
    var fs := head + StringField(2, e.message);
    WrittenIsRead(fs);
    PayloadSnoc(head, 2, e.message, 1);
    PayloadSnoc(head, 2, e.message, 2);
    assert fs == head || fs == head + [Field(2, e.message)];
    hide Read, Write, EncodeName, DecodeName;
    if e.workloadName.Some? {
      NameRoundTrip(e.workloadName.value);
      PayloadSnoc([], 1, EncodeName(e.workloadName.value), 1);
      PayloadSnoc([], 1, EncodeName(e.workloadName.value), 2);
      assert [] + head == head;
    }
  }

  lemma {:induction false} EntriesRoundTrip(r: LogEntriesResponse)
    ensures DecodeEntries(EntryFields(r)) == Some(r)
  {
    if r != [] {
      var init, last := r[..|r| - 1], r[|r| - 1];
      EntriesRoundTrip(init);
      EntryRoundTrip(last);
      assert EntryFields(r)[..|r| - 1] == EntryFields(init);
      assert r == init + [last];
      hide DecodeEntry, EncodeEntry;
    }
  }

  /** Nothing is lost on the wire. */
  lemma ResponseRoundTrip(r: LogEntriesResponse)
    ensures DecodeResponse(EncodeResponse(r)) == Some(r)
  {
    WrittenIsRead(EntryFields(r));
    EntriesRoundTrip(r);
  }
}
