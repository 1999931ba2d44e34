/** The scenario engine: reading timed records, rendering and validating their payloads, and
    publishing them by absolute deadline. */
module Scenario {
  import opened Text
  import opened TopicAddress
  import opened BmsSchema
  import opened Render
  import opened Schedule

  datatype Entry = Entry(offset: int, topic: string, retain: bool, template: string)

  // ---------------------------------------------------------------- records

  predicate IsTopicOf(segments: seq<string>, topicType: string) {
    && |segments| >= 4 && AllSegments(segments)
    && segments[0] == "BMS" && segments[1] == "v1" && segments[3] == topicType
    && (topicType == "Value" || (topicType == "Metadata" && segments[2] == "PUB"))
  }

  method ParseTopicType(raw: string) returns (r: Option<string>)
    ensures r.Some? ==> IsTopicOf(Split(raw, '/'), r.value)
    ensures r.None? ==> forall t :: !IsTopicOf(Split(raw, '/'), t)
  {
    if raw == "" {
      assert Split(raw, '/') == [""];
      return None;
    }
    var segments := Split(raw, '/');
    if |segments| < 4 {
      return None;
    }
    for i := 0 to |segments|
      invariant forall k :: 0 <= k < i ==> IsSegment(segments[k])
    {
      if !IsSegment(segments[i]) {
        return None;
      }
    }
    if segments[0] != "BMS" || segments[1] != "v1" {
      return None;
    }
    var topicType := segments[3];
    if topicType != "Value" && topicType != "Metadata" {
      return None;
    }
    if topicType == "Metadata" && segments[2] != "PUB" {
      return None;
    }
    r := Some(topicType);
  }

  /** Go's duration parser, a fixed function from text to nanoseconds. */
  type DurationParser = string -> Option<int>

  function OffsetOf(parse: DurationParser, raw: string): Option<int> {
    if raw == "" then None
    else match parse(raw)
      case None => None
      case Some(d) => if d < 0 then None else Some(d)
  }

  /** e is what the record says: offset, topic, payload template. */
  predicate IsEntryOf(parse: DurationParser, record: seq<string>, e: Entry) {
    && |record| == 3 && OffsetOf(parse, record[0]) == Some(e.offset)
    && record[1] == e.topic && record[2] == e.template && e.template != ""
    && IsTopicOf(Split(e.topic, '/'), if e.retain then "Metadata" else "Value")
  }

  method EntryFromRecord(parse: DurationParser, record: seq<string>) returns (r: Option<Entry>)
    requires |record| == 3
    ensures r.Some? ==> IsEntryOf(parse, record, r.value)
    ensures r.None? ==> forall e :: !IsEntryOf(parse, record, e)
  {
    hide IsTopicOf, Split;
    var offset := OffsetOf(parse, record[0]);
    if offset.None? {
      return None;
    }
    var topicType := ParseTopicType(record[1]);
    if topicType.None? {
      return None;
    }
    if record[2] == "" {
      return None;
    }
    TypeIsOneOfTwo(Split(record[1], '/'), topicType.value);
    r := Some(Entry(offset.value, record[1], topicType.value == "Metadata", record[2]));
  }

  lemma TypeIsOneOfTwo(segments: seq<string>, t: string)
    requires IsTopicOf(segments, t)
    ensures t == "Value" || t == "Metadata"
  {
  }

  lemma WrongLength(parse: DurationParser, record: seq<string>)
    requires |record| != 3
    ensures forall e :: !IsEntryOf(parse, record, e)
  {
  }

  /** A record determines its entry. */
  lemma EntryIsUnique(parse: DurationParser, record: seq<string>, e: Entry, f: Entry)
    requires IsEntryOf(parse, record, e) && IsEntryOf(parse, record, f)
    ensures e == f
  {
    hide Split;
  }

  // ---------------------------------------------------------------- rendering

  function PayloadAt(e: Entry, millis: int): string {
    Rendered(e.template, millis)
  }

  predicate IsAccepted(v: Validator, topic: string, payload: string) {
    VerdictOf(v.lib, v.spec, topic, payload) == Accepted
  }

  method RenderPayload(e: Entry, v: Validator, millis: int) returns (r: Option<string>)
    requires v.Valid()
    modifies v
    ensures v.Valid()
    ensures r == if IsAccepted(v, e.topic, PayloadAt(e, millis)) then Some(PayloadAt(e, millis)) else None
  {
    hide VerdictOf;
    var payload := ReplaceAll(e.template, PLACEHOLDER, IntText(millis));
    var verdict := v.ValidateMessage(e.topic, payload);
    r := if verdict == Accepted then Some(payload) else None;
  }

  // ---------------------------------------------------------------- reading

  const HEADER := ["offset", "topic", "payload"]

  /** The rows after the header as the CSV reader gives them; None where it reports an error,
      which includes a row of another length than the header. */
  type Rows = seq<Option<seq<string>>>

  datatype ReadResult =
    | Read(entries: seq<Entry>)
    | Empty
    | BadHeader
    | BadRow(row: nat)
    | NoRows

  /** The row reads as entry e, whose payload is valid at time 0. */
  predicate RowIs(parse: DurationParser, v: Validator, row: Option<seq<string>>, e: Entry) {
    row.Some? && IsEntryOf(parse, row.value, e) && IsAccepted(v, e.topic, PayloadAt(e, 0))
  }

  /** The first n rows read as entries with non-decreasing offsets. */
  ghost predicate ReadsAs(parse: DurationParser, v: Validator, rows: Rows, entries: seq<Entry>) {
    && |entries| <= |rows|
    && (forall i :: 0 <= i < |entries| ==> RowIs(parse, v, rows[i], entries[i]))
    && (forall i :: 0 <= i < |entries| - 1 ==> entries[i].offset <= entries[i + 1].offset)
  }

  /** Row number k (counting the header as row 1) is the first one that does not extend the entries before it. */
  ghost predicate FirstBadRow(parse: DurationParser, v: Validator, rows: Rows, k: nat) {
    && 2 <= k < |rows| + 2
    && (exists entries :: |entries| == k - 2 && ReadsAs(parse, v, rows, entries))
    && !exists entries :: |entries| == k - 1 && ReadsAs(parse, v, rows, entries)
  }

  method ReadScenario(
      header: Option<seq<string>>, rows: Rows, parse: DurationParser, v: Validator) returns (r: ReadResult)
    requires v.Valid()
    modifies v
    ensures v.Valid()
    ensures r.Empty? <==> header.None?
    ensures r.BadHeader? <==> header.Some? && header.value != ["offset", "topic", "payload"]
    ensures r.NoRows? <==> header == Some(["offset", "topic", "payload"]) && rows == []
    ensures r.Read? ==> r.entries != [] && |r.entries| == |rows| && ReadsAs(parse, v, rows, r.entries)
    ensures r.Read? <==> header == Some(["offset", "topic", "payload"]) && rows != [] &&
                         exists entries :: |entries| == |rows| && ReadsAs(parse, v, rows, entries)
    ensures r.BadRow? ==> FirstBadRow(parse, v, rows, r.row)
  {
    hide IsAccepted, IsEntryOf, PayloadAt;
    if header.None? {
      return Empty;
    }
    if header.value != HEADER {
      return BadHeader;
    }
    var entries: seq<Entry> := [];
    var previousOffset := 0;
    var rowNumber := 1;
    for i := 0 to |rows|
      invariant v.Valid() && rowNumber == i + 1 && |entries| == i && ReadsAs(parse, v, rows, entries)
      invariant i > 0 ==> previousOffset == entries[i - 1].offset
    {
      rowNumber := rowNumber + 1;
      if rows[i].None? || |rows[i].value| != 3 {
        if rows[i].Some? {
          WrongLength(parse, rows[i].value);
        }
        NotExtended(parse, v, rows, entries);
        BadRowEndsReading(parse, v, rows, rowNumber);
        return BadRow(rowNumber);
      }
      var entry := EntryFromRecord(parse, rows[i].value);
      if entry.None? {
        NotExtended(parse, v, rows, entries);
        BadRowEndsReading(parse, v, rows, rowNumber);
        return BadRow(rowNumber);
      }
      if |entries| > 0 && entry.value.offset < previousOffset {
        BadExtension(parse, v, rows, entries, entry.value);
        BadRowEndsReading(parse, v, rows, rowNumber);
        return BadRow(rowNumber);
      }
      var payload := RenderPayload(entry.value, v, 0);
      if payload.None? {
        BadExtension(parse, v, rows, entries, entry.value);
        BadRowEndsReading(parse, v, rows, rowNumber);
        return BadRow(rowNumber);
      }
      entries := entries + [entry.value];
      previousOffset := entry.value.offset;
    }
    if |entries| == 0 {
      return NoRows;
    }
    r := Read(entries);
  }

  /** The entries of a prefix of the rows are determined by the rows. */
  lemma ReadingIsUnique(parse: DurationParser, v: Validator, rows: Rows, a: seq<Entry>, b: seq<Entry>)
    requires ReadsAs(parse, v, rows, a) && ReadsAs(parse, v, rows, b) && |a| <= |b|
    ensures a == b[..|a|]
  {
    hide IsEntryOf, IsAccepted;
    forall i | 0 <= i < |a| ensures a[i] == b[i] {
      assert RowIs(parse, v, rows[i], a[i]) && RowIs(parse, v, rows[i], b[i]);
      EntryIsUnique(parse, rows[i].value, a[i], b[i]);
    }
  }

  lemma PrefixReads(parse: DurationParser, v: Validator, rows: Rows, entries: seq<Entry>, n: nat)
    requires ReadsAs(parse, v, rows, entries) && n <= |entries|
    ensures ReadsAs(parse, v, rows, entries[..n])
  {
    hide RowIs;
  }

  lemma BadRowEndsReading(parse: DurationParser, v: Validator, rows: Rows, k: nat)
    requires FirstBadRow(parse, v, rows, k)
    ensures !exists entries :: |entries| == |rows| && ReadsAs(parse, v, rows, entries)
  {
    hide RowIs;
    forall entries: seq<Entry> | |entries| == |rows| ensures !ReadsAs(parse, v, rows, entries) {
      if ReadsAs(parse, v, rows, entries) {
        PrefixReads(parse, v, rows, entries, k - 1);
      }
    }
  }

  lemma NotExtended(parse: DurationParser, v: Validator, rows: Rows, entries: seq<Entry>)
    requires ReadsAs(parse, v, rows, entries) && |entries| < |rows|
    requires forall e :: !RowIs(parse, v, rows[|entries|], e)
    ensures FirstBadRow(parse, v, rows, |entries| + 2)
  {
    hide RowIs;
    assert forall more: seq<Entry> :: |more| == |entries| + 1 && ReadsAs(parse, v, rows, more) ==>
      RowIs(parse, v, rows[|entries|], more[|entries|]);
  }

  /** A longer reading continues with the row's entry, accepted and not earlier than the entry before. */
  lemma ExtensionMeaning(
      parse: DurationParser, v: Validator, rows: Rows, entries: seq<Entry>, e: Entry, more: seq<Entry>)
    requires ReadsAs(parse, v, rows, entries) && |entries| < |rows|
    requires rows[|entries|].Some? && IsEntryOf(parse, rows[|entries|].value, e)
    requires |more| == |entries| + 1 && ReadsAs(parse, v, rows, more)
    ensures IsAccepted(v, e.topic, PayloadAt(e, 0)) && (entries != [] ==> entries[|entries| - 1].offset <= e.offset)
  {
    hide IsAccepted, IsEntryOf, PayloadAt;
    var n := |entries|;
    assert RowIs(parse, v, rows[n], more[n]);
    EntryIsUnique(parse, rows[n].value, e, more[n]);
    ReadingIsUnique(parse, v, rows, entries, more);
    if n > 0 {
      assert more[n - 1].offset <= more[n - 1 + 1].offset;
      assert more[..n][n - 1] == more[n - 1];
    }
  }

  lemma BadExtension(parse: DurationParser, v: Validator, rows: Rows, entries: seq<Entry>, e: Entry)
    requires ReadsAs(parse, v, rows, entries) && |entries| < |rows|
    requires rows[|entries|].Some? && IsEntryOf(parse, rows[|entries|].value, e)
    requires !IsAccepted(v, e.topic, PayloadAt(e, 0)) || (entries != [] && e.offset < entries[|entries| - 1].offset)
    ensures FirstBadRow(parse, v, rows, |entries| + 2)
  {
    hide IsAccepted, IsEntryOf, PayloadAt, ReadsAs;
    forall more: seq<Entry> | |more| == |entries| + 1 ensures !ReadsAs(parse, v, rows, more) {
      if ReadsAs(parse, v, rows, more) {
        ExtensionMeaning(parse, v, rows, entries, e, more);
      }
    }
  }

  /** A scenario that was read: offsets non-negative and non-decreasing, and an entry is retained
      iff its topic is a Metadata topic published by PUB. */
  lemma ScenarioMeaning(parse: DurationParser, v: Validator, rows: Rows, entries: seq<Entry>)
    requires ReadsAs(parse, v, rows, entries)
    ensures forall i :: 0 <= i < |entries| ==>
              && entries[i].offset >= 0
              && (var s := Split(entries[i].topic, '/');
                  |s| >= 4 && (entries[i].retain <==> s[2] == "PUB" && s[3] == "Metadata"))
    ensures forall i, j :: 0 <= i <= j < |entries| ==> entries[i].offset <= entries[j].offset
  {
    hide IsAccepted, Split;
    forall i | 0 <= i < |entries|
      ensures entries[i].offset >= 0
      ensures var s := Split(entries[i].topic, '/');
              |s| >= 4 && (entries[i].retain <==> s[2] == "PUB" && s[3] == "Metadata")
    {
      assert RowIs(parse, v, rows[i], entries[i]);
    }
    forall i, j | 0 <= i <= j < |entries| ensures entries[i].offset <= entries[j].offset {
      OffsetsGrow(entries, i, j);
    }
  }

  lemma {:induction false} OffsetsGrow(entries: seq<Entry>, i: nat, j: nat)
    requires i <= j < |entries| && forall k :: 0 <= k < |entries| - 1 ==> entries[k].offset <= entries[k + 1].offset
    ensures entries[i].offset <= entries[j].offset
    decreases j
  {
    if i < j {
      OffsetsGrow(entries, i, j - 1);
      assert entries[j - 1].offset <= entries[j - 1 + 1].offset;
    }
  }

  // ---------------------------------------------------------------- publishing

  datatype Message = Message(topic: string, payload: string, qos: nat, retain: bool)

  /** What the outside world does: when the context is cancelled, if ever, and at entry i: which of a
      timer and a cancellation that are both due is taken, how long after its end waiting is noticed
      to be over, how long sending takes, and whether it fails. */
  datatype Script = Script(cancelAt: Option<int>, cancelFirst: nat -> bool,
                           delay: nat -> nat, sending: nat -> nat, fails: nat -> bool)

  /** The context is cancelled by the given time. */
  predicate CancelledBy(script: Script, time: int) {
    script.cancelAt.Some? && script.cancelAt.value <= time
  }

  /** Waiting from the given time for the deadline may succeed: the context is not cancelled when
      waiting begins, nor before the deadline. */
  predicate MayWait(script: Script, time: int, deadline: int) {
    !CancelledBy(script, time) && !CancelledBy(script, deadline - 1)
  }

  /** The clock, in nanoseconds, and the messages the broker has taken. */
  class World {
    const script: Script
    var clock: int
    var sent: seq<Message>

    constructor (script: Script, clock: int)
      ensures this.script == script && this.clock == clock && sent == []
    {
      this.script := script;
      this.clock := clock;
      sent := [];
    }

    /** Without a remaining duration the context is looked at once; otherwise the first of the timer
        and the cancellation ends the waiting, and either of them when both are due. */
    method WaitUntil(i: nat, deadline: int) returns (ok: bool)
      modifies this`clock
      ensures ok ==> MayWait(script, old(clock), deadline) && clock == Max(old(clock), deadline) + script.delay(i)
      ensures !ok ==> CancelledBy(script, clock) && clock >= old(clock)
    {
      var duration := deadline - clock;
      if duration <= 0 {
        if CancelledBy(script, clock) {
          return false;
        }
        clock := clock + script.delay(i);
        return true;
      }
      if CancelledBy(script, deadline - 1) {
        clock := Max(clock, script.cancelAt.value);
        return false;
      }
      clock := deadline + script.delay(i);
      ok := !(CancelledBy(script, clock) && script.cancelFirst(i));
    }

    method Publish(i: nat, m: Message) returns (ok: bool)
      modifies this
      ensures ok <==> !script.fails(i)
      ensures clock == old(clock) + script.sending(i)
      ensures sent == if ok then old(sent) + [m] else old(sent)
    {
      clock := clock + script.sending(i);
      if script.fails(i) {
        return false;
      }
      sent := sent + [m];
      ok := true;
    }
  }

  datatype Outcome =
    | Finished
    | WaitFailed(entry: nat)
    | RenderFailed(entry: nat)
    | PublishFailed(entry: nat)

  function OffsetsOf(entries: seq<Entry>): (r: Offsets)
    ensures |r| == |entries|
  {
    seq(|entries|, i requires 0 <= i < |entries| => entries[i].offset)
  }

  function CostsOf(script: Script, n: nat): (r: Costs)
    ensures |r| == n
  {
    seq(n, i requires 0 <= i < n => script.delay(i) + script.sending(i))
  }

  /** The clock when entry i is rendered. */
  function RenderTime(entries: seq<Entry>, script: Script, start: int, i: nat): int
    requires i < |entries|
  {
    ReadyAt(start, OffsetsOf(entries), CostsOf(script, |entries|), i) + script.delay(i)
  }

  function FinishTime(entries: seq<Entry>, script: Script, start: int, n: nat): int
    requires n <= |entries|
  {
    FinishOf(start, OffsetsOf(entries), CostsOf(script, |entries|), n)
  }

  function UnixMilli(nanos: int): int {
    nanos / 1_000_000
  }

  function MessageOf(entries: seq<Entry>, script: Script, start: int, qos: nat, i: nat): Message
    requires i < |entries|
  {
    var e := entries[i];
    Message(e.topic, PayloadAt(e, UnixMilli(RenderTime(entries, script, start, i))), qos, e.retain)
  }

  function Count(entries: seq<Entry>, r: Outcome): nat {
    if r.Finished? then |entries| else r.entry
  }

  lemma NothingSpent(entries: seq<Entry>, script: Script, start: int)
    ensures FinishTime(entries, script, start, 0) == start
  {
  }

  lemma OneStep(entries: seq<Entry>, script: Script, start: int, i: nat)
    requires i < |entries|
    ensures RenderTime(entries, script, start, i)
         == Max(FinishTime(entries, script, start, i), start + entries[i].offset) + script.delay(i)
    ensures FinishTime(entries, script, start, i + 1) == RenderTime(entries, script, start, i) + script.sending(i)
  {
  }

  method PublishOnce(entries: seq<Entry>, v: Validator, world: World, qos: nat) returns (r: Outcome)
    requires v.Valid()
    modifies v, world
    ensures v.Valid() && Count(entries, r) <= |entries|
    ensures var n := Count(entries, r);
            && |world.sent| == |old(world.sent)| + n && world.sent[..|old(world.sent)|] == old(world.sent)
            && forall i :: 0 <= i < n ==>
                 var m := MessageOf(entries, world.script, old(world.clock), qos, i);
                 && world.sent[|old(world.sent)| + i] == m && IsAccepted(v, m.topic, m.payload)
                 && MayWait(world.script, FinishTime(entries, world.script, old(world.clock), i),
                            old(world.clock) + entries[i].offset)
                 && !world.script.fails(i)
    ensures r.Finished? ==> world.clock == FinishTime(entries, world.script, old(world.clock), |entries|)
    ensures match r
            case Finished => true
            case WaitFailed(i) => i < |entries| && CancelledBy(world.script, world.clock)
            case RenderFailed(i) => i < |entries| &&
              (var m := MessageOf(entries, world.script, old(world.clock), qos, i); !IsAccepted(v, m.topic, m.payload))
            case PublishFailed(i) => i < |entries| && world.script.fails(i)
  {
    hide IsAccepted, PayloadAt, FinishTime, RenderTime, MayWait, CancelledBy, v.Valid;
    assert FinishTime(entries, world.script, world.clock, 0) == world.clock by {
      NothingSpent(entries, world.script, world.clock);
    }
    var startedAt := world.clock;
    ghost var before := world.sent;
    for i := 0 to |entries|
      invariant v.Valid()
      invariant world.clock == FinishTime(entries, world.script, startedAt, i)
      invariant |world.sent| == |before| + i && world.sent[..|before|] == before
      invariant forall k :: 0 <= k < i ==>
                  var m := MessageOf(entries, world.script, startedAt, qos, k);
                  && world.sent[|before| + k] == m && IsAccepted(v, m.topic, m.payload)
                  && MayWait(world.script, FinishTime(entries, world.script, startedAt, k),
                             startedAt + entries[k].offset)
                  && !world.script.fails(k)
    {
      var entry := entries[i];
      var publishAt := startedAt + entry.offset;
      var waited := world.WaitUntil(i, publishAt);
      if !waited {
        return WaitFailed(i);
      }
      OneStep(entries, world.script, startedAt, i);
      var payload := RenderPayload(entry, v, UnixMilli(world.clock));
      if payload.None? {
        return RenderFailed(i);
      }
      var m := Message(entry.topic, payload.value, qos, entry.retain);
      assert m == MessageOf(entries, world.script, startedAt, qos, i);
      var published := world.Publish(i, m);
      if !published {
        return PublishFailed(i);
      }
    }
    r := Finished;
  }

  /** The times of a run: nothing is rendered or published before its deadline, and n entries are
      out at the maximum over j < n of entry j's deadline plus the costs from j on. */
  lemma RunTimes(entries: seq<Entry>, script: Script, start: int, n: nat) returns (last: nat)
    requires 0 < n <= |entries| && entries[0].offset >= 0
    ensures var costs := CostsOf(script, |entries|);
            && last < n
            && FinishTime(entries, script, start, n) == start + entries[last].offset + CostOf(costs, last, n)
            && (forall j :: 0 <= j < n ==>
                  start + entries[j].offset + CostOf(costs, j, n) <= FinishTime(entries, script, start, n))
            && (forall i :: 0 <= i < n ==> RenderTime(entries, script, start, i) >= start + entries[i].offset)
  {
    var offsets, costs := OffsetsOf(entries), CostsOf(script, |entries|);
    last := FinishIsMaximum(start, offsets, costs, n);
    forall j | 0 <= j < n
      ensures start + entries[j].offset + CostOf(costs, j, n) <= FinishTime(entries, script, start, n)
    {
      assert BackToBack(start, offsets, costs, j, n) == start + entries[j].offset + CostOf(costs, j, n);
    }
  }

  // ---------------------------------------------------------------- in the fields of a record

  /** `BMS/v1/`, any publisher for values but `PUB` for metadata, and at least no empty segment and no
      wildcard anywhere. */
  predicate IsTopicFor(topic: string, retain: bool) {
    var s := Split(topic, '/');
    && |s| >= 4 && s[0] == "BMS" && s[1] == "v1" && s[3] == (if retain then "Metadata" else "Value")
    && (retain ==> s[2] == "PUB")
    && forall i :: 0 <= i < |s| ==> s[i] != "" && '+' !in s[i] && '#' !in s[i]
  }

  /** Exactly which records are which entries. */
  lemma RecordMeaning(parse: DurationParser, record: seq<string>, e: Entry)
    ensures IsEntryOf(parse, record, e) <==>
              && |record| == 3
              && record[0] != "" && parse(record[0]) == Some(e.offset) && e.offset >= 0
              && record[1] == e.topic && IsTopicFor(e.topic, e.retain)
              && record[2] == e.template && e.template != ""
  {
    hide Split;
  }

  /** A row is taken if it is an entry whose payload, with 0 for every timestamp, is accepted. */
  lemma RowMeaning(parse: DurationParser, v: Validator, row: Option<seq<string>>, e: Entry)
    ensures RowIs(parse, v, row, e) <==>
              && row.Some? && IsEntryOf(parse, row.value, e)
              && VerdictOf(v.lib, v.spec, e.topic, Join(Gaps(e.template, "{{timestamp_ms}}"), "0")) == Accepted
  {
    hide VerdictOf, IsEntryOf, Gaps, Join, ReplaceAll;
    GapsAreKept(e.template, PLACEHOLDER, IntText(0));
    assert IntText(0) == "0";
  }

  /** What is published for an entry: its topic, the quality of service asked for, retained or not as
      the record says, and its template with the time of rendering in whole milliseconds. */
  lemma MessageMeaning(entries: seq<Entry>, script: Script, start: int, qos: nat, i: nat, millis: int)
    requires i < |entries|
    requires millis * 1_000_000 <= RenderTime(entries, script, start, i) < (millis + 1) * 1_000_000
    ensures MessageOf(entries, script, start, qos, i)
         == Message(entries[i].topic, Join(Gaps(entries[i].template, "{{timestamp_ms}}"), IntText(millis)), qos,
                    entries[i].retain)
  {
    hide RenderTime, Gaps, Join, ReplaceAll;
    GapsAreKept(entries[i].template, PLACEHOLDER, IntText(millis));
  }

  /** Waiting may succeed unless the context is cancelled by now or before the deadline. */
  lemma WaitMeaning(script: Script, time: int, deadline: int)
    ensures MayWait(script, time, deadline) <==>
              script.cancelAt.None? || (script.cancelAt.value > time && script.cancelAt.value >= deadline)
    ensures CancelledBy(script, time) <==> script.cancelAt.Some? && script.cancelAt.value <= time
  {
  }
}
