/**
 Usage metering: collecting a window of audit events, grouping them twice, and
 reporting them so that every hour is billed once and exactly.
 */
module Metering {
  import opened Wrappers
  import opened Calendar

  const HOUR_MS: int := 3_600_000
  const GRACE_MS: int := 600_000
  const MAX_WINDOW_MS: int := 24 * HOUR_MS

  datatype AuditEvent = AuditEvent(at: int, resourceType: string, workspaceId: string, count: Option<int>)

  function Floor(x: int, unit: int): int
    requires unit > 0
  {
    x / unit * unit
  }

  function MeterOf(e: AuditEvent): Option<string> {
    if e.resourceType == "secret" then Some("secret_operations")
    else if e.resourceType == "config" || e.resourceType == "flag" then Some("config_writes")
    else if e.resourceType == "edge_read" then Some("edge_reads")
    else if e.resourceType == "mau" then Some("mau")
    else None
  }

  function Weight(e: AuditEvent): (w: nat)
    ensures w > 0
  {
    if e.count.Some? && e.count.value > 0 then e.count.value else 1
  }

  predicate Within(e: AuditEvent, from: int, to: int) {
    from <= e.at < to
  }

  // ------------------------------------------------------------ collection

  datatype Line = Blank | Corrupt | Entry(event: AuditEvent)

  /**
   An archived batch. Its key names a UTC day and the write time in ms, which is
   None when the key does not parse; the body is None when it cannot be fetched.
   */
  datatype Batch = Batch(day: int, writtenAt: Option<int>, body: Option<seq<Line>>)

  function LineEvents(lines: seq<Line>, from: int, to: int): seq<AuditEvent> {
    if lines == [] then []
    else
      var last := lines[|lines| - 1];
      LineEvents(lines[..|lines| - 1], from, to) +
      (if last.Entry? && Within(last.event, from, to) then [last.event] else [])
  }

  predicate InScan(b: Batch, from: int, to: int) {
    b.writtenAt.Some? && from <= b.writtenAt.value <= to + GRACE_MS && b.body.Some?
  }

  function BatchEvents(b: Batch, from: int, to: int): seq<AuditEvent> {
    if InScan(b, from, to) then LineEvents(b.body.value, from, to) else []
  }

  function BatchesEvents(batches: seq<Batch>, from: int, to: int): seq<AuditEvent> {
    if batches == [] then []
    else BatchesEvents(batches[..|batches| - 1], from, to) + BatchEvents(batches[|batches| - 1], from, to)
  }

  /** The batches listed under one day's prefix. */
  function OfDay(batches: seq<Batch>, day: int): seq<Batch> {
    if batches == [] then []
    else
      var last := batches[|batches| - 1];
      OfDay(batches[..|batches| - 1], day) + (if last.day == day then [last] else [])
  }

  /** Where a page begins. */
  function Start(cursor: Option<nat>): nat {
    if cursor.Some? then cursor.value else 0
  }

  /** Where it ends, given where the next one begins. */
  function End(next: Option<nat>, all: nat): nat {
    if next.Some? then next.value else all
  }

  /** The object store: lists a prefix in pages. */
  class AuditBucket {
    const batches: seq<Batch>
    const pageSize: nat

    constructor (batches: seq<Batch>, pageSize: nat)
      requires pageSize > 0
      ensures this.batches == batches && this.pageSize == pageSize
    {
      this.batches, this.pageSize := batches, pageSize;
    }

    method List(day: int, cursor: Option<nat>) returns (page: seq<Batch>, next: Option<nat>)
      requires pageSize > 0 && Start(cursor) <= |OfDay(batches, day)|
      ensures var all, start := OfDay(batches, day), Start(cursor);
        && start + |page| <= |all| && page == all[start..start + |page|]
        && (next.Some? ==> next.value == start + |page| && |page| > 0)
        && (next.None? ==> start + |page| == |all|)
    {
      var all, start := OfDay(batches, day), Start(cursor);
      var end := if start + pageSize < |all| then start + pageSize else |all|;
      page := all[start..end];
      next := if end < |all| then Some(end) else None;
    }
  }

  /** Everything scanned for a window, day by day. */
  function Collected(batches: seq<Batch>, day: int, from: int, to: int): seq<AuditEvent>
    decreases GRACE_MS + to - day
  {
    if day > to + GRACE_MS then []
    else BatchesEvents(OfDay(batches, day), from, to) + Collected(batches, day + DAY_MS, from, to)
  }

  method CollectWindowEvents(bucket: AuditBucket, from: int, to: int) returns (events: seq<AuditEvent>)
    requires bucket.pageSize > 0
    ensures events == Collected(bucket.batches, Floor(from, DAY_MS), from, to)
  {
    events := [];
    var ceiling := to + GRACE_MS;
    var day := Floor(from, DAY_MS);
    while day <= ceiling
      invariant events + Collected(bucket.batches, day, from, to) ==
        Collected(bucket.batches, Floor(from, DAY_MS), from, to)
      decreases ceiling - day
    {
      CollectedStep(events, bucket.batches, day, from, to);
      events := CollectDay(bucket, day, from, to, events);
      day := day + DAY_MS;
    }
  }

  lemma CollectedStep(events: seq<AuditEvent>, batches: seq<Batch>, day: int, from: int, to: int)
    requires day <= to + GRACE_MS
    ensures events + BatchesEvents(OfDay(batches, day), from, to) + Collected(batches, day + DAY_MS, from, to) ==
      events + Collected(batches, day, from, to)
  {
    Assoc(events, BatchesEvents(OfDay(batches, day), from, to), Collected(batches, day + DAY_MS, from, to));
  }

  /** All pages of one day's prefix. */
  method CollectDay(bucket: AuditBucket, day: int, from: int, to: int, events: seq<AuditEvent>)
    returns (more: seq<AuditEvent>)
    requires bucket.pageSize > 0
    ensures more == events + BatchesEvents(OfDay(bucket.batches, day), from, to)
  {
    more := events;
    ghost var all := OfDay(bucket.batches, day);
    ghost var seen: nat := 0;
    var cursor: Option<nat> := None;
    var done := false;
    while !done
      invariant seen <= |all| && if done then seen == |all| else seen == Start(cursor)
      invariant more == events + BatchesEvents(all[..seen], from, to)
      decreases if done then 0 else |all| - seen + 1
    {
      more, cursor := ReadPage(bucket, day, cursor, from, to, more, events, all);
      seen := End(cursor, |all|);
      done := cursor.None?;
    }
    assert all[..|all|] == all;
  }

  /** One page, from the cursor on. */
  method ReadPage(
    bucket: AuditBucket, day: int, cursor: Option<nat>, from: int, to: int, sofar: seq<AuditEvent>,
    ghost before: seq<AuditEvent>, ghost all: seq<Batch>)
    returns (more: seq<AuditEvent>, next: Option<nat>)
    requires bucket.pageSize > 0 && all == OfDay(bucket.batches, day) && Start(cursor) <= |all|
    requires sofar == before + BatchesEvents(all[..Start(cursor)], from, to)
    ensures Start(cursor) <= End(next, |all|) <= |all| && (next.Some? ==> Start(cursor) < next.value)
    ensures more == before + BatchesEvents(all[..End(next, |all|)], from, to)
  {
    var page;
    page, next := bucket.List(day, cursor);
    NextPage(before, sofar, all, Start(cursor), page, End(next, |all|), from, to);
    more := CollectPage(page, from, to, sofar);
  }

  lemma Assoc<T>(a: seq<T>, b: seq<T>, c: seq<T>)
    ensures a + b + c == a + (b + c)
  {}

  lemma NextPage(
    before: seq<AuditEvent>, sofar: seq<AuditEvent>, all: seq<Batch>, start: nat, page: seq<Batch>, end: nat,
    from: int, to: int)
    requires end == start + |page| <= |all| && page == all[start..end]
    requires sofar == before + BatchesEvents(all[..start], from, to)
    ensures sofar + BatchesEvents(page, from, to) == before + BatchesEvents(all[..end], from, to)
  {
    assert all[..start] + page == all[..end];
    BatchesEventsConcat(all[..start], page, from, to);
    Assoc(before, BatchesEvents(all[..start], from, to), BatchesEvents(page, from, to));
  }

  method CollectPage(page: seq<Batch>, from: int, to: int, events: seq<AuditEvent>) returns (more: seq<AuditEvent>)
    ensures more == events + BatchesEvents(page, from, to)
  {
    more := events;
    for i := 0 to |page|
      invariant more == events + BatchesEvents(page[..i], from, to)
    {
      assert page[..i + 1][..i] == page[..i];
      more := ReadBatch(page[i], from, to, more);
    }
    assert page[..|page|] == page;
  }

  lemma {:induction false} BatchesEventsConcat(a: seq<Batch>, b: seq<Batch>, from: int, to: int)
    ensures BatchesEvents(a + b, from, to) == BatchesEvents(a, from, to) + BatchesEvents(b, from, to)
  {
    if b == [] {
      assert a + b == a;
    } else {
      assert (a + b)[..|a + b| - 1] == a + b[..|b| - 1];
      BatchesEventsConcat(a, b[..|b| - 1], from, to);
    }
  }

  /** One object: skipped by its key, or read line by line. */
  method ReadBatch(b: Batch, from: int, to: int, events: seq<AuditEvent>) returns (more: seq<AuditEvent>)
    ensures more == events + BatchEvents(b, from, to)
  {
    more := events;
    if b.writtenAt.None? || b.writtenAt.value < from || b.writtenAt.value > to + GRACE_MS { return; }
    if b.body.None? { return; }
    var lines := b.body.value;
    for i := 0 to |lines|
      invariant more == events + LineEvents(lines[..i], from, to)
    {
      assert lines[..i + 1][..i] == lines[..i];
      if lines[i].Entry? && Within(lines[i].event, from, to) {
        more := more + [lines[i].event];
      }
    }
    assert lines[..|lines|] == lines;
  }

  // ------------------------------------------- completeness of collection

  /** Every event in the archive, whenever it happened. */
  function Archived(batches: seq<Batch>): seq<AuditEvent> {
    if batches == [] then []
    else
      var last := batches[|batches| - 1];
      Archived(batches[..|batches| - 1]) + (if last.body.Some? then Entries(last.body.value) else [])
  }

  function Entries(lines: seq<Line>): seq<AuditEvent> {
    if lines == [] then []
    else
      var last := lines[|lines| - 1];
      Entries(lines[..|lines| - 1]) + (if last.Entry? then [last.event] else [])
  }

  function Select(events: seq<AuditEvent>, from: int, to: int): seq<AuditEvent> {
    if events == [] then []
    else
      var last := events[|events| - 1];
      Select(events[..|events| - 1], from, to) + (if Within(last, from, to) then [last] else [])
  }

  /** Batches are keyed by write time, readable, and written soon after the events they hold. */
  predicate WellKept(b: Batch) {
    && b.writtenAt.Some? && b.body.Some? && b.day == Floor(b.writtenAt.value, DAY_MS)
    && forall l :: l in b.body.value && l.Entry? ==>
         l.event.at <= b.writtenAt.value <= l.event.at + GRACE_MS
  }

  lemma {:induction false} SelectConcat(a: seq<AuditEvent>, b: seq<AuditEvent>, from: int, to: int)
    ensures Select(a + b, from, to) == Select(a, from, to) + Select(b, from, to)
  {
    if b == [] {
      assert a + b == a;
    } else {
      assert (a + b)[..|a + b| - 1] == a + b[..|b| - 1];
      SelectConcat(a, b[..|b| - 1], from, to);
    }
  }

  lemma {:induction false} LineEventsAreSelected(lines: seq<Line>, from: int, to: int)
    ensures LineEvents(lines, from, to) == Select(Entries(lines), from, to)
  {
    if lines != [] {
      var last := lines[|lines| - 1];
      LineEventsAreSelected(lines[..|lines| - 1], from, to);
      SelectConcat(Entries(lines[..|lines| - 1]), if last.Entry? then [last.event] else [], from, to);
      if last.Entry? { assert [last.event][..0] == []; }
    }
  }

  /** A batch outside the key scan holds nothing of the window. */
  lemma {:induction false} OutOfScanIsEmpty(lines: seq<Line>, writtenAt: int, from: int, to: int)
    requires forall l :: l in lines && l.Entry? ==> l.event.at <= writtenAt <= l.event.at + GRACE_MS
    requires writtenAt < from || writtenAt > to + GRACE_MS
    ensures LineEvents(lines, from, to) == []
  {
    if lines != [] {
      assert lines[|lines| - 1] in lines;
      OutOfScanIsEmpty(lines[..|lines| - 1], writtenAt, from, to);
    }
  }

  lemma BatchComplete(b: Batch, from: int, to: int)
    requires WellKept(b)
    ensures BatchEvents(b, from, to) == Select(Entries(b.body.value), from, to)
  {
    LineEventsAreSelected(b.body.value, from, to);
    if !InScan(b, from, to) { OutOfScanIsEmpty(b.body.value, b.writtenAt.value, from, to); }
  }

  /** Events of those batches whose day is not before `day`. */
  function FromDay(batches: seq<Batch>, day: int, from: int, to: int): multiset<AuditEvent> {
    if batches == [] then multiset{}
    else
      var last := batches[|batches| - 1];
      FromDay(batches[..|batches| - 1], day, from, to) +
      (if last.day >= day then multiset(BatchEvents(last, from, to)) else multiset{})
  }

  lemma OfDayStep(init: seq<Batch>, last: Batch, day: int, from: int, to: int)
    ensures multiset(BatchesEvents(OfDay(init + [last], day), from, to)) ==
      multiset(BatchesEvents(OfDay(init, day), from, to)) +
      (if last.day == day then multiset(BatchEvents(last, from, to)) else multiset{})
  {
    assert (init + [last])[..|init|] == init;
    var days := OfDay(init, day);
    if last.day == day {
      assert OfDay(init + [last], day) == days + [last];
      assert (days + [last])[..|days|] == days;
      assert BatchesEvents(days + [last], from, to) == BatchesEvents(days, from, to) + BatchEvents(last, from, to);
    } else {
      assert OfDay(init + [last], day) == days;
    }
  }

  lemma NextDay(a: int, b: int)
    requires a % DAY_MS == 0 && b % DAY_MS == 0 && a > b
    ensures a >= b + DAY_MS
  {}

  lemma FromDayStep(init: seq<Batch>, last: Batch, day: int, from: int, to: int)
    ensures FromDay(init + [last], day, from, to) ==
      FromDay(init, day, from, to) + (if last.day >= day then multiset(BatchEvents(last, from, to)) else multiset{})
  {
    assert (init + [last])[..|init|] == init;
  }

  lemma {:induction false} SplitDay(batches: seq<Batch>, day: int, from: int, to: int)
    requires day % DAY_MS == 0 && forall b :: b in batches ==> b.day % DAY_MS == 0
    ensures FromDay(batches, day, from, to) ==
      multiset(BatchesEvents(OfDay(batches, day), from, to)) + FromDay(batches, day + DAY_MS, from, to)
  {
    if batches != [] {
      var init, last := batches[..|batches| - 1], batches[|batches| - 1];
      assert batches == init + [last] && last in batches;
      SplitDay(init, day, from, to);
      if last.day > day { NextDay(last.day, day); }
      OfDayStep(init, last, day, from, to);
      FromDayStep(init, last, day, from, to);
      FromDayStep(init, last, day + DAY_MS, from, to);
    }
  }

  lemma {:induction false} LateDaysEmpty(batches: seq<Batch>, day: int, from: int, to: int)
    requires day > to + GRACE_MS && forall b :: b in batches ==> WellKept(b)
    ensures FromDay(batches, day, from, to) == multiset{}
  {
    if batches != [] {
      LateDaysEmpty(batches[..|batches| - 1], day, from, to);
      assert batches[|batches| - 1] in batches;
    }
  }

  lemma {:induction false} CollectedFromDay(batches: seq<Batch>, day: int, from: int, to: int)
    requires day % DAY_MS == 0 && forall b :: b in batches ==> WellKept(b)
    ensures multiset(Collected(batches, day, from, to)) == FromDay(batches, day, from, to)
    decreases GRACE_MS + to - day
  {
    if day > to + GRACE_MS {
      LateDaysEmpty(batches, day, from, to);
    } else {
      CollectedFromDay(batches, day + DAY_MS, from, to);
      SplitDay(batches, day, from, to);
    }
  }

  lemma {:induction false} FromFirstDay(batches: seq<Batch>, from: int, to: int)
    requires forall b :: b in batches ==> WellKept(b)
    ensures FromDay(batches, Floor(from, DAY_MS), from, to) == multiset(Select(Archived(batches), from, to))
  {
    if batches != [] {
      var init, last := batches[..|batches| - 1], batches[|batches| - 1];
      FromFirstDay(init, from, to);
      assert last in batches;
      BatchComplete(last, from, to);
      SelectConcat(Archived(init), Entries(last.body.value), from, to);
      if last.day < Floor(from, DAY_MS) {
        assert last.writtenAt.value < from;
      }
    }
  }

  /** The scan returns every archived event of the window exactly once. */
  lemma CollectionExact(batches: seq<Batch>, from: int, to: int)
    requires forall b :: b in batches ==> WellKept(b)
    ensures multiset(Collected(batches, Floor(from, DAY_MS), from, to)) == multiset(Select(Archived(batches), from, to))
  {
    CollectedFromDay(batches, Floor(from, DAY_MS), from, to);
    FromFirstDay(batches, from, to);
  }
}
