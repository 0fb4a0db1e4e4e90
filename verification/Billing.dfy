/** From collected events to billed hours: two groupings, reporting with partial failure, and the watermark. */
module Billing {
  import opened Wrappers
  import opened Calendar
  import opened Metering
  import opened Usage

  /** Units billed under `id` by events whose bucket is among `buckets`. */
  function PartTotal(r: Roster, events: seq<AuditEvent>, buckets: set<BucketKey>, id: Identifier): nat {
    if events == [] then 0
    else
      var last := events[|events| - 1];
      PartTotal(r, events[..|events| - 1], buckets, id) +
      (if IdOf(r, last) == Some(id) && BucketOf(last).value in buckets then Weight(last) else 0)
  }

  lemma {:induction false} PartTotalGrows(
    r: Roster, events: seq<AuditEvent>, buckets: set<BucketKey>, b: BucketKey, id: Identifier)
    requires b !in buckets
    ensures PartTotal(r, events, buckets + {b}, id) ==
      PartTotal(r, events, buckets, id) + (if IdOfBucket(r, b) == Some(id) then BucketCount(events, b) else 0)
  {
    if events != [] { PartTotalGrows(r, events[..|events| - 1], buckets, b, id); }
  }

  lemma {:induction false} PartTotalNone(r: Roster, events: seq<AuditEvent>, id: Identifier)
    ensures PartTotal(r, events, {}, id) == 0
  {
    if events != [] { PartTotalNone(r, events[..|events| - 1], id); }
  }

  lemma {:induction false} PartTotalAll(
    r: Roster, events: seq<AuditEvent>, buckets: set<BucketKey>, id: Identifier)
    requires forall e :: e in events && BucketOf(e).Some? ==> BucketOf(e).value in buckets
    ensures PartTotal(r, events, buckets, id) == Total(r, events, id)
  {
    if events != [] {
      assert events[|events| - 1] in events;
      PartTotalAll(r, events[..|events| - 1], buckets, id);
    }
  }

  lemma {:induction false} CountedBucket(events: seq<AuditEvent>, b: BucketKey)
    ensures BucketCount(events, b) > 0 <==> exists e :: e in events && BucketOf(e) == Some(b)
  {
    if events != [] {
      var init, last := events[..|events| - 1], events[|events| - 1];
      assert events == init + [last];
      CountedBucket(init, b);
    }
  }

  // ---------------------------------------------------------- aggregation

  method AggregateUsage(events: seq<AuditEvent>, from: int, to: int) returns (buckets: map<BucketKey, nat>)
    ensures forall b :: b in buckets <==> BucketCount(Select(events, from, to), b) > 0
    ensures forall b :: b in buckets ==> buckets[b] == BucketCount(Select(events, from, to), b)
    ensures forall b :: b in buckets <==> CountedFor(SpreadOut(events), from, to, b) != {}
    ensures forall b :: b in buckets ==> buckets[b] == |CountedFor(SpreadOut(events), from, to, b)|
  {
    buckets := map[];
    for i := 0 to |events|
      invariant forall b :: b in buckets <==> BucketCount(Select(events[..i], from, to), b) > 0
      invariant forall b :: b in buckets ==> buckets[b] == BucketCount(Select(events[..i], from, to), b)
    {
      var event := events[i];
      CountOneMore(events, i, from, to);
      if event.at < from || event.at >= to { continue; }
      var meter := MeterOf(event);
      if meter.None? { continue; }
      var key := BucketKey(Floor(event.at, HOUR_MS), meter.value, event.workspaceId);
      var n := if event.count.Some? && event.count.value > 0 then event.count.value else 1;
      if key in buckets {
        buckets := buckets[key := buckets[key] + n];
      } else {
        buckets := buckets[key := n];
      }
    }
    assert events[..|events|] == events;
    forall b ensures BucketCount(Select(events, from, to), b) == |CountedFor(SpreadOut(events), from, to, b)| {
      CountIsUnits(events, from, to, b);
    }
  }

  /** One event per unit aggregates to the same map. */
  method AggregateSpreadOut(events: seq<AuditEvent>, from: int, to: int)
    returns (counted: map<BucketKey, nat>, spread: map<BucketKey, nat>)
    ensures counted == spread
  {
    counted := AggregateUsage(events, from, to);
    spread := AggregateUsage(SpreadOut(events), from, to);
    forall b ensures BucketCount(Select(SpreadOut(events), from, to), b) == BucketCount(Select(events, from, to), b) {
      SpreadKeepsCounts(events, from, to, b);
    }
  }

  lemma CountOneMore(events: seq<AuditEvent>, i: nat, from: int, to: int)
    requires i < |events|
    ensures forall b ::
      BucketCount(Select(events[..i + 1], from, to), b) ==
      BucketCount(Select(events[..i], from, to), b) +
      (if Within(events[i], from, to) && BucketOf(events[i]) == Some(b) then Weight(events[i]) else 0)
  {
    assert events[..i + 1][..i] == events[..i];
    var before := Select(events[..i], from, to);
    if Within(events[i], from, to) {
      assert Select(events[..i + 1], from, to) == before + [events[i]];
      assert (before + [events[i]])[..|before|] == before;
    } else {
      assert Select(events[..i + 1], from, to) == before;
    }
  }

  method GroupByCustomer(r: Roster, usage: map<BucketKey, nat>, ghost events: seq<AuditEvent>)
    returns (billable: map<Identifier, nat>)
    requires forall b :: b in usage <==> BucketCount(events, b) > 0
    requires forall b :: b in usage ==> usage[b] == BucketCount(events, b)
    ensures forall id :: id in billable <==> Total(r, events, id) > 0
    ensures forall id :: id in billable ==> billable[id] == Total(r, events, id)
  {
    billable := map[];
    var rest := usage.Keys;
    ghost var done: set<BucketKey> := {};
    forall id ensures PartTotal(r, events, {}, id) == 0 { PartTotalNone(r, events, id); }
    while rest != {}
      invariant rest <= usage.Keys && done == usage.Keys - rest
      invariant forall id :: id in billable <==> PartTotal(r, events, done, id) > 0
      invariant forall id :: id in billable ==> billable[id] == PartTotal(r, events, done, id)
      decreases rest
    {
      var u :| u in rest;
      forall id { PartTotalGrows(r, events, done, u, id); }
      rest := rest - {u};
      done := done + {u};
      var customer := CustomerOf(r, u.workspaceId);
      if customer.Some? {
        var key := Identifier(u.meter, customer.value, u.hourStart / 1000);
        if key in billable {
          billable := billable[key := billable[key] + usage[u]];
        } else {
          billable := billable[key := usage[u]];
        }
      }
    }
    forall id ensures PartTotal(r, events, done, id) == Total(r, events, id) {
      forall e | e in events && BucketOf(e).Some? ensures BucketOf(e).value in done {
        CountedBucket(events, BucketOf(e).value);
      }
      PartTotalAll(r, events, done, id);
    }
  }

  // ------------------------------------------------------------ the ledger

  /** What becomes of one report: accepted, refused, recorded but with the reply lost, or the call throws. */
  datatype Reply = Accepted | Refused | ReplyLost | Threw

  type Ledger = map<Identifier, nat>

  /** The billing side keeps the first report of each identifier and ignores repeats. */
  function Post(ledger: Ledger, id: Identifier, value: nat, reply: Reply): Ledger {
    if (reply.Accepted? || reply.ReplyLost?) && id !in ledger then ledger[id := value] else ledger
  }

  class Biller {
    var ledger: Ledger
    var watermark: Option<int>

    /** Report in order; None when a call throws, else how many were accepted. */
    method ReportMeterEvents(billable: map<Identifier, nat>, order: seq<Identifier>, replies: nat -> Reply)
      returns (accepted: Option<nat>)
      requires forall id :: id in order ==> id in billable
      modifies this`ledger
      ensures forall id :: id in old(ledger) ==> id in ledger && ledger[id] == old(ledger)[id]
      ensures forall id :: id in ledger && id !in old(ledger) ==> id in order && ledger[id] == billable[id]
      ensures accepted.Some? ==> accepted.value <= |order|
      ensures accepted == Some(|order|) <==> AllAccepted(replies, |order|)
      ensures accepted == Some(|order|) ==> forall id :: id in order ==> id in ledger
    {
      var n := 0;
      for i := 0 to |order|
        invariant n <= i
        invariant forall id :: id in old(ledger) ==> id in ledger && ledger[id] == old(ledger)[id]
        invariant forall id :: id in ledger && id !in old(ledger) ==> id in order && ledger[id] == billable[id]
        invariant n == i <==> AllAccepted(replies, i)
        invariant n == i ==> forall k :: 0 <= k < i ==> order[k] in ledger
      {
        ledger := Post(ledger, order[i], billable[order[i]], replies(i));
        if replies(i).Threw? { return None; }
        if replies(i).Accepted? { n := n + 1; }
      }
      accepted := Some(n);
    }

    /** One cron run over the objects visible in the bucket; `replies(k)` answers the k-th report, should it be made. */
    method RunMeteringCron(bucket: AuditBucket, roster: Roster, replies: nat -> Reply, now: int)
      returns (advanced: bool, meterEvents: nat)
      requires bucket.pageSize > 0
      modifies this
      ensures RunEffect(old(State(watermark, ledger)), State(watermark, ledger),
                        WindowEvents(bucket.batches, old(watermark), now), roster, now)
      ensures advanced <==> WindowStart(old(watermark), now) < WindowEnd(now) && AllAccepted(replies, meterEvents)
      ensures watermark == if advanced then Some(WindowEnd(now)) else old(watermark)
    {
      var windowEnd := Floor(now - GRACE_MS, HOUR_MS);
      var stored := watermark;
      var from := if stored.Some? then stored.value else windowEnd - HOUR_MS;
      var windowStart := if from > windowEnd - MAX_WINDOW_MS then from else windowEnd - MAX_WINDOW_MS;
      advanced, meterEvents := false, 0;
      if windowStart >= windowEnd { return; }
      var events := CollectWindowEvents(bucket, windowStart, windowEnd);
      var usage := AggregateUsage(events, windowStart, windowEnd);
      var billable := GroupByCustomer(roster, usage, Select(events, windowStart, windowEnd));
      var accepted;
      accepted, meterEvents := ReportAll(billable, replies);
      if accepted {
        watermark := Some(windowEnd);
        advanced := true;
      }
    }

    /** Report every grouped value, in whatever order; true when all were accepted. */
    method ReportAll(billable: map<Identifier, nat>, replies: nat -> Reply) returns (all: bool, meterEvents: nat)
      modifies this`ledger
      ensures meterEvents == |billable|
      ensures all <==> AllAccepted(replies, meterEvents)
      ensures forall id :: id in old(ledger) ==> id in ledger && ledger[id] == old(ledger)[id]
      ensures forall id :: id in ledger && id !in old(ledger) ==> id in billable && ledger[id] == billable[id]
      ensures all ==> forall id :: id in billable ==> id in ledger
    {
      var order := AnyOrder(billable.Keys);
      meterEvents := |order|;
      var accepted := ReportMeterEvents(billable, order, replies);
      all := accepted == Some(|order|);
    }
  }

  ghost predicate AllAccepted(replies: nat -> Reply, n: nat) {
    forall k: nat :: k < n ==> replies(k).Accepted?
  }

  method AnyOrder(ids: set<Identifier>) returns (order: seq<Identifier>)
    ensures forall id :: id in order <==> id in ids
    ensures |order| == |ids|
  {
    order := [];
    var rest := ids;
    while rest != {}
      invariant rest <= ids && forall id :: id in ids <==> id in order || id in rest
      invariant forall id :: id in order ==> id !in rest
      invariant |order| + |rest| == |ids|
      decreases rest
    {
      var id :| id in rest;
      rest := rest - {id};
      order := order + [id];
    }
  }

  // ---------------------------------------------------------- a single run

  datatype State = State(watermark: Option<int>, ledger: Ledger)

  function WindowEnd(now: int): int {
    Floor(now - GRACE_MS, HOUR_MS)
  }

  function WindowStart(watermark: Option<int>, now: int): int {
    var from := if watermark.Some? then watermark.value else WindowEnd(now) - HOUR_MS;
    if from > WindowEnd(now) - MAX_WINDOW_MS then from else WindowEnd(now) - MAX_WINDOW_MS
  }

  /** The events a run finds for its window. */
  function WindowEvents(visible: seq<Batch>, watermark: Option<int>, now: int): seq<AuditEvent> {
    var from, to := WindowStart(watermark, now), WindowEnd(now);
    Select(Collected(visible, Floor(from, DAY_MS), from, to), from, to)
  }

  /** Everything the caller may rely on after a run, whatever was refused, lost or thrown on the way. */
  ghost predicate RunEffect(s: State, s': State, events: seq<AuditEvent>, r: Roster, now: int) {
    if WindowStart(s.watermark, now) >= WindowEnd(now) then s' == s
    else
      && (forall id :: id in s.ledger ==> id in s'.ledger && s'.ledger[id] == s.ledger[id])
      && (forall id :: id in s'.ledger && id !in s.ledger ==>
            Total(r, events, id) > 0 && s'.ledger[id] == Total(r, events, id))
      && (s'.watermark == s.watermark ||
           (s'.watermark == Some(WindowEnd(now)) && forall id :: Total(r, events, id) > 0 ==> id in s'.ledger))
  }

  // ------------------------------------------------ totals and event order

  lemma TotalWithout(r: Roster, events: seq<AuditEvent>, j: nat, id: Identifier)
    requires j < |events|
    ensures Total(r, events, id) ==
      Total(r, events[..j] + events[j + 1..], id) + (if IdOf(r, events[j]) == Some(id) then Weight(events[j]) else 0)
  {
    assert events == (events[..j] + [events[j]]) + events[j + 1..];
    TotalAppend(r, events[..j] + [events[j]], events[j + 1..], id);
    TotalStep(r, events[..j], events[j], id);
    TotalAppend(r, events[..j], events[j + 1..], id);
  }

  lemma FindLast(a: seq<AuditEvent>, b: seq<AuditEvent>) returns (j: nat)
    requires a != [] && multiset(a) == multiset(b)
    ensures j < |b| && b[j] == a[|a| - 1]
    ensures multiset(a[..|a| - 1]) == multiset(b[..j] + b[j + 1..])
  {
    var n := |a| - 1;
    assert a == a[..n] + [a[n]];
    assert a[n] in multiset(b);
    j :| 0 <= j < |b| && b[j] == a[n];
    assert b == b[..j] + ([b[j]] + b[j + 1..]);
    var rest := b[..j] + b[j + 1..];
    assert multiset(rest) == multiset(b) - multiset{b[j]};
    assert multiset(a[..n]) == multiset(a) - multiset{a[n]};
  }

  /** Totals depend on which events there are, not on their order. */
  lemma {:induction false} TotalPermutes(r: Roster, a: seq<AuditEvent>, b: seq<AuditEvent>, id: Identifier)
    requires multiset(a) == multiset(b)
    ensures Total(r, a, id) == Total(r, b, id)
  {
    if a == [] {
      assert |multiset(b)| == 0;
    } else {
      var n := |a| - 1;
      var j := FindLast(a, b);
      TotalWithout(r, b, j, id);
      TotalPermutes(r, a[..n], b[..j] + b[j + 1..], id);
    }
  }

  /** Units of all events that are billed at all. */
  function BilledWeight(r: Roster, events: seq<AuditEvent>): nat {
    if events == [] then 0
    else
      var last := events[|events| - 1];
      BilledWeight(r, events[..|events| - 1]) + (if IdOf(r, last).Some? then Weight(last) else 0)
  }

  ghost function Pick<T>(s: set<T>): (x: T)
    requires s != {}
    ensures x in s
  {
    var x :| x in s;
    x
  }

  ghost function SumValues(m: map<Identifier, nat>): nat
    decreases |m|
  {
    if m == map[] then 0
    else
      var id := Pick(m.Keys);
      m[id] + SumValues(m - {id})
  }

  ghost function SumTotals(r: Roster, events: seq<AuditEvent>, ids: set<Identifier>): nat
    decreases ids
  {
    if ids == {} then 0
    else
      var id := Pick(ids);
      Total(r, events, id) + SumTotals(r, events, ids - {id})
  }

  lemma {:induction false} SumTotalsStep(r: Roster, events: seq<AuditEvent>, ids: set<Identifier>)
    requires events != []
    ensures SumTotals(r, events, ids) == SumTotals(r, events[..|events| - 1], ids) +
      (if IdOf(r, events[|events| - 1]).Some? && IdOf(r, events[|events| - 1]).value in ids
       then Weight(events[|events| - 1]) else 0)
    decreases ids
  {
    if ids != {} {
      var id := Pick(ids);
      SumTotalsPick(r, events[..|events| - 1], ids, id);
      SumTotalsStep(r, events, ids - {id});
    }
  }

  /** Any member may be summed first. */
  lemma {:induction false} SumTotalsPick(r: Roster, events: seq<AuditEvent>, ids: set<Identifier>, id: Identifier)
    requires id in ids
    ensures SumTotals(r, events, ids) == Total(r, events, id) + SumTotals(r, events, ids - {id})
    decreases ids
  {
    var first := Pick(ids);
    if first != id {
      SumTotalsPick(r, events, ids - {first}, id);
      SumTotalsPick(r, events, ids - {id}, first);
      assert ids - {first} - {id} == ids - {id} - {first};
    }
  }

  lemma {:induction false} SumTotalsEmpty(r: Roster, ids: set<Identifier>)
    ensures SumTotals(r, [], ids) == 0
    decreases ids
  {
    if ids != {} {
      SumTotalsEmpty(r, ids - {Pick(ids)});
    }
  }

  lemma {:induction false} SumTotalsIsBilledWeight(r: Roster, events: seq<AuditEvent>, ids: set<Identifier>)
    requires forall e :: e in events && IdOf(r, e).Some? ==> IdOf(r, e).value in ids
    ensures SumTotals(r, events, ids) == BilledWeight(r, events)
  {
    if events == [] {
      SumTotalsEmpty(r, ids);
    } else {
      assert events[|events| - 1] in events;
      SumTotalsIsBilledWeight(r, events[..|events| - 1], ids);
      SumTotalsStep(r, events, ids);
    }
  }

  lemma {:induction false} SumValuesIsSumTotals(r: Roster, events: seq<AuditEvent>, m: map<Identifier, nat>)
    requires forall id :: id in m ==> m[id] == Total(r, events, id)
    ensures SumValues(m) == SumTotals(r, events, m.Keys)
    decreases |m|
  {
    if m != map[] {
      var id := Pick(m.Keys);
      SumValuesIsSumTotals(r, events, m - {id});
      assert (m - {id}).Keys == m.Keys - {id};
      SumTotalsPick(r, events, m.Keys, id);
    }
  }

  lemma {:induction false} TotalPositive(r: Roster, events: seq<AuditEvent>, e: AuditEvent)
    requires e in events && IdOf(r, e).Some?
    ensures Total(r, events, IdOf(r, e).value) > 0
  {
    if events[|events| - 1] != e { TotalPositive(r, events[..|events| - 1], e); }
  }

  /** The two groupings lose and invent nothing: what is reported adds up to what was used. */
  lemma ReportsConserveUsage(r: Roster, events: seq<AuditEvent>, billable: map<Identifier, nat>)
    requires forall id :: id in billable <==> Total(r, events, id) > 0
    requires forall id :: id in billable ==> billable[id] == Total(r, events, id)
    ensures SumValues(billable) == BilledWeight(r, events)
  {
    forall e | e in events && IdOf(r, e).Some? ensures IdOf(r, e).value in billable.Keys {
      TotalPositive(r, events, e);
    }
    SumValuesIsSumTotals(r, events, billable);
    SumTotalsIsBilledWeight(r, events, billable.Keys);
  }

  // ---------------------------------------------- what a run can have seen

  /** The part of the archive that has been written by `now`. */
  function Visible(archive: seq<Batch>, now: int): seq<Batch> {
    if archive == [] then []
    else
      var last := archive[|archive| - 1];
      Visible(archive[..|archive| - 1], now) +
      (if last.writtenAt.Some? && last.writtenAt.value <= now then [last] else [])
  }

  lemma {:induction false} VisibleIn(archive: seq<Batch>, now: int)
    ensures forall b :: b in Visible(archive, now) ==> b in archive
  {
    if archive != [] { VisibleIn(archive[..|archive| - 1], now); }
  }

  lemma {:induction false} SelectNone(events: seq<AuditEvent>, from: int, to: int)
    requires forall e :: e in events ==> e.at >= to
    ensures Select(events, from, to) == []
  {
    if events != [] {
      assert events[|events| - 1] in events;
      SelectNone(events[..|events| - 1], from, to);
    }
  }

  lemma {:induction false} EntriesIn(lines: seq<Line>)
    ensures forall e :: e in Entries(lines) ==> Entry(e) in lines
  {
    if lines != [] { EntriesIn(lines[..|lines| - 1]); }
  }

  /** Nothing that happened before the grace period is still on its way. */
  lemma {:induction false} GraceSuffices(archive: seq<Batch>, from: int, to: int, now: int)
    requires to <= now - GRACE_MS && forall b :: b in archive ==> WellKept(b)
    ensures Select(Archived(Visible(archive, now)), from, to) == Select(Archived(archive), from, to)
  {
    if archive != [] {
      var init, last := archive[..|archive| - 1], archive[|archive| - 1];
      assert last in archive;
      GraceSuffices(init, from, to, now);
      SelectConcat(Archived(init), Entries(last.body.value), from, to);
      if last.writtenAt.value <= now {
        var seen := Visible(init, now);
        assert (seen + [last])[..|seen|] == seen;
        SelectConcat(Archived(seen), Entries(last.body.value), from, to);
      } else {
        assert Visible(archive, now) == Visible(init, now);
        EntriesIn(last.body.value);
        SelectNone(Entries(last.body.value), from, to);
      }
    }
  }

  lemma {:induction false} SelectAll(events: seq<AuditEvent>, from: int, to: int)
    requires forall e :: e in events ==> Within(e, from, to)
    ensures Select(events, from, to) == events
  {
    if events != [] {
      assert events[|events| - 1] in events;
      SelectAll(events[..|events| - 1], from, to);
    }
  }

  lemma {:induction false} SelectWithin(events: seq<AuditEvent>, from: int, to: int)
    ensures forall e :: e in Select(events, from, to) ==> Within(e, from, to)
  {
    if events != [] { SelectWithin(events[..|events| - 1], from, to); }
  }

  function HourOf(id: Identifier): int {
    id.hourSec * 1000
  }

  lemma HourWithin(r: Roster, e: AuditEvent, from: int, to: int)
    requires from % HOUR_MS == 0 && to % HOUR_MS == 0 && IdOf(r, e).Some?
    ensures Within(e, from, to) <==> from <= HourOf(IdOf(r, e).value) < to
  {
    var q := e.at / HOUR_MS;
    assert Floor(e.at, HOUR_MS) == q * 3_600_000;
    assert q * 3_600_000 / 1000 == q * 3600;
  }

  /** For whole hours, the window's total of an hour is that hour's whole total, or nothing. */
  lemma {:induction false} WholeHourTotal(r: Roster, events: seq<AuditEvent>, from: int, to: int, id: Identifier)
    requires from % HOUR_MS == 0 && to % HOUR_MS == 0
    ensures Total(r, Select(events, from, to), id) ==
      if from <= HourOf(id) < to then Total(r, events, id) else 0
  {
    if events != [] {
      var init, last := events[..|events| - 1], events[|events| - 1];
      assert events == init + [last];
      WholeHourTotal(r, init, from, to, id);
      if IdOf(r, last).Some? { HourWithin(r, last, from, to); }
      SelectStep(init, last, from, to);
      if Within(last, from, to) {
        TotalStep(r, Select(init, from, to), last, id);
      } else {
        assert Select(events, from, to) == Select(init, from, to);
      }
    }
  }

  /** A run's totals are those of the whole archive, for the hours of its window. */
  lemma RunTotals(r: Roster, archive: seq<Batch>, watermark: Option<int>, now: int, id: Identifier)
    requires (forall b :: b in archive ==> WellKept(b)) && WindowStart(watermark, now) % HOUR_MS == 0
    ensures Total(r, WindowEvents(Visible(archive, now), watermark, now), id) ==
      if WindowStart(watermark, now) <= HourOf(id) < WindowEnd(now) then Total(r, Archived(archive), id) else 0
  {
    var from, to := WindowStart(watermark, now), WindowEnd(now);
    WindowEndIsWhole(now);
    WindowIsWanted(archive, watermark, now);
    TotalPermutes(r, WindowEvents(Visible(archive, now), watermark, now), Select(Archived(archive), from, to), id);
    WholeHourTotal(r, Archived(archive), from, to, id);
  }

  /** A window ends at the last whole hour ten minutes ago; it begins at the watermark, at most a day before that. */
  lemma WindowInWords(watermark: Option<int>, now: int)
    ensures WindowEnd(now) % 3_600_000 == 0 && WindowEnd(now) <= now - 600_000 < WindowEnd(now) + 3_600_000
    ensures watermark == None ==> WindowStart(watermark, now) == WindowEnd(now) - 3_600_000
    ensures watermark.Some? ==>
      && WindowStart(watermark, now) >= watermark.value && WindowStart(watermark, now) >= WindowEnd(now) - 86_400_000
      && WindowStart(watermark, now) in {watermark.value, WindowEnd(now) - 86_400_000}
  {
  }

  lemma WindowEndIsWhole(now: int)
    ensures WindowEnd(now) % HOUR_MS == 0 && WindowEnd(now) <= now - GRACE_MS
  {
  }

  lemma WindowIsWanted(archive: seq<Batch>, watermark: Option<int>, now: int)
    requires forall b :: b in archive ==> WellKept(b)
    ensures multiset(WindowEvents(Visible(archive, now), watermark, now))
         == multiset(Select(Archived(archive), WindowStart(watermark, now), WindowEnd(now)))
  {
    WindowEndIsWhole(now);
    WindowFindsAll(archive, WindowStart(watermark, now), WindowEnd(now), now);
  }

  lemma WindowFindsAll(archive: seq<Batch>, from: int, to: int, now: int)
    requires to <= now - GRACE_MS && forall b :: b in archive ==> WellKept(b)
    ensures multiset(Select(Collected(Visible(archive, now), Floor(from, DAY_MS), from, to), from, to)) ==
      multiset(Select(Archived(archive), from, to))
  {
    var seen := Visible(archive, now);
    VisibleIn(archive, now);
    var collected, wanted := Collected(seen, Floor(from, DAY_MS), from, to), Select(Archived(archive), from, to);
    CollectionExact(seen, from, to);
    GraceSuffices(archive, from, to, now);
    SelectWithin(Archived(archive), from, to);
    forall e | e in collected ensures Within(e, from, to) {
      assert e in multiset(collected);
      assert e in wanted;
    }
    SelectAll(collected, from, to);
  }

  // -------------------------------------------------------- runs over time

  /** Every identifier of this hour that has usage is on the ledger. */
  ghost predicate FullyRecorded(s: State, r: Roster, archive: seq<Batch>, hour: int) {
    forall id :: HourOf(id) == hour && Total(r, Archived(archive), id) > 0 ==> id in s.ledger
  }

  ghost predicate LedgerExact(s: State, r: Roster, archive: seq<Batch>) {
    forall id :: id in s.ledger ==>
      s.ledger[id] > 0 && s.ledger[id] == Total(r, Archived(archive), id)
  }

  /** Hours the 24-hour clamp dropped when a run moved the watermark. */
  predicate Clamped(s: State, s': State, now: int, hour: int) {
    s.watermark.Some? && s'.watermark != s.watermark && s.watermark.value <= hour < WindowStart(s.watermark, now)
  }

  ghost predicate Settled(s: State, r: Roster, archive: seq<Batch>, first: int, clamped: iset<int>) {
    && s.watermark.Some? && first <= s.watermark.value
    && first % HOUR_MS == 0 && s.watermark.value % HOUR_MS == 0
    && LedgerExact(s, r, archive)
    && forall hour :: first <= hour < s.watermark.value && hour % HOUR_MS == 0 && hour !in clamped ==>
         FullyRecorded(s, r, archive, hour)
  }

  /** What a run finds for an identifier is its whole usage if its hour is in the window, and nothing otherwise. */
  ghost predicate WindowTotals(r: Roster, archive: seq<Batch>, events: seq<AuditEvent>, from: int, to: int) {
    forall id :: Total(r, events, id) == if from <= HourOf(id) < to then Total(r, Archived(archive), id) else 0
  }

  lemma RunKeepsSettled(
    s: State, s': State, r: Roster, archive: seq<Batch>, now: int, first: int, clamped: iset<int>)
    requires forall b :: b in archive ==> WellKept(b)
    requires Settled(s, r, archive, first, clamped)
    requires RunEffect(s, s', WindowEvents(Visible(archive, now), s.watermark, now), r, now)
    ensures Forward(s, s')
    ensures Settled(s', r, archive, first, clamped + ClampedNow(s, s', now))
  {
    var from, to := WindowStart(s.watermark, now), WindowEnd(now);
    var events := WindowEvents(Visible(archive, now), s.watermark, now);
    if from < to {
      forall id
        ensures Total(r, events, id) == (if from <= HourOf(id) < to then Total(r, Archived(archive), id) else 0)
      {
        RunTotals(r, archive, s.watermark, now, id);
      }
      LedgerStaysExact(s, s', r, archive, events, now);
      HoursStayRecorded(s, s', r, archive, events, now, first, clamped);
    }
  }

  lemma LedgerStaysExact(s: State, s': State, r: Roster, archive: seq<Batch>, events: seq<AuditEvent>, now: int)
    requires LedgerExact(s, r, archive) && RunEffect(s, s', events, r, now)
    requires WindowTotals(r, archive, events, WindowStart(s.watermark, now), WindowEnd(now))
    ensures LedgerExact(s', r, archive)
  {
  }

  lemma HoursStayRecorded(
    s: State, s': State, r: Roster, archive: seq<Batch>, events: seq<AuditEvent>, now: int, first: int,
    clamped: iset<int>)
    requires Settled(s, r, archive, first, clamped) && RunEffect(s, s', events, r, now)
    requires WindowStart(s.watermark, now) < WindowEnd(now)
    requires WindowTotals(r, archive, events, WindowStart(s.watermark, now), WindowEnd(now))
    ensures Forward(s, s') && s'.watermark.value % HOUR_MS == 0
    ensures forall hour ::
      (first <= hour < s'.watermark.value && hour % HOUR_MS == 0 && hour !in clamped + ClampedNow(s, s', now)) ==>
        FullyRecorded(s', r, archive, hour)
  {
    WindowEndIsWhole(now);
    forall hour | first <= hour < s'.watermark.value && hour % HOUR_MS == 0
                  && hour !in clamped + ClampedNow(s, s', now)
      ensures FullyRecorded(s', r, archive, hour)
    {
      assert hour !in clamped && !Clamped(s, s', now, hour);
      if hour < s.watermark.value {
        assert FullyRecorded(s, r, archive, hour);
      }
    }
  }

  /** States and run times of a sequence of cron runs over a growing archive. */
  ghost predicate Runs(states: seq<State>, times: seq<int>, r: Roster, archive: seq<Batch>) {
    && |states| == |times| + 1
    && forall i :: 0 <= i < |times| ==>
         RunEffect(states[i], states[i + 1],
                   WindowEvents(Visible(archive, times[i]), states[i].watermark, times[i]), r, times[i])
  }

  ghost predicate ClampedAt(states: seq<State>, times: seq<int>, i: int, hour: int)
    requires |states| == |times| + 1
  {
    0 <= i < |times| && Clamped(states[i], states[i + 1], times[i], hour)
  }

  ghost predicate HourClamped(states: seq<State>, times: seq<int>, hour: int)
    requires |states| == |times| + 1
  {
    exists i :: ClampedAt(states, times, i, hour)
  }

  ghost function ClampedHours(states: seq<State>, times: seq<int>): iset<int>
    requires |states| == |times| + 1
  {
    iset hour | HourClamped(states, times, hour)
  }

  /**
   Over any sequence of runs, at whatever times and with whatever reports
   refused, lost or thrown: the watermark never moves back, each ledger entry is
   the exact usage of its meter, customer and hour, and every hour passed over
   that the clamp did not drop is recorded in full.
   */
  lemma {:induction false} BilledOnceAndExactly(
    states: seq<State>, times: seq<int>, r: Roster, archive: seq<Batch>, first: int)
    requires (forall b :: b in archive ==> WellKept(b)) && Runs(states, times, r, archive)
    requires Settled(states[0], r, archive, first, iset{})
    ensures NeverBack(states)
    ensures Settled(states[|times|], r, archive, first, ClampedHours(states, times))
  {
    var n := |times| - 1;
    if n >= 0 {
      var states', times' := states[..|times|], times[..n];
      RunsPrefix(states, times, r, archive);
      BilledOnceAndExactly(states', times', r, archive, first);
      var before := ClampedHours(states', times');
      RunKeepsSettled(states[n], states[n + 1], r, archive, times[n], first, before);
      ClampedStep(states, times);
      NeverBackStep(states);
    } else {
      assert ClampedHours(states, times) == iset{};
    }
  }

  /**
   In units: each ledger entry is how many units the archive holds for its meter,
   customer and hour, counts spread out, and every hour passed over that the clamp
   did not drop has an entry wherever there is a unit.
   */
  lemma BilledUnitForUnit(states: seq<State>, times: seq<int>, r: Roster, archive: seq<Batch>, first: int)
    requires (forall b :: b in archive ==> WellKept(b)) && Runs(states, times, r, archive)
    requires Settled(states[0], r, archive, first, iset{})
    ensures var s := states[|times|];
      && s.watermark.Some?
      && (forall id :: id in s.ledger ==> s.ledger[id] == |CountedAs(r, SpreadOut(Archived(archive)), id)|)
      && (forall id :: CountedAs(r, SpreadOut(Archived(archive)), id) != {} && first <= id.hourSec * 1000
                       && id.hourSec * 1000 < s.watermark.value && !HourClamped(states, times, id.hourSec * 1000) ==>
            id in s.ledger)
  {
    BilledOnceAndExactly(states, times, r, archive, first);
    var s := states[|times|];
    forall id ensures Total(r, Archived(archive), id) == |CountedAs(r, SpreadOut(Archived(archive)), id)| {
      TotalIsUnits(r, Archived(archive), id);
    }
    forall id | CountedAs(r, SpreadOut(Archived(archive)), id) != {} && first <= id.hourSec * 1000
                && id.hourSec * 1000 < s.watermark.value && !HourClamped(states, times, id.hourSec * 1000)
      ensures id in s.ledger
    {
      var i :| i in CountedAs(r, SpreadOut(Archived(archive)), id);
      assert id.hourSec * 1000 % HOUR_MS == 0;
      assert FullyRecorded(s, r, archive, id.hourSec * 1000);
    }
  }

  lemma RunsPrefix(states: seq<State>, times: seq<int>, r: Roster, archive: seq<Batch>)
    requires Runs(states, times, r, archive) && times != []
    ensures var n := |times| - 1;
      && Runs(states[..|times|], times[..n], r, archive)
      && RunEffect(states[n], states[n + 1],
                   WindowEvents(Visible(archive, times[n]), states[n].watermark, times[n]), r, times[n])
  {
    var n, states', times' := |times| - 1, states[..|times|], times[..|times| - 1];
    forall i | 0 <= i < n
      ensures RunEffect(states'[i], states'[i + 1],
                        WindowEvents(Visible(archive, times'[i]), states'[i].watermark, times'[i]), r, times'[i])
    {
      assert states'[i] == states[i] && states'[i + 1] == states[i + 1] && times'[i] == times[i];
    }
  }

  predicate Forward(s: State, s': State) {
    s.watermark.Some? && s'.watermark.Some? && s.watermark.value <= s'.watermark.value
  }

  ghost predicate NeverBack(states: seq<State>) {
    forall i, j :: 0 <= i && j == i + 1 && j < |states| ==> Forward(states[i], states[j])
  }

  lemma NeverBackStep(states: seq<State>)
    requires |states| >= 2 && NeverBack(states[..|states| - 1])
    requires Forward(states[|states| - 2], states[|states| - 1])
    ensures NeverBack(states)
  {
    forall i, j | 0 <= i && j == i + 1 && j < |states| ensures Forward(states[i], states[j]) {
      if j < |states| - 1 {
        var states' := states[..|states| - 1];
        assert states'[i] == states[i] && states'[j] == states[j];
      }
    }
  }

  ghost function ClampedNow(s: State, s': State, now: int): iset<int> {
    iset hour | s.watermark.Some? && s.watermark.value <= hour && Clamped(s, s', now, hour)
  }

  lemma ClampedStep(states: seq<State>, times: seq<int>)
    requires |states| == |times| + 1 && times != []
    ensures var n := |times| - 1;
      ClampedHours(states, times) ==
      ClampedHours(states[..|times|], times[..n]) + ClampedNow(states[n], states[n + 1], times[n])
  {
    var n, states', times' := |times| - 1, states[..|times|], times[..|times| - 1];
    forall hour
      ensures hour in ClampedHours(states, times) <==>
        hour in ClampedHours(states', times') || hour in ClampedNow(states[n], states[n + 1], times[n])
    {
      if HourClamped(states, times, hour) {
        var i :| ClampedAt(states, times, i, hour);
        if i < n { assert ClampedAt(states', times', i, hour); }
      }
      if HourClamped(states', times', hour) {
        var i :| ClampedAt(states', times', i, hour);
        assert ClampedAt(states, times, i, hour);
      }
      if Clamped(states[n], states[n + 1], times[n], hour) { assert ClampedAt(states, times, n, hour); }
    }
  }
}
