/** Units of usage: the two groupings of events, and what their totals count. */
module Usage {
  import opened Wrappers
  import opened Metering

  /** First grouping: hour, meter, workspace. */
  datatype BucketKey = BucketKey(hourStart: int, meter: string, workspaceId: string)

  /** Second grouping, and the identifier reported: meter, customer, hour in seconds. */
  datatype Identifier = Identifier(meter: string, customer: string, hourSec: int)

  /** Workspace to organization, and organization to customer. */
  datatype Roster = Roster(workspaceOrg: map<string, string>, orgCustomer: map<string, string>)

  /** Absent and empty ids both mean unmapped. */
  function CustomerOf(r: Roster, workspaceId: string): Option<string> {
    if workspaceId !in r.workspaceOrg then None
    else
      var org := r.workspaceOrg[workspaceId];
      if org == "" || org !in r.orgCustomer || r.orgCustomer[org] == "" then None
      else Some(r.orgCustomer[org])
  }

  function BucketOf(e: AuditEvent): Option<BucketKey> {
    match MeterOf(e)
    case None => None
    case Some(meter) => Some(BucketKey(Floor(e.at, HOUR_MS), meter, e.workspaceId))
  }

  function IdOfBucket(r: Roster, b: BucketKey): Option<Identifier> {
    match CustomerOf(r, b.workspaceId)
    case None => None
    case Some(customer) => Some(Identifier(b.meter, customer, b.hourStart / 1000))
  }

  /** What an event is billed under, if anything. */
  function IdOf(r: Roster, e: AuditEvent): Option<Identifier> {
    match BucketOf(e)
    case None => None
    case Some(b) => IdOfBucket(r, b)
  }

  // ------------------------------------------------------- the two totals

  /** Units recorded for one bucket. */
  function BucketCount(events: seq<AuditEvent>, b: BucketKey): nat {
    if events == [] then 0
    else
      var last := events[|events| - 1];
      BucketCount(events[..|events| - 1], b) + (if BucketOf(last) == Some(b) then Weight(last) else 0)
  }

  /** Units billed under one identifier. */
  function Total(r: Roster, events: seq<AuditEvent>, id: Identifier): nat {
    if events == [] then 0
    else
      var last := events[|events| - 1];
      Total(r, events[..|events| - 1], id) + (if IdOf(r, last) == Some(id) then Weight(last) else 0)
  }

  lemma {:induction false} TotalAppend(r: Roster, a: seq<AuditEvent>, b: seq<AuditEvent>, id: Identifier)
    ensures Total(r, a + b, id) == Total(r, a, id) + Total(r, b, id)
  {
    if b == [] {
      assert a + b == a;
    } else {
      var init := b[..|b| - 1];
      assert (a + b)[..|a + b| - 1] == a + init;
      TotalAppend(r, a, init, id);
    }
  }

  lemma SelectStep(init: seq<AuditEvent>, e: AuditEvent, from: int, to: int)
    ensures Select(init + [e], from, to) == Select(init, from, to) + (if Within(e, from, to) then [e] else [])
  {
    assert (init + [e])[..|init|] == init;
  }

  lemma TotalStep(r: Roster, init: seq<AuditEvent>, e: AuditEvent, id: Identifier)
    ensures Total(r, init + [e], id) == Total(r, init, id) + (if IdOf(r, e) == Some(id) then Weight(e) else 0)
  {
    assert (init + [e])[..|init|] == init;
  }

  lemma CountStep(init: seq<AuditEvent>, e: AuditEvent, b: BucketKey)
    ensures BucketCount(init + [e], b) == BucketCount(init, b) + (if BucketOf(e) == Some(b) then Weight(e) else 0)
  {
    assert (init + [e])[..|init|] == init;
  }

  lemma {:induction false} CountAppend(a: seq<AuditEvent>, c: seq<AuditEvent>, b: BucketKey)
    ensures BucketCount(a + c, b) == BucketCount(a, b) + BucketCount(c, b)
  {
    if c == [] {
      assert a + c == a;
    } else {
      var init := c[..|c| - 1];
      assert (a + c)[..|a + c| - 1] == a + init;
      CountAppend(a, init, b);
    }
  }

  // ------------------------------------------------------ one event per unit

  function Copies(e: AuditEvent, n: nat): (r: seq<AuditEvent>)
    ensures |r| == n && forall i :: 0 <= i < n ==> r[i] == e
  {
    if n == 0 then [] else Copies(e, n - 1) + [e]
  }

  /** An event with a positive count stands for so many events without one; any other event for one. */
  function UnitsOf(e: AuditEvent): seq<AuditEvent> {
    match e.count
    case None => [e]
    case Some(c) => Copies(e.(count := None), if c > 0 then c else 1)
  }

  function SpreadOut(events: seq<AuditEvent>): seq<AuditEvent> {
    if events == [] then []
    else SpreadOut(events[..|events| - 1]) + UnitsOf(events[|events| - 1])
  }

  ghost predicate Uncounted(events: seq<AuditEvent>) {
    forall e :: e in events ==> e.count == None
  }

  lemma {:induction false} SpreadIsUncounted(events: seq<AuditEvent>)
    ensures Uncounted(SpreadOut(events))
  {
    if events != [] { SpreadIsUncounted(events[..|events| - 1]); }
  }

  lemma {:induction false} CopiesCount(e: AuditEvent, n: nat, b: BucketKey)
    requires e.count == None
    ensures BucketCount(Copies(e, n), b) == if BucketOf(e) == Some(b) then n else 0
  {
    if n > 0 {
      CopiesCount(e, n - 1, b);
      CountStep(Copies(e, n - 1), e, b);
    }
  }

  lemma {:induction false} CopiesTotal(r: Roster, e: AuditEvent, n: nat, id: Identifier)
    requires e.count == None
    ensures Total(r, Copies(e, n), id) == if IdOf(r, e) == Some(id) then n else 0
  {
    if n > 0 {
      CopiesTotal(r, e, n - 1, id);
      TotalStep(r, Copies(e, n - 1), e, id);
    }
  }

  lemma {:induction false} CopiesSelected(e: AuditEvent, n: nat, from: int, to: int)
    ensures Select(Copies(e, n), from, to) == if Within(e, from, to) then Copies(e, n) else []
  {
    if n > 0 {
      CopiesSelected(e, n - 1, from, to);
      SelectStep(Copies(e, n - 1), e, from, to);
    }
  }

  lemma SameWithoutCount(r: Roster, e: AuditEvent)
    ensures var u := e.(count := None);
      BucketOf(u) == BucketOf(e) && IdOf(r, u) == IdOf(r, e)
  {
  }

  lemma UnitsCount(e: AuditEvent, b: BucketKey)
    ensures BucketCount(UnitsOf(e), b) == if BucketOf(e) == Some(b) then Weight(e) else 0
  {
    match e.count
    case None =>
      assert [] + [e] == [e];
      CountStep([], e, b);
    case Some(c) =>
      CopiesCount(e.(count := None), if c > 0 then c else 1, b);
  }

  lemma UnitsTotal(r: Roster, e: AuditEvent, id: Identifier)
    ensures Total(r, UnitsOf(e), id) == if IdOf(r, e) == Some(id) then Weight(e) else 0
  {
    SameWithoutCount(r, e);
    match e.count
    case None => OneTotal(r, e, id);
    case Some(c) =>
      CopiesTotal(r, e.(count := None), if c > 0 then c else 1, id);
  }

  lemma OneTotal(r: Roster, e: AuditEvent, id: Identifier)
    ensures Total(r, [e], id) == if IdOf(r, e) == Some(id) then Weight(e) else 0
  {
    assert [] + [e] == [e];
    TotalStep(r, [], e, id);
  }

  lemma UnitsSelected(e: AuditEvent, from: int, to: int)
    ensures Select(UnitsOf(e), from, to) == if Within(e, from, to) then UnitsOf(e) else []
  {
    match e.count
    case None =>
      assert [] + [e] == [e];
      SelectStep([], e, from, to);
    case Some(c) =>
      CopiesSelected(e.(count := None), if c > 0 then c else 1, from, to);
  }

  /** Spreading counts out over so many events changes no bucket. */
  lemma {:induction false} SpreadKeepsCounts(events: seq<AuditEvent>, from: int, to: int, b: BucketKey)
    ensures BucketCount(Select(SpreadOut(events), from, to), b) == BucketCount(Select(events, from, to), b)
  {
    if events != [] {
      var init, last := events[..|events| - 1], events[|events| - 1];
      assert events == init + [last];
      SpreadKeepsCounts(init, from, to, b);
      SpreadCountStep(SpreadOut(init), last, from, to, b);
      CountSelectedStep(init, last, from, to, b);
    }
  }

  lemma SpreadCountStep(units: seq<AuditEvent>, e: AuditEvent, from: int, to: int, b: BucketKey)
    ensures BucketCount(Select(units + UnitsOf(e), from, to), b) == BucketCount(Select(units, from, to), b) +
      (if Within(e, from, to) && BucketOf(e) == Some(b) then Weight(e) else 0)
  {
    SelectConcat(units, UnitsOf(e), from, to);
    UnitsSelected(e, from, to);
    CountAppend(Select(units, from, to), Select(UnitsOf(e), from, to), b);
    UnitsCount(e, b);
  }

  lemma CountSelectedStep(init: seq<AuditEvent>, e: AuditEvent, from: int, to: int, b: BucketKey)
    ensures BucketCount(Select(init + [e], from, to), b) == BucketCount(Select(init, from, to), b) +
      (if Within(e, from, to) && BucketOf(e) == Some(b) then Weight(e) else 0)
  {
    SelectStep(init, e, from, to);
    if Within(e, from, to) {
      CountStep(Select(init, from, to), e, b);
    } else {
      assert Select(init, from, to) + [] == Select(init, from, to);
    }
  }

  /** Nor any total. */
  lemma {:induction false} SpreadKeepsTotals(r: Roster, events: seq<AuditEvent>, id: Identifier)
    ensures Total(r, SpreadOut(events), id) == Total(r, events, id)
  {
    if events != [] {
      var init, last := events[..|events| - 1], events[|events| - 1];
      assert events == init + [last];
      SpreadKeepsTotals(r, init, id);
      SpreadTotalStep(r, SpreadOut(init), last, id);
      TotalStep(r, init, last, id);
    }
  }

  lemma SpreadTotalStep(r: Roster, units: seq<AuditEvent>, e: AuditEvent, id: Identifier)
    ensures Total(r, units + UnitsOf(e), id) == Total(r, units, id) + (if IdOf(r, e) == Some(id) then Weight(e) else 0)
  {
    TotalAppend(r, units, UnitsOf(e), id);
    UnitsTotal(r, e, id);
  }

  // -------------------------------------------------------- counting by index

  const METERS: map<string, string> := map[
    "secret" := "secret_operations", "config" := "config_writes", "flag" := "config_writes",
    "edge_read" := "edge_reads", "mau" := "mau"]

  /** A whole hour, and a moment in it. */
  predicate InHour(at: int, start: int) {
    start % 3_600_000 == 0 && start <= at < start + 3_600_000
  }

  /** The unit belongs to the bucket: its hour, its workspace, and the meter of its kind. */
  predicate CountsFor(e: AuditEvent, b: BucketKey) {
    && InHour(e.at, b.hourStart) && e.workspaceId == b.workspaceId
    && e.resourceType in METERS && METERS[e.resourceType] == b.meter
  }

  /** The unit is billed so: its hour, the meter of its kind, and the customer its workspace's organization has. */
  predicate BilledAs(r: Roster, e: AuditEvent, id: Identifier) {
    && InHour(e.at, id.hourSec * 1000)
    && e.resourceType in METERS && METERS[e.resourceType] == id.meter
    && e.workspaceId in r.workspaceOrg && r.workspaceOrg[e.workspaceId] in r.orgCustomer
    && r.orgCustomer[r.workspaceOrg[e.workspaceId]] == id.customer
    && r.workspaceOrg[e.workspaceId] != "" && id.customer != ""
  }

  /** Which of the events are in the window and belong to a bucket. */
  function CountedFor(events: seq<AuditEvent>, from: int, to: int, b: BucketKey): set<nat> {
    set i: nat | i < |events| && from <= events[i].at < to && CountsFor(events[i], b)
  }

  /** Which of the events are billed under an identifier. */
  function CountedAs(r: Roster, events: seq<AuditEvent>, id: Identifier): set<nat> {
    set i: nat | i < |events| && BilledAs(r, events[i], id)
  }

  lemma HourIsUnique(at: int, start: int)
    ensures InHour(at, start) <==> Floor(at, HOUR_MS) == start
  {
  }

  lemma MeterListed(e: AuditEvent)
    ensures MeterOf(e) == if e.resourceType in METERS then Some(METERS[e.resourceType]) else None
  {
  }

  lemma BucketInWords(e: AuditEvent, b: BucketKey)
    ensures BucketOf(e) == Some(b) <==> CountsFor(e, b)
  {
    MeterListed(e);
    HourIsUnique(e.at, b.hourStart);
  }

  lemma HourInSeconds(at: int, sec: int)
    ensures InHour(at, sec * 1000) <==> Floor(at, HOUR_MS) / 1000 == sec
  {
    var hour := at / HOUR_MS;
    assert Floor(at, HOUR_MS) == hour * 3600 * 1000 && Floor(at, HOUR_MS) / 1000 == hour * 3600;
    HourIsUnique(at, sec * 1000);
  }

  /** The customer of a workspace is that of its organization; an empty name is none. */
  lemma CustomerInWords(r: Roster, workspaceId: string, customer: string)
    ensures CustomerOf(r, workspaceId) == Some(customer) <==>
      && workspaceId in r.workspaceOrg && r.workspaceOrg[workspaceId] in r.orgCustomer
      && r.orgCustomer[r.workspaceOrg[workspaceId]] == customer
      && r.workspaceOrg[workspaceId] != "" && customer != ""
  {
  }

  lemma IdInWords(r: Roster, e: AuditEvent, id: Identifier)
    ensures IdOf(r, e) == Some(id) <==> BilledAs(r, e, id)
  {
    MeterListed(e);
    CustomerInWords(r, e.workspaceId, id.customer);
    HourInSeconds(e.at, id.hourSec);
    IdParts(r, e, id);
  }

  lemma IdParts(r: Roster, e: AuditEvent, id: Identifier)
    ensures IdOf(r, e) == Some(id) <==>
      && MeterOf(e) == Some(id.meter) && CustomerOf(r, e.workspaceId) == Some(id.customer)
      && Floor(e.at, HOUR_MS) / 1000 == id.hourSec
  {
    var b := BucketOf(e);
    if b.Some? {
      assert IdOf(r, e) == IdOfBucket(r, b.value);
      assert b.value.hourStart == Floor(e.at, HOUR_MS);
    }
  }

  lemma CountedForStep(init: seq<AuditEvent>, e: AuditEvent, from: int, to: int, b: BucketKey)
    ensures |CountedFor(init + [e], from, to, b)| ==
      |CountedFor(init, from, to, b)| + (if from <= e.at < to && CountsFor(e, b) then 1 else 0)
  {
    var all, before := CountedFor(init + [e], from, to, b), CountedFor(init, from, to, b);
    assert all == if from <= e.at < to && CountsFor(e, b) then before + {|init|} else before;
  }

  lemma CountedAsStep(r: Roster, init: seq<AuditEvent>, e: AuditEvent, id: Identifier)
    ensures |CountedAs(r, init + [e], id)| == |CountedAs(r, init, id)| + (if BilledAs(r, e, id) then 1 else 0)
  {
    var all, before := CountedAs(r, init + [e], id), CountedAs(r, init, id);
    assert all == if BilledAs(r, e, id) then before + {|init|} else before;
  }

  lemma {:induction false} CountIsIndices(units: seq<AuditEvent>, from: int, to: int, b: BucketKey)
    requires Uncounted(units)
    ensures BucketCount(Select(units, from, to), b) == |CountedFor(units, from, to, b)|
  {
    if units != [] {
      var init, last := units[..|units| - 1], units[|units| - 1];
      assert units == init + [last] && last in units;
      CountIsIndices(init, from, to, b);
      CountedForStep(init, last, from, to, b);
      CountSelectedStep(init, last, from, to, b);
      BucketInWords(last, b);
    }
  }

  lemma {:induction false} TotalIsIndices(r: Roster, units: seq<AuditEvent>, id: Identifier)
    requires Uncounted(units)
    ensures Total(r, units, id) == |CountedAs(r, units, id)|
  {
    if units != [] {
      var init, last := units[..|units| - 1], units[|units| - 1];
      assert units == init + [last] && last in units;
      TotalIsIndices(r, init, id);
      CountedAsStep(r, init, last, id);
      IdInWords(r, last, id);
      TotalStep(r, init, last, id);
    }
  }

  /** A bucket holds the number of its units in the window. */
  lemma CountIsUnits(events: seq<AuditEvent>, from: int, to: int, b: BucketKey)
    ensures BucketCount(Select(events, from, to), b) == |CountedFor(SpreadOut(events), from, to, b)|
  {
    SpreadKeepsCounts(events, from, to, b);
    SpreadIsUncounted(events);
    CountIsIndices(SpreadOut(events), from, to, b);
  }

  /** A total is the number of units billed under the identifier. */
  lemma TotalIsUnits(r: Roster, events: seq<AuditEvent>, id: Identifier)
    ensures Total(r, events, id) == |CountedAs(r, SpreadOut(events), id)|
  {
    SpreadKeepsTotals(r, events, id);
    SpreadIsUncounted(events);
    TotalIsIndices(r, SpreadOut(events), id);
  }
}
