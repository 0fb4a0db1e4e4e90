/** Monthly-active-user metering over UTC calendar months. */
module Mau {
  import opened Wrappers
  import opened Calendar
  import Billing

  // --------------------------------------------------------- calendar months

  function MonthStartUTC(ms: int): int {
    MonthStart(MonthIndex(ms))
  }

  function AddMonthsUTC(monthStart: int, delta: int): int {
    MonthStart(MonthIndex(monthStart) + delta)
  }

  lemma NextMonth(i: int)
    ensures AddMonthsUTC(MonthStart(i), 1) == MonthStart(i + 1)
  {
    IndexOfStart(i);
  }

  lemma PreviousMonth(ms: int)
    ensures AddMonthsUTC(MonthStartUTC(ms), -1) == MonthStart(MonthIndex(ms) - 1)
  {
    IndexOfStart(MonthIndex(ms));
  }

  /** The starts of `n` months in a row. */
  function MonthsFrom(first: int, n: nat): (starts: seq<int>)
    ensures |starts| == n
  {
    if n == 0 then [] else MonthsFrom(first, n - 1) + [MonthStart(first + n - 1)]
  }

  lemma MonthPassed(first: int, n: nat, current: int)
    requires n > 0 && first + n <= current
    ensures AddMonthsUTC(MonthStart(first + n - 1), 1) == MonthStart(first + n)
    ensures MonthStart(first + n) < MonthStart(current) <==> first + n < current
    ensures MonthsFrom(first, n) == MonthsFrom(first, n - 1) + [MonthStart(first + n - 1)]
  {
    NextMonth(first + n - 1);
    MonthOrder(first + n, current);
  }

  // ---------------------------------------------------------- the reporting

  datatype OrgUsage = OrgUsage(organizationId: string, users: int)

  datatype MauId = MauId(customer: string, monthSec: int)

  type Ledger = map<MauId, int>

  /** The events of one month: one per organization with a customer and users. */
  function MonthEvents(rows: seq<OrgUsage>, customers: map<string, string>, month: int): seq<(MauId, int)> {
    if rows == [] then []
    else
      var u := rows[|rows| - 1];
      MonthEvents(rows[..|rows| - 1], customers, month) +
      (if u.organizationId in customers && customers[u.organizationId] != "" && u.users > 0 then
         [(MauId(customers[u.organizationId], month / 1000), u.users)]
       else [])
  }

  /** An organization's users are reported exactly when it has some and a customer, under that customer and month. */
  lemma {:induction false} MonthEventsInWords(
    rows: seq<OrgUsage>, customers: map<string, string>, month: int, id: MauId, users: int)
    ensures (id, users) in MonthEvents(rows, customers, month) <==>
      users >= 1 && id.customer != "" && id.monthSec == month / 1000
      && exists u :: u in rows && u.users == users && u.organizationId in customers
                     && customers[u.organizationId] == id.customer
  {
    if rows != [] {
      var init, last := rows[..|rows| - 1], rows[|rows| - 1];
      assert rows == init + [last];
      MonthEventsInWords(init, customers, month, id, users);
    }
  }

  datatype State = State(watermark: Option<int>, ledger: Ledger)

  /** Everything to be reported for a month is on the ledger. */
  ghost predicate Reported(ledger: Ledger, events: seq<(MauId, int)>) {
    forall e :: e in events ==> e.0 in ledger
  }

  /** Old entries stay; new ones come from the given events. */
  ghost predicate Extends(ledger: Ledger, ledger': Ledger, events: seq<(MauId, int)>) {
    && (forall id :: id in ledger ==> id in ledger' && ledger'[id] == ledger[id])
    && (forall id :: id in ledger' && id !in ledger ==> (id, ledger'[id]) in events)
  }

  class MauBiller {
    var watermark: Option<int>
    var ledger: Ledger

    method Report(events: seq<(MauId, int)>, replies: nat -> Billing.Reply) returns (accepted: Option<nat>)
      modifies this`ledger
      ensures Extends(old(ledger), ledger, events)
      ensures accepted.Some? ==> accepted.value <= |events|
      ensures accepted == Some(|events|) <==> Billing.AllAccepted(replies, |events|)
      ensures accepted == Some(|events|) ==> Reported(ledger, events)
    {
      var n := 0;
      for i := 0 to |events|
        invariant n <= i
        invariant Extends(old(ledger), ledger, events)
        invariant n == i <==> Billing.AllAccepted(replies, i)
        invariant n == i ==> forall k :: 0 <= k < i ==> events[k].0 in ledger
      {
        var (id, value) := events[i];
        if (replies(i).Accepted? || replies(i).ReplyLost?) && id !in ledger { ledger := ledger[id := value]; }
        if replies(i).Threw? { return None; }
        if replies(i).Accepted? { n := n + 1; }
      }
      accepted := Some(n);
    }

    /** `usage` gives each month's distinct users, `replies` the answers per month and report. */
    method RunMauMetering(
      usage: int -> seq<OrgUsage>, customers: map<string, string>, replies: int -> nat -> Billing.Reply, now: int)
      returns (monthsReported: seq<int>)
      modifies this
      ensures RunEffect(old(State(watermark, ledger)), State(watermark, ledger), usage, customers, replies, now,
                        |monthsReported|)
      ensures monthsReported == MonthsFrom(FirstMonth(old(watermark), now), |monthsReported|)
    {
      monthsReported := [];
      var currentMonthStart := MonthStartUTC(now);
      ghost var first, current := FirstMonth(watermark, now), MonthIndex(now);
      var startMonth := if watermark.Some? then MonthStartUTC(watermark.value) else AddMonthsUTC(currentMonthStart, -1);
      PreviousMonth(now);
      MonthOrder(first, current);
      if startMonth >= currentMonthStart { return; }
      monthsReported := ReportMonths(usage, customers, replies, startMonth, currentMonthStart, first, current);
    }

    /** Months from the start up to the open one, stopping at the first that is not accepted in full. */
    method ReportMonths(
      usage: int -> seq<OrgUsage>, customers: map<string, string>, replies: int -> nat -> Billing.Reply,
      startMonth: int, currentMonthStart: int, ghost first: int, ghost current: int)
      returns (monthsReported: seq<int>)
      requires first < current && startMonth == MonthStart(first) && currentMonthStart == MonthStart(current)
      modifies this
      ensures var n := |monthsReported|;
        && monthsReported == MonthsFrom(first, n) && first + n <= current
        && Progress(old(State(watermark, ledger)), State(watermark, ledger), usage, customers, replies, first, n)
        && (first + n < current ==> !MonthAccepted(usage, customers, replies, first + n))
    {
      monthsReported := [];
      ghost var before := State(watermark, ledger);
      ghost var n: nat := 0;
      var mStart := startMonth;
      MonthOrder(first, current);
      while mStart < currentMonthStart
        invariant first + n <= current && mStart == MonthStart(first + n)
        invariant mStart < currentMonthStart <==> first + n < current
        invariant Progress(before, State(watermark, ledger), usage, customers, replies, first, n)
        invariant monthsReported == MonthsFrom(first, n)
        decreases current - first - n
      {
        var accepted := ReportMonth(usage, customers, replies, mStart, before, first, n);
        if !accepted { return; }
        monthsReported := monthsReported + [mStart];
        mStart := AddMonthsUTC(mStart, 1);
        n := n + 1;
        MonthPassed(first, n, current);
      }
    }

    /** One month: report it, and move the watermark past it if everything was accepted. */
    method ReportMonth(
      usage: int -> seq<OrgUsage>, customers: map<string, string>, replies: int -> nat -> Billing.Reply, mStart: int,
      ghost before: State, ghost first: int, ghost n: nat)
      returns (all: bool)
      requires mStart == MonthStart(first + n)
      requires Progress(before, State(watermark, ledger), usage, customers, replies, first, n)
      modifies this
      ensures all <==> MonthAccepted(usage, customers, replies, first + n)
      ensures Progress(before, State(watermark, ledger), usage, customers, replies, first, if all then n + 1 else n)
    {
      ghost var so := State(watermark, ledger);
      NextMonth(first + n);
      var mEnd := AddMonthsUTC(mStart, 1);
      var events := CollectMonth(usage(mStart), customers, mStart);
      var accepted := Report(events, replies(mStart));
      MonthDone(before, so, ledger, usage, customers, replies, first, n);
      all := accepted == Some(|events|);
      if all { watermark := Some(mEnd); }
    }
  }

  method CollectMonth(rows: seq<OrgUsage>, customers: map<string, string>, mStart: int)
    returns (events: seq<(MauId, int)>)
    ensures events == MonthEvents(rows, customers, mStart)
  {
    events := [];
    for i := 0 to |rows|
      invariant events == MonthEvents(rows[..i], customers, mStart)
    {
      var u := rows[i];
      assert rows[..i + 1][..i] == rows[..i];
      if u.organizationId !in customers || customers[u.organizationId] == "" || u.users <= 0 { continue; }
      events := events + [(MauId(customers[u.organizationId], mStart / 1000), u.users)];
    }
    assert rows[..|rows|] == rows;
  }

  /** Reporting one more month keeps the progress made, and extends it when all of it was accepted. */
  lemma MonthDone(
    s: State, so: State, ledger: Ledger, usage: int -> seq<OrgUsage>, customers: map<string, string>,
    replies: int -> nat -> Billing.Reply, first: int, n: nat)
    requires Progress(s, so, usage, customers, replies, first, n)
    requires Extends(so.ledger, ledger, EventsOf(usage, customers, first + n))
    ensures Progress(s, State(so.watermark, ledger), usage, customers, replies, first, n)
    ensures
      Reported(ledger, EventsOf(usage, customers, first + n)) && MonthAccepted(usage, customers, replies, first + n) ==>
        Progress(s, State(Some(MonthStart(first + n + 1)), ledger), usage, customers, replies, first, n + 1)
  {
    forall month | first <= month < first + n
      ensures Reported(ledger, EventsOf(usage, customers, month))
    {
      assert Reported(so.ledger, EventsOf(usage, customers, month));
    }
  }

  function FirstMonth(watermark: Option<int>, now: int): int {
    if watermark.Some? then MonthIndex(watermark.value) else MonthIndex(now) - 1
  }

  /** Without a watermark a run starts with the month before the present one, else with the month it stands at. */
  lemma FirstMonthInWords(watermark: Option<int>, now: int)
    ensures var first := FirstMonth(watermark, now);
      if watermark.Some? then MonthStart(first) <= watermark.value < MonthStart(first + 1)
      else MonthStart(first + 1) <= now < MonthStart(first + 2)
  {
  }

  function EventsOf(usage: int -> seq<OrgUsage>, customers: map<string, string>, month: int): seq<(MauId, int)> {
    MonthEvents(usage(MonthStart(month)), customers, MonthStart(month))
  }

  ghost predicate LedgerGrows(s: State, s': State, usage: int -> seq<OrgUsage>, customers: map<string, string>) {
    && (forall id :: id in s.ledger ==> id in s'.ledger && s'.ledger[id] == s.ledger[id])
    && (forall id :: id in s'.ledger && id !in s.ledger ==>
          exists month :: (id, s'.ledger[id]) in EventsOf(usage, customers, month))
  }

  /** `n` months from `first` have been reported in full, and the watermark stands after them. */
  ghost predicate Progress(
    s: State, s': State, usage: int -> seq<OrgUsage>, customers: map<string, string>,
    replies: int -> nat -> Billing.Reply, first: int, n: nat)
  {
    && LedgerGrows(s, s', usage, customers)
    && s'.watermark == (if n == 0 then s.watermark else Some(MonthStart(first + n)))
    && forall month :: first <= month < first + n ==>
         Reported(s'.ledger, EventsOf(usage, customers, month)) && MonthAccepted(usage, customers, replies, month)
  }

  ghost predicate MonthAccepted(
    usage: int -> seq<OrgUsage>, customers: map<string, string>, replies: int -> nat -> Billing.Reply, month: int)
  {
    Billing.AllAccepted(replies(MonthStart(month)), |EventsOf(usage, customers, month)|)
  }

  /** A run reports elapsed months in order and stops before the first one not accepted in full. */
  ghost predicate RunEffect(
    s: State, s': State, usage: int -> seq<OrgUsage>, customers: map<string, string>,
    replies: int -> nat -> Billing.Reply, now: int, n: nat)
  {
    var first, current := FirstMonth(s.watermark, now), MonthIndex(now);
    if first >= current then s' == s && n == 0
    else
      && first + n <= current
      && Progress(s, s', usage, customers, replies, first, n)
      && (first + n < current ==> !MonthAccepted(usage, customers, replies, first + n))
  }

  // -------------------------------------------------------- runs over time

  /** The ledger holds only amounts that were to be reported, and all those of the months passed. */
  ghost predicate Settled(
    s: State, usage: int -> seq<OrgUsage>, customers: map<string, string>, first: int, next: int)
  {
    && first <= next && s.watermark == Some(MonthStart(next))
    && (forall id :: id in s.ledger ==> exists month :: (id, s.ledger[id]) in EventsOf(usage, customers, month))
    && forall month :: first <= month < next ==> Reported(s.ledger, EventsOf(usage, customers, month))
  }

  /** No month is ever skipped: a run either leaves the watermark or moves it over months reported in full. */
  lemma RunKeepsSettled(
    s: State, s': State, usage: int -> seq<OrgUsage>, customers: map<string, string>,
    replies: int -> nat -> Billing.Reply, now: int, n: nat, first: int, next: int)
    requires Settled(s, usage, customers, first, next)
    requires RunEffect(s, s', usage, customers, replies, now, n)
    ensures Settled(s', usage, customers, first, next + n)
  {
    IndexOfStart(next);
    if n > 0 || s' != s {
      forall month | first <= month < next + n
        ensures Reported(s'.ledger, EventsOf(usage, customers, month))
      {
        if month < next { assert Reported(s.ledger, EventsOf(usage, customers, month)); }
      }
    }
  }

  /** One cron run: when, with which answers, how many months it reported, and the state it left. */
  datatype CronRun = CronRun(now: int, replies: int -> nat -> Billing.Reply, months: nat, after: State)

  ghost predicate Runs(s: State, runs: seq<CronRun>, usage: int -> seq<OrgUsage>, customers: map<string, string>)
    decreases |runs|
  {
    runs != [] ==>
      && RunEffect(s, runs[0].after, usage, customers, runs[0].replies, runs[0].now, runs[0].months)
      && Runs(runs[0].after, runs[1..], usage, customers)
  }

  ghost function Final(s: State, runs: seq<CronRun>): State {
    if runs == [] then s else runs[|runs| - 1].after
  }

  function MonthsReported(runs: seq<CronRun>): nat {
    if runs == [] then 0 else runs[0].months + MonthsReported(runs[1..])
  }

  /** From the first watermark to the present one, every calendar month has been reported in full. */
  lemma {:induction false} NoMonthSkipped(
    s: State, runs: seq<CronRun>, usage: int -> seq<OrgUsage>, customers: map<string, string>, first: int, next: int)
    requires Runs(s, runs, usage, customers) && Settled(s, usage, customers, first, next)
    ensures Settled(Final(s, runs), usage, customers, first, next + MonthsReported(runs))
    decreases |runs|
  {
    if runs != [] {
      var run := runs[0];
      RunKeepsSettled(s, run.after, usage, customers, run.replies, run.now, run.months, first, next);
      NoMonthSkipped(run.after, runs[1..], usage, customers, first, next + run.months);
    }
  }

  // ------------------------------------------------- shared customers

  /** Users of all organizations that bill to a customer in a month. */
  function CustomerUsers(events: seq<(MauId, int)>, id: MauId): int {
    if events == [] then 0
    else
      var last := events[|events| - 1];
      CustomerUsers(events[..|events| - 1], id) + (if last.0 == id then last.1 else 0)
  }

  function Mentions(events: seq<(MauId, int)>, id: MauId): nat {
    if events == [] then 0
    else
      Mentions(events[..|events| - 1], id) + (if events[|events| - 1].0 == id then 1 else 0)
  }

  ghost predicate PositiveEvents(events: seq<(MauId, int)>) {
    forall e :: e in events ==> e.1 > 0
  }

  lemma {:induction false} MonthEventsPositive(rows: seq<OrgUsage>, customers: map<string, string>, month: int)
    ensures PositiveEvents(MonthEvents(rows, customers, month))
    ensures forall e :: e in MonthEvents(rows, customers, month) ==> e.0.monthSec == month / 1000
  {
    if rows != [] { MonthEventsPositive(rows[..|rows| - 1], customers, month); }
  }

  lemma {:induction false} SumBounds(events: seq<(MauId, int)>, id: MauId)
    requires PositiveEvents(events)
    ensures CustomerUsers(events, id) >= 0
    ensures Mentions(events, id) == 0 ==> CustomerUsers(events, id) == 0 && forall e :: e in events ==> e.0 != id
    ensures Mentions(events, id) > 0 ==> CustomerUsers(events, id) > 0
  {
    if events != [] {
      var init, last := events[..|events| - 1], events[|events| - 1];
      assert events == init + [last] && last in events;
      SumBounds(init, id);
    }
  }

  /**
   A recorded amount is the customer's whole month exactly when one organization
   alone bills to that customer; a second one's users are dropped as a repeat.
   */
  lemma {:induction false} ExactUnlessShared(events: seq<(MauId, int)>, id: MauId, recorded: int)
    requires PositiveEvents(events) && (id, recorded) in events
    ensures recorded == CustomerUsers(events, id) <==> Mentions(events, id) == 1
    ensures recorded <= CustomerUsers(events, id)
  {
    var init, last := events[..|events| - 1], events[|events| - 1];
    assert events == init + [last] && last in events;
    SumBounds(init, id);
    if (id, recorded) in init { ExactUnlessShared(init, id, recorded); }
  }

  /** Identifiers never collide between months, so a ledger entry is one of its own month's events. */
  lemma SecondsTell(m: int, month: int)
    requires MonthStart(m) / 1000 == MonthStart(month) / 1000
    ensures m == month
  {
    if m < month { MonthsIncrease(m, month); }
    if month < m { MonthsIncrease(month, m); }
  }

  lemma EntryOfItsMonth(
    s: State, usage: int -> seq<OrgUsage>, customers: map<string, string>, first: int, next: int, id: MauId, month: int)
    requires Settled(s, usage, customers, first, next) && id in s.ledger && id.monthSec == MonthStart(month) / 1000
    ensures (id, s.ledger[id]) in EventsOf(usage, customers, month)
  {
    var m :| (id, s.ledger[id]) in EventsOf(usage, customers, m);
    MonthEventsPositive(usage(MonthStart(m)), customers, MonthStart(m));
    assert id.monthSec == MonthStart(m) / 1000;
    SecondsTell(m, month);
  }
}
