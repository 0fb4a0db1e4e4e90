/**
 The archive by name: listing a day's prefix and reading the names' write times
 give the batches that the collection works on.
 */
module Archive {
  import opened Wrappers
  import opened Calendar
  import opened ObjectKey
  import opened Metering

  datatype Object = Object(key: string, body: Option<seq<Line>>)

  /** A batch as the queue consumer archives it. */
  datatype Filing = Filing(ms: int, suffix: string, lines: seq<Line>)

  function Filed(f: Filing): Object {
    Object(BuildObjectKey(f.ms, f.suffix), Some(f.lines))
  }

  function AllFiled(filings: seq<Filing>): (objects: seq<Object>)
    ensures |objects| == |filings|
    ensures forall i :: 0 <= i < |filings| ==> objects[i] == Filed(filings[i])
  {
    if filings == [] then []
    else AllFiled(filings[..|filings| - 1]) + [Filed(filings[|filings| - 1])]
  }

  /** The objects whose names begin with a prefix. */
  function Listed(objects: seq<Object>, prefix: string): seq<Object> {
    if objects == [] then []
    else
      var last := objects[|objects| - 1];
      Listed(objects[..|objects| - 1], prefix) + (if prefix <= last.key then [last] else [])
  }

  /** An object as the collection sees it when it comes up under a day's prefix. */
  function Seen(o: Object, day: int): Batch {
    Batch(day, KeyTimestamp(o.key), o.body)
  }

  function AllSeen(objects: seq<Object>, day: int): seq<Batch> {
    if objects == [] then []
    else AllSeen(objects[..|objects| - 1], day) + [Seen(objects[|objects| - 1], day)]
  }

  function AsBatch(f: Filing): Batch {
    Batch(Floor(f.ms, DAY_MS), Some(f.ms), Some(f.lines))
  }

  function AsBatches(filings: seq<Filing>): seq<Batch> {
    if filings == [] then []
    else AsBatches(filings[..|filings| - 1]) + [AsBatch(filings[|filings| - 1])]
  }

  /** Written from 1970 on and up to the year 9999, soon after the events it holds. */
  predicate InTime(f: Filing) {
    && f.ms >= 0 && FourDigitYear(f.ms)
    && forall l :: l in f.lines && l.Entry? ==> l.event.at <= f.ms <= l.event.at + GRACE_MS
  }

  lemma SeenAsFiled(f: Filing, day: int)
    requires f.ms >= 0 && FourDigitYear(f.ms) && day % DAY_MS == 0
    ensures DayPrefix(day) <= Filed(f).key <==> AsBatch(f).day == day
    ensures AsBatch(f).day == day ==> Seen(Filed(f), day) == AsBatch(f)
  {
    ListedUnderItsDayExactly(f.ms, f.suffix, day);
    KeyReadsBackExactly(f.ms, f.suffix);
  }

  lemma SeenOneMore(objects: seq<Object>, o: Object, prefix: string, day: int)
    ensures AllSeen(Listed(objects + [o], prefix), day) ==
      AllSeen(Listed(objects, prefix), day) + (if prefix <= o.key then [Seen(o, day)] else [])
  {
    assert (objects + [o])[..|objects|] == objects;
    var listed := Listed(objects, prefix);
    assert (listed + [o])[..|listed|] == listed;
    assert listed + [] == listed;
  }

  /** Listing a day's prefix and reading the names gives that day's batches, with their write times. */
  lemma {:induction false} ListingFindsTheDay(filings: seq<Filing>, day: int)
    requires day % DAY_MS == 0 && forall f :: f in filings ==> f.ms >= 0 && FourDigitYear(f.ms)
    ensures AllSeen(Listed(AllFiled(filings), DayPrefix(day)), day) == OfDay(AsBatches(filings), day)
  {
    if filings != [] {
      var init, last := filings[..|filings| - 1], filings[|filings| - 1];
      assert last in filings;
      ListingFindsTheDay(init, day);
      SeenAsFiled(last, day);
      SeenOneMore(AllFiled(init), Filed(last), DayPrefix(day), day);
      OfDayOneMore(AsBatches(init), AsBatch(last), day);
    }
  }

  lemma OfDayOneMore(batches: seq<Batch>, b: Batch, day: int)
    ensures OfDay(batches + [b], day) == OfDay(batches, day) + (if b.day == day then [b] else [])
  {
    assert (batches + [b])[..|batches|] == batches;
  }

  lemma {:induction false} InTimeIsWellKept(filings: seq<Filing>)
    requires forall f :: f in filings ==> InTime(f)
    ensures forall b :: b in AsBatches(filings) ==> WellKept(b)
  {
    if filings != [] {
      var init, last := filings[..|filings| - 1], filings[|filings| - 1];
      assert last in filings;
      InTimeIsWellKept(init);
      assert WellKept(AsBatch(last));
    }
  }

  /** The events under one day's prefix that fall into the window, write times read from the names. */
  function DayEvents(objects: seq<Object>, day: int, from: int, to: int): seq<AuditEvent> {
    BatchesEvents(AllSeen(Listed(objects, DayPrefix(day)), day), from, to)
  }

  /** The scan by name, day by day. */
  function CollectedByName(objects: seq<Object>, day: int, from: int, to: int): seq<AuditEvent>
    decreases GRACE_MS + to - day
  {
    if day > to + GRACE_MS then []
    else DayEvents(objects, day, from, to) + CollectedByName(objects, day + DAY_MS, from, to)
  }

  /** What the consumer archived, in order. */
  function FiledEvents(filings: seq<Filing>): seq<AuditEvent> {
    if filings == [] then []
    else FiledEvents(filings[..|filings| - 1]) + Entries(filings[|filings| - 1].lines)
  }

  lemma {:induction false} NamesAgree(filings: seq<Filing>, day: int, from: int, to: int)
    requires day % DAY_MS == 0 && forall f :: f in filings ==> f.ms >= 0 && FourDigitYear(f.ms)
    ensures CollectedByName(AllFiled(filings), day, from, to) == Collected(AsBatches(filings), day, from, to)
    decreases GRACE_MS + to - day
  {
    if day <= to + GRACE_MS {
      NamesAgree(filings, day + DAY_MS, from, to);
      ListingFindsTheDay(filings, day);
    }
  }

  lemma {:induction false} ArchivedIsFiled(filings: seq<Filing>)
    ensures Archived(AsBatches(filings)) == FiledEvents(filings)
  {
    if filings != [] {
      var init, last := filings[..|filings| - 1], filings[|filings| - 1];
      ArchivedIsFiled(init);
      assert (AsBatches(init) + [AsBatch(last)])[..|AsBatches(init)|] == AsBatches(init);
    }
  }

  /** So the scan by name returns exactly the events of the window that the consumer archived in time. */
  lemma ArchiveIsCollected(filings: seq<Filing>, from: int, to: int)
    requires forall f :: f in filings ==> InTime(f)
    ensures multiset(CollectedByName(AllFiled(filings), Floor(from, DAY_MS), from, to)) ==
      multiset(Select(FiledEvents(filings), from, to))
  {
    NamesAgree(filings, Floor(from, DAY_MS), from, to);
    ArchivedIsFiled(filings);
    InTimeIsWellKept(filings);
    CollectionExact(AsBatches(filings), from, to);
  }
}
