/** The names under which batches of audit events are archived. */
module ObjectKey {
  import opened Wrappers
  import opened Texts
  import opened Calendar

  function IntegerText(n: int): string {
    if n < 0 then "-" + Decimal(-n) else Decimal(n)
  }

  function DayPrefix(ms: int): string {
    "audit/" + DayName(ms) + "/"
  }

  /** The name of a batch written at `ms`. */
  function BuildObjectKey(ms: int, suffix: string): string {
    DayPrefix(ms) + IntegerText(ms) + "-" + suffix + ".ndjson"
  }

  /** The number a text of digits stands for, 0 when there are none. */
  function ReadNumber(s: string): Option<nat> {
    if AllDigits(s) then Some(Value(s)) else None
  }

  /** The write time a name gives. */
  function KeyTimestamp(key: string): Option<nat> {
    var parts := Split(key, '/');
    if |parts| <= 2 then None else ReadNumber(Split(parts[2], '-')[0])
  }

  lemma {:induction false} FirstPartGrows(a: string, b: string, c: char)
    requires c !in a
    ensures Split(a + b, c)[0] == a + Split(b, c)[0]
  {
    if a == [] {
      assert a + b == b;
    } else {
      assert (a + b)[1..] == a[1..] + b;
      FirstPartGrows(a[1..], b, c);
    }
  }

  lemma DigitsHaveNo(n: nat, c: char)
    requires !('0' <= c <= '9')
    ensures c !in Decimal(n)
  {
    DecimalReadsBack(n);
  }

  lemma DayNameHasNoSlash(ms: int)
    ensures '/' !in DayName(ms)
  {
    var year, month, day := YearText(YearOf(ms)), ZeroPadded(MonthIndex(ms) % 12 + 1, 2), ZeroPadded(DayOfMonth(ms), 2);
    YearHasNoSlash(YearOf(ms));
    PaddedHasNoSlash(MonthIndex(ms) % 12 + 1, 2);
    PaddedHasNoSlash(DayOfMonth(ms), 2);
    assert LongName(ms) == year + "-" + month + "-" + day;
    assert '/' !in LongName(ms);
  }

  lemma PaddedHasNoSlash(n: nat, width: nat)
    ensures '/' !in ZeroPadded(n, width)
  {
    DigitsHaveNo(n, '/');
    PadHasNoSlash(Decimal(n), width);
  }

  lemma {:induction false} PadHasNoSlash(s: string, width: nat)
    requires '/' !in s
    ensures '/' !in PadStart(s, width)
    decreases width - |s|
  {
    if |s| < width { PadHasNoSlash("0" + s, width); }
  }

  lemma YearHasNoSlash(year: int)
    ensures '/' !in YearText(year)
  {
    if 0 <= year <= 9999 { PaddedHasNoSlash(year, 4); }
    else if year > 0 { PaddedHasNoSlash(year, 6); }
    else { PaddedHasNoSlash(-year, 6); }
  }

  /** A name's third part begins with the write time. */
  lemma ThirdPart(day: string, number: string, suffix: string)
    requires '/' !in day
    ensures var parts := Split("audit/" + day + "/" + number + "-" + suffix + ".ndjson", '/');
      && |parts| > 2
      && parts[2] == Split(number + ['-'] + (suffix + ".ndjson"), '/')[0]
  {
    var rest := number + ['-'] + (suffix + ".ndjson");
    SplitFirst("audit", '/', day + ['/'] + rest);
    SplitFirst(day, '/', rest);
    assert "audit/" + day + "/" + number + "-" + suffix + ".ndjson" == "audit" + ['/'] + (day + ['/'] + rest);
  }

  /** The write time reads back from the name exactly when it is not before 1970. */
  lemma KeyReadsBackExactly(ms: int, suffix: string)
    ensures KeyTimestamp(BuildObjectKey(ms, suffix)) == Some(ms) <==> ms >= 0
  {
    DayNameHasNoSlash(ms);
    ThirdPart(DayName(ms), IntegerText(ms), suffix);
    if ms >= 0 { NumberReadsBack(ms, suffix + ".ndjson"); }
  }

  lemma NumberReadsBack(n: nat, rest: string)
    ensures ReadNumber(Split(Split(Decimal(n) + ['-'] + rest, '/')[0], '-')[0]) == Some(n)
  {
    DigitsHaveNo(n, '/');
    DigitsHaveNo(n, '-');
    DecimalReadsBack(n);
    FirstPartGrows(Decimal(n) + ['-'], rest, '/');
    SplitFirst(Decimal(n), '-', Split(rest, '/')[0]);
  }

  /** A name written up to the year 9999 is listed under the prefix of its own day only. */
  lemma ListedUnderItsDayExactly(ms: int, suffix: string, day: int)
    requires FourDigitYear(ms)
    ensures DayPrefix(day) <= BuildObjectKey(ms, suffix) <==> ms / DAY_MS == day / DAY_MS
  {
    var key, prefix := BuildObjectKey(ms, suffix), DayPrefix(day);
    DayNameExactly(ms, day);
    assert key[..17] == DayPrefix(ms);
    assert prefix[6..16] == DayName(day) && key[..17][6..16] == DayName(ms);
  }

  /** For instance, the name of a batch written at the very beginning. */
  lemma FirstName(suffix: string)
    ensures BuildObjectKey(0, suffix) == "audit/1970-01-01/0-" + suffix + ".ndjson"
  {
    Years(1970, 0);
    IndexOfStart(0);
    FirstDay();
    assert IntegerText(0) == "0";
  }

  lemma FirstDay()
    requires MonthIndex(0) == 0 && YearOf(0) == 1970 && DayOfMonth(0) == 1
    ensures DayName(0) == "1970-01-01"
  {
    assert Decimal(1) == "1" && Decimal(19) == "19" && Decimal(197) == "197" && Decimal(1970) == "1970";
    assert PadStart("01", 2) == "01" && "0" + "1" == "01";
    assert ZeroPadded(1, 2) == "01" && ZeroPadded(1970, 4) == "1970";
    assert LongName(0) == "1970-01-01";
  }
}
