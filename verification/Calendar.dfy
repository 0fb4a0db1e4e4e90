/** The Gregorian calendar, in milliseconds since 1970. */
module Calendar {
  import opened Texts

  const DAY_MS: int := 86_400_000

  predicate Leap(year: int) {
    year % 4 == 0 && (year % 100 != 0 || year % 400 == 0)
  }

  /** Days in the month `i` months after January 1970. */
  function MonthLength(i: int): (days: int)
    ensures 28 <= days <= 31
  {
    var year, month := 1970 + i / 12, i % 12;
    if month == 1 then (if Leap(year) then 29 else 28)
    else if month in {3, 5, 8, 10} then 30
    else 31
  }

  function DaysBefore(i: int): int
    decreases if i < 0 then -i else i
  {
    if i > 0 then DaysBefore(i - 1) + MonthLength(i - 1)
    else if i < 0 then DaysBefore(i + 1) - MonthLength(i)
    else 0
  }

  function MonthStart(i: int): int {
    DaysBefore(i) * DAY_MS
  }

  lemma MonthStep(i: int)
    ensures MonthStart(i) + 28 * DAY_MS <= MonthStart(i + 1)
  {
    assert DaysBefore(i + 1) == DaysBefore(i) + MonthLength(i);
  }

  /** The month a moment falls in, sought from a month not after it, or not before it. */
  function MonthUp(i: int, ms: int): (j: int)
    requires MonthStart(i) <= ms
    ensures MonthStart(j) <= ms < MonthStart(j + 1)
    decreases ms - MonthStart(i)
  {
    MonthStep(i);
    if ms < MonthStart(i + 1) then i else MonthUp(i + 1, ms)
  }

  function MonthDown(i: int, ms: int): (j: int)
    requires ms < MonthStart(i + 1)
    ensures MonthStart(j) <= ms < MonthStart(j + 1)
    decreases MonthStart(i + 1) - ms
  {
    MonthStep(i);
    if MonthStart(i) <= ms then i else MonthDown(i - 1, ms)
  }

  function MonthIndex(ms: int): (j: int)
    ensures MonthStart(j) <= ms < MonthStart(j + 1)
  {
    if ms >= MonthStart(0) then MonthUp(0, ms) else MonthDown(-1, ms)
  }

  lemma {:induction false} MonthsIncrease(i: int, j: int)
    requires i < j
    ensures MonthStart(i) < MonthStart(j)
    decreases j - i
  {
    MonthStep(i);
    if i + 1 < j { MonthsIncrease(i + 1, j); }
  }

  /** A month's start determines the month. */
  lemma IndexOfStart(i: int)
    ensures MonthIndex(MonthStart(i)) == i
  {
    var j := MonthIndex(MonthStart(i));
    if j < i && j + 1 < i { MonthsIncrease(j + 1, i); }
    if i < j { MonthsIncrease(i, j); }
  }

  /** Comparing month starts compares months. */
  lemma MonthOrder(i: int, j: int)
    ensures MonthStart(i) < MonthStart(j) <==> i < j
  {
    if i < j { MonthsIncrease(i, j); }
    if j < i { MonthsIncrease(j, i); }
  }

  /** The month a moment falls in is the only one around it. */
  lemma IndexIsUnique(ms: int, i: int)
    requires MonthStart(i) <= ms < MonthStart(i + 1)
    ensures MonthIndex(ms) == i
  {
    var j := MonthIndex(ms);
    if i + 1 <= j { MonthOrder(j, i + 1); }
    if j + 1 <= i { MonthOrder(i, j + 1); }
  }

  // ------------------------------------------------------------ days by name

  function YearOf(ms: int): int {
    1970 + MonthIndex(ms) / 12
  }

  /** Every year a four-digit name can hold. */
  predicate FourDigitYear(ms: int) {
    0 <= YearOf(ms) <= 9999
  }

  function DayOfMonth(ms: int): (day: int)
    ensures 1 <= day <= 31
  {
    (ms - MonthStart(MonthIndex(ms))) / DAY_MS + 1
  }

  /** Years past four digits get a sign and six digits. */
  function YearText(year: int): (s: string)
    ensures |s| >= 4
  {
    if 0 <= year <= 9999 then ZeroPadded(year, 4)
    else if year > 0 then "+" + ZeroPadded(year, 6)
    else "-" + ZeroPadded(-year, 6)
  }

  function LongName(ms: int): (s: string)
    ensures |s| >= 10
  {
    YearText(YearOf(ms)) + "-" + ZeroPadded(MonthIndex(ms) % 12 + 1, 2) + "-" + ZeroPadded(DayOfMonth(ms), 2)
  }

  /** The first ten characters of the ISO text of a moment. */
  function DayName(ms: int): (s: string)
    ensures |s| == 10
  {
    LongName(ms)[..10]
  }

  lemma DayNameParts(ms: int)
    requires FourDigitYear(ms)
    ensures var s := DayName(ms);
      && AllDigits(s[..4]) && Value(s[..4]) == YearOf(ms)
      && s[4] == '-' && AllDigits(s[5..7]) && Value(s[5..7]) == MonthIndex(ms) % 12 + 1
      && s[7] == '-' && AllDigits(s[8..]) && Value(s[8..]) == DayOfMonth(ms)
  {
    assert Pow10(2) == 100 && Pow10(4) == 10000;
    ZeroPaddedExact(YearOf(ms), 4);
    ZeroPaddedExact(MonthIndex(ms) % 12 + 1, 2);
    ZeroPaddedExact(DayOfMonth(ms), 2);
    Dashed(ZeroPadded(YearOf(ms), 4), ZeroPadded(MonthIndex(ms) % 12 + 1, 2), ZeroPadded(DayOfMonth(ms), 2));
  }

  lemma Dashed(year: string, month: string, day: string)
    requires |year| == 4 && |month| == 2 && |day| == 2
    ensures var s := (year + "-" + month + "-" + day)[..10];
      s[..4] == year && s[4] == '-' && s[5..7] == month && s[7] == '-' && s[8..] == day
  {
  }

  lemma SignedName(ms: int)
    requires !FourDigitYear(ms)
    ensures DayName(ms)[0] in "+-"
  {
    assert DayName(ms)[0] == LongName(ms)[0] == YearText(YearOf(ms))[0];
  }

  lemma SameMonthSameDay(a: int, b: int)
    requires MonthIndex(a) == MonthIndex(b)
    ensures DayOfMonth(a) == DayOfMonth(b) <==> a / DAY_MS == b / DAY_MS
  {
  }

  lemma SameDaySameMonth(a: int, b: int)
    requires a / DAY_MS == b / DAY_MS
    ensures MonthIndex(a) == MonthIndex(b)
  {
    IndexIsUnique(b, MonthIndex(a));
  }

  /** Up to the year 9999, a day's name determines the day. */
  lemma DayNameExactly(a: int, b: int)
    requires FourDigitYear(a)
    ensures DayName(a) == DayName(b) <==> a / DAY_MS == b / DAY_MS
  {
    DayNameParts(a);
    if a / DAY_MS == b / DAY_MS {
      SameDaySameMonth(a, b);
      SameMonthSameDay(a, b);
    } else if FourDigitYear(b) {
      DayNameParts(b);
      if MonthIndex(a) == MonthIndex(b) { SameMonthSameDay(a, b); }
    } else {
      SignedName(b);
      assert DayName(a)[..4][0] == DayName(a)[0];
    }
  }

  // ------------------------------------------------- the calendar, in words

  /** Every fourth year is a leap year, of the years that end a century every fourth. */
  lemma LeapYears(year: int)
    ensures year % 4 != 0 ==> !Leap(year)
    ensures year % 4 == 0 && year % 100 != 0 ==> Leap(year)
    ensures year % 100 == 0 ==> (Leap(year) <==> year / 100 % 4 == 0)
  {
  }

  /** The lengths of January to December in a year that is no leap year, and of February in one that is. */
  const LENGTHS: seq<int> := [31, 28, 31, 30, 31, 30, 31, 31, 30, 31, 30, 31]

  lemma MonthLengths(year: int, m: nat)
    requires m < 12
    ensures MonthLength(12 * (year - 1970) + m) == if m == 1 && Leap(year) then 29 else LENGTHS[m]
  {
  }

  /** January 1970 starts at 0, and every year with its January. */
  lemma Years(year: int, m: nat)
    requires m < 12
    ensures MonthStart(0) == 0
    ensures YearOf(MonthStart(12 * (year - 1970) + m)) == year
    ensures DayOfMonth(MonthStart(12 * (year - 1970) + m)) == 1
  {
    IndexOfStart(12 * (year - 1970) + m);
  }

  /** Within a month, days count from 1. */
  lemma DaysCount(i: int, day: nat, ms: nat)
    requires 1 <= day <= MonthLength(i) && ms < 86_400_000
    ensures var moment := MonthStart(i) + (day - 1) * 86_400_000 + ms;
      MonthIndex(moment) == i && DayOfMonth(moment) == day
  {
    var moment := MonthStart(i) + (day - 1) * 86_400_000 + ms;
    assert DaysBefore(i + 1) == DaysBefore(i) + MonthLength(i);
    IndexIsUnique(moment, i);
  }
}
