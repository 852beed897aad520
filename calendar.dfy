/**
 * The proleptic Gregorian calendar of Python's `datetime.date`.
 *
 * A date object is modelled by its day ordinal: 0 is 1 January of year 1,
 * which was a Monday, so `date.weekday()` (Monday = 0) is the ordinal
 * modulo 7 and adding a `timedelta` of `k` days adds `k` to the ordinal.
 */
module Calendar {
  import opened Wrappers
  import opened Text

  /** `date.min.year` and `date.max.year`. */
  const MinYear := 1
  const MaxYear := 9999

  predicate IsLeap(y: int) {
    y % 4 == 0 && (y % 100 != 0 || y % 400 == 0)
  }

  function DaysInYear(y: int): (n: nat)
    ensures n == 365 || n == 366
  {
    if IsLeap(y) then 366 else 365
  }

  function DaysInMonth(y: int, m: int): (n: nat)
    requires 1 <= m <= 12
    ensures 28 <= n <= 31
    ensures n == 29 <==> m == 2 && IsLeap(y)
  {
    if m == 2 then (if IsLeap(y) then 29 else 28)
    else if m == 4 || m == 6 || m == 9 || m == 11 then 30
    else 31
  }

  /** The number of days of year `y` that come before month `m`. */
  function DaysBeforeMonth(y: int, m: int): (n: nat)
    requires 1 <= m <= 13
    decreases m
  {
    if m == 1 then 0 else DaysBeforeMonth(y, m - 1) + DaysInMonth(y, m - 1)
  }

  /** The twelve months fill the year exactly. */
  lemma MonthsFillYear(y: int)
    ensures DaysBeforeMonth(y, 13) == DaysInYear(y)
  {
    assert DaysBeforeMonth(y, 3) == 31 + DaysInMonth(y, 2);
    assert DaysBeforeMonth(y, 8) == DaysBeforeMonth(y, 3) + 153;
  }

  /** Later months start later. */
  lemma {:induction false} DaysBeforeMonthGrows(y: int, m: int, m': int)
    requires 1 <= m < m' <= 13
    ensures DaysBeforeMonth(y, m) + DaysInMonth(y, m) <= DaysBeforeMonth(y, m')
    decreases m' - m
  {
    if m + 1 < m' {
      DaysBeforeMonthGrows(y, m + 1, m');
    }
  }

  /** The ordinal of 1 January of year `y`: the days of all the years before it. */
  function YearStart(y: int): (n: nat)
    requires y >= MinYear
    decreases y
  {
    if y == MinYear then 0 else YearStart(y - 1) + DaysInYear(y - 1)
  }

  /** Consecutive years are as far apart as the first one is long. */
  lemma YearStartNext(y: int)
    requires y >= MinYear
    ensures YearStart(y + 1) == YearStart(y) + DaysInYear(y)
  {
  }

  /**
   * The closed form that `datetime` computes: 365 days a year, plus one for
   * every fourth year, minus one for every hundredth, plus one for every
   * four-hundredth.
   */
  lemma {:induction false} YearStartClosed(y: int)
    requires y >= MinYear
    ensures var p := y - 1; YearStart(y) == 365 * p + p / 4 - p / 100 + p / 400
    decreases y
  {
    if y > MinYear {
      YearStartClosed(y - 1);
      ClosedFormStep(y - 1);
    }
  }

  /** The closed form grows by the length of each year. */
  lemma ClosedFormStep(p: int)
    ensures 365 * p + p / 4 - p / 100 + p / 400
      == 365 * (p - 1) + (p - 1) / 4 - (p - 1) / 100 + (p - 1) / 400 + DaysInYear(p)
  {
    DivStep(p - 1);
    LeapCount(p);
  }

  /** A leap year is a multiple of 4, less the multiples of 100, plus those of 400. */
  lemma LeapCount(z: int)
    ensures DaysInYear(z) - 365
      == (if z % 4 == 0 then 1 else 0) - (if z % 100 == 0 then 1 else 0) + (if z % 400 == 0 then 1 else 0)
  {
    if z % 400 == 0 {
      var k := z / 400;
      assert z == 100 * (4 * k);
      assert z == 4 * (100 * k);
    } else if z % 100 == 0 {
      var k := z / 100;
      assert z == 4 * (25 * k);
    }
  }

  /** Counting up by one passes a multiple of 4, 100 or 400 exactly when it reaches one. */
  lemma DivStep(q: int)
    ensures (q + 1) / 4 == q / 4 + (if (q + 1) % 4 == 0 then 1 else 0)
    ensures (q + 1) / 100 == q / 100 + (if (q + 1) % 100 == 0 then 1 else 0)
    ensures (q + 1) / 400 == q / 400 + (if (q + 1) % 400 == 0 then 1 else 0)
  {
  }

  /** Years start in order. */
  lemma {:induction false} YearStartGrows(y: int, y': int)
    requires MinYear <= y < y'
    ensures YearStart(y) + DaysInYear(y) <= YearStart(y')
    decreases y' - y
  {
    YearStartNext(y);
    if y + 1 < y' {
      YearStartGrows(y + 1, y');
    }
  }

  /** The date with ordinal `n` lies in year `y`: Python's `date.year == y`. */
  predicate InYear(n: int, y: int) {
    y >= MinYear && YearStart(y) <= n < YearStart(y + 1)
  }

  /** A year holds exactly the ordinals from its 1 January on, as many as it has days. */
  lemma InYearRange(n: int, y: int)
    requires y >= MinYear
    ensures InYear(n, y) <==> YearStart(y) <= n < YearStart(y) + DaysInYear(y)
  {
    YearStartNext(y);
  }

  /** An ordinal lies in at most one year. */
  lemma InOneYear(n: int, y: int, y': int)
    requires InYear(n, y) && InYear(n, y')
    ensures y == y'
  {
    if y < y' {
      YearStartGrows(y, y');
      YearStartNext(y);
    } else if y' < y {
      YearStartGrows(y', y);
      YearStartNext(y');
    }
  }

  /** `date.weekday()`: Monday is 0 and Sunday is 6. */
  function Weekday(n: int): (d: int)
    ensures 0 <= d < 7
    ensures (n - d) % 7 == 0
  {
    n % 7
  }

  /** Whole weeks later is the same weekday. */
  lemma WeekdayShift(n: int, k: int)
    ensures Weekday(n + k * 7) == Weekday(n)
  {
  }

  /** Two days on the same weekday are whole weeks apart. */
  lemma SameWeekday(m: int, n: int)
    requires Weekday(m) == Weekday(n)
    ensures n - m == (n - m) / 7 * 7
  {
  }

  // ---------------------------------------------------------------------
  // Year, month and day

  datatype Date = Date(year: int, month: int, day: int)

  /** The arguments that `date(year, month, day)` accepts; it raises ValueError on any other. */
  predicate ValidDate(d: Date) {
    MinYear <= d.year <= MaxYear && 1 <= d.month <= 12 && 1 <= d.day <= DaysInMonth(d.year, d.month)
  }

  /** `date(year, month, day)` as an ordinal: it lies in its own year. */
  function Ordinal(d: Date): (n: nat)
    requires ValidDate(d)
    ensures InYear(n, d.year)
  {
    InYearRange(YearStart(d.year) + DaysBeforeMonth(d.year, d.month) + d.day - 1, d.year);
    DaysBeforeMonthGrows(d.year, d.month, 13);
    MonthsFillYear(d.year);
    YearStart(d.year) + DaysBeforeMonth(d.year, d.month) + d.day - 1
  }

  /**
   * The month and day of the `k`-th day (counting from 0) of the months of
   * year `y` from month `m` on.
   */
  function MonthDay(y: int, m: int, k: nat): (md: (int, int))
    requires 1 <= m <= 12 && DaysBeforeMonth(y, m) + k < DaysInYear(y)
    ensures m <= md.0 <= 12 && 1 <= md.1 <= DaysInMonth(y, md.0)
    ensures DaysBeforeMonth(y, md.0) + md.1 - 1 == DaysBeforeMonth(y, m) + k
    decreases 12 - m
  {
    if k < DaysInMonth(y, m) then (m, k + 1)
    else
      assert m < 12 by {
        MonthsFillYear(y);
      }
      MonthDay(y, m + 1, k - DaysInMonth(y, m))
  }

  /** The date of an ordinal that lies in year `y`: reading `year`, `month` and `day` of a date. */
  function DateIn(y: int, n: int): (d: Date)
    requires InYear(n, y) && y <= MaxYear
    ensures ValidDate(d) && d.year == y && Ordinal(d) == n
  {
    InYearRange(n, y);
    var md := MonthDay(y, 1, n - YearStart(y));
    Date(y, md.0, md.1)
  }

  /** Distinct valid dates have distinct ordinals. */
  lemma OrdinalInjective(d: Date, e: Date)
    requires ValidDate(d) && ValidDate(e) && Ordinal(d) == Ordinal(e)
    ensures d == e
  {
    InOneYear(Ordinal(d), d.year, e.year);
    if d.month < e.month {
      DaysBeforeMonthGrows(d.year, d.month, e.month);
    } else if e.month < d.month {
      DaysBeforeMonthGrows(d.year, e.month, d.month);
    }
  }

  /** Reading back the date of the ordinal of a date gives that date. */
  lemma DateOfOrdinal(d: Date)
    requires ValidDate(d)
    ensures DateIn(d.year, Ordinal(d)) == d
  {
    OrdinalInjective(DateIn(d.year, Ordinal(d)), d);
  }

  // ---------------------------------------------------------------------
  // str(date)

  /** `str(date)`: ISO 8601 `YYYY-MM-DD`. */
  function IsoText(d: Date): (s: string)
    requires ValidDate(d)
    ensures |s| == 10 && s[4] == '-' && s[7] == '-'
    ensures forall k :: 0 <= k < |s| ==> IsDigit(s[k]) || s[k] == '-'
  {
    DecimalTextWidth(d.year, 4);
    DecimalTextWidth(d.month, 2);
    DecimalTextWidth(d.day, 2);
    ZeroPadded(d.year, 4) + "-" + ZeroPadded(d.month, 2) + "-" + ZeroPadded(d.day, 2)
  }

  /** `date.fromisoformat(s)` for the `YYYY-MM-DD` form. */
  function ParseIso(s: string): (d: Option<Date>)
    ensures d.Some? ==> ValidDate(d.value)
  {
    if |s| == 10 && s[4] == '-' && s[7] == '-'
       && AllDigits(s[..4]) && AllDigits(s[5..7]) && AllDigits(s[8..])
    then
      var d := Date(DigitsValue(s[..4]), DigitsValue(s[5..7]), DigitsValue(s[8..]));
      if ValidDate(d) then Some(d) else None
    else None
  }

  /** The text of a date reads back as that date. */
  lemma ParseIsoText(d: Date)
    requires ValidDate(d)
    ensures ParseIso(IsoText(d)) == Some(d)
  {
    var s := IsoText(d);
    DecimalTextWidth(d.year, 4);
    DecimalTextWidth(d.month, 2);
    DecimalTextWidth(d.day, 2);
    assert s[..4] == ZeroPadded(d.year, 4);
    assert s[5..7] == ZeroPadded(d.month, 2);
    assert s[8..] == ZeroPadded(d.day, 2);
    DigitsValueOfPadded(d.year, 4);
    DigitsValueOfPadded(d.month, 2);
    DigitsValueOfPadded(d.day, 2);
  }

  /** Distinct dates have distinct texts. */
  lemma IsoTextInjective(d: Date, e: Date)
    requires ValidDate(d) && ValidDate(e) && IsoText(d) == IsoText(e)
    ensures d == e
  {
    ParseIsoText(d);
    ParseIsoText(e);
  }
}
