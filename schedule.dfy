/**
 * The schedule codes of the waste-collection table and their expansion
 * into the collection dates of one calendar year (`AwsRow` class methods
 * in crawlTrashCollections.py).
 *
 * Each expander is a function that states the dates it yields, in order,
 * and a method with the generator's loop, proved to return exactly those.
 * A generator that raises is modelled by an `Err` result: the dates it
 * yielded before are consumed by the caller that sees the exception, so
 * only the exception matters.
 */
module Schedule {
  import opened Wrappers
  import opened Text
  import opened Calendar

  /** The exceptions that the expanders let escape. */
  datatype ExpandError =
    | KeyError(key: string)   // a parity token other than `u` and `g`
    | ValueError              // `date(year, month, day)` of an impossible date

  /** `AwsRow.days`: the two-letter German weekday names, Monday = 0. */
  function DayIndex(token: string): (d: Option<int>)
    ensures d.Some? ==> 0 <= d.value < 7
  {
    if token == "Mo" then Some(0)
    else if token == "Di" then Some(1)
    else if token == "Mi" then Some(2)
    else if token == "Do" then Some(3)
    else if token == "Fr" then Some(4)
    else if token == "Sa" then Some(5)
    else if token == "So" then Some(6)
    else None
  }

  /** `AwsRow.evenOffset`: the `u` (odd) weeks start in the first week, `g` (even) one week later. */
  function ParityOffset(token: string): (o: Option<int>)
    ensures o.Some? <==> token == "u" || token == "g"
    ensures o.Some? ==> o.value == (if token == "g" then Week else 0)
  {
    if token == "u" then Some(0) else if token == "g" then Some(7) else None
  }

  /** `AwsRow.week` and `AwsRow.twoWeek`, in days. */
  const Week := 7
  const TwoWeeks := 14

  /** The years whose collection dates the model expands (see README, Left out). */
  predicate ExpandableYear(year: int) {
    MinYear <= year < MaxYear
  }

  /**
   * `_getFirstDateForWeekDay(year, day)`: the first Monday on or after
   * 1 January, plus `day` days. It falls on weekday `day`, between 1 and 13
   * January.
   */
  function FirstDateForWeekday(year: int, day: int): (n: int)
    requires ExpandableYear(year) && 0 <= day < 7
    ensures Weekday(n) == day
    ensures Weekday(n - day) == 0 && YearStart(year) <= n - day < YearStart(year) + Week
    ensures YearStart(year) <= n <= YearStart(year) + 12 && InYear(n, year)
  {
    var jan1 := YearStart(year);
    MondayOnOrAfter(jan1);
    WeekdayAfterMonday(jan1 + (Week - Weekday(jan1)) % Week, day);
    InYearRange(jan1 + (Week - Weekday(jan1)) % Week + day, year);
    jan1 + (Week - Weekday(jan1)) % Week + day
  }

  /** Adding the days to the next Monday, if `j` is not one, reaches a Monday within the week. */
  lemma MondayOnOrAfter(j: int)
    ensures var m := j + (Week - Weekday(j)) % Week; Weekday(m) == 0 && j <= m < j + Week
  {
    var d := Weekday(j);
    var k := j / 7;
    assert j == 7 * k + d;
    if d == 0 {
      assert (Week - d) % Week == 0;
    } else {
      assert (Week - d) % Week == 7 - d;
      assert j + 7 - d == 7 * (k + 1);
    }
  }

  /** `day` days after a Monday is weekday `day`. */
  lemma WeekdayAfterMonday(m: int, day: int)
    requires Weekday(m) == 0 && 0 <= day < 7
    ensures Weekday(m + day) == day && Weekday(m + day - day) == 0
  {
    var k := m / 7;
    assert m == 7 * k;
    assert m + day == 7 * k + day;
  }

  /**
   * The dates of a `while date.year == year` loop that starts at `first`
   * and adds `step` days each round: all lie in `year`, each is `step` days
   * after the one before, and the loop stops at the first date that leaves
   * the year.
   */
  function Steps(first: int, step: int, year: int): (dates: seq<int>)
    requires step > 0
    ensures forall i :: 0 <= i < |dates| ==> InYear(dates[i], year)
    ensures dates != [] ==> dates[0] == first
    ensures forall i, j :: 0 <= i < j < |dates| && j == i + 1 ==> dates[j] == dates[i] + step
    ensures dates == [] <==> !InYear(first, year)
    decreases if year >= MinYear then YearStart(year + 1) - first else 0
  {
    if InYear(first, year) then [first] + Steps(first + step, step, year) else []
  }

  /** The loop stops at the first date that leaves the year. */
  lemma {:induction false} StepsStop(first: int, step: int, year: int)
    requires step > 0
    ensures var dates := Steps(first, step, year);
      dates != [] ==> !InYear(dates[|dates| - 1] + step, year)
    decreases if year >= MinYear then YearStart(year + 1) - first else 0
  {
    if InYear(first, year) {
      StepsStop(first + step, step, year);
    }
  }

  /** The `i`-th date of the loop is `i` steps after the first. */
  lemma {:induction false} StepsAt(first: int, step: int, year: int, i: int)
    requires step > 0 && 0 <= i < |Steps(first, step, year)|
    ensures Steps(first, step, year)[i] == first + i * step
    decreases i
  {
    if i > 0 {
      StepsAt(first + step, step, year, i - 1);
      assert (i - 1) * step + step == i * step;
    }
  }

  /** Every date `m` steps after a first date in the year, and still in it, is reached. */
  lemma {:induction false} StepsCover(first: int, step: int, year: int, m: int)
    requires step > 0 && m >= 0 && InYear(first, year) && InYear(first + m * step, year)
    ensures m < |Steps(first, step, year)|
    decreases m
  {
    if m > 0 {
      assert first + m * step == (first + step) + (m - 1) * step;
      assert (m - 1) * step >= 0;
      StepsCover(first + step, step, year, m - 1);
    }
  }

  // ---------------------------------------------------------------------
  // iterWeeklyByDayString

  /** The dates that `iterWeeklyByDayString(token, year)` yields: `week` is 7 days. */
  function Weekly(token: string, year: int): seq<int>
    requires ExpandableYear(year)
  {
    match DayIndex(token)
    case None => []
    case Some(day) => Steps(FirstDateForWeekday(year, day), 7, year)
  }

  /** An unknown weekday token yields nothing. */
  lemma WeeklyUnknownDay(token: string, year: int)
    requires ExpandableYear(year) && DayIndex(token).None?
    ensures Weekly(token, year) == []
  {
  }

  /**
   * A weekday token yields dates a week apart, from the first date of that
   * weekday on, and stops exactly when the next week leaves the year.
   */
  lemma WeeklyDates(token: string, year: int)
    requires ExpandableYear(year) && DayIndex(token).Some?
    ensures var dates := Weekly(token, year);
      && dates != []
      && dates[0] == FirstDateForWeekday(year, DayIndex(token).value)
      && (forall i :: 0 <= i < |dates| ==> InYear(dates[i], year))
      && (forall i, j :: 0 <= i < j < |dates| && j == i + 1 ==> dates[j] == dates[i] + 7)
      && !InYear(dates[|dates| - 1] + 7, year)
  {
    StepsStop(FirstDateForWeekday(year, DayIndex(token).value), 7, year);
  }

  /**
   * The weekly dates are exactly the days of the year that fall on the
   * weekday and whose week (Monday to Sunday) begins in the year: a
   * weekday before the first Monday of January is skipped.
   */
  lemma WeeklyMembers(token: string, year: int, n: int)
    requires ExpandableYear(year) && DayIndex(token).Some?
    ensures var day := DayIndex(token).value;
      n in Weekly(token, year) <==> InYear(n, year) && Weekday(n) == day && YearStart(year) <= n - day
  {
    var day := DayIndex(token).value;
    var first := FirstDateForWeekday(year, day);
    var dates := Weekly(token, year);
    assert dates == Steps(first, 7, year);
    if n in dates {
      WeeklyMemberSound(first, year, n);
    }
    if InYear(n, year) && Weekday(n) == day && YearStart(year) <= n - day {
      SameWeekday(first, n);
      WeeklyMemberComplete(first, year, n);
    }
  }

  lemma WeeklyMemberSound(first: int, year: int, n: int)
    requires n in Steps(first, 7, year)
    ensures InYear(n, year) && Weekday(n) == Weekday(first) && first <= n
  {
    var dates := Steps(first, 7, year);
    var i :| 0 <= i < |dates| && dates[i] == n;
    StepsAt(first, 7, year, i);
    WeekdayShift(first, i);
  }

  lemma WeeklyMemberComplete(first: int, year: int, n: int)
    requires InYear(first, year) && InYear(n, year) && Weekday(n) == Weekday(first)
    requires first <= n
    ensures n in Steps(first, 7, year)
  {
    SameWeekday(first, n);
    var k := (n - first) / 7;
    assert n == first + k * 7;
    StepsCover(first, 7, year, k);
    StepsAt(first, 7, year, k);
  }

  /** `iterWeeklyByDayString(day, year)`. */
  method IterWeekly(token: string, year: int) returns (dates: seq<int>)
    requires ExpandableYear(year)
    ensures dates == Weekly(token, year)
  {
    dates := [];
    var day := DayIndex(token);
    if day.None? {
      return;
    }
    var date := FirstDateForWeekday(year, day.value);
    while InYear(date, year)
      invariant dates + Steps(date, Week, year) == Weekly(token, year)
      decreases YearStart(year + 1) - date
    {
      dates := dates + [date];
      date := date + Week;
    }
  }

  // ---------------------------------------------------------------------
  // iterBiweeklyByDayWeekString

  /**
   * What `iterBiweeklyByDayWeekString(code, year)` yields, or the exception
   * it raises: `twoWeek` is 14 days.
   */
  function Biweekly(code: string, year: int): Result<seq<int>, ExpandError>
    requires ExpandableYear(year)
  {
    var parts := Split(code, '/');
    if |parts| == 1 then Ok(Weekly(parts[0], year))
    else match DayIndex(parts[0])
      case None => Ok([])
      case Some(day) =>
        match ParityOffset(parts[1])
        case None => Err(KeyError(parts[1]))
        case Some(offset) => Ok(Steps(FirstDateForWeekday(year, day) + offset, 14, year))
  }

  /** A code without `/` is expanded weekly. */
  lemma BiweeklyWithoutSlash(code: string, year: int)
    requires ExpandableYear(year) && '/' !in code
    ensures Biweekly(code, year) == Ok(Weekly(code, year))
  {
    SplitNoSep(code, '/');
  }

  /** How `day/parity` splits. */
  lemma SplitDayParity(day: string, parity: string)
    requires '/' !in day && '/' !in parity
    ensures Split(day + "/" + parity, '/') == [day, parity]
  {
    SplitPrefix(day, parity, '/');
    SplitNoSep(parity, '/');
  }

  /**
   * A biweekly code raises KeyError exactly when it has a `/`, its weekday
   * is known and its parity token is neither `u` nor `g`; an unknown
   * weekday yields nothing before the parity is looked at.
   */
  lemma BiweeklyFails(code: string, year: int)
    requires ExpandableYear(year)
    ensures var parts := Split(code, '/');
      && (Biweekly(code, year).Err? <==>
            |parts| >= 2 && DayIndex(parts[0]).Some? && ParityOffset(parts[1]).None?)
      && (Biweekly(code, year).Err? ==> Biweekly(code, year).error == KeyError(parts[1]))
      && (DayIndex(parts[0]).None? ==> Biweekly(code, year) == Ok([]))
  {
  }

  /**
   * With parity `u` the dates start at the weekly first date, with `g` one
   * week later, and stop exactly when the next step of two weeks leaves
   * the year.
   */
  lemma BiweeklyDates(day: string, parity: string, year: int)
    requires ExpandableYear(year) && '/' !in day && DayIndex(day).Some? && ParityOffset(parity).Some?
    ensures Biweekly(day + "/" + parity, year).Ok?
    ensures var dates := Biweekly(day + "/" + parity, year).value;
      var first := FirstDateForWeekday(year, DayIndex(day).value);
      && dates != []
      && dates[0] == (if parity == "g" then first + 7 else first)
      && !InYear(dates[|dates| - 1] + 14, year)
  {
    var first := FirstDateForWeekday(year, DayIndex(day).value);
    BiweeklyOfDayParity(day, parity, year);
    ParityStart(first, parity, year);
    StepsShape(first + ParityOffset(parity).value, 14, year);
  }

  /** The first date shifted by a parity offset is still in the year. */
  lemma ParityStart(first: int, parity: string, year: int)
    requires ExpandableYear(year) && YearStart(year) <= first <= YearStart(year) + 12
    requires ParityOffset(parity).Some?
    ensures first + ParityOffset(parity).value == (if parity == "g" then first + 7 else first)
    ensures InYear(first + ParityOffset(parity).value, year)
  {
    InYearRange(first + ParityOffset(parity).value, year);
  }

  /** A loop that starts in the year yields its first date and stops where the next step leaves. */
  lemma StepsShape(first: int, step: int, year: int)
    requires step > 0 && InYear(first, year)
    ensures var dates := Steps(first, step, year);
      dates != [] && dates[0] == first && !InYear(dates[|dates| - 1] + step, year)
  {
    StepsStop(first, step, year);
  }

  /** All `dates` lie in `year` and fall on weekday `d`. */
  predicate OnWeekdayIn(dates: seq<int>, d: int, year: int) {
    forall i :: 0 <= i < |dates| ==> InYear(dates[i], year) && Weekday(dates[i]) == d
  }

  /** Both parities give dates of the year on the weekday of the code. */
  lemma BiweeklyOnWeekday(day: string, parity: string, year: int)
    requires ExpandableYear(year) && '/' !in day && DayIndex(day).Some? && ParityOffset(parity).Some?
    ensures Biweekly(day + "/" + parity, year).Ok?
    ensures OnWeekdayIn(Biweekly(day + "/" + parity, year).value, DayIndex(day).value, year)
  {
    var first := FirstDateForWeekday(year, DayIndex(day).value);
    BiweeklyOfDayParity(day, parity, year);
    ParityStartWeekday(first, parity);
    StepsOnWeekday(first + ParityOffset(parity).value, 14, year, DayIndex(day).value);
  }

  /** Consecutive dates of a biweekly code are two weeks apart. */
  lemma BiweeklyApart(day: string, parity: string, year: int)
    requires ExpandableYear(year) && '/' !in day && DayIndex(day).Some? && ParityOffset(parity).Some?
    ensures Biweekly(day + "/" + parity, year).Ok?
    ensures var dates := Biweekly(day + "/" + parity, year).value;
      forall i, j :: 0 <= i < j < |dates| && j == i + 1 ==> dates[j] == dates[i] + 14
  {
    BiweeklyOfDayParity(day, parity, year);
  }

  lemma StepsOnWeekday(first: int, step: int, year: int, d: int)
    requires step > 0 && step % 7 == 0 && Weekday(first) == d
    ensures OnWeekdayIn(Steps(first, step, year), d, year)
  {
    StepsWeekday(first, step, year);
  }

  lemma BiweeklyOfDayParity(day: string, parity: string, year: int)
    requires ExpandableYear(year) && '/' !in day && DayIndex(day).Some? && ParityOffset(parity).Some?
    ensures Biweekly(day + "/" + parity, year)
      == Ok(Steps(FirstDateForWeekday(year, DayIndex(day).value) + ParityOffset(parity).value, 14, year))
  {
    SplitDayParity(day, parity);
  }

  /** Both parities start on the weekday of the first date. */
  lemma ParityStartWeekday(first: int, parity: string)
    requires ParityOffset(parity).Some?
    ensures Weekday(first + ParityOffset(parity).value) == Weekday(first)
  {
    WeekdayShift(first, 1);
  }

  /** Steps of whole weeks stay on the weekday of the first date. */
  lemma {:induction false} StepsWeekday(first: int, step: int, year: int)
    requires step > 0 && step % 7 == 0
    ensures forall i :: 0 <= i < |Steps(first, step, year)| ==> Weekday(Steps(first, step, year)[i]) == Weekday(first)
    decreases if year >= MinYear then YearStart(year + 1) - first else 0
  {
    if InYear(first, year) {
      var rest := Steps(first + step, step, year);
      StepsWeekday(first + step, step, year);
      WeekdayShift(first, step / 7);
      assert step / 7 * 7 == step;
      var dates := Steps(first, step, year);
      assert dates == [first] + rest;
      forall i | 0 <= i < |dates|
        ensures Weekday(dates[i]) == Weekday(first)
      {
        if i > 0 {
          assert dates[i] == rest[i - 1];
        }
      }
    }
  }

  /** The `g` dates of a weekday are the `u` dates a week later, with at most the last one missing. */
  lemma BiweeklyParityShift(day: string, year: int)
    requires ExpandableYear(year) && '/' !in day && DayIndex(day).Some?
    ensures var u := Biweekly(day + "/" + "u", year);
      var g := Biweekly(day + "/" + "g", year);
      && u.Ok? && g.Ok?
      && (|g.value| == |u.value| || |g.value| == |u.value| - 1)
      && (forall i :: 0 <= i < |g.value| ==> g.value[i] == u.value[i] + 7)
  {
    SplitDayParity(day, "u");
    SplitDayParity(day, "g");
    var first := FirstDateForWeekday(year, DayIndex(day).value);
    assert Biweekly(day + "/" + "u", year) == Ok(Steps(first, 14, year));
    assert Biweekly(day + "/" + "g", year) == Ok(Steps(first + 7, 14, year));
    InYearRange(first + 7, year);
    StepsShifted(first, year);
  }

  /** Starting a week later gives the same dates a week later, with at most the last one missing. */
  lemma StepsShifted(first: int, year: int)
    requires InYear(first, year) && InYear(first + 7, year)
    ensures var u := Steps(first, 14, year);
      var g := Steps(first + 7, 14, year);
      && (|g| == |u| || |g| == |u| - 1)
      && (forall i :: 0 <= i < |g| ==> g[i] == u[i] + 7)
  {
    StepsShiftedLength(first, year);
    StepsShiftedAt(first, year);
  }

  lemma StepsShiftedLength(first: int, year: int)
    requires InYear(first, year) && InYear(first + 7, year)
    ensures var u := Steps(first, 14, year);
      var g := Steps(first + 7, 14, year);
      |g| == |u| || |g| == |u| - 1
  {
    var u := Steps(first, 14, year);
    var g := Steps(first + 7, 14, year);
    StepsAt(first + 7, 14, year, |g| - 1);
    StepsCover(first, 14, year, |g| - 1);
    if |u| >= 2 {
      StepsAt(first, 14, year, |u| - 1);
      StepsCover(first + 7, 14, year, |u| - 2);
    }
  }

  lemma StepsShiftedAt(first: int, year: int)
    requires |Steps(first + 7, 14, year)| <= |Steps(first, 14, year)|
    ensures var u := Steps(first, 14, year);
      var g := Steps(first + 7, 14, year);
      forall i :: 0 <= i < |g| ==> g[i] == u[i] + 7
  {
    var u := Steps(first, 14, year);
    var g := Steps(first + 7, 14, year);
    forall i | 0 <= i < |g|
      ensures g[i] == u[i] + 7
    {
      StepsAt(first, 14, year, i);
      StepsAt(first + 7, 14, year, i);
    }
  }

  /** `iterBiweeklyByDayWeekString(dayweek, year)`. */
  method IterBiweekly(code: string, year: int) returns (r: Result<seq<int>, ExpandError>)
    requires ExpandableYear(year)
    ensures r == Biweekly(code, year)
  {
    var parts := Split(code, '/');
    if |parts| == 1 {
      var dates := IterWeekly(parts[0], year);
      return Ok(dates);
    }
    var day := DayIndex(parts[0]);
    if day.None? {
      return Ok([]);
    }
    var offset := ParityOffset(parts[1]);
    if offset.None? {
      return Err(KeyError(parts[1]));
    }
    var date := FirstDateForWeekday(year, day.value) + offset.value;
    ghost var first := date;
    var dates := [];
    assert dates + Steps(date, TwoWeeks, year) == Steps(first, TwoWeeks, year);
    while InYear(date, year)
      invariant dates + Steps(date, TwoWeeks, year) == Steps(first, TwoWeeks, year)
      decreases YearStart(year + 1) - date
    {
      dates := dates + [date];
      date := date + TwoWeeks;
    }
    assert dates + Steps(date, TwoWeeks, year) == dates;
    return Ok(dates);
  }

  // ---------------------------------------------------------------------
  // iterMultibleByDayMonthString

  /**
   * `re.match('(\d{2}).(\d{2}).', token)` succeeds: two digits, any
   * character but a line break, two digits, any character but a line break.
   */
  predicate DayMonthMatch(token: string) {
    |token| >= 6 && IsDigit(token[0]) && IsDigit(token[1]) && token[2] != '\n'
    && IsDigit(token[3]) && IsDigit(token[4]) && token[5] != '\n'
  }

  /** The date a matching token names: day from the first group, month from the second. */
  function TokenDate(token: string, year: int): (d: Date)
    requires DayMonthMatch(token)
    ensures d.year == year
  {
    assert AllDigits(token[0..2]) && AllDigits(token[3..5]);
    Date(year, DigitsValue(token[3..5]), DigitsValue(token[0..2]))
  }

  /** The dates of the tokens, from the first on, until one does not match. */
  function DayMonthDates(tokens: seq<string>, year: int): Result<seq<int>, ExpandError>
    decreases |tokens|
  {
    if tokens == [] || !DayMonthMatch(tokens[0]) then Ok([])
    else
      var d := TokenDate(tokens[0], year);
      if !ValidDate(d) then Err(ValueError)
      else match DayMonthDates(tokens[1..], year)
        case Err(e) => Err(e)
        case Ok(rest) => Ok([Ordinal(d)] + rest)
  }

  /** What `iterMultibleByDayMonthString(dateString, year)` yields, or the exception it raises. */
  function DayMonth(code: string, year: int): Result<seq<int>, ExpandError> {
    DayMonthDates(Split(code, ' '), year)
  }

  /** The first `k` tokens all match and name possible dates. */
  predicate GoodPrefix(tokens: seq<string>, year: int, k: int) {
    0 <= k <= |tokens|
    && forall i :: 0 <= i < k ==> DayMonthMatch(tokens[i]) && ValidDate(TokenDate(tokens[i], year))
  }

  /**
   * The day/month dates are those of the tokens in input order, up to the
   * first token that does not match; an impossible date among them raises
   * ValueError instead.
   */
  lemma {:induction false} DayMonthDatesInOrder(tokens: seq<string>, year: int)
    ensures var r := DayMonthDates(tokens, year);
      && (r.Ok? ==>
            && GoodPrefix(tokens, year, |r.value|)
            && (forall i :: 0 <= i < |r.value| ==> r.value[i] == Ordinal(TokenDate(tokens[i], year)))
            && (|r.value| < |tokens| ==> !DayMonthMatch(tokens[|r.value|])))
      && (r.Err? ==>
            && r.error == ValueError
            && exists k :: GoodPrefix(tokens, year, k) && k < |tokens|
                 && DayMonthMatch(tokens[k]) && !ValidDate(TokenDate(tokens[k], year)))
    decreases |tokens|
  {
    if tokens != [] && DayMonthMatch(tokens[0]) && ValidDate(TokenDate(tokens[0], year)) {
      DayMonthDatesInOrder(tokens[1..], year);
      var r := DayMonthDates(tokens, year);
      var rest := DayMonthDates(tokens[1..], year);
      if rest.Err? {
        var k :| GoodPrefix(tokens[1..], year, k) && k < |tokens[1..]|
          && DayMonthMatch(tokens[1..][k]) && !ValidDate(TokenDate(tokens[1..][k], year));
        assert GoodPrefix(tokens, year, k + 1);
      } else {
        assert GoodPrefix(tokens, year, |r.value|);
      }
    } else if tokens != [] && DayMonthMatch(tokens[0]) {
      assert GoodPrefix(tokens, year, 0);
    }
  }

  /** Every day/month date lies in the year. */
  lemma DayMonthInYear(code: string, year: int)
    ensures DayMonth(code, year).Ok? ==>
      forall i :: 0 <= i < |DayMonth(code, year).value| ==> InYear(DayMonth(code, year).value[i], year)
  {
    DayMonthDatesInOrder(Split(code, ' '), year);
  }

  /** Every biweekly date lies in the year. */
  lemma BiweeklyInYear(code: string, year: int)
    requires ExpandableYear(year)
    ensures Biweekly(code, year).Ok? ==>
      forall i :: 0 <= i < |Biweekly(code, year).value| ==> InYear(Biweekly(code, year).value[i], year)
  {
  }

  /** The empty code has one empty token, which does not match: it yields nothing. */
  lemma DayMonthEmpty(year: int)
    ensures DayMonth("", year) == Ok([])
  {
  }

  /** How a code of two space-separated tokens splits. */
  lemma SplitTwoTokens(a: string, b: string)
    requires ' ' !in a && ' ' !in b
    ensures Split(a + " " + b, ' ') == [a, b]
  {
    SplitPrefix(a, b, ' ');
    SplitNoSep(b, ' ');
  }

  /** Prepending a known prefix to a result, as the generator's earlier yields do. */
  function Then(prefix: seq<int>, r: Result<seq<int>, ExpandError>): (r': Result<seq<int>, ExpandError>)
    ensures r'.Ok? <==> r.Ok?
    ensures r.Ok? ==> r'.value == prefix + r.value
    ensures r.Err? ==> r' == r
    ensures prefix == [] ==> r' == r
  {
    match r
    case Err(e) => Err(e)
    case Ok(rest) => assert [] + rest == rest; Ok(prefix + rest)
  }

  /** One round of the loop over the tokens, from position `i`. */
  lemma DayMonthStep(tokens: seq<string>, i: nat, year: int, dates: seq<int>)
    requires i < |tokens|
    ensures !DayMonthMatch(tokens[i]) ==> Then(dates, DayMonthDates(tokens[i..], year)) == Ok(dates)
    ensures DayMonthMatch(tokens[i]) && !ValidDate(TokenDate(tokens[i], year))
      ==> Then(dates, DayMonthDates(tokens[i..], year)) == Err(ValueError)
    ensures DayMonthMatch(tokens[i]) && ValidDate(TokenDate(tokens[i], year))
      ==> (Then(dates, DayMonthDates(tokens[i..], year))
           == Then(dates + [Ordinal(TokenDate(tokens[i], year))], DayMonthDates(tokens[i + 1..], year)))
  {
    assert tokens[i..][1..] == tokens[i + 1..];
    assert dates + [] == dates;
    if DayMonthMatch(tokens[i]) && ValidDate(TokenDate(tokens[i], year)) {
      var rest := DayMonthDates(tokens[i + 1..], year);
      var o := Ordinal(TokenDate(tokens[i], year));
      assert rest.Ok? ==> dates + ([o] + rest.value) == (dates + [o]) + rest.value;
    }
  }

  /** `iterMultibleByDayMonthString(dateString, year)`. */
  method IterDayMonth(code: string, year: int) returns (r: Result<seq<int>, ExpandError>)
    ensures r == DayMonth(code, year)
  {
    var tokens := Split(code, ' ');
    var dates := [];
    assert tokens[0..] == tokens;
    for i := 0 to |tokens|
      invariant DayMonth(code, year) == Then(dates, DayMonthDates(tokens[i..], year))
    {
      var token := tokens[i];
      DayMonthStep(tokens, i, year, dates);
      if !DayMonthMatch(token) {
        return Ok(dates);
      }
      var date := TokenDate(token, year);
      if !ValidDate(date) {
        return Err(ValueError);
      }
      dates := dates + [Ordinal(date)];
    }
    assert dates + [] == dates;
    return Ok(dates);
  }
}
