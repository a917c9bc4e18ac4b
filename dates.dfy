/**
 * Civil (proleptic Gregorian) dates as Python's datetime module handles them:
 * parsing with `strptime(s, "%d-%m-%Y")`, `date.isoformat()` (the extended
 * calendar date of section 4.1.2.2 of ISO 8601:2004) and `isocalendar().week`
 * (the week number of section 4.1.4 of ISO 8601:2004), computed with the
 * integer day arithmetic of the datetime module.
 */
module Dates {
  import opened Outcomes
  import opened Text

  datatype Date = Date(year: int, month: int, day: int)

  predicate IsLeapYear(y: int)
  {
    y % 4 == 0 && (y % 100 != 0 || y % 400 == 0)
  }

  function DaysInMonth(y: int, m: int): int
    requires 1 <= m <= 12
  {
    if m == 2 then (if IsLeapYear(y) then 29 else 28)
    else if m == 4 || m == 6 || m == 9 || m == 11 then 30
    else 31
  }

  /** The dates datetime can represent: years 1 (MINYEAR) to 9999 (MAXYEAR). */
  predicate ValidDate(d: Date)
  {
    1 <= d.year <= 9999 && 1 <= d.month <= 12 && 1 <= d.day <= DaysInMonth(d.year, d.month)
  }

  type CivilDate = d: Date | ValidDate(d) witness Date(1, 1, 1)

  // ------------------------------------------------------------ text forms

  /** The three `-`-separated fields of a date text, if it has exactly three. */
  function DateFields(s: string): Option<(string, string, string)>
  {
    var parts := Split(s, '-');
    if |parts| == 3 && AllDigits(parts[0]) && AllDigits(parts[1]) && AllDigits(parts[2])
    then Some((parts[0], parts[1], parts[2]))
    else None
  }

  function MakeDate(year: int, month: int, day: int): Option<CivilDate>
  {
    var d := Date(year, month, day);
    if ValidDate(d) then Some(d) else None
  }

  /**
   * `datetime.strptime(s, "%d-%m-%Y")`: the day and the month are one or two
   * digits, the year exactly four, and together they must name a real date.
   */
  function ParseDayMonthYear(s: string): Option<CivilDate>
  {
    match DateFields(s)
    case None => None
    case Some((dd, mm, yyyy)) =>
      if 1 <= |dd| <= 2 && 1 <= |mm| <= 2 && |yyyy| == 4
      then MakeDate(DigitsValue(yyyy), DigitsValue(mm), DigitsValue(dd))
      else None
  }

  /** The `DD-MM-YYYY` form of a date, the shape the roster files use. */
  function FormatDayMonthYear(d: CivilDate): string
  {
    PadDigits(d.day, 2) + "-" + PadDigits(d.month, 2) + "-" + PadDigits(d.year, 4)
  }

  /** `date.isoformat()`: `YYYY-MM-DD`, zero-padded. */
  function FormatIso(d: CivilDate): (s: string)
    ensures |s| == 10 && s[4] == '-' && s[7] == '-'
  {
    PadDigits(d.year, 4) + "-" + PadDigits(d.month, 2) + "-" + PadDigits(d.day, 2)
  }

  /** Reading an ISO 8601 extended calendar date back. */
  function ParseIso(s: string): Option<CivilDate>
  {
    match DateFields(s)
    case None => None
    case Some((yyyy, mm, dd)) =>
      if |yyyy| == 4 && |mm| == 2 && |dd| == 2
      then MakeDate(DigitsValue(yyyy), DigitsValue(mm), DigitsValue(dd))
      else None
  }

  lemma {:induction false} FieldsOfJoined(a: string, b: string, c: string)
    requires AllDigits(a) && AllDigits(b) && AllDigits(c)
    ensures DateFields(a + "-" + b + "-" + c) == Some((a, b, c))
  {
    assert forall i :: 0 <= i < |a| ==> a[i] != '-' by {
      forall i | 0 <= i < |a| ensures a[i] != '-' { assert IsDigit(a[i]); }
    }
    assert forall i :: 0 <= i < |b| ==> b[i] != '-' by {
      forall i | 0 <= i < |b| ensures b[i] != '-' { assert IsDigit(b[i]); }
    }
    assert forall i :: 0 <= i < |c| ==> c[i] != '-' by {
      forall i | 0 <= i < |c| ensures c[i] != '-' { assert IsDigit(c[i]); }
    }
    var parts := [a, b, c];
    assert Join(parts, '-') == a + "-" + b + "-" + c by {
      assert parts[1..] == [b, c];
      assert [b, c][1..] == [c];
      assert Join([c], '-') == c;
      assert Join([b, c], '-') == b + "-" + c;
    }
    SplitJoin(parts, '-');
  }

  /** Every date survives a trip through its `DD-MM-YYYY` form. */
  lemma DayMonthYearRoundTrip(d: CivilDate)
    ensures ParseDayMonthYear(FormatDayMonthYear(d)) == Some(d)
  {
    FieldsOfJoined(PadDigits(d.day, 2), PadDigits(d.month, 2), PadDigits(d.year, 4));
  }

  /** Every date survives a trip through its ISO 8601 form. */
  lemma IsoRoundTrip(d: CivilDate)
    ensures ParseIso(FormatIso(d)) == Some(d)
  {
    FieldsOfJoined(PadDigits(d.year, 4), PadDigits(d.month, 2), PadDigits(d.day, 2));
  }

  /**
   * A ten-character date that parses is the canonical `DD-MM-YYYY` form of
   * the parsed date, so its ISO form is the same digits rearranged.
   */
  lemma IsoRearrangesDayMonthYear(s: string, d: CivilDate)
    requires ParseDayMonthYear(s) == Some(d) && |s| == 10
    ensures FormatDayMonthYear(d) == s
    ensures FormatIso(d) == s[6..10] + "-" + s[3..5] + "-" + s[0..2]
  {
    var parts := Split(s, '-');
    assert |parts| == 3;
    var dd, mm, yyyy := parts[0], parts[1], parts[2];
    assert Join(parts, '-') == dd + "-" + mm + "-" + yyyy by {
      assert parts == [dd, mm, yyyy];
      assert [dd, mm, yyyy][1..] == [mm, yyyy];
      assert [mm, yyyy][1..] == [yyyy];
      assert Join([yyyy], '-') == yyyy;
      assert Join([mm, yyyy], '-') == mm + "-" + yyyy;
    }
    assert |dd| == 2 && |mm| == 2;
    PadDigitsOfValue(dd);
    PadDigitsOfValue(mm);
    PadDigitsOfValue(yyyy);
    assert s == dd + "-" + mm + "-" + yyyy;
    assert s[0..2] == dd && s[3..5] == mm && s[6..10] == yyyy;
  }

  /** What strptime accepts is a real date with the written field values. */
  lemma ParsedDateFields(s: string)
    requires ParseDayMonthYear(s).Some?
    ensures var parts := Split(s, '-');
      && |parts| == 3
      && 1 <= |parts[0]| <= 2 && 1 <= |parts[1]| <= 2 && |parts[2]| == 4
      && AllDigits(parts[0]) && AllDigits(parts[1]) && AllDigits(parts[2])
      && ParseDayMonthYear(s).value
         == Date(DigitsValue(parts[2]), DigitsValue(parts[1]), DigitsValue(parts[0]))
  {
  }

  // ------------------------------------------------------- day arithmetic

  /** datetime's `_days_before_year`: days before January 1 of `year`. */
  function DaysBeforeYear(year: int): int
  {
    var y := year - 1;
    y * 365 + y / 4 - y / 100 + y / 400
  }

  /** datetime's `_days_before_month`. */
  function DaysBeforeMonth(year: int, month: int): int
    requires 1 <= month <= 12
  {
    var before := match month
      case 1 => 0 case 2 => 31 case 3 => 59 case 4 => 90 case 5 => 120 case 6 => 151
      case 7 => 181 case 8 => 212 case 9 => 243 case 10 => 273 case 11 => 304 case _ => 334;
    before + (if month > 2 && IsLeapYear(year) then 1 else 0)
  }

  /** datetime's `_ymd2ord`: 0001-01-01 is day 1. */
  function Ordinal(d: CivilDate): int
  {
    DaysBeforeYear(d.year) + DaysBeforeMonth(d.year, d.month) + d.day
  }

  function FirstOrdinal(year: int): int
  {
    DaysBeforeYear(year) + 1
  }

  /** 0 is Monday, 6 is Sunday (`date.weekday()`). */
  function Weekday(ordinal: int): int
  {
    (ordinal + 6) % 7
  }

  /** The Monday of week 1 of a year whose January 1 is day `first`. */
  function Week1MondayFrom(first: int): int
  {
    var firstWeekday := Weekday(first);
    if firstWeekday > 3 then first - firstWeekday + 7 else first - firstWeekday
  }

  /** datetime's `_isoweek1monday`: the Monday of week 1 of `year`. */
  function Week1Monday(year: int): int
  {
    Week1MondayFrom(FirstOrdinal(year))
  }

  /**
   * The week number datetime's `isocalendar` computes for day `today` of a
   * year whose week-1 Monday is `current`, with the neighbouring years'
   * week-1 Mondays `previous` and `next`.
   */
  function WeekNumber(today: int, previous: int, current: int, next: int): int
  {
    var week := (today - current) / 7;
    if week < 0 then (today - previous) / 7 + 1
    else if week >= 52 && today >= next then 1
    else week + 1
  }

  /** `date.isocalendar().week`. */
  function IsoWeek(d: CivilDate): (week: int)
    ensures 1 <= week <= 53
  {
    IsoYearBracket(d);
    WeekNumber(Ordinal(d), Week1Monday(d.year - 1), Week1Monday(d.year), Week1Monday(d.year + 1))
  }

  // --------------------------------------------------- calendar lemmas

  lemma DivStep4(x: int)
    ensures x / 4 - (x - 1) / 4 == if x % 4 == 0 then 1 else 0
  {
  }

  lemma DivStep100(x: int)
    ensures x / 100 - (x - 1) / 100 == if x % 100 == 0 then 1 else 0
  {
  }

  lemma DivStep400(x: int)
    ensures x / 400 - (x - 1) / 400 == if x % 400 == 0 then 1 else 0
  {
  }

  lemma Multiple400Is100(y: int)
    requires y % 400 == 0
    ensures y % 100 == 0
  {
    var q := y / 400;
    assert y == 100 * (4 * q) + 0;
  }

  lemma Multiple100Is4(y: int)
    requires y % 100 == 0
    ensures y % 4 == 0
  {
    var q := y / 100;
    assert y == 4 * (25 * q) + 0;
  }

  lemma LeapDivisors(y: int)
    ensures y % 400 == 0 ==> y % 100 == 0
    ensures y % 100 == 0 ==> y % 4 == 0
  {
    if y % 400 == 0 {
      Multiple400Is100(y);
    }
    if y % 100 == 0 {
      Multiple100Is4(y);
    }
  }

  lemma {:induction false} YearLength(y: int)
    ensures FirstOrdinal(y + 1) - FirstOrdinal(y) == if IsLeapYear(y) then 366 else 365
  {
    DivStep4(y);
    DivStep100(y);
    DivStep400(y);
    LeapDivisors(y);
  }

  lemma OrdinalWithinYear(d: CivilDate)
    ensures FirstOrdinal(d.year) <= Ordinal(d) < FirstOrdinal(d.year + 1)
  {
    YearLength(d.year);
  }

  lemma IsMonday(x: int)
    requires Weekday(x) == 0
    ensures x % 7 == 1
  {
  }

  /** Week 1 starts on a Monday and holds the year's first Thursday. */
  lemma Week1MondayFromFacts(first: int)
    ensures Weekday(Week1MondayFrom(first)) == 0
    ensures first <= Week1MondayFrom(first) + 3 <= first + 6
  {
    var q := (first + 6) / 7;
    assert first + 6 == 7 * q + Weekday(first);
  }

  lemma Week1MondayFacts(y: int)
    ensures Weekday(Week1Monday(y)) == 0
    ensures FirstOrdinal(y) <= Week1Monday(y) + 3 <= FirstOrdinal(y) + 6
  {
    Week1MondayFromFacts(FirstOrdinal(y));
  }

  lemma MondayGap(first: int, next: int)
    requires 365 <= next - first <= 366
    ensures 364 <= Week1MondayFrom(next) - Week1MondayFrom(first) <= 371
  {
    Week1MondayFromFacts(first);
    Week1MondayFromFacts(next);
    var a, b := Week1MondayFrom(first), Week1MondayFrom(next);
    IsMonday(a);
    IsMonday(b);
    var qa, qb := a / 7, b / 7;
    assert a == 7 * qa + 1 && b == 7 * qb + 1;
    assert b - a == 7 * (qb - qa);
  }

  lemma Week1MondayStep(y: int)
    ensures 364 <= Week1Monday(y + 1) - Week1Monday(y) <= 371
  {
    YearLength(y);
    MondayGap(FirstOrdinal(y), FirstOrdinal(y + 1));
  }

  lemma {:induction false} Week1MondayMonotone(a: int, b: int)
    requires a <= b
    ensures Week1Monday(a) <= Week1Monday(b)
    decreases b - a
  {
    if a < b {
      Week1MondayStep(a);
      Week1MondayMonotone(a + 1, b);
    }
  }

  /** The facts about the neighbouring ISO years that bound `IsoWeek`. */
  lemma IsoYearBracket(d: CivilDate)
    ensures Week1Monday(d.year - 1) <= Ordinal(d) < FirstOrdinal(d.year + 1)
    ensures FirstOrdinal(d.year + 1) <= Week1Monday(d.year + 1) + 3
    ensures 364 <= Week1Monday(d.year) - Week1Monday(d.year - 1) <= 371
    ensures 364 <= Week1Monday(d.year + 1) - Week1Monday(d.year) <= 371
  {
    OrdinalWithinYear(d);
    YearLength(d.year - 1);
    Week1MondayFacts(d.year - 1);
    Week1MondayFacts(d.year + 1);
    Week1MondayStep(d.year - 1);
    Week1MondayStep(d.year);
  }

  /** A day lies in the ISO year `y` when it falls between two week-1 Mondays. */
  ghost predicate InIsoYear(ordinal: int, y: int)
  {
    Week1Monday(y) <= ordinal < Week1Monday(y + 1)
  }

  /** A day lies in at most one ISO year. */
  lemma IsoYearUnique(ordinal: int, a: int, b: int)
    requires InIsoYear(ordinal, a) && InIsoYear(ordinal, b)
    ensures a == b
  {
    if a < b {
      Week1MondayMonotone(a + 1, b);
    } else if b < a {
      Week1MondayMonotone(b + 1, a);
    }
  }

  /**
   * datetime's three branches, one per ISO year a day can lie in: each
   * counts weeks from the week-1 Monday of that ISO year.
   */
  lemma WeekNumberInPreviousYear(today: int, previous: int, current: int, next: int)
    requires previous <= today < current
    ensures WeekNumber(today, previous, current, next) == (today - previous) / 7 + 1
  {
  }

  lemma WeekNumberInOwnYear(today: int, previous: int, current: int, next: int)
    requires current <= today < next
    ensures WeekNumber(today, previous, current, next) == (today - current) / 7 + 1
  {
  }

  lemma WeekNumberInNextYear(today: int, previous: int, current: int, next: int)
    requires 364 <= next - current && next <= today < next + 3
    ensures WeekNumber(today, previous, current, next) == (today - next) / 7 + 1
  {
  }

  /** The ISO year of a day is its calendar year or a neighbouring one. */
  lemma IsoYearIsNeighbour(d: CivilDate, y: int)
    requires InIsoYear(Ordinal(d), y)
    ensures d.year - 1 <= y <= d.year + 1
  {
    IsoYearBracket(d);
    Week1MondayStep(d.year + 1);
    if y < d.year - 1 {
      Week1MondayMonotone(y + 1, d.year - 1);
    } else if y > d.year + 1 {
      Week1MondayMonotone(d.year + 2, y);
    }
  }

  /** A day of the ISO year before its calendar year counts from that year's week-1 Monday. */
  lemma CountsFromPreviousYear(d: CivilDate)
    requires Week1Monday(d.year - 1) <= Ordinal(d) < Week1Monday(d.year)
    ensures IsoWeek(d) == (Ordinal(d) - Week1Monday(d.year - 1)) / 7 + 1
  {
    WeekNumberInPreviousYear(Ordinal(d), Week1Monday(d.year - 1), Week1Monday(d.year), Week1Monday(d.year + 1));
  }

  /** A day of the ISO year equal to its calendar year counts from that year's week-1 Monday. */
  lemma CountsFromOwnYear(d: CivilDate)
    requires Week1Monday(d.year) <= Ordinal(d) < Week1Monday(d.year + 1)
    ensures IsoWeek(d) == (Ordinal(d) - Week1Monday(d.year)) / 7 + 1
  {
    WeekNumberInOwnYear(Ordinal(d), Week1Monday(d.year - 1), Week1Monday(d.year), Week1Monday(d.year + 1));
  }

  /** A day of the ISO year after its calendar year counts from the next week-1 Monday. */
  lemma CountsFromNextYear(d: CivilDate)
    requires Week1Monday(d.year + 1) <= Ordinal(d)
    ensures IsoWeek(d) == (Ordinal(d) - Week1Monday(d.year + 1)) / 7 + 1
  {
    IsoYearBracket(d);
    WeekNumberInNextYear(Ordinal(d), Week1Monday(d.year - 1), Week1Monday(d.year), Week1Monday(d.year + 1));
  }

  lemma IsoWeekCountsFromIsoYear(d: CivilDate, y: int)
    requires InIsoYear(Ordinal(d), y)
    ensures IsoWeek(d) == (Ordinal(d) - Week1Monday(y)) / 7 + 1
  {
    IsoYearIsNeighbour(d, y);
    if y == d.year - 1 {
      assert y + 1 == d.year;
      CountsFromPreviousYear(d);
    } else if y == d.year {
      CountsFromOwnYear(d);
    } else {
      CountsFromNextYear(d);
    }
  }

  /** The Thursday of the Monday-to-Sunday week that holds `ordinal`. */
  function ThursdayOf(ordinal: int): int
  {
    ordinal - Weekday(ordinal) + 3
  }

  /**
   * The ISO 8601 rule, stated independently of datetime's algorithm: a week
   * belongs to the year that holds its Thursday, and is numbered by how many
   * Thursdays of that year precede or are that Thursday.
   */
  lemma IsoWeekIsThursdayCount(d: CivilDate, y: int)
    requires FirstOrdinal(y) <= ThursdayOf(Ordinal(d)) < FirstOrdinal(y + 1)
    ensures IsoWeek(d) == (ThursdayOf(Ordinal(d)) - FirstOrdinal(y)) / 7 + 1
  {
    Week1MondayFacts(y);
    Week1MondayFacts(y + 1);
    ThursdayArithmetic(Ordinal(d), FirstOrdinal(y), Week1Monday(y), Week1Monday(y + 1), FirstOrdinal(y + 1));
    IsoWeekCountsFromIsoYear(d, y);
  }

  /**
   * A day whose Thursday lies in the year starting at `first` lies between
   * that year's week-1 Monday `monday` and the next one, `nextMonday`, and
   * counting weeks from either gives the same number.
   */
  lemma ThursdayArithmetic(today: int, first: int, monday: int, nextMonday: int, nextFirst: int)
    requires Weekday(monday) == 0 && Weekday(nextMonday) == 0
    requires first <= monday + 3 <= first + 6
    requires nextFirst <= nextMonday + 3
    requires first <= ThursdayOf(today) < nextFirst
    ensures monday <= today < nextMonday
    ensures (today - monday) / 7 == (ThursdayOf(today) - first) / 7
  {
    var weekMonday := today - Weekday(today);
    assert Weekday(weekMonday) == 0 by {
      var q := (today + 6) / 7;
      assert today + 6 == 7 * q + Weekday(today);
    }
    IsMonday(weekMonday);
    IsMonday(monday);
    IsMonday(nextMonday);
    var k := weekMonday / 7 - monday / 7;
    assert weekMonday - monday == 7 * k;
    var k2 := nextMonday / 7 - weekMonday / 7;
    assert nextMonday - weekMonday == 7 * k2;
  }

  /** The Thursday of a date's week lies in the date's year or a neighbour. */
  lemma ThursdayYearExists(d: CivilDate)
    ensures exists y ::
              && d.year - 1 <= y <= d.year + 1
              && FirstOrdinal(y) <= ThursdayOf(Ordinal(d)) < FirstOrdinal(y + 1)
  {
    OrdinalWithinYear(d);
    YearLength(d.year - 1);
    YearLength(d.year + 1);
    var t := ThursdayOf(Ordinal(d));
    if t < FirstOrdinal(d.year) {
      assert FirstOrdinal(d.year - 1) <= t < FirstOrdinal(d.year - 1 + 1);
    } else if t < FirstOrdinal(d.year + 1) {
      assert FirstOrdinal(d.year) <= t < FirstOrdinal(d.year + 1);
    } else {
      assert FirstOrdinal(d.year + 1) <= t < FirstOrdinal(d.year + 1 + 1);
    }
  }

  /**
   * Every day lies in some ISO year: the one that holds the Thursday of its
   * week. With IsoYearUnique, a day lies in exactly one ISO year.
   */
  lemma IsoYearExists(d: CivilDate)
    ensures exists y :: d.year - 1 <= y <= d.year + 1 && InIsoYear(Ordinal(d), y)
  {
    ThursdayYearExists(d);
    var y :| d.year - 1 <= y <= d.year + 1 && FirstOrdinal(y) <= ThursdayOf(Ordinal(d)) < FirstOrdinal(y + 1);
    Week1MondayFacts(y);
    Week1MondayFacts(y + 1);
    ThursdayArithmetic(Ordinal(d), FirstOrdinal(y), Week1Monday(y), Week1Monday(y + 1), FirstOrdinal(y + 1));
    assert InIsoYear(Ordinal(d), y);
  }

  /** January 4 always lies in week 1 of its year. */
  lemma January4InWeek1(y: int)
    requires 1 <= y <= 9999
    ensures IsoWeek(Date(y, 1, 4)) == 1
  {
    var d: CivilDate := Date(y, 1, 4);
    Week1MondayFacts(y);
    Week1MondayStep(y);
    IsoWeekCountsFromIsoYear(d, y);
  }
}
