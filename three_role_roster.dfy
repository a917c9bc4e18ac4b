/**
 * The three-role roster (`scripts/personalschedule.py`): each week any
 * number of kitchen cleaners, one for the toilets and one for the showers.
 * Every line of the roster text whose comma-separated fields are all
 * non-empty is a week; all other lines are dropped, and no header is
 * skipped.
 */
module ThreeRoleRoster {
  import opened Outcomes
  import opened Text
  import opened Dates
  import opened Events
  import opened Filenames
  import Grouping

  const KitchenHeading := "Keuken \U{1F373}"
  const ToiletsHeading := "Wc's \U{1F6BD}"
  const ShowersHeading := "Douches \U{1F6BF}"

  /** The `"- name"` line of every kitchen cleaner, in order. */
  function KitchenLines(kitchen: seq<string>): (lines: seq<string>)
    ensures |lines| == |kitchen|
    ensures forall i :: 0 <= i < |kitchen| ==> lines[i] == "- " + kitchen[i]
  {
    seq(|kitchen|, i requires 0 <= i < |kitchen| => "- " + kitchen[i])
  }

  /** One week of cleaning. */
  datatype WeekCleaning = WeekCleaning(
    weekStart: CivilDate,
    kitchen: seq<string>,
    toilets: string,
    showers: string)
  {
    /** `cleaners()`: the kitchen names in order, then toilets and showers. */
    function Cleaners(): (names: seq<string>)
      ensures |names| == |kitchen| + 2
      ensures names[..|kitchen|] == kitchen
      ensures names[|kitchen|] == toilets && names[|kitchen| + 1] == showers
    {
      kitchen + [toilets, showers]
    }

    /** `person in week`: the person holds one of the three roles. */
    function Contains(person: string): (present: bool)
      ensures present <==> person in kitchen || person == toilets || person == showers
    {
      person in Cleaners()
    }

    /**
     * `jobname(person)`: the first role, in the order kitchen, toilets,
     * showers, that the person holds; ValueError for anyone else.
     */
    function JobName(person: string): (r: Result<string>)
      ensures r.Ok? <==> Contains(person)
      ensures r.Err? ==> r.error == NotScheduled
      ensures r == Ok("Keuken") <==> person in kitchen
      ensures r == Ok("Wc's") <==> person !in kitchen && person == toilets
      ensures r == Ok("Douches") <==> person !in kitchen && person != toilets && person == showers
    {
      if person in kitchen then Ok("Keuken")
      else if person == toilets then Ok("Wc's")
      else if person == showers then Ok("Douches")
      else Err(NotScheduled)
    }

    /**
     * The lines of the description under the three given section headings:
     * the ISO week line, the kitchen section with one line per kitchen
     * cleaner, then the toilets and the showers sections.
     */
    function DescriptionLinesWith(kitchenHeading: string, toiletsHeading: string, showersHeading: string): (lines: seq<string>)
      ensures |lines| == |kitchen| + 9
      ensures lines[0] == "TAKEN WEEK " + NatToString(IsoWeek(weekStart))
      ensures lines[1] == "" && lines[2] == kitchenHeading
      ensures lines[3..3 + |kitchen|] == KitchenLines(kitchen)
      ensures lines[3 + |kitchen|..] == ["", toiletsHeading, "- " + toilets, "", showersHeading, "- " + showers]
    {
      var head := ["TAKEN WEEK " + NatToString(IsoWeek(weekStart)), "", kitchenHeading];
      var tail := ["", toiletsHeading, "- " + toilets, "", showersHeading, "- " + showers];
      var lines := head + KitchenLines(kitchen) + tail;
      assert lines[3..3 + |kitchen|] == KitchenLines(kitchen);
      assert lines[3 + |kitchen|..] == tail;
      lines
    }

    function DescriptionLines(): seq<string>
    {
      DescriptionLinesWith(KitchenHeading, ToiletsHeading, ShowersHeading)
    }

    /**
     * `str(week)`: the description lines joined by newlines. When no name
     * holds a newline, splitting it on newlines gives the lines back, and it
     * ends with the showers line, not with a newline.
     */
    function Describe(): (description: string)
      ensures description == Join(DescriptionLines(), '\n')
      ensures NamesAreLines(this) ==> Split(description, '\n') == DescriptionLines()
      ensures NamesAreLines(this) ==>
        && |description| >= |showers| + 3
        && description[|description| - |showers| - 3..] == "\n- " + showers
    {
      var description := Join(DescriptionLines(), '\n');
      if NamesAreLines(this) then
        DescriptionSplitsIntoLines(this, KitchenHeading, ToiletsHeading, ShowersHeading);
        description
      else
        description
    }
  }

  /** No name of the week holds a newline (true of every name read from a text line). */
  predicate NamesAreLines(w: WeekCleaning)
  {
    && (forall k :: 0 <= k < |w.kitchen| ==> '\n' !in w.kitchen[k])
    && '\n' !in w.toilets && '\n' !in w.showers
  }

  /**
   * Splitting the description on newlines gives back its lines: there is
   * no trailing newline, and the text ends with the showers line.
   */
  lemma {:induction false} DescriptionSplitsIntoLines(w: WeekCleaning, kitchenHeading: string, toiletsHeading: string, showersHeading: string)
    requires NamesAreLines(w)
    requires '\n' !in kitchenHeading && '\n' !in toiletsHeading && '\n' !in showersHeading
    ensures var lines := w.DescriptionLinesWith(kitchenHeading, toiletsHeading, showersHeading);
      && Split(Join(lines, '\n'), '\n') == lines
      && Join(lines, '\n') == Join(lines[..|lines| - 1], '\n') + "\n" + "- " + w.showers
    ensures var text := Join(w.DescriptionLinesWith(kitchenHeading, toiletsHeading, showersHeading), '\n');
      && |text| >= |w.showers| + 3
      && text[|text| - |w.showers| - 3..] == "\n- " + w.showers
  {
    var lines := w.DescriptionLinesWith(kitchenHeading, toiletsHeading, showersHeading);
    var n := |w.kitchen|;
    assert '\n' !in NatToString(IsoWeek(w.weekStart));
    forall k | 0 <= k < |lines|
      ensures '\n' !in lines[k]
    {
      if 3 <= k < 3 + n {
        assert lines[k] == lines[3..3 + n][k - 3];
      } else if k >= 3 + n {
        assert lines[k] == lines[3 + n..][k - 3 - n];
      }
    }
    SplitJoin(lines, '\n');
    DescriptionEndsWithShowers(w, kitchenHeading, toiletsHeading, showersHeading);
  }

  /** The description ends with a newline and the showers line, whatever the headings. */
  lemma DescriptionEndsWithShowers(w: WeekCleaning, kitchenHeading: string, toiletsHeading: string, showersHeading: string)
    ensures var lines := w.DescriptionLinesWith(kitchenHeading, toiletsHeading, showersHeading);
      Join(lines, '\n') == Join(lines[..|lines| - 1], '\n') + "\n" + "- " + w.showers
    ensures var text := Join(w.DescriptionLinesWith(kitchenHeading, toiletsHeading, showersHeading), '\n');
      && |text| >= |w.showers| + 3
      && text[|text| - |w.showers| - 3..] == "\n- " + w.showers
  {
    var lines := w.DescriptionLinesWith(kitchenHeading, toiletsHeading, showersHeading);
    var n := |w.kitchen|;
    assert lines[|lines| - 1] == lines[3 + n..][5];
    JoinAppend(lines[..|lines| - 1], [lines[|lines| - 1]], '\n');
    assert lines[..|lines| - 1] + [lines[|lines| - 1]] == lines;
    JoinEndsWithLast(lines, '\n');
  }

  // ------------------------------------------------------------- parsing

  /** Every field is non-empty (`all(fields)`). */
  predicate AllFilled(fields: seq<string>)
  {
    forall k :: 0 <= k < |fields| ==> fields[k] != ""
  }

  /** The split lines that survive the filter, in their original order. */
  function KeptRows(lines: seq<string>): (rows: seq<seq<string>>)
    ensures |rows| <= |lines|
    ensures forall k :: 0 <= k < |rows| ==> AllFilled(rows[k])
  {
    if lines == [] then []
    else
      var fields := Split(lines[0], ',');
      (if AllFilled(fields) then [fields] else []) + KeptRows(lines[1..])
  }

  /** Filtering is line by line: the rows of two texts are the rows of each. */
  lemma {:induction false} KeptRowsAppend(a: seq<string>, b: seq<string>)
    ensures KeptRows(a + b) == KeptRows(a) + KeptRows(b)
  {
    if a != [] {
      assert (a + b)[0] == a[0];
      assert (a + b)[1..] == a[1..] + b;
      KeptRowsAppend(a[1..], b);
    } else {
      assert a + b == b;
    }
  }

  /** A single line is kept, as its split fields, exactly when no field is empty. */
  lemma KeptRowsOfLine(line: string)
    ensures KeptRows([line]) == if AllFilled(Split(line, ',')) then [Split(line, ',')] else []
  {
    assert [line][1..] == [];
  }

  /** Blank lines and lines with an empty field (such as `a,,b`) are dropped. */
  lemma BlankLineDropped(line: string)
    requires exists k :: 0 <= k < |Split(line, ',')| && Split(line, ',')[k] == ""
    ensures KeptRows([line]) == []
  {
    KeptRowsOfLine(line);
  }

  /**
   * One kept row against `begin, _, *kitchen, toilets, showers`: fewer than
   * four fields cannot be unpacked, and the start date must be a
   * `DD-MM-YYYY` date.
   */
  function ParseRow(row: seq<string>): (r: Result<WeekCleaning>)
    ensures r == Err(UnpackError) <==> |row| < 4
    ensures r == Err(DateError) <==> |row| >= 4 && ParseDayMonthYear(row[0]).None?
    ensures r.Ok? ==>
      && |row| >= 4
      && ParseDayMonthYear(row[0]) == Some(r.value.weekStart)
      && r.value.kitchen == row[2..|row| - 2]
      && r.value.toilets == row[|row| - 2]
      && r.value.showers == row[|row| - 1]
  {
    if |row| < 4 then Err(UnpackError)
    else match ParseDayMonthYear(row[0])
      case None => Err(DateError)
      case Some(start) =>
        var n := |row|;
        Ok(WeekCleaning(start, row[2..n - 2], row[n - 2], row[n - 1]))
  }

  /** A parsed week's cleaners are the row's fields after the start and end dates. */
  lemma CleanersAreTrailingFields(row: seq<string>)
    requires ParseRow(row).Ok?
    ensures ParseRow(row).value.Cleaners() == row[2..]
  {
    var n := |row|;
    assert row[2..] == row[2..n - 2] + [row[n - 2], row[n - 1]];
  }

  /** The schedule the rows describe, or the error of the first bad row. */
  function ScheduleOf(rows: seq<seq<string>>): Result<seq<WeekCleaning>>
  {
    if rows == [] then Ok([])
    else match ParseRow(rows[0])
      case Err(e) => Err(e)
      case Ok(w) =>
        match ScheduleOf(rows[1..])
        case Err(e) => Err(e)
        case Ok(rest) => Ok([w] + rest)
  }

  function Prefixed(weeks: seq<WeekCleaning>, r: Result<seq<WeekCleaning>>): Result<seq<WeekCleaning>>
  {
    if r.Ok? then Ok(weeks + r.value) else r
  }

  /**
   * `csv2schedule`: the kept rows, each turned into a week in order; the
   * first row that cannot be unpacked or whose date does not parse aborts
   * the run.
   */
  method Csv2Schedule(lines: seq<string>) returns (r: Result<seq<WeekCleaning>>)
    ensures r == ScheduleOf(KeptRows(lines))
  {
    var weeks := KeptRows(lines);
    var schedule: seq<WeekCleaning> := [];
    assert weeks[0..] == weeks;
    assert ScheduleOf(weeks).Ok? ==> [] + ScheduleOf(weeks).value == ScheduleOf(weeks).value;
    for i := 0 to |weeks|
      invariant ScheduleOf(weeks) == Prefixed(schedule, ScheduleOf(weeks[i..]))
    {
      var row := weeks[i];
      assert weeks[i..][1..] == weeks[i + 1..];
      var parsed := ParseRow(row);
      if parsed.Err? {
        return Err(parsed.error);
      }
      if ScheduleOf(weeks[i + 1..]).Ok? {
        var rest := ScheduleOf(weeks[i + 1..]).value;
        assert schedule + ([parsed.value] + rest) == (schedule + [parsed.value]) + rest;
      }
      schedule := schedule + [parsed.value];
    }
    assert weeks[|weeks|..] == [];
    assert schedule + [] == schedule;
    return Ok(schedule);
  }

  /** A successful parse is exactly one week per row, in row order. */
  lemma {:induction false} ScheduleOfOk(rows: seq<seq<string>>)
    ensures ScheduleOf(rows).Ok? <==> forall k :: 0 <= k < |rows| ==> ParseRow(rows[k]).Ok?
    ensures ScheduleOf(rows).Ok? ==>
      var weeks := ScheduleOf(rows).value;
      && |weeks| == |rows|
      && forall k :: 0 <= k < |rows| ==> ParseRow(rows[k]) == Ok(weeks[k])
  {
    if rows != [] {
      ScheduleOfOk(rows[1..]);
      assert forall k :: 1 <= k < |rows| ==> rows[k] == rows[1..][k - 1];
    }
  }

  /** A failed parse reports the error of the first row that does not parse. */
  lemma {:induction false} ScheduleOfErr(rows: seq<seq<string>>)
    requires ScheduleOf(rows).Err?
    ensures exists k ::
      && 0 <= k < |rows|
      && ParseRow(rows[k]) == Err(ScheduleOf(rows).error)
      && forall j :: 0 <= j < k ==> ParseRow(rows[j]).Ok?
  {
    if ParseRow(rows[0]).Ok? {
      ScheduleOfErr(rows[1..]);
      var k :| 0 <= k < |rows[1..]|
        && ParseRow(rows[1..][k]) == Err(ScheduleOf(rows[1..]).error)
        && forall j :: 0 <= j < k ==> ParseRow(rows[1..][j]).Ok?;
      assert ParseRow(rows[k + 1]) == Err(ScheduleOf(rows).error);
      forall j | 0 <= j < k + 1
        ensures ParseRow(rows[j]).Ok?
      {
        if j > 0 {
          assert rows[j] == rows[1..][j - 1];
        }
      }
    } else {
      assert ParseRow(rows[0]) == Err(ScheduleOf(rows).error);
    }
  }

  // ------------------------------------------------------------- person index

  function CleanersOf(w: WeekCleaning): seq<string>
  {
    w.Cleaners()
  }

  /** Every week of a person's schedule has a job for that person. */
  lemma PersonalWeeksHaveJobs(schedule: seq<WeekCleaning>, p: string)
    ensures var mine := Grouping.PersonalSchedule(schedule, CleanersOf, p);
      forall k :: 0 <= k < |mine| ==> mine[k].JobName(p).Ok?
  {
    Grouping.PersonalWeeksListPerson(schedule, CleanersOf, p);
  }

  // ------------------------------------------------------------- calendars

  /**
   * One pass of the `create_calendar` loop: the job name is looked up
   * first; the description cannot fail.
   */
  function PersonalEvent(week: WeekCleaning, person: string): (r: Result<Event>)
    ensures r.Ok? <==> week.Contains(person)
    ensures r.Err? ==> r.error == NotScheduled
    ensures r.Ok? ==> r.value == WeekEvent("Weektaak: " + week.JobName(person).value, week.weekStart, week.Describe())
  {
    var job :- week.JobName(person);
    Ok(WeekEvent("Weektaak: " + job, week.weekStart, week.Describe()))
  }

  /**
   * `create_calendar`: one event per week of the personal schedule, in
   * order, written to the templated file name. A week without a job for the
   * person aborts first; a bad file name template is found only after the
   * loop.
   */
  method CreateCalendar(person: string, personalSchedule: seq<WeekCleaning>, filename: string)
    returns (r: Result<CalendarFile>)
    requires BracesArePlaceholders(filename)
    ensures r.Ok? <==>
      && (forall k :: 0 <= k < |personalSchedule| ==> personalSchedule[k].Contains(person))
      && FormatFilenameTemplate(filename, person).Ok?
    ensures r.Ok? ==>
      && r.value.path == FormatFilenameTemplate(filename, person).value
      && |r.value.events| == |personalSchedule|
      && forall k :: 0 <= k < |personalSchedule| ==>
        r.value.events[k] == PersonalEvent(personalSchedule[k], person).value
    ensures r.Err? && (forall k :: 0 <= k < |personalSchedule| ==> personalSchedule[k].Contains(person))
      ==> r == Err(FormatFilenameTemplate(filename, person).error)
    ensures r.Err? && !(forall k :: 0 <= k < |personalSchedule| ==> personalSchedule[k].Contains(person))
      ==> r == Err(NotScheduled)
  {
    var events :- BuildEvents(personalSchedule, w => PersonalEvent(w, person));
    var path :- FormatFilenameTemplate(filename, person);
    return Ok(CalendarFile(path, events));
  }

  /**
   * `admin_calendar`: one event per week of the whole schedule, in order,
   * written to `filename` as given; it cannot fail.
   */
  method AdminCalendar(schedule: seq<WeekCleaning>, filename: string) returns (cal: CalendarFile)
    ensures cal.path == filename
    ensures |cal.events| == |schedule|
    ensures forall k :: 0 <= k < |schedule| ==>
      cal.events[k] == WeekEvent("Weektaak", schedule[k].weekStart, schedule[k].Describe())
  {
    var built := BuildEvents(schedule, (w: WeekCleaning) => Ok(WeekEvent("Weektaak", w.weekStart, w.Describe())));
    cal := CalendarFile(filename, built.value);
  }
}
