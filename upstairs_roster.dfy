/**
 * The four-role roster (`personalschedule.py`): each week three or more
 * kitchen cleaners, one for the toilets, one for the showers and one for the
 * bathroom upstairs. The roster text is parsed row by row after a header
 * line and parsing stops at the first row whose start date is blank.
 *
 * The two roster scripts are independent copies of each other, so the
 * helpers `Prefixed`, `CleanersOf` and `PersonalWeeksHaveJobs` appear in
 * both modules, each over its own week type.
 */
module UpstairsRoster {
  import opened Outcomes
  import opened Text
  import opened Dates
  import opened Events
  import opened Filenames
  import Grouping

  const KitchenHeading := "Keuken \U{1F373}"
  const ToiletsHeading := "Wc's \U{1F6BD}"
  const ShowersHeading := "Douches \U{1F6BF}"
  const UpstairsHeading := "Badkamer boven \U{1F51D}"
  /**
   * The closing line, "Zie https://yochem.nl/weektaak/ voor het hele schema".
   * It is written as short pieces so the verifier can see, piece by piece,
   * that it holds no newline; one long literal is out of its reach.
   */
  const ScheduleLink := "Zie " + "https://" + "yochem.nl/" + "weektaak/" + " voor het " + "hele schema"

  /** One week of cleaning; an empty `upstairs` means nobody cleans upstairs. */
  datatype WeekCleaning = WeekCleaning(
    weekStart: CivilDate,
    kitchen: seq<string>,
    toilets: string,
    showers: string,
    upstairs: string)
  {
    /** `cleaners()`: the kitchen names in order, then the three single roles. */
    function Cleaners(): (names: seq<string>)
      ensures |names| == |kitchen| + 3
      ensures names[..|kitchen|] == kitchen
      ensures names[|kitchen|] == toilets && names[|kitchen| + 1] == showers && names[|kitchen| + 2] == upstairs
    {
      kitchen + [toilets, showers, upstairs]
    }

    /** `person in week`: the person holds one of the four roles. */
    function Contains(person: string): (present: bool)
      ensures present <==> person in kitchen || person == toilets || person == showers || person == upstairs
    {
      person in Cleaners()
    }

    /**
     * `jobname(person)`: the first role, in the order kitchen, toilets,
     * showers, upstairs, that the person holds; ValueError for anyone else.
     */
    function JobName(person: string): (r: Result<string>)
      ensures r.Ok? <==> Contains(person)
      ensures r.Err? ==> r.error == NotScheduled
      ensures r == Ok("Keuken") <==> person in kitchen
      ensures r == Ok("Wc's") <==> person !in kitchen && person == toilets
      ensures r == Ok("Douches") <==> person !in kitchen && person != toilets && person == showers
      ensures r == Ok("Boven") <==> person !in kitchen && person != toilets && person != showers && person == upstairs
    {
      if person in kitchen then Ok("Keuken")
      else if person == toilets then Ok("Wc's")
      else if person == showers then Ok("Douches")
      else if person == upstairs then Ok("Boven")
      else Err(NotScheduled)
    }

    /** The first block of `str(week)`: the ISO week heading and the three fixed roles. */
    function MainLines(): (lines: seq<string>)
      requires |kitchen| >= 3
    {
      ["", "Week " + NatToString(IsoWeek(weekStart)), "",
       KitchenHeading, "- " + kitchen[0], "- " + kitchen[1], "- " + kitchen[2], "",
       ToiletsHeading, "- " + toilets, "",
       ShowersHeading, "- " + showers]
    }

    /** The block added when somebody cleans upstairs. */
    function UpstairsLines(): seq<string>
    {
      if upstairs != "" then ["", UpstairsHeading, "- " + upstairs] else []
    }

    /**
     * The lines of `str(week)`: a blank line, the ISO week heading, the
     * first three kitchen names, toilets and showers, the upstairs section
     * when somebody cleans upstairs, and the link to the full schedule.
     */
    function DescriptionLines(): (lines: seq<string>)
      requires |kitchen| >= 3
      ensures |lines| == (if upstairs == "" then 15 else 18)
      ensures lines[0] == "" && lines[1] == "Week " + NatToString(IsoWeek(weekStart))
      ensures lines[2] == "" && lines[7] == "" && lines[10] == "" && lines[13] == ""
      ensures lines[3] == KitchenHeading
      ensures lines[4] == "- " + kitchen[0] && lines[5] == "- " + kitchen[1] && lines[6] == "- " + kitchen[2]
      ensures lines[8] == ToiletsHeading && lines[9] == "- " + toilets
      ensures lines[11] == ShowersHeading && lines[12] == "- " + showers
      ensures upstairs != "" ==> lines[14] == UpstairsHeading && lines[15] == "- " + upstairs
      ensures lines[|lines| - 2] == "" && lines[|lines| - 1] == ScheduleLink
    {
      var main, closing := MainLines(), ["", ScheduleLink];
      assert |main| == 13;
      if upstairs == "" then
        assert UpstairsLines() == [];
        main + closing
      else
        main + UpstairsLines() + closing
    }

    /**
     * `str(week)`: the description lines joined by newlines. It reads the
     * first three kitchen names, so a shorter kitchen list is an IndexError.
     */
    function Describe(): (r: Result<string>)
      ensures r.Err? <==> |kitchen| < 3
      ensures r.Err? ==> r.error == IndexError
      ensures r.Ok? ==> r.value == Join(DescriptionLines(), '\n')
    {
      if |kitchen| < 3 then Err(IndexError) else Ok(Join(DescriptionLines(), '\n'))
    }
  }

  /** The upstairs heading appears exactly when somebody cleans upstairs. */
  lemma UpstairsSectionOnlyWhenAssigned(w: WeekCleaning)
    requires |w.kitchen| >= 3
    ensures UpstairsHeading in w.DescriptionLines() <==> w.upstairs != ""
  {
    var lines := w.DescriptionLines();
    if w.upstairs == "" {
      forall k | 0 <= k < |lines|
        ensures lines[k] != UpstairsHeading
      {
        assert UpstairsHeading[0] == 'B';
        if k == 1 {
          assert lines[k][0] == 'W';
        } else if k in {4, 5, 6, 9, 12} {
          assert lines[k][0] == '-';
        }
      }
    } else {
      assert lines[14] == UpstairsHeading;
    }
  }

  lemma MainLinesAreLines(w: WeekCleaning)
    requires |w.kitchen| >= 3
    requires forall k :: 0 <= k < |w.kitchen| ==> '\n' !in w.kitchen[k]
    requires '\n' !in w.toilets && '\n' !in w.showers
    ensures SingleLines(w.MainLines())
  {
    assert '\n' !in NatToString(IsoWeek(w.weekStart));
  }

  lemma LinkIsLine()
    ensures '\n' !in ScheduleLink
  {
  }

  /** No line of the description holds a newline when no name does. */
  lemma DescriptionLinesAreLines(w: WeekCleaning)
    requires |w.kitchen| >= 3
    requires forall k :: 0 <= k < |w.kitchen| ==> '\n' !in w.kitchen[k]
    requires '\n' !in w.toilets && '\n' !in w.showers && '\n' !in w.upstairs
    ensures SingleLines(w.DescriptionLines())
  {
    MainLinesAreLines(w);
    assert SingleLines(w.UpstairsLines());
    LinkIsLine();
    assert SingleLines(["", ScheduleLink]);
    SingleLinesConcat(w.MainLines(), w.UpstairsLines());
    SingleLinesConcat(w.MainLines() + w.UpstairsLines(), ["", ScheduleLink]);
  }

  /**
   * The description splits back into its lines, and it ends with a newline
   * followed by the link to the full schedule.
   */
  lemma DescriptionEndsWithLink(w: WeekCleaning)
    requires |w.kitchen| >= 3
    requires forall k :: 0 <= k < |w.kitchen| ==> '\n' !in w.kitchen[k]
    requires '\n' !in w.toilets && '\n' !in w.showers && '\n' !in w.upstairs
    ensures Split(w.Describe().value, '\n') == w.DescriptionLines()
    ensures var lines := w.DescriptionLines();
      w.Describe().value == Join(lines[..|lines| - 1], '\n') + "\n" + ScheduleLink
  {
    var lines := w.DescriptionLines();
    DescriptionLinesAreLines(w);
    assert forall k :: 0 <= k < |lines| ==> '\n' !in lines[k];
    SplitJoin(lines, '\n');
    JoinAppend(lines[..|lines| - 1], [ScheduleLink], '\n');
    assert lines[..|lines| - 1] + [ScheduleLink] == lines;
  }

  // ------------------------------------------------------------- parsing

  /** What one data row of the roster is to `csv2schedule`. */
  datatype RowOutcome = Week(week: WeekCleaning) | Stop | Fail(error: Error)

  /**
   * One split row against `begin, _, *kitchen, toilets, showers, upstairs`:
   * fewer than five fields cannot be unpacked; a blank start date ends the
   * schedule; otherwise the start date must be a `DD-MM-YYYY` date.
   */
  function ParseRow(row: seq<string>): (o: RowOutcome)
    ensures o == Fail(UnpackError) <==> |row| < 5
    ensures o == Fail(DateError) <==> |row| >= 5 && row[0] != "" && ParseDayMonthYear(row[0]).None?
    ensures o.Stop? <==> |row| >= 5 && row[0] == ""
    ensures o.Week? ==>
      && |row| >= 5
      && ParseDayMonthYear(row[0]) == Some(o.week.weekStart)
      && o.week.kitchen == row[2..|row| - 3]
      && o.week.toilets == row[|row| - 3]
      && o.week.showers == row[|row| - 2]
      && o.week.upstairs == row[|row| - 1]
  {
    if |row| < 5 then Fail(UnpackError)
    else if row[0] == "" then Stop
    else match ParseDayMonthYear(row[0])
      case None => Fail(DateError)
      case Some(start) =>
        var n := |row|;
        Week(WeekCleaning(start, row[2..n - 3], row[n - 3], row[n - 2], row[n - 1]))
  }

  /** A parsed week's cleaners are the row's fields after the start and end dates. */
  lemma CleanersAreTrailingFields(row: seq<string>)
    requires ParseRow(row).Week?
    ensures ParseRow(row).week.Cleaners() == row[2..]
  {
    var n := |row|;
    assert row[2..] == row[2..n - 3] + [row[n - 3], row[n - 2], row[n - 1]];
  }

  /** The rows after the header line, each split on commas. */
  function DataRows(lines: seq<string>): (rows: seq<seq<string>>)
    ensures |rows| == if lines == [] then 0 else |lines| - 1
    ensures forall k :: 0 <= k < |rows| ==> rows[k] == Split(lines[k + 1], ',')
  {
    if lines == [] then [] else seq(|lines| - 1, k requires 0 <= k < |lines| - 1 => Split(lines[k + 1], ','))
  }

  /** The schedule the rows describe, or the error of the first bad row. */
  function ScheduleOf(rows: seq<seq<string>>): Result<seq<WeekCleaning>>
  {
    if rows == [] then Ok([])
    else match ParseRow(rows[0])
      case Fail(e) => Err(e)
      case Stop => Ok([])
      case Week(w) =>
        match ScheduleOf(rows[1..])
        case Err(e) => Err(e)
        case Ok(rest) => Ok([w] + rest)
  }

  function Prefixed(weeks: seq<WeekCleaning>, r: Result<seq<WeekCleaning>>): Result<seq<WeekCleaning>>
  {
    if r.Ok? then Ok(weeks + r.value) else r
  }

  /**
   * `csv2schedule`: skip the header line, then turn rows into weeks in order
   * until a row with a blank start date; the first row that cannot be
   * unpacked or whose date does not parse aborts the run.
   */
  method Csv2Schedule(lines: seq<string>) returns (r: Result<seq<WeekCleaning>>)
    ensures r == ScheduleOf(DataRows(lines))
  {
    var weeks := DataRows(lines);
    var schedule: seq<WeekCleaning> := [];
    var i := 0;
    assert weeks[i..] == weeks;
    assert ScheduleOf(weeks).Ok? ==> [] + ScheduleOf(weeks).value == ScheduleOf(weeks).value;
    while i < |weeks|
      invariant 0 <= i <= |weeks|
      invariant ScheduleOf(weeks) == Prefixed(schedule, ScheduleOf(weeks[i..]))
    {
      var row := weeks[i];
      assert weeks[i..][1..] == weeks[i + 1..];
      if |row| < 5 {
        return Err(UnpackError);
      }
      if row[0] == "" {
        break;
      }
      var start := ParseDayMonthYear(row[0]);
      if start.None? {
        return Err(DateError);
      }
      var week := ParseRow(row).week;
      if ScheduleOf(weeks[i + 1..]).Ok? {
        var rest := ScheduleOf(weeks[i + 1..]).value;
        assert schedule + ([week] + rest) == (schedule + [week]) + rest;
      }
      schedule := schedule + [week];
      i := i + 1;
    }
    assert i == |weeks| ==> weeks[i..] == [];
    assert schedule + [] == schedule;
    return Ok(schedule);
  }

  /**
   * A successful parse is one week per row, in row order, up to the first
   * blank-date row or the end of the input.
   */
  lemma {:induction false} ScheduleOfOk(rows: seq<seq<string>>)
    requires ScheduleOf(rows).Ok?
    ensures var weeks := ScheduleOf(rows).value;
      && |weeks| <= |rows|
      && (forall k :: 0 <= k < |weeks| ==> ParseRow(rows[k]) == Week(weeks[k]))
      && (|weeks| < |rows| ==> ParseRow(rows[|weeks|]).Stop?)
  {
    if rows != [] && ParseRow(rows[0]).Week? {
      ScheduleOfOk(rows[1..]);
    }
  }

  /** A failed parse names the first row that is neither a week nor a stop. */
  lemma {:induction false} ScheduleOfErr(rows: seq<seq<string>>)
    requires ScheduleOf(rows).Err?
    ensures exists k ::
      && 0 <= k < |rows|
      && ParseRow(rows[k]) == Fail(ScheduleOf(rows).error)
      && forall j :: 0 <= j < k ==> ParseRow(rows[j]).Week?
  {
    if ParseRow(rows[0]).Week? {
      ScheduleOfErr(rows[1..]);
      var k :| 0 <= k < |rows[1..]|
        && ParseRow(rows[1..][k]) == Fail(ScheduleOf(rows[1..]).error)
        && forall j :: 0 <= j < k ==> ParseRow(rows[1..][j]).Week?;
      assert ParseRow(rows[k + 1]) == Fail(ScheduleOf(rows).error);
      forall j | 0 <= j < k + 1
        ensures ParseRow(rows[j]).Week?
      {
        if j > 0 {
          assert rows[j] == rows[1..][j - 1];
        }
      }
    } else {
      assert ParseRow(rows[0]) == Fail(ScheduleOf(rows).error);
    }
  }

  /** Whatever follows a blank-date row is never looked at, malformed or not. */
  lemma {:induction false} RowsAfterStopIgnored(before: seq<seq<string>>, stop: seq<string>, after: seq<seq<string>>)
    requires ParseRow(stop).Stop?
    ensures ScheduleOf(before + [stop] + after) == ScheduleOf(before + [stop])
  {
    if before == [] {
      assert (before + [stop] + after)[0] == stop;
      assert (before + [stop])[0] == stop;
    } else {
      assert (before + [stop] + after)[1..] == before[1..] + [stop] + after;
      assert (before + [stop])[1..] == before[1..] + [stop];
      RowsAfterStopIgnored(before[1..], stop, after);
    }
  }

  /** A parsed week can be described exactly when its row has at least eight fields. */
  lemma DescribableRows(rows: seq<seq<string>>)
    requires ScheduleOf(rows).Ok?
    ensures var weeks := ScheduleOf(rows).value;
      && |weeks| <= |rows|
      && forall k :: 0 <= k < |weeks| ==> (weeks[k].Describe().Ok? <==> |rows[k]| >= 8)
  {
    ScheduleOfOk(rows);
  }

  // ------------------------------------------------------------- person index

  function CleanersOf(w: WeekCleaning): seq<string>
  {
    w.Cleaners()
  }

  /** Every week of a person's schedule has a job for that person. */
  lemma PersonalWeeksHaveJobs(schedule: seq<WeekCleaning>, p: string)
    ensures var mine := Grouping.PersonalSchedule(schedule, CleanersOf, p);
      forall k :: 0 <= k < |mine| ==> mine[k].JobName(p).Ok?
  {
    Grouping.PersonalWeeksListPerson(schedule, CleanersOf, p);
  }

  /**
   * A week nobody cleans upstairs still lists the empty name as a cleaner:
   * the empty name becomes a key of the person index, and its job there is
   * "Boven" unless some other role is blank too.
   */
  lemma EmptyUpstairsIsListed(schedule: seq<WeekCleaning>, k: int)
    requires 0 <= k < |schedule| && schedule[k].upstairs == ""
    ensures "" in Grouping.Names(schedule, CleanersOf)
    ensures "" !in schedule[k].kitchen && schedule[k].toilets != "" && schedule[k].showers != ""
      ==> schedule[k].JobName("") == Ok("Boven")
  {
    Grouping.NamesAreListedNames(schedule, CleanersOf, "");
    assert "" in CleanersOf(schedule[k]);
  }

  // ------------------------------------------------------------- calendars

  /**
   * One pass of the `create_calendar` loop: the job name is looked up first,
   * then the description is built.
   */
  function PersonalEvent(week: WeekCleaning, person: string): (r: Result<Event>)
    ensures r.Ok? <==> week.Contains(person) && |week.kitchen| >= 3
    ensures r.Err? ==> r.error == if week.Contains(person) then IndexError else NotScheduled
    ensures r.Ok? ==> r.value == WeekEvent("Weektaak: " + week.JobName(person).value, week.weekStart, week.Describe().value)
  {
    var job :- week.JobName(person);
    var description :- week.Describe();
    Ok(WeekEvent("Weektaak: " + job, week.weekStart, description))
  }

  /** One pass of the `admin_calendar` loop. */
  function AdminEvent(week: WeekCleaning): (r: Result<Event>)
    ensures r.Ok? <==> |week.kitchen| >= 3
    ensures r.Err? ==> r.error == IndexError
    ensures r.Ok? ==> r.value == WeekEvent("Weektaak", week.weekStart, week.Describe().value)
  {
    var description :- week.Describe();
    Ok(WeekEvent("Weektaak", week.weekStart, description))
  }

  /**
   * `create_calendar`: one event per week of the personal schedule, in
   * order, written to the templated file name. A week without a job for the
   * person, or with fewer than three kitchen names, aborts first; a bad file
   * name template is found only after the loop.
   */
  method CreateCalendar(person: string, personalSchedule: seq<WeekCleaning>, filename: string)
    returns (r: Result<CalendarFile>)
    requires BracesArePlaceholders(filename)
    ensures r.Ok? <==>
      && (forall k :: 0 <= k < |personalSchedule| ==> PersonalEvent(personalSchedule[k], person).Ok?)
      && FormatFilenameTemplate(filename, person).Ok?
    ensures r.Ok? ==>
      && r.value.path == FormatFilenameTemplate(filename, person).value
      && |r.value.events| == |personalSchedule|
      && forall k :: 0 <= k < |personalSchedule| ==>
        r.value.events[k] == PersonalEvent(personalSchedule[k], person).value
    ensures r.Err? && (forall k :: 0 <= k < |personalSchedule| ==> PersonalEvent(personalSchedule[k], person).Ok?)
      ==> r == Err(FormatFilenameTemplate(filename, person).error)
    ensures r.Err? && !(forall k :: 0 <= k < |personalSchedule| ==> PersonalEvent(personalSchedule[k], person).Ok?)
      ==> exists k ::
        && 0 <= k < |personalSchedule|
        && PersonalEvent(personalSchedule[k], person) == Err(r.error)
        && forall j :: 0 <= j < k ==> PersonalEvent(personalSchedule[j], person).Ok?
  {
    var eventFor := (w: WeekCleaning) => PersonalEvent(w, person);
    var built := BuildEvents(personalSchedule, eventFor);
    assert forall k :: 0 <= k < |personalSchedule| ==>
      eventFor(personalSchedule[k]) == PersonalEvent(personalSchedule[k], person);
    if built.Err? {
      return Err(built.error);
    }
    var path := FormatFilenameTemplate(filename, person);
    if path.Err? {
      return Err(path.error);
    }
    return Ok(CalendarFile(path.value, built.value));
  }

  /**
   * `admin_calendar`: one event per week of the whole schedule, in order,
   * written to `filename` as given.
   */
  method AdminCalendar(schedule: seq<WeekCleaning>, filename: string) returns (r: Result<CalendarFile>)
    ensures r.Ok? <==> forall k :: 0 <= k < |schedule| ==> |schedule[k].kitchen| >= 3
    ensures r.Err? ==> r.error == IndexError
    ensures r.Ok? ==>
      && r.value.path == filename
      && |r.value.events| == |schedule|
      && forall k :: 0 <= k < |schedule| ==> r.value.events[k] == AdminEvent(schedule[k]).value
  {
    var events :- BuildEvents(schedule, AdminEvent);
    return Ok(CalendarFile(filename, events));
  }

  /**
   * On an entry of the person index the job lookup never fails: the
   * calendar is refused only for a short kitchen list or a bad template.
   */
  lemma IndexedCalendarNeedsOnlyKitchens(schedule: seq<WeekCleaning>, p: string)
    ensures var mine := Grouping.PersonalSchedule(schedule, CleanersOf, p);
      forall k :: 0 <= k < |mine| ==> (PersonalEvent(mine[k], p).Ok? <==> |mine[k].kitchen| >= 3)
  {
    PersonalWeeksHaveJobs(schedule, p);
  }
}
