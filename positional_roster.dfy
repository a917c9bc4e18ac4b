/**
 * The calendar generator `scripts/generate-personal-ics.py`. Its week
 * record, `cleaners()` and `csv2schedule` are those of the three-role
 * roster, so they are taken from ThreeRoleRoster. What differs is modelled
 * here:
 * - the job name is chosen by the position of the name in `cleaners()`,
 *   not by role;
 * - the description headings are stored double-encoded (the UTF-8 bytes of
 *   each emoji read back as Windows-1252 text);
 * - the output file name is formatted without checking for a placeholder.
 */
module PositionalRoster {
  import opened Outcomes
  import opened Text
  import opened Filenames
  import opened Events
  import ThreeRoleRoster
  import Grouping

  type WeekCleaning = ThreeRoleRoster.WeekCleaning

  /** The job of each position in `cleaners()`. */
  const Labels := ["Keuken", "Keuken", "Keuken", "Wc's", "Douches"]

  /**
   * The headings as the file spells them: the emoji of the three-role
   * headings appear as the characters U+00F0 U+0178 U+00B3, U+00F0 U+0178
   * U+0161 U+00BD and U+00F0 U+0178 U+0161 U+00BF.
   */
  const KitchenHeading := "Keuken \U{F0}\U{178}\U{B3}"
  const ToiletsHeading := "Wc's \U{F0}\U{178}\U{161}\U{BD}"
  const ShowersHeading := "Douches \U{F0}\U{178}\U{161}\U{BF}"

  /** None of the headings holds a newline. */
  lemma HeadingsAreLines()
    ensures '\n' !in KitchenHeading && '\n' !in ToiletsHeading && '\n' !in ShowersHeading
  {
    assert KitchenHeading == "Keuken " + "\U{F0}\U{178}\U{B3}";
    assert ToiletsHeading == "Wc's " + "\U{F0}\U{178}\U{161}\U{BD}";
    assert ShowersHeading == "Douches " + "\U{F0}\U{178}\U{161}\U{BF}";
  }

  /** `xs.index(x)`: the position of the first occurrence of `x`. */
  function IndexOf(xs: seq<string>, x: string): (i: nat)
    requires x in xs
    ensures i < |xs| && xs[i] == x
    ensures x !in xs[..i]
  {
    if xs[0] == x then 0
    else
      var i := 1 + IndexOf(xs[1..], x);
      assert xs[..i] == [xs[0]] + xs[1..][..i - 1];
      i
  }

  /**
   * `jobname(person)`: the label at the position where the person first
   * occurs in `cleaners()`. An absent name is a ValueError, and a position
   * past the five labels an IndexError.
   */
  function JobName(week: WeekCleaning, person: string): (r: Result<string>)
    ensures r == Err(NotScheduled) <==> !week.Contains(person)
    ensures r == Err(IndexError) <==> week.Contains(person) && IndexOf(week.Cleaners(), person) >= |Labels|
    ensures r.Ok? ==> r.value == Labels[IndexOf(week.Cleaners(), person)]
  {
    if person !in week.Cleaners() then Err(NotScheduled)
    else
      var i := IndexOf(week.Cleaners(), person);
      if i < |Labels| then Ok(Labels[i]) else Err(IndexError)
  }

  /** With exactly three kitchen names, the positional labels are the role labels. */
  lemma AgreesWithRolesForThreeKitchens(week: WeekCleaning, person: string)
    requires |week.kitchen| == 3
    ensures JobName(week, person) == week.JobName(person)
  {
    var names := week.Cleaners();
    if person in names {
      var i := IndexOf(names, person);
      if i < 3 {
        assert person == week.kitchen[i];
      } else {
        assert person !in week.kitchen by {
          assert names[..i][..3] == week.kitchen;
        }
        if i == 4 {
          assert names[..i][3] == week.toilets;
        }
      }
    }
  }

  /** With two kitchen names the toilet cleaner is told to clean the kitchen. */
  lemma ShortKitchenMislabelsToilets(week: WeekCleaning)
    requires |week.kitchen| == 2 && week.toilets !in week.kitchen
    ensures JobName(week, week.toilets) == Ok("Keuken")
    ensures week.JobName(week.toilets) == Ok("Wc's")
  {
    var names := week.Cleaners();
    assert names[2] == week.toilets;
    assert week.toilets !in names[..2] by {
      assert names[..2] == week.kitchen;
    }
    assert IndexOf(names, week.toilets) == 2;
  }

  /**
   * With four kitchen names the toilet cleaner is told to clean the showers,
   * and the shower cleaner's job cannot be looked up at all.
   */
  lemma LongKitchenMislabels(week: WeekCleaning)
    requires |week.kitchen| == 4 && week.toilets !in week.kitchen
    requires week.showers !in week.kitchen && week.showers != week.toilets
    ensures JobName(week, week.toilets) == Ok("Douches")
    ensures JobName(week, week.showers) == Err(IndexError)
  {
    var names := week.Cleaners();
    assert names[..4] == week.kitchen;
    assert names[..5] == week.kitchen + [week.toilets];
    assert IndexOf(names, week.toilets) == 4;
    assert IndexOf(names, week.showers) == 5;
  }

  /**
   * `str(week)`: the three-role description under the double-encoded
   * headings. When no name holds a newline, splitting it on newlines gives
   * the lines back, and it ends with the showers line, not with a newline.
   */
  function Describe(week: WeekCleaning): (description: string)
    ensures description == Join(week.DescriptionLinesWith(KitchenHeading, ToiletsHeading, ShowersHeading), '\n')
    ensures ThreeRoleRoster.NamesAreLines(week) ==>
      Split(description, '\n') == week.DescriptionLinesWith(KitchenHeading, ToiletsHeading, ShowersHeading)
    ensures ThreeRoleRoster.NamesAreLines(week) ==>
      && |description| >= |week.showers| + 3
      && description[|description| - |week.showers| - 3..] == "\n- " + week.showers
  {
    var lines := week.DescriptionLinesWith(KitchenHeading, ToiletsHeading, ShowersHeading);
    var description := Join(lines, '\n');
    if ThreeRoleRoster.NamesAreLines(week) then
      HeadingsAreLines();
      ThreeRoleRoster.DescriptionSplitsIntoLines(week, KitchenHeading, ToiletsHeading, ShowersHeading);
      description
    else
      description
  }

  /** The description differs from the three-role one only in the headings. */
  lemma DescriptionsDifferOnlyInHeadings(week: WeekCleaning)
    requires ThreeRoleRoster.NamesAreLines(week)
    ensures var mine := Split(Describe(week), '\n');
      var theirs := Split(week.Describe(), '\n');
      && |mine| == |theirs| == |week.kitchen| + 9
      && mine[2] != theirs[2]
      && forall k :: 0 <= k < |mine| && k != 2 && k != |week.kitchen| + 4 && k != |week.kitchen| + 7 ==>
        mine[k] == theirs[k]
  {
    var n := |week.kitchen|;
    ThreeRoleRoster.DescriptionSplitsIntoLines(week, KitchenHeading, ToiletsHeading, ShowersHeading);
    ThreeRoleRoster.DescriptionSplitsIntoLines(week, ThreeRoleRoster.KitchenHeading, ThreeRoleRoster.ToiletsHeading, ThreeRoleRoster.ShowersHeading);
    var mine := week.DescriptionLinesWith(KitchenHeading, ToiletsHeading, ShowersHeading);
    var theirs := week.DescriptionLines();
    forall k | 0 <= k < |mine| && k != 2 && k != n + 4 && k != n + 7
      ensures mine[k] == theirs[k]
    {
      if 3 <= k < 3 + n {
        assert mine[k] == mine[3..3 + n][k - 3] && theirs[k] == theirs[3..3 + n][k - 3];
      } else if k >= 3 + n {
        assert mine[k] == mine[3 + n..][k - 3 - n] && theirs[k] == theirs[3 + n..][k - 3 - n];
      }
    }
    assert KitchenHeading[7] != ThreeRoleRoster.KitchenHeading[7];
  }

  /**
   * One pass of the `create_calendar` loop: the description is built first
   * and cannot fail; then the job name is looked up.
   */
  function PersonalEvent(week: WeekCleaning, person: string): (r: Result<Event>)
    ensures r.Ok? <==> JobName(week, person).Ok?
    ensures r.Err? ==> r.error == JobName(week, person).error
    ensures r.Ok? ==> r.value == WeekEvent("Weektaak: " + JobName(week, person).value, week.weekStart, Describe(week))
  {
    var job :- JobName(week, person);
    Ok(WeekEvent("Weektaak: " + job, week.weekStart, Describe(week)))
  }

  /**
   * `create_calendar`: one event per week, in order, written to
   * `filename.format(person.lower())`. Nothing checks that the template has
   * a placeholder: without one every person's calendar goes to the same
   * file, and with two or more the formatting fails.
   */
  method CreateCalendar(person: string, schedule: seq<WeekCleaning>, filename: string)
    returns (r: Result<CalendarFile>)
    requires BracesArePlaceholders(filename)
    ensures r.Ok? <==>
      && (forall k :: 0 <= k < |schedule| ==> JobName(schedule[k], person).Ok?)
      && Placeholders(filename) <= 1
    ensures r.Ok? ==>
      && r.value.path == Format(filename, Lower(person)).value
      && |r.value.events| == |schedule|
      && forall k :: 0 <= k < |schedule| ==> r.value.events[k] == PersonalEvent(schedule[k], person).value
    ensures r.Ok? && Placeholders(filename) == 0 ==> r.value.path == filename
    ensures r.Err? && (forall k :: 0 <= k < |schedule| ==> JobName(schedule[k], person).Ok?)
      ==> r == Err(FormatIndexError)
    ensures r.Err? && !(forall k :: 0 <= k < |schedule| ==> JobName(schedule[k], person).Ok?)
      ==> exists k ::
        && 0 <= k < |schedule|
        && JobName(schedule[k], person) == Err(r.error)
        && forall j :: 0 <= j < k ==> JobName(schedule[j], person).Ok?
  {
    var events :- BuildEvents(schedule, w => PersonalEvent(w, person));
    var path :- Format(filename, Lower(person));
    return Ok(CalendarFile(path, events));
  }

  /**
   * On an entry of the person index the job lookup fails only by position:
   * a name whose first place in `cleaners()` is past the fifth.
   */
  lemma IndexedWeeksFailOnlyByPosition(schedule: seq<WeekCleaning>, p: string)
    ensures var mine := Grouping.PersonalSchedule(schedule, ThreeRoleRoster.CleanersOf, p);
      forall k :: 0 <= k < |mine| ==> JobName(mine[k], p) != Err(NotScheduled)
  {
    Grouping.PersonalWeeksListPerson(schedule, ThreeRoleRoster.CleanersOf, p);
  }
}
