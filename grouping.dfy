/**
 * `person_index`, which is the same code in all three calendar scripts: one
 * pass over the schedule that appends each week to the list of every name
 * the week's `cleaners()` yields. The week type and its `cleaners` are
 * parameters, since the scripts differ only there.
 */
module Grouping {

  /** How often `p` occurs in `names`. */
  function Count(names: seq<string>, p: string): nat
  {
    if names == [] then 0
    else Count(names[..|names| - 1], p) + (if names[|names| - 1] == p then 1 else 0)
  }

  /** `n` copies of `w`. */
  function Repeat<W>(w: W, n: nat): (r: seq<W>)
    ensures |r| == n
    ensures forall k :: 0 <= k < n ==> r[k] == w
  {
    if n == 0 then [] else Repeat(w, n - 1) + [w]
  }

  /**
   * What `index[p]` holds after the pass: the weeks that name `p`, in schedule
   * order, each once per occurrence of `p` in that week's cleaners.
   */
  function PersonalSchedule<W>(schedule: seq<W>, cleaners: W -> seq<string>, p: string): seq<W>
  {
    if schedule == [] then []
    else
      var last := schedule[|schedule| - 1];
      PersonalSchedule(schedule[..|schedule| - 1], cleaners, p) + Repeat(last, Count(cleaners(last), p))
  }

  /** The names some week of the schedule lists. */
  function Names<W>(schedule: seq<W>, cleaners: W -> seq<string>): set<string>
  {
    if schedule == [] then {}
    else
      var last := schedule[|schedule| - 1];
      Names(schedule[..|schedule| - 1], cleaners) + (set n | n in cleaners(last))
  }

  /**
   * `person_index(schedule)`: the keys are exactly the names that occur, and
   * each maps to that person's schedule.
   */
  method PersonIndex<W>(schedule: seq<W>, cleaners: W -> seq<string>) returns (index: map<string, seq<W>>)
    ensures index.Keys == Names(schedule, cleaners)
    ensures forall p :: p in index ==> index[p] == PersonalSchedule(schedule, cleaners, p)
  {
    index := map[];
    for i := 0 to |schedule|
      invariant IndexOf(index, schedule[..i], cleaners)
    {
      var week := schedule[i];
      var persons := cleaners(week);
      StartWeek(index, schedule[..i], cleaners, week);
      for j := 0 to |persons|
        invariant PartialIndexOf(index, schedule[..i], cleaners, week, persons[..j])
      {
        var person := persons[j];
        AddName(index, schedule[..i], cleaners, week, persons, j);
        index := index[person := (if person in index then index[person] else []) + [week]];
      }
      assert persons[..|persons|] == persons;
      assert schedule[..i + 1] == schedule[..i] + [week];
      FinishWeek(index, schedule[..i], cleaners, week);
    }
    assert schedule[..|schedule|] == schedule;
  }

  /** `index` is `person_index` of `schedule`. */
  ghost predicate IndexOf<W>(index: map<string, seq<W>>, schedule: seq<W>, cleaners: W -> seq<string>)
  {
    && index.Keys == Names(schedule, cleaners)
    && forall p :: p in index ==> index[p] == PersonalSchedule(schedule, cleaners, p)
  }

  /** `index` is `person_index` of `schedule` with the names `names` of `week` entered. */
  ghost predicate PartialIndexOf<W>(index: map<string, seq<W>>, schedule: seq<W>, cleaners: W -> seq<string>,
                                    week: W, names: seq<string>)
  {
    && index.Keys == Names(schedule, cleaners) + (set n | n in names)
    && forall p :: p in index ==>
      index[p] == PersonalSchedule(schedule, cleaners, p) + Repeat(week, Count(names, p))
  }

  lemma StartWeek<W>(index: map<string, seq<W>>, schedule: seq<W>, cleaners: W -> seq<string>, week: W)
    requires IndexOf(index, schedule, cleaners)
    ensures PartialIndexOf(index, schedule, cleaners, week, [])
  {
  }

  lemma AddName<W>(index: map<string, seq<W>>, schedule: seq<W>, cleaners: W -> seq<string>,
                   week: W, names: seq<string>, j: nat)
    requires j < |names| && PartialIndexOf(index, schedule, cleaners, week, names[..j])
    ensures var person := names[j];
      PartialIndexOf(index[person := (if person in index then index[person] else []) + [week]],
                     schedule, cleaners, week, names[..j + 1])
  {
    var person := names[j];
    var updated := index[person := (if person in index then index[person] else []) + [week]];
    NamesOfAppend(names[..j], person);
    assert names[..j + 1] == names[..j] + [person];
    forall p | p in updated
      ensures updated[p] == PersonalSchedule(schedule, cleaners, p) + Repeat(week, Count(names[..j + 1], p))
    {
      AddNameTo(index, schedule, cleaners, week, names, j, p);
    }
  }

  /** Entering name `j` of `week` extends the entry of that name only. */
  lemma AddNameTo<W>(index: map<string, seq<W>>, schedule: seq<W>, cleaners: W -> seq<string>,
                     week: W, names: seq<string>, j: nat, p: string)
    requires j < |names| && PartialIndexOf(index, schedule, cleaners, week, names[..j])
    requires p in index || p == names[j]
    ensures var updated := index[names[j] := (if names[j] in index then index[names[j]] else []) + [week]];
      updated[p] == PersonalSchedule(schedule, cleaners, p) + Repeat(week, Count(names[..j + 1], p))
  {
    OneMoreOccurrence(names, j, week, p);
    if p == names[j] && p !in index {
      AbsentHasNoWeeks(schedule, cleaners, p);
      AbsentCountsZero(names[..j], p);
    }
  }

  lemma NamesOfAppend(names: seq<string>, person: string)
    ensures (set n | n in names + [person]) == (set n | n in names) + {person}
  {
  }

  lemma FinishWeek<W>(index: map<string, seq<W>>, schedule: seq<W>, cleaners: W -> seq<string>, week: W)
    requires PartialIndexOf(index, schedule, cleaners, week, cleaners(week))
    ensures IndexOf(index, schedule + [week], cleaners)
  {
    assert (schedule + [week])[..|schedule|] == schedule;
  }

  /** Reading one more name adds the week once more exactly for that name. */
  lemma OneMoreOccurrence<W>(names: seq<string>, j: nat, week: W, p: string)
    requires j < |names|
    ensures Repeat(week, Count(names[..j + 1], p))
      == Repeat(week, Count(names[..j], p)) + (if names[j] == p then [week] else [])
  {
    assert names[..j + 1][..j] == names[..j];
  }

  lemma {:induction false} AbsentHasNoWeeks<W>(schedule: seq<W>, cleaners: W -> seq<string>, p: string)
    requires p !in Names(schedule, cleaners)
    ensures PersonalSchedule(schedule, cleaners, p) == []
  {
    if schedule != [] {
      var last := schedule[|schedule| - 1];
      AbsentHasNoWeeks(schedule[..|schedule| - 1], cleaners, p);
      AbsentCountsZero(cleaners(last), p);
    }
  }

  lemma {:induction false} AbsentCountsZero(names: seq<string>, p: string)
    requires p !in names
    ensures Count(names, p) == 0
  {
    if names != [] {
      AbsentCountsZero(names[..|names| - 1], p);
    }
  }

  lemma {:induction false} PresentCountsPositive(names: seq<string>, p: string)
    requires p in names
    ensures Count(names, p) > 0
  {
    var init := names[..|names| - 1];
    if names[|names| - 1] != p {
      assert p in init;
      PresentCountsPositive(init, p);
    }
  }

  // ------------------------------------------------------------ properties

  /** A name is a key exactly when some week of the schedule lists it. */
  lemma {:induction false} NamesAreListedNames<W>(schedule: seq<W>, cleaners: W -> seq<string>, p: string)
    ensures p in Names(schedule, cleaners) <==> exists k :: 0 <= k < |schedule| && p in cleaners(schedule[k])
  {
    if schedule != [] {
      var init := schedule[..|schedule| - 1];
      NamesAreListedNames(init, cleaners, p);
      if p in Names(init, cleaners) {
        var k :| 0 <= k < |init| && p in cleaners(init[k]);
        assert schedule[k] == init[k];
      }
      if exists k :: 0 <= k < |schedule| && p in cleaners(schedule[k]) {
        var k :| 0 <= k < |schedule| && p in cleaners(schedule[k]);
        if k < |init| {
          assert init[k] == schedule[k];
        }
      }
    }
  }

  /** Every week in a person's schedule lists that person. */
  lemma {:induction false} PersonalWeeksListPerson<W>(schedule: seq<W>, cleaners: W -> seq<string>, p: string)
    ensures forall k :: 0 <= k < |PersonalSchedule(schedule, cleaners, p)| ==>
      p in cleaners(PersonalSchedule(schedule, cleaners, p)[k])
  {
    if schedule != [] {
      var init := schedule[..|schedule| - 1];
      var last := schedule[|schedule| - 1];
      PersonalWeeksListPerson(init, cleaners, p);
      if Count(cleaners(last), p) > 0 && p !in cleaners(last) {
        AbsentCountsZero(cleaners(last), p);
      }
    }
  }

  /** A person's schedule has one entry per occurrence of the name. */
  function Occurrences<W>(schedule: seq<W>, cleaners: W -> seq<string>, p: string): nat
  {
    if schedule == [] then 0
    else Occurrences(schedule[..|schedule| - 1], cleaners, p) + Count(cleaners(schedule[|schedule| - 1]), p)
  }

  lemma {:induction false} PersonalScheduleLength<W>(schedule: seq<W>, cleaners: W -> seq<string>, p: string)
    ensures |PersonalSchedule(schedule, cleaners, p)| == Occurrences(schedule, cleaners, p)
  {
    if schedule != [] {
      PersonalScheduleLength(schedule[..|schedule| - 1], cleaners, p);
    }
  }

  /** The weeks of `schedule` that list `p`, in order, each once. */
  function WeeksListing<W>(schedule: seq<W>, cleaners: W -> seq<string>, p: string): seq<W>
  {
    if schedule == [] then []
    else
      var last := schedule[|schedule| - 1];
      WeeksListing(schedule[..|schedule| - 1], cleaners, p) + (if p in cleaners(last) then [last] else [])
  }

  /**
   * When no week lists a name twice (the roster's own rule), a person's
   * schedule is just the weeks that list the person, in schedule order.
   */
  lemma {:induction false} PersonalScheduleIsFilter<W>(schedule: seq<W>, cleaners: W -> seq<string>, p: string)
    requires forall k :: 0 <= k < |schedule| ==> Count(cleaners(schedule[k]), p) <= 1
    ensures PersonalSchedule(schedule, cleaners, p) == WeeksListing(schedule, cleaners, p)
  {
    if schedule != [] {
      var init := schedule[..|schedule| - 1];
      var last := schedule[|schedule| - 1];
      assert forall k :: 0 <= k < |init| ==> init[k] == schedule[k];
      PersonalScheduleIsFilter(init, cleaners, p);
      assert Count(cleaners(last), p) <= 1;
      if p in cleaners(last) {
        PresentCountsPositive(cleaners(last), p);
        assert Repeat(last, 1) == [last];
      } else {
        AbsentCountsZero(cleaners(last), p);
      }
    }
  }

  /**
   * A week that lists a person twice is entered twice in that person's
   * schedule, right after the weeks before it.
   */
  lemma DoubleListingRepeats<W>(schedule: seq<W>, week: W, cleaners: W -> seq<string>, p: string)
    requires Count(cleaners(week), p) == 2
    ensures PersonalSchedule(schedule + [week], cleaners, p) == PersonalSchedule(schedule, cleaners, p) + [week, week]
  {
    assert (schedule + [week])[..|schedule|] == schedule;
    assert Repeat(week, 2) == [week, week];
  }
}
