/**
 * The JSON exporter `csv2json.py`: after a header row, every row's start
 * date `DD-MM-YYYY` becomes a key `YYYY-MM-DD`, mapped to the row's tasks
 * paired with the five task keys. Rows are the comma-split lines; quoting
 * and the JSON text itself are not part of this model.
 */
module JsonExport {
  import opened Outcomes
  import opened Text
  import opened Dates

  /** The task keys, in the order the tasks follow the two date fields. */
  const TaskKeys := ["kitchen-1", "kitchen-2", "kitchen-3", "toilets", "showers"]

  /** The tasks of one week: task key to name. */
  type Tasks = map<string, string>

  /**
   * `dict(zip(keys, tasks))`: the i-th key maps to the i-th task, for as
   * many positions as both sides have; keys without a task are absent.
   */
  function ZipTasks(keys: seq<string>, tasks: seq<string>): (m: Tasks)
    requires forall i, j :: 0 <= i < j < |keys| ==> keys[i] != keys[j]
    ensures forall i :: 0 <= i < |keys| ==> (keys[i] in m <==> i < |tasks|)
    ensures forall i :: 0 <= i < |keys| && i < |tasks| ==> m[keys[i]] == tasks[i]
    ensures forall k :: k in m ==> k in keys
  {
    if keys == [] || tasks == [] then map[]
    else
      var rest := ZipTasks(keys[1..], tasks[1..]);
      rest[keys[0] := tasks[0]]
  }

  lemma TaskKeysDistinct()
    ensures forall i, j :: 0 <= i < j < |TaskKeys| ==> TaskKeys[i] != TaskKeys[j]
  {
  }

  /** The tasks of a row: its fields after the start and end dates, paired with the task keys. */
  function RowTasks(tasks: seq<string>): (m: Tasks)
    ensures forall i :: 0 <= i < |TaskKeys| ==> (TaskKeys[i] in m <==> i < |tasks|)
    ensures forall i :: 0 <= i < |TaskKeys| && i < |tasks| ==> m[TaskKeys[i]] == tasks[i]
    ensures forall k :: k in m ==> k in TaskKeys
  {
    TaskKeysDistinct();
    ZipTasks(TaskKeys, tasks)
  }

  /** Tasks past the fifth, such as an upstairs cleaner, are dropped. */
  lemma ExtraTasksDropped(tasks: seq<string>)
    requires |tasks| > |TaskKeys|
    ensures RowTasks(tasks) == RowTasks(tasks[..|TaskKeys|])
    ensures "upstairs" !in RowTasks(tasks)
  {
    var m, n := RowTasks(tasks), RowTasks(tasks[..|TaskKeys|]);
    assert m.Keys == n.Keys by {
      forall k | k in m
        ensures k in n
      {
        var i :| 0 <= i < |TaskKeys| && TaskKeys[i] == k;
      }
      forall k | k in n
        ensures k in m
      {
        var i :| 0 <= i < |TaskKeys| && TaskKeys[i] == k;
      }
    }
    forall k | k in m
      ensures m[k] == n[k]
    {
      var i :| 0 <= i < |TaskKeys| && TaskKeys[i] == k;
    }
  }

  /**
   * One data row against `start, _, *tasks`: fewer than two fields cannot
   * be unpacked, and the start date must be a `DD-MM-YYYY` date. The entry
   * is the ISO form of the date with the row's tasks.
   */
  function RowEntry(row: seq<string>): (r: Result<(string, Tasks)>)
    ensures r == Err(UnpackError) <==> |row| < 2
    ensures r == Err(DateError) <==> |row| >= 2 && ParseDayMonthYear(row[0]).None?
    ensures r.Ok? ==>
      && |row| >= 2
      && ParseDayMonthYear(row[0]).Some?
      && r.value.0 == FormatIso(ParseDayMonthYear(row[0]).value)
      && r.value.1 == RowTasks(row[2..])
  {
    if |row| < 2 then Err(UnpackError)
    else match ParseDayMonthYear(row[0])
      case None => Err(DateError)
      case Some(start) => Ok((FormatIso(start), RowTasks(row[2..])))
  }

  /** The key of a row denotes the same day as its start date, and only that date has it. */
  lemma KeyIsStartDate(row: seq<string>)
    requires RowEntry(row).Ok?
    ensures ParseIso(RowEntry(row).value.0) == ParseDayMonthYear(row[0])
    ensures |row[0]| == 10 ==>
      RowEntry(row).value.0 == row[0][6..10] + "-" + row[0][3..5] + "-" + row[0][0..2]
  {
    var d := ParseDayMonthYear(row[0]).value;
    IsoRoundTrip(d);
    if |row[0]| == 10 {
      IsoRearrangesDayMonthYear(row[0], d);
    }
  }

  /** The entry of every row, in row order. */
  function Entries(rows: seq<seq<string>>): (entries: seq<Result<(string, Tasks)>>)
    ensures |entries| == |rows|
    ensures forall k :: 0 <= k < |rows| ==> entries[k] == RowEntry(rows[k])
  {
    seq(|rows|, k requires 0 <= k < |rows| => RowEntry(rows[k]))
  }

  /**
   * The data the entries make, entered in order so that a later entry
   * replaces an earlier one with the same key, or the first error.
   */
  function Collect(entries: seq<Result<(string, Tasks)>>): Result<map<string, Tasks>>
  {
    if entries == [] then Ok(map[])
    else
      var before :- Collect(entries[..|entries| - 1]);
      var entry :- entries[|entries| - 1];
      Ok(before[entry.0 := entry.1])
  }

  /** Each line of the text split on commas. */
  function Rows(lines: seq<string>): (rows: seq<seq<string>>)
    ensures |rows| == |lines|
    ensures forall k :: 0 <= k < |lines| ==> rows[k] == Split(lines[k], ',')
  {
    seq(|lines|, k requires 0 <= k < |lines| => Split(lines[k], ','))
  }

  /**
   * `csv_to_json`: the first row is the header (an empty text has none and
   * fails); every later row is entered in order, a later row replacing an
   * earlier one with the same start date; the first bad row aborts.
   */
  method CsvToJson(lines: seq<string>) returns (r: Result<map<string, Tasks>>)
    ensures lines == [] ==> r == Err(NoHeader)
    ensures lines != [] ==> r == Collect(Entries(Rows(lines)[1..]))
  {
    if lines == [] {
      return Err(NoHeader);
    }
    var rows := Rows(lines);
    ghost var entries := Entries(rows[1..]);
    var data: map<string, Tasks> := map[];
    for i := 1 to |rows|
      invariant Collect(entries[..i - 1]) == Ok(data)
    {
      assert entries[..i][..i - 1] == entries[..i - 1];
      var entry := RowEntry(rows[i]);
      assert entries[i - 1] == entry;
      if entry.Err? {
        CollectErrPersists(entries, i);
        return Err(entry.error);
      }
      data := data[entry.value.0 := entry.value.1];
    }
    assert entries[..|rows| - 1] == entries;
    return Ok(data);
  }

  // ------------------------------------------------------------- properties

  /** The conversion succeeds exactly when every row does. */
  lemma {:induction false} CollectOkIffEntriesOk(entries: seq<Result<(string, Tasks)>>)
    ensures Collect(entries).Ok? <==> forall k :: 0 <= k < |entries| ==> entries[k].Ok?
  {
    if entries != [] {
      var init := entries[..|entries| - 1];
      CollectOkIffEntriesOk(init);
      assert forall k :: 0 <= k < |init| ==> init[k] == entries[k];
    }
  }

  /** A failed conversion reports the error of the first bad row. */
  lemma {:induction false} CollectErrIsFirstBadEntry(entries: seq<Result<(string, Tasks)>>)
    requires Collect(entries).Err?
    ensures exists k ::
      && 0 <= k < |entries|
      && entries[k] == Err(Collect(entries).error)
      && forall j :: 0 <= j < k ==> entries[j].Ok?
  {
    var init := entries[..|entries| - 1];
    assert forall k :: 0 <= k < |init| ==> init[k] == entries[k];
    if Collect(init).Err? {
      CollectErrIsFirstBadEntry(init);
      var k :| 0 <= k < |init| && init[k] == Err(Collect(init).error)
        && forall j :: 0 <= j < k ==> init[j].Ok?;
      assert entries[k] == Err(Collect(entries).error);
    } else {
      CollectOkIffEntriesOk(init);
    }
  }

  /** Once a prefix of the entries fails, the whole conversion fails the same way. */
  lemma {:induction false} CollectErrPersists(entries: seq<Result<(string, Tasks)>>, n: nat)
    requires n <= |entries| && Collect(entries[..n]).Err?
    ensures Collect(entries) == Collect(entries[..n])
  {
    if n < |entries| {
      var init := entries[..|entries| - 1];
      assert init[..n] == entries[..n];
      CollectErrPersists(init, n);
    } else {
      assert entries[..n] == entries;
    }
  }

  /** The keys are exactly the keys of the entries, that is the rows' start dates. */
  lemma {:induction false} KeysAreEntryKeys(entries: seq<Result<(string, Tasks)>>)
    requires Collect(entries).Ok?
    ensures Collect(entries).value.Keys == set k | 0 <= k < |entries| && entries[k].Ok? :: entries[k].value.0
  {
    if entries != [] {
      var init := entries[..|entries| - 1];
      var last := entries[|entries| - 1];
      KeysAreEntryKeys(init);
      var keys := set k | 0 <= k < |entries| && entries[k].Ok? :: entries[k].value.0;
      var initKeys := set k | 0 <= k < |init| && init[k].Ok? :: init[k].value.0;
      assert keys == initKeys + {last.value.0} by {
        forall key | key in keys
          ensures key in initKeys || key == last.value.0
        {
          var k :| 0 <= k < |entries| && entries[k].Ok? && entries[k].value.0 == key;
          if k < |init| {
            assert init[k] == entries[k];
          }
        }
        forall key | key in initKeys
          ensures key in keys
        {
          var k :| 0 <= k < |init| && init[k].Ok? && init[k].value.0 == key;
          assert entries[k] == init[k];
        }
      }
    }
  }

  /** Entry `k` is the last one with key `key`. */
  ghost predicate LastWithKey(entries: seq<Result<(string, Tasks)>>, k: int, key: string)
  {
    && 0 <= k < |entries|
    && entries[k].Ok? && entries[k].value.0 == key
    && forall j :: k < j < |entries| ==> entries[j].Ok? ==> entries[j].value.0 != key
  }

  /** Each key holds the tasks of the last row with that start date. */
  lemma {:induction false} LastRowWins(entries: seq<Result<(string, Tasks)>>)
    requires Collect(entries).Ok?
    ensures forall key :: key in Collect(entries).value ==>
      exists k :: LastWithKey(entries, k, key) && entries[k].value.1 == Collect(entries).value[key]
  {
    if entries != [] {
      var init := entries[..|entries| - 1];
      var last := |entries| - 1;
      LastRowWins(init);
      var m := Collect(entries).value;
      forall key | key in m
        ensures exists k :: LastWithKey(entries, k, key) && entries[k].value.1 == m[key]
      {
        if key == entries[last].value.0 {
          assert LastWithKey(entries, last, key);
        } else {
          var k :| LastWithKey(init, k, key) && init[k].value.1 == Collect(init).value[key];
          assert init[k] == entries[k];
          assert LastWithKey(entries, k, key) by {
            forall j | k < j < |entries|
              ensures entries[j].Ok? ==> entries[j].value.0 != key
            {
              if j < last {
                assert init[j] == entries[j];
              }
            }
          }
        }
      }
    }
  }
}
