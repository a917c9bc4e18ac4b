# Weektaak roster pipeline in Dafny

This project models the roster pipeline of the *weektaak* (weekly cleaning
duty) scripts. The pipeline has five steps:

1. Comma-separated roster text becomes a list of week records.
2. The weeks are grouped per person.
3. Each week gets a Dutch job label and a description headed by the ISO 8601
   week number of the week's start date.
4. The weeks become calendar events.
5. Each calendar gets a per-person output file name.

There are three near-duplicate calendar scripts and a JSON exporter. Each
behaves differently, and each has its own module:

| module | file | what is particular to it |
|---|---|---|
| `UpstairsRoster` | `upstairs_roster.dfy` | `personalschedule.py`: four roles (kitchen, toilets, showers, upstairs). A header line is skipped. Parsing stops at the first row whose start date is blank. |
| `ThreeRoleRoster` | `three_role_roster.dfy` | `scripts/personalschedule.py`: three roles. Lines with an empty field are filtered out, and no header is skipped. |
| `PositionalRoster` | `positional_roster.dfy` | `scripts/generate-personal-ics.py`: the job label depends on the position in `cleaners()`. The headings are double-encoded text. The file name is formatted without a check. |
| `JsonExport` | `json_export.dfy` | `csv2json.py`: after a header row, each row becomes `YYYY-MM-DD` mapped to `{task key: name}`. A later row replaces an earlier one. |

These modules are shared:

- `Outcomes` holds the errors the scripts raise, as `Result`/`Option`.
- `Text` holds `str.split`/`str.join`, digits, `str(int)`, zero padding and ASCII lower-casing.
- `Dates` holds `strptime("%d-%m-%Y")`, `date.isoformat()` (ISO 8601:2004 section 4.1.2.2) and `isocalendar().week` (ISO 8601:2004 section 4.1.4). The week number uses the integer day arithmetic of Python's datetime module. It is proved equal to the rule "the week's Thursday lies in the year".
- `Grouping` holds the generic `person_index`.
- `Filenames` holds `str.format` with one argument and `format_filename_template`.
- `Events` holds plain event records and the shared per-week event loop.

Code shared between scripts is modelled once:

- `person_index` is the same code in all three calendar scripts.
- `format_filename_template` is identical in both `personalschedule.py` files.
- `WeekCleaning.cleaners` and `csv2schedule` of `scripts/generate-personal-ics.py` are line for line those of `scripts/personalschedule.py`.

Each shared member has one row in the table below, which cites the first script and names the other copies.

Python exceptions become `Err` values:

| `Err` value | Python exception |
|---|---|
| `UnpackError` | ValueError from star-unpacking too few fields |
| `DateError` | ValueError from `strptime` |
| `NotScheduled` | ValueError from `jobname` or `list.index` |
| `IndexError` | IndexError |
| `NotATemplate` | ValueError from `format_filename_template` |
| `FormatIndexError` | IndexError from `str.format` |
| `NoHeader` | StopIteration from `next` |

Calendars are `CalendarFile(path, events)` records holding the events in the
order they were added. Every event is an `Event(title, begin, durationDays,
transparent, allDay, description)`.

## Model

| member | source | states |
|---|---|---|
| UpstairsRoster.WeekCleaning.Cleaners | personalschedule.py:37-39 | the cleaners are the kitchen names in order, then toilets, showers and upstairs: \|kitchen\|+3 names |
| UpstairsRoster.WeekCleaning.Contains | personalschedule.py:41-43 | a person is in the week exactly when they hold one of the four roles |
| UpstairsRoster.WeekCleaning.JobName | personalschedule.py:50-61 | the job is found exactly for the week's cleaners; "Keuken" iff in the kitchen, "Wc's" iff toilets and not kitchen, "Douches" iff showers and neither before, "Boven" iff upstairs and none before; otherwise ValueError |
| UpstairsRoster.WeekCleaning.DescriptionLines | personalschedule.py:63-89 | the description lines: a blank line, "Week n" with n the ISO week, the first three kitchen names, toilets, showers, the upstairs block (3 more lines) only when upstairs is non-empty, and the schedule link last; a blank line separates each section |
| UpstairsRoster.WeekCleaning.Describe | personalschedule.py:63-89 | `str(week)` fails with IndexError exactly when the kitchen list has fewer than three names; otherwise it is the description lines joined by newlines |
| UpstairsRoster.UpstairsSectionOnlyWhenAssigned | personalschedule.py:79-83 | the "Badkamer boven" heading is among the lines iff `upstairs != ""` |
| UpstairsRoster.DescriptionEndsWithLink | personalschedule.py:63-89 | splitting the description on newlines gives back its lines, and the text ends with a newline and the yochem.nl link line |
| UpstairsRoster.DescriptionLinesAreLines | personalschedule.py:63-89 | no description line contains a newline when no name does |
| UpstairsRoster.ParseRow | personalschedule.py:125-129 | a split row: fewer than 5 fields is a ValueError; a blank first field stops; an unparsable date is a ValueError; otherwise a week whose kitchen is every field strictly between the second and the last three |
| UpstairsRoster.CleanersAreTrailingFields | personalschedule.py:125-129 | a parsed week's cleaners are exactly the row's fields after the first two (the end-date field is ignored) |
| UpstairsRoster.DataRows | personalschedule.py:121 | the rows are the lines after the first, each split on commas, in order |
| UpstairsRoster.Csv2Schedule | personalschedule.py:121-131 | the loop with `break` yields exactly the specification `ScheduleOf(DataRows(lines))` |
| UpstairsRoster.ScheduleOfOk | personalschedule.py:121-131 | a successful parse has one week per row in row order, up to the first blank-date row or the end |
| UpstairsRoster.ScheduleOfErr | personalschedule.py:125-128 | a failed parse reports the unpack or date error of the first row that is neither a week nor a stop row, with all earlier rows weeks |
| UpstairsRoster.RowsAfterStopIgnored | personalschedule.py:126-127 | whatever follows a blank-date row, even malformed rows, does not change the result |
| UpstairsRoster.DescribableRows | personalschedule.py:69-71 | a parsed week can be described exactly when its row had at least 8 fields |
| UpstairsRoster.PersonalWeeksHaveJobs | personalschedule.py:149-155 | every week of a person's index entry has a job for that person |
| UpstairsRoster.EmptyUpstairsIsListed | personalschedule.py:39 | a week with an empty upstairs slot makes `""` a key of the person index, and `jobname("")` is "Boven" when no other role is blank |
| UpstairsRoster.PersonalEvent | personalschedule.py:205-214 | a week's personal event exists iff the person is in the week and the kitchen has 3 names; the job lookup fails first (ValueError), then the description (IndexError); the title is "Weektaak: " + job |
| UpstairsRoster.AdminEvent | personalschedule.py:238-247 | an admin event exists iff the kitchen has 3 names (else IndexError); the title is "Weektaak" |
| UpstairsRoster.CreateCalendar | personalschedule.py:204-217 | succeeds iff every week yields an event and the template formats; then one event per week in order, at the templated path; otherwise the first failing week's error, or the template's error when all weeks succeed |
| UpstairsRoster.AdminCalendar | personalschedule.py:237-250 | succeeds iff every week has 3 kitchen names (else IndexError); one admin event per week in order, at `filename` as given |
| UpstairsRoster.IndexedCalendarNeedsOnlyKitchens | personalschedule.py:185-217 | on an entry of the person index, a week's event fails only because the kitchen has fewer than 3 names |
| Grouping.PersonIndex | personalschedule.py:149-155 | the keys are exactly the names that occur; each key maps to the person's schedule (`PersonalSchedule`) (the same code is scripts/personalschedule.py:126-132 and scripts/generate-personal-ics.py:72-79) |
| Grouping.NamesAreListedNames | personalschedule.py:151-153 | a name is a key iff some week lists it |
| Grouping.PersonalWeeksListPerson | personalschedule.py:151-153 | every week in a person's entry lists that person |
| Grouping.PersonalScheduleLength | personalschedule.py:151-153 | a person's entry has one week per occurrence of the name across the schedule |
| Grouping.PersonalScheduleIsFilter | personalschedule.py:151-153 | when no week lists a name twice, the entry is exactly the weeks listing the person, in schedule order |
| Grouping.DoubleListingRepeats | personalschedule.py:152-153 | for every schedule and every week that lists a name twice, appending the week adds it twice to the end of that person's entry |
| Grouping.AbsentHasNoWeeks | personalschedule.py:151-153 | a name no week lists has an empty schedule |
| Filenames.Pieces | personalschedule.py:177 | a template is its brace-free pieces with `{}` between neighbours |
| Filenames.Format | personalschedule.py:177 | `str.format` with one argument: no placeholder leaves the template unchanged; one placeholder is replaced by the argument; two or more is IndexError |
| Filenames.FormatFilenameTemplate | personalschedule.py:177-182 | succeeds iff the template has exactly one placeholder and the name is not the text "{}"; the result is the template with the lower-cased name at the placeholder; ValueError when the result would equal the template; IndexError for two or more placeholders (the same code is scripts/personalschedule.py:154-159) |
| Filenames.FilledIsTemplateOnlyForBraces | personalschedule.py:178 | with one placeholder, the filled template equals the template only when the argument is "{}" |
| Filenames.LowerIsBracesOnlyForBraces | personalschedule.py:177 | a name lower-cases to "{}" only if it is "{}" |
| Filenames.FormatFillsSinglePlaceholder | personalschedule.py:173-175 | `before{}after` with brace-free ends becomes `before + lower(name) + after`, and a ValueError only for the name "{}" |
| Events.WeekEvent | personalschedule.py:205-214 | an event has the given title, start and description, is created with a 6-day duration, and is transparent and made all-day |
| Events.BuildEvents | personalschedule.py:204-215 | the event loop: succeeds iff every week's event builds; then one event per week in order; otherwise the error of the first failing week, with all earlier weeks built |
| ThreeRoleRoster.WeekCleaning.Cleaners | scripts/personalschedule.py:34-36 | the cleaners are the kitchen names in order, then toilets and showers (the same list is scripts/generate-personal-ics.py:23-25) |
| ThreeRoleRoster.WeekCleaning.Contains | scripts/personalschedule.py:38-40 | a person is in the week iff they hold one of the three roles (the same membership is scripts/generate-personal-ics.py:27-29) |
| ThreeRoleRoster.WeekCleaning.JobName | scripts/personalschedule.py:47-56 | the job is found exactly for the week's cleaners: "Keuken" iff in the kitchen, then "Wc's", then "Douches"; otherwise ValueError |
| ThreeRoleRoster.WeekCleaning.DescriptionLinesWith | scripts/personalschedule.py:58-68 | \|kitchen\|+9 lines: "TAKEN WEEK n" with n the ISO week, "", the kitchen heading, one line per kitchen name, then the toilets and showers sections |
| ThreeRoleRoster.WeekCleaning.Describe | scripts/personalschedule.py:58-68 | `str(week)` never fails. When no name holds a newline, splitting it on newlines gives back the description lines (with the emoji headings), and it ends with a newline, "- " and the showers name, with no trailing newline |
| ThreeRoleRoster.DescriptionSplitsIntoLines | scripts/personalschedule.py:60-68 | the description splits back into its lines, with no trailing newline: it ends with the showers line |
| ThreeRoleRoster.DescriptionEndsWithShowers | scripts/personalschedule.py:59-67 | whatever the headings, the description is the lines before the last, a newline, and "- " with the showers name |
| ThreeRoleRoster.KeptRows | scripts/personalschedule.py:100 | the kept rows all have only non-empty fields, and there are no more of them than lines |
| ThreeRoleRoster.KeptRowsAppend | scripts/personalschedule.py:100 | filtering is line by line and keeps order: the rows of a + b are the rows of a, then those of b |
| ThreeRoleRoster.KeptRowsOfLine | scripts/personalschedule.py:100 | a single line is kept, as its fields, exactly when no field is empty, so a first (header) line is kept like any other |
| ThreeRoleRoster.BlankLineDropped | scripts/personalschedule.py:100 | a line with an empty field (including the blank line) yields no row |
| ThreeRoleRoster.ParseRow | scripts/personalschedule.py:104-106 | a kept row: fewer than 4 fields is a ValueError; an unparsable date is a ValueError; otherwise a week with the fields between the second and the last two as kitchen |
| ThreeRoleRoster.CleanersAreTrailingFields | scripts/personalschedule.py:104-106 | a parsed week's cleaners are exactly the row's fields after the first two |
| ThreeRoleRoster.Csv2Schedule | scripts/personalschedule.py:100-108 | the append loop yields exactly `ScheduleOf(KeptRows(lines))` (the same parser is scripts/generate-personal-ics.py:61-69) |
| ThreeRoleRoster.ScheduleOfOk | scripts/personalschedule.py:104-108 | the parse succeeds iff every kept row parses, and then yields exactly one week per row, in order |
| ThreeRoleRoster.ScheduleOfErr | scripts/personalschedule.py:104-106 | a failed parse reports the error of the first row that does not parse |
| ThreeRoleRoster.PersonalWeeksHaveJobs | scripts/personalschedule.py:126-132 | every week of a person's index entry has a job for that person |
| ThreeRoleRoster.PersonalEvent | scripts/personalschedule.py:182-191 | a week's personal event exists iff the person is in the week (else ValueError); the title is "Weektaak: " + job |
| ThreeRoleRoster.CreateCalendar | scripts/personalschedule.py:181-194 | succeeds iff the person is in every week and the template formats; then one event per week in order at the templated path; otherwise ValueError for a missing week, or the template's error |
| ThreeRoleRoster.AdminCalendar | scripts/personalschedule.py:213-226 | never fails: one "Weektaak" event per week, in order, at `filename` |
| PositionalRoster.IndexOf | scripts/generate-personal-ics.py:39 | `list.index`: the position of the first occurrence |
| PositionalRoster.JobName | scripts/generate-personal-ics.py:36-39 | ValueError iff the name is not a cleaner; IndexError iff its first position is 5 or more; otherwise the label at that position |
| PositionalRoster.AgreesWithRolesForThreeKitchens | scripts/generate-personal-ics.py:38-39 | with exactly 3 kitchen names, the positional label equals the role label of the three-role roster |
| PositionalRoster.ShortKitchenMislabelsToilets | scripts/generate-personal-ics.py:38-39 | with 2 kitchen names the toilet cleaner gets "Keuken" where the role rule gives "Wc's" |
| PositionalRoster.LongKitchenMislabels | scripts/generate-personal-ics.py:38-39 | with 4 kitchen names the toilet cleaner gets "Douches" and the shower cleaner's lookup is an IndexError |
| PositionalRoster.Describe | scripts/generate-personal-ics.py:41-51 | the three-role description under the double-encoded headings. When no name holds a newline, splitting it on newlines gives back those lines, and it ends with a newline, "- " and the showers name |
| PositionalRoster.DescriptionsDifferOnlyInHeadings | scripts/generate-personal-ics.py:41-51 | line by line, this description equals the three-role one except for the three heading lines, and the kitchen heading does differ |
| PositionalRoster.PersonalEvent | scripts/generate-personal-ics.py:86-92 | a week's event exists iff the positional job lookup succeeds, and carries its error otherwise; the title is "Weektaak: " + label |
| PositionalRoster.CreateCalendar | scripts/generate-personal-ics.py:82-97 | succeeds iff every job lookup succeeds and the template has at most one placeholder; the path is `filename.format(person.lower())`, so with no placeholder it is `filename` for every person; IndexError for two or more placeholders |
| PositionalRoster.IndexedWeeksFailOnlyByPosition | scripts/generate-personal-ics.py:72-79 | on an entry of the person index the lookup never reports a missing name, only a position past the fifth |
| JsonExport.ZipTasks | csv2json.py:23 | `dict(zip(keys, tasks))`: the i-th key maps to the i-th task for i below both lengths, and no other key is present |
| JsonExport.RowTasks | csv2json.py:11 | the five task keys paired positionally with the row's tasks |
| JsonExport.ExtraTasksDropped | csv2json.py:23 | tasks past the fifth (such as upstairs) are dropped, and "upstairs" is never a key |
| JsonExport.RowEntry | csv2json.py:21-23 | fewer than 2 fields is a ValueError; an unparsable date is a ValueError; otherwise the ISO date of the start field with the row's tasks |
| JsonExport.KeyIsStartDate | csv2json.py:22 | the key reads back as the same date; for a 10-character start it is the same digits rearranged as YYYY-MM-DD |
| JsonExport.CsvToJson | csv2json.py:18-23 | an empty text has no header (StopIteration); otherwise the loop from the second row yields exactly `Collect(Entries(rows[1..]))` |
| JsonExport.CollectOkIffEntriesOk | csv2json.py:20-23 | there is no early stop: the conversion succeeds iff every data row does |
| JsonExport.CollectErrIsFirstBadEntry | csv2json.py:20-22 | a failed conversion reports the error of the first bad row |
| JsonExport.CollectErrPersists | csv2json.py:20-22 | once a prefix of the rows fails, the whole conversion fails the same way |
| JsonExport.KeysAreEntryKeys | csv2json.py:23 | the keys are exactly the start dates of the rows |
| JsonExport.LastRowWins | csv2json.py:23 | each key holds the tasks of the last row with that start date |
| Dates.ParsedDateFields | personalschedule.py:128 | what `strptime("%d-%m-%Y")` accepts has three digit fields (1-2, 1-2 and 4 digits), and the date is exactly their values |
| Dates.DayMonthYearRoundTrip | personalschedule.py:128 | the zero-padded DD-MM-YYYY form of every date parses back to it |
| Dates.FormatIso | csv2json.py:22 | `isoformat()` is 10 characters with '-' at positions 4 and 7 |
| Dates.IsoRoundTrip | csv2json.py:22 | the ISO form of every date reads back as that date |
| Dates.IsoRearrangesDayMonthYear | csv2json.py:22 | a 10-character parsed date is the canonical DD-MM-YYYY form, and its ISO form is the same digits rearranged |
| Dates.IsoWeek | personalschedule.py:66 | the week number is between 1 and 53 |
| Dates.IsoWeekIsThursdayCount | personalschedule.py:66 | the week number is the 1-based count of the week's Thursday in the year that holds that Thursday (ISO 8601:2004 section 4.1.4) |
| Dates.IsoWeekCountsFromIsoYear | personalschedule.py:66 | the week number counts whole weeks from the week-1 Monday of the ISO year holding the date |
| Dates.ThursdayYearExists | personalschedule.py:66 | the Thursday of a date's week lies in the date's year or a neighbouring year |
| Dates.IsoYearIsNeighbour | personalschedule.py:66 | the ISO year holding a day is its calendar year, the one before or the one after |
| Dates.CountsFromPreviousYear | personalschedule.py:66 | a day before its year's week-1 Monday gets a week number counted from the previous year's week-1 Monday |
| Dates.CountsFromOwnYear | personalschedule.py:66 | a day from its year's week-1 Monday up to the next year's gets a week number counted from its own year's week-1 Monday |
| Dates.CountsFromNextYear | personalschedule.py:66 | a day on or after the next year's week-1 Monday gets a week number counted from that Monday |
| Dates.IsoYearUnique | personalschedule.py:66 | a day lies in at most one ISO year |
| Dates.IsoYearExists | personalschedule.py:66 | every day lies in some ISO year: its calendar year or a neighbour. With IsoYearUnique, it lies in exactly one |
| Dates.January4InWeek1 | personalschedule.py:66 | January 4 always lies in week 1 |
| Text.Split | personalschedule.py:121 | `str.split(sep)`: at least one field, no field holds the separator, and joining the fields gives the text back |
| Text.SplitJoin | personalschedule.py:121 | splitting undoes joining when no part holds the separator |
| Text.NatToString | personalschedule.py:66 | `str(n)`: decimal digits denoting n, with no leading zero |
| Text.PadDigits | csv2json.py:22 | zero-padded to the given width: exactly that many digits, denoting n |
| Text.PadDigitsOfValue | personalschedule.py:128 | every digit string is the padded form of its own value |

## Left out

- File and directory I/O is not modelled. This covers `read_text`, `write_text`, `open`, `mkdir`, the `cleanup` functions, `cli` and the `__main__` blocks. The model takes the decoded text as a list of lines and returns the calendar or JSON data as a value.
- Base32 decoding of the roster file (`base64.b32decode`, RFC 4648 section 6) and `str.splitlines` happen before the model begins. Because of `splitlines`, no name contains a newline; the description lemmas take that as a requirement.
- The `ics` library is not modelled: `Calendar`, `Event`, `make_all_day` and iCalendar serialisation (RFC 5545). Events are plain records, and a calendar keeps its events in insertion order. The library keeps them in a set of events that are all distinct, because each has its own uid; the written order is not insertion order.
- `Events.WeekEvent`: records the constructor's `duration=timedelta(days=6)` and that `make_all_day` is called. It does not model the effect of `make_all_day`, which moves the end to the day after the end day, so the written all-day event covers 7 dates, Monday to Sunday.
- The event start is a date. The `isoformat(sep=" ")` text of the midnight datetime is not modelled.
- The `created` and `last_modified` timestamps (`datetime.now()`) are wall-clock values and are omitted.
- `csv.reader` quoting rules (RFC 4180) are not modelled: JSON rows are plain comma splits.
- The JSON text is not modelled: `json.dumps` escaping, the compact separators, and key order (the map is unordered).
- `Dates.ParseDayMonthYear`: accepts only ASCII digits with no padding. It leaves out two other inputs `strptime` accepts: a space-padded one-digit day (` 1`) and non-ASCII digits. Years are restricted to 1..9999, as in `datetime`.
- `Text.Lower`: lower-cases only ASCII letters, not the full Unicode `str.lower`.
- `Filenames.Format`: requires every brace of the template to belong to a literal `{}`. Brace escapes (`{{`), numbered or named fields and stray braces are left out.
- `Filenames.FormatFilenameTemplate`: compares paths as strings. `Path` normalisation (repeated or trailing separators, `.` components) is not modelled.
- The browser scripts (`script.js`, `public/script.js`) are not part of this model.
- Two people whose lower-cased names coincide are written to the same file, so one file overwrites the other. File writing is out of scope, so this is not modelled.
