/**
 * Calendar events as plain records, and the loop every calendar builder
 * shares: one event per week, in order, where building a week's event can
 * fail and the first failure aborts the whole calendar. The iCalendar
 * library, its text form and the created/last-modified wall-clock stamps
 * are not part of this model.
 */
module Events {
  import opened Outcomes
  import opened Dates

  /** Every event lasts six days (`timedelta(days=6)`). */
  const DurationDays := 6

  /**
   * What an event of the roster carries: its title, the day it begins, its
   * length in days, whether it shows as free time, whether it is an all-day
   * event, and its description text.
   */
  datatype Event = Event(
    title: string,
    begin: CivilDate,
    durationDays: nat,
    transparent: bool,
    allDay: bool,
    description: string)

  /** The event of one roster week: created with a six-day duration, transparent and all-day. */
  function WeekEvent(title: string, begin: CivilDate, description: string): (e: Event)
    ensures e.title == title && e.begin == begin && e.description == description
    ensures e.durationDays == DurationDays && e.transparent && e.allDay
  {
    Event(title, begin, DurationDays, true, true, description)
  }

  /** A calendar written to `path`, holding `events` in the order they were added. */
  datatype CalendarFile = CalendarFile(path: string, events: seq<Event>)

  /** All per-week results succeed. */
  predicate AllBuilt<W>(weeks: seq<W>, eventFor: W -> Result<Event>)
  {
    forall k :: 0 <= k < |weeks| ==> eventFor(weeks[k]).Ok?
  }

  /**
   * The loop body of `create_calendar` and `admin_calendar`, run over the
   * weeks: either every week's event, in week order, or the error of the
   * first week whose event could not be built.
   */
  method BuildEvents<W>(weeks: seq<W>, eventFor: W -> Result<Event>) returns (r: Result<seq<Event>>)
    ensures r.Ok? <==> AllBuilt(weeks, eventFor)
    ensures r.Ok? ==> |r.value| == |weeks|
    ensures r.Ok? ==> forall k :: 0 <= k < |weeks| ==> eventFor(weeks[k]) == Ok(r.value[k])
    ensures r.Err? ==>
      exists k ::
        && 0 <= k < |weeks|
        && eventFor(weeks[k]) == Err(r.error)
        && forall j :: 0 <= j < k ==> eventFor(weeks[j]).Ok?
  {
    var events: seq<Event> := [];
    for i := 0 to |weeks|
      invariant |events| == i
      invariant forall k :: 0 <= k < i ==> eventFor(weeks[k]) == Ok(events[k])
    {
      var built := eventFor(weeks[i]);
      if built.Err? {
        return Err(built.error);
      }
      events := events + [built.value];
    }
    return Ok(events);
  }
}
