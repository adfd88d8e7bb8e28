/** The instructional-day count of a school year (backend/routers/calendar.py, lines 167-195). */
module DayCount {
  import opened Agenda
  import opened SchoolDays
  import AcademicCalendar

  datatype DayCounts = DayCounts(instructionalDays: nat, weekdayDays: nat, nonInstructionalOverrides: nat,
                                 instructionalOverrides: nat)

  // ---------------------------------------------------------------- the days counted

  ghost function DaysWhere(start: Date, end: Date, p: Date -> bool): set<Date> {
    set d: Date | start <= d <= end && p(d)
  }

  ghost function Weekdays(start: Date, end: Date): set<Date> {
    DaysWhere(start, end, IsWeekday)
  }

  /** The days that the lesson planner accepts. */
  ghost function PlannerDays(events: seq<Event>, start: Date, end: Date): set<Date> {
    set d: Date | start <= d <= end && Instructional(events, d)
  }

  ghost function OpenDays(m: map<Date, bool>, start: Date, end: Date): set<Date> {
    DaysWhere(start, end, d => Lookup(m, d))
  }

  /** Weekdays taken out, and weekend days put in, by the events. */
  function TakenOut(m: map<Date, bool>): set<Date> {
    set d | d in m && !m[d] && IsWeekday(d)
  }

  function PutIn(m: map<Date, bool>): set<Date> {
    set d | d in m && m[d] && !IsWeekday(d)
  }

  lemma OpenDaysArePlannerDays(events: seq<Event>, m: map<Date, bool>, start: Date, end: Date)
    requires IsEventMap(events, m)
    ensures OpenDays(m, start, end) == PlannerDays(events, start, end)
  {
    forall d: Date ensures Lookup(m, d) <==> Instructional(events, d) {
      assert d in m <==> HasEvent(events, d);
    }
  }

  // ---------------------------------------------------------------- the counting loop

  /** _calculate_instructional_day_count. */
  method CountInstructionalDays(start: Date, end: Date, events: seq<Event>)
    returns (c: DayCounts, ghost m: map<Date, bool>)
    requires start <= end
    ensures IsEventMap(events, m)
    ensures c.instructionalDays == |PlannerDays(events, start, end)|
    ensures c.weekdayDays == |Weekdays(start, end)|
    ensures c.nonInstructionalOverrides == |TakenOut(m)| && c.instructionalOverrides == |PutIn(m)|
  {
    var eventMap := BuildEventMap(events);
    m := eventMap;
    var weekdayDays, instructionalDays := CountDays(eventMap, start, end);
    OpenDaysArePlannerDays(events, eventMap, start, end);
    c := DayCounts(instructionalDays, weekdayDays, |TakenOut(eventMap)|, |PutIn(eventMap)|);
  }

  method CountDays(eventMap: map<Date, bool>, start: Date, end: Date) returns (weekdayDays: nat, instructionalDays: nat)
    requires start <= end
    ensures weekdayDays == |Weekdays(start, end)| && instructionalDays == |OpenDays(eventMap, start, end)|
  {
    weekdayDays, instructionalDays := 0, 0;
    var current := start;
    ghost var open := d => Lookup(eventMap, d);
    NoDays(start, IsWeekday);
    NoDays(start, open);
    while current <= end
      invariant start <= current <= end + 1
      invariant weekdayDays == |DaysWhere(start, current - 1, IsWeekday)|
      invariant instructionalDays == |DaysWhere(start, current - 1, open)|
      decreases end + 1 - current
    {
      NextDay(start, current, IsWeekday);
      NextDay(start, current, open);
      if IsWeekday(current) {
        weekdayDays := weekdayDays + 1;
      }
      if Lookup(eventMap, current) {
        instructionalDays := instructionalDays + 1;
      }
      current := current + 1;
    }
    assert DaysWhere(start, end, open) == OpenDays(eventMap, start, end);
  }

  lemma NoDays(start: Date, p: Date -> bool)
    ensures DaysWhere(start, start - 1, p) == {}
  {
  }

  lemma NextDay(start: Date, d: Date, p: Date -> bool)
    requires start <= d
    ensures |DaysWhere(start, d, p)| == |DaysWhere(start, d - 1, p)| + if p(d) then 1 else 0
  {
    assert DaysWhere(start, d, p) == DaysWhere(start, d - 1, p) + if p(d) then {d} else {};
  }

  // ---------------------------------------------------------------- the identity

  ghost function Inside(s: set<Date>, start: Date, end: Date): set<Date> {
    set d | d in s && start <= d <= end
  }

  ghost function Outside(s: set<Date>, start: Date, end: Date): set<Date> {
    set d | d in s && !(start <= d <= end)
  }

  lemma SetIdentity(open: set<Date>, week: set<Date>, out: set<Date>, put: set<Date>)
    requires open == (week - out) + put && out <= week && put !! week
    ensures |open| == |week| - |out| + |put|
  {
    assert week == (week - out) + out;
    assert |week| == |week - out| + |out|;
  }

  /** An open day is a weekday not taken out, or a day put in. */
  lemma OpenDay(m: map<Date, bool>, d: Date)
    ensures Lookup(m, d) <==> (IsWeekday(d) && d !in TakenOut(m)) || d in PutIn(m)
  {
  }

  /** Counting only the overrides inside the year, the identity always holds. */
  lemma InsideIdentity(m: map<Date, bool>, start: Date, end: Date)
    ensures |OpenDays(m, start, end)|
            == |Weekdays(start, end)| - |Inside(TakenOut(m), start, end)| + |Inside(PutIn(m), start, end)|
  {
    var open, week := OpenDays(m, start, end), Weekdays(start, end);
    var out, put := Inside(TakenOut(m), start, end), Inside(PutIn(m), start, end);
    forall d ensures d in open <==> d in (week - out) + put {
      OpenDay(m, d);
    }
    assert open == (week - out) + put;
    SetIdentity(open, week, out, put);
  }

  lemma InsideOutside(s: set<Date>, start: Date, end: Date)
    ensures |s| == |Inside(s, start, end)| + |Outside(s, start, end)|
  {
    assert s == Inside(s, start, end) + Outside(s, start, end);
  }

  /** The reported numbers add up exactly when the overrides outside the year balance. */
  lemma IdentityIff(m: map<Date, bool>, start: Date, end: Date)
    ensures |OpenDays(m, start, end)| == |Weekdays(start, end)| - |TakenOut(m)| + |PutIn(m)|
       <==> |Outside(TakenOut(m), start, end)| == |Outside(PutIn(m), start, end)|
  {
    InsideIdentity(m, start, end);
    InsideOutside(TakenOut(m), start, end);
    InsideOutside(PutIn(m), start, end);
  }

  /** In a calendar kept by its routes every event is inside its year, so the numbers add up. */
  lemma CountsAddUp(years: AcademicCalendar.Years, rows: AcademicCalendar.DayEvents, year: int, events: seq<Event>,
                    m: map<Date, bool>)
    requires AcademicCalendar.EventsOk(years, rows) && year in years && IsEventMap(events, m)
    requires forall e :: e in events ==> e.id in rows && rows[e.id].year == year && rows[e.id].date == e.date
    ensures |PlannerDays(events, years[year].start, years[year].end)|
         == |Weekdays(years[year].start, years[year].end)| - |TakenOut(m)| + |PutIn(m)|
  {
    var start, end := years[year].start, years[year].end;
    forall d | d in m ensures start <= d <= end {
      var e :| e in events && e.date == d;
      assert AcademicCalendar.EventFits(years, rows[e.id]);
    }
    assert Outside(TakenOut(m), start, end) == {} && Outside(PutIn(m), start, end) == {};
    IdentityIff(m, start, end);
    OpenDaysArePlannerDays(events, m, start, end);
  }
}
