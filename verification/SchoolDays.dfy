/** Which days of a school year are instructional
    (backend/routers/lesson_plans.py, lines 80-91; backend/routers/calendar.py, lines 167-189). */
module SchoolDays {
  import opened Agenda

  datatype Event = Event(id: int, date: Date, instructional: bool)

  ghost predicate HasEvent(events: seq<Event>, d: Date) {
    exists e :: e in events && e.date == d
  }

  ghost predicate HasOpenEvent(events: seq<Event>, d: Date) {
    exists e :: e in events && e.date == d && e.instructional
  }

  /** The closed form of the event dictionary: an instructional event on a date wins. */
  ghost predicate IsEventMap(events: seq<Event>, m: map<Date, bool>) {
    && (forall d :: d in m <==> HasEvent(events, d))
    && (forall d :: d in m ==> (m[d] <==> HasOpenEvent(events, d)))
  }

  /** The event loop: a date once marked instructional stays so. */
  method BuildEventMap(events: seq<Event>) returns (m: map<Date, bool>)
    ensures IsEventMap(events, m)
  {
    m := map[];
    for i := 0 to |events|
      invariant IsEventMap(events[..i], m)
    {
      var e := events[i];
      ghost var before := m;
      assert events[..i + 1] == events[..i] + [e];
      if !(e.date in m && m[e.date]) {
        m := m[e.date := e.instructional];
      }
      EventMapStep(events[..i], e, before);
    }
    assert events[..|events|] == events;
  }

  lemma EventMapStep(events: seq<Event>, e: Event, m: map<Date, bool>)
    requires IsEventMap(events, m)
    ensures IsEventMap(events + [e], if e.date in m && m[e.date] then m else m[e.date := e.instructional])
  {
    forall d
      ensures HasEvent(events + [e], d) <==> HasEvent(events, d) || d == e.date
      ensures HasOpenEvent(events + [e], d) <==> HasOpenEvent(events, d) || (d == e.date && e.instructional)
    {
      if x :| x in events && x.date == d { assert x in events + [e]; }
      if x :| x in events && x.date == d && x.instructional { assert x in events + [e]; }
      assert e in events + [e];
    }
  }

  /** The map is determined by the set of events, so the order of the events is immaterial. */
  lemma EventOrderImmaterial(events: seq<Event>, others: seq<Event>, m: map<Date, bool>, n: map<Date, bool>)
    requires forall e :: e in events <==> e in others
    requires IsEventMap(events, m) && IsEventMap(others, n)
    ensures m == n
  {
    forall d ensures HasEvent(events, d) <==> HasEvent(others, d) {
      if x :| x in events && x.date == d { assert x in others; }
      if x :| x in others && x.date == d { assert x in events; }
    }
    forall d ensures HasOpenEvent(events, d) <==> HasOpenEvent(others, d) {
      if x :| x in events && x.date == d && x.instructional { assert x in others; }
      if x :| x in others && x.date == d && x.instructional { assert x in events; }
    }
    forall d ensures d in m <==> d in n {
      assert d in m <==> HasEvent(events, d);
      assert d in n <==> HasEvent(others, d);
    }
    assert m.Keys == n.Keys;
    assert forall d :: d in m ==> m[d] == n[d];
  }

  predicate IsWeekday(d: Date) {
    Weekday(d) < 5
  }

  /** Of the seven days of any week, counted from the Monday of ordinal 1, the first five are weekdays. */
  lemma IsWeekdayIff(week: int, day: int)
    requires 0 <= day < 7
    ensures IsWeekday(1 + day + 7 * week) <==> day < 5
  {
  }

  /** event_map.get(day, weekday). */
  predicate Lookup(m: map<Date, bool>, d: Date) {
    if d in m then m[d] else IsWeekday(d)
  }

  /** An event decides its day; without one, weekdays are instructional. */
  ghost predicate Instructional(events: seq<Event>, d: Date) {
    if HasEvent(events, d) then HasOpenEvent(events, d) else IsWeekday(d)
  }

  /** A day is open when some event opens it, or when it is one of Monday to Friday and no event speaks of it. */
  lemma InstructionalIff(events: seq<Event>, d: Date)
    ensures Instructional(events, d)
            <==> (exists e :: e in events && e.date == d && e.instructional)
                 || (0 <= Weekday(d) <= 4 && forall e :: e in events ==> e.date != d)
  {
  }
}
