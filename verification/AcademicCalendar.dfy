/** School years, terms, grading periods and calendar events, and the routes that change them
    (backend/routers/calendar.py, lines 76-145, 207-285, 315-416, 445-518 and 547-604). */
module AcademicCalendar {
  import opened Wrappers
  import opened Strings
  import opened Counting
  import opened Agenda

  /** ServerError: a query for at most one row found several. */
  datatype Error = NotFound | Conflict | BadRequest | ServerError

  datatype Year = Year(name: string, start: Date, end: Date, active: bool)
  datatype Term = Term(year: int, name: string, start: Date, end: Date)
  datatype Period = Period(term: int, name: string, start: Date, end: Date)
  datatype DayEvent = DayEvent(year: int, name: string, date: Date, instructional: bool)

  type Years = map<int, Year>
  type Terms = map<int, Term>
  type Periods = map<int, Period>
  type DayEvents = map<int, DayEvent>

  // ---------------------------------------------------------------- the invariant

  ghost predicate OneActive(years: Years) {
    forall a, b :: a in years && b in years && years[a].active && years[b].active ==> a == b
  }

  predicate TermFits(years: Years, t: Term) {
    t.year in years && years[t.year].start <= t.start <= t.end <= years[t.year].end
  }

  predicate Disjoint(a: Term, b: Term) {
    a.end < b.start || b.end < a.start
  }

  ghost predicate TermsOk(years: Years, terms: Terms) {
    && (forall t :: t in terms ==> TermFits(years, terms[t]))
    && (forall t, u :: t in terms && u in terms && t != u && terms[t].year == terms[u].year ==>
          Disjoint(terms[t], terms[u]))
  }

  predicate PeriodFits(terms: Terms, p: Period) {
    p.term in terms && terms[p.term].start <= p.start <= p.end <= terms[p.term].end
  }

  ghost predicate PeriodsOk(terms: Terms, periods: Periods) {
    forall p :: p in periods ==> PeriodFits(terms, periods[p])
  }

  predicate EventFits(years: Years, e: DayEvent) {
    e.year in years && years[e.year].start <= e.date <= years[e.year].end
  }

  ghost predicate EventsOk(years: Years, events: DayEvents) {
    forall e :: e in events ==> EventFits(years, events[e])
  }

  /** A date lies in at most one term of a year. */
  lemma OneTermADay(years: Years, terms: Terms, t: int, u: int, d: Date)
    requires TermsOk(years, terms) && t in terms && u in terms && terms[t].year == terms[u].year
    requires terms[t].start <= d <= terms[t].end && terms[u].start <= d <= terms[u].end
    ensures t == u
  {
  }

  /** Every grading period lies in its year, and periods of different terms of a year never meet. */
  lemma PeriodsNest(years: Years, terms: Terms, periods: Periods, p: int, q: int)
    requires TermsOk(years, terms) && PeriodsOk(terms, periods) && p in periods && q in periods
    requires terms[periods[p].term].year == terms[periods[q].term].year && periods[p].term != periods[q].term
    ensures var year := years[terms[periods[p].term].year];
            year.start <= periods[p].start <= periods[p].end <= year.end
            && (periods[p].end < periods[q].start || periods[q].end < periods[p].start)
  {
    assert TermFits(years, terms[periods[p].term]) && PeriodFits(terms, periods[p]);
    assert PeriodFits(terms, periods[q]);
    assert Disjoint(terms[periods[p].term], terms[periods[q].term]);
  }

  // ---------------------------------------------------------------- what the queries find

  predicate YearNamed(years: Years, name: string, except: Option<int>) {
    exists y :: y in years && years[y].name == name && Some(y) != except
  }

  predicate TermNamed(terms: Terms, year: int, name: string, except: Option<int>) {
    exists t :: t in terms && terms[t].year == year && terms[t].name == name && Some(t) != except
  }

  predicate PeriodNamed(periods: Periods, term: int, name: string, except: Option<int>) {
    exists p :: p in periods && periods[p].term == term && periods[p].name == name && Some(p) != except
  }

  /** The rows that _ensure_term_no_overlap finds. */
  function Overlapping(terms: Terms, year: int, start: Date, end: Date, except: Option<int>): set<int> {
    set t | t in terms && terms[t].year == year && terms[t].start <= end && terms[t].end >= start && Some(t) != except
  }

  function OverlapError(found: set<int>): Option<Error> {
    if found == {} then None else if |found| == 1 then Some(Conflict) else Some(ServerError)
  }

  /** What a term is refused for once its year is known. */
  function TermError(years: Years, terms: Terms, t: Term, except: Option<int>): (e: Option<Error>)
    requires t.year in years
    ensures e.None? ==> years[t.year].start <= t.start && t.end <= years[t.year].end
    ensures e.None? ==> forall u :: u in terms && Some(u) != except && terms[u].year == t.year ==> Disjoint(t, terms[u])
  {
    if t.start < years[t.year].start || t.end > years[t.year].end then Some(BadRequest)
    else if TermNamed(terms, t.year, t.name, except) then Some(Conflict)
    else
      var found := Overlapping(terms, t.year, t.start, t.end, except);
      assert found == {} ==> forall u :: u in terms ==> u !in found;
      OverlapError(found)
  }

  /** With the terms of a year disjoint, a term that is inside one of them conflicts with that one only. */
  lemma InsideOneConflicts(years: Years, terms: Terms, u: int, t: Term)
    requires TermsOk(years, terms) && u in terms && t.year == terms[u].year
    requires terms[u].start <= t.start <= t.end <= terms[u].end
    ensures OverlapError(Overlapping(terms, t.year, t.start, t.end, None)) == Some(Conflict)
  {
    var found := Overlapping(terms, t.year, t.start, t.end, None);
    assert u in found;
    assert forall v :: v in found ==> v == u;
    assert found == {u};
  }

  /** Some day is in both terms. */
  ghost predicate ShareDay(t: Term, u: Term) {
    exists d :: InTerm(t, d) && InTerm(u, d)
  }

  predicate InTerm(t: Term, d: Date) {
    t.start <= d <= t.end
  }

  /** A term goes through exactly when it lies in its year, no other term of the year has its name, and none shares a
      day with it. */
  lemma TermAcceptedIff(years: Years, terms: Terms, t: Term, except: Option<int>)
    requires TermsOk(years, terms) && t.year in years && t.start <= t.end
    ensures TermError(years, terms, t, except) == None
            <==> && years[t.year].start <= t.start && t.end <= years[t.year].end
                 && forall u :: u in terms && Some(u) != except && terms[u].year == t.year ==>
                      terms[u].name != t.name && !ShareDay(t, terms[u])
  {
    var found := Overlapping(terms, t.year, t.start, t.end, except);
    forall u | u in terms ensures u in found <==>
      terms[u].year == t.year && Some(u) != except && ShareDay(t, terms[u])
    {
      assert TermFits(years, terms[u]);
      if terms[u].start <= t.end && terms[u].end >= t.start {
        var d := if t.start >= terms[u].start then t.start else terms[u].start;
        assert InTerm(t, d) && InTerm(terms[u], d);
      }
    }
    if found != {} {
      var u := MemberOf(found);
    }
  }

  /** Outside its year a term is a bad request; inside, a name taken is a conflict, and so is one term in the way, while
      several are more than the query expects. */
  lemma TermRefusedWith(years: Years, terms: Terms, t: Term, except: Option<int>)
    requires t.year in years
    ensures TermError(years, terms, t, except) == Some(BadRequest)
            <==> t.start < years[t.year].start || t.end > years[t.year].end
    ensures TermError(years, terms, t, except) != Some(NotFound)
    ensures TermError(years, terms, t, except) == Some(ServerError) ==>
              exists u, v :: u != v && u in terms && v in terms && Some(u) != except && Some(v) != except
                             && terms[u].year == t.year == terms[v].year
                             && !Disjoint(t, terms[u]) && !Disjoint(t, terms[v])
  {
    var found := Overlapping(terms, t.year, t.start, t.end, except);
    if TermError(years, terms, t, except) == Some(ServerError) {
      var u := MemberOf(found);
      assert |found - {u}| == |found| - 1;
      var v := MemberOf(found - {u});
      assert u in found && v in found;
    }
  }

  /** A grading period goes through exactly when it lies in its term and no other period of the term has its name;
      outside it is a bad request, and a name taken is a conflict. */
  lemma PeriodErrorIs(terms: Terms, periods: Periods, p: Period, except: Option<int>)
    requires p.term in terms
    ensures var inside := terms[p.term].start <= p.start && p.end <= terms[p.term].end;
            var taken := exists q ::
                           q in periods && periods[q].term == p.term && periods[q].name == p.name && Some(q) != except;
            && (PeriodError(terms, periods, p, except) == None <==> inside && !taken)
            && (PeriodError(terms, periods, p, except) == Some(BadRequest) <==> !inside)
            && (PeriodError(terms, periods, p, except) == Some(Conflict) <==> inside && taken)
  {
    if q :| q in periods && periods[q].term == p.term && periods[q].name == p.name && Some(q) != except {
      assert PeriodNamed(periods, p.term, p.name, except);
    }
  }

  /** An event goes through exactly when it lies in its year; otherwise it is a bad request. */
  lemma EventErrorIs(years: Years, e: DayEvent)
    requires e.year in years
    ensures EventError(years, e)
            == if years[e.year].start <= e.date <= years[e.year].end then None else Some(BadRequest)
  {
  }

  /** What a grading period is refused for once its term is known. */
  function PeriodError(terms: Terms, periods: Periods, p: Period, except: Option<int>): (e: Option<Error>)
    requires p.term in terms
    ensures e.None? ==> terms[p.term].start <= p.start && p.end <= terms[p.term].end
  {
    if p.start < terms[p.term].start || p.end > terms[p.term].end then Some(BadRequest)
    else if PeriodNamed(periods, p.term, p.name, except) then Some(Conflict)
    else None
  }

  function EventError(years: Years, e: DayEvent): (r: Option<Error>)
    requires e.year in years
    ensures r.None? <==> EventFits(years, e)
  {
    if e.date < years[e.year].start || e.date > years[e.year].end then Some(BadRequest) else None
  }

  function Outcome(refusal: Option<Error>, id: int): Result<int, Error> {
    if refusal.Some? then Err(refusal.value) else Ok(id)
  }

  // ---------------------------------------------------------------- new tables

  /** After _ensure_school_year_active_state: an active year leaves the others inactive. */
  function Activated(years: Years, id: int): (r: Years)
    requires id in years
    ensures r.Keys == years.Keys && r[id] == years[id]
  {
    if !years[id].active then years
    else map y | y in years :: if y == id then years[y] else years[y].(active := false)
  }

  /** The years with those in done made inactive. */
  function Cleared(years: Years, done: set<int>): Years {
    map y | y in years :: if y in done then years[y].(active := false) else years[y]
  }

  lemma ClearedStep(years: Years, done: set<int>, y: int)
    requires y in years && y !in done
    ensures Cleared(years, done + {y}) == Cleared(years, done)[y := Cleared(years, done)[y].(active := false)]
  {
  }

  lemma ClearedIsActivated(years: Years, id: int)
    requires id in years && years[id].active
    ensures Cleared(years, ActiveOthers(years, id)) == Activated(years, id)
  {
  }

  /** The query for the other active years. */
  function ActiveOthers(years: Years, id: int): set<int> {
    set y | y in years && y != id && years[y].active
  }

  /** The dates of a year's terms and events against new dates for the year. */
  predicate YearHolds(terms: Terms, events: DayEvents, id: int, start: Date, end: Date) {
    && (forall t :: t in terms && terms[t].year == id ==> start <= terms[t].start && terms[t].end <= end)
    && (forall e :: e in events && events[e].year == id ==> start <= events[e].date <= end)
  }

  predicate TermHolds(periods: Periods, id: int, start: Date, end: Date) {
    forall p :: p in periods && periods[p].term == id ==> start <= periods[p].start && periods[p].end <= end
  }

  lemma ActivatedOne(years: Years, id: int, year: Year)
    requires OneActive(years)
    ensures OneActive(Activated(years[id := year], id))
  {
  }

  ghost predicate SameSpans(before: Years, after: Years) {
    forall y :: y in before ==> y in after && after[y].start == before[y].start && after[y].end == before[y].end
  }

  lemma SpansKeep(before: Years, after: Years, terms: Terms, events: DayEvents)
    requires SameSpans(before, after) && TermsOk(before, terms) && EventsOk(before, events)
    ensures TermsOk(after, terms) && EventsOk(after, events)
  {
    forall t | t in terms ensures TermFits(after, terms[t]) {
      assert TermFits(before, terms[t]);
    }
    forall e | e in events ensures EventFits(after, events[e]) {
      assert EventFits(before, events[e]);
    }
  }

  lemma ResizedYear(years: Years, terms: Terms, events: DayEvents, id: int, year: Year)
    requires TermsOk(years, terms) && EventsOk(years, events)
    requires YearHolds(terms, events, id, year.start, year.end)
    ensures TermsOk(years[id := year], terms) && EventsOk(years[id := year], events)
  {
    forall t | t in terms ensures TermFits(years[id := year], terms[t]) {
      assert TermFits(years, terms[t]);
    }
    forall e | e in events ensures EventFits(years[id := year], events[e]) {
      assert EventFits(years, events[e]);
    }
  }

  lemma PlacedTerm(years: Years, terms: Terms, id: int, t: Term)
    requires TermsOk(years, terms) && t.year in years && t.start <= t.end
    requires id in terms ==> terms[id].year == t.year
    requires TermError(years, terms, t, Some(id)).None?
    ensures TermsOk(years, terms[id := t])
  {
    var after := terms[id := t];
    forall u | u in after ensures TermFits(years, after[u]) {
      if u != id {
        assert TermFits(years, terms[u]);
      }
    }
    forall u, v | u in after && v in after && u != v && after[u].year == after[v].year
      ensures Disjoint(after[u], after[v])
    {
      if u != id && v != id {
        assert Disjoint(terms[u], terms[v]);
      }
    }
  }

  lemma ResizedTerm(terms: Terms, periods: Periods, id: int, t: Term)
    requires PeriodsOk(terms, periods) && TermHolds(periods, id, t.start, t.end)
    ensures PeriodsOk(terms[id := t], periods)
  {
    forall p | p in periods ensures PeriodFits(terms[id := t], periods[p]) {
      assert PeriodFits(terms, periods[p]);
    }
  }

  lemma PlacedPeriod(terms: Terms, periods: Periods, id: int, p: Period)
    requires PeriodsOk(terms, periods) && PeriodFits(terms, p)
    ensures PeriodsOk(terms, periods[id := p])
  {
  }

  lemma PlacedEvent(years: Years, events: DayEvents, id: int, e: DayEvent)
    requires EventsOk(years, events) && EventFits(years, e)
    ensures EventsOk(years, events[id := e])
  {
  }

  /** A year as a route leaves it: named apart from the others, and the only active one if it is active. */
  lemma SavedYear(years: Years, terms: Terms, events: DayEvents, id: int, year: Year)
    requires OneActive(years) && TermsOk(years, terms) && EventsOk(years, events)
    requires YearHolds(terms, events, id, year.start, year.end)
    ensures OneActive(Activated(years[id := year], id))
    ensures TermsOk(Activated(years[id := year], id), terms) && EventsOk(Activated(years[id := year], id), events)
  {
    ResizedYear(years, terms, events, id, year);
    ActivatedOne(years, id, year);
    SpansKeep(years[id := year], Activated(years[id := year], id), terms, events);
  }

  lemma NewYearHolds(years: Years, terms: Terms, events: DayEvents, id: int, start: Date, end: Date)
    requires TermsOk(years, terms) && EventsOk(years, events) && id !in years
    ensures YearHolds(terms, events, id, start, end)
  {
    forall t | t in terms ensures terms[t].year != id {
      assert TermFits(years, terms[t]);
    }
    forall e | e in events ensures events[e].year != id {
      assert EventFits(years, events[e]);
    }
  }

  function WithoutTerm(periods: Periods, id: int): Periods {
    map p | p in periods && periods[p].term != id :: periods[p]
  }

  /** What goes with a deleted year. */
  function TermsOutside(terms: Terms, id: int): Terms {
    map t | t in terms && terms[t].year != id :: terms[t]
  }

  function EventsOutside(events: DayEvents, id: int): DayEvents {
    map e | e in events && events[e].year != id :: events[e]
  }

  function PeriodsOutside(terms: Terms, periods: Periods, id: int): Periods {
    map p | p in periods && !(periods[p].term in terms && terms[periods[p].term].year == id) :: periods[p]
  }

  lemma DeletedYear(years: Years, terms: Terms, periods: Periods, events: DayEvents, id: int)
    requires OneActive(years) && TermsOk(years, terms) && PeriodsOk(terms, periods) && EventsOk(years, events)
    ensures OneActive(years - {id}) && TermsOk(years - {id}, TermsOutside(terms, id))
    ensures PeriodsOk(TermsOutside(terms, id), PeriodsOutside(terms, periods, id))
    ensures EventsOk(years - {id}, EventsOutside(events, id))
  {
    var left := TermsOutside(terms, id);
    forall t | t in left ensures TermFits(years - {id}, left[t]) {
      assert TermFits(years, terms[t]);
    }
    forall p | p in PeriodsOutside(terms, periods, id) ensures PeriodFits(left, periods[p]) {
      assert PeriodFits(terms, periods[p]);
    }
    forall e | e in EventsOutside(events, id) ensures EventFits(years - {id}, events[e]) {
      assert EventFits(years, events[e]);
    }
  }

  lemma OwnTerms(years: Years, terms: Terms, periods: Periods)
    requires TermsOk(years, terms) && PeriodsOk(terms, periods)
    ensures forall p :: p in periods ==> periods[p].term in terms
  {
    forall p | p in periods ensures periods[p].term in terms {
      assert PeriodFits(terms, periods[p]);
    }
  }

  lemma YearUnused(years: Years, terms: Terms, periods: Periods, events: DayEvents, id: int)
    requires TermsOk(years, terms) && PeriodsOk(terms, periods) && EventsOk(years, events) && id !in years
    ensures forall t :: t in terms ==> terms[t].year != id
    ensures forall p :: p in periods ==> periods[p].term in terms && terms[periods[p].term].year != id
    ensures forall e :: e in events ==> events[e].year != id
  {
    forall t | t in terms ensures terms[t].year != id {
      assert TermFits(years, terms[t]);
    }
    forall e | e in events ensures events[e].year != id {
      assert EventFits(years, events[e]);
    }
    OwnTerms(years, terms, periods);
  }

  lemma DeletedTerm(years: Years, terms: Terms, periods: Periods, id: int)
    requires TermsOk(years, terms) && PeriodsOk(terms, periods)
    ensures TermsOk(years, terms - {id}) && PeriodsOk(terms - {id}, WithoutTerm(periods, id))
  {
    forall p | p in WithoutTerm(periods, id) ensures PeriodFits(terms - {id}, periods[p]) {
      assert PeriodFits(terms, periods[p]);
    }
  }

  // ---------------------------------------------------------------- the routes

  /** One family's calendar. Request schemas strip names and order dates. A refused request rolls back what it wrote. */
  class FamilyCalendar {
    var years: Years
    var terms: Terms
    var periods: Periods
    var events: DayEvents

    ghost predicate Valid()
      reads this
    {
      OneActive(years) && TermsOk(years, terms) && PeriodsOk(terms, periods) && EventsOk(years, events)
    }

    constructor ()
      ensures Valid() && years == map[] && terms == map[] && periods == map[] && events == map[]
    {
      years, terms, periods, events := map[], map[], map[], map[];
    }

    /** _ensure_school_year_active_state. */
    method EnsureActiveState(id: int)
      requires id in years
      modifies this`years
      ensures years == Activated(old(years), id)
      ensures years.Keys == old(years).Keys
      ensures forall y :: y in years ==>
                years[y] == old(years)[y].(active := old(years)[y].active && (y == id || !old(years)[id].active))
    {
      if years[id].active {
        ClearedIsActivated(years, id);
        ClearActive(ActiveOthers(years, id));
      }
    }

    method ClearActive(others: set<int>)
      requires others <= years.Keys
      modifies this`years
      ensures years == Cleared(old(years), others)
    {
      ghost var before := years;
      var left := others;
      assert Cleared(before, others - left) == before;
      while left != {}
        invariant left <= others && years == Cleared(before, others - left)
        decreases |left|
      {
        var y := Pick(left);
        ClearedStep(before, others - left, y);
        assert others - left + {y} == others - (left - {y});
        years := years[y := years[y].(active := false)];
        left := left - {y};
      }
      assert others - left == others;
    }

    /** The year is stored, then the other active ones are switched off. */
    method StoreYear(id: int, year: Year)
      requires Valid() && YearHolds(terms, events, id, year.start, year.end)
      modifies this`years
      ensures Valid() && years == Activated(old(years)[id := year], id)
    {
      SavedYear(years, terms, events, id, year);
      years := years[id := year];
      EnsureActiveState(id);
    }

    method CreateYear(id: int, year: Year) returns (r: Result<int, Error>)
      requires Valid() && id !in years && year.start <= year.end && Unpadded(year.name)
      modifies this`years
      ensures Valid()
      ensures r == if YearNamed(old(years), year.name, None) then Err(Conflict) else Ok(id)
      ensures years == if r.Err? then old(years) else Activated(old(years)[id := year], id)
      ensures r.Err? <==> exists y :: y in old(years) && old(years)[y].name == year.name
      ensures r.Ok? ==> years.Keys == old(years).Keys + {id} && years[id] == year
      ensures r.Ok? ==> forall y :: y in old(years) ==>
                years[y] == old(years)[y].(active := old(years)[y].active && !year.active)
    {
      if YearNamed(years, year.name, None) {
        return Err(Conflict);
      }
      NewYearHolds(years, terms, events, id, year.start, year.end);
      StoreYear(id, year);
      return Ok(id);
    }

    /** Terms and events of the year must fit the new dates; grading periods follow from their terms. */
    method UpdateYear(id: int, year: Year) returns (r: Result<int, Error>)
      requires Valid() && year.start <= year.end && Unpadded(year.name)
      modifies this`years
      ensures Valid()
      ensures r == if id !in old(years) then Err(NotFound)
                   else if YearNamed(old(years), year.name, Some(id)) then Err(Conflict)
                   else if YearHolds(terms, events, id, year.start, year.end) then Ok(id)
                   else Err(BadRequest)
      ensures years == if r.Err? then old(years) else Activated(old(years)[id := year], id)
      ensures r == Err(Conflict) <==>
                id in old(years) && exists y :: y in old(years) && y != id && old(years)[y].name == year.name
      ensures r == Err(BadRequest) ==>
                || (exists t :: t in terms && terms[t].year == id
                                         && (terms[t].start < year.start || year.end < terms[t].end))
                || (exists e :: e in events && events[e].year == id && !(year.start <= events[e].date <= year.end))
      ensures r.Ok? ==> years.Keys == old(years).Keys && years[id] == year
      ensures r.Ok? ==> forall y :: y in old(years) && y != id ==>
                years[y] == old(years)[y].(active := old(years)[y].active && !year.active)
    {
      if id !in years {
        return Err(NotFound);
      }
      if YearNamed(years, year.name, Some(id)) {
        return Err(Conflict);
      }
      if !YearHolds(terms, events, id, year.start, year.end) {
        return Err(BadRequest);
      }
      StoreYear(id, year);
      return Ok(id);
    }

    method DeleteYear(id: int) returns (r: Result<int, Error>)
      requires Valid()
      modifies this
      ensures Valid()
      ensures r == if id in old(years) then Ok(id) else Err(NotFound)
      ensures years == old(years) - {id}
      ensures r.Ok? ==> terms == TermsOutside(old(terms), id) && periods == PeriodsOutside(old(terms), old(periods), id)
                        && events == EventsOutside(old(events), id)
      ensures r.Err? ==> terms == old(terms) && periods == old(periods) && events == old(events)
      ensures forall t :: t in terms <==> t in old(terms) && old(terms)[t].year != id
      ensures forall p :: p in periods <==> p in old(periods) && old(terms)[old(periods)[p].term].year != id
      ensures forall e :: e in events <==> e in old(events) && old(events)[e].year != id
      ensures (forall t :: t in terms ==> terms[t] == old(terms)[t])
              && (forall p :: p in periods ==> periods[p] == old(periods)[p])
              && (forall e :: e in events ==> events[e] == old(events)[e])
    {
      if id !in years {
        YearUnused(years, terms, periods, events, id);
        return Err(NotFound);
      }
      OwnTerms(years, terms, periods);
      DeletedYear(years, terms, periods, events, id);
      periods := PeriodsOutside(terms, periods, id);
      terms := TermsOutside(terms, id);
      events := EventsOutside(events, id);
      years := years - {id};
      return Ok(id);
    }

    method CreateTerm(id: int, t: Term) returns (r: Result<int, Error>)
      requires Valid() && id !in terms && t.start <= t.end && Unpadded(t.name)
      modifies this`terms
      ensures Valid()
      ensures r == if t.year !in years then Err(NotFound) else Outcome(TermError(years, old(terms), t, None), id)
      ensures terms == if r.Err? then old(terms) else old(terms)[id := t]
    {
      if t.year !in years {
        return Err(NotFound);
      }
      var refusal := TermError(years, terms, t, None);
      if refusal.Some? {
        return Err(refusal.value);
      }
      NewTermExcept(years, terms, id, t);
      PlacedTerm(years, terms, id, t);
      NewTermPeriods(terms, periods, id, t);
      terms := terms[id := t];
      return Ok(id);
    }

    /** The term keeps its year; its grading periods must fit the new dates. */
    method UpdateTerm(id: int, t: Term) returns (r: Result<int, Error>)
      requires Valid() && t.start <= t.end && Unpadded(t.name) && (id in terms ==> t.year == terms[id].year)
      modifies this`terms
      ensures Valid()
      ensures r == if id !in old(terms) || t.year !in years then Err(NotFound)
                   else if TermError(years, old(terms), t, Some(id)).None? && !TermHolds(periods, id, t.start, t.end)
                   then Err(BadRequest)
                   else Outcome(TermError(years, old(terms), t, Some(id)), id)
      ensures terms == if r.Err? then old(terms) else old(terms)[id := t]
    {
      if id !in terms || t.year !in years {
        return Err(NotFound);
      }
      var refusal := TermError(years, terms, t, Some(id));
      if refusal.Some? {
        return Err(refusal.value);
      }
      var before := terms;
      terms := terms[id := t];
      if !TermHolds(periods, id, t.start, t.end) {
        terms := before;
        return Err(BadRequest);
      }
      PlacedTerm(years, before, id, t);
      ResizedTerm(before, periods, id, t);
      return Ok(id);
    }

    method DeleteTerm(id: int) returns (r: Result<int, Error>)
      requires Valid()
      modifies this`terms, this`periods
      ensures Valid()
      ensures r == if id in old(terms) then Ok(id) else Err(NotFound)
      ensures terms == old(terms) - {id}
      ensures periods == if r.Ok? then WithoutTerm(old(periods), id) else old(periods)
      ensures forall p :: p in periods <==> p in old(periods) && old(periods)[p].term != id
      ensures forall p :: p in periods ==> periods[p] == old(periods)[p]
    {
      if id !in terms {
        OwnTerms(years, terms, periods);
        return Err(NotFound);
      }
      DeletedTerm(years, terms, periods, id);
      periods := WithoutTerm(periods, id);
      terms := terms - {id};
      return Ok(id);
    }

    method CreatePeriod(id: int, p: Period) returns (r: Result<int, Error>)
      requires Valid() && id !in periods && p.start <= p.end && Unpadded(p.name)
      modifies this`periods
      ensures Valid()
      ensures r == if p.term !in terms then Err(NotFound) else Outcome(PeriodError(terms, old(periods), p, None), id)
      ensures periods == if r.Err? then old(periods) else old(periods)[id := p]
    {
      if p.term !in terms {
        return Err(NotFound);
      }
      var refusal := PeriodError(terms, periods, p, None);
      if refusal.Some? {
        return Err(refusal.value);
      }
      PlacedPeriod(terms, periods, id, p);
      periods := periods[id := p];
      return Ok(id);
    }

    method UpdatePeriod(id: int, p: Period) returns (r: Result<int, Error>)
      requires Valid() && p.start <= p.end && Unpadded(p.name) && (id in periods ==> p.term == periods[id].term)
      modifies this`periods
      ensures Valid()
      ensures r == if id !in old(periods) || p.term !in terms then Err(NotFound)
                   else Outcome(PeriodError(terms, old(periods), p, Some(id)), id)
      ensures periods == if r.Err? then old(periods) else old(periods)[id := p]
    {
      if id !in periods || p.term !in terms {
        return Err(NotFound);
      }
      var refusal := PeriodError(terms, periods, p, Some(id));
      if refusal.Some? {
        return Err(refusal.value);
      }
      PlacedPeriod(terms, periods, id, p);
      periods := periods[id := p];
      return Ok(id);
    }

    method DeletePeriod(id: int) returns (r: Result<int, Error>)
      requires Valid()
      modifies this`periods
      ensures Valid()
      ensures r == if id in old(periods) then Ok(id) else Err(NotFound)
      ensures periods == old(periods) - {id}
    {
      if id !in periods {
        return Err(NotFound);
      }
      periods := periods - {id};
      return Ok(id);
    }

    method CreateEvent(id: int, e: DayEvent) returns (r: Result<int, Error>)
      requires Valid() && id !in events
      modifies this`events
      ensures Valid()
      ensures r == if e.year !in years then Err(NotFound) else Outcome(EventError(years, e), id)
      ensures events == if r.Err? then old(events) else old(events)[id := e]
    {
      if e.year !in years {
        return Err(NotFound);
      }
      var refusal := EventError(years, e);
      if refusal.Some? {
        return Err(refusal.value);
      }
      PlacedEvent(years, events, id, e);
      events := events[id := e];
      return Ok(id);
    }

    method UpdateEvent(id: int, e: DayEvent) returns (r: Result<int, Error>)
      requires Valid() && (id in events ==> e.year == events[id].year)
      modifies this`events
      ensures Valid()
      ensures r == if id !in old(events) || e.year !in years then Err(NotFound) else Outcome(EventError(years, e), id)
      ensures events == if r.Err? then old(events) else old(events)[id := e]
    {
      if id !in events || e.year !in years {
        return Err(NotFound);
      }
      var refusal := EventError(years, e);
      if refusal.Some? {
        return Err(refusal.value);
      }
      PlacedEvent(years, events, id, e);
      events := events[id := e];
      return Ok(id);
    }

    method DeleteEvent(id: int) returns (r: Result<int, Error>)
      requires Valid()
      modifies this`events
      ensures Valid()
      ensures r == if id in old(events) then Ok(id) else Err(NotFound)
      ensures events == old(events) - {id}
    {
      if id !in events {
        return Err(NotFound);
      }
      events := events - {id};
      return Ok(id);
    }
  }

  lemma NewTermExcept(years: Years, terms: Terms, id: int, t: Term)
    requires t.year in years && id !in terms
    ensures TermError(years, terms, t, None) == TermError(years, terms, t, Some(id))
  {
    assert Overlapping(terms, t.year, t.start, t.end, None) == Overlapping(terms, t.year, t.start, t.end, Some(id));
    assert TermNamed(terms, t.year, t.name, None) <==> TermNamed(terms, t.year, t.name, Some(id));
  }

  lemma NewTermPeriods(terms: Terms, periods: Periods, id: int, t: Term)
    requires PeriodsOk(terms, periods) && id !in terms
    ensures PeriodsOk(terms[id := t], periods)
  {
    forall p | p in periods ensures PeriodFits(terms[id := t], periods[p]) {
      assert PeriodFits(terms, periods[p]);
    }
  }
}
