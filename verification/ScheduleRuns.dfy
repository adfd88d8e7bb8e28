/** Agendas over whole runs of override requests
    (backend/routers/schedule.py, lines 168-179, 272-316 and 538-567). */
module ScheduleRuns {
  import opened Wrappers
  import opened Agenda
  import opened AgendaOrder
  import opened Timetable
  import opened OverrideEffects

  /** The student's schedules that cover the date have no override for it. */
  ghost predicate PlainDay(ss: seq<Schedule>, student: int, date: Date) {
    forall s, o :: s in ss && Covers(s, student, date) && o in s.overrides ==> o.date != date
  }

  /** Blocks of that weekday in schedules of different school years do not meet: nothing checks those against each
      other. */
  ghost predicate YearsApart(ss: seq<Schedule>, student: int, date: Date) {
    forall s, t, a, b ::
      s in ss && t in ss && Covers(s, student, date) && Covers(t, student, date) && s.yearId != t.yearId
      && a in s.blocks && b in t.blocks && a.day == Weekday(date)
      ==> !Meets(b, a.day, a.start, a.end)
  }

  /** e is the entry of a block of one of the student's schedules that cover the date. */
  ghost predicate BlockOn(ss: seq<Schedule>, student: int, date: Date, s: Schedule, b: Block, e: Entry) {
    && s in ss && Covers(s, student, date) && b in s.blocks && b.day == Weekday(date)
    && e == Entry(BlockKey(b.id), BlockItem(s, b, date))
  }

  lemma PlainEntryIff(ss: seq<Schedule>, student: int, date: Date, e: Entry)
    requires PlainDay(ss, student, date)
    ensures DayEntry(ss, student, date, e) <==> exists s, b :: BlockOn(ss, student, date, s, b, e)
  {
    if DayEntry(ss, student, date, e) {
      var s :| s in ss && Covers(s, student, date) && Contributes(s, date, None, e);
      assert ContributesBlock(s, date, None, e);
      var b :| b in s.blocks && b.day == Weekday(date) && e == Entry(BlockKey(b.id), BlockItem(s, b, date));
      assert BlockOn(ss, student, date, s, b, e);
    }
    if s, b :| BlockOn(ss, student, date, s, b, e) {
      assert Hidden(s.overrides, date, None) == {};
      assert ContributesBlock(s, date, None, e) && Contributes(s, date, None, e);
    }
  }

  /** Without overrides the timetable's disjointness leaves only blocks of different years to overlap. */
  lemma PlainDayClearIff(ss: seq<Schedule>, student: int, date: Date, next: int)
    requires TablesOk(ss, next) && PlainDay(ss, student, date)
    ensures NonOverlapping(AgendaFor(ss, student, date)) <==> YearsApart(ss, student, date)
  {
    CoveringWellFormed(ss, student, date);
    AgendaNonOverlapping(Covering(ss, student, date), date, None);
    if YearsApart(ss, student, date) {
      ApartClears(ss, student, date, next);
    }
    if DisjointEntries(Entries(Covering(ss, student, date), date, None)) {
      forall s, t, a, b | s in ss && t in ss && Covers(s, student, date) && Covers(t, student, date)
                          && s.yearId != t.yearId
                          && a in s.blocks && b in t.blocks && a.day == Weekday(date)
        ensures !Meets(b, a.day, a.start, a.end)
      {
        if b.day == a.day {
          ClearApart(ss, student, date, s, a, t, b);
        }
      }
    }
  }

  lemma ApartClears(ss: seq<Schedule>, student: int, date: Date, next: int)
    requires TablesOk(ss, next) && PlainDay(ss, student, date) && YearsApart(ss, student, date)
    ensures DisjointEntries(Entries(Covering(ss, student, date), date, None))
  {
    var day := Entries(Covering(ss, student, date), date, None);
    forall e, f | e in day && f in day && e.key != f.key ensures !Overlap(e.item, f.item) {
      InDay(ss, student, date, e);
      InDay(ss, student, date, f);
      PlainEntryIff(ss, student, date, e);
      PlainEntryIff(ss, student, date, f);
      var s, a :| BlockOn(ss, student, date, s, a, e);
      var t, b :| BlockOn(ss, student, date, t, b, f);
      if s.yearId == t.yearId {
        assert BlocksApart(s, t);
      } else {
        assert !Meets(b, a.day, a.start, a.end);
      }
    }
  }

  lemma ClearApart(ss: seq<Schedule>, student: int, date: Date, s: Schedule, a: Block, t: Schedule, b: Block)
    requires WellFormed(ss) && PlainDay(ss, student, date)
    requires DisjointEntries(Entries(Covering(ss, student, date), date, None))
    requires s in ss && t in ss && Covers(s, student, date) && Covers(t, student, date) && s.yearId != t.yearId
    requires a in s.blocks && b in t.blocks && a.day == b.day == Weekday(date)
    ensures !Meets(b, a.day, a.start, a.end)
  {
    var e, f := Entry(BlockKey(a.id), BlockItem(s, a, date)), Entry(BlockKey(b.id), BlockItem(t, b, date));
    BlockInDay(ss, student, date, s, a, e);
    BlockInDay(ss, student, date, t, b, f);
    OtherBlock(ss, s, a, t, b);
    assert e.key != f.key && !Overlap(f.item, e.item);
  }

  lemma BlockInDay(ss: seq<Schedule>, student: int, date: Date, s: Schedule, b: Block, e: Entry)
    requires PlainDay(ss, student, date) && BlockOn(ss, student, date, s, b, e)
    ensures e in Entries(Covering(ss, student, date), date, None)
  {
    PlainEntryIff(ss, student, date, e);
    InDay(ss, student, date, e);
  }

  lemma OtherBlock(ss: seq<Schedule>, s: Schedule, a: Block, t: Schedule, b: Block)
    requires WellFormed(ss) && s in ss && t in ss && s.yearId != t.yearId && a in s.blocks && b in t.blocks
    ensures a.id != b.id
  {
    var i :| 0 <= i < |ss| && ss[i] == s;
    var j :| 0 <= j < |ss| && ss[j] == t;
    assert i < j ==> Apart(ss[i], ss[j]);
    assert j < i ==> Apart(ss[j], ss[i]);
  }

  /** The schedules after a run of create-override requests, refused ones changing nothing. */
  ghost function AfterCreates(ss: seq<Schedule>, ps: seq<OverridePayload>, next: int): seq<Schedule> {
    if ps == [] then ss
    else
      Created(AfterCreates(ss, ps[..|ps| - 1], next), ps[|ps| - 1], next + |ps| - 1)
  }

  ghost function Created(ss: seq<Schedule>, p: OverridePayload, id: int): seq<Schedule> {
    var r := CreateOverrideResult(ss, p, id);
    if r.Ok? then r.value else ss
  }

  ghost predicate AllValid(ps: seq<OverridePayload>) {
    forall p :: p in ps ==> ValidOverride(p)
  }

  /** The tables are in order and the student's agenda for the date is free of overlaps. */
  ghost predicate Clear(ss: seq<Schedule>, next: int, student: int, date: Date) {
    TablesOk(ss, next) && NonOverlapping(AgendaFor(ss, student, date))
  }

  lemma MoreIds(ss: seq<Schedule>, next: int)
    requires TablesOk(ss, next)
    ensures TablesOk(ss, next + 1)
  {
  }

  /** One create request, accepted or not, keeps the tables and every clear agenda clear. */
  lemma CreateStep(ss: seq<Schedule>, p: OverridePayload, next: int, student: int, date: Date)
    requires Clear(ss, next, student, date) && ValidOverride(p)
    ensures Clear(Created(ss, p, next), next + 1, student, date)
  {
    var r := CreateOverrideResult(ss, p, next);
    if r.Ok? {
      var n := FindSchedule(ss, p.scheduleId).value;
      OverrideAdded(ss, n, NewOverride(ss, n, p, next), next);
      if p.date == date && ss[n].studentId == student {
        CreateKeepsAgenda(ss, p, next, next);
      } else {
        OtherAgendasUnchanged(ss, p, next, student, date);
      }
    } else {
      MoreIds(ss, next);
    }
  }

  lemma LastCreate(ss: seq<Schedule>, ps: seq<OverridePayload>, next: int, before: seq<Schedule>, at: int, student: int,
                   date: Date)
    requires ps != [] && AllValid(ps) && before == AfterCreates(ss, ps[..|ps| - 1], next) && at == next + |ps| - 1
    requires Clear(before, at, student, date)
    ensures Clear(AfterCreates(ss, ps, next), at + 1, student, date)
  {
    var p := ps[|ps| - 1];
    assert p in ps;
    CreateStep(before, p, at, student, date);
    assert AfterCreates(ss, ps, next) == Created(before, p, at);
  }

  lemma {:induction false} ClearStaysClear(ss: seq<Schedule>, ps: seq<OverridePayload>, next: int, student: int,
                                           date: Date)
    requires Clear(ss, next, student, date) && AllValid(ps)
    ensures Clear(AfterCreates(ss, ps, next), next + |ps|, student, date)
  {
    if ps != [] {
      var front := ps[..|ps| - 1];
      ClearStaysClear(ss, front, next, student, date);
      LastCreate(ss, ps, next, AfterCreates(ss, front, next), next + |front|, student, date);
    }
  }

  /** However many overrides are created, for whatever days and students, a day that started without any never
      has two items at once, unless two school years covering it already clashed. */
  lemma CreatesKeepAgendas(ss: seq<Schedule>, ps: seq<OverridePayload>, next: int, student: int, date: Date)
    requires TablesOk(ss, next) && PlainDay(ss, student, date) && YearsApart(ss, student, date) && AllValid(ps)
    ensures Clear(AfterCreates(ss, ps, next), next + |ps|, student, date)
  {
    PlainDayClearIff(ss, student, date, next);
    ClearStaysClear(ss, ps, next, student, date);
  }
}
