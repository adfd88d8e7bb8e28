/** POST /lesson-plans/generate (backend/routers/lesson_plans.py, lines 541-702). */
module LessonGeneration {
  import opened Wrappers
  import opened Agenda
  import opened Counting
  import opened SchoolDays
  import opened LessonSlots
  import opened PacingFacts
  import opened LessonOrder
  import P = Pacing

  datatype SchoolYear = SchoolYear(id: int, start: Date, end: Date, events: seq<Event>)

  datatype GenerationRequest = GenerationRequest(
    packageId: int, studentId: int, yearId: Option<int>, startDate: Option<Date>,
    defaultMinutes: Option<int>, overwrite: bool)

  /** The schedules of the student for the package's school year. */
  function RowsFor(book: seq<Schedule>, student: int, year: int): seq<Schedule> {
    if book == [] then []
    else RowsFor(book[..|book| - 1], student, year)
         + if book[|book| - 1].studentId == student && book[|book| - 1].yearId == year then [book[|book| - 1]] else []
  }

  /** The student's plans for lessons of the package. */
  function ExistingPlans(cur: Curriculum, plans: Plans, student: int, package: int): set<int> {
    set id | id in plans && plans[id].studentId == student && InPackage(cur, plans[id].lessonId, package)
  }

  predicate InPackage(cur: Curriculum, lesson: int, package: int) {
    lesson in cur.lessons && cur.lessons[lesson].unitId in cur.units
    && cur.units[cur.lessons[lesson].unitId].packageId == package
  }

  function StartOf(req: GenerationRequest, year: SchoolYear): Date {
    if req.startDate.Some? && req.startDate.value > year.start then req.startDate.value else year.start
  }

  /** estimated_duration_minutes or the default: zero counts as missing. */
  function MinutesOf(l: Lesson, req: GenerationRequest): Option<int> {
    if l.minutes.Some? && l.minutes.value != 0 then l.minutes else req.defaultMinutes
  }

  function NewPlan(l: Lesson, d: Date, req: GenerationRequest, year: int): Plan {
    Plan(l.id, req.studentId, year, d, MinutesOf(l, req), Planned, None, None)
  }

  /** The rows created, numbered from firstId. */
  function NewPlans(lessons: seq<Lesson>, dates: seq<Date>, req: GenerationRequest, year: int, firstId: int): (r: Plans)
    requires |lessons| == |dates|
    ensures forall id :: id in r <==> firstId <= id < firstId + |lessons|
    ensures forall i :: 0 <= i < |lessons| ==> r[firstId + i] == NewPlan(lessons[i], dates[i], req, year)
  {
    if lessons == [] then map[]
    else
      var n := |lessons| - 1;
      NewPlans(lessons[..n], dates[..n], req, year, firstId)[firstId + n := NewPlan(lessons[n], dates[n], req, year)]
  }

  /** The student's plans of the package give way to the new ones. */
  function ReplacedPlans(cur: Curriculum, plans: Plans, p: Package, dates: seq<Date>, req: GenerationRequest, year: int,
                         firstId: int): Plans
    requires |dates| == |OrderedLessons(p)|
  {
    (plans - ExistingPlans(cur, plans, req.studentId, p.id)) + NewPlans(OrderedLessons(p), dates, req, year, firstId)
  }

  function SlotDates(slots: seq<Slot>): (r: seq<Date>)
    ensures |r| == |slots| && forall i :: 0 <= i < |slots| ==> r[i] == slots[i].date
  {
    seq(|slots|, i requires 0 <= i < |slots| => slots[i].date)
  }

  /** Every reason for refusing a generation, in the order the route meets them. */
  ghost function Refusal(dir: P.Directory, plans: Plans, book: seq<Schedule>, years: map<int, SchoolYear>,
                         linked: set<int>, req: GenerationRequest): Option<P.Error>
    requires forall p :: p in dir.cur.packages ==> dir.cur.packages[p].yearId in years
  {
    if req.packageId !in dir.cur.packages || req.studentId !in dir.students then Some(P.NotFound)
    else
      var package := dir.cur.packages[req.packageId];
      var year := years[package.yearId];
      var existing := ExistingPlans(dir.cur, plans, req.studentId, req.packageId);
      var rows := RowsFor(book, req.studentId, year.id);
      if req.yearId.Some? && req.yearId.value != year.id then Some(P.BadRequest)
      else if OrderedLessons(package) == [] then Some(P.BadRequest)
      else if existing != {} && !req.overwrite then Some(P.Conflict)
      else if existing * linked != {} then Some(P.Conflict)
      else if rows == [] then Some(P.BadRequest)
      else if |Qualifying(rows, package, year, req)| < |OrderedLessons(package)|
      then Some(P.BadRequest)
      else None
  }

  /** The dates the lessons get: those of the first qualifying slots. */
  ghost function Dates(rows: seq<Schedule>, package: Package, year: SchoolYear, req: GenerationRequest): seq<Date> {
    SlotDates(Take(Qualifying(rows, package, year, req), |OrderedLessons(package)|))
  }

  // ---------------------------------------------------------------- unit ranges

  /** unit_ranges: for each unit the dates of its lessons. */
  ghost predicate IsRanges(ranges: map<int, seq<Date>>, lessons: seq<Lesson>, dates: seq<Date>)
    requires |lessons| == |dates|
  {
    && (forall u :: u in ranges ==> ranges[u] != [])
    && (forall u, d :: u in ranges && d in ranges[u] ==> DatedLesson(lessons, dates, u, d))
    && (forall k :: 0 <= k < |lessons| ==> lessons[k].unitId in ranges && dates[k] in ranges[lessons[k].unitId])
  }

  ghost predicate DatedLesson(lessons: seq<Lesson>, dates: seq<Date>, unit: int, d: Date)
    requires |lessons| == |dates|
  {
    exists k :: 0 <= k < |lessons| && lessons[k].unitId == unit && dates[k] == d
  }

  method BuildRanges(lessons: seq<Lesson>, dates: seq<Date>) returns (ranges: map<int, seq<Date>>)
    requires |lessons| == |dates|
    ensures IsRanges(ranges, lessons, dates)
  {
    ranges := map[];
    for i := 0 to |lessons|
      invariant IsRanges(ranges, lessons[..i], dates[..i])
    {
      var u := lessons[i].unitId;
      RangesStep(ranges, lessons[..i], dates[..i], lessons[i], dates[i]);
      ranges := ranges[u := (if u in ranges then ranges[u] else []) + [dates[i]]];
      assert lessons[..i + 1] == lessons[..i] + [lessons[i]] && dates[..i + 1] == dates[..i] + [dates[i]];
    }
    assert lessons[..|lessons|] == lessons && dates[..|dates|] == dates;
  }

  lemma RangesStep(ranges: map<int, seq<Date>>, lessons: seq<Lesson>, dates: seq<Date>, l: Lesson, d: Date)
    requires |lessons| == |dates| && IsRanges(ranges, lessons, dates)
    ensures IsRanges(ranges[l.unitId := (if l.unitId in ranges then ranges[l.unitId] else []) + [d]], lessons + [l],
                     dates + [d])
  {
    var ls, ds := lessons + [l], dates + [d];
    var r := ranges[l.unitId := (if l.unitId in ranges then ranges[l.unitId] else []) + [d]];
    forall u, x | u in r && x in r[u] ensures DatedLesson(ls, ds, u, x) {
      if u in ranges && x in ranges[u] {
        var k :| 0 <= k < |lessons| && lessons[k].unitId == u && dates[k] == x;
        assert ls[k].unitId == u && ds[k] == x;
      } else {
        assert ls[|lessons|].unitId == u && ds[|lessons|] == x;
      }
    }
    forall k | 0 <= k < |ls| ensures ls[k].unitId in r && ds[k] in r[ls[k].unitId] {
      if k < |lessons| {
        assert dates[k] in ranges[lessons[k].unitId];
      }
    }
  }

  function MinDate(ds: seq<Date>): (m: Date)
    requires ds != []
    ensures m in ds && forall d :: d in ds ==> m <= d
  {
    if |ds| == 1 then ds[0]
    else assert ds == [ds[0]] + ds[1..]; var m := MinDate(ds[1..]); if ds[0] <= m then ds[0] else m
  }

  function MaxDate(ds: seq<Date>): (m: Date)
    requires ds != []
    ensures m in ds && forall d :: d in ds ==> d <= m
  {
    if |ds| == 1 then ds[0]
    else assert ds == [ds[0]] + ds[1..]; var m := MaxDate(ds[1..]); if ds[0] >= m then ds[0] else m
  }

  /** min() and max() of a unit's dates are its window. */
  lemma RangeIsWindow(ranges: map<int, seq<Date>>, lessons: seq<Lesson>, dates: seq<Date>, unit: int)
    requires |lessons| == |dates| && IsRanges(ranges, lessons, dates) && unit in ranges
    ensures IsWindow(lessons, dates, unit, MinDate(ranges[unit]), MaxDate(ranges[unit]))
  {
    assert DatedLesson(lessons, dates, unit, MinDate(ranges[unit]));
    assert DatedLesson(lessons, dates, unit, MaxDate(ranges[unit]));
  }

  // ---------------------------------------------------------------- pacing targets of the units

  predicate IsTargetOf(t: Target, student: int, unit: int) {
    t.studentId == student && t.unitId == unit
  }

  function TargetIds(targets: Targets, student: int, unit: int): set<int> {
    set id | id in targets && IsTargetOf(targets[id], student, unit)
  }

  /** The student's target of the unit carries the window. */
  ghost predicate HasWindow(targets: Targets, student: int, unit: int, start: Date, end: Date) {
    exists id :: id in targets && IsTargetOf(targets[id], student, unit)
                 && targets[id].start == start && targets[id].end == end
  }

  /** Targets of other students and of other units stay as they are, up to the derived completion date. */
  ghost predicate OtherRowsKept(before: Targets, after: Targets, pairs: P.Pairs) {
    && (forall id :: id in before && !P.Selected(before[id], pairs) ==> id in after && P.SameRow(after[id], before[id]))
    && (forall id :: id in after && !P.Selected(after[id], pairs) ==> id in before)
  }

  /** The units with lessons. */
  ghost function TaughtUnits(units: seq<CurriculumUnit>): set<int> {
    set u | u in units && u.lessons != [] :: u.id
  }

  /** existing_targets.get(unit), then update or insert. */
  method UpsertOne(cur: Curriculum, targets: Targets, student: int, unit: int, start: Date, end: Date, unused: int)
    returns (after: Targets, next: int)
    requires TargetsOk(cur, targets) && unit in cur.units && forall id :: id in targets ==> id < unused
    ensures TargetsOk(cur, after) && unused <= next && forall id :: id in after ==> id < next
    ensures HasWindow(after, student, unit, start, end) && P.OthersKept(targets, after, {(student, unit)})
  {
    var ids := TargetIds(targets, student, unit);
    if ids == {} {
      after, next := targets[unused := Target(unit, student, start, end, None)], unused + 1;
      NoTarget(cur, targets, student, unit, Target(unit, student, start, end, None), unused);
      assert unused in after && IsTargetOf(after[unused], student, unit);
    } else {
      var id := Pick(ids);
      assert id in targets && IsTargetOf(targets[id], student, unit);
      RewrittenOk(cur, targets, id, targets[id].(start := start, end := end));
      after, next := targets[id := targets[id].(start := start, end := end)], unused;
      assert id in after && IsTargetOf(after[id], student, unit);
    }
  }

  lemma NoTarget(cur: Curriculum, targets: Targets, student: int, unit: int, t: Target, unused: int)
    requires TargetsOk(cur, targets) && unit in cur.units && unused !in targets && IsTargetOf(t, student, unit)
    requires TargetIds(targets, student, unit) == {}
    ensures TargetsOk(cur, targets[unused := t])
  {
    forall id | id in targets ensures !SameTarget(targets[id], t) {
      assert id !in TargetIds(targets, student, unit);
      assert !IsTargetOf(targets[id], student, unit);
    }
  }

  /** The loop over package.units. */
  method UpsertTargets(cur: Curriculum, before: Targets, student: int, units: seq<CurriculumUnit>,
                       ranges: map<int, seq<Date>>, unused: int)
    returns (after: Targets, next: int)
    requires TargetsOk(cur, before) && (forall id :: id in before ==> id < unused)
    requires DistinctUnits(units) && (forall u :: u in units ==> u.id in cur.units)
    requires forall u :: u in ranges ==> ranges[u] != []
    ensures TargetsOk(cur, after) && unused <= next && (forall id :: id in after ==> id < next)
    ensures P.OthersKept(before, after, P.UnitsOf(student, ranges.Keys))
    ensures forall u :: u in units && u.id in ranges ==>
              HasWindow(after, student, u.id, MinDate(ranges[u.id]), MaxDate(ranges[u.id]))
  {
    after, next := before, unused;
    for i := 0 to |units|
      invariant TargetsOk(cur, after) && unused <= next && (forall id :: id in after ==> id < next)
      invariant P.OthersKept(before, after, P.UnitsOf(student, ranges.Keys))
      invariant forall j :: 0 <= j < i && units[j].id in ranges ==>
                  HasWindow(after, student, units[j].id, MinDate(ranges[units[j].id]), MaxDate(ranges[units[j].id]))
    {
      var u := units[i].id;
      if u !in ranges {
        continue;
      }
      assert units[i] in units;
      ghost var was := after;
      after, next := UpsertOne(cur, after, student, u, MinDate(ranges[u]), MaxDate(ranges[u]), next);
      forall j | 0 <= j < i && units[j].id in ranges
        ensures HasWindow(after, student, units[j].id, MinDate(ranges[units[j].id]), MaxDate(ranges[units[j].id]))
      {
        WindowKept(was, after, student, u, units[j].id, MinDate(ranges[units[j].id]), MaxDate(ranges[units[j].id]));
      }
      KeptTogether(before, was, after, (student, u), P.UnitsOf(student, ranges.Keys));
    }
  }

  lemma WindowKept(was: Targets, now: Targets, student: int, changed: int, unit: int, start: Date, end: Date)
    requires P.OthersKept(was, now, {(student, changed)}) && unit != changed
    requires HasWindow(was, student, unit, start, end)
    ensures HasWindow(now, student, unit, start, end)
  {
    var id :| id in was && IsTargetOf(was[id], student, unit) && was[id].start == start && was[id].end == end;
    assert id in now && now[id] == was[id];
  }

  lemma KeptTogether(before: Targets, was: Targets, now: Targets, pair: (int, int), pairs: P.Pairs)
    requires P.OthersKept(before, was, pairs) && P.OthersKept(was, now, {pair}) && pair in pairs
    ensures P.OthersKept(before, now, pairs)
  {
  }

  // ---------------------------------------------------------------- the rows stay consistent

  lemma {:induction false} RowsForWellFormed(book: seq<Schedule>, student: int, year: int)
    requires WellFormed(book)
    ensures WellFormed(RowsFor(book, student, year))
    ensures forall s :: s in RowsFor(book, student, year) ==> s in book
  {
    if book != [] {
      var n := |book| - 1;
      assert forall s :: s in book[..n] ==> s in book;
      RowsForWellFormed(book[..n], student, year);
      var r := RowsFor(book[..n], student, year);
      forall i | 0 <= i < |r| ensures Apart(r[i], book[n]) {
        assert r[i] in r;
        var j :| 0 <= j < n && book[j] == r[i];
        assert Apart(book[j], book[n]);
      }
    }
  }

  lemma PackageLessons(cur: Curriculum, p: Package)
    requires CurriculumOk(cur) && p.id in cur.packages && cur.packages[p.id] == p
    ensures OwnLessons(p.units) && DistinctUnits(p.units) && forall u :: u in p.units ==> u.id in cur.units
    ensures OwnLessons(SortUnits(p.units)) && DistinctUnits(SortUnits(p.units))
    ensures forall l :: l in OrderedLessons(p) <==>
              l.id in cur.lessons && cur.lessons[l.id] == l && InPackage(cur, l.id, p.id)
    ensures forall i, j :: 0 <= i < j < |OrderedLessons(p)| ==> OrderedLessons(p)[i] != OrderedLessons(p)[j]
  {
    assert PackageOk(cur, p);
    forall u | u in p.units ensures DistinctLessons(u.lessons) && forall l :: l in u.lessons ==> l.unitId == u.id {
      assert UnitOk(cur, u);
    }
    SortUnitsFacts(p.units);
    FlattenDistinct(SortUnits(p.units));
    forall l
      ensures l in OrderedLessons(p) <==> l.id in cur.lessons && cur.lessons[l.id] == l && InPackage(cur, l.id, p.id)
    {
      InFlatten(SortUnits(p.units), l);
      PackageLesson(cur, p, l);
    }
  }

  lemma PackageLesson(cur: Curriculum, p: Package, l: Lesson)
    requires CurriculumOk(cur) && p.id in cur.packages && cur.packages[p.id] == p && DistinctUnits(p.units)
    requires forall u :: u in SortUnits(p.units) <==> u in p.units
    ensures HasLesson(SortUnits(p.units), l)
            <==> l.id in cur.lessons && cur.lessons[l.id] == l && InPackage(cur, l.id, p.id)
  {
    assert PackageOk(cur, p);
    if HasLesson(SortUnits(p.units), l) {
      var u :| u in SortUnits(p.units) && l in u.lessons;
      assert u in p.units && UnitOk(cur, u);
    }
    if l.id in cur.lessons && cur.lessons[l.id] == l && InPackage(cur, l.id, p.id) {
      var u := cur.units[l.unitId];
      assert UnitOk(cur, u) && Listed(cur, l.id);
      assert u in p.units && l in u.lessons;
    }
  }

  /** Removing the package's plans and adding one per lesson keeps one plan per student and lesson. */
  lemma ReplacedPlansOk(cur: Curriculum, plans: Plans, p: Package, dates: seq<Date>, req: GenerationRequest, year: int,
                        firstId: int)
    requires CurriculumOk(cur) && PlansOk(cur, plans) && p.id in cur.packages && cur.packages[p.id] == p
    requires |dates| == |OrderedLessons(p)| && forall id :: id in plans ==> id < firstId
    ensures PlansOk(cur, ReplacedPlans(cur, plans, p, dates, req, year, firstId))
  {
    PackageLessons(cur, p);
    NewPlansApart(cur, p, OrderedLessons(p), dates, req, year, firstId);
    var existing := ExistingPlans(cur, plans, req.studentId, p.id);
    MergedOk(cur, plans - existing, NewPlans(OrderedLessons(p), dates, req, year, firstId));
  }

  lemma MergedOk(cur: Curriculum, kept: Plans, added: Plans)
    requires PlansOk(cur, kept) && PlansOk(cur, added)
    requires forall i, j :: i in kept && j in added ==> !SameSlot(kept[i], added[j])
    ensures PlansOk(cur, kept + added)
  {
    var all := kept + added;
    forall id | id in all ensures if id in added then all[id] == added[id] else id in kept && all[id] == kept[id] {
    }
  }

  /** The new plans are the package's lessons, each once, for this student. */
  lemma NewPlansApart(cur: Curriculum, p: Package, lessons: seq<Lesson>, dates: seq<Date>, req: GenerationRequest,
                      year: int, firstId: int)
    requires |dates| == |lessons| && DistinctLessons(lessons)
    requires forall l :: l in lessons ==> l.id in cur.lessons && InPackage(cur, l.id, p.id)
    ensures var added := NewPlans(lessons, dates, req, year, firstId);
            PlansOk(cur, added)
            && forall id :: id in added ==>
                 added[id].studentId == req.studentId && InPackage(cur, added[id].lessonId, p.id)
  {
    var added := NewPlans(lessons, dates, req, year, firstId);
    forall id | id in added
      ensures added[id].studentId == req.studentId && added[id].lessonId in cur.lessons
      ensures InPackage(cur, added[id].lessonId, p.id) && added[id].lessonId == lessons[id - firstId].id
    {
      assert added[firstId + (id - firstId)] == NewPlan(lessons[id - firstId], dates[id - firstId], req, year);
      assert lessons[id - firstId] in lessons;
    }
  }

  lemma LessonTaught(cur: Curriculum, p: Package, l: Lesson)
    requires CurriculumOk(cur) && p.id in cur.packages && cur.packages[p.id] == p && l in OrderedLessons(p)
    ensures l.unitId in TaughtUnits(p.units)
  {
    PackageLessons(cur, p);
    SortUnitsFacts(p.units);
    InFlatten(SortUnits(p.units), l);
    var u :| u in SortUnits(p.units) && l in u.lessons;
    assert u in p.units && u.id == l.unitId;
  }

  /** Only plans of the student's units with lessons change. */
  lemma ReplacedKept(cur: Curriculum, plans: Plans, p: Package, dates: seq<Date>, req: GenerationRequest, year: int,
                     firstId: int)
    requires CurriculumOk(cur) && p.id in cur.packages && cur.packages[p.id] == p
    requires |dates| == |OrderedLessons(p)|
    requires (forall id :: id in plans ==> id < firstId && plans[id].lessonId in cur.lessons)
    ensures P.PlansKept(cur, plans, ReplacedPlans(cur, plans, p, dates, req, year, firstId),
                        P.UnitsOf(req.studentId, TaughtUnits(p.units)))
  {
    var lessons := OrderedLessons(p);
    PackageLessons(cur, p);
    var after := ReplacedPlans(cur, plans, p, dates, req, year, firstId);
    forall id | id in plans && !(id in after && after[id] == plans[id])
      ensures P.PairOf(cur, plans[id]) in P.UnitsOf(req.studentId, TaughtUnits(p.units))
    {
      assert id in ExistingPlans(cur, plans, req.studentId, p.id);
      LessonTaught(cur, p, cur.lessons[plans[id].lessonId]);
    }
    forall id | id in after && !(id in plans && plans[id] == after[id])
      ensures P.PairOf(cur, after[id]) in P.UnitsOf(req.studentId, TaughtUnits(p.units))
    {
      assert after[firstId + (id - firstId)] == NewPlan(lessons[id - firstId], dates[id - firstId], req, year);
      LessonTaught(cur, p, lessons[id - firstId]);
    }
  }

  // ---------------------------------------------------------------- the route

  /** The rows generation leaves: old plans of the package gone, one new plan per lesson, dated by
      the first qualifying slots, and each unit's target set to its window. */
  method GenerateLessonPlans(tables: P.PacingTables, book: seq<Schedule>, years: map<int, SchoolYear>, linked: set<int>,
                             req: GenerationRequest)
    returns (error: Option<P.Error>)
    requires tables.Valid() && WellFormed(book)
    requires forall p :: p in tables.dir.cur.packages ==> tables.dir.cur.packages[p].yearId in years
    modifies tables
    ensures tables.Valid()
    ensures error == Refusal(tables.dir, old(tables.plans), book, years, linked, req)
    ensures error.Some? ==> tables.plans == old(tables.plans) && tables.targets == old(tables.targets)
    ensures error.None? ==>
      var package := tables.dir.cur.packages[req.packageId];
      var year := years[package.yearId];
      var lessons, dates := OrderedLessons(package), Dates(RowsFor(book, req.studentId, year.id), package, year, req);
      && |dates| == |lessons|
      && tables.plans == ReplacedPlans(tables.dir.cur, old(tables.plans), package, dates, req, year.id,
                                       old(tables.nextId))
      && Windowed(lessons, dates, package.units, tables.targets, req.studentId)
    ensures error.None? ==>
      var touched := P.UnitsOf(req.studentId, TaughtUnits(tables.dir.cur.packages[req.packageId].units));
      && OtherRowsKept(old(tables.targets), tables.targets, touched)
      && tables.Wrong() == P.Outside(old(tables.Wrong()), old(tables.targets), touched)
  {
    if req.packageId !in tables.dir.cur.packages || req.studentId !in tables.dir.students {
      return Some(P.NotFound);
    }
    var package := tables.dir.cur.packages[req.packageId];
    var year := years[package.yearId];
    if req.yearId.Some? && req.yearId.value != year.id {
      return Some(P.BadRequest);
    }
    var lessons := OrderedLessons(package);
    if lessons == [] {
      return Some(P.BadRequest);
    }
    var existing := ExistingPlans(tables.dir.cur, tables.plans, req.studentId, req.packageId);
    if existing != {} && !req.overwrite {
      return Some(P.Conflict);
    }
    if existing * linked != {} {
      return Some(P.Conflict);
    }
    var rows := RowsFor(book, req.studentId, year.id);
    if rows == [] {
      return Some(P.BadRequest);
    }
    RowsForWellFormed(book, req.studentId, year.id);
    var slots := CollectSlots(rows, package.subjectId, year.events, StartOf(req, year), year.end, |lessons|);
    if |slots| < |lessons| {
      return Some(P.BadRequest);
    }
    Store(tables, package, year, SlotDates(slots), req);
    error := None;
  }

  /** The writing half of the route. */
  method Store(tables: P.PacingTables, package: Package, year: SchoolYear, dates: seq<Date>, req: GenerationRequest)
    requires tables.Valid() && package.id in tables.dir.cur.packages && tables.dir.cur.packages[package.id] == package
    requires |dates| == |OrderedLessons(package)|
    modifies tables
    ensures tables.Valid()
    ensures tables.plans
            == ReplacedPlans(tables.dir.cur, old(tables.plans), package, dates, req, year.id, old(tables.nextId))
    ensures Windowed(OrderedLessons(package), dates, package.units, tables.targets, req.studentId)
    ensures OtherRowsKept(old(tables.targets), tables.targets, P.UnitsOf(req.studentId, TaughtUnits(package.units)))
    ensures tables.Wrong()
            == P.Outside(old(tables.Wrong()), old(tables.targets), P.UnitsOf(req.studentId, TaughtUnits(package.units)))
  {
    var cur, student := tables.dir.cur, req.studentId;
    ghost var plans0, targets0, firstId := tables.plans, tables.targets, tables.nextId;
    var plans, targets, ranges, next := NewRows(cur, tables.plans, tables.targets, package, year, dates, req,
                                                tables.nextId);
    tables.plans, tables.targets, tables.nextId := plans, targets, next;
    tables.RefreshPacingTargets(student, ranges.Keys, NOTHING_LOADED);
    ghost var touched := P.UnitsOf(student, TaughtUnits(package.units));
    WindowsSurvive(OrderedLessons(package), dates, package.units, targets, tables.targets, student);
    ReplacedKept(cur, plans0, package, dates, req, year.id, firstId);
    WrongReplaced(cur, plans0, plans, targets0, targets, tables.targets, touched);
  }

  /** Targets upserted and then refreshed. */
  lemma WrongReplaced(cur: Curriculum, plans: Plans, plans': Plans, before: Targets, mid: Targets, after: Targets,
                      touched: P.Pairs)
    requires P.PlansKept(cur, plans, plans', touched) && P.OthersKept(before, mid, touched)
    requires P.Settled(cur, plans', mid, after, touched)
    ensures P.WrongIds(cur, plans', after) == P.Outside(P.WrongIds(cur, plans, before), before, touched)
    ensures OtherRowsKept(before, after, touched)
  {
    P.SettledKept(cur, plans', mid, after, touched);
    P.WrongAfter(cur, plans, plans', before, after, touched, {});
    P.NoneInside(after);
  }

  /** Plans and targets as they are flushed, before the completion dates are refreshed. */
  method NewRows(cur: Curriculum, plans: Plans, targets: Targets, package: Package, year: SchoolYear, dates: seq<Date>,
                 req: GenerationRequest, firstId: int)
    returns (plans': Plans, targets': Targets, ranges: map<int, seq<Date>>, next: int)
    requires CurriculumOk(cur) && PlansOk(cur, plans) && TargetsOk(cur, targets)
    requires (forall id :: id in plans ==> id < firstId) && (forall id :: id in targets ==> id < firstId)
    requires package.id in cur.packages && cur.packages[package.id] == package && |dates| == |OrderedLessons(package)|
    ensures plans' == ReplacedPlans(cur, plans, package, dates, req, year.id, firstId)
    ensures PlansOk(cur, plans') && TargetsOk(cur, targets')
    ensures (forall id :: id in plans' ==> id < next) && (forall id :: id in targets' ==> id < next)
    ensures Windowed(OrderedLessons(package), dates, package.units, targets', req.studentId)
    ensures ranges.Keys == TaughtUnits(package.units)
    ensures P.OthersKept(targets, targets', P.UnitsOf(req.studentId, ranges.Keys))
  {
    var lessons, student := OrderedLessons(package), req.studentId;
    plans' := ReplacedPlans(cur, plans, package, dates, req, year.id, firstId);
    ranges := BuildRanges(lessons, dates);
    ReplacedPlansOk(cur, plans, package, dates, req, year.id, firstId);
    PackageLessons(cur, package);
    targets', next := UpsertTargets(cur, targets, student, package.units, ranges, firstId + |lessons|);
    UnitsWindowed(cur, package, lessons, dates, ranges, targets', student);
    RangesTaught(cur, package, lessons, dates, ranges);
  }

  /** Every unit with lessons has a target set to its window. */
  ghost predicate Windowed(lessons: seq<Lesson>, dates: seq<Date>, units: seq<CurriculumUnit>, targets: Targets,
                           student: int)
    requires |lessons| == |dates|
  {
    forall u :: u in units && u.lessons != [] ==> UnitWindowed(lessons, dates, u.id, targets, student)
  }

  ghost predicate UnitWindowed(lessons: seq<Lesson>, dates: seq<Date>, unit: int, targets: Targets, student: int)
    requires |lessons| == |dates|
  {
    exists start, end :: IsWindow(lessons, dates, unit, start, end) && HasWindow(targets, student, unit, start, end)
  }

  lemma WindowsSurvive(lessons: seq<Lesson>, dates: seq<Date>, units: seq<CurriculumUnit>, targets: Targets,
                       targets': Targets, student: int)
    requires |lessons| == |dates| && Windowed(lessons, dates, units, targets, student) && P.SameRows(targets', targets)
    ensures Windowed(lessons, dates, units, targets', student)
  {
    forall u | u in units && u.lessons != [] ensures UnitWindowed(lessons, dates, u.id, targets', student) {
      var start, end :| IsWindow(lessons, dates, u.id, start, end) && HasWindow(targets, student, u.id, start, end);
      var id :| id in targets && IsTargetOf(targets[id], student, u.id) && targets[id].start == start
      && targets[id].end == end;
      assert P.SameRow(targets'[id], targets[id]);
      assert HasWindow(targets', student, u.id, start, end);
    }
  }

  /** The units with recorded dates are those with lessons. */
  lemma RangesTaught(cur: Curriculum, package: Package, lessons: seq<Lesson>, dates: seq<Date>,
                     ranges: map<int, seq<Date>>)
    requires CurriculumOk(cur) && package.id in cur.packages && cur.packages[package.id] == package
    requires lessons == OrderedLessons(package) && |dates| == |lessons| && IsRanges(ranges, lessons, dates)
    ensures ranges.Keys == TaughtUnits(package.units)
  {
    forall u | u in ranges ensures u in TaughtUnits(package.units) {
      assert ranges[u][0] in ranges[u] && DatedLesson(lessons, dates, u, ranges[u][0]);
      var k :| 0 <= k < |lessons| && lessons[k].unitId == u && dates[k] == ranges[u][0];
      LessonTaught(cur, package, lessons[k]);
    }
    forall u | u in package.units && u.lessons != [] ensures u.id in ranges {
      UnitHasRange(cur, package, lessons, dates, ranges, u);
    }
  }

  lemma UnitHasRange(cur: Curriculum, package: Package, lessons: seq<Lesson>, dates: seq<Date>,
                     ranges: map<int, seq<Date>>, u: CurriculumUnit)
    requires CurriculumOk(cur) && package.id in cur.packages && cur.packages[package.id] == package
    requires lessons == OrderedLessons(package) && |dates| == |lessons| && IsRanges(ranges, lessons, dates)
    requires u in package.units && u.lessons != []
    ensures u.id in ranges
  {
    PackageLessons(cur, package);
    SortUnitsFacts(package.units);
    var l := u.lessons[0];
    assert l in u.lessons && HasLesson(SortUnits(package.units), l);
    InFlatten(SortUnits(package.units), l);
    var k :| 0 <= k < |lessons| && lessons[k] == l;
    assert lessons[k].unitId in ranges;
  }

  /** The slots are walked in time order, so the lessons' dates ascend. */
  lemma DatesAscend(rows: seq<Schedule>, package: Package, year: SchoolYear, req: GenerationRequest)
    requires WellFormed(rows)
    ensures Ascending(Dates(rows, package, year, req))
    ensures forall d :: d in Dates(rows, package, year, req) ==> StartOf(req, year) <= d <= year.end
  {
    var all := AllSlots(rows, package.subjectId, year.events, StartOf(req, year), year.end);
    SlotsInOrder(rows, package.subjectId, year.events, StartOf(req, year), year.end + 1);
    var slots := Take(all, |OrderedLessons(package)|);
    assert forall i :: 0 <= i < |slots| ==> slots[i] == all[i] && slots[i] in all;
    assert forall i, j :: 0 <= i < j < |slots| ==> SlotLeq(slots[i], slots[j]);
  }

  ghost function Qualifying(rows: seq<Schedule>, package: Package, year: SchoolYear, req: GenerationRequest)
    : seq<Slot>
  {
    AllSlots(rows, package.subjectId, year.events, StartOf(req, year), year.end)
  }

  /** The slots to choose from: the classes of the package's subject on the school days from the year's start, or the
      start asked for if that is later, to the year's end. */
  lemma QualifyingIff(rows: seq<Schedule>, package: Package, year: SchoolYear, req: GenerationRequest, s: Slot)
    ensures s in Qualifying(rows, package, year, req)
            <==> year.start <= s.date <= year.end && (req.startDate.Some? ==> req.startDate.value <= s.date)
                 && Instructional(year.events, s.date)
                 && HasClass(DailyAgenda(rows, s.date, None), package.subjectId, s.time)
  {
    InAllSlots(rows, package.subjectId, year.events, StartOf(req, year), year.end, s);
  }

  /** The schedules looked at: the student's own for the school year, in their order. */
  lemma {:induction false} RowsForIff(book: seq<Schedule>, student: int, year: int, s: Schedule)
    ensures s in RowsFor(book, student, year) <==> s in book && s.studentId == student && s.yearId == year
  {
    if book != [] {
      RowsForIff(book[..|book| - 1], student, year, s);
      assert book == book[..|book| - 1] + [book[|book| - 1]];
    }
  }

  /** The plan stored for the i-th lesson: planned and bare, on a school day of the span with a class of the subject,
      lasting as long as the lesson says, or as asked for where it says nothing or zero. */
  lemma StoredPlan(cur: Curriculum, plans: Plans, rows: seq<Schedule>, package: Package, year: SchoolYear,
                   req: GenerationRequest, firstId: int, i: nat)
    requires i < |OrderedLessons(package)| <= |Qualifying(rows, package, year, req)|
    ensures |Dates(rows, package, year, req)| == |OrderedLessons(package)|
    ensures var after := ReplacedPlans(cur, plans, package, Dates(rows, package, year, req), req, year.id, firstId);
            var lesson := OrderedLessons(package)[i];
            && firstId + i in after
            && var p := after[firstId + i];
               && p.lessonId == lesson.id && p.studentId == req.studentId && p.yearId == year.id
               && p.status == Planned && p.completedOn == None && p.notes == None
               && (lesson.minutes.Some? && lesson.minutes.value != 0 ==> p.minutes == lesson.minutes)
               && (lesson.minutes == None || lesson.minutes == Some(0) ==> p.minutes == req.defaultMinutes)
               && SchoolDayFor(rows, package, year, req, p.date)
  {
    var s := Qualifying(rows, package, year, req)[i];
    assert s in Qualifying(rows, package, year, req);
    QualifyingIff(rows, package, year, req, s);
    assert Dates(rows, package, year, req)[i] == s.date;
    var added := NewPlans(OrderedLessons(package), Dates(rows, package, year, req), req, year.id, firstId);
    assert firstId + i in added;
  }

  /** A school day of the span on which the subject is taught. */
  ghost predicate SchoolDayFor(rows: seq<Schedule>, package: Package, year: SchoolYear,
                               req: GenerationRequest, d: Date) {
    && year.start <= d <= year.end && (req.startDate.Some? ==> req.startDate.value <= d)
    && Instructional(year.events, d)
    && exists it :: it in DailyAgenda(rows, d, None) && it.subject.id == package.subjectId
  }

  /** Of the old plans exactly the student's for lessons of the package's units go. */
  lemma KeptPlanIff(cur: Curriculum, plans: Plans, package: Package, dates: seq<Date>, req: GenerationRequest,
                    year: int, firstId: int, id: int)
    requires CurriculumOk(cur) && PlansOk(cur, plans) && |dates| == |OrderedLessons(package)|
    requires id in plans && id < firstId
    ensures var after := ReplacedPlans(cur, plans, package, dates, req, year, firstId);
            (id in after <==> plans[id].studentId != req.studentId
                              || cur.units[cur.lessons[plans[id].lessonId].unitId].packageId != package.id)
            && (id in after ==> after[id] == plans[id])
  {
  }

  /** A generation goes through exactly when package and student are known, the year asked for is the package's, there
      are lessons, plans in the way may be overwritten and have no assignments, and every lesson can be placed. */
  lemma AcceptedIff(dir: P.Directory, plans: Plans, book: seq<Schedule>, years: map<int, SchoolYear>, linked: set<int>,
                    req: GenerationRequest)
    requires forall p :: p in dir.cur.packages ==> dir.cur.packages[p].yearId in years
    ensures Refusal(dir, plans, book, years, linked, req).None?
            <==> && req.packageId in dir.cur.packages && req.studentId in dir.students
                 && var package := dir.cur.packages[req.packageId];
                    var year := years[package.yearId];
                    && (req.yearId == None || req.yearId == Some(year.id))
                    && OrderedLessons(package) != []
                    && Replaceable(ExistingPlans(dir.cur, plans, req.studentId, req.packageId), linked, req.overwrite)
                    && Placeable(RowsFor(book, req.studentId, year.id), package, year, req)
  {
    if req.packageId in dir.cur.packages && req.studentId in dir.students {
      var package := dir.cur.packages[req.packageId];
      var year := years[package.yearId];
      var rows := RowsFor(book, req.studentId, year.id);
      RefusedForSlotsIff(rows, package, year, req);
      NoScheduleNoSlot(package, year, req);
      assert |Qualifying(rows, package, year, req)| >= |OrderedLessons(package)|
             <==> Placeable(rows, package, year, req);
      InTheWayIff(ExistingPlans(dir.cur, plans, req.studentId, req.packageId), linked, req.overwrite);
    }
  }

  /** Each of these plans may go. */
  ghost predicate Replaceable(existing: set<int>, linked: set<int>, overwrite: bool) {
    forall id :: id in existing ==> overwrite && id !in linked
  }

  ghost predicate Placeable(rows: seq<Schedule>, package: Package, year: SchoolYear, req: GenerationRequest) {
    exists p: seq<nat> :: Places(rows, package, year, req, p)
  }

  lemma InTheWayIff(existing: set<int>, linked: set<int>, overwrite: bool)
    ensures (existing == {} || overwrite) && existing * linked == {} <==> Replaceable(existing, linked, overwrite)
  {
    forall id ensures id in existing * linked <==> id in existing && id in linked {
    }
    if existing * linked != {} {
      var id := MemberOf(existing * linked);
      assert id in existing && id in linked;
    }
    if existing != {} {
      var id := MemberOf(existing);
      assert !overwrite ==> !Replaceable(existing, linked, overwrite);
    }
    forall id | id in existing && id in linked ensures existing * linked != {} {
      assert id in existing * linked;
    }
  }

  lemma NoScheduleNoSlot(package: Package, year: SchoolYear, req: GenerationRequest)
    ensures Qualifying([], package, year, req) == []
  {
    NoSlots(package.subjectId, year.events, StartOf(req, year), year.end + 1);
  }

  lemma {:induction false} NoSlots(subject: int, events: seq<Event>, first: Date, stop: Date)
    ensures SlotsBefore(SlotsOn([], subject, events), first, stop) == []
    decreases stop - first
  {
    if first < stop {
      NoSlots(subject, events, first, stop - 1);
      assert DailyAgenda([], stop - 1, None) == [];
    }
  }

  /** Which refusal: unknown rows are not found, plans in the way of lessons conflict, everything else is a bad
      request. */
  lemma RefusalKind(dir: P.Directory, plans: Plans, book: seq<Schedule>, years: map<int, SchoolYear>, linked: set<int>,
                    req: GenerationRequest)
    requires forall p :: p in dir.cur.packages ==> dir.cur.packages[p].yearId in years
    requires Refusal(dir, plans, book, years, linked, req).Some?
    ensures var e := Refusal(dir, plans, book, years, linked, req).value;
            && (e == P.NotFound <==> req.packageId !in dir.cur.packages || req.studentId !in dir.students)
            && (e != P.NotFound ==>
                  var package := dir.cur.packages[req.packageId];
                  var year := years[package.yearId];
                  if (req.yearId == None || req.yearId == Some(year.id)) && OrderedLessons(package) != []
                     && !Replaceable(ExistingPlans(dir.cur, plans, req.studentId, req.packageId), linked, req.overwrite)
                  then e == P.Conflict else e == P.BadRequest)
  {
    if req.packageId in dir.cur.packages && req.studentId in dir.students {
      InTheWayIff(ExistingPlans(dir.cur, plans, req.studentId, req.packageId), linked, req.overwrite);
    }
  }

  /** A placement gives every lesson a qualifying slot of its own. */
  ghost predicate Places(rows: seq<Schedule>, package: Package, year: SchoolYear, req: GenerationRequest, p: seq<nat>) {
    |p| == |OrderedLessons(package)| && Placement(p, |Qualifying(rows, package, year, req)|)
  }

  /** No placement that keeps the teaching order gives any lesson an earlier date than the route does. */
  lemma DatesEarliest(rows: seq<Schedule>, package: Package, year: SchoolYear, req: GenerationRequest, p: seq<nat>,
                      i: nat)
    requires WellFormed(rows) && Places(rows, package, year, req, p) && KeepsOrder(p) && i < |p|
    ensures i < |Dates(rows, package, year, req)|
            && Dates(rows, package, year, req)[i] <= Qualifying(rows, package, year, req)[p[i]].date
  {
    SlotsInOrder(rows, package.subjectId, year.events, StartOf(req, year), year.end + 1);
    Pigeonhole(p, |Qualifying(rows, package, year, req)|);
    GreedyEarliest(Qualifying(rows, package, year, req), p, i);
  }

  /** No placement at all finishes before the route's last date. */
  lemma DatesFinishFirst(rows: seq<Schedule>, package: Package, year: SchoolYear, req: GenerationRequest, p: seq<nat>)
    requires WellFormed(rows) && Places(rows, package, year, req, p) && p != []
    ensures |Dates(rows, package, year, req)| == |p|
    ensures exists i :: 0 <= i < |p|
              && Dates(rows, package, year, req)[|p| - 1] <= Qualifying(rows, package, year, req)[p[i]].date
  {
    SlotsInOrder(rows, package.subjectId, year.events, StartOf(req, year), year.end + 1);
    GreedyFinishesFirst(Qualifying(rows, package, year, req), p);
  }

  /** The slots run out exactly when no placement exists. */
  lemma RefusedForSlotsIff(rows: seq<Schedule>, package: Package, year: SchoolYear, req: GenerationRequest)
    ensures |Qualifying(rows, package, year, req)| < |OrderedLessons(package)|
            <==> !exists p: seq<nat> :: Places(rows, package, year, req, p)
  {
    var n := |OrderedLessons(package)|;
    PlaceableIff(Qualifying(rows, package, year, req), n);
    if p: seq<nat> :| |p| == n && Placement(p, |Qualifying(rows, package, year, req)|) {
      assert Places(rows, package, year, req, p);
    }
  }

  /** After generation the windows of two units never cross, whichever slots the lessons got. */
  lemma GeneratedWindowsOrdered(cur: Curriculum, rows: seq<Schedule>, package: Package, year: SchoolYear,
                                req: GenerationRequest, dates: seq<Date>, u: int, v: int, su: Date, eu: Date, sv: Date,
                                ev: Date)
    requires WellFormed(rows) && CurriculumOk(cur) && package.id in cur.packages && cur.packages[package.id] == package
    requires dates == Dates(rows, package, year, req) && |OrderedLessons(package)| == |dates|
    requires IsWindow(OrderedLessons(package), dates, u, su, eu) && IsWindow(OrderedLessons(package), dates, v, sv, ev)
    requires UnitBefore(SortUnits(package.units), u, v)
    ensures StartOf(req, year) <= su <= eu <= sv <= ev <= year.end
  {
    PackageLessons(cur, package);
    DatesAscend(rows, package, year, req);
    WindowsNeverCross(package, dates, u, v, su, eu, sv, ev);
    WindowInside(OrderedLessons(package), dates, u, su, eu, StartOf(req, year), year.end);
    WindowInside(OrderedLessons(package), dates, v, sv, ev, StartOf(req, year), year.end);
  }

  lemma WindowInside(lessons: seq<Lesson>, dates: seq<Date>, unit: int, start: Date, end: Date, lo: Date, hi: Date)
    requires |lessons| == |dates| && IsWindow(lessons, dates, unit, start, end)
    requires forall d :: d in dates ==> lo <= d <= hi
    ensures lo <= start && end <= hi
  {
    var k :| 0 <= k < |lessons| && lessons[k].unitId == unit && dates[k] == start;
    var m :| 0 <= m < |lessons| && lessons[m].unitId == unit && dates[m] == end;
    assert dates[k] in dates && dates[m] in dates;
  }

  lemma UnitsWindowed(cur: Curriculum, package: Package, lessons: seq<Lesson>, dates: seq<Date>,
                      ranges: map<int, seq<Date>>, targets: Targets, student: int)
    requires CurriculumOk(cur) && package.id in cur.packages && cur.packages[package.id] == package
    requires lessons == OrderedLessons(package) && |dates| == |lessons| && IsRanges(ranges, lessons, dates)
    requires forall u :: u in package.units && u.id in ranges ==>
               HasWindow(targets, student, u.id, MinDate(ranges[u.id]), MaxDate(ranges[u.id]))
    ensures Windowed(lessons, dates, package.units, targets, student)
  {
    forall u | u in package.units && u.lessons != [] ensures UnitWindowed(lessons, dates, u.id, targets, student) {
      UnitHasRange(cur, package, lessons, dates, ranges, u);
      RangeIsWindow(ranges, lessons, dates, u.id);
    }
  }
}
