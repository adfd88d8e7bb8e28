/** The teaching order of a package's lessons and the window each unit gets
    (backend/routers/lesson_plans.py, lines 556-560, 638-641 and 667-685). */
module LessonOrder {
  import opened Agenda
  import opened PacingFacts

  // ---------------------------------------------------------------- sorting by (sequence_order, id)

  predicate KeyLess(o1: int, i1: int, o2: int, i2: int) {
    o1 < o2 || (o1 == o2 && i1 <= i2)
  }

  function InsertUnit(u: CurriculumUnit, us: seq<CurriculumUnit>): seq<CurriculumUnit> {
    if us == [] || KeyLess(us[|us| - 1].order, us[|us| - 1].id, u.order, u.id) then us + [u]
    else InsertUnit(u, us[..|us| - 1]) + [us[|us| - 1]]
  }

  function SortUnits(us: seq<CurriculumUnit>): seq<CurriculumUnit> {
    if us == [] then [] else InsertUnit(us[|us| - 1], SortUnits(us[..|us| - 1]))
  }

  function InsertLesson(l: Lesson, ls: seq<Lesson>): seq<Lesson> {
    if ls == [] || KeyLess(ls[|ls| - 1].order, ls[|ls| - 1].id, l.order, l.id) then ls + [l]
    else InsertLesson(l, ls[..|ls| - 1]) + [ls[|ls| - 1]]
  }

  function SortLessons(ls: seq<Lesson>): seq<Lesson> {
    if ls == [] then [] else InsertLesson(ls[|ls| - 1], SortLessons(ls[..|ls| - 1]))
  }

  function Flatten(us: seq<CurriculumUnit>): seq<Lesson> {
    if us == [] then [] else Flatten(us[..|us| - 1]) + SortLessons(us[|us| - 1].lessons)
  }

  /** The nested comprehension over sorted units and sorted lessons. */
  function OrderedLessons(p: Package): seq<Lesson> {
    Flatten(SortUnits(p.units))
  }

  // ---------------------------------------------------------------- the sorts permute

  predicate DistinctUnits(us: seq<CurriculumUnit>) {
    forall i, j :: 0 <= i < j < |us| ==> us[i].id != us[j].id
  }

  predicate DistinctLessons(ls: seq<Lesson>) {
    forall i, j :: 0 <= i < j < |ls| ==> ls[i].id != ls[j].id
  }

  predicate UnitsInOrder(us: seq<CurriculumUnit>) {
    forall i, j :: 0 <= i < j < |us| ==> KeyLess(us[i].order, us[i].id, us[j].order, us[j].id)
  }

  lemma {:induction false} InsertUnitFacts(u: CurriculumUnit, us: seq<CurriculumUnit>)
    requires UnitsInOrder(us) && DistinctUnits(us) && forall x :: x in us ==> x.id != u.id
    ensures var r := InsertUnit(u, us);
            UnitsInOrder(r) && DistinctUnits(r) && forall x :: x in r <==> x in us || x == u
  {
    if !(us == [] || KeyLess(us[|us| - 1].order, us[|us| - 1].id, u.order, u.id)) {
      var front, last := us[..|us| - 1], us[|us| - 1];
      assert us == front + [last];
      InsertUnitFacts(u, front);
      forall x | x in front ensures UnitPrecedes(x, last) {
        var i :| 0 <= i < |front| && front[i] == x;
        assert us[i] == x && us[|us| - 1] == last;
      }
      UnitsSnoc(InsertUnit(u, front), last);
    } else {
      forall x | x in us ensures UnitPrecedes(x, u) {
        var i :| 0 <= i < |us| && us[i] == x;
        if i < |us| - 1 {
          assert KeyLess(x.order, x.id, us[|us| - 1].order, us[|us| - 1].id);
        }
      }
      UnitsSnoc(us, u);
    }
  }

  predicate UnitPrecedes(a: CurriculumUnit, b: CurriculumUnit) {
    a.id != b.id && KeyLess(a.order, a.id, b.order, b.id)
  }

  lemma UnitsSnoc(xs: seq<CurriculumUnit>, last: CurriculumUnit)
    requires UnitsInOrder(xs) && DistinctUnits(xs) && forall x :: x in xs ==> UnitPrecedes(x, last)
    ensures UnitsInOrder(xs + [last]) && DistinctUnits(xs + [last])
  {
    assert forall i :: 0 <= i < |xs| ==> xs[i] in xs && UnitPrecedes(xs[i], last);
  }

  lemma {:induction false} SortUnitsFacts(us: seq<CurriculumUnit>)
    requires DistinctUnits(us)
    ensures UnitsInOrder(SortUnits(us)) && DistinctUnits(SortUnits(us)) && forall x :: x in SortUnits(us) <==> x in us
  {
    if us != [] {
      SortUnitsFacts(us[..|us| - 1]);
      assert us == us[..|us| - 1] + [us[|us| - 1]];
      InsertUnitFacts(us[|us| - 1], SortUnits(us[..|us| - 1]));
    }
  }

  predicate LessonsInOrder(ls: seq<Lesson>) {
    forall i, j :: 0 <= i < j < |ls| ==> KeyLess(ls[i].order, ls[i].id, ls[j].order, ls[j].id)
  }

  lemma {:induction false} InsertLessonFacts(l: Lesson, ls: seq<Lesson>)
    requires LessonsInOrder(ls) && DistinctLessons(ls) && forall x :: x in ls ==> x.id != l.id
    ensures var r := InsertLesson(l, ls);
            LessonsInOrder(r) && DistinctLessons(r) && forall x :: x in r <==> x in ls || x == l
  {
    if !(ls == [] || KeyLess(ls[|ls| - 1].order, ls[|ls| - 1].id, l.order, l.id)) {
      var front, last := ls[..|ls| - 1], ls[|ls| - 1];
      assert ls == front + [last];
      InsertLessonFacts(l, front);
      forall x | x in front ensures LessonPrecedes(x, last) {
        var i :| 0 <= i < |front| && front[i] == x;
        assert ls[i] == x && ls[|ls| - 1] == last;
      }
      LessonsSnoc(InsertLesson(l, front), last);
    } else {
      forall x | x in ls ensures LessonPrecedes(x, l) {
        var i :| 0 <= i < |ls| && ls[i] == x;
        if i < |ls| - 1 {
          assert KeyLess(x.order, x.id, ls[|ls| - 1].order, ls[|ls| - 1].id);
        }
      }
      LessonsSnoc(ls, l);
    }
  }

  predicate LessonPrecedes(a: Lesson, b: Lesson) {
    a.id != b.id && KeyLess(a.order, a.id, b.order, b.id)
  }

  lemma LessonsSnoc(xs: seq<Lesson>, last: Lesson)
    requires LessonsInOrder(xs) && DistinctLessons(xs) && forall x :: x in xs ==> LessonPrecedes(x, last)
    ensures LessonsInOrder(xs + [last]) && DistinctLessons(xs + [last])
  {
    assert forall i :: 0 <= i < |xs| ==> xs[i] in xs && LessonPrecedes(xs[i], last);
  }

  lemma {:induction false} SortLessonsFacts(ls: seq<Lesson>)
    requires DistinctLessons(ls)
    ensures LessonsInOrder(SortLessons(ls)) && DistinctLessons(SortLessons(ls))
    ensures forall x :: x in SortLessons(ls) <==> x in ls
  {
    if ls != [] {
      SortLessonsFacts(ls[..|ls| - 1]);
      assert ls == ls[..|ls| - 1] + [ls[|ls| - 1]];
      InsertLessonFacts(ls[|ls| - 1], SortLessons(ls[..|ls| - 1]));
    }
  }

  /** Units whose lessons carry their id. */
  ghost predicate OwnLessons(us: seq<CurriculumUnit>) {
    forall u :: u in us ==> DistinctLessons(u.lessons) && forall l :: l in u.lessons ==> l.unitId == u.id
  }

  ghost predicate HasLesson(us: seq<CurriculumUnit>, l: Lesson) {
    exists u :: u in us && l in u.lessons
  }

  lemma {:induction false} InFlatten(us: seq<CurriculumUnit>, l: Lesson)
    requires OwnLessons(us)
    ensures l in Flatten(us) <==> HasLesson(us, l)
  {
    if us != [] {
      var front, last := us[..|us| - 1], us[|us| - 1];
      assert us == front + [last];
      InFlatten(front, l);
      SortLessonsFacts(last.lessons);
      if HasLesson(us, l) && !HasLesson(front, l) {
        var u :| u in us && l in u.lessons;
        assert u in front || u == last;
      }
    }
  }

  /** u comes before v in the teaching order. */
  ghost predicate UnitBefore(us: seq<CurriculumUnit>, u: int, v: int) {
    exists i, j :: 0 <= i < j < |us| && us[i].id == u && us[j].id == v
  }

  /** A unit's lessons all come before those of every later unit. */
  lemma {:induction false} UnitsContiguous(us: seq<CurriculumUnit>, k: nat, m: nat)
    requires OwnLessons(us) && DistinctUnits(us)
    requires k < m < |Flatten(us)|
    ensures Flatten(us)[k].unitId == Flatten(us)[m].unitId
            || UnitBefore(us, Flatten(us)[k].unitId, Flatten(us)[m].unitId)
  {
    var front, last := us[..|us| - 1], us[|us| - 1];
    assert us == front + [last];
    var a := Flatten(front);
    SortLessonsFacts(last.lessons);
    if m < |a| {
      UnitsContiguous(front, k, m);
      if a[k].unitId != a[m].unitId {
        BeforeInFront(us, a[k].unitId, a[m].unitId);
      }
    } else {
      assert SortLessons(last.lessons)[m - |a|] in last.lessons;
      if k < |a| {
        assert a[k] in a;
        InFlatten(front, a[k]);
        var u :| u in front && a[k] in u.lessons;
        BeforeLast(us, u);
      } else {
        assert SortLessons(last.lessons)[k - |a|] in last.lessons;
      }
    }
  }

  lemma BeforeInFront(us: seq<CurriculumUnit>, u: int, v: int)
    requires us != [] && UnitBefore(us[..|us| - 1], u, v)
    ensures UnitBefore(us, u, v)
  {
    var front := us[..|us| - 1];
    var i, j :| 0 <= i < j < |front| && front[i].id == u && front[j].id == v;
    assert us[i] == front[i] && us[j] == front[j];
  }

  lemma BeforeLast(us: seq<CurriculumUnit>, u: CurriculumUnit)
    requires us != [] && u in us[..|us| - 1]
    ensures UnitBefore(us, u.id, us[|us| - 1].id)
  {
    var i :| 0 <= i < |us| - 1 && us[..|us| - 1][i] == u;
    assert us[i] == u;
  }

  /** No lesson is listed twice. */
  lemma {:induction false} FlattenDistinct(us: seq<CurriculumUnit>)
    requires OwnLessons(us) && DistinctUnits(us)
    ensures forall i, j :: 0 <= i < j < |Flatten(us)| ==> Flatten(us)[i] != Flatten(us)[j]
  {
    if us != [] {
      var front, last := us[..|us| - 1], us[|us| - 1];
      assert us == front + [last];
      FlattenDistinct(front);
      SortLessonsFacts(last.lessons);
      NotInLast(us);
      assert last in us;
      forall l | l in SortLessons(last.lessons) ensures l.unitId == last.id { }
    }
  }

  /** Within a unit lessons come by sequence order, those with the same by id. */
  lemma {:induction false} LessonsWithin(us: seq<CurriculumUnit>, k: nat, m: nat)
    requires OwnLessons(us) && DistinctUnits(us) && k < m < |Flatten(us)|
    requires Flatten(us)[k].unitId == Flatten(us)[m].unitId
    ensures var a, b := Flatten(us)[k], Flatten(us)[m];
            a.order < b.order || (a.order == b.order && a.id < b.id)
  {
    var front, last := us[..|us| - 1], us[|us| - 1];
    assert us == front + [last];
    var a, b := Flatten(front), SortLessons(last.lessons);
    SortLessonsFacts(last.lessons);
    if m < |a| {
      LessonsWithin(front, k, m);
    } else {
      assert b[m - |a|] in last.lessons;
      assert k < |a| ==> a[k] in a;
      NotInLast(us);
      if k >= |a| {
        assert b[k - |a|].id != b[m - |a|].id;
      }
    }
  }

  lemma NotInLast(us: seq<CurriculumUnit>)
    requires OwnLessons(us) && DistinctUnits(us) && us != []
    ensures forall l :: l in Flatten(us[..|us| - 1]) ==> l.unitId != us[|us| - 1].id
  {
    var front, last := us[..|us| - 1], us[|us| - 1];
    assert us == front + [last];
    forall l | l in Flatten(front) ensures l.unitId != last.id {
      InFlatten(front, l);
      var u :| u in front && l in u.lessons;
      var i :| 0 <= i < |front| && front[i] == u;
      assert us[i] == u && us[|us| - 1] == last;
    }
  }

  /** The teaching order: units by sequence order and id, and in each its lessons by theirs. */
  lemma TeachingOrder(p: Package, k: nat, m: nat)
    requires OwnLessons(p.units) && DistinctUnits(p.units) && k < m < |OrderedLessons(p)|
    ensures var a, b := OrderedLessons(p)[k], OrderedLessons(p)[m];
            if a.unitId == b.unitId then a.order < b.order || (a.order == b.order && a.id < b.id)
            else exists u, v :: u in p.units && v in p.units && u.id == a.unitId && v.id == b.unitId
                                && (u.order < v.order || (u.order == v.order && u.id < v.id))
  {
    var us := SortUnits(p.units);
    SortUnitsFacts(p.units);
    var a, b := Flatten(us)[k], Flatten(us)[m];
    if a.unitId == b.unitId {
      LessonsWithin(us, k, m);
    } else {
      UnitsContiguous(us, k, m);
      var i, j :| 0 <= i < j < |us| && us[i].id == a.unitId && us[j].id == b.unitId;
      assert us[i] in p.units && us[j] in p.units && us[i].id != us[j].id;
    }
  }

  // ---------------------------------------------------------------- windows

  predicate Ascending(dates: seq<Date>) {
    forall i, j :: 0 <= i < j < |dates| ==> dates[i] <= dates[j]
  }

  /** The earliest and the latest date given to a lesson of the unit. */
  ghost predicate IsWindow(lessons: seq<Lesson>, dates: seq<Date>, unit: int, start: Date, end: Date)
    requires |lessons| == |dates|
  {
    && (exists k :: 0 <= k < |lessons| && lessons[k].unitId == unit && dates[k] == start)
    && (exists k :: 0 <= k < |lessons| && lessons[k].unitId == unit && dates[k] == end)
    && (forall k :: 0 <= k < |lessons| && lessons[k].unitId == unit ==> start <= dates[k] <= end)
  }

  /** A window runs from the date of the unit's first lesson to that of its last. */
  lemma WindowFirstLast(lessons: seq<Lesson>, dates: seq<Date>, unit: int, start: Date, end: Date, first: nat,
                        last: nat)
    requires |lessons| == |dates| && Ascending(dates) && IsWindow(lessons, dates, unit, start, end)
    requires first < |lessons| && lessons[first].unitId == unit
    requires forall k :: 0 <= k < first ==> lessons[k].unitId != unit
    requires last < |lessons| && lessons[last].unitId == unit
    requires forall k :: last < k < |lessons| ==> lessons[k].unitId != unit
    ensures start == dates[first] && end == dates[last]
  {
    var k :| 0 <= k < |lessons| && lessons[k].unitId == unit && dates[k] == start;
    var m :| 0 <= m < |lessons| && lessons[m].unitId == unit && dates[m] == end;
    assert first <= k && m <= last;
    assert first < k ==> dates[first] <= dates[k];
    assert m < last ==> dates[m] <= dates[last];
  }

  /** The windows of two units never cross: the earlier unit ends no later than the later starts. */
  lemma WindowsNeverCross(p: Package, dates: seq<Date>, u: int, v: int, su: Date, eu: Date, sv: Date, ev: Date)
    requires OwnLessons(p.units) && DistinctUnits(p.units)
    requires |OrderedLessons(p)| == |dates| && Ascending(dates)
    requires IsWindow(OrderedLessons(p), dates, u, su, eu) && IsWindow(OrderedLessons(p), dates, v, sv, ev)
    requires UnitBefore(SortUnits(p.units), u, v)
    ensures su <= eu <= sv <= ev
  {
    var us, lessons := SortUnits(p.units), OrderedLessons(p);
    SortUnitsFacts(p.units);
    var k :| 0 <= k < |lessons| && lessons[k].unitId == u && dates[k] == eu;
    var m :| 0 <= m < |lessons| && lessons[m].unitId == v && dates[m] == sv;
    var i, j :| 0 <= i < j < |us| && us[i].id == u && us[j].id == v;
    BeforeAsymmetric(us, u, v);
    if m < k {
      UnitsContiguous(us, m, k);
    }
    assert k < m && dates[k] <= dates[m];
  }

  lemma BeforeAsymmetric(us: seq<CurriculumUnit>, u: int, v: int)
    requires DistinctUnits(us) && UnitBefore(us, u, v)
    ensures u != v && !UnitBefore(us, v, u)
  {
  }
}
