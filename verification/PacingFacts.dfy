/** Lesson plans, pacing targets and what a finished unit is
    (backend/routers/lesson_plans.py, lines 267-323; backend/models/lesson_plan.py). */
module PacingFacts {
  import opened Wrappers
  import opened Agenda
  import opened Counting

  // ---------------------------------------------------------------- the curriculum, held fixed

  datatype Lesson = Lesson(id: int, unitId: int, order: int, minutes: Option<int>)

  datatype CurriculumUnit = CurriculumUnit(id: int, packageId: int, order: int, lessons: seq<Lesson>)

  datatype Package = Package(id: int, subjectId: int, yearId: int, units: seq<CurriculumUnit>)

  datatype Curriculum = Curriculum(packages: map<int, Package>, units: map<int, CurriculumUnit>,
                                   lessons: map<int, Lesson>)

  ghost predicate UnitOk(cur: Curriculum, u: CurriculumUnit) {
    && u.packageId in cur.packages && u in cur.packages[u.packageId].units
    && (forall x :: x in u.lessons ==> x.unitId == u.id && x.id in cur.lessons && cur.lessons[x.id] == x)
    && (forall i, j :: 0 <= i < j < |u.lessons| ==> u.lessons[i].id != u.lessons[j].id)
  }

  ghost predicate PackageOk(cur: Curriculum, p: Package) {
    && (forall u :: u in p.units ==> u.packageId == p.id && u.id in cur.units && cur.units[u.id] == u)
    && (forall i, j :: 0 <= i < j < |p.units| ==> p.units[i].id != p.units[j].id)
  }

  ghost predicate Listed(cur: Curriculum, lesson: int)
    requires lesson in cur.lessons && cur.lessons[lesson].unitId in cur.units
  {
    cur.lessons[lesson] in cur.units[cur.lessons[lesson].unitId].lessons
  }

  /** Foreign keys and relationship lists agree. */
  ghost predicate CurriculumOk(cur: Curriculum) {
    && (forall p :: p in cur.packages ==> cur.packages[p].id == p)
    && (forall u :: u in cur.units ==> cur.units[u].id == u)
    && (forall l :: l in cur.lessons ==> cur.lessons[l].id == l && cur.lessons[l].unitId in cur.units)
    && (forall p {:trigger PackageOk(cur, cur.packages[p])} :: p in cur.packages ==> PackageOk(cur, cur.packages[p]))
    && (forall u {:trigger UnitOk(cur, cur.units[u])} :: u in cur.units ==> UnitOk(cur, cur.units[u]))
    && (forall l {:trigger Listed(cur, l)} :: l in cur.lessons ==> Listed(cur, l))
  }

  ghost function LessonSet(cur: Curriculum, unit: int): set<int> {
    set l | l in cur.lessons && cur.lessons[l].unitId == unit
  }

  lemma LessonTotal(cur: Curriculum, unit: int)
    requires CurriculumOk(cur) && unit in cur.units
    ensures |LessonSet(cur, unit)| == |cur.units[unit].lessons|
  {
    var ls := cur.units[unit].lessons;
    var ids := seq(|ls|, i requires 0 <= i < |ls| => ls[i].id);
    assert UnitOk(cur, cur.units[unit]);
    forall l ensures l in LessonSet(cur, unit) <==> l in ids {
      if l in LessonSet(cur, unit) {
        assert Listed(cur, l);
        var i :| 0 <= i < |ls| && ls[i] == cur.lessons[l];
        assert ids[i] == l;
      }
      if l in ids {
        var i :| 0 <= i < |ids| && ids[i] == l;
        assert ls[i] in ls;
      }
    }
    assert LessonSet(cur, unit) == Elements(ids);
    DistinctCount(ids);
  }

  // ---------------------------------------------------------------- plans and targets

  datatype PlanStatus = Planned | InProgress | Completed | Skipped | Rescheduled

  predicate Finished(s: PlanStatus) {
    s == Completed || s == Skipped
  }

  datatype Plan = Plan(
    lessonId: int, studentId: int, yearId: int, date: Date, minutes: Option<int>,
    status: PlanStatus, completedOn: Option<Date>, notes: Option<string>)

  datatype Target = Target(unitId: int, studentId: int, start: Date, end: Date, actual: Option<Date>)

  type Plans = map<int, Plan>
  type Targets = map<int, Target>

  /** _apply_lesson_plan_state: completing stamps the plan, any other status clears the stamp. */
  function WithStatus(p: Plan, s: PlanStatus, today: Date): Plan {
    p.(status := s, completedOn := if s == Completed then Some(today) else None)
  }

  function CompletionDate(p: Plan): Date {
    if p.completedOn.Some? then p.completedOn.value else p.date
  }

  predicate SameSlot(p: Plan, q: Plan) {
    p.studentId == q.studentId && p.lessonId == q.lessonId
  }

  predicate SameTarget(t: Target, u: Target) {
    t.studentId == u.studentId && t.unitId == u.unitId
  }

  ghost predicate PlansOk(cur: Curriculum, plans: Plans) {
    && (forall id :: id in plans ==> plans[id].lessonId in cur.lessons)
    && (forall i, j {:trigger SameSlot(plans[i], plans[j])} ::
          i in plans && j in plans && SameSlot(plans[i], plans[j]) ==> i == j)
  }

  ghost predicate TargetsOk(cur: Curriculum, targets: Targets) {
    && (forall id :: id in targets ==> targets[id].unitId in cur.units)
    && (forall i, j {:trigger SameTarget(targets[i], targets[j])} ::
          i in targets && j in targets && SameTarget(targets[i], targets[j]) ==> i == j)
  }

  /** A target written without touching its student and unit. */
  lemma RewrittenOk(cur: Curriculum, targets: Targets, id: int, t: Target)
    requires TargetsOk(cur, targets) && id in targets && SameTarget(targets[id], t)
    ensures TargetsOk(cur, targets[id := t])
  {
    var after := targets[id := t];
    forall i, j | i in after && j in after && SameTarget(after[i], after[j]) ensures i == j {
      assert SameTarget(targets[i], targets[j]);
    }
  }

  /** The plan counts for the student's unit, through its current lesson. */
  predicate CountsFor(cur: Curriculum, p: Plan, student: int, unit: int) {
    p.studentId == student && p.lessonId in cur.lessons && cur.lessons[p.lessonId].unitId == unit
  }

  ghost function UnitPlans(cur: Curriculum, plans: Plans, student: int, unit: int): set<int> {
    set id | id in plans && CountsFor(cur, plans[id], student, unit)
  }

  // ---------------------------------------------------------------- the meaning of the derived field

  /** The router's test: as many plans as lessons, all of them finished. */
  ghost predicate Enough(plans: Plans, ids: set<int>, total: int) {
    total != 0 && |ids| == total && AreFinished(plans, ids)
  }

  ghost predicate AreFinished(plans: Plans, ids: set<int>) {
    forall id :: id in ids ==> id in plans && Finished(plans[id].status)
  }

  ghost predicate IsLatest(plans: Plans, ids: set<int>, d: Date) {
    && (exists id :: id in ids && id in plans && CompletionDate(plans[id]) == d)
    && (forall id :: id in ids && id in plans ==> CompletionDate(plans[id]) <= d)
  }

  predicate FinishedAt(plans: Plans, student: int, lesson: int, id: int) {
    id in plans && plans[id].lessonId == lesson && plans[id].studentId == student && Finished(plans[id].status)
  }

  ghost predicate HasFinished(plans: Plans, student: int, lesson: int) {
    exists id :: FinishedAt(plans, student, lesson, id)
  }

  /** Every lesson of the unit has a finished plan of the student. */
  ghost predicate UnitFinished(cur: Curriculum, plans: Plans, student: int, unit: int) {
    && LessonSet(cur, unit) != {}
    && forall l :: l in LessonSet(cur, unit) ==> HasFinished(plans, student, l)
  }

  /** The completion date is set exactly when the unit is finished, to the last completion. */
  ghost predicate CompletionIs(cur: Curriculum, plans: Plans, student: int, unit: int, actual: Option<Date>) {
    && (actual.Some? <==> UnitFinished(cur, plans, student, unit))
    && (actual.Some? ==> IsLatest(plans, UnitPlans(cur, plans, student, unit), actual.value))
  }

  /** What a completion date says about the rows: the unit has lessons, each with a plan of the student that is
      completed or skipped, and the date is the latest day on which one of the unit's plans was completed, the day it
      was planned for standing in where it bears no stamp. */
  lemma CompletionMeans(cur: Curriculum, plans: Plans, student: int, unit: int, actual: Option<Date>)
    requires CompletionIs(cur, plans, student, unit, actual)
    ensures actual.Some?
            <==> && (exists l :: l in cur.lessons && cur.lessons[l].unitId == unit)
                 && (forall l :: l in cur.lessons && cur.lessons[l].unitId == unit ==> Done(plans, student, l))
    ensures actual.Some? ==>
              && (exists id :: PlannedFor(cur, plans, student, unit, id) && DatedOn(plans[id], actual.value))
              && (forall id, d :: PlannedFor(cur, plans, student, unit, id) && DatedOn(plans[id], d) ==>
                    d <= actual.value)
  {
    assert LessonSet(cur, unit) != {} <==> exists l :: l in cur.lessons && cur.lessons[l].unitId == unit by {
      if LessonSet(cur, unit) != {} {
        var l := MemberOf(LessonSet(cur, unit));
      }
      if l :| l in cur.lessons && cur.lessons[l].unitId == unit {
        assert l in LessonSet(cur, unit);
      }
    }
    forall l ensures HasFinished(plans, student, l) <==> Done(plans, student, l) {
      if id :| FinishedAt(plans, student, l, id) {
        assert Done(plans, student, l);
      }
      if id :| id in plans && plans[id].lessonId == l && plans[id].studentId == student
               && (plans[id].status == Completed || plans[id].status == Skipped)
      {
        assert FinishedAt(plans, student, l, id);
      }
    }
    forall l ensures l in LessonSet(cur, unit) <==> l in cur.lessons && cur.lessons[l].unitId == unit {
    }
    forall id ensures PlannedFor(cur, plans, student, unit, id) <==> id in UnitPlans(cur, plans, student, unit) {
    }
    if actual.Some? {
      var id :| id in UnitPlans(cur, plans, student, unit) && id in plans && CompletionDate(plans[id]) == actual.value;
      assert PlannedFor(cur, plans, student, unit, id) && DatedOn(plans[id], actual.value);
    }
  }

  /** The student has done with the lesson. */
  ghost predicate Done(plans: Plans, student: int, lesson: int) {
    exists id :: id in plans && plans[id].lessonId == lesson && plans[id].studentId == student
                 && (plans[id].status == Completed || plans[id].status == Skipped)
  }

  /** A plan of the student for a lesson of the unit. */
  ghost predicate PlannedFor(cur: Curriculum, plans: Plans, student: int, unit: int, id: int) {
    id in plans && plans[id].studentId == student
    && plans[id].lessonId in cur.lessons && cur.lessons[plans[id].lessonId].unitId == unit
  }

  predicate DatedOn(p: Plan, d: Date) {
    p.completedOn == Some(d) || (p.completedOn == None && p.date == d)
  }

  // ---------------------------------------------------------------- counting is enough

  lemma AtMostOnePlanALesson(cur: Curriculum, plans: Plans, student: int, unit: int)
    requires PlansOk(cur, plans)
    ensures |UnitPlans(cur, plans, student, unit)| <= |LessonSet(cur, unit)|
    ensures |UnitPlans(cur, plans, student, unit)| == |LessonSet(cur, unit)| ==>
              forall l :: l in LessonSet(cur, unit) ==>
                exists id :: id in UnitPlans(cur, plans, student, unit) && LessonOf(plans, id) == l
  {
    var ids, ls := UnitPlans(cur, plans, student, unit), LessonSet(cur, unit);
    forall x | x in ids ensures LessonOf(plans, x) in ls { }
    forall x, y | x in ids && y in ids && LessonOf(plans, x) == LessonOf(plans, y) ensures x == y {
      assert SameSlot(plans[x], plans[y]);
    }
    InjectionCount(ids, ls, x => LessonOf(plans, x));
  }

  /** With one plan per student and lesson, equal counts mean every lesson has its plan. */
  lemma CountTestIsCoverage(cur: Curriculum, plans: Plans, student: int, unit: int)
    requires PlansOk(cur, plans)
    ensures Enough(plans, UnitPlans(cur, plans, student, unit), |LessonSet(cur, unit)|)
            <==> UnitFinished(cur, plans, student, unit)
  {
    var ids, ls := UnitPlans(cur, plans, student, unit), LessonSet(cur, unit);
    AtMostOnePlanALesson(cur, plans, student, unit);
    if Enough(plans, ids, |ls|) {
      forall l | l in ls ensures HasFinished(plans, student, l) {
        var id :| id in ids && LessonOf(plans, id) == l;
        assert FinishedAt(plans, student, l, id);
      }
    }
    if UnitFinished(cur, plans, student, unit) {
      EveryLessonPlanned(cur, plans, student, unit);
    }
  }

  function LessonOf(plans: Plans, id: int): int {
    if id in plans then plans[id].lessonId else 0
  }

  lemma EveryLessonPlanned(cur: Curriculum, plans: Plans, student: int, unit: int)
    requires PlansOk(cur, plans) && UnitFinished(cur, plans, student, unit)
    ensures |UnitPlans(cur, plans, student, unit)| >= |LessonSet(cur, unit)|
    ensures forall id :: id in UnitPlans(cur, plans, student, unit) ==> Finished(plans[id].status)
  {
    var ids, ls := UnitPlans(cur, plans, student, unit), LessonSet(cur, unit);
    forall l | l in ls ensures exists id :: id in ids && LessonOf(plans, id) == l {
      assert HasFinished(plans, student, l);
      var id :| FinishedAt(plans, student, l, id);
      assert id in ids && LessonOf(plans, id) == l;
    }
    SurjectionCount(ids, ls, x => LessonOf(plans, x));
    forall id | id in ids ensures Finished(plans[id].status) {
      assert HasFinished(plans, student, plans[id].lessonId);
      var x :| FinishedAt(plans, student, plans[id].lessonId, x);
      assert SameSlot(plans[x], plans[id]);
    }
  }

  // ---------------------------------------------------------------- frames

  /** Only plans of that student's unit matter. */
  lemma CompletionFrame(cur: Curriculum, plans: Plans, plans': Plans, student: int, unit: int, actual: Option<Date>)
    requires forall id :: id in plans && CountsFor(cur, plans[id], student, unit) ==>
               id in plans' && plans'[id] == plans[id]
    requires forall id :: id in plans' && CountsFor(cur, plans'[id], student, unit) ==>
               id in plans && plans[id] == plans'[id]
    ensures CompletionIs(cur, plans, student, unit, actual) <==> CompletionIs(cur, plans', student, unit, actual)
  {
    forall id ensures id in UnitPlans(cur, plans, student, unit) <==> id in UnitPlans(cur, plans', student, unit) { }
    FinishedFrame(cur, plans, plans', student, unit);
    FinishedFrame(cur, plans', plans, student, unit);
  }

  lemma FinishedFrame(cur: Curriculum, plans: Plans, plans': Plans, student: int, unit: int)
    requires forall id :: id in plans && CountsFor(cur, plans[id], student, unit) ==>
               id in plans' && plans'[id] == plans[id]
    ensures UnitFinished(cur, plans, student, unit) ==> UnitFinished(cur, plans', student, unit)
  {
    if UnitFinished(cur, plans, student, unit) {
      forall l | l in LessonSet(cur, unit) ensures HasFinished(plans', student, l) {
        assert HasFinished(plans, student, l);
        var id :| FinishedAt(plans, student, l, id);
        assert CountsFor(cur, plans[id], student, unit);
        assert FinishedAt(plans', student, l, id);
      }
    }
  }

  // ---------------------------------------------------------------- grouping and the maximum, by loops

  /** Relationships still loaded from before their row changed: a plan's lesson, a target's unit. */
  datatype Loaded = Loaded(lessons: map<int, int>, units: map<int, int>)

  const NOTHING_LOADED := Loaded(map[], map[])

  /** The plan's lesson relationship. */
  function LessonShown(loaded: Loaded, id: int, p: Plan): int {
    if id in loaded.lessons then loaded.lessons[id] else p.lessonId
  }

  function UnitOf(cur: Curriculum, lesson: int): int {
    if lesson in cur.lessons then cur.lessons[lesson].unitId else 0
  }

  /** The query for a student's plans in the units goes by the column. */
  predicate Queried(cur: Curriculum, p: Plan, student: int, units: set<int>) {
    p.studentId == student && p.lessonId in cur.lessons && cur.lessons[p.lessonId].unitId in units
  }

  /** The grouping of what it returns goes by the relationship. */
  ghost function Group(cur: Curriculum, plans: Plans, loaded: Loaded, student: int, units: set<int>, u: int): set<int> {
    set id | id in plans && Queried(cur, plans[id], student, units)
             && UnitOf(cur, LessonShown(loaded, id, plans[id])) == u
  }

  /** Where the relationships are up to date, the groups are the units' plans. */
  lemma PlainGroup(cur: Curriculum, plans: Plans, loaded: Loaded, student: int, units: set<int>, u: int)
    requires u in units
    requires forall id :: id in plans && Queried(cur, plans[id], student, units) ==>
               UnitOf(cur, LessonShown(loaded, id, plans[id])) == UnitOf(cur, plans[id].lessonId)
    ensures Group(cur, plans, loaded, student, units, u) == UnitPlans(cur, plans, student, u)
  {
    forall id | id in plans
      ensures id in Group(cur, plans, loaded, student, units, u) <==> CountsFor(cur, plans[id], student, u)
    {
    }
  }

  function GroupAt(m: map<int, seq<int>>, u: int): seq<int> {
    if u in m then m[u] else []
  }

  ghost predicate Lists(ids: seq<int>, s: set<int>) {
    Distinct(ids) && Elements(ids) == s
  }

  ghost predicate IsGrouping(cur: Curriculum, plans: Plans, loaded: Loaded, student: int, units: set<int>,
                             m: map<int, seq<int>>)
  {
    forall u :: Lists(GroupAt(m, u), Group(cur, plans, loaded, student, units, u))
  }

  function Grouped(cur: Curriculum, loaded: Loaded, student: int, units: set<int>, m: map<int, seq<int>>, id: int,
                   p: Plan)
    : map<int, seq<int>>
  {
    if Queried(cur, p, student, units) then
      var u := UnitOf(cur, LessonShown(loaded, id, p));
      m[u := GroupAt(m, u) + [id]]
    else m
  }

  /** plans_by_unit, filled by one pass over the plan rows. */
  method GroupPlans(cur: Curriculum, plans: Plans, loaded: Loaded, student: int, units: set<int>)
    returns (m: map<int, seq<int>>)
    ensures IsGrouping(cur, plans, loaded, student, units, m)
  {
    m := map[];
    ghost var seen: Plans := map[];
    var todo := plans.Keys;
    NothingGrouped(cur, loaded, student, units);
    while todo != {}
      invariant todo <= plans.Keys && seen == Rest(plans, todo)
      invariant IsGrouping(cur, seen, loaded, student, units, m)
      decreases todo
    {
      var id := Pick(todo);
      GroupStep(cur, seen, loaded, student, units, m, id, plans[id]);
      m := Grouped(cur, loaded, student, units, m, id, plans[id]);
      RestStep(plans, todo, id);
      todo := todo - {id};
      seen := seen[id := plans[id]];
    }
    assert seen == plans;
  }

  ghost function Rest(plans: Plans, todo: set<int>): Plans {
    map id | id in plans && id !in todo :: plans[id]
  }

  lemma RestStep(plans: Plans, todo: set<int>, id: int)
    requires id in todo && id in plans
    ensures Rest(plans, todo)[id := plans[id]] == Rest(plans, todo - {id})
  {
  }

  lemma NothingGrouped(cur: Curriculum, loaded: Loaded, student: int, units: set<int>)
    ensures IsGrouping(cur, map[], loaded, student, units, map[])
  {
  }

  lemma GroupStep(cur: Curriculum, plans: Plans, loaded: Loaded, student: int, units: set<int>, m: map<int, seq<int>>,
                  id: int, p: Plan)
    requires IsGrouping(cur, plans, loaded, student, units, m) && id !in plans
    ensures IsGrouping(cur, plans[id := p], loaded, student, units, Grouped(cur, loaded, student, units, m, id, p))
  {
    var m' := Grouped(cur, loaded, student, units, m, id, p);
    forall u ensures Lists(GroupAt(m', u), Group(cur, plans[id := p], loaded, student, units, u)) {
      assert Lists(GroupAt(m, u), Group(cur, plans, loaded, student, units, u));
      GroupOneStep(cur, plans, loaded, student, units, u, GroupAt(m, u), id, p);
    }
  }

  lemma GroupOneStep(cur: Curriculum, plans: Plans, loaded: Loaded, student: int, units: set<int>, u: int,
                     ids: seq<int>, id: int, p: Plan)
    requires Lists(ids, Group(cur, plans, loaded, student, units, u)) && id !in plans
    ensures var joins := Queried(cur, p, student, units) && UnitOf(cur, LessonShown(loaded, id, p)) == u;
            Lists(if joins then ids + [id] else ids, Group(cur, plans[id := p], loaded, student, units, u))
  {
    var joins := Queried(cur, p, student, units) && UnitOf(cur, LessonShown(loaded, id, p)) == u;
    assert Group(cur, plans[id := p], loaded, student, units, u)
           == Group(cur, plans, loaded, student, units, u) + if joins then {id} else {};
    assert id !in Elements(ids);
    ListsMore(ids, id);
  }

  lemma ListsMore(ids: seq<int>, id: int)
    requires Distinct(ids) && id !in Elements(ids)
    ensures Lists(ids + [id], Elements(ids) + {id})
  {
    assert forall i :: 0 <= i < |ids| ==> ids[i] in Elements(ids);
  }

  /** What the refresh concludes from a group and the number of lessons it compares it with. */
  ghost predicate Answers(plans: Plans, ids: set<int>, total: int, actual: Option<Date>) {
    && (actual.Some? <==> Enough(plans, ids, total))
    && (actual.Some? ==> IsLatest(plans, ids, actual.value))
  }

  /** The body of the refresh loop for one target. */
  method CompletionOf(plans: Plans, ids: seq<int>, total: nat) returns (actual: Option<Date>)
    requires Distinct(ids) && Elements(ids) <= plans.Keys
    ensures Answers(plans, Elements(ids), total, actual)
  {
    DistinctCount(ids);
    if total == 0 || |ids| != total {
      return None;
    }
    var finished := AllFinished(plans, ids);
    if !finished {
      return None;
    }
    var latest := LatestOf(plans, ids);
    return Some(latest);
  }

  /** all(plan.status in finished statuses). */
  method AllFinished(plans: Plans, ids: seq<int>) returns (yes: bool)
    requires Elements(ids) <= plans.Keys
    ensures yes <==> AreFinished(plans, Elements(ids))
  {
    for i := 0 to |ids|
      invariant forall j :: 0 <= j < i ==> ids[j] in plans && Finished(plans[ids[j]].status)
    {
      var id := ids[i];
      assert id in Elements(ids);
      if !Finished(plans[id].status) {
        return false;
      }
    }
    return true;
  }

  /** max(completion_dates). */
  method LatestOf(plans: Plans, ids: seq<int>) returns (latest: Date)
    requires ids != [] && Elements(ids) <= plans.Keys
    ensures IsLatest(plans, Elements(ids), latest)
  {
    assert ids[0] in Elements(ids);
    latest := CompletionDate(plans[ids[0]]);
    ghost var at := ids[0];
    for i := 1 to |ids|
      invariant at in ids && at in plans && CompletionDate(plans[at]) == latest
      invariant forall j :: 0 <= j < i ==> ids[j] in plans && CompletionDate(plans[ids[j]]) <= latest
    {
      assert ids[i] in Elements(ids);
      if CompletionDate(plans[ids[i]]) > latest {
        latest := CompletionDate(plans[ids[i]]);
        at := ids[i];
      }
    }
    assert at in Elements(ids);
  }

  /** On the unit's own plans and lessons the conclusion is the right one. */
  lemma AnswersRight(cur: Curriculum, plans: Plans, student: int, unit: int, actual: Option<Date>)
    requires CurriculumOk(cur) && PlansOk(cur, plans) && unit in cur.units
    requires Answers(plans, UnitPlans(cur, plans, student, unit), |cur.units[unit].lessons|, actual)
    ensures CompletionIs(cur, plans, student, unit, actual)
  {
    EnoughIsFinished(cur, plans, student, unit);
  }

  lemma EnoughIsFinished(cur: Curriculum, plans: Plans, student: int, unit: int)
    requires CurriculumOk(cur) && PlansOk(cur, plans) && unit in cur.units
    ensures Enough(plans, UnitPlans(cur, plans, student, unit), |cur.units[unit].lessons|)
            <==> UnitFinished(cur, plans, student, unit)
  {
    LessonTotal(cur, unit);
    CountTestIsCoverage(cur, plans, student, unit);
  }
}
