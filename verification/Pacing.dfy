/** The lesson-plan and pacing-target routes over the two tables
    (backend/routers/lesson_plans.py, lines 267-318, 415-538, 705-744 and 849-946). */
module Pacing {
  import opened Wrappers
  import opened Agenda
  import opened Counting
  import opened PacingFacts

  datatype Error = NotFound | BadRequest | Conflict

  datatype PlanPayload = PlanPayload(
    lessonId: int, studentId: int, yearId: int, date: Date, minutes: Option<int>,
    status: PlanStatus, notes: Option<string>)

  datatype TargetPayload = TargetPayload(unitId: int, studentId: int, start: Date, end: Date)

  /** The rows other tables contribute to validation. */
  datatype Directory = Directory(cur: Curriculum, students: set<int>, years: set<int>)

  function PlanOf(p: PlanPayload, today: Date): Plan {
    WithStatus(Plan(p.lessonId, p.studentId, p.yearId, p.date, p.minutes, Planned, None, p.notes), p.status, today)
  }

  /** _validate_lesson_plan_payload. */
  function PlanPayloadError(dir: Directory, p: PlanPayload): Option<Error> {
    if p.lessonId !in dir.cur.lessons then Some(NotFound)
    else if p.studentId !in dir.students || p.yearId !in dir.years then Some(NotFound)
    else if !YearMatches(dir.cur, p.lessonId, p.yearId) then Some(BadRequest)
    else None
  }

  predicate YearMatches(cur: Curriculum, lesson: int, year: int) {
    lesson in cur.lessons && cur.lessons[lesson].unitId in cur.units
    && cur.units[cur.lessons[lesson].unitId].packageId in cur.packages
    && cur.packages[cur.units[cur.lessons[lesson].unitId].packageId].yearId == year
  }

  predicate PlanTaken(plans: Plans, student: int, lesson: int, current: Option<int>) {
    exists id :: id in plans && plans[id].studentId == student && plans[id].lessonId == lesson && Some(id) != current
  }

  predicate TargetTaken(targets: Targets, student: int, unit: int, current: Option<int>) {
    exists id :: id in targets && targets[id].studentId == student && targets[id].unitId == unit && Some(id) != current
  }

  /** One bulk request's effect on one plan. */
  function Bulked(p: Plan, s: PlanStatus, date: Option<Date>, notes: Option<string>, today: Date): Plan {
    var q := WithStatus(p, s, today);
    var q' := if s == Rescheduled && date.Some? then q.(date := date.value) else q;
    if notes.Some? then q'.(notes := notes) else q'
  }

  function BulkedPlans(plans: Plans, ids: set<int>, s: PlanStatus, date: Option<Date>, notes: Option<string>,
                       today: Date): Plans
  {
    map id | id in plans :: if id in ids then Bulked(plans[id], s, date, notes, today) else plans[id]
  }

  ghost predicate TargetFresh(cur: Curriculum, plans: Plans, t: Target) {
    CompletionIs(cur, plans, t.studentId, t.unitId, t.actual)
  }

  /** The targets whose derived field does not have its meaning. */
  ghost function WrongIds(cur: Curriculum, plans: Plans, targets: Targets): set<int> {
    set id | id in targets && !TargetFresh(cur, plans, targets[id])
  }

  // ---------------------------------------------------------------- what is written and what is refused

  /** The plan that creating or changing one stores: the payload's columns, and the day's stamp exactly when it is
      completed; it counts as done that day, and otherwise on the day it is planned for. */
  lemma StoredPlan(p: PlanPayload, today: Date)
    ensures var q := PlanOf(p, today);
            && q.lessonId == p.lessonId && q.studentId == p.studentId && q.yearId == p.yearId && q.date == p.date
            && q.minutes == p.minutes && q.notes == p.notes && q.status == p.status
            && q.completedOn == (if p.status == Completed then Some(today) else None)
            && forall d :: DatedOn(q, d) <==> d == if p.status == Completed then today else p.date
  {
  }

  /** A plan after a bulk change: a new status and stamp, a new date only when rescheduled to one, new notes only when
      there are some, and nothing else. */
  lemma BulkedPlan(p: Plan, s: PlanStatus, date: Option<Date>, notes: Option<string>, today: Date)
    ensures var q := Bulked(p, s, date, notes, today);
            && q.lessonId == p.lessonId && q.studentId == p.studentId && q.yearId == p.yearId && q.minutes == p.minutes
            && q.status == s && q.completedOn == (if s == Completed then Some(today) else None)
            && (s == Rescheduled && date.Some? ==> q.date == date.value)
            && (s != Rescheduled || date.None? ==> q.date == p.date)
            && q.notes == (if notes.Some? then notes else p.notes)
  {
  }

  /** The date a target gets when plans of its unit are completed today: the latest of today and the days of the other
      plans. */
  lemma CompletedToday(cur: Curriculum, plans: Plans, t: Target, done: set<int>, today: Date)
    requires TargetFresh(cur, plans, t) && t.actual.Some? && done != {}
    requires forall id :: id in done ==> PlannedFor(cur, plans, t.studentId, t.unitId, id)
                                         && plans[id].completedOn == Some(today)
    ensures today <= t.actual.value
    ensures t.actual.value == today
            || exists id :: id !in done && PlannedFor(cur, plans, t.studentId, t.unitId, id)
                            && DatedOn(plans[id], t.actual.value)
    ensures forall id, d ::
              id !in done && PlannedFor(cur, plans, t.studentId, t.unitId, id) && DatedOn(plans[id], d) ==>
                d <= t.actual.value
  {
    CompletionMeans(cur, plans, t.studentId, t.unitId, t.actual);
    var id := MemberOf(done);
    assert DatedOn(plans[id], today);
    var last :| PlannedFor(cur, plans, t.studentId, t.unitId, last) && DatedOn(plans[last], t.actual.value);
  }

  /** Completing the last open plan of a unit dates its target: with this plan stored as completed today and every other
      lesson of the unit done, a right target has the latest of today and the other days. */
  lemma FinishedByWrite(cur: Curriculum, plans: Plans, t: Target, id: int, p: PlanPayload, today: Date)
    requires id in plans && plans[id] == PlanOf(p, today) && p.status == Completed && TargetFresh(cur, plans, t)
    requires PlannedFor(cur, plans, t.studentId, t.unitId, id)
    requires forall l :: l in cur.lessons && cur.lessons[l].unitId == t.unitId && l != p.lessonId ==>
               Done(plans, t.studentId, l)
    ensures t.actual.Some? && today <= t.actual.value
    ensures t.actual.value == today
            || exists k :: k != id && PlannedFor(cur, plans, t.studentId, t.unitId, k)
                              && DatedOn(plans[k], t.actual.value)
  {
    StoredPlan(p, today);
    CompletionMeans(cur, plans, t.studentId, t.unitId, t.actual);
    assert Done(plans, t.studentId, p.lessonId);
    CompletedToday(cur, plans, t, {id}, today);
  }

  /** A plan is refused as taken exactly when storing it would give the student two plans for the lesson. */
  lemma PlanTakenIff(cur: Curriculum, plans: Plans, id: int, p: Plan)
    requires PlansOk(cur, plans) && p.lessonId in cur.lessons
    ensures PlanTaken(plans, p.studentId, p.lessonId, Some(id)) <==> !PlansOk(cur, plans[id := p])
    ensures id !in plans ==> (PlanTaken(plans, p.studentId, p.lessonId, None) <==> !PlansOk(cur, plans[id := p]))
  {
    var after := plans[id := p];
    if k :| k in plans && plans[k].studentId == p.studentId && plans[k].lessonId == p.lessonId && k != id {
      assert SameSlot(after[k], after[id]);
    } else {
      forall i, j | i in after && j in after && SameSlot(after[i], after[j]) ensures i == j {
        assert i != id && j != id ==> SameSlot(plans[i], plans[j]);
      }
    }
  }

  /** A target is refused as taken exactly when storing it would give the student two targets for the unit. */
  lemma TargetTakenIff(cur: Curriculum, targets: Targets, id: int, t: Target)
    requires TargetsOk(cur, targets) && t.unitId in cur.units
    ensures TargetTaken(targets, t.studentId, t.unitId, Some(id)) <==> !TargetsOk(cur, targets[id := t])
    ensures id !in targets ==>
                (TargetTaken(targets, t.studentId, t.unitId, None) <==> !TargetsOk(cur, targets[id := t]))
  {
    var after := targets[id := t];
    if k :| k in targets && targets[k].studentId == t.studentId && targets[k].unitId == t.unitId && k != id {
      assert SameTarget(after[k], after[id]);
    } else {
      forall i, j | i in after && j in after && SameTarget(after[i], after[j]) ensures i == j {
        assert i != id && j != id ==> SameTarget(targets[i], targets[j]);
      }
    }
  }

  /** A plan's references are accepted exactly when lesson, student and year are known and the lesson's package is of
      that year; only the last of these is a bad request. */
  lemma PayloadErrorIff(dir: Directory, p: PlanPayload)
    requires CurriculumOk(dir.cur)
    ensures var known := p.lessonId in dir.cur.lessons && p.studentId in dir.students && p.yearId in dir.years;
            && (PlanPayloadError(dir, p) == Some(NotFound) <==> !known)
            && (PlanPayloadError(dir, p) == Some(BadRequest) <==> known && !TaughtIn(dir.cur, p.lessonId, p.yearId))
            && PlanPayloadError(dir, p) != Some(Conflict)
  {
    if p.lessonId in dir.cur.lessons {
      TaughtInIff(dir.cur, p.lessonId, p.yearId);
    }
  }

  /** The lesson stands in some unit of some package of the year. */
  ghost predicate TaughtIn(cur: Curriculum, lesson: int, year: int) {
    exists package, unit, l :: package in cur.packages && unit in cur.packages[package].units && l in unit.lessons
                               && l.id == lesson && cur.packages[package].yearId == year
  }

  lemma TaughtInIff(cur: Curriculum, lesson: int, year: int)
    requires CurriculumOk(cur) && lesson in cur.lessons
    ensures YearMatches(cur, lesson, year) <==> TaughtIn(cur, lesson, year)
  {
    var unit := cur.units[cur.lessons[lesson].unitId];
    assert UnitOk(cur, unit) && Listed(cur, lesson);
    if YearMatches(cur, lesson, year) {
      assert unit.packageId in cur.packages && unit in cur.packages[unit.packageId].units;
      assert cur.lessons[lesson] in unit.lessons && cur.lessons[lesson].id == lesson;
    }
    if package, u, l :| package in cur.packages && u in cur.packages[package].units && l in u.lessons
                        && l.id == lesson && cur.packages[package].yearId == year
    {
      assert PackageOk(cur, cur.packages[package]) && UnitOk(cur, cur.units[u.id]);
    }
  }

  // ---------------------------------------------------------------- students' units

  /** Pairs of a student and a unit. */
  type Pairs = set<(int, int)>

  function UnitsOf(student: int, units: set<int>): Pairs {
    set u | u in units :: (student, u)
  }

  function PairOf(cur: Curriculum, p: Plan): (int, int) {
    (p.studentId, UnitOf(cur, p.lessonId))
  }

  predicate Selected(t: Target, pairs: Pairs) {
    (t.studentId, t.unitId) in pairs
  }

  function Inside(targets: Targets, pairs: Pairs): set<int> {
    set id | id in targets && Selected(targets[id], pairs)
  }

  function Outside(ids: set<int>, targets: Targets, pairs: Pairs): set<int> {
    set id | id in ids && id in targets && !Selected(targets[id], pairs)
  }

  /** Targets of other students' units stay as they are. */
  ghost predicate OthersKept(before: Targets, after: Targets, pairs: Pairs) {
    && (forall id :: id in before && !Selected(before[id], pairs) ==> id in after && after[id] == before[id])
    && (forall id :: id in after && !Selected(after[id], pairs) ==> id in before && before[id] == after[id])
  }

  /** Plans of other students' units stay as they are. */
  ghost predicate PlansKept(cur: Curriculum, before: Plans, after: Plans, pairs: Pairs) {
    && (forall id :: id in before && PairOf(cur, before[id]) !in pairs ==> id in after && after[id] == before[id])
    && (forall id :: id in after && PairOf(cur, after[id]) !in pairs ==> id in before && before[id] == after[id])
  }

  /** Everything but the derived field. */
  predicate SameRow(t: Target, u: Target) {
    t.(actual := None) == u.(actual := None)
  }

  ghost predicate SameRows(ts: Targets, us: Targets) {
    ts.Keys == us.Keys && forall id :: id in ts ==> SameRow(ts[id], us[id])
  }

  /** Outside the touched units nothing turns right or wrong, and inside exactly the harmed ones are wrong. */
  lemma WrongAfter(cur: Curriculum, plans: Plans, plans': Plans, before: Targets, after: Targets, touched: Pairs,
                   harmed: Pairs)
    requires PlansKept(cur, plans, plans', touched) && OthersKept(before, after, touched) && harmed <= touched
    requires forall id :: id in after && Selected(after[id], touched) ==>
               (TargetFresh(cur, plans', after[id]) <==> !Selected(after[id], harmed))
    ensures WrongIds(cur, plans', after)
            == Outside(WrongIds(cur, plans, before), before, touched) + Inside(after, harmed)
  {
    forall id | id in after && !Selected(after[id], touched)
      ensures TargetFresh(cur, plans', after[id]) <==> TargetFresh(cur, plans, after[id])
    {
      CompletionFrame(cur, plans, plans', after[id].studentId, after[id].unitId, after[id].actual);
    }
    forall id
      ensures id in WrongIds(cur, plans', after)
              <==> id in Outside(WrongIds(cur, plans, before), before, touched) + Inside(after, harmed)
    {
    }
  }

  // ---------------------------------------------------------------- one refresh

  /** len(pacing_target.curriculum_unit.lessons), through the relationship. */
  function Total(cur: Curriculum, loaded: Loaded, id: int, t: Target): nat {
    var unit := if id in loaded.units then loaded.units[id] else t.unitId;
    if unit in cur.units then |cur.units[unit].lessons| else 0
  }

  ghost predicate IsAnswer(cur: Curriculum, plans: Plans, loaded: Loaded, student: int, units: set<int>, id: int,
                           t: Target)
  {
    Answers(plans, Group(cur, plans, loaded, student, units, t.unitId), Total(cur, loaded, id, t), t.actual)
  }

  /** The student's targets of those units hold the refresh's answer, apart from those to do. */
  ghost predicate RefreshedBut(cur: Curriculum, plans: Plans, loaded: Loaded, before: Targets, after: Targets,
                               student: int, units: set<int>, todo: set<int>)
  {
    && SameRows(after, before)
    && forall id :: id in after ==>
         if id !in todo && Selected(after[id], UnitsOf(student, units))
         then IsAnswer(cur, plans, loaded, student, units, id, after[id]) else after[id] == before[id]
  }

  ghost predicate IsRefresh(cur: Curriculum, plans: Plans, loaded: Loaded, before: Targets, after: Targets,
                            student: int, units: set<int>)
  {
    RefreshedBut(cur, plans, loaded, before, after, student, units, {})
  }

  /** The targets of these units are right and the others as before. */
  ghost predicate Settled(cur: Curriculum, plans: Plans, before: Targets, after: Targets, pairs: Pairs) {
    && SameRows(after, before)
    && forall id :: id in after ==>
         if Selected(after[id], pairs) then TargetFresh(cur, plans, after[id]) else after[id] == before[id]
  }

  /** The relationships of the student's plans and targets say what the columns say, as far as units go. */
  ghost predicate UpToDate(cur: Curriculum, plans: Plans, loaded: Loaded, student: int, units: set<int>) {
    && loaded.units == map[]
    && forall id :: id in plans && Queried(cur, plans[id], student, units) ==>
         UnitOf(cur, LessonShown(loaded, id, plans[id])) == UnitOf(cur, plans[id].lessonId)
  }

  /** Then a refresh makes right what it touches. */
  lemma RefreshSettles(cur: Curriculum, plans: Plans, loaded: Loaded, before: Targets, after: Targets, student: int,
                       units: set<int>)
    requires CurriculumOk(cur) && PlansOk(cur, plans) && TargetsOk(cur, after)
    requires IsRefresh(cur, plans, loaded, before, after, student, units)
    requires UpToDate(cur, plans, loaded, student, units)
    ensures Settled(cur, plans, before, after, UnitsOf(student, units))
  {
    forall id | id in after && Selected(after[id], UnitsOf(student, units)) ensures TargetFresh(cur, plans, after[id]) {
      var t := after[id];
      assert IsAnswer(cur, plans, loaded, student, units, id, t);
      PlainGroup(cur, plans, loaded, student, units, t.unitId);
      AnswersRight(cur, plans, student, t.unitId, t.actual);
    }
  }

  lemma SettledMore(cur: Curriculum, plans: Plans, before: Targets, mid: Targets, after: Targets, a: Pairs, b: Pairs)
    requires Settled(cur, plans, before, mid, a) && Settled(cur, plans, mid, after, b)
    ensures Settled(cur, plans, before, after, a + b)
  {
  }

  /** Changed plans, and then their units' targets settled. */
  lemma SettledWrong(cur: Curriculum, plans: Plans, plans': Plans, before: Targets, after: Targets, touched: Pairs)
    requires PlansKept(cur, plans, plans', touched) && Settled(cur, plans', before, after, touched)
    ensures WrongIds(cur, plans', after) == Outside(WrongIds(cur, plans, before), before, touched)
  {
    SettledKept(cur, plans', before, after, touched);
    WrongAfter(cur, plans, plans', before, after, touched, {});
    NoneInside(after);
  }

  lemma SettledKept(cur: Curriculum, plans: Plans, before: Targets, after: Targets, pairs: Pairs)
    requires Settled(cur, plans, before, after, pairs)
    ensures OthersKept(before, after, pairs)
  {
    forall id | id in after ensures Selected(after[id], pairs) <==> Selected(before[id], pairs) {
      assert SameRow(after[id], before[id]);
    }
  }

  lemma NoneInside(targets: Targets)
    ensures Inside(targets, {}) == {}
  {
    forall id ensures id !in Inside(targets, {}) {
    }
  }

  /** Where at most one of the test made and the right test passes, the answer is right if neither does. */
  lemma AnswerRightIff(cur: Curriculum, plans: Plans, ids: set<int>, total: int, t: Target)
    requires CurriculumOk(cur) && PlansOk(cur, plans) && t.unitId in cur.units && Answers(plans, ids, total, t.actual)
    requires !(Enough(plans, ids, total) && UnitFinished(cur, plans, t.studentId, t.unitId))
    ensures TargetFresh(cur, plans, t)
            <==> !Enough(plans, ids, total) && !UnitFinished(cur, plans, t.studentId, t.unitId)
  {
  }

  // ---------------------------------------------------------------- a plan moved between units

  /** The units whose targets go wrong when a plan moves: the refresh still counts it for the unit it left.
      The unit it joins can then never look finished, and the unit it left is one plan too full. */
  ghost function Harmed(cur: Curriculum, plans: Plans, id: int, from: int): Pairs
    requires id in plans
  {
    var student, to := plans[id].studentId, UnitOf(cur, plans[id].lessonId);
    if from == to then {}
    else (if UnitFinished(cur, plans, student, to) then {(student, to)} else {})
         + if UnitFinished(cur, plans, student, from) || FinishedWith(cur, plans, student, from, id)
           then {(student, from)} else {}
  }

  /** With this plan the student's finished plans would be as many as the unit's lessons. */
  ghost predicate FinishedWith(cur: Curriculum, plans: Plans, student: int, unit: int, id: int) {
    Enough(plans, UnitPlans(cur, plans, student, unit) + {id}, |LessonSet(cur, unit)|)
  }

  function Moved(id: int, lesson: int): Loaded {
    Loaded(map[id := lesson], map[])
  }

  lemma MovedGroups(cur: Curriculum, plans: Plans, id: int, lesson: int, units: set<int>)
    requires PlansOk(cur, plans) && id in plans && lesson in cur.lessons
    requires units == {UnitOf(cur, lesson), UnitOf(cur, plans[id].lessonId)}
    requires UnitOf(cur, lesson) != UnitOf(cur, plans[id].lessonId)
    ensures var student, from, to := plans[id].studentId, UnitOf(cur, lesson), UnitOf(cur, plans[id].lessonId);
            && Group(cur, plans, Moved(id, lesson), student, units, from) == UnitPlans(cur, plans, student, from) + {id}
            && Group(cur, plans, Moved(id, lesson), student, units, to) == UnitPlans(cur, plans, student, to) - {id}
            && id in UnitPlans(cur, plans, student, to) && id !in UnitPlans(cur, plans, student, from)
  {
    var student, from, to := plans[id].studentId, UnitOf(cur, lesson), UnitOf(cur, plans[id].lessonId);
    forall k, u | k in plans && u in units
      ensures k in Group(cur, plans, Moved(id, lesson), student, units, u)
              <==> if k == id then u == from else k in UnitPlans(cur, plans, student, u)
    {
    }
  }

  lemma MovedHarmIff(cur: Curriculum, plans: Plans, id: int, lesson: int, t: Target, k: int)
    requires CurriculumOk(cur) && PlansOk(cur, plans) && id in plans && lesson in cur.lessons
    requires UnitOf(cur, lesson) != UnitOf(cur, plans[id].lessonId)
    requires t.studentId == plans[id].studentId && t.unitId in {UnitOf(cur, lesson), UnitOf(cur, plans[id].lessonId)}
    requires IsAnswer(cur, plans, Moved(id, lesson), t.studentId,
                      {UnitOf(cur, lesson), UnitOf(cur, plans[id].lessonId)}, k, t)
    ensures TargetFresh(cur, plans, t) <==> !Selected(t, Harmed(cur, plans, id, UnitOf(cur, lesson)))
  {
    var units := {UnitOf(cur, lesson), UnitOf(cur, plans[id].lessonId)};
    MovedGroups(cur, plans, id, lesson, units);
    LessonTotal(cur, t.unitId);
    if t.unitId == UnitOf(cur, lesson) {
      LeftRightIff(cur, plans, id, t);
    } else {
      JoinedRightIff(cur, plans, id, t);
    }
  }

  /** The unit it left, judged with one plan too many. */
  lemma LeftRightIff(cur: Curriculum, plans: Plans, id: int, t: Target)
    requires CurriculumOk(cur) && PlansOk(cur, plans) && t.unitId in cur.units
    requires id !in UnitPlans(cur, plans, t.studentId, t.unitId)
    requires Answers(plans, UnitPlans(cur, plans, t.studentId, t.unitId) + {id}, |LessonSet(cur, t.unitId)|, t.actual)
    ensures TargetFresh(cur, plans, t)
            <==> !UnitFinished(cur, plans, t.studentId, t.unitId)
                 && !FinishedWith(cur, plans, t.studentId, t.unitId, id)
  {
    var own := UnitPlans(cur, plans, t.studentId, t.unitId);
    CountTestIsCoverage(cur, plans, t.studentId, t.unitId);
    assert |own + {id}| == |own| + 1;
    AnswerRightIff(cur, plans, own + {id}, |LessonSet(cur, t.unitId)|, t);
  }

  /** The unit it joined, judged without it. */
  lemma JoinedRightIff(cur: Curriculum, plans: Plans, id: int, t: Target)
    requires CurriculumOk(cur) && PlansOk(cur, plans) && t.unitId in cur.units
    requires id in UnitPlans(cur, plans, t.studentId, t.unitId)
    requires Answers(plans, UnitPlans(cur, plans, t.studentId, t.unitId) - {id}, |LessonSet(cur, t.unitId)|, t.actual)
    ensures TargetFresh(cur, plans, t) <==> !UnitFinished(cur, plans, t.studentId, t.unitId)
  {
    var own := UnitPlans(cur, plans, t.studentId, t.unitId);
    AtMostOnePlanALesson(cur, plans, t.studentId, t.unitId);
    assert |own - {id}| == |own| - 1;
    AnswerRightIff(cur, plans, own - {id}, |LessonSet(cur, t.unitId)|, t);
  }

  lemma MovedUpToDate(cur: Curriculum, plans: Plans, id: int, lesson: int, student: int, units: set<int>)
    requires id in plans && (student != plans[id].studentId || UnitOf(cur, lesson) == UnitOf(cur, plans[id].lessonId))
    ensures UpToDate(cur, plans, Moved(id, lesson), student, units)
  {
  }

  /** The student and unit pairs recorded for a bulk change. */
  function PairsOf(impacted: map<int, set<int>>): Pairs {
    set student, unit | student in impacted && unit in impacted[student] :: (student, unit)
  }

  function WithImpact(impacted: map<int, set<int>>, pair: (int, int)): map<int, set<int>> {
    impacted[pair.0 := (if pair.0 in impacted then impacted[pair.0] else {}) + {pair.1}]
  }

  ghost function Touched(cur: Curriculum, plans: Plans, ids: set<int>): Pairs {
    set id | id in ids && id in plans :: PairOf(cur, plans[id])
  }

  lemma ImpactStep(impacted: map<int, set<int>>, pair: (int, int))
    ensures PairsOf(WithImpact(impacted, pair)) == PairsOf(impacted) + {pair}
  {
    var more := WithImpact(impacted, pair);
    forall p ensures p in PairsOf(more) <==> p in PairsOf(impacted) || p == pair {
      InPairs(more, p);
      InPairs(impacted, p);
    }
  }

  lemma InPairs(impacted: map<int, set<int>>, p: (int, int))
    ensures p in PairsOf(impacted) <==> p.0 in impacted && p.1 in impacted[p.0]
  {
    if p in PairsOf(impacted) {
      var student, unit :| student in impacted && unit in impacted[student] && p == (student, unit);
    }
    if p.0 in impacted && p.1 in impacted[p.0] {
      var student, unit := p.0, p.1;
      assert (student, unit) in PairsOf(impacted);
    }
  }

  lemma BulkStep(cur: Curriculum, plans: Plans, done: set<int>, id: int, s: PlanStatus, date: Option<Date>,
                 notes: Option<string>, today: Date)
    requires id in plans && id !in done
    ensures BulkedPlans(plans, done, s, date, notes, today)[id] == plans[id]
    ensures BulkedPlans(plans, done, s, date, notes, today)[id := Bulked(plans[id], s, date, notes, today)]
            == BulkedPlans(plans, done + {id}, s, date, notes, today)
    ensures Touched(cur, plans, done + {id}) == Touched(cur, plans, done) + {PairOf(cur, plans[id])}
  {
    assert PairOf(cur, plans[id]) in Touched(cur, plans, done + {id});
  }

  lemma BulkedKept(cur: Curriculum, plans: Plans, ids: set<int>, s: PlanStatus, date: Option<Date>,
                   notes: Option<string>, today: Date)
    ensures PlansKept(cur, plans, BulkedPlans(plans, ids, s, date, notes, today), Touched(cur, plans, ids))
  {
    var after := BulkedPlans(plans, ids, s, date, notes, today);
    forall id | id in plans && after[id] != plans[id]
      ensures PairOf(cur, plans[id]) in Touched(cur, plans, ids) && PairOf(cur, after[id]) == PairOf(cur, plans[id])
    {
      assert id in ids;
    }
  }

  lemma BulkedOk(cur: Curriculum, plans: Plans, ids: set<int>, s: PlanStatus, date: Option<Date>, notes: Option<string>,
                 today: Date)
    requires PlansOk(cur, plans)
    ensures PlansOk(cur, BulkedPlans(plans, ids, s, date, notes, today))
  {
    var after := BulkedPlans(plans, ids, s, date, notes, today);
    forall i, j | i in after && j in after && SameSlot(after[i], after[j]) ensures i == j {
      assert SameSlot(plans[i], plans[j]);
    }
  }

  // ---------------------------------------------------------------- the routes

  class PacingTables {
    const dir: Directory
    var plans: Plans
    var targets: Targets
    var nextId: int

    ghost predicate Valid()
      reads this
    {
      && CurriculumOk(dir.cur) && PlansOk(dir.cur, plans) && TargetsOk(dir.cur, targets)
      && (forall id :: id in plans ==> id < nextId) && (forall id :: id in targets ==> id < nextId)
    }

    /** The targets whose completion date is wrong. */
    ghost function Wrong(): set<int>
      reads this
    {
      WrongIds(dir.cur, plans, targets)
    }

    constructor (dir: Directory)
      requires CurriculumOk(dir.cur)
      ensures Valid() && this.dir == dir && plans == map[] && targets == map[] && Wrong() == {}
    {
      this.dir := dir;
      plans, targets, nextId := map[], map[], 1;
    }

    /** _refresh_pacing_targets. */
    method RefreshPacingTargets(student: int, units: set<int>, loaded: Loaded)
      requires Valid()
      modifies this`targets
      ensures Valid() && IsRefresh(dir.cur, plans, loaded, old(targets), targets, student, units)
      ensures loaded == NOTHING_LOADED ==> Settled(dir.cur, plans, old(targets), targets, UnitsOf(student, units))
    {
      var byUnit := GroupPlans(dir.cur, plans, loaded, student, units);
      ghost var before := targets;
      RefreshSelected(student, units, loaded, byUnit);
      if loaded == NOTHING_LOADED {
        RefreshSettles(dir.cur, plans, loaded, before, targets, student, units);
      }
    }

    /** The loop over the student's targets of those units. */
    method RefreshSelected(student: int, units: set<int>, loaded: Loaded, byUnit: map<int, seq<int>>)
      requires Valid() && IsGrouping(dir.cur, plans, loaded, student, units, byUnit)
      modifies this`targets
      ensures Valid() && IsRefresh(dir.cur, plans, loaded, old(targets), targets, student, units)
    {
      ghost var before := targets;
      var todo := targets.Keys;
      while todo != {}
        invariant todo <= targets.Keys && Valid()
        invariant RefreshedBut(dir.cur, plans, loaded, before, targets, student, units, todo)
        decreases todo
      {
        var id := Pick(todo);
        if targets[id].studentId == student && targets[id].unitId in units {
          var t := Refreshed(student, units, loaded, byUnit, id);
          RefreshStep(dir.cur, plans, loaded, before, targets, student, units, todo, id, t);
          RewrittenOk(dir.cur, targets, id, t);
          targets := targets[id := t];
        } else {
          NoRefreshStep(dir.cur, plans, loaded, before, targets, student, units, todo, id);
        }
        todo := todo - {id};
      }
    }

    /** One target, from the grouped plans. */
    method Refreshed(student: int, units: set<int>, loaded: Loaded, byUnit: map<int, seq<int>>, id: int)
      returns (t: Target)
      requires id in targets && IsGrouping(dir.cur, plans, loaded, student, units, byUnit)
      ensures SameRow(targets[id], t) && IsAnswer(dir.cur, plans, loaded, student, units, id, t)
    {
      var ids := GroupAt(byUnit, targets[id].unitId);
      assert Lists(ids, Group(dir.cur, plans, loaded, student, units, targets[id].unitId));
      var actual := CompletionOf(plans, ids, Total(dir.cur, loaded, id, targets[id]));
      t := targets[id].(actual := actual);
    }

    method CreatePlan(p: PlanPayload, today: Date) returns (error: Option<Error>)
      requires Valid()
      modifies this
      ensures Valid() && SameRows(targets, old(targets))
      ensures error == match PlanPayloadError(dir, p)
                       case Some(e) => Some(e)
                       case None =>
                         if PlanTaken(old(plans), p.studentId, p.lessonId, None) then Some(Conflict) else None
      ensures plans == if error.Some? then old(plans) else old(plans)[old(nextId) := PlanOf(p, today)]
      ensures Wrong() == if error.Some? then old(Wrong())
                         else Outside(old(Wrong()), old(targets), {PairOf(dir.cur, PlanOf(p, today))})
    {
      error := PlanPayloadError(dir, p);
      if error.Some? {
        return;
      }
      if PlanTaken(plans, p.studentId, p.lessonId, None) {
        return Some(Conflict);
      }
      var unit := UnitOf(dir.cur, p.lessonId);
      ghost var plans0, targets0 := plans, targets;
      AddedOk(dir.cur, plans, nextId, PlanOf(p, today));
      plans := plans[nextId := PlanOf(p, today)];
      nextId := nextId + 1;
      RefreshPacingTargets(p.studentId, {unit}, NOTHING_LOADED);
      assert UnitsOf(p.studentId, {unit}) == {PairOf(dir.cur, PlanOf(p, today))};
      SettledWrong(dir.cur, plans0, plans, targets0, targets, {PairOf(dir.cur, PlanOf(p, today))});
    }

    method UpdatePlan(id: int, p: PlanPayload, today: Date) returns (error: Option<Error>)
      requires Valid()
      modifies this
      ensures Valid() && SameRows(targets, old(targets))
      ensures error == if id !in old(plans) then Some(NotFound)
                       else match PlanPayloadError(dir, p)
                            case Some(e) => Some(e)
                            case None =>
                              if PlanTaken(old(plans), p.studentId, p.lessonId, Some(id)) then Some(Conflict) else None
      ensures plans == if error.Some? then old(plans) else old(plans)[id := PlanOf(p, today)]
      ensures error.Some? ==> Wrong() == old(Wrong())
      ensures error.None? ==> MovedWrong(dir.cur, old(plans), plans, old(targets), targets, id)
    {
      if id !in plans {
        return Some(NotFound);
      }
      error := PlanPayloadError(dir, p);
      if error.Some? {
        return;
      }
      if PlanTaken(plans, p.studentId, p.lessonId, Some(id)) {
        return Some(Conflict);
      }
      MovePlan(id, PlanOf(p, today));
    }

    /** The plan is written, and the units it left and joined are refreshed for both students,
        with the lesson relationship still the old one. */
    method MovePlan(id: int, plan: Plan)
      requires Valid() && id in plans && PlansOk(dir.cur, plans[id := plan])
      modifies this`plans, this`targets
      ensures Valid() && SameRows(targets, old(targets)) && plans == old(plans)[id := plan]
      ensures MovedWrong(dir.cur, old(plans), plans, old(targets), targets, id)
    {
      var before := plans[id];
      var units := {UnitOf(dir.cur, before.lessonId), UnitOf(dir.cur, plan.lessonId)};
      var loaded := Moved(id, before.lessonId);
      ghost var plans0, targets0 := plans, targets;
      plans := plans[id := plan];
      RefreshPacingTargets(before.studentId, units, loaded);
      ghost var targets1 := targets;
      if plan.studentId != before.studentId {
        RefreshPacingTargets(plan.studentId, units, loaded);
      }
      MovedIs(dir.cur, plans0, plans, targets0, targets1, targets, id);
    }

    method DeletePlan(id: int) returns (error: Option<Error>)
      requires Valid()
      modifies this
      ensures Valid() && SameRows(targets, old(targets))
      ensures error == if id in old(plans) then None else Some(NotFound)
      ensures plans == old(plans) - {id}
      ensures Wrong() == if error.Some? then old(Wrong())
                         else Outside(old(Wrong()), old(targets), {PairOf(dir.cur, old(plans)[id])})
    {
      if id !in plans {
        return Some(NotFound);
      }
      var gone := plans[id];
      var unit := UnitOf(dir.cur, gone.lessonId);
      ghost var plans0, targets0 := plans, targets;
      RemovedOk(dir.cur, plans, id);
      plans := plans - {id};
      RefreshPacingTargets(gone.studentId, {unit}, NOTHING_LOADED);
      assert UnitsOf(gone.studentId, {unit}) == {PairOf(dir.cur, gone)};
      SettledWrong(dir.cur, plans0, plans, targets0, targets, {PairOf(dir.cur, gone)});
      error := None;
    }

    /** The bulk route: every named plan changes, then each student's touched units are refreshed. */
    method BulkStatus(ids: set<int>, s: PlanStatus, date: Option<Date>, notes: Option<string>, today: Date)
      returns (error: Option<Error>)
      requires Valid()
      modifies this
      ensures Valid() && SameRows(targets, old(targets))
      ensures error == if ids <= old(plans).Keys then None else Some(NotFound)
      ensures plans == if error.Some? then old(plans) else BulkedPlans(old(plans), ids, s, date, notes, today)
      ensures Wrong() == if error.Some? then old(Wrong())
                         else Outside(old(Wrong()), old(targets), Touched(dir.cur, old(plans), ids))
    {
      if !(ids <= plans.Keys) {
        return Some(NotFound);
      }
      ghost var plans0, targets0 := plans, targets;
      var impacted := ApplyBulk(ids, s, date, notes, today);
      BulkedOk(dir.cur, plans0, ids, s, date, notes, today);
      RefreshAll(impacted);
      BulkedKept(dir.cur, plans0, ids, s, date, notes, today);
      SettledWrong(dir.cur, plans0, plans, targets0, targets, Touched(dir.cur, plans0, ids));
      error := None;
    }

    /** The loop over the selected plans, recording each student's touched units. */
    method ApplyBulk(ids: set<int>, s: PlanStatus, date: Option<Date>, notes: Option<string>, today: Date)
      returns (impacted: map<int, set<int>>)
      requires ids <= plans.Keys
      modifies this`plans
      ensures plans == BulkedPlans(old(plans), ids, s, date, notes, today)
      ensures PairsOf(impacted) == Touched(dir.cur, old(plans), ids)
    {
      impacted := map[];
      var todo := ids;
      while todo != {}
        invariant todo <= ids
        invariant plans == BulkedPlans(old(plans), ids - todo, s, date, notes, today)
        invariant PairsOf(impacted) == Touched(dir.cur, old(plans), ids - todo)
        decreases todo
      {
        var id := Pick(todo);
        BulkStep(dir.cur, old(plans), ids - todo, id, s, date, notes, today);
        ImpactStep(impacted, PairOf(dir.cur, plans[id]));
        impacted := WithImpact(impacted, PairOf(dir.cur, plans[id]));
        plans := plans[id := Bulked(plans[id], s, date, notes, today)];
        assert ids - todo + {id} == ids - (todo - {id});
        todo := todo - {id};
      }
      assert ids - todo == ids;
    }

    method RefreshAll(impacted: map<int, set<int>>)
      requires Valid()
      modifies this`targets
      ensures Valid() && Settled(dir.cur, plans, old(targets), targets, PairsOf(impacted))
    {
      ghost var before := targets;
      var todo := impacted.Keys;
      ghost var done: Pairs := {};
      while todo != {}
        invariant todo <= impacted.Keys && Valid()
        invariant forall p :: p in done <==> p in PairsOf(impacted) && p.0 !in todo
        invariant Settled(dir.cur, plans, before, targets, done)
        decreases todo
      {
        var student := Pick(todo);
        ghost var mid := targets;
        RefreshPacingTargets(student, impacted[student], NOTHING_LOADED);
        SettledMore(dir.cur, plans, before, mid, targets, done, UnitsOf(student, impacted[student]));
        done := done + UnitsOf(student, impacted[student]);
        todo := todo - {student};
      }
      assert done == PairsOf(impacted);
    }

    method CreateTarget(p: TargetPayload) returns (error: Option<Error>)
      requires Valid()
      modifies this
      ensures Valid() && plans == old(plans)
      ensures error == if p.unitId !in dir.cur.units || p.studentId !in dir.students then Some(NotFound)
                       else if TargetTaken(old(targets), p.studentId, p.unitId, None) then Some(Conflict) else None
      ensures SameRows(targets, if error.Some? then old(targets)
                                else old(targets)[old(nextId) := Target(p.unitId, p.studentId, p.start, p.end, None)])
      ensures Wrong() == old(Wrong())
    {
      if p.unitId !in dir.cur.units || p.studentId !in dir.students {
        return Some(NotFound);
      }
      if TargetTaken(targets, p.studentId, p.unitId, None) {
        return Some(Conflict);
      }
      ghost var targets0 := targets;
      targets := targets[nextId := Target(p.unitId, p.studentId, p.start, p.end, None)];
      nextId := nextId + 1;
      ghost var targets1 := targets;
      RefreshPacingTargets(p.studentId, {p.unitId}, NOTHING_LOADED);
      NewTargetRight(dir.cur, plans, targets0, targets1, targets, p.studentId, p.unitId);
      error := None;
    }

    method UpdateTarget(id: int, p: TargetPayload) returns (error: Option<Error>)
      requires Valid()
      modifies this
      ensures Valid() && plans == old(plans)
      ensures error == if id !in old(targets) || p.unitId !in dir.cur.units || p.studentId !in dir.students
                       then Some(NotFound)
                       else if TargetTaken(old(targets), p.studentId, p.unitId, Some(id)) then Some(Conflict) else None
      ensures SameRows(targets, if error.Some? then old(targets)
                                else old(targets)[id := Target(p.unitId, p.studentId, p.start, p.end, None)])
      ensures error.Some? ==> Wrong() == old(Wrong())
      ensures error.None? ==>
                Wrong() == WrongMoved(dir.cur, plans, old(Wrong()), id, p.studentId, old(targets)[id].unitId, p.unitId)
    {
      if id !in targets || p.unitId !in dir.cur.units || p.studentId !in dir.students {
        return Some(NotFound);
      }
      if TargetTaken(targets, p.studentId, p.unitId, Some(id)) {
        return Some(Conflict);
      }
      ghost var targets0 := targets;
      var from := targets[id].unitId;
      MovedTargetOk(dir.cur, targets, id, Target(p.unitId, p.studentId, p.start, p.end, targets[id].actual));
      targets := targets[id := Target(p.unitId, p.studentId, p.start, p.end, targets[id].actual)];
      ghost var targets1 := targets;
      RefreshPacingTargets(p.studentId, {p.unitId}, Loaded(map[], map[id := from]));
      MovedTarget(dir.cur, plans, targets0, targets1, targets, id, p.studentId, p.unitId);
      error := None;
    }

    method DeleteTarget(id: int) returns (error: Option<Error>)
      requires Valid()
      modifies this`targets
      ensures Valid()
      ensures error == if id in old(targets) then None else Some(NotFound)
      ensures targets == old(targets) - {id} && Wrong() == old(Wrong()) - {id}
    {
      if id !in targets {
        return Some(NotFound);
      }
      targets := targets - {id};
      error := None;
    }
  }

  lemma AddedOk(cur: Curriculum, plans: Plans, id: int, p: Plan)
    requires PlansOk(cur, plans) && id !in plans && p.lessonId in cur.lessons
    requires !PlanTaken(plans, p.studentId, p.lessonId, None)
    ensures PlansOk(cur, plans[id := p]) && PlansKept(cur, plans, plans[id := p], {PairOf(cur, p)})
  {
  }

  lemma RemovedOk(cur: Curriculum, plans: Plans, id: int)
    requires PlansOk(cur, plans) && id in plans
    ensures PlansOk(cur, plans - {id}) && PlansKept(cur, plans, plans - {id}, {PairOf(cur, plans[id])})
  {
  }

  lemma MovedTargetOk(cur: Curriculum, targets: Targets, id: int, t: Target)
    requires TargetsOk(cur, targets) && id in targets && t.unitId in cur.units
    requires !TargetTaken(targets, t.studentId, t.unitId, Some(id))
    ensures TargetsOk(cur, targets[id := t])
  {
  }

  lemma RefreshStep(cur: Curriculum, plans: Plans, loaded: Loaded, before: Targets, now: Targets, student: int,
                    units: set<int>, todo: set<int>, id: int, t: Target)
    requires RefreshedBut(cur, plans, loaded, before, now, student, units, todo) && id in todo && id in now
    requires SameRow(now[id], t) && Selected(t, UnitsOf(student, units))
    requires IsAnswer(cur, plans, loaded, student, units, id, t)
    ensures RefreshedBut(cur, plans, loaded, before, now[id := t], student, units, todo - {id})
  {
  }

  lemma NoRefreshStep(cur: Curriculum, plans: Plans, loaded: Loaded, before: Targets, now: Targets, student: int,
                      units: set<int>, todo: set<int>, id: int)
    requires RefreshedBut(cur, plans, loaded, before, now, student, units, todo) && id in todo && id in now
    requires !Selected(now[id], UnitsOf(student, units))
    ensures RefreshedBut(cur, plans, loaded, before, now, student, units, todo - {id})
  {
  }

  // ---------------------------------------------------------------- what a moved plan leaves

  /** Both students' targets of both units are refreshed, and of these exactly the harmed ones are wrong. */
  ghost predicate MovedWrong(cur: Curriculum, plans: Plans, plans': Plans, before: Targets, after: Targets, id: int)
    requires id in plans && id in plans'
  {
    var p, q := plans[id], plans'[id];
    var units := {UnitOf(cur, p.lessonId), UnitOf(cur, q.lessonId)};
    WrongIds(cur, plans', after)
    == Outside(WrongIds(cur, plans, before), before, UnitsOf(p.studentId, units) + UnitsOf(q.studentId, units))
       + Inside(after, Harmed(cur, plans', id, UnitOf(cur, p.lessonId)))
  }

  lemma MovedIs(cur: Curriculum, plans: Plans, plans': Plans, before: Targets, mid: Targets, after: Targets, id: int)
    requires CurriculumOk(cur) && PlansOk(cur, plans) && PlansOk(cur, plans') && TargetsOk(cur, mid)
    requires TargetsOk(cur, after)
    requires id in plans && id in plans' && plans' == plans[id := plans'[id]]
    requires var p, q := plans[id], plans'[id];
             var units, loaded := {UnitOf(cur, p.lessonId), UnitOf(cur, q.lessonId)}, Moved(id, p.lessonId);
             && IsRefresh(cur, plans', loaded, before, mid, p.studentId, units)
             && if p.studentId == q.studentId then after == mid
                else IsRefresh(cur, plans', loaded, mid, after, q.studentId, units)
    ensures SameRows(after, before) && MovedWrong(cur, plans, plans', before, after, id)
  {
    var p, q := plans[id], plans'[id];
    var from, to := UnitOf(cur, p.lessonId), UnitOf(cur, q.lessonId);
    var units, loaded := {from, to}, Moved(id, p.lessonId);
    var touched, harmed := UnitsOf(p.studentId, units) + UnitsOf(q.studentId, units), Harmed(cur, plans', id, from);
    if p.studentId != q.studentId {
      MovedUpToDate(cur, plans', id, p.lessonId, p.studentId, units);
      RefreshSettles(cur, plans', loaded, before, mid, p.studentId, units);
    }
    LastRefresh(cur, plans', if p.studentId == q.studentId then before else mid, after, id, p.lessonId);
    forall k | k in after && Selected(after[k], touched)
      ensures TargetFresh(cur, plans', after[k]) <==> !Selected(after[k], harmed)
    {
      if after[k].studentId != q.studentId {
        assert after[k] == mid[k] && TargetFresh(cur, plans', mid[k]);
      }
    }
    MovedKept(cur, plans, plans', id, units);
    TwiceKept(before, mid, after, touched);
    WrongAfter(cur, plans, plans', before, after, touched, harmed);
  }

  lemma MovedKept(cur: Curriculum, plans: Plans, plans': Plans, id: int, units: set<int>)
    requires id in plans && id in plans' && plans' == plans[id := plans'[id]]
    requires UnitOf(cur, plans[id].lessonId) in units && UnitOf(cur, plans'[id].lessonId) in units
    ensures PlansKept(cur, plans, plans', UnitsOf(plans[id].studentId, units) + UnitsOf(plans'[id].studentId, units))
  {
  }

  lemma TwiceKept(before: Targets, mid: Targets, after: Targets, pairs: Pairs)
    requires SameRows(mid, before) && SameRows(after, mid)
    requires forall k :: k in mid && !Selected(mid[k], pairs) ==> mid[k] == before[k]
    requires forall k :: k in after && !Selected(after[k], pairs) ==> after[k] == mid[k]
    ensures SameRows(after, before) && OthersKept(before, after, pairs)
  {
    forall k | k in after
      ensures SameRow(after[k], before[k]) && (Selected(after[k], pairs) <==> Selected(before[k], pairs))
      ensures Selected(after[k], pairs) <==> Selected(mid[k], pairs)
    {
      assert SameRow(after[k], mid[k]) && SameRow(mid[k], before[k]);
    }
  }

  /** The refresh of the student the plan now belongs to. */
  lemma LastRefresh(cur: Curriculum, plans: Plans, before: Targets, after: Targets, id: int, lesson: int)
    requires CurriculumOk(cur) && PlansOk(cur, plans) && TargetsOk(cur, after) && id in plans && lesson in cur.lessons
    requires IsRefresh(cur, plans, Moved(id, lesson), before, after, plans[id].studentId,
                       {UnitOf(cur, lesson), UnitOf(cur, plans[id].lessonId)})
    ensures var touched := UnitsOf(plans[id].studentId, {UnitOf(cur, lesson), UnitOf(cur, plans[id].lessonId)});
            forall k :: k in after && Selected(after[k], touched) ==>
              (TargetFresh(cur, plans, after[k]) <==> !Selected(after[k], Harmed(cur, plans, id, UnitOf(cur, lesson))))
  {
    var units := {UnitOf(cur, lesson), UnitOf(cur, plans[id].lessonId)};
    if UnitOf(cur, lesson) == UnitOf(cur, plans[id].lessonId) {
      MovedUpToDate(cur, plans, id, lesson, plans[id].studentId, units);
      RefreshSettles(cur, plans, Moved(id, lesson), before, after, plans[id].studentId, units);
    } else {
      forall k | k in after && Selected(after[k], UnitsOf(plans[id].studentId, units))
        ensures TargetFresh(cur, plans, after[k]) <==> !Selected(after[k], Harmed(cur, plans, id, UnitOf(cur, lesson)))
      {
        assert IsAnswer(cur, plans, Moved(id, lesson), plans[id].studentId, units, k, after[k]);
        MovedHarmIff(cur, plans, id, lesson, after[k], k);
      }
    }
  }

  // ---------------------------------------------------------------- new and moved targets

  lemma NewTargetRight(cur: Curriculum, plans: Plans, before: Targets, mid: Targets, after: Targets, student: int,
                       unit: int)
    requires Settled(cur, plans, mid, after, UnitsOf(student, {unit}))
    requires OthersKept(before, mid, {(student, unit)})
    requires forall id :: id in before ==> !Selected(before[id], {(student, unit)})
    ensures WrongIds(cur, plans, after) == WrongIds(cur, plans, before)
  {
    var pair := {(student, unit)};
    assert UnitsOf(student, {unit}) == pair;
    SettledKept(cur, plans, mid, after, pair);
    WrongAfter(cur, plans, plans, before, after, pair, {});
    NoneInside(after);
    var wrong := WrongIds(cur, plans, before);
    forall id ensures id in Outside(wrong, before, pair) <==> id in wrong {
    }
  }

  /** A target's date is right after a move exactly when the two units have equally many lessons, or neither is the
      unit it joins finished nor are the plans there, all finished, as many as the lessons of the unit it left. */
  ghost predicate TargetMovesWell(cur: Curriculum, plans: Plans, student: int, from: int, to: int) {
    |LessonSet(cur, from)| == |LessonSet(cur, to)|
    || (!UnitFinished(cur, plans, student, to)
        && !Enough(plans, UnitPlans(cur, plans, student, to), |LessonSet(cur, from)|))
  }

  /** The wrong targets once a target has moved. */
  ghost function WrongMoved(cur: Curriculum, plans: Plans, wrong: set<int>, id: int, student: int, from: int, to: int)
    : set<int>
  {
    if TargetMovesWell(cur, plans, student, from, to) then wrong - {id} else wrong + {id}
  }

  lemma MovedTargetIff(cur: Curriculum, plans: Plans, t: Target, id: int, from: int)
    requires CurriculumOk(cur) && PlansOk(cur, plans) && t.unitId in cur.units && from in cur.units
    requires IsAnswer(cur, plans, Loaded(map[], map[id := from]), t.studentId, {t.unitId}, id, t)
    ensures TargetFresh(cur, plans, t) <==> TargetMovesWell(cur, plans, t.studentId, from, t.unitId)
  {
    var own := UnitPlans(cur, plans, t.studentId, t.unitId);
    PlainGroup(cur, plans, Loaded(map[], map[id := from]), t.studentId, {t.unitId}, t.unitId);
    EnoughIsFinished(cur, plans, t.studentId, t.unitId);
    LessonTotal(cur, from);
    LessonTotal(cur, t.unitId);
    if |cur.units[from].lessons| == |cur.units[t.unitId].lessons| {
      AnswersRight(cur, plans, t.studentId, t.unitId, t.actual);
    } else {
      AnswerRightIff(cur, plans, own, |cur.units[from].lessons|, t);
    }
  }

  lemma MovedTarget(cur: Curriculum, plans: Plans, before: Targets, mid: Targets, after: Targets, id: int, student: int,
                    unit: int)
    requires CurriculumOk(cur) && PlansOk(cur, plans) && TargetsOk(cur, before) && TargetsOk(cur, mid)
    requires TargetsOk(cur, after)
    requires id in before && id in mid && mid == before[id := mid[id]] && mid[id].studentId == student
    requires mid[id].unitId == unit
    requires IsRefresh(cur, plans, Loaded(map[], map[id := before[id].unitId]), mid, after, student, {unit})
    ensures WrongIds(cur, plans, after)
            == WrongMoved(cur, plans, WrongIds(cur, plans, before), id, student, before[id].unitId, unit)
  {
    MovedTargetIff(cur, plans, after[id], id, before[id].unitId);
    forall k | k in after && k != id ensures k in before && after[k] == before[k] {
      assert SameRow(after[k], mid[k]) && !SameTarget(mid[k], mid[id]);
    }
    OneChanged(cur, plans, before, after, id);
  }

  lemma OneChanged(cur: Curriculum, plans: Plans, before: Targets, after: Targets, id: int)
    requires id in before && after.Keys == before.Keys && forall k :: k in after && k != id ==> after[k] == before[k]
    ensures WrongIds(cur, plans, after)
            == if TargetFresh(cur, plans, after[id]) then WrongIds(cur, plans, before) - {id}
               else WrongIds(cur, plans, before) + {id}
  {
    forall k ensures k in WrongIds(cur, plans, after)
                     <==> if k == id then !TargetFresh(cur, plans, after[id]) else k in WrongIds(cur, plans, before)
    {
    }
  }

  // ---------------------------------------------------------------- dates that go wrong

  const ONE := Lesson(1, 1, 1, None)
  const TWO := Lesson(2, 2, 1, None)
  const THREE := Lesson(3, 2, 2, None)
  const SHORT := CurriculumUnit(1, 1, 1, [ONE])
  const LONG := CurriculumUnit(2, 1, 2, [TWO, THREE])
  const EXAMPLE := Curriculum(map[1 := Package(1, 1, 1, [SHORT, LONG])], map[1 := SHORT, 2 := LONG],
                              map[1 := ONE, 2 := TWO, 3 := THREE])

  /** Student 7 has finished lesson 2 and nothing else. */
  const ONE_DONE: Plans := map[1 := Plan(2, 7, 1, 0, None, Completed, Some(5), None)]

  lemma ExampleFacts()
    ensures CurriculumOk(EXAMPLE) && PlansOk(EXAMPLE, ONE_DONE)
    ensures LessonSet(EXAMPLE, 1) == {1} && LessonSet(EXAMPLE, 2) == {2, 3}
    ensures UnitPlans(EXAMPLE, ONE_DONE, 7, 1) == {} && UnitPlans(EXAMPLE, ONE_DONE, 7, 2) == {1}
    ensures !UnitFinished(EXAMPLE, ONE_DONE, 7, 1) && !UnitFinished(EXAMPLE, ONE_DONE, 7, 2)
  {
    ExampleCurriculum();
    assert 1 in LessonSet(EXAMPLE, 1) && !HasFinished(ONE_DONE, 7, 1);
    assert 3 in LessonSet(EXAMPLE, 2) && !HasFinished(ONE_DONE, 7, 3);
  }

  lemma ExampleCurriculum()
    ensures CurriculumOk(EXAMPLE)
  {
    assert UnitOk(EXAMPLE, SHORT) && UnitOk(EXAMPLE, LONG);
    assert PackageOk(EXAMPLE, EXAMPLE.packages[1]);
  }

  /** The plan that was for lesson 1 now stands for lesson 2: the date of the one-lesson unit it left stays. */
  lemma MovedPlanKeepsDate()
    ensures Harmed(EXAMPLE, ONE_DONE, 1, 1) == {(7, 1)}
  {
    ExampleFacts();
    assert UnitPlans(EXAMPLE, ONE_DONE, 7, 1) + {1} == {1};
  }

  /** A target moved from the one-lesson unit to the unit of two takes the one finished plan for all of it. */
  lemma MovedTargetDatedEarly()
    ensures !TargetMovesWell(EXAMPLE, ONE_DONE, 7, 1, 2)
  {
    ExampleFacts();
  }
}
