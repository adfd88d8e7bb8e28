/** The pace of one unit against its window (backend/routers/lesson_plans.py, lines 326-353). */
module PaceStatus {
  import opened Wrappers
  import opened Agenda
  import opened Counting
  import opened PacingFacts

  datatype Pace = Behind | OnTrack | Ahead

  /** behind < on_track < ahead. */
  predicate NoBetter(a: Pace, b: Pace) {
    a == Behind || b == Ahead || a == b
  }

  const TOLERANCE := 0.15

  function Max(a: int, b: int): int {
    if a >= b then a else b
  }

  function Min(a: int, b: int): int {
    if a <= b then a else b
  }

  /** expected_progress, as an exact quotient. */
  function Expected(start: Date, end: Date, today: Date): real {
    var window := Max(end - start + 1, 1);
    Min(Max(today - start + 1, 0), window) as real / window as real
  }

  function Compare(actual: real, expected: real): Pace {
    if actual > expected + TOLERANCE then Ahead
    else if actual + TOLERANCE < expected then Behind
    else OnTrack
  }

  function PaceOf(start: Date, end: Date, completedOn: Option<Date>, total: nat, completed: nat, today: Date): Pace {
    if completedOn.Some? then
      if completedOn.value < end then Ahead else if completedOn.value > end then Behind else OnTrack
    else if today > end && completed < total then Behind
    else if today < start || total == 0 then OnTrack
    else Compare(completed as real / total as real, Expected(start, end, today))
  }

  function Remaining(total: nat, completed: nat): nat {
    Max(total - completed, 0)
  }

  // ---------------------------------------------------------------- quotients

  lemma QuotientMonotone(a: int, b: int, n: int)
    requires a <= b && n > 0
    ensures a as real / n as real <= b as real / n as real
  {
    var x, y, d := a as real, b as real, n as real;
    assert (y - x) / d >= 0.0;
    assert y / d - x / d == (y - x) / d;
  }

  lemma QuotientOne(n: int)
    requires n > 0
    ensures n as real / n as real == 1.0
  {
  }

  lemma ExpectedMonotone(start: Date, end: Date, t1: Date, t2: Date)
    requires start <= end && t1 <= t2
    ensures Expected(start, end, t1) <= Expected(start, end, t2) <= 1.0
  {
    var window := Max(end - start + 1, 1);
    QuotientMonotone(Min(Max(t1 - start + 1, 0), window), Min(Max(t2 - start + 1, 0), window), window);
    QuotientMonotone(Min(Max(t2 - start + 1, 0), window), window, window);
    QuotientOne(window);
  }

  // ---------------------------------------------------------------- the promises

  /** Completing more lessons never worsens the pace. */
  lemma PaceGrowsWithProgress(start: Date, end: Date, total: nat, c1: nat, c2: nat, today: Date)
    requires start <= end && total > 0 && c1 <= c2
    ensures NoBetter(PaceOf(start, end, None, total, c1, today), PaceOf(start, end, None, total, c2, today))
  {
    QuotientMonotone(c1, c2, total);
  }

  /** From the start date on, letting time pass without progress never improves the pace. */
  lemma PaceFallsWithTime(start: Date, end: Date, total: nat, completed: nat, t1: Date, t2: Date)
    requires start <= end && total > 0 && start <= t1 <= t2
    ensures NoBetter(PaceOf(start, end, None, total, completed, t2), PaceOf(start, end, None, total, completed, t1))
  {
    ExpectedMonotone(start, end, t1, t2);
  }

  /** Before the window opens everything is on track, so time brings no improvement exactly when it stays closed,
      or is over with work left, or the work done is not ahead of the share then elapsed. */
  lemma PaceBeforeStartIff(start: Date, end: Date, total: nat, completed: nat, t1: Date, t2: Date)
    requires start <= end && total > 0 && t1 < start && t1 <= t2
    ensures NoBetter(PaceOf(start, end, None, total, completed, t2), PaceOf(start, end, None, total, completed, t1))
            <==> t2 < start || (t2 > end && completed < total)
                 || completed as real / total as real <= Expected(start, end, t2) + TOLERANCE
  {
  }

  /** With every lesson finished a unit is never behind its window before the date is recorded. */
  lemma NeverBehindWhenDone(start: Date, end: Date, total: nat, completed: nat, today: Date)
    requires start <= end && completed >= total
    ensures PaceOf(start, end, None, total, completed, today) != Behind
  {
    if total > 0 {
      QuotientMonotone(total, completed, total);
      QuotientOne(total);
      ExpectedMonotone(start, end, today, today);
    }
  }

  /** While the window is open, ahead and behind are 15 points away from the elapsed share. */
  lemma PaceInsideWindow(start: Date, end: Date, total: nat, completed: nat, today: Date)
    requires start <= today <= end && total > 0
    ensures var share := (today - start + 1) as real / (end - start + 1) as real;
            var done := completed as real / total as real;
            var pace := PaceOf(start, end, None, total, completed, today);
            (pace == Ahead <==> done - share > TOLERANCE) && (pace == Behind <==> share - done > TOLERANCE)
  {
  }

  /** A completion date decides by itself: before the window's end is ahead, after it behind, on it on track. */
  lemma PaceOnceCompleted(start: Date, end: Date, done: Date, total: nat, completed: nat, today: Date)
    ensures var pace := PaceOf(start, end, Some(done), total, completed, today);
            (pace == Ahead <==> done < end) && (pace == OnTrack <==> done == end) && (pace == Behind <==> done > end)
  {
  }

  /** Once the window is over a unit is behind exactly while lessons are missing; with just all of them it is on
      track. */
  lemma PaceAfterWindow(start: Date, end: Date, total: nat, completed: nat, today: Date)
    requires start <= end < today
    ensures PaceOf(start, end, None, total, completed, today) == Behind <==> completed < total
    ensures completed == total ==> PaceOf(start, end, None, total, completed, today) == OnTrack
  {
    if completed >= total > 0 {
      QuotientMonotone(total, completed, total);
      QuotientOne(total);
      QuotientOne(end - start + 1);
    }
  }

  /** Without lessons, or before its window, a unit that is not finished is on track. */
  lemma PaceWithoutMeasure(start: Date, end: Date, total: nat, completed: nat, today: Date)
    requires start <= end && ((total == 0 && completed == 0) || today < start)
    ensures PaceOf(start, end, None, total, completed, today) == OnTrack
  {
  }

  /** What is left, and never less than nothing. */
  lemma RemainingIs(total: nat, completed: nat)
    ensures completed <= total ==> completed + Remaining(total, completed) == total
    ensures completed > total ==> Remaining(total, completed) == 0
  {
  }

  // ---------------------------------------------------------------- the counts

  ghost function FinishedPlans(cur: Curriculum, plans: Plans, student: int, unit: int): set<int> {
    set id | id in UnitPlans(cur, plans, student, unit) && Finished(plans[id].status)
  }

  /** The finished plans never outnumber the lessons, so nothing is lost in the remainder. */
  lemma RemainingComplements(cur: Curriculum, plans: Plans, student: int, unit: int)
    requires PlansOk(cur, plans)
    ensures |FinishedPlans(cur, plans, student, unit)| <= |LessonSet(cur, unit)|
    ensures Remaining(|LessonSet(cur, unit)|, |FinishedPlans(cur, plans, student, unit)|)
            + |FinishedPlans(cur, plans, student, unit)| == |LessonSet(cur, unit)|
    ensures UnitFinished(cur, plans, student, unit) ==>
              Remaining(|LessonSet(cur, unit)|, |FinishedPlans(cur, plans, student, unit)|) == 0
  {
    var ids, all := FinishedPlans(cur, plans, student, unit), UnitPlans(cur, plans, student, unit);
    AtMostOnePlanALesson(cur, plans, student, unit);
    SubsetCount(ids, all);
    if UnitFinished(cur, plans, student, unit) {
      CountTestIsCoverage(cur, plans, student, unit);
      forall id ensures id in ids <==> id in all {
      }
      assert ids == all;
    }
  }
}
