/** The target list of an assignment: what replacing it leaves
    (backend/routers/assignments.py, lines 225-297). */
module TargetLists {
  import opened Wrappers
  import opened Counting
  import opened ChangeLog

  function Students(ts: seq<Target>): seq<int> {
    if ts == [] then [] else Students(ts[..|ts| - 1]) + [ts[|ts| - 1].student]
  }

  predicate DistinctStudents(ts: seq<Target>) {
    forall i, j :: 0 <= i < j < |ts| ==> ts[i].student != ts[j].student
  }

  /** {target.student_id: target for target in ts}. */
  function ByStudent(ts: seq<Target>): Targets {
    if ts == [] then map[] else ByStudent(ts[..|ts| - 1])[ts[|ts| - 1].student := ts[|ts| - 1]]
  }

  /** The students asked for that have no target yet, in payload order. */
  function NewStudents(ts: seq<Target>, existing: Targets): seq<int> {
    if ts == [] then []
    else NewStudents(ts[..|ts| - 1], existing)
         + if ts[|ts| - 1].student in existing then [] else [ts[|ts| - 1].student]
  }

  /** The entries one update writes about targets. */
  function TargetEntries(old_: seq<Target>, asked: Option<seq<Target>>): seq<Entry> {
    match asked
    case None => []
    case Some(ts) =>
      TargetDiff(Students(old_) + NewStudents(ts, ByStudent(old_)), ByStudent(old_), ByStudent(ts))
  }

  /** The old targets still wanted; those of the students in done as asked for. */
  function KeptTargets(old_: seq<Target>, asked: Targets, done: set<int>): seq<Target> {
    if old_ == [] then []
    else KeptTargets(old_[..|old_| - 1], asked, done) + Kept(old_[|old_| - 1], asked, done)
  }

  function Kept(t: Target, asked: Targets, done: set<int>): seq<Target> {
    if t.student !in asked then [] else if t.student in done then [asked[t.student]] else [t]
  }

  function AddedTargets(ts: seq<Target>, existing: Targets): seq<Target> {
    if ts == [] then []
    else AddedTargets(ts[..|ts| - 1], existing) + if ts[|ts| - 1].student in existing then [] else [ts[|ts| - 1]]
  }

  /** The list after _replace_targets: kept ones in place, new ones after them. */
  function Replaced(old_: seq<Target>, asked: Option<seq<Target>>): seq<Target> {
    match asked
    case None => old_
    case Some(ts) => KeptTargets(old_, ByStudent(ts), ByStudent(ts).Keys) + AddedTargets(ts, ByStudent(old_))
  }

  /** Each student's serialised target. */
  function States(ts: Targets): map<int, TargetState> {
    map s | s in ts :: StateOf(ts[s])
  }

  // ---------------------------------------------------------------- the map of a list

  lemma {:induction false} ByStudentFacts(ts: seq<Target>)
    requires DistinctStudents(ts)
    ensures forall s :: s in ByStudent(ts) ==> ByStudent(ts)[s] in ts && ByStudent(ts)[s].student == s
    ensures forall t :: t in ts ==> t.student in ByStudent(ts) && ByStudent(ts)[t.student] == t
  {
    if ts != [] {
      var front, last := ts[..|ts| - 1], ts[|ts| - 1];
      assert ts == front + [last];
      ByStudentFacts(front);
      forall t | t in front ensures t.student != last.student {
        var i :| 0 <= i < |front| && front[i] == t;
        assert ts[i] == t;
      }
    }
  }

  /** A list without repeated students is determined, as a map, by its members. */
  lemma SameMap(a: seq<Target>, b: seq<Target>)
    requires DistinctStudents(a) && DistinctStudents(b)
    requires forall t :: t in a <==> t in b
    ensures ByStudent(a) == ByStudent(b)
  {
    ByStudentFacts(a);
    ByStudentFacts(b);
    forall s | s in ByStudent(a) ensures s in ByStudent(b) && ByStudent(b)[s] == ByStudent(a)[s] {
      assert ByStudent(a)[s] in b;
    }
    forall s | s in ByStudent(b) ensures s in ByStudent(a) {
      assert ByStudent(b)[s] in a;
    }
  }

  lemma {:induction false} StudentsFacts(ts: seq<Target>)
    ensures |Students(ts)| == |ts|
    ensures forall i :: 0 <= i < |ts| ==> Students(ts)[i] == ts[i].student
    ensures forall s :: s in Students(ts) <==> s in ByStudent(ts)
  {
    if ts != [] {
      StudentsFacts(ts[..|ts| - 1]);
    }
  }

  lemma {:induction false} NewStudentsFacts(ts: seq<Target>, existing: Targets)
    requires DistinctStudents(ts)
    ensures Distinct(NewStudents(ts, existing))
    ensures forall s :: s in NewStudents(ts, existing) <==> s in ByStudent(ts) && s !in existing
  {
    if ts != [] {
      var front, last := ts[..|ts| - 1], ts[|ts| - 1];
      NewStudentsFacts(front, existing);
      LastNotBefore(ts);
    }
  }

  lemma NewStudentsStep(ts: seq<Target>, i: nat, done: seq<int>, existing: Targets)
    requires i < |ts|
    ensures done + NewStudents(ts[..i + 1], existing)
         == done + NewStudents(ts[..i], existing) + if ts[i].student in existing then [] else [ts[i].student]
  {
    assert ts[..i + 1][..i] == ts[..i];
  }

  lemma LastNotBefore(ts: seq<Target>)
    requires ts != [] && DistinctStudents(ts)
    ensures ts[|ts| - 1].student !in ByStudent(ts[..|ts| - 1])
  {
    ByStudentFacts(ts[..|ts| - 1]);
  }

  lemma DistinctByStudent(ts: seq<Target>)
    requires DistinctStudents(ts)
    ensures Distinct(Students(ts))
  {
    StudentsFacts(ts);
  }

  /** Existing students first, new ones after: each student of either list once. */
  lemma AllStudents(old_: seq<Target>, ts: seq<Target>)
    requires DistinctStudents(old_) && DistinctStudents(ts)
    ensures var all := Students(old_) + NewStudents(ts, ByStudent(old_));
            Distinct(all) && Elements(all) == ByStudent(old_).Keys + ByStudent(ts).Keys
  {
    StudentsFacts(old_);
    DistinctByStudent(old_);
    NewStudentsFacts(ts, ByStudent(old_));
    DistinctConcat(Students(old_), NewStudents(ts, ByStudent(old_)));
  }

  // ---------------------------------------------------------------- the kept list

  lemma {:induction false} KeptWithout(was: seq<Target>, asked: Targets, done: set<int>, student: int)
    requires student !in ByStudent(was)
    ensures KeptTargets(was, asked, done + {student}) == KeptTargets(was, asked, done)
  {
    if was != [] {
      KeptWithout(was[..|was| - 1], asked, done, student);
    }
  }

  /** Where a wanted student's target is in the kept list. */
  ghost function KeptIndex(was: seq<Target>, asked: Targets, done: set<int>, student: int): int {
    if was == [] then 0
    else if was[|was| - 1].student == student then |KeptTargets(was[..|was| - 1], asked, done)|
    else KeptIndex(was[..|was| - 1], asked, done, student)
  }

  /** Writing one wanted target changes its place in the kept list and nothing else. */
  lemma {:induction false} KeptUpdate(was: seq<Target>, asked: Targets, done: set<int>, t: Target)
    requires DistinctStudents(was) && t.student in ByStudent(was) && t.student in asked && asked[t.student] == t
    requires t.student !in done
    ensures var k := KeptIndex(was, asked, done, t.student);
            0 <= k < |KeptTargets(was, asked, done)| && KeptTargets(was, asked, done)[k].student == t.student
            && KeptTargets(was, asked, done + {t.student}) == KeptTargets(was, asked, done)[k := t]
  {
    var front, last := was[..|was| - 1], was[|was| - 1];
    if last.student == t.student {
      LastNotBefore(was);
      KeptWithout(front, asked, done, t.student);
    } else {
      KeptUpdate(front, asked, done, t);
      assert Kept(last, asked, done + {t.student}) == Kept(last, asked, done);
      UpdateFront(KeptTargets(front, asked, done), Kept(last, asked, done), KeptIndex(front, asked, done, t.student),
                  t);
    }
  }

  lemma UpdateFront<T>(a: seq<T>, b: seq<T>, k: nat, x: T)
    requires k < |a|
    ensures a[k := x] + b == (a + b)[k := x]
  {
  }

  ghost predicate Keyed(m: Targets) {
    forall s :: s in m ==> m[s].student == s
  }

  /** A list without repetitions stays one when at most one target of another student is put after it. */
  lemma DistinctSnoc(a: seq<Target>, b: seq<Target>, student: int)
    requires DistinctStudents(a) && (forall x :: x in a ==> x.student != student)
    requires |b| <= 1 && forall x :: x in b ==> x.student == student
    ensures DistinctStudents(a + b)
  {
    assert forall i :: 0 <= i < |a| ==> a[i] in a;
    assert forall i :: 0 <= i < |b| ==> b[i] in b;
  }

  lemma {:induction false} KeptDistinct(was: seq<Target>, asked: Targets, done: set<int>)
    requires DistinctStudents(was) && Keyed(asked)
    ensures DistinctStudents(KeptTargets(was, asked, done))
    ensures forall x :: x in KeptTargets(was, asked, done) ==> x.student in asked && x.student in ByStudent(was)
  {
    if was != [] {
      var front, last := was[..|was| - 1], was[|was| - 1];
      KeptDistinct(front, asked, done);
      LastNotBefore(was);
      DistinctSnoc(KeptTargets(front, asked, done), Kept(last, asked, done), last.student);
    }
  }

  lemma {:induction false} KeptMembers(was: seq<Target>, asked: Targets)
    requires Keyed(asked)
    ensures forall x :: x in KeptTargets(was, asked, asked.Keys) <==>
              x.student in asked && x.student in ByStudent(was) && asked[x.student] == x
  {
    if was != [] {
      KeptMembers(was[..|was| - 1], asked);
    }
  }

  lemma {:induction false} AddedFacts(ts: seq<Target>, existing: Targets)
    requires DistinctStudents(ts)
    ensures DistinctStudents(AddedTargets(ts, existing))
    ensures forall x :: x in AddedTargets(ts, existing) <==> x in ts && x.student !in existing
  {
    AddedMembers(ts, existing);
    if ts != [] {
      var front := ts[..|ts| - 1];
      AddedFacts(front, existing);
      LastNotBefore(ts);
      ByStudentFacts(front);
      var last := ts[|ts| - 1];
      DistinctSnoc(AddedTargets(front, existing), if last.student in existing then [] else [last], last.student);
    }
  }

  lemma {:induction false} AddedMembers(ts: seq<Target>, existing: Targets)
    ensures forall x :: x in AddedTargets(ts, existing) <==> x in ts && x.student !in existing
  {
    if ts != [] {
      AddedMembers(ts[..|ts| - 1], existing);
      assert ts == ts[..|ts| - 1] + [ts[|ts| - 1]];
    }
  }

  /** Replacing leaves exactly the targets asked for, each student once, and says so under any list order. */
  lemma ReplacedFacts(old_: seq<Target>, ts: seq<Target>)
    requires DistinctStudents(old_) && DistinctStudents(ts)
    ensures DistinctStudents(Replaced(old_, Some(ts)))
    ensures forall x :: x in Replaced(old_, Some(ts)) <==> x in ts
    ensures ByStudent(Replaced(old_, Some(ts))) == ByStudent(ts)
  {
    ByStudentFacts(ts);
    var asked, existing := ByStudent(ts), ByStudent(old_);
    KeptDistinct(old_, asked, asked.Keys);
    KeptMembers(old_, asked);
    AddedFacts(ts, existing);
    var a, b := KeptTargets(old_, asked, asked.Keys), AddedTargets(ts, existing);
    forall x ensures x in a <==> x in ts && x.student in existing {
      AskedIs(ts, x);
    }
    ApartConcat(a, b, existing.Keys);
    assert forall x :: x in a + b <==> x in ts;
    SameMap(a + b, ts);
  }

  /** The target asked for a student is the list's own. */
  lemma AskedIs(ts: seq<Target>, x: Target)
    requires DistinctStudents(ts)
    ensures x.student in ByStudent(ts) && ByStudent(ts)[x.student] == x <==> x in ts
  {
    ByStudentFacts(ts);
  }

  lemma ApartConcat(a: seq<Target>, b: seq<Target>, students: set<int>)
    requires DistinctStudents(a) && DistinctStudents(b)
    requires (forall x :: x in a ==> x.student in students) && (forall x :: x in b ==> x.student !in students)
    ensures DistinctStudents(a + b)
  {
    assert forall i :: 0 <= i < |a| ==> a[i] in a;
    assert forall i :: 0 <= i < |b| ==> b[i] in b;
  }

  function Only(students: seq<int>, wanted: set<int>): seq<int> {
    if students == [] then []
    else Only(students[..|students| - 1], wanted)
         + if students[|students| - 1] in wanted then [students[|students| - 1]] else []
  }

  function Except(students: seq<int>, unwanted: set<int>): seq<int> {
    if students == [] then []
    else Except(students[..|students| - 1], unwanted)
         + if students[|students| - 1] in unwanted then [] else [students[|students| - 1]]
  }

  lemma StudentsConcat(a: seq<Target>, b: seq<Target>)
    ensures Students(a + b) == Students(a) + Students(b)
  {
    StudentsFacts(a);
    StudentsFacts(b);
    StudentsFacts(a + b);
  }

  lemma {:induction false} KeptOrder(was: seq<Target>, asked: Targets, done: set<int>)
    requires Keyed(asked)
    ensures Students(KeptTargets(was, asked, done)) == Only(Students(was), asked.Keys)
  {
    if was != [] {
      var front, last := was[..|was| - 1], was[|was| - 1];
      KeptOrder(front, asked, done);
      StudentsConcat(KeptTargets(front, asked, done), Kept(last, asked, done));
      assert Students(Kept(last, asked, done)) == if last.student in asked then [last.student] else [];
    }
  }

  lemma {:induction false} AddedOrder(ts: seq<Target>, existing: Targets)
    ensures Students(AddedTargets(ts, existing)) == Except(Students(ts), existing.Keys) == NewStudents(ts, existing)
  {
    if ts != [] {
      var front, last := ts[..|ts| - 1], ts[|ts| - 1];
      AddedOrder(front, existing);
      StudentsConcat(AddedTargets(front, existing), if last.student in existing then [] else [last]);
      assert Students([last]) == [last.student];
    }
  }

  /** Replacing keeps the wanted targets in their old order, and puts the new ones after them in the order asked for. */
  lemma ReplacedOrder(old_: seq<Target>, ts: seq<Target>)
    requires DistinctStudents(old_) && DistinctStudents(ts)
    ensures Students(Replaced(old_, Some(ts)))
            == Only(Students(old_), Elements(Students(ts))) + Except(Students(ts), Elements(Students(old_)))
  {
    var asked, existing := ByStudent(ts), ByStudent(old_);
    ByStudentFacts(ts);
    KeptOrder(old_, asked, asked.Keys);
    AddedOrder(ts, existing);
    AskedIsDone(ts);
    AskedIsDone(old_);
    StudentsConcat(KeptTargets(old_, asked, asked.Keys), AddedTargets(ts, existing));
  }

  lemma AskedIsDone(ts: seq<Target>)
    ensures Elements(Students(ts)) == ByStudent(ts).Keys
  {
    StudentsFacts(ts);
  }

  /** One turn of the second loop of _replace_targets. */
  lemma ReplaceStep(asked: seq<Target>, i: nat, existing: Targets)
    requires DistinctStudents(asked) && i < |asked|
    ensures asked[i] in asked && asked[i].student !in Elements(Students(asked[..i]))
    ensures Elements(Students(asked[..i + 1])) == Elements(Students(asked[..i])) + {asked[i].student}
    ensures AddedTargets(asked[..i + 1], existing)
         == AddedTargets(asked[..i], existing) + if asked[i].student in existing then [] else [asked[i]]
  {
    var both := asked[..i + 1];
    assert both[..i] == asked[..i] && both[i] == asked[i];
    LastNotBefore(both);
    AskedIsDone(asked[..i]);
  }

  lemma StudentsAt(ts: seq<Target>, i: nat)
    requires i < |ts|
    ensures Students(ts[..i + 1]) == Students(ts[..i]) + [ts[i].student]
  {
    assert ts[..i + 1][..i] == ts[..i];
  }

  /** Taking out element k, or stepping over it, leaves the same rest to look at. */
  lemma OneFurther<T>(xs: seq<T>, k: nat, was: seq<T>, done: nat)
    requires k < |xs| && done < |was| && xs[k..] == was[done..]
    ensures xs[k] == was[done] && xs[k + 1..] == was[done + 1..] && xs[..k + 1] == xs[..k] + [xs[k]]
    ensures var ys := xs[..k] + xs[k + 1..]; ys[..k] == xs[..k] && ys[k..] == was[done + 1..]
  {
    assert xs[k..][1..] == xs[k + 1..] && was[done..][1..] == was[done + 1..];
    assert xs[k..][0] == was[done..][0];
  }

  lemma KeptAt(was: seq<Target>, i: nat, asked: Targets, done: set<int>)
    requires i < |was|
    ensures KeptTargets(was[..i + 1], asked, done) == KeptTargets(was[..i], asked, done) + Kept(was[i], asked, done)
  {
    assert was[..i + 1][..i] == was[..i];
  }

  lemma TargetDiffSnoc(students: seq<int>, x: int, old_: Targets, new_: Targets)
    ensures TargetDiff(students + [x], old_, new_) == TargetDiff(students, old_, new_) + StudentDiff(x, old_, new_)
  {
    assert (students + [x])[..|students|] == students;
  }
}
