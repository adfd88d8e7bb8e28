/** The assignment routes that write the change log
    (backend/routers/assignments.py, lines 42-56, 149-297, 423-443, 455-497;
    backend/routers/lesson_plans.py, lines 524-528). */
module AssignmentRoutes {
  import opened Wrappers
  import opened Counting
  import opened ChangeLog
  import opened TargetLists

  datatype Error = NotFound | BadRequest

  datatype Payload = Payload(fields: Fields, targets: Option<seq<Target>>)

  /** The rows of other tables that validation looks up. */
  datatype Directory = Directory(students: set<int>, subjects: set<int>, gradingPeriods: set<int>)

  // ---------------------------------------------------------------- validation

  predicate KnownStatus(s: string) {
    s == "pending" || s == "complete" || s == "graded"
  }

  /** _allowed_transitions. */
  predicate Allowed(current: string, next: string) {
    || (current == "pending" && KnownStatus(next))
    || (current == "complete" && KnownStatus(next))
    || (current == "graded" && (next == "complete" || next == "graded"))
  }

  predicate StatusValue(v: Value) {
    v.Enumerated? && KnownStatus(v.name)
  }

  /** What the request schema guarantees of a payload. */
  ghost predicate WellTyped(p: Payload) {
    Total(p.fields) && StatusValue(p.fields[Status])
  }

  /** _validate_targets: the first repeated or unknown student decides. */
  function TargetsError(dir: Directory, ts: seq<Target>, from: nat): (e: Option<Error>)
    requires from <= |ts|
    ensures e.None? ==> forall i, j :: 0 <= j < i < |ts| && from <= i ==> ts[j].student != ts[i].student
    ensures e.None? ==> forall i :: from <= i < |ts| ==> ts[i].student in dir.students
    decreases |ts| - from
  {
    if from == |ts| then None
    else if exists j :: 0 <= j < from && ts[j].student == ts[from].student then Some(BadRequest)
    else if ts[from].student !in dir.students then Some(NotFound)
    else TargetsError(dir, ts, from + 1)
  }

  /** What create and update are refused for, in order. */
  function ReferenceError(dir: Directory, p: Payload): (e: Option<Error>)
    requires SubjectId in p.fields && GradingPeriodId in p.fields
    ensures e.None? && p.targets.Some? ==> DistinctStudents(p.targets.value)
  {
    if !(p.fields[SubjectId].Whole? && p.fields[SubjectId].whole in dir.subjects) then Some(NotFound)
    else if p.fields[GradingPeriodId].Whole? && p.fields[GradingPeriodId].whole !in dir.gradingPeriods
    then Some(NotFound)
    else if p.targets.Some? then TargetsError(dir, p.targets.value, 0)
    else None
  }

  function UpdateError(dir: Directory, current: string, p: Payload): (e: Option<Error>)
    requires SubjectId in p.fields && GradingPeriodId in p.fields && Status in p.fields && StatusValue(p.fields[Status])
    ensures e.None? ==> Allowed(current, p.fields[Status].name)
    ensures e.None? && p.targets.Some? ==> DistinctStudents(p.targets.value)
  {
    match ReferenceError(dir, p)
    case Some(e) => Some(e)
    case None => if Allowed(current, p.fields[Status].name) then None else Some(BadRequest)
  }

  /** Every change between known statuses is allowed but the one from graded to pending. */
  lemma AllowedIff(current: string, next: string)
    requires KnownStatus(current)
    ensures Allowed(current, next)
            <==> (next == "pending" || next == "complete" || next == "graded")
                 && !(current == "graded" && next == "pending")
  {
    assert "graded"[0] != "pending"[0] && "complete"[0] != "pending"[0] && "complete"[0] != "graded"[0];
  }

  /** The student at i is listed before, or unknown. */
  ghost predicate Repeats(ts: seq<Target>, i: int)
    requires 0 <= i < |ts|
  {
    exists j :: 0 <= j < i && ts[j].student == ts[i].student
  }

  /** The first student that is repeated or unknown decides: a repetition is a bad request, an unknown one not found. */
  lemma {:induction false} TargetsErrorIs(dir: Directory, ts: seq<Target>, from: nat)
    requires from <= |ts|
    ensures match TargetsError(dir, ts, from)
            case None => forall i :: from <= i < |ts| ==> !Repeats(ts, i) && ts[i].student in dir.students
            case Some(e) =>
              exists i :: from <= i < |ts|
                        && (forall j :: from <= j < i ==> !Repeats(ts, j) && ts[j].student in dir.students)
                          && if Repeats(ts, i) then e == BadRequest
                             else ts[i].student !in dir.students && e == NotFound
    decreases |ts| - from
  {
    if from < |ts| {
      assert Repeats(ts, from) <==> exists j :: 0 <= j < from && ts[j].student == ts[from].student;
      if !Repeats(ts, from) && ts[from].student in dir.students {
        TargetsErrorIs(dir, ts, from + 1);
      }
    }
  }

  /** An update is accepted exactly when its subject is known, its grading period is none or known, its students are
      known and each listed once, and the status may change that way. */
  lemma UpdateAcceptedIff(dir: Directory, current: string, p: Payload)
    requires WellTyped(p) && KnownStatus(current)
    ensures UpdateError(dir, current, p).None?
            <==> && (exists id :: id in dir.subjects && p.fields[SubjectId] == Whole(id))
                 && (p.fields[GradingPeriodId].Whole? ==> p.fields[GradingPeriodId].whole in dir.gradingPeriods)
                 && (p.targets.Some? ==> forall i :: 0 <= i < |p.targets.value| ==>
                       !Repeats(p.targets.value, i) && p.targets.value[i].student in dir.students)
                 && !(current == "graded" && p.fields[Status] == Enumerated("pending"))
  {
    AllowedIff(current, p.fields[Status].name);
    if p.targets.Some? {
      TargetsErrorIs(dir, p.targets.value, 0);
    }
  }

  /** Unknown rows are reported before anything about the status, and a forbidden change of it is a bad request. */
  lemma UpdateRefusedWith(dir: Directory, current: string, p: Payload)
    requires WellTyped(p) && KnownStatus(current)
    ensures (forall id :: id in dir.subjects ==> p.fields[SubjectId] != Whole(id)) ==>
              UpdateError(dir, current, p) == Some(NotFound)
    ensures p.fields[GradingPeriodId].Whole? && p.fields[GradingPeriodId].whole !in dir.gradingPeriods ==>
              UpdateError(dir, current, p) == Some(NotFound)
    ensures ReferenceError(dir, p).None? && current == "graded" && p.fields[Status] == Enumerated("pending") ==>
              UpdateError(dir, current, p) == Some(BadRequest)
    ensures UpdateError(dir, current, p) == Some(BadRequest) && ReferenceError(dir, p).Some? ==>
              p.targets.Some? && TargetsError(dir, p.targets.value, 0) == Some(BadRequest)
  {
    AllowedIff(current, p.fields[Status].name);
  }

  // ---------------------------------------------------------------- what one update logs

  ghost function Tracked(): set<Field> {
    Elements(TRACKED)
  }

  ghost function TrackedValues(fields: Fields): map<Field, Json>
    requires Total(fields)
  {
    map f | f in Tracked() :: Serialize(fields[f])
  }

  ghost function SnapshotOf(fields: Fields, targets: seq<Target>): Snapshot
    requires Total(fields)
  {
    Snapshot(TrackedValues(fields), States(ByStudent(targets)))
  }

  function UpdateEntries(fields: Fields, targets: seq<Target>, p: Payload): seq<Entry>
    requires (forall f :: f in TRACKED ==> f in fields) && forall f :: f in TRACKED ==> f in p.fields
  {
    ScalarDiff(TRACKED, fields, p.fields) + TargetEntries(targets, p.targets)
  }

  lemma TrackedEnds(old_: Fields, new_: Fields)
    requires Total(old_) && Total(new_)
    ensures MixedFields(Tracked(), old_, new_, {}) == TrackedValues(old_)
    ensures MixedFields(Tracked(), old_, new_, Tracked()) == TrackedValues(new_)
  {
  }

  lemma TrackedDistinct()
    ensures Distinct(TRACKED)
  {
  }

  lemma FieldPart(old_: Fields, new_: Fields, ts: map<int, TargetState>)
    requires Total(old_) && Total(new_)
    ensures Bridges(ScalarDiff(TRACKED, old_, new_), Snapshot(TrackedValues(old_), ts),
                    Snapshot(TrackedValues(new_), ts))
  {
    TrackedDistinct();
    TrackedEnds(old_, new_);
    FieldsBridge(Tracked(), TRACKED, old_, new_, ts);
  }

  lemma MixedEnds(existing: Targets, incoming: Targets)
    ensures MixedTargets(existing, incoming, {}) == States(existing)
    ensures MixedTargets(existing, incoming, existing.Keys + incoming.Keys) == States(incoming)
  {
  }

  lemma TargetPart(old_: seq<Target>, asked: Option<seq<Target>>, fs: map<Field, Json>)
    requires DistinctStudents(old_) && (asked.Some? ==> DistinctStudents(asked.value))
    ensures Bridges(TargetEntries(old_, asked), Snapshot(fs, States(ByStudent(old_))),
                    Snapshot(fs, States(ByStudent(Replaced(old_, asked)))))
  {
    match asked
    case None =>
    case Some(ts) =>
      AllStudents(old_, ts);
      ReplacedFacts(old_, ts);
      MixedEnds(ByStudent(old_), ByStudent(ts));
      TargetsBridge(Students(old_) + NewStudents(ts, ByStudent(old_)), ByStudent(old_), ByStudent(ts), fs);
  }

  /** Replaying what one update logs gives the new state, and undoing it the old one. */
  lemma UpdateBridges(fields: Fields, targets: seq<Target>, p: Payload)
    requires Total(fields) && Total(p.fields)
    requires DistinctStudents(targets) && (p.targets.Some? ==> DistinctStudents(p.targets.value))
    ensures Bridges(UpdateEntries(fields, targets, p), SnapshotOf(fields, targets),
                    SnapshotOf(p.fields, Replaced(targets, p.targets)))
  {
    FieldPart(fields, p.fields, States(ByStudent(targets)));
    TargetPart(targets, p.targets, SnapshotOf(p.fields, targets).fields);
    BridgesConcat(ScalarDiff(TRACKED, fields, p.fields), TargetEntries(targets, p.targets), SnapshotOf(fields, targets),
                  SnapshotOf(p.fields, targets), SnapshotOf(p.fields, Replaced(targets, p.targets)));
  }

  /** What an update logs of a column: one entry with the old and the new value when they differ in more than an
      instant's offset, and none otherwise; changes of the subject are not logged. */
  lemma ColumnLogged(fields: Fields, targets: seq<Target>, p: Payload, f: Field, k: Kind)
    requires Total(fields) && Total(p.fields) && OfKind(fields[f], k) && OfKind(p.fields[f], k)
    ensures var logged := About(UpdateEntries(fields, targets, p), Scalar(f));
            if f == SubjectId || fields[f] == p.fields[f] || (fields[f].Instant? && p.fields[f].Instant?
                                                              && fields[f].utc == p.fields[f].utc)
            then logged == []
            else && |logged| == 1 && logged[0].kind == AssignmentUpdate && logged[0].student == None
                 && ReadBack(k, logged[0].before) == Some(InUtc(fields[f]))
                 && ReadBack(k, logged[0].after) == Some(InUtc(p.fields[f]))
  {
    TrackedDistinct();
    TrackedIff(f);
    ScalarEntries(TRACKED, fields, p.fields, f, k);
    AboutConcat(ScalarDiff(TRACKED, fields, p.fields), TargetEntries(targets, p.targets), Scalar(f));
    if p.targets.Some? {
      var ts := p.targets.value;
      TargetsNoField(Students(targets) + NewStudents(ts, ByStudent(targets)), ByStudent(targets), ByStudent(ts), f);
    }
    SerializeRoundTrip(fields[f], k);
    SerializeRoundTrip(p.fields[f], k);
  }

  /** Every column but the subject is followed. */
  lemma TrackedIff(f: Field)
    ensures f in TRACKED <==> f != SubjectId
  {
    if f != SubjectId {
      EveryScalar(f);
      var k :| 0 <= k < |SCALARS| && SCALARS[k] == f;
      assert TRACKED[if k == 0 then 0 else k - 1] == f;
    }
  }

  /** What an update logs of a student: that the target went or came, or its changed due date and then status. */
  lemma StudentLogged(fields: Fields, targets: seq<Target>, p: Payload, student: int)
    requires Total(fields) && Total(p.fields) && DistinctStudents(targets)
    requires p.targets.Some? && DistinctStudents(p.targets.value)
    requires forall t :: t in targets || t in p.targets.value ==> OfKind(t.due, InstantKind)
    ensures TellsOf(Concerning(UpdateEntries(fields, targets, p), student), student,
                    At(ByStudent(targets), student), At(ByStudent(p.targets.value), student))
  {
    TargetsLogged(targets, p.targets.value, student);
    ScalarsConcernNobody(TRACKED, fields, p.fields, student);
    ConcerningConcat(ScalarDiff(TRACKED, fields, p.fields), TargetEntries(targets, p.targets), student);
    assert [] + Concerning(TargetEntries(targets, p.targets), student)
           == Concerning(TargetEntries(targets, p.targets), student);
  }

  lemma TargetsLogged(targets: seq<Target>, ts: seq<Target>, student: int)
    requires DistinctStudents(targets) && DistinctStudents(ts)
    requires forall t :: t in targets || t in ts ==> OfKind(t.due, InstantKind)
    ensures TellsOf(Concerning(TargetEntries(targets, Some(ts)), student), student,
                    At(ByStudent(targets), student), At(ByStudent(ts), student))
  {
    var old_, new_ := ByStudent(targets), ByStudent(ts);
    var all := Students(targets) + NewStudents(ts, old_);
    AllStudents(targets, ts);
    DueDatesOf(targets);
    DueDatesOf(ts);
    TargetsTell(all, old_, new_, student);
    if student !in Elements(all) {
      assert student !in all;
    }
  }

  lemma DueDatesOf(ts: seq<Target>)
    requires DistinctStudents(ts) && forall t :: t in ts ==> OfKind(t.due, InstantKind)
    ensures DueDates(ByStudent(ts))
  {
    ByStudentFacts(ts);
  }

  /** A payload without targets logs nothing of them. */
  lemma NoTargetsLogged(fields: Fields, targets: seq<Target>, p: Payload, student: int)
    requires Total(fields) && Total(p.fields) && p.targets == None
    ensures Concerning(UpdateEntries(fields, targets, p), student) == []
    ensures Replaced(targets, p.targets) == targets
  {
    ScalarsConcernNobody(TRACKED, fields, p.fields, student);
    ConcerningConcat(ScalarDiff(TRACKED, fields, p.fields), TargetEntries(targets, p.targets), student);
  }

  /** An update logs nothing exactly when it leaves the serialised state as it was. */
  lemma LogsNothingIff(fields: Fields, targets: seq<Target>, p: Payload)
    requires Total(fields) && Total(p.fields)
    requires DistinctStudents(targets) && (p.targets.Some? ==> DistinctStudents(p.targets.value))
    ensures UpdateEntries(fields, targets, p) == [] <==>
              SnapshotOf(fields, targets) == SnapshotOf(p.fields, Replaced(targets, p.targets))
  {
    UpdateBridges(fields, targets, p);
    if SnapshotOf(fields, targets) == SnapshotOf(p.fields, Replaced(targets, p.targets)) {
      forall f | f in TRACKED ensures Serialize(fields[f]) == Serialize(p.fields[f]) {
        assert SnapshotOf(fields, targets).fields[f] == SnapshotOf(p.fields, Replaced(targets, p.targets)).fields[f];
      }
      NoFieldEntries(TRACKED, fields, p.fields);
      if p.targets.Some? {
        ReplacedFacts(targets, p.targets.value);
        var existing, incoming := ByStudent(targets), ByStudent(p.targets.value);
        assert States(existing) == States(incoming);
        forall s ensures s in existing <==> s in incoming {
          assert s in States(existing) <==> s in States(incoming);
        }
        forall s | s in existing ensures StateOf(existing[s]) == StateOf(incoming[s]) {
          assert States(existing)[s] == States(incoming)[s];
        }
        NoTargetEntries(Students(targets) + NewStudents(p.targets.value, existing), existing, incoming);
      }
    }
  }

  lemma {:induction false} NoFieldEntries(fs: seq<Field>, old_: Fields, new_: Fields)
    requires Total(old_) && Total(new_)
    requires forall f :: f in fs ==> Serialize(old_[f]) == Serialize(new_[f])
    ensures ScalarDiff(fs, old_, new_) == []
  {
    if fs != [] {
      NoFieldEntries(fs[..|fs| - 1], old_, new_);
    }
  }

  lemma {:induction false} NoTargetEntries(students: seq<int>, old_: Targets, new_: Targets)
    requires old_.Keys == new_.Keys && forall s :: s in old_ ==> StateOf(old_[s]) == StateOf(new_[s])
    ensures TargetDiff(students, old_, new_) == []
  {
    if students != [] {
      NoTargetEntries(students[..|students| - 1], old_, new_);
    }
  }

  // ---------------------------------------------------------------- what a log says about the status

  /** Every logged change of the status is a real one and an allowed one. */
  ghost predicate LegalLog(log: seq<Entry>) {
    forall e :: e in log && e.subject == Scalar(Status) ==> LegalStatusChange(e)
  }

  predicate LegalStatusChange(e: Entry) {
    e.before.JText? && e.after.JText? && e.before != e.after && Allowed(e.before.jtext, e.after.jtext)
  }

  lemma {:induction false} ScalarDiffLegal(fs: seq<Field>, old_: Fields, new_: Fields)
    requires Total(old_) && Total(new_) && StatusValue(old_[Status]) && StatusValue(new_[Status])
    requires Allowed(old_[Status].name, new_[Status].name)
    ensures LegalLog(ScalarDiff(fs, old_, new_))
  {
    if fs != [] {
      ScalarDiffLegal(fs[..|fs| - 1], old_, new_);
    }
  }

  lemma {:induction false} TargetDiffLegal(students: seq<int>, old_: Targets, new_: Targets)
    ensures LegalLog(TargetDiff(students, old_, new_))
  {
    if students != [] {
      TargetDiffLegal(students[..|students| - 1], old_, new_);
    }
  }

  ghost predicate StatusIs(s: Snapshot, name: string) {
    Status in s.fields && s.fields[Status] == JText(name)
  }

  /** A log that takes the status from graded to pending says that it was complete in between. */
  lemma {:induction false} GradedToPendingPassesComplete(log: seq<Entry>, s: Snapshot, t: Snapshot)
    requires LegalLog(log) && Bridges(log, s, t)
    requires StatusIs(s, "graded") && StatusIs(t, "pending")
    ensures exists k :: 0 <= k <= |log| && StatusIs(Replay(log[..k], s), "complete")
  {
    var front, e := log[..|log| - 1], log[|log| - 1];
    var u := Replay(front, s);
    if StatusIs(u, "pending") {
      GradedToPendingPassesComplete(front, s, u);
      var k :| 0 <= k <= |front| && StatusIs(Replay(front[..k], s), "complete");
      assert front[..k] == log[..k];
    } else {
      assert e.subject == Scalar(Status);
      assert StatusIs(Replay(log[..|front|], s), "complete");
    }
  }

  // ---------------------------------------------------------------- the class

  class Assignment {
    var fields: Fields
    var targets: seq<Target>
    var history: seq<Entry>
    ghost var created: Snapshot

    ghost predicate RowOk()
      reads this
    {
      Total(fields) && StatusValue(fields[Status]) && DistinctStudents(targets)
    }

    /** The log replayed from creation is the current state, and undone from it the created one. */
    ghost predicate Valid()
      reads this
    {
      RowOk() && Bridges(history, created, SnapshotOf(fields, targets)) && LegalLog(history)
    }

    /** create_assignment, once its references are found. */
    constructor (dir: Directory, p: Payload)
      requires WellTyped(p) && ReferenceError(dir, p).None?
      ensures Valid() && history == [] && fields == p.fields
      ensures targets == if p.targets.Some? then p.targets.value else []
    {
      fields := p.fields;
      targets := if p.targets.Some? then p.targets.value else [];
      history := [];
      created := SnapshotOf(p.fields, if p.targets.Some? then p.targets.value else []);
    }

    method AppendHistory(kind: ChangeType, subject: Subject, before: Json, after: Json, student: Option<int>)
      modifies this`history
      ensures history == old(history) + [Entry(kind, subject, before, after, student)]
    {
      history := history + [Entry(kind, subject, before, after, student)];
    }

    /** _track_assignment_changes. */
    method TrackAssignmentChanges(p: Payload)
      requires Total(fields) && Total(p.fields)
      modifies this`history
      ensures history == old(history) + ScalarDiff(TRACKED, fields, p.fields)
    {
      var tracked := TRACKED;
      for i := 0 to |tracked|
        invariant history == old(history) + ScalarDiff(tracked[..i], fields, p.fields)
      {
        assert tracked[..i + 1][..i] == tracked[..i];
        var f := tracked[i];
        var before, after := fields[f], p.fields[f];
        if Serialize(before) != Serialize(after) {
          AppendHistory(AssignmentUpdate, Scalar(f), Serialize(before), Serialize(after), None);
        }
      }
      assert tracked[..|tracked|] == tracked;
    }

    /** _track_target_changes: the existing targets first, then the new students. */
    method TrackTargetChanges(p: Payload)
      requires DistinctStudents(targets) && (p.targets.Some? ==> DistinctStudents(p.targets.value))
      modifies this`history
      ensures history == old(history) + TargetEntries(targets, p.targets)
    {
      if p.targets.None? {
        return;
      }
      var existing, incoming := ByStudent(targets), ByStudent(p.targets.value);
      ByStudentFacts(targets);
      ByStudentFacts(p.targets.value);
      TrackExisting(existing, incoming);
      TrackAdded(p.targets.value, old(history), Students(targets), existing, incoming);
    }

    method TrackExisting(existing: Targets, incoming: Targets)
      requires forall i :: 0 <= i < |targets| ==> targets[i].student in existing
      modifies this`history
      ensures history == old(history) + TargetDiff(Students(targets), existing, incoming)
    {
      var current := targets;
      ghost var base := history;
      assert base + TargetDiff(Students(current[..0]), existing, incoming) == base;
      for i := 0 to |current|
        invariant history == base + TargetDiff(Students(current[..i]), existing, incoming)
      {
        StudentsAt(current, i);
        TrackOld(current[i].student, base, Students(current[..i]), existing, incoming);
      }
      assert current[..|current|] == current;
    }

    /** The entries about one more target of the list. */
    method TrackOld(student: int, ghost base: seq<Entry>, ghost done: seq<int>, existing: Targets, incoming: Targets)
      requires student in existing && history == base + TargetDiff(done, existing, incoming)
      modifies this`history
      ensures history == base + TargetDiff(done + [student], existing, incoming)
    {
      TargetDiffSnoc(done, student, existing, incoming);
      Regroup(base, TargetDiff(done, existing, incoming), StudentDiff(student, existing, incoming));
      TrackStudent(student, existing, incoming);
    }

    /** The entries about one existing target. */
    method TrackStudent(student: int, existing: Targets, incoming: Targets)
      requires student in existing
      modifies this`history
      ensures history == old(history) + StudentDiff(student, existing, incoming)
    {
      if student !in incoming {
        AppendHistory(TargetRemoved, TargetAssignment, JTarget(StateOf(existing[student])), JNull, Some(student));
        return;
      }
      TrackKept(student, StateOf(existing[student]), StateOf(incoming[student]));
    }

    /** A target that stays. */
    method TrackKept(student: int, t: TargetState, r: TargetState)
      modifies this`history
      ensures history == old(history) + KeptDiff(student, t, r)
    {
      if t.due != r.due {
        AppendHistory(TargetUpdate, TargetDue, t.due, r.due, Some(student));
      }
      assert history == old(history) + DueDiff(student, t, r);
      if t.status != r.status {
        AppendHistory(TargetUpdate, TargetStatus, JText(t.status), JText(r.status), Some(student));
      }
      assert history == old(history) + DueDiff(student, t, r) + StatusDiff(student, t, r);
    }

    /** The entry about a student asked for that had no target, if that is one. */
    method TrackNew(t: Target, ghost base: seq<Entry>, ghost done: seq<int>, existing: Targets, ghost incoming: Targets)
      requires t.student in incoming && incoming[t.student] == t
      requires history == base + TargetDiff(done, existing, incoming)
      modifies this`history
      ensures history == base + TargetDiff(done + if t.student in existing then [] else [t.student], existing, incoming)
    {
      assert done + [] == done;
      if t.student !in existing {
        TargetDiffSnoc(done, t.student, existing, incoming);
        AppendHistory(TargetAdded, TargetAssignment, JNull, JTarget(StateOf(t)), Some(t.student));
      }
    }

    /** The entries about students that had no target, after those about the students in done. */
    method TrackAdded(asked: seq<Target>, ghost base: seq<Entry>, ghost done: seq<int>, existing: Targets,
                      incoming: Targets)
      requires forall t :: t in asked ==> t.student in incoming && incoming[t.student] == t
      requires history == base + TargetDiff(done, existing, incoming)
      modifies this`history
      ensures history == base + TargetDiff(done + NewStudents(asked, existing), existing, incoming)
    {
      ghost var covered := done;
      assert done + NewStudents(asked[..0], existing) == done;
      for i := 0 to |asked|
        invariant covered == done + NewStudents(asked[..i], existing)
        invariant history == base + TargetDiff(covered, existing, incoming)
      {
        NewStudentsStep(asked, i, done, existing);
        assert asked[i] in asked;
        TrackNew(asked[i], base, covered, existing, incoming);
        covered := covered + if asked[i].student in existing then [] else [asked[i].student];
      }
      assert asked[..|asked|] == asked;
    }

    /** _apply_assignment_updates. */
    method ApplyAssignmentUpdates(p: Payload)
      requires Total(p.fields)
      modifies this`fields
      ensures fields == p.fields
    {
      var scalars := SCALARS;
      for i := 0 to |scalars|
        invariant forall k :: 0 <= k < i ==> scalars[k] in fields && fields[scalars[k]] == p.fields[scalars[k]]
      {
        fields := fields[scalars[i] := p.fields[scalars[i]]];
      }
      forall f: Field ensures f in fields && fields[f] == p.fields[f] {
        EveryScalar(f);
      }
      assert fields.Keys == p.fields.Keys;
    }

    /** _replace_targets, on the list in place. */
    method ReplaceTargets(p: Payload)
      requires DistinctStudents(targets) && (p.targets.Some? ==> DistinctStudents(p.targets.value))
      modifies this`targets
      ensures targets == Replaced(old(targets), p.targets)
    {
      if p.targets.None? {
        return;
      }
      var asked := p.targets.value;
      ghost var was := targets;
      var existing, incoming := ByStudent(targets), ByStudent(asked);
      RemoveUnasked(incoming);
      ByStudentFacts(asked);
      assert Elements(Students(asked[..0])) == {} && AddedTargets(asked[..0], existing) == [];
      for i := 0 to |asked|
        invariant targets
                  == KeptTargets(was, incoming, Elements(Students(asked[..i]))) + AddedTargets(asked[..i], existing)
      {
        ReplaceOne(was, asked, i, existing, incoming);
      }
      assert asked[..|asked|] == asked;
      AskedIsDone(asked);
    }

    /** One turn of the second loop. */
    method ReplaceOne(ghost was: seq<Target>, asked: seq<Target>, i: nat, existing: Targets, ghost incoming: Targets)
      requires DistinctStudents(was) && existing == ByStudent(was)
      requires DistinctStudents(asked) && incoming == ByStudent(asked) && i < |asked|
      requires targets
               == KeptTargets(was, incoming, Elements(Students(asked[..i]))) + AddedTargets(asked[..i], existing)
      modifies this`targets
      ensures targets
              == KeptTargets(was, incoming, Elements(Students(asked[..i + 1]))) + AddedTargets(asked[..i + 1], existing)
    {
      ghost var done, added := Elements(Students(asked[..i])), AddedTargets(asked[..i], existing);
      ReplaceStep(asked, i, existing);
      ByStudentFacts(asked);
      if asked[i].student in existing {
        WriteExisting(was, incoming, done, added, asked[i]);
      } else {
        KeptWithout(was, incoming, done, asked[i].student);
        targets := targets + [asked[i]];
      }
    }

    /** The first loop: remove what was not asked for. */
    method RemoveUnasked(incoming: Targets)
      modifies this`targets
      ensures targets == KeptTargets(old(targets), incoming, {})
    {
      ghost var was := targets;
      ghost var done := 0;
      var k := 0;
      while k < |targets|
        invariant 0 <= done <= |was| && k <= |targets| && |targets| - k == |was| - done
        invariant targets[..k] == KeptTargets(was[..done], incoming, {})
        invariant targets[k..] == was[done..]
        decreases |targets| - k
      {
        KeptAt(was, done, incoming, {});
        OneFurther(targets, k, was, done);
        if targets[k].student !in incoming {
          targets := targets[..k] + targets[k + 1..];
        } else {
          k := k + 1;
        }
        done := done + 1;
      }
      assert was[..done] == was && targets[..k] == targets;
    }

    /** existing.due_date and existing.status are assigned on the target that is already in the list. */
    method WriteExisting(ghost was: seq<Target>, ghost incoming: Targets, ghost done: set<int>,
                         ghost added: seq<Target>, t: Target)
      requires DistinctStudents(was) && targets == KeptTargets(was, incoming, done) + added
      requires t.student in ByStudent(was) && t.student in incoming && incoming[t.student] == t && t.student !in done
      requires Keyed(incoming)
      modifies this`targets
      ensures targets == KeptTargets(was, incoming, done + {t.student}) + added
    {
      KeptUpdate(was, incoming, done, t);
      KeptDistinct(was, incoming, done);
      ghost var at := KeptIndex(was, incoming, done, t.student);
      var k := 0;
      while targets[k].student != t.student
        invariant 0 <= k <= at
        decreases at - k
      {
        k := k + 1;
      }
      assert k == at;
      targets := targets[k := t];
    }

    // -------------------------------------------------------------- routes

    /** update_assignment. */
    method UpdateAssignment(dir: Directory, p: Payload) returns (error: Option<Error>)
      requires Valid() && WellTyped(p)
      modifies this
      ensures Valid() && created == old(created)
      ensures error == UpdateError(dir, old(fields[Status].name), p)
      ensures error.Some? ==> fields == old(fields) && targets == old(targets) && history == old(history)
      ensures error.None? ==> fields == p.fields && targets == Replaced(old(targets), p.targets)
                              && history == old(history) + UpdateEntries(old(fields), old(targets), p)
    {
      error := UpdateError(dir, fields[Status].name, p);
      if error.None? {
        AcceptUpdate(p);
      }
    }

    method LogUpdate(p: Payload)
      requires Total(fields) && Total(p.fields)
      requires DistinctStudents(targets) && (p.targets.Some? ==> DistinctStudents(p.targets.value))
      modifies this`history
      ensures history == old(history) + UpdateEntries(fields, targets, p)
    {
      TrackAssignmentChanges(p);
      TrackTargetChanges(p);
      assert history == old(history) + (ScalarDiff(TRACKED, fields, p.fields) + TargetEntries(targets, p.targets));
    }

    method AcceptUpdate(p: Payload)
      requires Valid() && WellTyped(p) && (p.targets.Some? ==> DistinctStudents(p.targets.value))
      requires Allowed(fields[Status].name, p.fields[Status].name)
      modifies this`fields, this`targets, this`history
      ensures Valid()
      ensures fields == p.fields && targets == Replaced(old(targets), p.targets)
      ensures history == old(history) + UpdateEntries(old(fields), old(targets), p)
    {
      LogUpdate(p);
      UpdateExtends(old(history), created, fields, targets, p);
      ApplyAssignmentUpdates(p);
      ReplaceTargets(p);
    }

    /** update_assignment_status. */
    method UpdateStatus(next: string) returns (error: Option<Error>)
      requires Valid() && KnownStatus(next)
      modifies this`fields, this`history
      ensures Valid() && created == old(created)
      ensures error == if Allowed(old(fields[Status].name), next) then None else Some(BadRequest)
      ensures error.Some? ==> fields == old(fields) && history == old(history)
      ensures error.None? ==> fields == old(fields)[Status := Enumerated(next)]
      ensures error.None? ==>
                var was := old(fields[Status].name);
                history == old(history) + if was == next then []
                                          else [Entry(StatusUpdate, Scalar(Status), JText(was), JText(next), None)]
    {
      var current := fields[Status].name;
      if !Allowed(current, next) {
        return Some(BadRequest);
      }
      if current != next {
        StatusBridge(fields, targets, next);
        BridgesConcat(history, [Entry(StatusUpdate, Scalar(Status), JText(current), JText(next), None)], created,
                      SnapshotOf(fields, targets),
                      SnapshotOf(fields[Status := Enumerated(next)], targets));
        AppendHistory(StatusUpdate, Scalar(Status), JText(current), JText(next), None);
      } else {
        assert fields[Status := Enumerated(next)] == fields;
      }
      fields := fields[Status := Enumerated(next)];
      error := None;
    }

    /** Deleting a lesson plan clears the link of the assignments that name it, and logs nothing. */
    method UnlinkLessonPlan(plan: int)
      requires Valid()
      modifies this`fields
      ensures fields == if old(fields)[LessonPlanId] == Whole(plan) then old(fields)[LessonPlanId := Missing]
                        else old(fields)
      ensures Valid() <==> old(fields)[LessonPlanId] != Whole(plan)
    {
      if fields[LessonPlanId] == Whole(plan) {
        UnlinkBreaks(history, created, fields, targets);
        fields := fields[LessonPlanId := Missing];
      }
    }
  }

  /** Writing one tracked column writes one field of the snapshot. */
  lemma WriteTracked(fields: Fields, targets: seq<Target>, f: Field, v: Value)
    requires Total(fields) && f in Tracked()
    ensures SnapshotOf(fields[f := v], targets)
            == SnapshotOf(fields, targets).(fields := SnapshotOf(fields, targets).fields[f := Serialize(v)])
  {
    WriteValue(fields, f, v);
  }

  lemma WriteValue(fields: Fields, f: Field, v: Value)
    requires Total(fields) && f in Tracked()
    ensures TrackedValues(fields[f := v]) == TrackedValues(fields)[f := Serialize(v)]
  {
  }

  /** One accepted update keeps the log exact and legal. */
  lemma UpdateExtends(history: seq<Entry>, created: Snapshot, fields: Fields, targets: seq<Target>, p: Payload)
    requires Total(fields) && StatusValue(fields[Status]) && DistinctStudents(targets) && WellTyped(p)
    requires Allowed(fields[Status].name, p.fields[Status].name)
    requires p.targets.Some? ==> DistinctStudents(p.targets.value)
    requires Bridges(history, created, SnapshotOf(fields, targets)) && LegalLog(history)
    ensures DistinctStudents(Replaced(targets, p.targets))
    ensures Bridges(history + UpdateEntries(fields, targets, p), created,
                    SnapshotOf(p.fields, Replaced(targets, p.targets)))
    ensures LegalLog(history + UpdateEntries(fields, targets, p))
  {
    UpdateBridges(fields, targets, p);
    BridgesConcat(history, UpdateEntries(fields, targets, p), created, SnapshotOf(fields, targets),
                  SnapshotOf(p.fields, Replaced(targets, p.targets)));
    ScalarDiffLegal(TRACKED, fields, p.fields);
    if p.targets.Some? {
      ReplacedFacts(targets, p.targets.value);
      TargetDiffLegal(Students(targets) + NewStudents(p.targets.value, ByStudent(targets)), ByStudent(targets),
                      ByStudent(p.targets.value));
    }
  }

  lemma StatusBridge(fields: Fields, targets: seq<Target>, next: string)
    requires Total(fields) && StatusValue(fields[Status])
    ensures Bridges([Entry(StatusUpdate, Scalar(Status), JText(fields[Status].name), JText(next), None)],
                    SnapshotOf(fields, targets), SnapshotOf(fields[Status := Enumerated(next)], targets))
  {
    var s, t := SnapshotOf(fields, targets), SnapshotOf(fields[Status := Enumerated(next)], targets);
    assert TRACKED[3] == Status && Status in Tracked();
    WriteTracked(fields, targets, Status, Enumerated(next));
    assert s.fields[Status] == JText(fields[Status].name);
    PutBack(s.fields, Status, JText(next));
    Single([Entry(StatusUpdate, Scalar(Status), JText(fields[Status].name), JText(next), None)], s, t);
  }

  lemma PutBack<K, V>(m: map<K, V>, k: K, v: V)
    requires k in m
    ensures m[k := v][k := m[k]] == m
  {
  }

  /** A link cleared without an entry: replaying the log still says it is there. */
  lemma UnlinkBreaks(history: seq<Entry>, created: Snapshot, fields: Fields, targets: seq<Target>)
    requires Total(fields) && fields[LessonPlanId] != Missing
    requires Bridges(history, created, SnapshotOf(fields, targets))
    ensures !Bridges(history, created, SnapshotOf(fields[LessonPlanId := Missing], targets))
  {
    BridgesReplayUndo(history, created, SnapshotOf(fields, targets));
    OnlyOneEnd(history, created, SnapshotOf(fields[LessonPlanId := Missing], targets));
    assert TRACKED[12] == LessonPlanId;
    assert SnapshotOf(fields, targets).fields[LessonPlanId] == Serialize(fields[LessonPlanId]);
    assert SnapshotOf(fields[LessonPlanId := Missing], targets).fields[LessonPlanId] == JNull;
  }

  lemma OnlyOneEnd(log: seq<Entry>, s: Snapshot, t: Snapshot)
    ensures Bridges(log, s, t) ==> Replay(log, s) == t
  {
    if Bridges(log, s, t) {
      BridgesReplayUndo(log, s, t);
    }
  }

  lemma EveryScalar(f: Field)
    ensures exists k :: 0 <= k < |SCALARS| && SCALARS[k] == f
  {
    var k := match f
      case Title => 0
      case SubjectId => 1
      case Description => 2
      case DueDate => 3
      case Status => 4
      case Category => 5
      case GradingPeriodId => 6
      case Weight => 7
      case MaxScore => 8
      case Recurrence => 9
      case RecurrenceEndDate => 10
      case RubricDescription => 11
      case Attachments => 12
      case LessonPlanId => 13;
    assert SCALARS[k] == f;
  }
}
