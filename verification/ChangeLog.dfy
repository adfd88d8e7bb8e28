/** The change log of an assignment: what its entries say, replayed and undone
    (backend/routers/assignments.py, lines 68-96, 170-211 and 225-297). */
module ChangeLog {
  import opened Wrappers
  import opened Counting

  // ---------------------------------------------------------------- values

  datatype Field =
    | Title | SubjectId | Description | DueDate | Status | Category | GradingPeriodId | Weight | MaxScore
    | Recurrence | RecurrenceEndDate | RubricDescription | Attachments | LessonPlanId

  /** A column value. An instant keeps the offset it was given in. */
  datatype Value =
    | Missing
    | Text(text: string)
    | Number(number: real)
    | Whole(whole: int)
    | Instant(utc: int, offset: int)
    | Day(day: int)
    | Enumerated(name: string)
    | Texts(texts: seq<string>)

  datatype Json =
    | JNull
    | JText(jtext: string)
    | JNumber(jnumber: real)
    | JWhole(jwhole: int)
    | JInstant(jutc: int)
    | JDay(jday: int)
    | JTexts(jtexts: seq<string>)
    | JTarget(target: TargetState)

  datatype TargetState = TargetState(due: Json, status: string)

  /** _serialize_history_value: instants are turned to UTC, enumeration members to their value. */
  function Serialize(v: Value): Json {
    match v
    case Missing => JNull
    case Text(t) => JText(t)
    case Number(n) => JNumber(n)
    case Whole(n) => JWhole(n)
    case Instant(utc, _) => JInstant(utc)
    case Day(d) => JDay(d)
    case Enumerated(n) => JText(n)
    case Texts(ts) => JTexts(ts)
  }

  // ---------------------------------------------------------------- what a serialised value still says

  datatype Kind = TextKind | NumberKind | WholeKind | InstantKind | DayKind | EnumKind | TextsKind

  /** A column of this kind holds the value. */
  predicate OfKind(v: Value, k: Kind) {
    v.Missing? || (match k
                   case TextKind => v.Text?
                   case NumberKind => v.Number?
                   case WholeKind => v.Whole?
                   case InstantKind => v.Instant?
                   case DayKind => v.Day?
                   case EnumKind => v.Enumerated?
                   case TextsKind => v.Texts?)
  }

  /** Reading a serialised value back into a column. */
  function ReadBack(k: Kind, j: Json): Option<Value> {
    match j
    case JNull => Some(Missing)
    case JText(t) => if k == TextKind then Some(Text(t)) else if k == EnumKind then Some(Enumerated(t)) else None
    case JNumber(n) => if k == NumberKind then Some(Number(n)) else None
    case JWhole(n) => if k == WholeKind then Some(Whole(n)) else None
    case JInstant(u) => if k == InstantKind then Some(Instant(u, 0)) else None
    case JDay(d) => if k == DayKind then Some(Day(d)) else None
    case JTexts(ts) => if k == TextsKind then Some(Texts(ts)) else None
    case JTarget(_) => None
  }

  /** The same instant told in UTC. */
  function InUtc(v: Value): Value {
    if v.Instant? then Instant(v.utc, 0) else v
  }

  /** A logged value reads back as the column's value, an instant in UTC. */
  lemma SerializeRoundTrip(v: Value, k: Kind)
    requires OfKind(v, k)
    ensures ReadBack(k, Serialize(v)) == Some(InUtc(v))
  {
  }

  /** Two values of a column say different things: they differ in more than an instant's offset. */
  predicate Differ(v: Value, w: Value) {
    v != w && !(v.Instant? && w.Instant? && v.utc == w.utc)
  }

  /** The log tells two values of a column apart exactly when they differ. */
  lemma SerializeIff(v: Value, w: Value, k: Kind)
    requires OfKind(v, k) && OfKind(w, k)
    ensures Serialize(v) != Serialize(w) <==> Differ(v, w)
  {
    SerializeRoundTrip(v, k);
    SerializeRoundTrip(w, k);
  }

  type Fields = map<Field, Value>

  const TRACKED: seq<Field> :=
    [Title, Description, DueDate, Status, Category, GradingPeriodId, Weight, MaxScore,
     Recurrence, RecurrenceEndDate, RubricDescription, Attachments, LessonPlanId]

  const SCALARS: seq<Field> :=
    [Title, SubjectId, Description, DueDate, Status, Category, GradingPeriodId, Weight, MaxScore,
     Recurrence, RecurrenceEndDate, RubricDescription, Attachments, LessonPlanId]

  ghost predicate Total(fs: Fields) {
    forall f :: f in fs
  }

  datatype Target = Target(student: int, due: Value, status: string)

  function StateOf(t: Target): TargetState {
    TargetState(Serialize(t.due), t.status)
  }

  // ---------------------------------------------------------------- entries

  datatype Subject = Scalar(field: Field) | TargetAssignment | TargetDue | TargetStatus

  datatype ChangeType = AssignmentUpdate | StatusUpdate | TargetRemoved | TargetUpdate | TargetAdded

  datatype Entry = Entry(kind: ChangeType, subject: Subject, before: Json, after: Json, student: Option<int>)

  // ---------------------------------------------------------------- what a log means

  /** The serialised assignment: tracked fields, and each student's target. */
  datatype Snapshot = Snapshot(fields: map<Field, Json>, targets: map<int, TargetState>)

  function SetTarget(ts: map<int, TargetState>, student: int, v: Json): map<int, TargetState> {
    if v.JTarget? then ts[student := v.target] else ts - {student}
  }

  /** Writing one side of an entry into a snapshot. */
  function Put(s: Snapshot, e: Entry, v: Json): Snapshot {
    match e.subject
    case Scalar(f) => s.(fields := s.fields[f := v])
    case TargetAssignment => if e.student.Some? then s.(targets := SetTarget(s.targets, e.student.value, v)) else s
    case TargetDue =>
      if e.student.Some? && e.student.value in s.targets
      then s.(targets := s.targets[e.student.value := s.targets[e.student.value].(due := v)]) else s
    case TargetStatus =>
      if e.student.Some? && e.student.value in s.targets && v.JText?
      then s.(targets := s.targets[e.student.value := s.targets[e.student.value].(status := v.jtext)]) else s
  }

  function Replay(log: seq<Entry>, s: Snapshot): Snapshot {
    if log == [] then s else Put(Replay(log[..|log| - 1], s), log[|log| - 1], log[|log| - 1].after)
  }

  /** The entries backwards, each putting back what was there before. */
  function Undo(log: seq<Entry>, s: Snapshot): Snapshot {
    if log == [] then s else Undo(log[..|log| - 1], Put(s, log[|log| - 1], log[|log| - 1].before))
  }

  /** Entry by entry, the log turns s into t, and each entry's before is what putting back needs. */
  ghost predicate Bridges(log: seq<Entry>, s: Snapshot, t: Snapshot) {
    if log == [] then s == t
    else
      var front, e := log[..|log| - 1], log[|log| - 1];
      var u := Replay(front, s);
      Bridges(front, s, u) && Put(u, e, e.after) == t && Put(t, e, e.before) == u
  }

  /** Such a log replays forwards to t, and undone from t gives s back. */
  lemma {:induction false} BridgesReplayUndo(log: seq<Entry>, s: Snapshot, t: Snapshot)
    requires Bridges(log, s, t)
    ensures Replay(log, s) == t && Undo(log, t) == s
  {
    if log != [] {
      BridgesReplayUndo(log[..|log| - 1], s, Replay(log[..|log| - 1], s));
    }
  }

  lemma {:induction false} BridgesConcat(a: seq<Entry>, b: seq<Entry>, s: Snapshot, t: Snapshot, u: Snapshot)
    requires Bridges(a, s, t) && Bridges(b, t, u)
    ensures Bridges(a + b, s, u)
  {
    if b == [] {
      assert a + b == a;
    } else {
      var front := b[..|b| - 1];
      assert (a + b)[..|a + b| - 1] == a + front;
      BridgesConcat(a, front, s, t, Replay(front, t));
      BridgesReplayUndo(a + front, s, Replay(front, t));
    }
  }

  // ---------------------------------------------------------------- the diff of the fields

  function FieldDiff(f: Field, old_: Fields, new_: Fields): seq<Entry>
    requires f in old_ && f in new_
  {
    if Serialize(old_[f]) != Serialize(new_[f])
    then [Entry(AssignmentUpdate, Scalar(f), Serialize(old_[f]), Serialize(new_[f]), None)] else []
  }

  function ScalarDiff(fs: seq<Field>, old_: Fields, new_: Fields): seq<Entry>
    requires forall f :: f in fs ==> f in old_ && f in new_
  {
    if fs == [] then [] else ScalarDiff(fs[..|fs| - 1], old_, new_) + FieldDiff(fs[|fs| - 1], old_, new_)
  }

  lemma ElementsSnoc<T>(xs: seq<T>)
    requires xs != [] && Distinct(xs)
    ensures Elements(xs) == Elements(xs[..|xs| - 1]) + {xs[|xs| - 1]}
    ensures xs[|xs| - 1] !in Elements(xs[..|xs| - 1])
  {
    assert xs == xs[..|xs| - 1] + [xs[|xs| - 1]];
  }

  /** Some columns, serialised: those in done from the new values, the others from the old. */
  ghost function MixedFields(keys: set<Field>, old_: Fields, new_: Fields, done: set<Field>): map<Field, Json>
    requires Total(old_) && Total(new_)
  {
    map f | f in keys :: if f in done then Serialize(new_[f]) else Serialize(old_[f])
  }

  lemma FieldBridge(keys: set<Field>, f: Field, old_: Fields, new_: Fields, done: set<Field>, ts: map<int, TargetState>)
    requires Total(old_) && Total(new_) && f in keys && f !in done
    ensures Bridges(FieldDiff(f, old_, new_), Snapshot(MixedFields(keys, old_, new_, done), ts),
                    Snapshot(MixedFields(keys, old_, new_, done + {f}), ts))
  {
    var a, b := MixedFields(keys, old_, new_, done), MixedFields(keys, old_, new_, done + {f});
    assert b == a[f := Serialize(new_[f])] && a == b[f := Serialize(old_[f])];
    Single(FieldDiff(f, old_, new_), Snapshot(a, ts), Snapshot(b, ts));
  }

  /** A log of at most one entry. */
  lemma Single(log: seq<Entry>, s: Snapshot, t: Snapshot)
    requires |log| <= 1
    requires if log == [] then s == t else Put(s, log[0], log[0].after) == t && Put(t, log[0], log[0].before) == s
    ensures Bridges(log, s, t)
  {
    if log != [] {
      assert log[..0] == [];
    }
  }

  lemma {:induction false} FieldsBridge(keys: set<Field>, fs: seq<Field>, old_: Fields, new_: Fields,
                                        ts: map<int, TargetState>)
    requires Total(old_) && Total(new_) && Distinct(fs) && Elements(fs) <= keys
    ensures Bridges(ScalarDiff(fs, old_, new_), Snapshot(MixedFields(keys, old_, new_, {}), ts),
                    Snapshot(MixedFields(keys, old_, new_, Elements(fs)), ts))
  {
    if fs == [] {
      assert MixedFields(keys, old_, new_, Elements(fs)) == MixedFields(keys, old_, new_, {});
    } else {
      var front, f := fs[..|fs| - 1], fs[|fs| - 1];
      ElementsSnoc(fs);
      FieldsBridge(keys, front, old_, new_, ts);
      FieldBridge(keys, f, old_, new_, Elements(front), ts);
      BridgesConcat(ScalarDiff(front, old_, new_), FieldDiff(f, old_, new_),
                    Snapshot(MixedFields(keys, old_, new_, {}), ts),
                    Snapshot(MixedFields(keys, old_, new_, Elements(front)), ts),
                    Snapshot(MixedFields(keys, old_, new_, Elements(fs)), ts));
    }
  }

  // ---------------------------------------------------------------- which entries there are

  /** The entries about one subject, in the order of the log. */
  function About(log: seq<Entry>, subject: Subject): seq<Entry> {
    if log == [] then []
    else About(log[..|log| - 1], subject) + if log[|log| - 1].subject == subject then [log[|log| - 1]] else []
  }

  /** The entries about one student. */
  function Concerning(log: seq<Entry>, student: int): seq<Entry> {
    if log == [] then []
    else Concerning(log[..|log| - 1], student)
         + if log[|log| - 1].student == Some(student) then [log[|log| - 1]] else []
  }

  lemma {:induction false} AboutConcat(a: seq<Entry>, b: seq<Entry>, subject: Subject)
    ensures About(a + b, subject) == About(a, subject) + About(b, subject)
  {
    if b == [] {
      assert a + b == a;
    } else {
      assert (a + b)[..|a + b| - 1] == a + b[..|b| - 1];
      AboutConcat(a, b[..|b| - 1], subject);
    }
  }

  lemma {:induction false} ConcerningConcat(a: seq<Entry>, b: seq<Entry>, student: int)
    ensures Concerning(a + b, student) == Concerning(a, student) + Concerning(b, student)
  {
    if b == [] {
      assert a + b == a;
    } else {
      assert (a + b)[..|a + b| - 1] == a + b[..|b| - 1];
      ConcerningConcat(a, b[..|b| - 1], student);
    }
  }

  lemma OneEntry(e: Entry, subject: Subject, student: int)
    ensures About([e], subject) == if e.subject == subject then [e] else []
    ensures Concerning([e], student) == if e.student == Some(student) then [e] else []
  {
    assert [e][..0] == [];
  }

  /** A field among those compared has one entry when its value differs, and none otherwise; other fields have none. */
  lemma {:induction false} ScalarEntries(fs: seq<Field>, old_: Fields, new_: Fields, f: Field, k: Kind)
    requires Total(old_) && Total(new_) && Distinct(fs) && OfKind(old_[f], k) && OfKind(new_[f], k)
    ensures About(ScalarDiff(fs, old_, new_), Scalar(f))
            == if f in fs && Differ(old_[f], new_[f])
               then [Entry(AssignmentUpdate, Scalar(f), Serialize(old_[f]), Serialize(new_[f]), None)] else []
  {
    if fs != [] {
      var front, last := fs[..|fs| - 1], fs[|fs| - 1];
      assert fs == front + [last];
      ScalarEntries(front, old_, new_, f, k);
      AboutConcat(ScalarDiff(front, old_, new_), FieldDiff(last, old_, new_), Scalar(f));
      FieldEntries(last, old_, new_, f, k);
    }
  }

  lemma FieldEntries(g: Field, old_: Fields, new_: Fields, f: Field, k: Kind)
    requires Total(old_) && Total(new_) && OfKind(old_[f], k) && OfKind(new_[f], k)
    ensures About(FieldDiff(g, old_, new_), Scalar(f))
            == if g == f && Differ(old_[f], new_[f])
               then [Entry(AssignmentUpdate, Scalar(f), Serialize(old_[f]), Serialize(new_[f]), None)] else []
  {
    SerializeIff(old_[f], new_[f], k);
    if Serialize(old_[g]) != Serialize(new_[g]) {
      OneEntry(FieldDiff(g, old_, new_)[0], Scalar(f), 0);
    }
  }

  lemma {:induction false} ScalarsConcernNobody(fs: seq<Field>, old_: Fields, new_: Fields, student: int)
    requires Total(old_) && Total(new_)
    ensures Concerning(ScalarDiff(fs, old_, new_), student) == []
  {
    if fs != [] {
      ScalarsConcernNobody(fs[..|fs| - 1], old_, new_, student);
      ConcerningConcat(ScalarDiff(fs[..|fs| - 1], old_, new_), FieldDiff(fs[|fs| - 1], old_, new_), student);
      if Serialize(old_[fs[|fs| - 1]]) != Serialize(new_[fs[|fs| - 1]]) {
        OneEntry(FieldDiff(fs[|fs| - 1], old_, new_)[0], TargetDue, student);
      }
    }
  }

  // ---------------------------------------------------------------- the diff of the targets

  type Targets = map<int, Target>

  function DueDiff(student: int, t: TargetState, r: TargetState): seq<Entry> {
    if t.due != r.due then [Entry(TargetUpdate, TargetDue, t.due, r.due, Some(student))] else []
  }

  function StatusDiff(student: int, t: TargetState, r: TargetState): seq<Entry> {
    if t.status == r.status then []
    else [Entry(TargetUpdate, TargetStatus, JText(t.status), JText(r.status), Some(student))]
  }

  /** For a student whose target stays: at most a due-date entry, then at most a status entry. */
  function KeptDiff(student: int, t: TargetState, r: TargetState): seq<Entry> {
    DueDiff(student, t, r) + StatusDiff(student, t, r)
  }

  /** The entries about one student, from the targets before and the targets asked for. */
  function StudentDiff(student: int, old_: Targets, new_: Targets): seq<Entry> {
    if student in old_ && student !in new_ then
      [Entry(TargetRemoved, TargetAssignment, JTarget(StateOf(old_[student])), JNull, Some(student))]
    else if student in old_ then
      KeptDiff(student, StateOf(old_[student]), StateOf(new_[student]))
    else if student in new_ then
      [Entry(TargetAdded, TargetAssignment, JNull, JTarget(StateOf(new_[student])), Some(student))]
    else []
  }

  function TargetDiff(students: seq<int>, old_: Targets, new_: Targets): seq<Entry> {
    if students == [] then []
    else TargetDiff(students[..|students| - 1], old_, new_) + StudentDiff(students[|students| - 1], old_, new_)
  }

  /** What the log says about one student's target: that it went, that it came, or what changed of it. */
  ghost predicate TellsOf(log: seq<Entry>, student: int, was: Option<Target>, now: Option<Target>) {
    match (was, now)
    case (None, None) => log == []
    case (Some(t), None) =>
      log == [Entry(TargetRemoved, TargetAssignment,
           JTarget(TargetState(Serialize(t.due), t.status)), JNull, Some(student))]
    case (None, Some(t)) =>
      log == [Entry(TargetAdded, TargetAssignment, JNull,
           JTarget(TargetState(Serialize(t.due), t.status)), Some(student))]
    case (Some(t), Some(r)) =>
      var due := Entry(TargetUpdate, TargetDue, Serialize(t.due), Serialize(r.due), Some(student));
      var status := Entry(TargetUpdate, TargetStatus, JText(t.status), JText(r.status), Some(student));
      && (Differ(t.due, r.due) && t.status != r.status ==> log == [due, status])
      && (Differ(t.due, r.due) && t.status == r.status ==> log == [due])
      && (!Differ(t.due, r.due) && t.status != r.status ==> log == [status])
      && (!Differ(t.due, r.due) && t.status == r.status ==> log == [])
  }

  function At(ts: Targets, student: int): Option<Target> {
    if student in ts then Some(ts[student]) else None
  }

  ghost predicate DueDates(ts: Targets) {
    forall s :: s in ts ==> OfKind(ts[s].due, InstantKind)
  }

  lemma StudentTells(student: int, old_: Targets, new_: Targets)
    requires DueDates(old_) && DueDates(new_)
    ensures TellsOf(StudentDiff(student, old_, new_), student, At(old_, student), At(new_, student))
    ensures forall other :: other != student ==> Concerning(StudentDiff(student, old_, new_), other) == []
    ensures Concerning(StudentDiff(student, old_, new_), student) == StudentDiff(student, old_, new_)
  {
    if student in old_ && student in new_ {
      SerializeIff(old_[student].due, new_[student].due, InstantKind);
    }
    AllConcern(StudentDiff(student, old_, new_), student);
  }

  lemma {:induction false} AllConcern(log: seq<Entry>, student: int)
    requires forall e :: e in log ==> e.student == Some(student)
    ensures Concerning(log, student) == log
    ensures forall other :: other != student ==> Concerning(log, other) == []
  {
    if log != [] {
      assert log == log[..|log| - 1] + [log[|log| - 1]];
      assert log[|log| - 1] in log;
      AllConcern(log[..|log| - 1], student);
    }
  }

  /** Of the students compared each one's entries tell what became of the target; of others there are none. */
  lemma {:induction false} TargetsTell(students: seq<int>, old_: Targets, new_: Targets, student: int)
    requires Distinct(students) && DueDates(old_) && DueDates(new_)
    ensures student in students ==>
              TellsOf(Concerning(TargetDiff(students, old_, new_), student), student,
                      At(old_, student), At(new_, student))
    ensures student !in students ==> Concerning(TargetDiff(students, old_, new_), student) == []
  {
    if students != [] {
      var front, last := students[..|students| - 1], students[|students| - 1];
      assert students == front + [last];
      TargetsTell(front, old_, new_, student);
      StudentTells(last, old_, new_);
      ConcerningConcat(TargetDiff(front, old_, new_), StudentDiff(last, old_, new_), student);
    }
  }

  lemma {:induction false} TargetsNoField(students: seq<int>, old_: Targets, new_: Targets, f: Field)
    ensures About(TargetDiff(students, old_, new_), Scalar(f)) == []
  {
    if students != [] {
      var front, last := students[..|students| - 1], students[|students| - 1];
      TargetsNoField(front, old_, new_, f);
      AboutConcat(TargetDiff(front, old_, new_), StudentDiff(last, old_, new_), Scalar(f));
      StudentNoField(last, old_, new_, f);
    }
  }

  lemma StudentNoField(student: int, old_: Targets, new_: Targets, f: Field)
    ensures About(StudentDiff(student, old_, new_), Scalar(f)) == []
  {
    NoneAbout(StudentDiff(student, old_, new_), Scalar(f));
  }

  lemma {:induction false} NoneAbout(log: seq<Entry>, subject: Subject)
    requires forall e :: e in log ==> e.subject != subject
    ensures About(log, subject) == []
  {
    if log != [] {
      assert log == log[..|log| - 1] + [log[|log| - 1]];
      assert log[|log| - 1] in log;
      NoneAbout(log[..|log| - 1], subject);
    }
  }

  predicate InMix(student: int, old_: Targets, new_: Targets, done: set<int>) {
    if student in done then student in new_ else student in old_
  }

  /** The targets, those of the students in done already as asked for. */
  ghost function MixedTargets(old_: Targets, new_: Targets, done: set<int>): map<int, TargetState> {
    map s | s in old_.Keys + new_.Keys && InMix(s, old_, new_, done) ::
      if s in done then StateOf(new_[s]) else StateOf(old_[s])
  }

  lemma StudentBridge(student: int, old_: Targets, new_: Targets, done: set<int>, fs: map<Field, Json>)
    requires student !in done
    ensures Bridges(StudentDiff(student, old_, new_), Snapshot(fs, MixedTargets(old_, new_, done)),
                    Snapshot(fs, MixedTargets(old_, new_, done + {student})))
  {
    var a, b := MixedTargets(old_, new_, done), MixedTargets(old_, new_, done + {student});
    var s, t := Snapshot(fs, a), Snapshot(fs, b);
    if student in old_ && student in new_ {
      KeptBridge(student, StateOf(old_[student]), StateOf(new_[student]), s, t);
      assert a[student] == StateOf(old_[student]) && b == a[student := StateOf(new_[student])];
    } else if student in old_ {
      assert b == a - {student} && a == b[student := StateOf(old_[student])];
      Single(StudentDiff(student, old_, new_), s, t);
    } else if student in new_ {
      assert a == b - {student} && b == a[student := StateOf(new_[student])];
      Single(StudentDiff(student, old_, new_), s, t);
    } else {
      assert a == b;
      Single(StudentDiff(student, old_, new_), s, t);
    }
  }

  lemma KeptBridge(student: int, x: TargetState, y: TargetState, s: Snapshot, t: Snapshot)
    ensures student in s.targets && s.targets[student] == x && t == s.(targets := s.targets[student := y]) ==>
              Bridges(KeptDiff(student, x, y), s, t)
  {
    if student in s.targets && s.targets[student] == x && t == s.(targets := s.targets[student := y]) {
      var due, status := DueDiff(student, x, y), StatusDiff(student, x, y);
      var mid := s.(targets := s.targets[student := x.(due := y.due)]);
      assert s.targets[student := x] == s.targets;
      assert mid.targets[student := y] == t.targets && t.targets[student := mid.targets[student]] == mid.targets;
      assert mid.targets[student := x] == s.targets;
      Single(due, s, mid);
      Single(status, mid, t);
      BridgesConcat(due, status, s, mid, t);
    }
  }

  lemma {:induction false} TargetsBridge(students: seq<int>, old_: Targets, new_: Targets, fs: map<Field, Json>)
    requires Distinct(students)
    ensures Bridges(TargetDiff(students, old_, new_), Snapshot(fs, MixedTargets(old_, new_, {})),
                    Snapshot(fs, MixedTargets(old_, new_, Elements(students))))
  {
    if students == [] {
      assert MixedTargets(old_, new_, Elements(students)) == MixedTargets(old_, new_, {});
    } else {
      var front, x := students[..|students| - 1], students[|students| - 1];
      ElementsSnoc(students);
      TargetsBridge(front, old_, new_, fs);
      StudentBridge(x, old_, new_, Elements(front), fs);
      BridgesConcat(TargetDiff(front, old_, new_), StudentDiff(x, old_, new_),
                    Snapshot(fs, MixedTargets(old_, new_, {})),
                    Snapshot(fs, MixedTargets(old_, new_, Elements(front))),
                    Snapshot(fs, MixedTargets(old_, new_, Elements(students))));
    }
  }
}
