/** The schedule routes that change blocks and overrides
    (backend/routers/schedule.py, lines 136-160, 168-179, 250-316 and 462-580). */
module Timetable {
  import opened Wrappers
  import opened Agenda
  import opened AgendaOrder

  datatype Error = NotFound | BadRequest | Conflict

  /** The subject id of a payload, looked up. */
  datatype SubjectRef = NoSubject | UnknownSubject | KnownSubject(subject: Subject)

  /** The rows of other tables that creating a schedule looks up; a school year has its dates. */
  datatype Directory = Directory(students: set<int>, years: map<int, (Date, Date)>)

  datatype BlockPayload = BlockPayload(
    subject: SubjectRef, day: int, start: Time, end: Time, location: Option<string>, notes: Option<string>)

  datatype OverridePayload = OverridePayload(
    scheduleId: int, date: Date, original: Option<int>, kind: OverrideType, subject: SubjectRef,
    start: Option<Time>, end: Option<Time>, reason: string)

  /** What ScheduleOverrideCreate.validate_override lets through. */
  predicate ValidOverride(p: OverridePayload) {
    && (p.kind != Add ==> p.original.Some?)
    && (p.kind == Add ==> p.subject != NoSubject)
    && (p.kind != Cancel ==> p.start.Some? && p.end.Some? && p.start.value < p.end.value)
    && (p.kind == Cancel ==> p.subject == NoSubject && p.start.None? && p.end.None?)
  }

  /** ScheduleOverrideCreate.validate_override: a cancellation loses its subject and times. */
  function ValidateOverride(p: OverridePayload): Option<OverridePayload> {
    if p.kind != Add && p.original.None? then None
    else if p.kind == Add && p.subject == NoSubject then None
    else if p.kind != Cancel && (p.start.None? || p.end.None? || p.start.value >= p.end.value) then None
    else if p.kind == Cancel then Some(p.(subject := NoSubject, start := None, end := None))
    else Some(p)
  }

  // ---------------------------------------------------------------- queries

  function FindSchedule(ss: seq<Schedule>, id: int): (r: Option<nat>)
    ensures r.Some? ==> r.value < |ss| && ss[r.value].id == id
    ensures r.None? ==> forall s :: s in ss ==> s.id != id
  {
    if ss == [] then None
    else if ss[|ss| - 1].id == id then Some(|ss| - 1)
    else FindSchedule(ss[..|ss| - 1], id)
  }

  /** The schedule holding a block. */
  function OwnerOf(ss: seq<Schedule>, block: int): (r: Option<nat>)
    ensures r.Some? ==> r.value < |ss| && FindBlock(ss[r.value].blocks, block).Some?
    ensures r.None? ==> forall s, b :: s in ss && b in s.blocks ==> b.id != block
  {
    if ss == [] then None
    else if FindBlock(ss[|ss| - 1].blocks, block).Some? then Some(|ss| - 1)
    else OwnerOf(ss[..|ss| - 1], block)
  }

  function OverrideIndex(os: seq<Override>, id: int): (r: Option<nat>)
    ensures r.Some? ==> r.value < |os| && os[r.value].id == id
    ensures r.None? ==> forall o :: o in os ==> o.id != id
  {
    if os == [] then None
    else if os[|os| - 1].id == id then Some(|os| - 1)
    else OverrideIndex(os[..|os| - 1], id)
  }

  /** The schedule holding an override, and its place there. */
  function FindOverride(ss: seq<Schedule>, id: int): (r: Option<(nat, nat)>)
    ensures r.Some? ==> r.value.0 < |ss| && r.value.1 < |ss[r.value.0].overrides|
                        && ss[r.value.0].overrides[r.value.1].id == id
    ensures r.None? ==> forall s, o :: s in ss && o in s.overrides ==> o.id != id
  {
    if ss == [] then None
    else match OverrideIndex(ss[|ss| - 1].overrides, id)
      case Some(k) => Some((|ss| - 1, k))
      case None => FindOverride(ss[..|ss| - 1], id)
  }

  predicate SameYear(s: Schedule, t: Schedule) {
    s.studentId == t.studentId && s.yearId == t.yearId
  }

  predicate Meets(b: Block, day: int, start: Time, end: Time) {
    b.day == day && b.start < end && b.end > start
  }

  /** The rows of _ensure_block_no_conflicts, the block being updated left out. */
  predicate BlockConflict(ss: seq<Schedule>, s: Schedule, day: int, start: Time, end: Time, current: Option<int>) {
    exists t, b :: t in ss && b in t.blocks && SameYear(s, t) && Meets(b, day, start, end) && Some(b.id) != current
  }

  /** The row of _ensure_unique_schedule_name. */
  predicate NameTaken(ss: seq<Schedule>, student: int, year: int, name: string) {
    exists s :: s in ss && s.studentId == student && s.yearId == year && s.name == name
  }

  predicate Covers(s: Schedule, student: int, date: Date) {
    s.studentId == student && s.yearStart <= date <= s.yearEnd
  }

  /** _get_student_schedules_for_date. */
  function Covering(ss: seq<Schedule>, student: int, date: Date): seq<Schedule> {
    if ss == [] then []
    else Covering(ss[..|ss| - 1], student, date)
         + if Covers(ss[|ss| - 1], student, date) then [ss[|ss| - 1]] else []
  }

  ghost function AgendaFor(ss: seq<Schedule>, student: int, date: Date): seq<Item> {
    DailyAgenda(Covering(ss, student, date), date, None)
  }

  predicate DuplicateOverride(s: Schedule, date: Date, original: Option<int>) {
    original.Some? && exists o :: o in s.overrides && o.date == date && o.original == original
  }

  predicate Clashes(it: Item, excluded: Option<int>, start: Time, end: Time) {
    !(excluded.Some? && it.blockId == excluded) && it.start < end && it.end > start
  }

  // ---------------------------------------------------------------- new tables

  function WithBlock(ss: seq<Schedule>, n: nat, b: Block): seq<Schedule>
    requires n < |ss|
  {
    ss[n := ss[n].(blocks := ss[n].blocks + [b])]
  }

  function BlockIndex(blocks: seq<Block>, id: int): (k: nat)
    requires FindBlock(blocks, id).Some?
    ensures k < |blocks| && blocks[k].id == id
  {
    if blocks[|blocks| - 1].id == id then |blocks| - 1 else BlockIndex(blocks[..|blocks| - 1], id)
  }

  /** The block with the payload's columns. */
  function BlockOf(id: int, p: BlockPayload): Block
    requires p.subject.KnownSubject?
  {
    Block(id, p.subject.subject, p.day, p.start, p.end, p.location, p.notes)
  }

  function WithChanged(ss: seq<Schedule>, n: nat, k: nat, p: BlockPayload): seq<Schedule>
    requires n < |ss| && k < |ss[n].blocks| && p.subject.KnownSubject?
  {
    ss[n := ss[n].(blocks := ss[n].blocks[k := BlockOf(ss[n].blocks[k].id, p)])]
  }

  /** The foreign key of overrides is ON DELETE SET NULL. */
  function Unlinked(os: seq<Override>, block: int): (r: seq<Override>)
    ensures |r| == |os|
    ensures forall i :: 0 <= i < |os| ==>
              r[i] == if os[i].original == Some(block) then os[i].(original := None) else os[i]
  {
    seq(|os|, i requires 0 <= i < |os| => if os[i].original == Some(block) then os[i].(original := None) else os[i])
  }

  function WithoutBlock(ss: seq<Schedule>, n: nat, k: nat): seq<Schedule>
    requires n < |ss| && k < |ss[n].blocks|
  {
    ss[n := Shrunk(ss[n], k)]
  }

  function Shrunk(s: Schedule, k: nat): Schedule
    requires k < |s.blocks|
  {
    s.(blocks := s.blocks[..k] + s.blocks[k + 1..], overrides := Unlinked(s.overrides, s.blocks[k].id))
  }

  function WithOverride(ss: seq<Schedule>, n: nat, o: Override): seq<Schedule>
    requires n < |ss|
  {
    ss[n := ss[n].(overrides := ss[n].overrides + [o])]
  }

  function WithoutOverride(ss: seq<Schedule>, n: nat, k: nat): seq<Schedule>
    requires n < |ss| && k < |ss[n].overrides|
  {
    ss[n := ss[n].(overrides := ss[n].overrides[..k] + ss[n].overrides[k + 1..])]
  }

  // ---------------------------------------------------------------- what the routes decide

  function CreateBlockResult(ss: seq<Schedule>, scheduleId: int, p: BlockPayload, id: int)
    : Result<seq<Schedule>, Error>
  {
    match FindSchedule(ss, scheduleId)
    case None => Err(NotFound)
    case Some(n) =>
      if !p.subject.KnownSubject? then Err(NotFound)
      else if BlockConflict(ss, ss[n], p.day, p.start, p.end, None) then Err(Conflict)
      else Ok(WithBlock(ss, n, BlockOf(id, p)))
  }

  function UpdateBlockResult(ss: seq<Schedule>, block: int, p: BlockPayload): Result<seq<Schedule>, Error> {
    match OwnerOf(ss, block)
    case None => Err(NotFound)
    case Some(n) =>
      if !p.subject.KnownSubject? then Err(NotFound)
      else if BlockConflict(ss, ss[n], p.day, p.start, p.end, Some(block)) then Err(Conflict)
      else Ok(WithChanged(ss, n, BlockIndex(ss[n].blocks, block), p))
  }

  function DeleteBlockResult(ss: seq<Schedule>, block: int): Result<seq<Schedule>, Error> {
    match OwnerOf(ss, block)
    case None => Err(NotFound)
    case Some(n) => Ok(WithoutBlock(ss, n, BlockIndex(ss[n].blocks, block)))
  }

  /** The subject a stored override gets: its own, or its block's when rescheduling. */
  function StoredSubject(ss: seq<Schedule>, n: nat, p: OverridePayload): Option<Subject>
    requires n < |ss|
  {
    if p.subject.KnownSubject? then Some(p.subject.subject)
    else if p.kind != Reschedule || p.original.None? then None
    else match FindBlock(ss[n].blocks, p.original.value) case None => None case Some(b) => Some(b.subject)
  }

  function NewOverride(ss: seq<Schedule>, n: nat, p: OverridePayload, id: int): Override
    requires n < |ss|
  {
    Override(id, p.date, p.original, p.kind, StoredSubject(ss, n, p), p.start, p.end, p.reason)
  }

  ghost predicate OverrideClash(ss: seq<Schedule>, s: Schedule, p: OverridePayload) {
    p.kind != Cancel && p.start.Some? && p.end.Some?
    && exists it :: it in AgendaFor(ss, s.studentId, p.date)
                    && Clashes(it, if p.kind == Reschedule then p.original else None, p.start.value, p.end.value)
  }

  ghost function CreateOverrideResult(ss: seq<Schedule>, p: OverridePayload, id: int): Result<seq<Schedule>, Error> {
    match FindSchedule(ss, p.scheduleId)
    case None => Err(NotFound)
    case Some(n) =>
      var s := ss[n];
      if p.original.Some? && OwnerOf(ss, p.original.value).None? then Err(NotFound)
      else if p.original.Some? && OwnerOf(ss, p.original.value) != Some(n) then Err(BadRequest)
      else if p.subject == UnknownSubject then Err(NotFound)
      else if p.date < s.yearStart || p.date > s.yearEnd then Err(BadRequest)
      else if DuplicateOverride(s, p.date, p.original) || OverrideClash(ss, s, p) then Err(Conflict)
      else Ok(WithOverride(ss, n, NewOverride(ss, n, p, id)))
  }

  // ---------------------------------------------------------------- the tables and their invariant

  ghost predicate BlocksApart(s: Schedule, t: Schedule) {
    forall a, b :: a in s.blocks && b in t.blocks && a.id != b.id ==> !Meets(a, b.day, b.start, b.end)
  }

  /** No two blocks of one student and school year overlap on a weekday, whatever their schedules. */
  ghost predicate BlocksDisjoint(ss: seq<Schedule>) {
    forall s, t :: s in ss && t in ss && SameYear(s, t) ==> BlocksApart(s, t)
  }

  ghost predicate IdsBelow(ss: seq<Schedule>, next: int) {
    forall s :: s in ss ==> s.id < next && (forall b :: b in s.blocks ==> b.id < next)
                            && (forall o :: o in s.overrides ==> o.id < next)
  }

  ghost predicate TablesOk(ss: seq<Schedule>, next: int) {
    WellFormed(ss) && WellTimed(ss) && BlocksDisjoint(ss) && IdsBelow(ss, next)
  }

  class ScheduleBook {
    var schedules: seq<Schedule>
    var nextId: int

    ghost predicate Valid()
      reads this
    {
      TablesOk(schedules, nextId)
    }

    constructor ()
      ensures Valid() && schedules == []
    {
      schedules := [];
      nextId := 1;
    }

    method CreateSchedule(dir: Directory, studentId: int, yearId: int, name: string) returns (error: Option<Error>)
      requires Valid()
      modifies this
      ensures Valid()
      ensures error == if studentId !in dir.students || yearId !in dir.years then Some(NotFound)
                       else if exists s :: s in old(schedules) && s.studentId == studentId && s.yearId == yearId
                                           && s.name == name
                       then Some(Conflict) else None
      ensures schedules == if error.Some? then old(schedules)
                           else old(schedules)
                                + [Schedule(old(nextId), studentId, yearId, dir.years[yearId].0, dir.years[yearId].1,
                                            name, [], [])]
    {
      if studentId !in dir.students || yearId !in dir.years {
        return Some(NotFound);
      }
      if NameTaken(schedules, studentId, yearId, name) {
        return Some(Conflict);
      }
      schedules := schedules + [Schedule(nextId, studentId, yearId, dir.years[yearId].0, dir.years[yearId].1, name, [],
                                         [])];
      nextId := nextId + 1;
      error := None;
    }

    method CreateBlock(scheduleId: int, p: BlockPayload) returns (error: Option<Error>)
      requires Valid() && p.start < p.end
      modifies this
      ensures Valid()
      ensures match CreateBlockResult(old(schedules), scheduleId, p, old(nextId))
              case Err(e) => error == Some(e) && schedules == old(schedules)
              case Ok(ss) => error == None && schedules == ss
    {
      var found := FindSchedule(schedules, scheduleId);
      if found.None? {
        return Some(NotFound);
      }
      if !p.subject.KnownSubject? {
        return Some(NotFound);
      }
      var n := found.value;
      if BlockConflict(schedules, schedules[n], p.day, p.start, p.end, None) {
        return Some(Conflict);
      }
      var block := BlockOf(nextId, p);
      BlockAdded(schedules, n, block, nextId);
      schedules := WithBlock(schedules, n, block);
      nextId := nextId + 1;
      error := None;
    }

    method UpdateBlock(blockId: int, p: BlockPayload) returns (error: Option<Error>)
      requires Valid() && p.start < p.end
      modifies this
      ensures Valid()
      ensures match UpdateBlockResult(old(schedules), blockId, p)
              case Err(e) => error == Some(e) && schedules == old(schedules)
              case Ok(ss) => error == None && schedules == ss
    {
      var found := OwnerOf(schedules, blockId);
      if found.None? {
        return Some(NotFound);
      }
      if !p.subject.KnownSubject? {
        return Some(NotFound);
      }
      var n := found.value;
      if BlockConflict(schedules, schedules[n], p.day, p.start, p.end, Some(blockId)) {
        return Some(Conflict);
      }
      var k := BlockIndex(schedules[n].blocks, blockId);
      BlockChanged(schedules, n, k, p, nextId);
      schedules := WithChanged(schedules, n, k, p);
      error := None;
    }

    method DeleteBlock(blockId: int) returns (error: Option<Error>)
      requires Valid()
      modifies this
      ensures Valid()
      ensures match DeleteBlockResult(old(schedules), blockId)
              case Err(e) => error == Some(e) && schedules == old(schedules)
              case Ok(ss) => error == None && schedules == ss
    {
      var found := OwnerOf(schedules, blockId);
      if found.None? {
        return Some(NotFound);
      }
      var n := found.value;
      var k := BlockIndex(schedules[n].blocks, blockId);
      BlockRemoved(schedules, n, k, nextId);
      schedules := WithoutBlock(schedules, n, k);
      error := None;
    }

    method CreateOverride(p: OverridePayload) returns (error: Option<Error>)
      requires Valid() && ValidOverride(p)
      modifies this
      ensures Valid()
      ensures match CreateOverrideResult(old(schedules), p, old(nextId))
              case Err(e) => error == Some(e) && schedules == old(schedules)
              case Ok(ss) => error == None && schedules == ss
    {
      var found := FindSchedule(schedules, p.scheduleId);
      if found.None? {
        return Some(NotFound);
      }
      var n := found.value;
      if p.original.Some? {
        var owner := OwnerOf(schedules, p.original.value);
        if owner.None? {
          return Some(NotFound);
        }
        if owner.value != n {
          return Some(BadRequest);
        }
      }
      if p.subject == UnknownSubject {
        return Some(NotFound);
      }
      if p.date < schedules[n].yearStart || p.date > schedules[n].yearEnd {
        return Some(BadRequest);
      }
      if DuplicateOverride(schedules[n], p.date, p.original) {
        return Some(Conflict);
      }
      var clash := FindOverrideClash(schedules[n], p);
      if clash {
        return Some(Conflict);
      }
      var override := NewOverride(schedules, n, p, nextId);
      OverrideAdded(schedules, n, override, nextId);
      schedules := WithOverride(schedules, n, override);
      nextId := nextId + 1;
      error := None;
    }

    /** _ensure_override_no_conflicts: the loop over the date's agenda. */
    method FindOverrideClash(s: Schedule, p: OverridePayload) returns (clash: bool)
      requires Valid()
      ensures clash == OverrideClash(schedules, s, p)
    {
      if p.kind == Cancel || p.start.None? || p.end.None? {
        return false;
      }
      CoveringWellFormed(schedules, s.studentId, p.date);
      var agenda := BuildDailyAgenda(Covering(schedules, s.studentId, p.date), p.date, None);
      var excluded := if p.kind == Reschedule then p.original else None;
      for i := 0 to |agenda|
        invariant forall j :: 0 <= j < i ==> !Clashes(agenda[j], excluded, p.start.value, p.end.value)
      {
        if excluded.Some? && agenda[i].blockId == excluded {
          continue;
        }
        if agenda[i].start < p.end.value && agenda[i].end > p.start.value {
          assert agenda[i] in AgendaFor(schedules, s.studentId, p.date);
          return true;
        }
      }
      clash := false;
    }

    /** No check of any kind: the row goes. */
    method DeleteOverride(overrideId: int) returns (error: Option<Error>)
      requires Valid()
      modifies this`schedules
      ensures Valid()
      ensures match FindOverride(old(schedules), overrideId)
              case None => error == Some(NotFound) && schedules == old(schedules)
              case Some((n, k)) => error == None && schedules == WithoutOverride(old(schedules), n, k)
    {
      var found := FindOverride(schedules, overrideId);
      if found.None? {
        return Some(NotFound);
      }
      var (n, k) := found.value;
      OverrideRemoved(schedules, n, k, nextId);
      schedules := WithoutOverride(schedules, n, k);
      error := None;
    }
  }

  // ---------------------------------------------------------------- the invariant is kept

  /** Replacing one schedule by one whose rows stay apart from the others'. */
  lemma ReplacedOk(ss: seq<Schedule>, n: nat, s: Schedule, next: int, next': int)
    requires TablesOk(ss, next) && n < |ss| && next <= next'
    requires UniqueRows(s) && Timed(s) && SameYear(s, ss[n]) && IdsBelow([s], next')
    requires s.id == ss[n].id
    requires forall b :: b in s.blocks ==> b.id >= next || exists a :: a in ss[n].blocks && a.id == b.id
    requires forall o :: o in s.overrides ==> o.id >= next || exists a :: a in ss[n].overrides && a.id == o.id
    requires BlocksApart(s, s)
    requires forall i :: 0 <= i < |ss| && i != n && SameYear(s, ss[i]) ==> BlocksApart(s, ss[i])
    ensures TablesOk(ss[n := s], next')
  {
    var ss' := ss[n := s];
    assert s in [s];
    forall i, j | 0 <= i < j < |ss| ensures Apart(ss'[i], ss'[j]) {
      assert Apart(ss[i], ss[j]);
      assert ss[i] in ss && ss[j] in ss;
    }
    ReplacedDisjoint(ss, n, s);
  }

  lemma ReplacedDisjoint(ss: seq<Schedule>, n: nat, s: Schedule)
    requires BlocksDisjoint(ss) && n < |ss| && SameYear(s, ss[n]) && BlocksApart(s, s)
    requires forall i :: 0 <= i < |ss| && i != n && SameYear(s, ss[i]) ==> BlocksApart(s, ss[i])
    ensures BlocksDisjoint(ss[n := s])
  {
    var ss' := ss[n := s];
    forall a, b | a in ss' && b in ss' && SameYear(a, b) ensures BlocksApart(a, b) {
      var i :| 0 <= i < |ss'| && ss'[i] == a;
      var j :| 0 <= j < |ss'| && ss'[j] == b;
      if i != n && j != n {
        assert ss[i] in ss && ss[j] in ss;
      } else if i == n && j != n {
        assert BlocksApart(s, ss[j]);
      } else if j == n && i != n {
        assert BlocksApart(s, ss[i]);
      }
    }
  }

  lemma RowsWithBlock(s: Schedule, b: Block)
    requires UniqueRows(s) && Timed(s) && b.start < b.end && forall x :: x in s.blocks ==> x.id != b.id
    ensures var t := s.(blocks := s.blocks + [b]);
            UniqueRows(t) && Timed(t) && forall x :: x in t.blocks <==> x in s.blocks || x == b
  {
    var t := s.(blocks := s.blocks + [b]);
    forall o | o in t.overrides && o.original.Some? ensures OwnBlock(t, o.original.value) {
      assert OwnBlock(s, o.original.value);
      var x :| x in s.blocks && x.id == o.original.value;
      assert x in t.blocks;
    }
  }

  lemma BlockAdded(ss: seq<Schedule>, n: nat, b: Block, next: int)
    requires TablesOk(ss, next) && n < |ss| && b.id == next && b.start < b.end
    requires !BlockConflict(ss, ss[n], b.day, b.start, b.end, None)
    ensures TablesOk(WithBlock(ss, n, b), next + 1)
  {
    var s := ss[n].(blocks := ss[n].blocks + [b]);
    assert ss[n] in ss;
    RowsWithBlock(ss[n], b);
    forall i | 0 <= i < |ss| && SameYear(s, ss[i]) ensures BlocksApart(s, ss[i]) {
      assert ss[i] in ss && BlocksApart(ss[n], ss[i]);
    }
    assert BlocksApart(s, s);
    ReplacedOk(ss, n, s, next, next + 1);
  }

  lemma RowsWithChanged(s: Schedule, k: nat, b: Block)
    requires UniqueRows(s) && Timed(s) && k < |s.blocks| && b.id == s.blocks[k].id && b.start < b.end
    ensures UniqueRows(s.(blocks := s.blocks[k := b])) && Timed(s.(blocks := s.blocks[k := b]))
  {
    var t := s.(blocks := s.blocks[k := b]);
    forall o | o in t.overrides && o.original.Some? ensures OwnBlock(t, o.original.value) {
      assert OwnBlock(s, o.original.value);
      var x :| x in s.blocks && x.id == o.original.value;
      var i :| 0 <= i < |s.blocks| && s.blocks[i] == x;
      assert t.blocks[i] in t.blocks;
    }
  }

  lemma BlockChanged(ss: seq<Schedule>, n: nat, k: nat, p: BlockPayload, next: int)
    requires TablesOk(ss, next) && n < |ss| && k < |ss[n].blocks| && p.start < p.end && p.subject.KnownSubject?
    requires !BlockConflict(ss, ss[n], p.day, p.start, p.end, Some(ss[n].blocks[k].id))
    ensures TablesOk(WithChanged(ss, n, k, p), next)
  {
    var old_, b := ss[n].blocks, BlockOf(ss[n].blocks[k].id, p);
    var s := ss[n].(blocks := old_[k := b]);
    assert ss[n] in ss && old_[k] in old_;
    RowsWithChanged(ss[n], k, b);
    assert forall x :: x in s.blocks ==> x in old_ || x == b;
    forall i | 0 <= i < |ss| && SameYear(s, ss[i]) ensures BlocksApart(s, ss[i]) {
      assert ss[i] in ss && BlocksApart(ss[n], ss[i]);
    }
    assert BlocksApart(s, ss[n]);
    ReplacedOk(ss, n, s, next, next);
  }

  lemma KeptBlock(s: Schedule, k: nat, x: Block)
    requires k < |s.blocks| && UniqueRows(s)
    ensures x in Shrunk(s, k).blocks <==> x in s.blocks && x.id != s.blocks[k].id
  {
    var t := Shrunk(s, k);
    if x in s.blocks && x.id != s.blocks[k].id {
      var i :| 0 <= i < |s.blocks| && s.blocks[i] == x;
      assert t.blocks[if i < k then i else i - 1] == x;
    }
    if x in t.blocks {
      var i :| 0 <= i < |t.blocks| && t.blocks[i] == x;
      assert x == s.blocks[if i < k then i else i + 1];
    }
  }

  /** An override of a schedule that has lost a block: it names another block, or none. */
  lemma KeptOverride(s: Schedule, k: nat, o: Override)
    requires UniqueRows(s) && Timed(s) && k < |s.blocks| && o in Shrunk(s, k).overrides
    ensures exists a :: a in s.overrides && a.id == o.id
    ensures o.original.Some? ==> OwnBlock(Shrunk(s, k), o.original.value)
    ensures o.start.Some? && o.end.Some? ==> o.start.value < o.end.value
  {
    var t := Shrunk(s, k);
    var i :| 0 <= i < |t.overrides| && t.overrides[i] == o;
    var a := s.overrides[i];
    assert a in s.overrides && a.id == o.id;
    if o.original.Some? {
      assert OwnBlock(s, o.original.value);
      var x :| x in s.blocks && x.id == o.original.value;
      KeptBlock(s, k, x);
    }
  }

  lemma RowsWithoutBlock(s: Schedule, k: nat)
    requires UniqueRows(s) && Timed(s) && k < |s.blocks|
    ensures UniqueRows(Shrunk(s, k)) && Timed(Shrunk(s, k))
    ensures forall x :: x in Shrunk(s, k).blocks ==> x in s.blocks
    ensures forall o :: o in Shrunk(s, k).overrides ==> exists a :: a in s.overrides && a.id == o.id
  {
    var t := Shrunk(s, k);
    forall o | o in t.overrides
      ensures exists a :: a in s.overrides && a.id == o.id
      ensures o.original.Some? ==> OwnBlock(t, o.original.value)
      ensures o.start.Some? && o.end.Some? ==> o.start.value < o.end.value
    {
      KeptOverride(s, k, o);
    }
    forall x | x in t.blocks ensures x in s.blocks {
      KeptBlock(s, k, x);
    }
  }

  lemma BlockRemoved(ss: seq<Schedule>, n: nat, k: nat, next: int)
    requires TablesOk(ss, next) && n < |ss| && k < |ss[n].blocks|
    ensures TablesOk(WithoutBlock(ss, n, k), next)
  {
    var s := WithoutBlock(ss, n, k)[n];
    assert ss[n] in ss && s == Shrunk(ss[n], k);
    RowsWithoutBlock(ss[n], k);
    forall i | 0 <= i < |ss| && SameYear(s, ss[i]) ensures BlocksApart(s, ss[i]) {
      assert ss[i] in ss && BlocksApart(ss[n], ss[i]);
    }
    assert BlocksApart(s, ss[n]);
    ReplacedOk(ss, n, s, next, next);
  }

  lemma OverrideAdded(ss: seq<Schedule>, n: nat, o: Override, next: int)
    requires TablesOk(ss, next) && n < |ss| && o.id == next
    requires o.start.Some? && o.end.Some? ==> o.start.value < o.end.value
    requires o.original.Some? ==> OwnerOf(ss, o.original.value) == Some(n)
    ensures TablesOk(WithOverride(ss, n, o), next + 1)
  {
    var s := ss[n].(overrides := ss[n].overrides + [o]);
    assert ss[n] in ss;
    assert forall x :: x in s.overrides <==> x in ss[n].overrides || x == o;
    forall x | x in s.overrides && x.original.Some? ensures OwnBlock(s, x.original.value) {
      if x == o {
        assert FindBlock(ss[n].blocks, o.original.value).Some?;
      } else {
        assert OwnBlock(ss[n], x.original.value);
      }
    }
    assert BlocksApart(s, s) by { assert BlocksApart(ss[n], ss[n]); }
    forall i | 0 <= i < |ss| && SameYear(s, ss[i]) ensures BlocksApart(s, ss[i]) {
      assert ss[i] in ss && BlocksApart(ss[n], ss[i]);
    }
    ReplacedOk(ss, n, s, next, next + 1);
  }

  lemma OverrideRemoved(ss: seq<Schedule>, n: nat, k: nat, next: int)
    requires TablesOk(ss, next) && n < |ss| && k < |ss[n].overrides|
    ensures TablesOk(WithoutOverride(ss, n, k), next)
  {
    var os := ss[n].overrides;
    var s := ss[n].(overrides := os[..k] + os[k + 1..]);
    assert ss[n] in ss;
    assert forall x :: x in s.overrides ==> x in os;
    forall x | x in s.overrides && x.original.Some? ensures OwnBlock(s, x.original.value) {
      assert OwnBlock(ss[n], x.original.value);
    }
    assert BlocksApart(s, s) by { assert BlocksApart(ss[n], ss[n]); }
    forall i | 0 <= i < |ss| && SameYear(s, ss[i]) ensures BlocksApart(s, ss[i]) {
      assert ss[i] in ss && BlocksApart(ss[n], ss[i]);
    }
    ReplacedOk(ss, n, s, next, next);
  }

  // ---------------------------------------------------------------- schedules covering a date

  lemma {:induction false} InCovering(ss: seq<Schedule>, student: int, date: Date, s: Schedule)
    ensures s in Covering(ss, student, date) <==> s in ss && Covers(s, student, date)
  {
    if ss != [] {
      InCovering(ss[..|ss| - 1], student, date, s);
      assert ss == ss[..|ss| - 1] + [ss[|ss| - 1]];
    }
  }

  lemma {:induction false} CoveringWellFormed(ss: seq<Schedule>, student: int, date: Date)
    requires WellFormed(ss)
    ensures WellFormed(Covering(ss, student, date))
  {
    if ss != [] {
      var n := |ss| - 1;
      assert forall s :: s in ss[..n] ==> s in ss;
      CoveringWellFormed(ss[..n], student, date);
      assert UniqueRows(ss[n]);
      LastApart(ss, student, date);
      WellFormedSnoc(Covering(ss[..n], student, date), ss[n]);
      assert Covering(ss[..n], student, date) + [] == Covering(ss[..n], student, date);
    }
  }

  ghost predicate ApartFrom(c: seq<Schedule>, s: Schedule) {
    forall i :: 0 <= i < |c| ==> Apart(c[i], s)
  }

  lemma WellFormedSnoc(c: seq<Schedule>, s: Schedule)
    requires WellFormed(c) && UniqueRows(s) && ApartFrom(c, s)
    ensures WellFormed(c + [s])
  {
  }

  lemma LastApart(ss: seq<Schedule>, student: int, date: Date)
    requires WellFormed(ss) && ss != []
    ensures ApartFrom(Covering(ss[..|ss| - 1], student, date), ss[|ss| - 1])
  {
    var n := |ss| - 1;
    var c := Covering(ss[..n], student, date);
    forall i | 0 <= i < |c| ensures Apart(c[i], ss[n]) {
      assert c[i] in c;
      InCovering(ss[..n], student, date, c[i]);
      var j :| 0 <= j < n && ss[j] == c[i];
      assert Apart(ss[j], ss[n]);
    }
  }
}
