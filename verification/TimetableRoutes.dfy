/** What the schedule routes decide and leave, in the rows' own columns
    (backend/routers/schedule.py, lines 136-179, 250-316 and 462-580). */
module TimetableRoutes {
  import opened Wrappers
  import opened Agenda
  import opened AgendaOrder
  import opened AgendaItems
  import opened Timetable
  import opened OverrideEffects

  // ---------------------------------------------------------------- sharing a moment

  predicate During(t: Time, start: Time, end: Time) {
    start <= t < end
  }

  /** Two periods have a moment in common. */
  ghost predicate Share(start: Time, end: Time, from: Time, to: Time) {
    exists t :: During(t, start, end) && During(t, from, to)
  }

  lemma ShareIff(start: Time, end: Time, from: Time, to: Time)
    requires start < end && from < to
    ensures Share(start, end, from, to) <==> start < to && from < end
  {
    if start < to && from < end {
      var t := if start >= from then start else from;
      assert During(t, start, end) && During(t, from, to);
    }
  }

  lemma OverlapIff(a: Item, b: Item)
    requires a.start < a.end && b.start < b.end
    ensures Overlap(a, b) <==> Share(a.start, a.end, b.start, b.end)
  {
    ShareIff(a.start, a.end, b.start, b.end);
  }

  // ---------------------------------------------------------------- blocks

  /** A block other than the current one, of the same student and school year and on the same weekday, has a moment in
      common with the time wanted. */
  ghost predicate Occupied(ss: seq<Schedule>, s: Schedule, day: int, start: Time, end: Time, current: Option<int>) {
    exists t, b :: t in ss && b in t.blocks && t.studentId == s.studentId && t.yearId == s.yearId
                   && b.day == day && Share(b.start, b.end, start, end) && Some(b.id) != current
  }

  /** The conflict query finds exactly such blocks. */
  lemma ConflictIff(ss: seq<Schedule>, s: Schedule, day: int, start: Time, end: Time, current: Option<int>)
    requires WellTimed(ss) && start < end
    ensures BlockConflict(ss, s, day, start, end, current) <==> Occupied(ss, s, day, start, end, current)
  {
    forall t, b | t in ss && b in t.blocks ensures Meets(b, day, start, end)
                                                   <==> b.day == day && Share(b.start, b.end, start, end)
    {
      assert Timed(t);
      ShareIff(b.start, b.end, start, end);
    }
  }

  /** In a timetable kept by the routes no moment of a weekday has two blocks of one student and school year. */
  lemma OneBlockAtATime(ss: seq<Schedule>, next: int, s: Schedule, t: Schedule, a: Block, b: Block)
    requires TablesOk(ss, next) && s in ss && t in ss && a in s.blocks && b in t.blocks && a.id != b.id
    requires s.studentId == t.studentId && s.yearId == t.yearId && a.day == b.day
    ensures !Share(a.start, a.end, b.start, b.end)
  {
    assert Timed(s) && Timed(t) && SameYear(s, t) && BlocksApart(s, t);
    ShareIff(a.start, a.end, b.start, b.end);
  }

  /** The same rows but for schedule n, of which only the blocks and overrides may differ. */
  ghost predicate OnlyRowsOf(ss: seq<Schedule>, ss': seq<Schedule>, n: nat) {
    && |ss'| == |ss| && n < |ss| && (forall i :: 0 <= i < |ss| && i != n ==> ss'[i] == ss[i])
    && ss'[n].(blocks := ss[n].blocks, overrides := ss[n].overrides) == ss[n]
  }

  predicate HasColumns(b: Block, p: BlockPayload) {
    && p.subject == KnownSubject(b.subject) && b.day == p.day && b.start == p.start && b.end == p.end
    && b.location == p.location && b.notes == p.notes
  }

  /** Creating a block: refused as not found without its schedule or subject, as a conflict when the time is occupied;
      otherwise one block with the payload's columns comes after the schedule's others. */
  lemma CreateBlockDoes(ss: seq<Schedule>, next: int, scheduleId: int, p: BlockPayload)
    requires TablesOk(ss, next) && p.start < p.end
    ensures match CreateBlockResult(ss, scheduleId, p, next)
            case Err(e) =>
              if (forall s :: s in ss ==> s.id != scheduleId) || !p.subject.KnownSubject? then e == NotFound
              else e == Conflict && exists s :: s in ss && s.id == scheduleId
                                          && Occupied(ss, s, p.day, p.start, p.end, None)
            case Ok(ss') =>
              exists n: nat :: OnlyRowsOf(ss, ss', n) && ss[n].id == scheduleId && ss'[n].overrides == ss[n].overrides
                && !Occupied(ss, ss[n], p.day, p.start, p.end, None)
                && |ss'[n].blocks| == |ss[n].blocks| + 1 && ss'[n].blocks[..|ss[n].blocks|] == ss[n].blocks
                && ss'[n].blocks[|ss[n].blocks|].id == next && HasColumns(ss'[n].blocks[|ss[n].blocks|], p)
  {
    var found := FindSchedule(ss, scheduleId);
    if found.Some? && p.subject.KnownSubject? {
      var n := found.value;
      ConflictIff(ss, ss[n], p.day, p.start, p.end, None);
      assert ss[n] in ss;
      if !BlockConflict(ss, ss[n], p.day, p.start, p.end, None) {
        var ss' := WithBlock(ss, n, BlockOf(next, p));
        assert OnlyRowsOf(ss, ss', n);
      }
    }
  }

  /** Changing a block: the same with the block's own time left out; otherwise just that block gets the payload's
      columns and keeps its id and place. */
  lemma UpdateBlockDoes(ss: seq<Schedule>, next: int, blockId: int, p: BlockPayload)
    requires TablesOk(ss, next) && p.start < p.end
    ensures match UpdateBlockResult(ss, blockId, p)
            case Err(e) =>
              if (forall s, b :: s in ss && b in s.blocks ==> b.id != blockId)
                  || !p.subject.KnownSubject? then e == NotFound
              else e == Conflict && exists s, b :: s in ss && b in s.blocks && b.id == blockId
                                                   && Occupied(ss, s, p.day, p.start, p.end, Some(blockId))
            case Ok(ss') =>
              exists n: nat, k: nat :: OnlyRowsOf(ss, ss', n) && ss'[n].overrides == ss[n].overrides
                && k < |ss[n].blocks| && ss[n].blocks[k].id == blockId && |ss'[n].blocks| == |ss[n].blocks|
                && ss'[n].blocks == ss[n].blocks[k := ss'[n].blocks[k]]
                && ss'[n].blocks[k].id == blockId && HasColumns(ss'[n].blocks[k], p)
                && !Occupied(ss, ss[n], p.day, p.start, p.end, Some(blockId))
  {
    var found := OwnerOf(ss, blockId);
    if found.Some? && p.subject.KnownSubject? {
      var n := found.value;
      var k := BlockIndex(ss[n].blocks, blockId);
      assert ss[n] in ss && ss[n].blocks[k] in ss[n].blocks;
      ConflictIff(ss, ss[n], p.day, p.start, p.end, Some(blockId));
      if !BlockConflict(ss, ss[n], p.day, p.start, p.end, Some(blockId)) {
        var ss' := WithChanged(ss, n, k, p);
        assert OnlyRowsOf(ss, ss', n);
      }
    }
  }

  /** Deleting a block: it goes from its schedule, whose overrides of it stay without naming it. */
  lemma DeleteBlockDoes(ss: seq<Schedule>, blockId: int)
    ensures match DeleteBlockResult(ss, blockId)
            case Err(e) => e == NotFound && forall s, b :: s in ss && b in s.blocks ==> b.id != blockId
            case Ok(ss') =>
              exists n: nat, k: nat :: OnlyRowsOf(ss, ss', n)
                && k < |ss[n].blocks| && ss[n].blocks[k].id == blockId
                && ss'[n].blocks == ss[n].blocks[..k] + ss[n].blocks[k + 1..]
                && |ss'[n].overrides| == |ss[n].overrides|
                && forall i :: 0 <= i < |ss[n].overrides| ==>
                     var o, o' := ss[n].overrides[i], ss'[n].overrides[i];
                     o' == o.(original := o'.original)
                     && o'.original == if o.original == Some(blockId) then None else o.original
  {
    var found := OwnerOf(ss, blockId);
    if found.Some? {
      var n := found.value;
      var k := BlockIndex(ss[n].blocks, blockId);
      var ss' := WithoutBlock(ss, n, k);
      assert OnlyRowsOf(ss, ss', n);
    }
  }

  // ---------------------------------------------------------------- overrides

  /** The row an accepted override is stored as: the payload's columns, and a subject of its own if it names one, or
      else that of the block it reschedules. */
  predicate IsStored(s: Schedule, p: OverridePayload, next: int, o: Override) {
    && o.id == next && o.date == p.date && o.original == p.original && o.kind == p.kind
    && o.start == p.start && o.end == p.end && o.reason == p.reason
    && (p.subject.KnownSubject? ==> o.subject == Some(p.subject.subject))
    && (!p.subject.KnownSubject? && p.kind == Reschedule ==>
          forall b :: b in s.blocks && p.original == Some(b.id) ==> o.subject == Some(b.subject))
    && (!p.subject.KnownSubject? && (p.kind != Reschedule || p.original == None) ==> o.subject == None)
  }

  /** The agenda of the date has an item, other than the rescheduled block's, with a moment in common. */
  ghost predicate Crowded(ss: seq<Schedule>, s: Schedule, p: OverridePayload) {
    p.kind != Cancel && p.start.Some? && p.end.Some?
    && exists it :: it in AgendaFor(ss, s.studentId, p.date)
                    && !(p.kind == Reschedule && p.original.Some? && it.blockId == p.original)
                    && Share(it.start, it.end, p.start.value, p.end.value)
  }

  lemma ItemsTimed(ss: seq<Schedule>, next: int, student: int, date: Date, it: Item)
    requires TablesOk(ss, next) && it in AgendaFor(ss, student, date)
    ensures it.start < it.end
  {
    var c := Covering(ss, student, date);
    CoveringWellFormed(ss, student, date);
    AgendaIff(c, date, None, it);
    var s :| s in c && Holds(s, date, None, it);
    InCovering(ss, student, date, s);
    assert Timed(s);
  }

  lemma ClashIff(ss: seq<Schedule>, next: int, s: Schedule, p: OverridePayload)
    requires TablesOk(ss, next) && ValidOverride(p)
    ensures OverrideClash(ss, s, p) <==> Crowded(ss, s, p)
  {
    if p.kind != Cancel && p.start.Some? && p.end.Some? {
      forall it | it in AgendaFor(ss, s.studentId, p.date)
        ensures it.start < p.end.value && it.end > p.start.value
                <==> Share(it.start, it.end, p.start.value, p.end.value)
      {
        ItemsTimed(ss, next, s.studentId, p.date, it);
        ShareIff(it.start, it.end, p.start.value, p.end.value);
      }
    }
  }

  /** The block named stands in this schedule. */
  ghost predicate Names(s: Schedule, p: OverridePayload) {
    p.original.Some? ==> exists b :: b in s.blocks && p.original == Some(b.id)
  }

  /** Another override of the same block on the same date. */
  ghost predicate Repeated(s: Schedule, p: OverridePayload) {
    exists o :: o in s.overrides && o.date == p.date && o.original == p.original && o.original.Some?
  }

  /** The schema refuses a change of no block, an extra class of no subject, and a class whose start and end are not
      given in order; what it lets through is exactly what it leaves as it is. */
  lemma ValidatedIff(p: OverridePayload)
    ensures ValidateOverride(p) == None
            <==> || (p.kind != Add && p.original == None) || (p.kind == Add && p.subject == NoSubject)
                 || (p.kind != Cancel && forall a, b :: p.start == Some(a) && p.end == Some(b) ==> b <= a)
    ensures ValidOverride(p) <==> ValidateOverride(p) == Some(p)
    ensures ValidateOverride(p).Some? ==>
              ValidateOverride(p).value == if p.kind == Cancel then p.(subject := NoSubject, start := None, end := None)
                                           else p
  {
  }

  /** Creating an override is accepted exactly when its schedule and subject are known, its block stands in that
      schedule and is not overridden that day, the date is in the school year, and the day has room; then one row is
      added. */
  lemma CreateOverrideIff(ss: seq<Schedule>, next: int, p: OverridePayload)
    requires TablesOk(ss, next) && ValidOverride(p)
    ensures CreateOverrideResult(ss, p, next).Ok?
            <==> exists s :: s in ss && s.id == p.scheduleId && Names(s, p) && p.subject != UnknownSubject
                             && s.yearStart <= p.date <= s.yearEnd && !Repeated(s, p) && !Crowded(ss, s, p)
    ensures CreateOverrideResult(ss, p, next).Ok? ==>
              var ss' := CreateOverrideResult(ss, p, next).value;
              exists n: nat :: OnlyRowsOf(ss, ss', n) && ss[n].id == p.scheduleId && ss'[n].blocks == ss[n].blocks
                && |ss'[n].overrides| == |ss[n].overrides| + 1
                && ss'[n].overrides[..|ss[n].overrides|] == ss[n].overrides
                && IsStored(ss[n], p, next, ss'[n].overrides[|ss[n].overrides|])
  {
    var found := FindSchedule(ss, p.scheduleId);
    if found.Some? {
      var n := found.value;
      assert ss[n] in ss;
      OneSchedule(ss, n);
      NamesIff(ss, n, p);
      ClashIff(ss, next, ss[n], p);
      if CreateOverrideResult(ss, p, next).Ok? {
        StoredIs(ss, n, p, next);
        assert OnlyRowsOf(ss, WithOverride(ss, n, NewOverride(ss, n, p, next)), n);
      }
    }
  }

  /** Which refusal: an unknown schedule, block or subject is not found, another schedule's block or a date outside the
      year is a bad request, and what is taken conflicts, in this order. */
  lemma CreateOverrideRefusal(ss: seq<Schedule>, next: int, p: OverridePayload, n: nat)
    requires TablesOk(ss, next) && ValidOverride(p) && CreateOverrideResult(ss, p, next).Err?
    ensures (forall s :: s in ss ==> s.id != p.scheduleId) ==> CreateOverrideResult(ss, p, next) == Err(NotFound)
    ensures n < |ss| && ss[n].id == p.scheduleId ==>
              var e := CreateOverrideResult(ss, p, next).error;
              if p.original.Some? && (forall s, b :: s in ss && b in s.blocks ==> b.id != p.original.value)
                  then e == NotFound
              else if !Names(ss[n], p) then e == BadRequest
              else if p.subject == UnknownSubject then e == NotFound
              else if !(ss[n].yearStart <= p.date <= ss[n].yearEnd) then e == BadRequest
              else e == Conflict
  {
    var found := FindSchedule(ss, p.scheduleId);
    if n < |ss| && ss[n].id == p.scheduleId {
      assert ss[n] in ss;
      OneSchedule(ss, found.value);
      NamesIff(ss, found.value, p);
      assert found.value == n by {
        assert found.value < n ==> Apart(ss[found.value], ss[n]);
        assert n < found.value ==> Apart(ss[n], ss[found.value]);
      }
    }
  }

  lemma OneSchedule(ss: seq<Schedule>, n: nat)
    requires WellFormed(ss) && n < |ss|
    ensures forall s :: s in ss && s.id == ss[n].id ==> s == ss[n]
  {
    forall s | s in ss && s.id == ss[n].id ensures s == ss[n] {
      var i :| 0 <= i < |ss| && ss[i] == s;
      assert i < n ==> Apart(ss[i], ss[n]);
      assert n < i ==> Apart(ss[n], ss[i]);
    }
  }

  lemma NamesIff(ss: seq<Schedule>, n: nat, p: OverridePayload)
    requires WellFormed(ss) && n < |ss|
    ensures Names(ss[n], p) <==> p.original.None? || OwnerOf(ss, p.original.value) == Some(n)
  {
    if p.original.Some? {
      var owner := OwnerOf(ss, p.original.value);
      assert ss[n] in ss;
      if owner.Some? {
        var x := FindBlock(ss[owner.value].blocks, p.original.value).value;
        forall b | b in ss[n].blocks && p.original == Some(b.id) ensures owner.value == n {
          OneOwner(ss, owner.value, n, x, b);
        }
      }
    }
  }

  lemma OneOwner(ss: seq<Schedule>, i: nat, j: nat, a: Block, b: Block)
    requires WellFormed(ss) && i < |ss| && j < |ss| && a in ss[i].blocks && b in ss[j].blocks && a.id == b.id
    ensures i == j
  {
    assert i < j ==> Apart(ss[i], ss[j]);
    assert j < i ==> Apart(ss[j], ss[i]);
  }

  lemma StoredIs(ss: seq<Schedule>, n: nat, p: OverridePayload, next: int)
    requires WellFormed(ss) && n < |ss|
    ensures IsStored(ss[n], p, next, NewOverride(ss, n, p, next))
  {
    assert ss[n] in ss && UniqueRows(ss[n]);
    AboutIff(ss[n], NewOverride(ss, n, p, next));
    forall b | b in ss[n].blocks && p.original == Some(b.id) ensures FindBlock(ss[n].blocks, b.id) == Some(b) {
      assert IsAbout(ss[n], NewOverride(ss, n, p, next), b);
    }
  }

  /** Deleting an override: just that row goes. */
  lemma DeleteOverrideDoes(ss: seq<Schedule>, id: int)
    ensures match FindOverride(ss, id)
            case None => forall s, o :: s in ss && o in s.overrides ==> o.id != id
            case Some(at) =>
              && at.0 < |ss| && at.1 < |ss[at.0].overrides| && ss[at.0].overrides[at.1].id == id
              && var ss' := WithoutOverride(ss, at.0, at.1);
                 OnlyRowsOf(ss, ss', at.0) && ss'[at.0].blocks == ss[at.0].blocks
                 && |ss'[at.0].overrides| == |ss[at.0].overrides| - 1
                 && (forall i :: 0 <= i < at.1 ==> ss'[at.0].overrides[i] == ss[at.0].overrides[i])
                 && (forall i :: at.1 < i < |ss[at.0].overrides| ==>
                        ss'[at.0].overrides[i - 1] == ss[at.0].overrides[i])
  {
  }

  /** The schedules looked at on a date: the student's whose school year holds it, in their order. */
  lemma CoveringIff(ss: seq<Schedule>, student: int, date: Date, s: Schedule)
    ensures s in Covering(ss, student, date)
            <==> s in ss && s.studentId == student && s.yearStart <= date && date <= s.yearEnd
  {
    InCovering(ss, student, date, s);
  }
}
