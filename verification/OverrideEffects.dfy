/** What creating or deleting an override does to a student's agendas
    (backend/routers/schedule.py, lines 272-316, 538-567 and 571-580). */
module OverrideEffects {
  import opened Wrappers
  import opened Agenda
  import opened AgendaOrder
  import opened Timetable

  // ---------------------------------------------------------------- other dates, other students

  lemma OverrideElsewhere(s: Schedule, o: Override, date: Date)
    requires o.date != date
    ensures ScheduleEntries(s.(overrides := s.overrides + [o]), date, None) == ScheduleEntries(s, date, None)
  {
    var t := s.(overrides := s.overrides + [o]);
    assert t.overrides[..|s.overrides|] == s.overrides;
    assert Hidden(t.overrides, date, None) == Hidden(s.overrides, date, None) by {
      assert forall x :: x in t.overrides <==> x in s.overrides || x == o;
    }
    SameBlockEntries(s, t, s.blocks, date, Hidden(s.overrides, date, None));
    SameOverrideEntries(s, t, s.overrides, date);
  }

  lemma {:induction false} SameBlockEntries(s: Schedule, t: Schedule, blocks: seq<Block>, date: Date, hidden: set<int>)
    requires s.id == t.id && s.name == t.name
    ensures BlockEntries(s, blocks, date, hidden) == BlockEntries(t, blocks, date, hidden)
  {
    if blocks != [] {
      SameBlockEntries(s, t, blocks[..|blocks| - 1], date, hidden);
    }
  }

  lemma {:induction false} SameOverrideEntries(s: Schedule, t: Schedule, os: seq<Override>, date: Date)
    requires s.id == t.id && s.name == t.name && s.blocks == t.blocks
    ensures OverrideEntries(s, os, date, None) == OverrideEntries(t, os, date, None)
  {
    if os != [] {
      SameOverrideEntries(s, t, os[..|os| - 1], date);
    }
  }

  ghost function DayEntries(ss: seq<Schedule>, student: int, date: Date): Dict {
    Entries(Covering(ss, student, date), date, None)
  }

  /** What one schedule adds to the student's day. */
  ghost function Share(s: Schedule, student: int, date: Date): Dict {
    if Covers(s, student, date) then ScheduleEntries(s, date, None) else []
  }

  ghost function Joined<T, U>(f: T -> seq<U>, xs: seq<T>): seq<U> {
    if xs == [] then [] else Joined(f, xs[..|xs| - 1]) + f(xs[|xs| - 1])
  }

  lemma {:induction false} JoinedReplaced<T, U>(f: T -> seq<U>, xs: seq<T>, n: nat, y: T)
    requires n < |xs| && f(y) == f(xs[n])
    ensures Joined(f, xs[n := y]) == Joined(f, xs)
  {
    var last := |xs| - 1;
    if n < last {
      assert xs[n := y][..last] == xs[..last][n := y];
      JoinedReplaced(f, xs[..last], n, y);
    } else {
      assert xs[n := y][..last] == xs[..last];
    }
  }

  ghost function ShareOf(student: int, date: Date): Schedule -> Dict {
    s => Share(s, student, date)
  }

  /** The covering schedules' entries, schedule by schedule. */
  lemma {:induction false} DayIsJoined(ss: seq<Schedule>, student: int, date: Date)
    ensures DayEntries(ss, student, date) == Joined(ShareOf(student, date), ss)
  {
    if ss != [] {
      var front, s := ss[..|ss| - 1], ss[|ss| - 1];
      DayIsJoined(front, student, date);
      DaySnoc(front, s, student, date);
      assert front + [s] == ss;
    }
  }

  lemma DaySnoc(ss: seq<Schedule>, s: Schedule, student: int, date: Date)
    ensures DayEntries(ss + [s], student, date) == DayEntries(ss, student, date) + Share(s, student, date)
  {
    var c := Covering(ss, student, date);
    assert (ss + [s])[..|ss|] == ss;
    if Covers(s, student, date) {
      assert Covering(ss + [s], student, date) == c + [s];
      assert (c + [s])[..|c|] == c;
    } else {
      assert Covering(ss + [s], student, date) == c;
    }
  }

  lemma ShareElsewhere(s: Schedule, o: Override, student: int, date: Date)
    requires o.date != date || s.studentId != student
    ensures Share(s, student, date) == Share(s.(overrides := s.overrides + [o]), student, date)
  {
    if o.date != date {
      OverrideElsewhere(s, o, date);
    }
  }

  lemma EntriesElsewhere(ss: seq<Schedule>, n: nat, o: Override, student: int, date: Date)
    requires n < |ss| && (o.date != date || ss[n].studentId != student)
    ensures DayEntries(WithOverride(ss, n, o), student, date) == DayEntries(ss, student, date)
  {
    ShareElsewhere(ss[n], o, student, date);
    DayIsJoined(ss, student, date);
    DayIsJoined(WithOverride(ss, n, o), student, date);
    JoinedReplaced(ShareOf(student, date), ss, n, ss[n].(overrides := ss[n].overrides + [o]));
  }

  /** An override changes no other date and no other student's agenda. */
  lemma OtherAgendasUnchanged(ss: seq<Schedule>, p: OverridePayload, id: int, student: int, date: Date)
    requires CreateOverrideResult(ss, p, id).Ok?
    requires date != p.date || ss[FindSchedule(ss, p.scheduleId).value].studentId != student
    ensures AgendaFor(CreateOverrideResult(ss, p, id).value, student, date) == AgendaFor(ss, student, date)
  {
    var n := FindSchedule(ss, p.scheduleId).value;
    EntriesElsewhere(ss, n, NewOverride(ss, n, p, id), student, date);
  }

  // ---------------------------------------------------------------- the override's own date

  lemma HiddenAfter(s: Schedule, o: Override)
    ensures Hidden(s.overrides + [o], o.date, None)
            == Hidden(s.overrides, o.date, None) + if Hides(o) then {o.original.value} else {}
  {
    var os := s.overrides + [o];
    HiddenSnoc(os, |s.overrides|, o.date, None);
    assert os[..|s.overrides|] == s.overrides && os[..|os|] == os;
  }

  lemma BlocksAfter(s: Schedule, o: Override, e: Entry)
    ensures ContributesBlock(s.(overrides := s.overrides + [o]), o.date, None, e)
            <==> ContributesBlock(s, o.date, None, e) && !(Hides(o) && e.key == BlockKey(o.original.value))
  {
    HiddenAfter(s, o);
    var t := s.(overrides := s.overrides + [o]);
    forall b ensures BlockItem(t, b, o.date) == BlockItem(s, b, o.date) { }
  }

  lemma OverridesAfter(s: Schedule, o: Override, e: Entry)
    ensures ContributesOverride(s.(overrides := s.overrides + [o]), o.date, None, e)
            <==> ContributesOverride(s, o.date, None, e)
                 || (Shows(s, o) && e == Entry(OverrideKey(o.id), OverrideItem(s, o)))
  {
    var t := s.(overrides := s.overrides + [o]);
    assert forall x :: x in t.overrides <==> x in s.overrides || x == o;
    forall x ensures Shows(t, x) == Shows(s, x) && (Shows(s, x) ==> OverrideItem(t, x) == OverrideItem(s, x)) { }
  }

  /** Entries of a schedule once an override for the date is added. */
  lemma ContributesAfter(s: Schedule, o: Override, e: Entry)
    ensures Contributes(s.(overrides := s.overrides + [o]), o.date, None, e)
            <==> (Contributes(s, o.date, None, e) && !(Hides(o) && e.key == BlockKey(o.original.value)))
                 || (Shows(s, o) && e == Entry(OverrideKey(o.id), OverrideItem(s, o)))
  {
    BlocksAfter(s, o, e);
    OverridesAfter(s, o, e);
  }

  ghost predicate DayEntry(ss: seq<Schedule>, student: int, date: Date, e: Entry) {
    exists s :: s in ss && Covers(s, student, date) && Contributes(s, date, None, e)
  }

  lemma InDay(ss: seq<Schedule>, student: int, date: Date, e: Entry)
    ensures e in Entries(Covering(ss, student, date), date, None) <==> DayEntry(ss, student, date, e)
  {
    var c := Covering(ss, student, date);
    InEntries(c, date, None, e);
    if s :| s in c && Contributes(s, date, None, e) {
      InCovering(ss, student, date, s);
    }
    if s :| s in ss && Covers(s, student, date) && Contributes(s, date, None, e) {
      InCovering(ss, student, date, s);
    }
  }

  /** A block's id is contributed by its own schedule only. */
  lemma BlockEntryOwner(ss: seq<Schedule>, n: nat, s: Schedule, date: Date, e: Entry, block: int)
    requires WellFormed(ss) && n < |ss| && s in ss && OwnBlock(ss[n], block)
    requires Contributes(s, date, None, e)
    requires e.key == BlockKey(block) || e.item.blockId == Some(block)
    ensures s == ss[n]
  {
    var i :| 0 <= i < |ss| && ss[i] == s;
    assert UniqueRows(s);
    assert OwnBlock(s, block);
    assert i < n ==> Apart(ss[i], ss[n]);
    assert n < i ==> Apart(ss[n], ss[i]);
  }

  lemma DayAfter(ss: seq<Schedule>, n: nat, o: Override, e: Entry)
    requires WellFormed(ss) && n < |ss| && Covers(ss[n], ss[n].studentId, o.date)
    requires o.original.Some? ==> OwnBlock(ss[n], o.original.value)
    ensures DayEntry(WithOverride(ss, n, o), ss[n].studentId, o.date, e)
            <==> (DayEntry(ss, ss[n].studentId, o.date, e) && !(Hides(o) && e.key == BlockKey(o.original.value)))
                 || (Shows(ss[n], o) && e == Entry(OverrideKey(o.id), OverrideItem(ss[n], o)))
  {
    if DayEntry(WithOverride(ss, n, o), ss[n].studentId, o.date, e) {
      DayAfterFrom(ss, n, o, e);
    }
    DayAfterTo(ss, n, o, e);
  }

  lemma DayAfterFrom(ss: seq<Schedule>, n: nat, o: Override, e: Entry)
    requires WellFormed(ss) && n < |ss|
    requires o.original.Some? ==> OwnBlock(ss[n], o.original.value)
    requires DayEntry(WithOverride(ss, n, o), ss[n].studentId, o.date, e)
    ensures (DayEntry(ss, ss[n].studentId, o.date, e) && !(Hides(o) && e.key == BlockKey(o.original.value)))
            || (Shows(ss[n], o) && e == Entry(OverrideKey(o.id), OverrideItem(ss[n], o)))
  {
    var student, ss' := ss[n].studentId, WithOverride(ss, n, o);
    ContributesAfter(ss[n], o, e);
    assert ss[n] in ss;
    var s :| s in ss' && Covers(s, student, o.date) && Contributes(s, o.date, None, e);
    var i :| 0 <= i < |ss'| && ss'[i] == s;
    if i != n {
      assert s in ss && DayEntry(ss, student, o.date, e);
      assert (i < n ==> Apart(ss[i], ss[n])) && (n < i ==> Apart(ss[n], ss[i]));
      if Hides(o) && e.key == BlockKey(o.original.value) {
        BlockEntryOwner(ss, n, s, o.date, e, o.original.value);
      }
    } else if Contributes(ss[n], o.date, None, e) {
      assert DayEntry(ss, student, o.date, e);
    }
  }

  lemma DayAfterTo(ss: seq<Schedule>, n: nat, o: Override, e: Entry)
    requires n < |ss| && Covers(ss[n], ss[n].studentId, o.date)
    ensures DayEntry(ss, ss[n].studentId, o.date, e) && !(Hides(o) && e.key == BlockKey(o.original.value)) ==>
              DayEntry(WithOverride(ss, n, o), ss[n].studentId, o.date, e)
    ensures Shows(ss[n], o) && e == Entry(OverrideKey(o.id), OverrideItem(ss[n], o)) ==>
              DayEntry(WithOverride(ss, n, o), ss[n].studentId, o.date, e)
  {
    var student, ss' := ss[n].studentId, WithOverride(ss, n, o);
    ContributesAfter(ss[n], o, e);
    assert ss'[n] in ss' && Covers(ss'[n], student, o.date);
    if DayEntry(ss, student, o.date, e) && !(Hides(o) && e.key == BlockKey(o.original.value)) {
      var s :| s in ss && Covers(s, student, o.date) && Contributes(s, o.date, None, e);
      var i :| 0 <= i < |ss| && ss[i] == s;
      assert ss'[i] in ss' && Covers(ss'[i], student, o.date) && Contributes(ss'[i], o.date, None, e);
    }
  }

  /** Every item still on the agenda with the rescheduled block's id is that block's own item:
      the duplicate check rules out an earlier override of it. */
  lemma ExclusionSound(ss: seq<Schedule>, n: nat, date: Date, block: int, e: Entry)
    requires WellFormed(ss) && n < |ss| && OwnBlock(ss[n], block)
    requires !DuplicateOverride(ss[n], date, Some(block))
    requires DayEntry(ss, ss[n].studentId, date, e) && e.item.blockId == Some(block)
    ensures e.key == BlockKey(block)
  {
    var s :| s in ss && Covers(s, ss[n].studentId, date) && Contributes(s, date, None, e);
    BlockEntryOwner(ss, n, s, date, e, block);
  }

  /** Creating an override keeps that date's agenda free of overlaps. */
  lemma CreateKeepsAgenda(ss: seq<Schedule>, p: OverridePayload, id: int, next: int)
    requires TablesOk(ss, next) && ValidOverride(p) && CreateOverrideResult(ss, p, id).Ok?
    requires next <= id
    requires NonOverlapping(AgendaFor(ss, ss[FindSchedule(ss, p.scheduleId).value].studentId, p.date))
    ensures NonOverlapping(AgendaFor(CreateOverrideResult(ss, p, id).value,
                                     ss[FindSchedule(ss, p.scheduleId).value].studentId, p.date))
  {
    var n := FindSchedule(ss, p.scheduleId).value;
    var o, student := NewOverride(ss, n, p, id), ss[n].studentId;
    var ss' := WithOverride(ss, n, o);
    var day := Entries(Covering(ss, student, p.date), p.date, None);
    var day' := Entries(Covering(ss', student, p.date), p.date, None);
    if o.original.Some? {
      assert FindBlock(ss[n].blocks, o.original.value).Some?;
      assert OwnBlock(ss[n], o.original.value);
    }
    CoveringWellFormed(ss, student, p.date);
    AgendaNonOverlapping(Covering(ss, student, p.date), p.date, None);
    forall e, f | e in day' && f in day' && e.key != f.key
      ensures !Overlap(e.item, f.item)
    {
      InDay(ss', student, p.date, e);
      InDay(ss', student, p.date, f);
      DayAfter(ss, n, o, e);
      DayAfter(ss, n, o, f);
      InDay(ss, student, p.date, e);
      InDay(ss, student, p.date, f);
      if e !in day {
        NewItemClear(ss, n, p, id, f);
      } else if f !in day {
        NewItemClear(ss, n, p, id, e);
      }
    }
    WellFormedAfter(ss, n, o, next);
    CoveringWellFormed(ss', student, p.date);
    AgendaNonOverlapping(Covering(ss', student, p.date), p.date, None);
  }

  lemma WellFormedAfter(ss: seq<Schedule>, n: nat, o: Override, next: int)
    requires TablesOk(ss, next) && n < |ss| && next <= o.id
    requires o.original.Some? ==> OwnBlock(ss[n], o.original.value)
    ensures WellFormed(WithOverride(ss, n, o))
  {
    var ss' := WithOverride(ss, n, o);
    assert ss[n] in ss;
    assert UniqueRows(ss'[n]) by {
      forall x | x in ss'[n].overrides && x.original.Some? ensures OwnBlock(ss'[n], x.original.value) {
        if x != o { assert OwnBlock(ss[n], x.original.value); }
      }
    }
    forall s | s in ss' ensures UniqueRows(s) {
      var i :| 0 <= i < |ss'| && ss'[i] == s;
      assert ss[i] in ss;
    }
    forall i, j | 0 <= i < j < |ss'| ensures Apart(ss'[i], ss'[j]) {
      assert Apart(ss[i], ss[j]) && ss[i] in ss && ss[j] in ss;
    }
  }

  /** The conflict check clears the new item of everything that stays on the agenda. */
  lemma NewItemClear(ss: seq<Schedule>, n: nat, p: OverridePayload, id: int, f: Entry)
    requires WellFormed(ss) && n < |ss| && ValidOverride(p)
    requires p.original.Some? ==> OwnBlock(ss[n], p.original.value)
    requires !DuplicateOverride(ss[n], p.date, p.original) && !OverrideClash(ss, ss[n], p)
    requires Shows(ss[n], NewOverride(ss, n, p, id))
    requires DayEntry(ss, ss[n].studentId, p.date, f)
    requires !(p.kind == Reschedule && f.key == BlockKey(p.original.value))
    ensures !Overlap(OverrideItem(ss[n], NewOverride(ss, n, p, id)), f.item)
    ensures !Overlap(f.item, OverrideItem(ss[n], NewOverride(ss, n, p, id)))
  {
    var student := ss[n].studentId;
    InDay(ss, student, p.date, f);
    InAgenda(Covering(ss, student, p.date), p.date, None, f.item);
    assert f.item in AgendaFor(ss, student, p.date);
    if p.kind == Reschedule && f.item.blockId == p.original {
      ExclusionSound(ss, n, p.date, p.original.value, f);
    }
    assert !Clashes(f.item, if p.kind == Reschedule then p.original else None, p.start.value, p.end.value);
  }

  // ---------------------------------------------------------------- deleting an override

  /** Without the override, its block is back on the agenda. */
  ghost predicate Restores(s: Schedule, k: nat)
    requires k < |s.overrides|
  {
    var o := s.overrides[k];
    Hides(o) && exists b :: b in s.blocks && b.id == o.original.value && b.day == Weekday(o.date)
                            && b.id !in Hidden(s.overrides[..k] + s.overrides[k + 1..], o.date, None)
  }

  /** The restored block's slot is free of every item but the override's own. */
  ghost predicate SlotFree(ss: seq<Schedule>, n: nat, k: nat)
    requires n < |ss| && k < |ss[n].overrides|
  {
    var o := ss[n].overrides[k];
    forall b, it :: b in ss[n].blocks && Some(b.id) == o.original
                    && it in AgendaFor(ss, ss[n].studentId, o.date) && it.overrideId != Some(o.id)
                    ==> !(it.start < b.end && it.end > b.start)
  }

  /** The entries before a deletion are those of the smaller table with the override put back. */
  lemma PutBack(ss: seq<Schedule>, n: nat, k: nat, e: Entry, next: int)
    requires TablesOk(ss, next) && n < |ss| && k < |ss[n].overrides|
    requires var o := ss[n].overrides[k];
             Covers(ss[n], ss[n].studentId, o.date)
    ensures var o, ss' := ss[n].overrides[k], WithoutOverride(ss, n, k);
            DayEntry(ss, ss[n].studentId, o.date, e)
            <==> (DayEntry(ss', ss[n].studentId, o.date, e) && !(Hides(o) && e.key == BlockKey(o.original.value)))
                 || (Shows(ss[n], o) && e == Entry(OverrideKey(o.id), OverrideItem(ss[n], o)))
  {
    var o, ss', student := ss[n].overrides[k], WithoutOverride(ss, n, k), ss[n].studentId;
    var back := WithOverride(ss', n, o);
    OverrideRemoved(ss, n, k, next);
    assert ss[n] in ss && UniqueRows(ss[n]) && o in ss[n].overrides;
    assert o.original.Some? ==> OwnBlock(ss'[n], o.original.value) by {
      if o.original.Some? { assert OwnBlock(ss[n], o.original.value); }
    }
    assert Shows(ss'[n], o) == Shows(ss[n], o)
           && (Shows(ss[n], o) ==> OverrideItem(ss'[n], o) == OverrideItem(ss[n], o));
    DayAfter(ss', n, o, e);
    var os := ss[n].overrides;
    assert os == os[..k] + [o] + os[k + 1..];
    assert SameSchedule(ss[n], back[n]);
    RotatedDay(ss, back, n, student, o.date, e);
  }

  lemma RotatedDay(ss: seq<Schedule>, ts: seq<Schedule>, n: nat, student: int, date: Date, e: Entry)
    requires n < |ss| == |ts| && ts == ss[n := ts[n]] && UniqueRows(ss[n])
    requires SameSchedule(ss[n], ts[n]) && ss[n].blocks == ts[n].blocks
    requires Covers(ss[n], student, date) == Covers(ts[n], student, date)
    ensures DayEntry(ss, student, date, e) <==> DayEntry(ts, student, date, e)
  {
    SameContributesBoth(ss[n], ts[n], date, e);
    if s :| s in ss && Covers(s, student, date) && Contributes(s, date, None, e) {
      var i :| 0 <= i < |ss| && ss[i] == s;
      assert ts[i] in ts && Covers(ts[i], student, date) && Contributes(ts[i], date, None, e);
    }
    if s :| s in ts && Covers(s, student, date) && Contributes(s, date, None, e) {
      var i :| 0 <= i < |ts| && ts[i] == s;
      assert ss[i] in ss && Covers(ss[i], student, date) && Contributes(ss[i], date, None, e);
    }
  }

  lemma SameContributesBoth(s: Schedule, t: Schedule, date: Date, e: Entry)
    requires SameSchedule(s, t) && s.blocks == t.blocks
    ensures Contributes(s, date, None, e) <==> Contributes(t, date, None, e)
  {
    assert Hidden(s.overrides, date, None) == Hidden(t.overrides, date, None);
    forall b ensures BlockItem(t, b, date) == BlockItem(s, b, date) { }
    forall x ensures Shows(t, x) == Shows(s, x) && (Shows(s, x) ==> OverrideItem(t, x) == OverrideItem(s, x)) { }
  }

  /** The entry holds the item of the block that the override is about. */
  ghost predicate IsItemOf(s: Schedule, o: Override, e: Entry) {
    exists b :: b in s.blocks && Some(b.id) == o.original && e.item == BlockItem(s, b, o.date)
  }

  /** The entry that comes back. */
  lemma RestoredEntry(ss: seq<Schedule>, n: nat, k: nat, e: Entry, next: int)
    requires TablesOk(ss, next) && n < |ss| && k < |ss[n].overrides|
    requires Hides(ss[n].overrides[k]) && e.key == BlockKey(ss[n].overrides[k].original.value)
    requires Covers(ss[n], ss[n].studentId, ss[n].overrides[k].date)
    ensures var o, ss' := ss[n].overrides[k], WithoutOverride(ss, n, k);
            DayEntry(ss', ss[n].studentId, o.date, e)
            <==> Restores(ss[n], k) && IsItemOf(ss[n], o, e)
  {
    var o, ss' := ss[n].overrides[k], WithoutOverride(ss, n, k);
    OverrideRemoved(ss, n, k, next);
    assert ss[n] in ss && UniqueRows(ss[n]) && o in ss[n].overrides && OwnBlock(ss[n], o.original.value);
    assert OwnBlock(ss'[n], o.original.value) && ss'[n] in ss';
    RestoredBlock(ss[n], k, e);
    if DayEntry(ss', ss[n].studentId, o.date, e) {
      var s :| s in ss' && Covers(s, ss[n].studentId, o.date) && Contributes(s, o.date, None, e);
      BlockEntryOwner(ss', n, s, o.date, e, o.original.value);
      assert ContributesBlock(ss'[n], o.date, None, e);
    }
  }

  lemma RestoredBlock(s: Schedule, k: nat, e: Entry)
    requires UniqueRows(s) && k < |s.overrides| && Hides(s.overrides[k])
    requires e.key == BlockKey(s.overrides[k].original.value)
    ensures var o, t := s.overrides[k], s.(overrides := s.overrides[..k] + s.overrides[k + 1..]);
            ContributesBlock(t, o.date, None, e)
            <==> Restores(s, k) && IsItemOf(s, o, e)
  {
    var o, t := s.overrides[k], s.(overrides := s.overrides[..k] + s.overrides[k + 1..]);
    forall b ensures BlockItem(t, b, o.date) == BlockItem(s, b, o.date) { }
    if Restores(s, k) {
      var b :| b in s.blocks && b.id == o.original.value && b.day == Weekday(o.date)
               && b.id !in Hidden(s.overrides[..k] + s.overrides[k + 1..], o.date, None);
      if c :| c in s.blocks && Some(c.id) == o.original && e.item == BlockItem(s, c, o.date) {
        assert c == b;
        assert ContributesBlock(t, o.date, None, e);
      }
    }
  }

  /** Deleting an override leaves its date's agenda free of overlaps exactly when it brings no
      block back, or the block's slot is still free. */
  lemma DeleteKeepsAgendaIff(ss: seq<Schedule>, n: nat, k: nat, next: int)
    requires TablesOk(ss, next) && n < |ss| && k < |ss[n].overrides|
    requires Covers(ss[n], ss[n].studentId, ss[n].overrides[k].date)
    requires NonOverlapping(AgendaFor(ss, ss[n].studentId, ss[n].overrides[k].date))
    ensures NonOverlapping(AgendaFor(WithoutOverride(ss, n, k), ss[n].studentId, ss[n].overrides[k].date))
            <==> (Restores(ss[n], k) ==> SlotFree(ss, n, k))
  {
    var o, ss', student := ss[n].overrides[k], WithoutOverride(ss, n, k), ss[n].studentId;
    var c, c' := Covering(ss, student, o.date), Covering(ss', student, o.date);
    var day, day' := Entries(c, o.date, None), Entries(c', o.date, None);
    OverrideRemoved(ss, n, k, next);
    CoveringWellFormed(ss, student, o.date);
    CoveringWellFormed(ss', student, o.date);
    AgendaNonOverlapping(c, o.date, None);
    AgendaNonOverlapping(c', o.date, None);
    assert ss[n] in ss && UniqueRows(ss[n]);
    if Restores(ss[n], k) {
      if DisjointEntries(day') {
        RestoredClear(ss, n, k, next);
      } else {
        RestoredClash(ss, n, k, next);
      }
    } else {
      forall e, f | e in day' && f in day' && e.key != f.key ensures !Overlap(e.item, f.item) {
        KeptEntry(ss, n, k, e, next);
        KeptEntry(ss, n, k, f, next);
      }
    }
  }

  /** An entry after the deletion was there before, or is the restored block. */
  lemma KeptEntry(ss: seq<Schedule>, n: nat, k: nat, e: Entry, next: int)
    requires TablesOk(ss, next) && n < |ss| && k < |ss[n].overrides|
    requires var o := ss[n].overrides[k];
             Covers(ss[n], ss[n].studentId, o.date)
             && e in Entries(Covering(WithoutOverride(ss, n, k), ss[n].studentId, o.date), o.date, None)
    ensures var o := ss[n].overrides[k];
            if Hides(o) && e.key == BlockKey(o.original.value)
            then Restores(ss[n], k) && IsItemOf(ss[n], o, e)
            else e in Entries(Covering(ss, ss[n].studentId, o.date), o.date, None) && e.item.overrideId != Some(o.id)
  {
    var o, ss' := ss[n].overrides[k], WithoutOverride(ss, n, k);
    InDay(ss', ss[n].studentId, o.date, e);
    if Hides(o) && e.key == BlockKey(o.original.value) {
      RestoredEntry(ss, n, k, e, next);
    } else {
      PutBack(ss, n, k, e, next);
      InDay(ss, ss[n].studentId, o.date, e);
      DeletedGone(ss, n, k, e, next);
    }
  }

  lemma DeletedGone(ss: seq<Schedule>, n: nat, k: nat, e: Entry, next: int)
    requires TablesOk(ss, next) && n < |ss| && k < |ss[n].overrides|
    requires DayEntry(WithoutOverride(ss, n, k), ss[n].studentId, ss[n].overrides[k].date, e)
    ensures e.item.overrideId != Some(ss[n].overrides[k].id)
  {
    var o, ss' := ss[n].overrides[k], WithoutOverride(ss, n, k);
    var s :| s in ss' && Covers(s, ss[n].studentId, o.date) && Contributes(s, o.date, None, e);
    var i :| 0 <= i < |ss'| && ss'[i] == s;
    assert ss[n] in ss && o in ss[n].overrides;
    if i == n {
      RemovedRow(ss[n], k);
    } else {
      assert i < n ==> Apart(ss[i], ss[n]);
      assert n < i ==> Apart(ss[n], ss[i]);
    }
    NoSuchOverride(s, o.date, e, o.id);
  }

  lemma RemovedRow(s: Schedule, k: nat)
    requires UniqueRows(s) && k < |s.overrides|
    ensures forall x :: x in s.overrides[..k] + s.overrides[k + 1..] ==> x.id != s.overrides[k].id
  {
  }

  lemma NoSuchOverride(s: Schedule, date: Date, e: Entry, id: int)
    requires Contributes(s, date, None, e) && forall x :: x in s.overrides ==> x.id != id
    ensures e.item.overrideId != Some(id)
  {
  }

  lemma RestoredClear(ss: seq<Schedule>, n: nat, k: nat, next: int)
    requires TablesOk(ss, next) && n < |ss| && k < |ss[n].overrides| && Restores(ss[n], k)
    requires Covers(ss[n], ss[n].studentId, ss[n].overrides[k].date)
    requires DisjointEntries(Entries(Covering(WithoutOverride(ss, n, k), ss[n].studentId, ss[n].overrides[k].date),
                                     ss[n].overrides[k].date, None))
    ensures SlotFree(ss, n, k)
  {
    var o, ss', student := ss[n].overrides[k], WithoutOverride(ss, n, k), ss[n].studentId;
    forall b, it | b in ss[n].blocks && Some(b.id) == o.original
                   && it in AgendaFor(ss, student, o.date) && it.overrideId != Some(o.id)
      ensures !(it.start < b.end && it.end > b.start)
    {
      InAgenda(Covering(ss, student, o.date), o.date, None, it);
      var e :| e in Entries(Covering(ss, student, o.date), o.date, None) && e.item == it;
      InDay(ss, student, o.date, e);
      PutBack(ss, n, k, e, next);
      InDay(ss', student, o.date, e);
      var r := Entry(BlockKey(b.id), BlockItem(ss[n], b, o.date));
      RestoredEntry(ss, n, k, r, next);
      InDay(ss', student, o.date, r);
      assert !Overlap(e.item, r.item);
    }
  }

  lemma RestoredClash(ss: seq<Schedule>, n: nat, k: nat, next: int)
    requires TablesOk(ss, next) && n < |ss| && k < |ss[n].overrides| && Restores(ss[n], k)
    requires Covers(ss[n], ss[n].studentId, ss[n].overrides[k].date)
    requires DisjointEntries(Entries(Covering(ss, ss[n].studentId, ss[n].overrides[k].date), ss[n].overrides[k].date,
                                     None))
    requires !DisjointEntries(Entries(Covering(WithoutOverride(ss, n, k), ss[n].studentId, ss[n].overrides[k].date),
                                      ss[n].overrides[k].date, None))
    ensures !SlotFree(ss, n, k)
  {
    var o, ss', student := ss[n].overrides[k], WithoutOverride(ss, n, k), ss[n].studentId;
    var day' := Entries(Covering(ss', student, o.date), o.date, None);
    var e, f :| e in day' && f in day' && e.key != f.key && Overlap(e.item, f.item);
    KeptEntry(ss, n, k, e, next);
    KeptEntry(ss, n, k, f, next);
    if e.key == BlockKey(o.original.value) {
      ClashTakesSlot(ss, n, k, e, f);
    } else {
      ClashTakesSlot(ss, n, k, f, e);
    }
  }

  /** The restored block's entry and a kept one overlap: the slot was not free. */
  lemma ClashTakesSlot(ss: seq<Schedule>, n: nat, k: nat, r: Entry, x: Entry)
    requires n < |ss| && k < |ss[n].overrides| && (Overlap(r.item, x.item) || Overlap(x.item, r.item))
    requires var o := ss[n].overrides[k];
             && (exists b :: b in ss[n].blocks && Some(b.id) == o.original && r.item == BlockItem(ss[n], b, o.date))
             && x in Entries(Covering(ss, ss[n].studentId, o.date), o.date, None) && x.item.overrideId != Some(o.id)
    ensures !SlotFree(ss, n, k)
  {
    var o := ss[n].overrides[k];
    InAgenda(Covering(ss, ss[n].studentId, o.date), o.date, None, x.item);
    var b :| b in ss[n].blocks && Some(b.id) == o.original && r.item == BlockItem(ss[n], b, o.date);
    assert x.item in AgendaFor(ss, ss[n].studentId, o.date);
  }

  // ---------------------------------------------------------------- a concrete failure

  /** Block 1 on a Monday, cancelled on day 8 by override 2, its slot given to override 3. */
  function CancelledSlot(): seq<Schedule> {
    var math := Subject(7, "Math", "#000");
    [Schedule(1, 5, 4, 1, 100, "Core",
              [Block(1, math, 0, 540, 600, None, None)],
              [Override(2, 8, Some(1), Cancel, None, None, None, "ill"),
               Override(3, 8, None, Add, Some(math), Some(540), Some(600), "catch up")])]
  }

  lemma CancelledSlotTables()
    ensures TablesOk(CancelledSlot(), 10)
  {
    var ss := CancelledSlot();
    var s := ss[0];
    assert OwnBlock(s, 1) by { assert s.blocks[0] in s.blocks; }
    assert forall t :: t in ss ==> t == s;
    assert forall b :: b in s.blocks ==> b == s.blocks[0];
    assert forall o :: o in s.overrides ==> o == s.overrides[0] || o == s.overrides[1];
    assert UniqueRows(s) && Timed(s) && BlocksApart(s, s);
  }

  /** With the cancellation in place only the make-up lesson is on the agenda. */
  lemma CancelledSlotDay()
    ensures var ss := CancelledSlot();
            Covering(ss, 5, 8) == [ss[0]]
            && (forall e :: e in Entries([ss[0]], 8, None) ==> e.key == OverrideKey(3))
            && Entry(OverrideKey(3), OverrideItem(ss[0], ss[0].overrides[1])) in Entries([ss[0]], 8, None)
  {
    var ss := CancelledSlot();
    var s := ss[0];
    assert ss[..0] == [];
    assert s.overrides[0] in s.overrides && s.overrides[1] in s.overrides;
    assert Hides(s.overrides[0]) && 1 in Hidden(s.overrides, 8, None);
    assert forall o :: o in s.overrides ==> o == s.overrides[0] || o == s.overrides[1];
    assert forall b :: b in s.blocks ==> b == s.blocks[0];
    forall e ensures e in Entries([s], 8, None) <==> Contributes(s, 8, None, e) {
      InEntries([s], 8, None, e);
      assert s in [s];
    }
    assert ContributesOverride(s, 8, None, Entry(OverrideKey(3), OverrideItem(s, s.overrides[1])));
  }

  /** Deleting that cancellation makes two items overlap. */
  lemma DeletingCancelOverlaps()
    ensures TablesOk(CancelledSlot(), 10) && NonOverlapping(AgendaFor(CancelledSlot(), 5, 8))
    ensures !NonOverlapping(AgendaFor(WithoutOverride(CancelledSlot(), 0, 0), 5, 8))
  {
    var ss := CancelledSlot();
    var s := ss[0];
    CancelledSlotTables();
    CancelledSlotDay();
    assert s in ss && UniqueRows(s) && WellFormed([s]);
    AgendaNonOverlapping([s], 8, None);
    CancelledSlotTaken();
    DeleteKeepsAgendaIff(ss, 0, 0, 10);
  }

  /** The cancelled block would come back to a slot that the make-up lesson has taken. */
  lemma CancelledSlotTaken()
    ensures Restores(CancelledSlot()[0], 0) && !SlotFree(CancelledSlot(), 0, 0)
  {
    var ss := CancelledSlot();
    var s := ss[0];
    assert s.blocks[0] in s.blocks;
    assert Restores(s, 0) by {
      assert s.overrides[..0] + s.overrides[1..] == [s.overrides[1]];
      assert 1 !in Hidden([s.overrides[1]], 8, None);
    }
    CancelledSlotDay();
    var it := OverrideItem(s, s.overrides[1]);
    InAgenda([s], 8, None, it);
    assert it in AgendaFor(ss, 5, 8);
  }
}
