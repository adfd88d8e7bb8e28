/** What creating or changing a block does to agendas that already have overrides
    (backend/routers/schedule.py, lines 136-160 and 462-517). */
module BlockEffects {
  import opened Wrappers
  import opened Agenda
  import opened AgendaOrder
  import opened Timetable
  import opened OverrideEffects

  // ---------------------------------------------------------------- when an entry takes its time

  /** An entry under this key from start to end. */
  datatype Span = Span(key: Key, start: Time, end: Time)

  function SpanOf(e: Entry): Span {
    Span(e.key, e.item.start, e.item.end)
  }

  predicate SpansOverlap(a: Span, b: Span) {
    a.start < b.end && a.end > b.start
  }

  ghost predicate SpanOn(s: Schedule, date: Date, x: Span) {
    exists e :: Contributes(s, date, None, e) && SpanOf(e) == x
  }

  ghost predicate DaySpan(ss: seq<Schedule>, student: int, date: Date, x: Span) {
    exists s :: s in ss && Covers(s, student, date) && SpanOn(s, date, x)
  }

  ghost predicate BlockSpan(s: Schedule, date: Date, x: Span, b: Block) {
    && b in s.blocks && b.day == Weekday(date) && b.id !in Hidden(s.overrides, date, None)
    && x == Span(BlockKey(b.id), b.start, b.end)
  }

  ghost predicate OverrideSpan(s: Schedule, date: Date, x: Span, o: Override) {
    && o in s.overrides && Applies(o, date, None) && Shows(s, o)
    && x == Span(OverrideKey(o.id), o.start.value, o.end.value)
  }

  /** The spans of a schedule's unhidden blocks and shown overrides. */
  lemma SpanOnIff(s: Schedule, date: Date, x: Span)
    ensures SpanOn(s, date, x) <==> (exists b :: BlockSpan(s, date, x, b)) || (exists o :: OverrideSpan(s, date, x, o))
  {
    if e :| Contributes(s, date, None, e) && SpanOf(e) == x {
      if ContributesBlock(s, date, None, e) {
        var b :| b in s.blocks && b.day == Weekday(date) && b.id !in Hidden(s.overrides, date, None)
                 && e == Entry(BlockKey(b.id), BlockItem(s, b, date));
        assert BlockSpan(s, date, x, b);
      } else {
        var o :| o in s.overrides && Applies(o, date, None) && Shows(s, o)
                 && e == Entry(OverrideKey(o.id), OverrideItem(s, o));
        assert OverrideSpan(s, date, x, o);
      }
    }
    if b :| BlockSpan(s, date, x, b) {
      BlockSpanOn(s, date, x, b);
    }
    if o :| OverrideSpan(s, date, x, o) {
      OverrideSpanOn(s, date, x, o);
    }
  }

  lemma BlockSpanOn(s: Schedule, date: Date, x: Span, b: Block)
    requires BlockSpan(s, date, x, b)
    ensures SpanOn(s, date, x)
  {
    var e := Entry(BlockKey(b.id), BlockItem(s, b, date));
    assert ContributesBlock(s, date, None, e);
    assert Contributes(s, date, None, e) && SpanOf(e) == x;
  }

  lemma OverrideSpanOn(s: Schedule, date: Date, x: Span, o: Override)
    requires OverrideSpan(s, date, x, o)
    ensures SpanOn(s, date, x)
  {
    var e := Entry(OverrideKey(o.id), OverrideItem(s, o));
    assert ContributesOverride(s, date, None, e);
    assert Contributes(s, date, None, e) && SpanOf(e) == x;
  }

  /** An agenda is free of overlaps exactly when its spans under different keys are. */
  ghost predicate ApartSpans(ss: seq<Schedule>, student: int, date: Date) {
    forall x, y :: DaySpan(ss, student, date, x) && DaySpan(ss, student, date, y) && x.key != y.key ==>
      !SpansOverlap(x, y)
  }

  lemma DaySpanIff(ss: seq<Schedule>, student: int, date: Date, x: Span)
    ensures DaySpan(ss, student, date, x) <==> exists e :: DayEntry(ss, student, date, e) && SpanOf(e) == x
  {
    if s :| s in ss && Covers(s, student, date) && SpanOn(s, date, x) {
      var e :| Contributes(s, date, None, e) && SpanOf(e) == x;
      assert DayEntry(ss, student, date, e);
    }
    if e :| DayEntry(ss, student, date, e) && SpanOf(e) == x {
      var s :| s in ss && Covers(s, student, date) && Contributes(s, date, None, e);
      assert SpanOn(s, date, x);
    }
  }

  lemma AgendaSpans(ss: seq<Schedule>, student: int, date: Date)
    requires WellFormed(ss)
    ensures NonOverlapping(AgendaFor(ss, student, date)) <==> ApartSpans(ss, student, date)
  {
    CoveringWellFormed(ss, student, date);
    AgendaNonOverlapping(Covering(ss, student, date), date, None);
    var day := Entries(Covering(ss, student, date), date, None);
    if ApartSpans(ss, student, date) {
      forall e, f | e in day && f in day && e.key != f.key ensures !Overlap(e.item, f.item) {
        InDay(ss, student, date, e);
        InDay(ss, student, date, f);
        DaySpanIff(ss, student, date, SpanOf(e));
        DaySpanIff(ss, student, date, SpanOf(f));
        assert !SpansOverlap(SpanOf(e), SpanOf(f));
      }
    }
    if DisjointEntries(day) {
      forall x, y | DaySpan(ss, student, date, x) && DaySpan(ss, student, date, y) && x.key != y.key
        ensures !SpansOverlap(x, y)
      {
        EntriesApart(ss, student, date, x, y);
      }
    }
  }

  lemma EntriesApart(ss: seq<Schedule>, student: int, date: Date, x: Span, y: Span)
    requires DisjointEntries(Entries(Covering(ss, student, date), date, None))
    requires DaySpan(ss, student, date, x) && DaySpan(ss, student, date, y) && x.key != y.key
    ensures !SpansOverlap(x, y)
  {
    DaySpanIff(ss, student, date, x);
    DaySpanIff(ss, student, date, y);
    var e :| DayEntry(ss, student, date, e) && SpanOf(e) == x;
    var f :| DayEntry(ss, student, date, f) && SpanOf(f) == y;
    InDay(ss, student, date, e);
    InDay(ss, student, date, f);
    assert !Overlap(e.item, f.item);
  }

  // ---------------------------------------------------------------- one block placed

  /** t is s with block b put in, in place of a block with its id or beside the others. */
  ghost predicate Placed(s: Schedule, t: Schedule, b: Block) {
    && t == s.(blocks := t.blocks) && b in t.blocks
    && (forall x :: x in t.blocks <==> x == b || (x in s.blocks && x.id != b.id))
  }

  lemma SameShows(s: Schedule, t: Schedule, b: Block, o: Override)
    requires Placed(s, t, b) && UniqueRows(s) && o in s.overrides
    ensures Shows(t, o) == Shows(s, o)
  {
    if o.original.Some? {
      assert OwnBlock(s, o.original.value);
      var x :| x in s.blocks && x.id == o.original.value;
      assert FindBlock(s.blocks, o.original.value).Some?;
      assert (if x.id == b.id then b else x) in t.blocks;
      assert FindBlock(t.blocks, o.original.value).Some?;
    }
  }

  /** The schedule's spans but for the block's own, and the block's unless it is hidden. */
  lemma PlacedSpan(s: Schedule, t: Schedule, b: Block, date: Date, x: Span)
    requires Placed(s, t, b) && UniqueRows(s)
    ensures SpanOn(t, date, x) <==> (SpanOn(s, date, x) && x.key != BlockKey(b.id)) || BlockSpan(t, date, x, b)
  {
    SpanOnIff(s, date, x);
    SpanOnIff(t, date, x);
    if y :| BlockSpan(t, date, x, y) {
      assert y != b ==> BlockSpan(s, date, x, y);
    }
    if y :| BlockSpan(s, date, x, y) {
      assert y.id != b.id ==> BlockSpan(t, date, x, y);
    }
    forall o ensures OverrideSpan(t, date, x, o) <==> OverrideSpan(s, date, x, o) {
      if o in s.overrides {
        SameShows(s, t, b, o);
      }
    }
  }

  /** A block's key belongs to its schedule's entries only. */
  lemma OtherKeys(ss: seq<Schedule>, n: nat, b: Block, s: Schedule, date: Date, x: Span)
    requires WellFormed(ss) && n < |ss| && b in ss[n].blocks && s in ss && s.id != ss[n].id && SpanOn(s, date, x)
    ensures x.key != BlockKey(b.id)
  {
    SpanOnIff(s, date, x);
    var i :| 0 <= i < |ss| && ss[i] == s;
    assert i < n ==> Apart(ss[i], ss[n]);
    assert n < i ==> Apart(ss[n], ss[i]);
  }

  /** The block takes part in the student's day. */
  ghost predicate Takes(t: Schedule, b: Block, student: int, date: Date) {
    Covers(t, student, date) && b.day == Weekday(date) && b.id !in Hidden(t.overrides, date, None)
  }

  function OwnSpan(b: Block): Span {
    Span(BlockKey(b.id), b.start, b.end)
  }

  lemma PlacedDayOnly(ss: seq<Schedule>, n: nat, t: Schedule, b: Block, student: int, date: Date, x: Span)
    requires WellFormed(ss) && n < |ss| && WellFormed(ss[n := t]) && Placed(ss[n], t, b)
    requires DaySpan(ss[n := t], student, date, x)
    ensures (DaySpan(ss, student, date, x) && x.key != BlockKey(b.id))
            || (Takes(t, b, student, date) && x == OwnSpan(b))
  {
    var ss' := ss[n := t];
    var s :| s in ss' && Covers(s, student, date) && SpanOn(s, date, x);
    var i :| 0 <= i < |ss'| && ss'[i] == s;
    if i == n {
      assert ss[n] in ss && UniqueRows(ss[n]);
      PlacedSpan(ss[n], t, b, date, x);
      assert SpanOn(ss[n], date, x) ==> DaySpan(ss, student, date, x);
    } else {
      assert ss[i] in ss && (i < n ==> Apart(ss'[i], ss'[n])) && (n < i ==> Apart(ss'[n], ss'[i]));
      OtherKeys(ss', n, b, s, date, x);
      assert DaySpan(ss, student, date, x);
    }
  }

  lemma PlacedDay(ss: seq<Schedule>, n: nat, t: Schedule, b: Block, student: int, date: Date, x: Span)
    requires WellFormed(ss) && n < |ss| && WellFormed(ss[n := t]) && Placed(ss[n], t, b)
    ensures DaySpan(ss[n := t], student, date, x)
            <==> (DaySpan(ss, student, date, x) && x.key != BlockKey(b.id))
                 || (Takes(t, b, student, date) && x == OwnSpan(b))
  {
    var ss' := ss[n := t];
    if DaySpan(ss', student, date, x) {
      PlacedDayOnly(ss, n, t, b, student, date, x);
    }
    assert ss[n] in ss && ss'[n] in ss' && UniqueRows(ss[n]);
    PlacedSpan(ss[n], t, b, date, x);
    if s :| s in ss && Covers(s, student, date) && SpanOn(s, date, x) && x.key != BlockKey(b.id) {
      var i :| 0 <= i < |ss| && ss[i] == s;
      assert ss'[i] in ss' && Covers(ss'[i], student, date) && SpanOn(ss'[i], date, x);
    }
    if Takes(t, b, student, date) && x == OwnSpan(b) {
      assert SpanOn(ss'[n], date, x);
    }
  }

  /** Nothing else on the day's agenda meets the block. */
  ghost predicate SlotOpen(ss: seq<Schedule>, b: Block, student: int, date: Date) {
    forall x :: DaySpan(ss, student, date, x) && x.key != BlockKey(b.id) ==> !SpansOverlap(x, OwnSpan(b))
  }

  /** Placing a block keeps a clear agenda clear exactly when the block stays off it, or finds its time open:
      the conflict query looks at blocks of the same school year, never at overrides. */
  lemma PlacedKeepsAgendaIff(ss: seq<Schedule>, n: nat, t: Schedule, b: Block, student: int, date: Date)
    requires WellFormed(ss) && n < |ss| && WellFormed(ss[n := t]) && Placed(ss[n], t, b)
    requires NonOverlapping(AgendaFor(ss, student, date))
    ensures NonOverlapping(AgendaFor(ss[n := t], student, date))
            <==> (Takes(t, b, student, date) ==> SlotOpen(ss, b, student, date))
  {
    AgendaSpans(ss, student, date);
    AgendaSpans(ss[n := t], student, date);
    if Takes(t, b, student, date) ==> SlotOpen(ss, b, student, date) {
      forall x, y | DaySpan(ss[n := t], student, date, x) && DaySpan(ss[n := t], student, date, y) && x.key != y.key
        ensures !SpansOverlap(x, y)
      {
        PlacedDay(ss, n, t, b, student, date, x);
        PlacedDay(ss, n, t, b, student, date, y);
      }
    }
    if ApartSpans(ss[n := t], student, date) && Takes(t, b, student, date) {
      forall x | DaySpan(ss, student, date, x) && x.key != BlockKey(b.id) ensures !SpansOverlap(x, OwnSpan(b)) {
        PlacedDay(ss, n, t, b, student, date, x);
        PlacedDay(ss, n, t, b, student, date, OwnSpan(b));
      }
    }
  }

  // ---------------------------------------------------------------- the two routes

  /** Creating a block. */
  lemma CreateBlockKeepsAgendaIff(ss: seq<Schedule>, n: nat, p: BlockPayload, next: int, student: int, date: Date)
    requires TablesOk(ss, next) && n < |ss| && p.subject.KnownSubject? && p.start < p.end
    requires !BlockConflict(ss, ss[n], p.day, p.start, p.end, None)
    requires NonOverlapping(AgendaFor(ss, student, date))
    ensures var b := BlockOf(next, p);
            NonOverlapping(AgendaFor(WithBlock(ss, n, b), student, date))
            <==> (Takes(ss[n], b, student, date) ==> SlotOpen(ss, b, student, date))
  {
    var b := BlockOf(next, p);
    var t := ss[n].(blocks := ss[n].blocks + [b]);
    assert ss[n] in ss;
    BlockAdded(ss, n, b, next);
    PlacedKeepsAgendaIff(ss, n, t, b, student, date);
  }

  /** Changing a block: its own old entry does not stand in its way. */
  lemma UpdateBlockKeepsAgendaIff(ss: seq<Schedule>, n: nat, k: nat, p: BlockPayload, next: int, student: int,
                                  date: Date)
    requires TablesOk(ss, next) && n < |ss| && k < |ss[n].blocks| && p.subject.KnownSubject? && p.start < p.end
    requires !BlockConflict(ss, ss[n], p.day, p.start, p.end, Some(ss[n].blocks[k].id))
    requires NonOverlapping(AgendaFor(ss, student, date))
    ensures var b := BlockOf(ss[n].blocks[k].id, p);
            NonOverlapping(AgendaFor(WithChanged(ss, n, k, p), student, date))
            <==> (Takes(ss[n], b, student, date) ==> SlotOpen(ss, b, student, date))
  {
    var b := BlockOf(ss[n].blocks[k].id, p);
    var t := ss[n].(blocks := ss[n].blocks[k := b]);
    assert ss[n] in ss && UniqueRows(ss[n]);
    ChangedPlaced(ss[n], k, b);
    BlockChanged(ss, n, k, p, next);
    PlacedKeepsAgendaIff(ss, n, t, b, student, date);
  }

  lemma ChangedPlaced(s: Schedule, k: nat, b: Block)
    requires UniqueRows(s) && k < |s.blocks| && b.id == s.blocks[k].id
    ensures Placed(s, s.(blocks := s.blocks[k := b]), b)
  {
    var t := s.(blocks := s.blocks[k := b]);
    assert t.blocks[k] == b;
    forall x ensures x in t.blocks <==> x == b || (x in s.blocks && x.id != b.id) {
      if x in s.blocks && x.id != b.id {
        var i :| 0 <= i < |s.blocks| && s.blocks[i] == x;
        assert t.blocks[i] == x;
      }
      if x in t.blocks && x != b {
        var i :| 0 <= i < |t.blocks| && t.blocks[i] == x;
        assert s.blocks[i] == x && i != k;
      }
    }
  }
}
