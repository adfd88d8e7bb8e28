/** What stands on a daily agenda, column by column, and in what order
    (backend/routers/schedule.py, lines 182-247). */
module AgendaItems {
  import opened Wrappers
  import opened Strings
  import opened Agenda
  import opened AgendaOrder

  // ---------------------------------------------------------------- weekdays

  /** Ordinal 1 is a Monday, and the weekdays go round in sevens. */
  lemma WeekdayOf(week: int, day: int)
    requires 0 <= day < 7
    ensures Weekday(1 + day + 7 * week) == day
  {
  }

  // ---------------------------------------------------------------- the items

  /** The item of a block, as it is. */
  ghost predicate IsClass(s: Schedule, b: Block, date: Date, it: Item) {
    && it.scheduleId == s.id && it.scheduleName == s.name && it.blockId == Some(b.id) && it.overrideId == None
    && it.date == date && it.kind == None && it.reason == None
    && it.subject == b.subject && it.start == b.start && it.end == b.end
    && it.location == b.location && it.notes == b.notes
  }

  /** An override of this date, other than the one to skip, takes the block off. */
  ghost predicate TakenOff(s: Schedule, b: Block, date: Date, skip: Option<int>) {
    exists o :: o in s.overrides && o.date == date && Some(o.id) != skip
                && (o.kind == Cancel || o.kind == Reschedule) && o.original == Some(b.id)
  }

  /** The block an override is about. */
  ghost predicate IsAbout(s: Schedule, o: Override, b: Block) {
    b in s.blocks && o.original == Some(b.id)
  }

  /** The item of an override: its own subject, or else its block's; place and notes from the block. */
  ghost predicate IsReplacement(s: Schedule, o: Override, it: Item) {
    && it.scheduleId == s.id && it.scheduleName == s.name && it.blockId == o.original && it.overrideId == Some(o.id)
    && it.date == o.date && it.kind == Some(o.kind) && it.reason == Some(o.reason)
    && Some(it.start) == o.start && Some(it.end) == o.end
    && (o.subject.Some? ==> it.subject == o.subject.value)
    && (forall b :: IsAbout(s, o, b) ==>
          it.location == b.location && it.notes == b.notes && (o.subject.None? ==> it.subject == b.subject))
    && ((forall b :: !IsAbout(s, o, b)) ==> it.location == None && it.notes == None)
  }

  /** The override has times and a subject to show. */
  ghost predicate Presentable(s: Schedule, o: Override) {
    && (o.kind == Reschedule || o.kind == Add) && o.start.Some? && o.end.Some?
    && (o.subject.Some? || exists b :: IsAbout(s, o, b))
  }

  ghost predicate Holds(s: Schedule, date: Date, skip: Option<int>, it: Item) {
    || (exists b :: b in s.blocks && b.day == Weekday(date) && !TakenOff(s, b, date, skip) && IsClass(s, b, date, it))
    || (exists o :: o in s.overrides && o.date == date && Some(o.id) != skip
                    && Presentable(s, o) && IsReplacement(s, o, it))
  }

  /** The agenda holds exactly the classes of the weekday that nothing takes off, and the presentable overrides. */
  lemma AgendaIff(ss: seq<Schedule>, date: Date, skip: Option<int>, it: Item)
    requires WellFormed(ss)
    ensures it in DailyAgenda(ss, date, skip) <==> exists s :: s in ss && Holds(s, date, skip, it)
  {
    InAgenda(ss, date, skip, it);
    if e :| e in Entries(ss, date, skip) && e.item == it {
      InEntries(ss, date, skip, e);
      var s :| s in ss && Contributes(s, date, skip, e);
      HoldsIff(s, date, skip, it);
    }
    if s :| s in ss && Holds(s, date, skip, it) {
      HoldsIff(s, date, skip, it);
      var e :| Contributes(s, date, skip, e) && e.item == it;
      InEntries(ss, date, skip, e);
    }
  }

  lemma HoldsIff(s: Schedule, date: Date, skip: Option<int>, it: Item)
    requires UniqueRows(s)
    ensures Holds(s, date, skip, it) <==> exists e :: Contributes(s, date, skip, e) && e.item == it
  {
    if e :| Contributes(s, date, skip, e) && e.item == it {
      if ContributesBlock(s, date, skip, e) {
        var b :| b in s.blocks && b.day == Weekday(date) && b.id !in Hidden(s.overrides, date, skip)
                 && e == Entry(BlockKey(b.id), BlockItem(s, b, date));
        TakenOffIff(s, b, date, skip);
        assert IsClass(s, b, date, it);
      } else {
        var o :| o in s.overrides && Applies(o, date, skip) && Shows(s, o)
                 && e == Entry(OverrideKey(o.id), OverrideItem(s, o));
        ReplacementIff(s, o, it);
      }
    }
    if b :| b in s.blocks && b.day == Weekday(date) && !TakenOff(s, b, date, skip) && IsClass(s, b, date, it) {
      TakenOffIff(s, b, date, skip);
      assert ContributesBlock(s, date, skip, Entry(BlockKey(b.id), BlockItem(s, b, date)));
      assert Contributes(s, date, skip, Entry(BlockKey(b.id), it));
    }
    if o :| o in s.overrides && o.date == date && Some(o.id) != skip && Presentable(s, o) && IsReplacement(s, o, it) {
      ReplacementIff(s, o, it);
      assert ContributesOverride(s, date, skip, Entry(OverrideKey(o.id), OverrideItem(s, o)));
      assert Contributes(s, date, skip, Entry(OverrideKey(o.id), it));
    }
  }

  lemma TakenOffIff(s: Schedule, b: Block, date: Date, skip: Option<int>)
    ensures TakenOff(s, b, date, skip) <==> b.id in Hidden(s.overrides, date, skip)
  {
  }

  lemma ReplacementIff(s: Schedule, o: Override, it: Item)
    requires UniqueRows(s) && o in s.overrides
    ensures Presentable(s, o) <==> Shows(s, o)
    ensures Presentable(s, o) ==> (IsReplacement(s, o, it) <==> it == OverrideItem(s, o))
  {
    AboutIff(s, o);
    if OriginalBlock(s, o).Some? {
      assert IsAbout(s, o, OriginalBlock(s, o).value);
    }
  }

  /** The lookup finds the one block that the override is about. */
  lemma AboutIff(s: Schedule, o: Override)
    requires UniqueRows(s)
    ensures forall b :: IsAbout(s, o, b) <==> OriginalBlock(s, o) == Some(b)
  {
    forall b | IsAbout(s, o, b) ensures OriginalBlock(s, o) == Some(b) {
      var found := FindBlock(s.blocks, b.id);
      assert found.Some?;
      var i :| 0 <= i < |s.blocks| && s.blocks[i] == b;
      var j :| 0 <= j < |s.blocks| && s.blocks[j] == found.value;
    }
  }

  // ---------------------------------------------------------------- each once

  /** Nothing stands on the agenda twice. */
  lemma AgendaDistinct(ss: seq<Schedule>, date: Date, skip: Option<int>)
    requires WellFormed(ss)
    ensures forall i, j :: 0 <= i < j < |DailyAgenda(ss, date, skip)| ==>
              DailyAgenda(ss, date, skip)[i] != DailyAgenda(ss, date, skip)[j]
  {
    var d := Entries(ss, date, skip);
    KeysDistinct(ss, date, skip);
    ValuesAt(d);
    forall i, j | 0 <= i < j < |d| ensures Values(d)[i] != Values(d)[j] {
      EntryKeyed(ss, date, skip, d[i]);
      EntryKeyed(ss, date, skip, d[j]);
    }
    SortSorts(Values(d));
    DistinctPermuted(Values(d), SortItems(Values(d)));
  }

  /** An item names its own key. */
  lemma EntryKeyed(ss: seq<Schedule>, date: Date, skip: Option<int>, e: Entry)
    requires e in Entries(ss, date, skip)
    ensures e.key == if e.item.overrideId.Some? then OverrideKey(e.item.overrideId.value)
                     else BlockKey(if e.item.blockId.Some? then e.item.blockId.value else 0)
  {
    InEntries(ss, date, skip, e);
  }

  lemma {:induction false} DistinctCounts(xs: seq<Item>)
    ensures (forall i, j :: 0 <= i < j < |xs| ==> xs[i] != xs[j]) <==> forall x :: multiset(xs)[x] <= 1
  {
    if xs != [] {
      var front, last := xs[..|xs| - 1], xs[|xs| - 1];
      DistinctCounts(front);
      assert xs == front + [last];
      assert forall x :: multiset(xs)[x] == multiset(front)[x] + if x == last then 1 else 0;
      if forall x :: multiset(xs)[x] <= 1 {
        assert multiset(front)[last] == 0 && last !in front by {
          assert last in front ==> last in multiset(front);
        }
      } else {
        var x :| multiset(xs)[x] > 1;
        if multiset(front)[x] <= 1 {
          assert x == last && last in multiset(front) && last in front;
          var k :| 0 <= k < |front| && front[k] == last;
          assert xs[k] == xs[|xs| - 1];
        }
      }
    }
  }

  lemma DistinctPermuted(xs: seq<Item>, ys: seq<Item>)
    requires multiset(xs) == multiset(ys) && forall i, j :: 0 <= i < j < |xs| ==> xs[i] != xs[j]
    ensures forall i, j :: 0 <= i < j < |ys| ==> ys[i] != ys[j]
  {
    DistinctCounts(xs);
    DistinctCounts(ys);
  }

  // ---------------------------------------------------------------- the order

  /** a is a start of b, or smaller at the first place where they differ. */
  ghost predicate Precedes(a: string, b: string) {
    exists k: nat :: k <= |a| && k <= |b| && a[..k] == b[..k] && (k == |a| || (k < |b| && a[k] < b[k]))
  }

  lemma {:induction false} LexLeqIff(a: string, b: string)
    ensures LexLeq(a, b) <==> Precedes(a, b)
  {
    if a == [] {
      assert a[..0] == b[..0];
    } else if b != [] {
      LexLeqIff(a[1..], b[1..]);
      if a[0] == b[0] {
        if k: nat :| k <= |a| - 1 && k <= |b| - 1 && a[1..][..k] == b[1..][..k]
                     && (k == |a| - 1 || (k < |b| - 1 && a[1..][k] < b[1..][k]))
        {
          assert a[..k + 1] == [a[0]] + a[1..][..k] && b[..k + 1] == [b[0]] + b[1..][..k];
          assert k + 1 <= |a| && a[..k + 1] == b[..k + 1];
        }
        if k: nat :| k <= |a| && k <= |b| && a[..k] == b[..k] && (k == |a| || (k < |b| && a[k] < b[k])) {
          assert k > 0;
          assert a[1..][..k - 1] == a[..k][1..] && b[1..][..k - 1] == b[..k][1..];
          assert Precedes(a[1..], b[1..]);
        }
      } else {
        assert a[..0] == b[..0];
        if k: nat :| k <= |a| && k <= |b| && a[..k] == b[..k] && (k == |a| || (k < |b| && a[k] < b[k])) {
          assert k > 0 ==> a[..k][0] == b[..k][0];
        }
      }
    }
  }

  /** Earlier items start earlier; with one start they end earlier; with one time their names come first, capitals
      counting as small letters. */
  lemma AgendaInOrder(ss: seq<Schedule>, date: Date, skip: Option<int>, i: nat, j: nat)
    requires WellFormed(ss) && i < j < |DailyAgenda(ss, date, skip)|
    ensures var a, b := DailyAgenda(ss, date, skip)[i], DailyAgenda(ss, date, skip)[j];
            && a.start <= b.start && (a.start == b.start ==> a.end <= b.end)
            && (a.start == b.start && a.end == b.end ==> Precedes(Lower(a.subject.name), Lower(b.subject.name)))
  {
    AgendaNonOverlapping(ss, date, skip);
    var a, b := DailyAgenda(ss, date, skip)[i], DailyAgenda(ss, date, skip)[j];
    assert Leq(a, b);
    LexLeqIff(Lower(a.subject.name), Lower(b.subject.name));
  }

  /** The items with the time and name of x, as they come. */
  function Tied(xs: seq<Item>, x: Item): seq<Item> {
    if xs == [] then []
    else Tied(xs[..|xs| - 1], x)
         + if SameKey(xs[|xs| - 1], x) then [xs[|xs| - 1]] else []
  }

  predicate SameKey(a: Item, b: Item) {
    a.start == b.start && a.end == b.end && Lower(a.subject.name) == Lower(b.subject.name)
  }

  lemma LexReflexive(s: string)
    ensures LexLeq(s, s)
  {
    LexTotal(s, s);
  }

  lemma {:induction false} InsertTied(it: Item, xs: seq<Item>, x: Item)
    ensures Tied(InsertItem(it, xs), x) == Tied(xs, x) + if SameKey(it, x) then [it] else []
  {
    if xs == [] || Leq(xs[|xs| - 1], it) {
      assert (xs + [it])[..|xs|] == xs;
    } else {
      var front, last := xs[..|xs| - 1], xs[|xs| - 1];
      InsertTied(it, front, x);
      assert (InsertItem(it, front) + [last])[..|InsertItem(it, front)|] == InsertItem(it, front);
      LexReflexive(Lower(it.subject.name));
      assert !(SameKey(it, x) && SameKey(last, x));
    }
  }

  /** The sort is stable. */
  lemma {:induction false} SortStable(xs: seq<Item>, x: Item)
    ensures Tied(SortItems(xs), x) == Tied(xs, x)
  {
    if xs != [] {
      SortStable(xs[..|xs| - 1], x);
      InsertTied(xs[|xs| - 1], SortItems(xs[..|xs| - 1]), x);
    }
  }
}
