/** What the agenda promises whatever the order of schedules, blocks and overrides. */
module AgendaOrder {
  import opened Wrappers
  import opened Agenda

  predicate Overlap(a: Item, b: Item) {
    a.start < b.end && a.end > b.start
  }

  predicate NonOverlapping(xs: seq<Item>) {
    forall i, j :: 0 <= i < j < |xs| ==> !Overlap(xs[i], xs[j])
  }

  ghost predicate DisjointEntries(d: Dict) {
    forall e, f :: e in d && f in d && e.key != f.key ==> !Overlap(e.item, f.item)
  }

  predicate DistinctKeys(d: Dict) {
    forall i, j :: 0 <= i < j < |d| ==> d[i].key != d[j].key
  }

  /** Payload validation makes every block and every timed override a proper interval. */
  ghost predicate Timed(s: Schedule) {
    && (forall b :: b in s.blocks ==> b.start < b.end)
    && (forall o :: o in s.overrides && o.start.Some? && o.end.Some? ==> o.start.value < o.end.value)
  }

  ghost predicate WellTimed(ss: seq<Schedule>) {
    forall s :: s in ss ==> Timed(s)
  }

  // ---------------------------------------------------------------- keys are distinct

  lemma {:induction false} BlockKeysDistinct(s: Schedule, blocks: seq<Block>, date: Date, hidden: set<int>)
    requires forall a, b :: 0 <= a < b < |blocks| ==> blocks[a].id != blocks[b].id
    ensures DistinctKeys(BlockEntries(s, blocks, date, hidden))
  {
    if blocks != [] {
      var front := blocks[..|blocks| - 1];
      BlockKeysDistinct(s, front, date, hidden);
      forall e | e in BlockEntries(s, front, date, hidden) ensures e.key != BlockKey(blocks[|blocks| - 1].id) {
        InBlockEntries(s, front, date, hidden, e);
      }
    }
  }

  lemma {:induction false} OverrideKeysDistinct(s: Schedule, os: seq<Override>, date: Date, skip: Option<int>)
    requires forall a, b :: 0 <= a < b < |os| ==> os[a].id != os[b].id
    ensures DistinctKeys(OverrideEntries(s, os, date, skip))
  {
    if os != [] {
      var front := os[..|os| - 1];
      OverrideKeysDistinct(s, front, date, skip);
      forall e | e in OverrideEntries(s, front, date, skip) ensures e.key != OverrideKey(os[|os| - 1].id) {
        InOverrideEntries(s, front, date, skip, e);
      }
    }
  }

  lemma ScheduleKeysDistinct(s: Schedule, date: Date, skip: Option<int>)
    requires UniqueRows(s)
    ensures DistinctKeys(ScheduleEntries(s, date, skip))
  {
    BlockKeysDistinct(s, s.blocks, date, Hidden(s.overrides, date, skip));
    OverrideKeysDistinct(s, s.overrides, date, skip);
    forall e, f | e in BlockEntries(s, s.blocks, date, Hidden(s.overrides, date, skip))
                  && f in OverrideEntries(s, s.overrides, date, skip)
      ensures e.key != f.key
    {
      InBlockEntries(s, s.blocks, date, Hidden(s.overrides, date, skip), e);
      InOverrideEntries(s, s.overrides, date, skip, f);
    }
  }

  lemma {:induction false} KeysDistinct(ss: seq<Schedule>, date: Date, skip: Option<int>)
    requires WellFormed(ss)
    ensures DistinctKeys(Entries(ss, date, skip))
  {
    if ss != [] {
      var n := |ss| - 1;
      KeysDistinct(ss[..n], date, skip);
      ScheduleKeysDistinct(ss[n], date, skip);
      forall e, f | e in Entries(ss[..n], date, skip) && f in ScheduleEntries(ss[n], date, skip)
        ensures e.key != f.key
      {
        EarlierEntry(ss, n, date, skip, e);
        InScheduleEntries(ss[n], date, skip, f);
      }
    }
  }

  // ---------------------------------------------------------------- from entries to the list

  lemma {:induction false} ValuesAt(d: Dict)
    ensures |Values(d)| == |d| && forall i :: 0 <= i < |d| ==> Values(d)[i] == d[i].item
  {
    if d != [] {
      ValuesAt(d[..|d| - 1]);
    }
  }

  lemma {:induction false} InsertElements(it: Item, xs: seq<Item>)
    ensures forall x :: x in InsertItem(it, xs) <==> x in xs || x == it
  {
    if !(xs == [] || Leq(xs[|xs| - 1], it)) {
      InsertElements(it, xs[..|xs| - 1]);
      assert xs == xs[..|xs| - 1] + [xs[|xs| - 1]];
    }
  }

  lemma {:induction false} InsertNonOverlapping(it: Item, xs: seq<Item>)
    ensures NonOverlapping(InsertItem(it, xs)) <==> NonOverlapping(xs + [it])
  {
    if !(xs == [] || Leq(xs[|xs| - 1], it)) {
      var front, last := xs[..|xs| - 1], xs[|xs| - 1];
      assert xs == front + [last];
      InsertNonOverlapping(it, front);
      InsertElements(it, front);
      var r := InsertItem(it, front);
      NonOverlappingSnoc(r, last);
      NonOverlappingSnoc(front, it);
      SwapLast(front, last, it);
      assert InsertItem(it, xs) == r + [last] && xs + [it] == front + [last] + [it];
      assert forall x :: x in r <==> x in front || x == it;
      assert it in r;
    }
  }

  lemma SwapLast(front: seq<Item>, last: Item, it: Item)
    ensures NonOverlapping(front + [last] + [it])
            <==> NonOverlapping(front) && !Overlap(last, it)
                 && forall x :: x in front ==> !Overlap(x, last) && !Overlap(x, it)
  {
    NonOverlappingSnoc(front, last);
    NonOverlappingSnoc(front + [last], it);
  }

  lemma SameElements(a: seq<Item>, b: seq<Item>)
    requires multiset(a) == multiset(b)
    ensures forall x :: x in a <==> x in b
  {
    forall x ensures x in a <==> x in b {
      assert x in a <==> x in multiset(a);
      assert x in b <==> x in multiset(b);
    }
  }

  lemma NonOverlappingSnoc(xs: seq<Item>, it: Item)
    ensures NonOverlapping(xs + [it]) <==> NonOverlapping(xs) && forall x :: x in xs ==> !Overlap(x, it)
  {
    var ys := xs + [it];
    if NonOverlapping(ys) {
      forall i, j | 0 <= i < j < |xs| ensures !Overlap(xs[i], xs[j]) {
        assert ys[i] == xs[i] && ys[j] == xs[j];
      }
      forall x | x in xs ensures !Overlap(x, it) {
        var i :| 0 <= i < |xs| && xs[i] == x;
        assert ys[i] == x && ys[|xs|] == it;
      }
    }
  }

  lemma {:induction false} SortNonOverlapping(xs: seq<Item>)
    ensures NonOverlapping(SortItems(xs)) <==> NonOverlapping(xs)
  {
    if xs != [] {
      var front, last := xs[..|xs| - 1], xs[|xs| - 1];
      SortNonOverlapping(front);
      SortSorts(front);
      SameElements(SortItems(front), front);
      InsertNonOverlapping(last, SortItems(front));
      NonOverlappingSnoc(SortItems(front), last);
      NonOverlappingSnoc(front, last);
      assert xs == front + [last];
    }
  }

  lemma InValues(d: Dict, it: Item)
    ensures it in Values(d) <==> exists e :: e in d && e.item == it
  {
    ValuesAt(d);
    if it in Values(d) {
      var i :| 0 <= i < |d| && Values(d)[i] == it;
      assert d[i] in d && d[i].item == it;
    }
    if e :| e in d && e.item == it {
      var i :| 0 <= i < |d| && d[i] == e;
      assert Values(d)[i] == it;
    }
  }

  /** The list holds exactly the entries' items. */
  lemma InAgenda(ss: seq<Schedule>, date: Date, skip: Option<int>, it: Item)
    ensures it in DailyAgenda(ss, date, skip) <==> exists e :: e in Entries(ss, date, skip) && e.item == it
  {
    var d := Entries(ss, date, skip);
    InValues(d, it);
    SortSorts(Values(d));
    SameElements(SortItems(Values(d)), Values(d));
  }

  /** The returned list is sorted, and free of overlaps exactly when the entries are. */
  lemma AgendaNonOverlapping(ss: seq<Schedule>, date: Date, skip: Option<int>)
    requires WellFormed(ss)
    ensures Sorted(DailyAgenda(ss, date, skip))
    ensures NonOverlapping(DailyAgenda(ss, date, skip)) <==> DisjointEntries(Entries(ss, date, skip))
  {
    var d := Entries(ss, date, skip);
    KeysDistinct(ss, date, skip);
    ValuesDisjoint(d);
    SortSorts(Values(d));
    SortNonOverlapping(Values(d));
  }

  lemma DisjointValues(d: Dict)
    requires DistinctKeys(d) && DisjointEntries(d)
    ensures NonOverlapping(Values(d))
  {
    ValuesAt(d);
    forall i, j | 0 <= i < j < |Values(d)| ensures !Overlap(Values(d)[i], Values(d)[j]) {
      assert d[i] in d && d[j] in d;
    }
  }

  lemma ValuesDisjoint(d: Dict)
    requires DistinctKeys(d)
    ensures NonOverlapping(Values(d)) <==> DisjointEntries(d)
  {
    if DisjointEntries(d) {
      DisjointValues(d);
    }
    ValuesAt(d);
    if NonOverlapping(Values(d)) {
      forall e, f | e in d && f in d && e.key != f.key
        ensures !Overlap(e.item, f.item)
      {
        var i :| 0 <= i < |d| && d[i] == e;
        var j :| 0 <= j < |d| && d[j] == f;
        assert Values(d)[i] == e.item && Values(d)[j] == f.item;
      }
    }
  }

  // ---------------------------------------------------------------- order independence

  /** The same schedule with its blocks and overrides listed in another order. */
  ghost predicate SameSchedule(s: Schedule, t: Schedule) {
    && s.id == t.id && s.name == t.name
    && (forall b :: b in s.blocks <==> b in t.blocks)
    && (forall o :: o in s.overrides <==> o in t.overrides)
  }

  ghost predicate HasTwin(s: Schedule, ts: seq<Schedule>) {
    exists t :: t in ts && SameSchedule(s, t)
  }

  ghost predicate Covered(ss: seq<Schedule>, ts: seq<Schedule>) {
    forall s :: s in ss ==> HasTwin(s, ts)
  }

  ghost predicate Reordered(ss: seq<Schedule>, ts: seq<Schedule>) {
    Covered(ss, ts) && Covered(ts, ss)
  }

  lemma SameFind(s: Schedule, t: Schedule, id: int)
    requires SameSchedule(s, t)
    requires UniqueRows(s)
    ensures FindBlock(s.blocks, id) == FindBlock(t.blocks, id)
  {
  }

  lemma SameContributes(s: Schedule, t: Schedule, date: Date, skip: Option<int>, e: Entry)
    requires SameSchedule(s, t) && Contributes(s, date, skip, e)
    requires UniqueRows(s)
    ensures Contributes(t, date, skip, e)
  {
    assert Hidden(s.overrides, date, skip) == Hidden(t.overrides, date, skip);
    if o :| o in s.overrides && Applies(o, date, skip) && Shows(s, o)
            && e == Entry(OverrideKey(o.id), OverrideItem(s, o))
    {
      if o.original.Some? {
        SameFind(s, t, o.original.value);
      }
      assert o in t.overrides && Shows(t, o) && OverrideItem(t, o) == OverrideItem(s, o);
    } else {
      var b :| b in s.blocks && b.day == Weekday(date) && b.id !in Hidden(s.overrides, date, skip)
               && e == Entry(BlockKey(b.id), BlockItem(s, b, date));
      assert b in t.blocks && BlockItem(t, b, date) == BlockItem(s, b, date);
    }
  }

  lemma SameEntries(ss: seq<Schedule>, ts: seq<Schedule>, date: Date, skip: Option<int>, e: Entry)
    requires WellFormed(ss) && Covered(ss, ts) && e in Entries(ss, date, skip)
    ensures e in Entries(ts, date, skip)
  {
    InEntries(ss, date, skip, e);
    var s :| s in ss && Contributes(s, date, skip, e);
    assert HasTwin(s, ts);
    var t :| t in ts && SameSchedule(s, t);
    SameContributes(s, t, date, skip, e);
    InEntries(ts, date, skip, e);
  }

  predicate Increasing(xs: seq<Item>) {
    forall i, j :: 0 <= i < j < |xs| ==> xs[i].start < xs[j].start
  }

  lemma {:induction false} IncreasingUnique(xs: seq<Item>, ys: seq<Item>)
    requires Increasing(xs) && Increasing(ys) && forall x :: x in xs <==> x in ys
    ensures xs == ys
  {
    assert |ys| > 0 ==> ys[0] in xs;
    if xs != [] {
      assert xs[0] in ys;
      SameLast(xs, ys);
      var xf, yf := xs[..|xs| - 1], ys[..|ys| - 1];
      FrontElements(xs);
      FrontElements(ys);
      forall x ensures x in xf <==> x in yf {
        assert x in xs <==> x in ys;
      }
      IncreasingUnique(xf, yf);
    }
  }

  lemma FrontElements(xs: seq<Item>)
    requires Increasing(xs) && xs != []
    ensures forall x :: x in xs[..|xs| - 1] <==> x in xs && x != xs[|xs| - 1]
    ensures xs == xs[..|xs| - 1] + [xs[|xs| - 1]]
  {
  }

  lemma SameLast(xs: seq<Item>, ys: seq<Item>)
    requires Increasing(xs) && Increasing(ys) && xs != [] && ys != [] && forall x :: x in xs <==> x in ys
    ensures xs[|xs| - 1] == ys[|ys| - 1]
  {
    assert xs[|xs| - 1] in ys;
    var k :| 0 <= k < |ys| && ys[k] == xs[|xs| - 1];
    assert ys[|ys| - 1] in xs;
    var m :| 0 <= m < |xs| && xs[m] == ys[|ys| - 1];
  }

  lemma AgendaIncreasing(ss: seq<Schedule>, date: Date, skip: Option<int>)
    requires WellFormed(ss) && WellTimed(ss) && NonOverlapping(DailyAgenda(ss, date, skip))
    ensures Increasing(DailyAgenda(ss, date, skip))
  {
    var xs := DailyAgenda(ss, date, skip);
    AgendaNonOverlapping(ss, date, skip);
    forall it | it in xs ensures it.start < it.end {
      InAgenda(ss, date, skip, it);
      var e :| e in Entries(ss, date, skip) && e.item == it;
      InEntries(ss, date, skip, e);
    }
    forall i, j | 0 <= i < j < |xs| ensures xs[i].start < xs[j].start {
      assert xs[i] in xs && xs[j] in xs && Leq(xs[i], xs[j]) && !Overlap(xs[i], xs[j]);
    }
  }

  /** When no two items overlap, the agenda does not depend on the order of the schedules,
      or of the blocks and overrides inside them. */
  lemma AgendaOrderIndependent(ss: seq<Schedule>, ts: seq<Schedule>, date: Date, skip: Option<int>)
    requires WellFormed(ss) && WellFormed(ts) && WellTimed(ss) && Reordered(ss, ts)
    requires NonOverlapping(DailyAgenda(ss, date, skip))
    ensures DailyAgenda(ts, date, skip) == DailyAgenda(ss, date, skip)
  {
    var xs, ys := DailyAgenda(ss, date, skip), DailyAgenda(ts, date, skip);
    forall e ensures e in Entries(ss, date, skip) <==> e in Entries(ts, date, skip) {
      if e in Entries(ss, date, skip) { SameEntries(ss, ts, date, skip, e); }
      if e in Entries(ts, date, skip) { SameEntries(ts, ss, date, skip, e); }
    }
    AgendaNonOverlapping(ss, date, skip);
    AgendaNonOverlapping(ts, date, skip);
    ReorderedTimes(ss, ts);
    AgendaIncreasing(ss, date, skip);
    AgendaIncreasing(ts, date, skip);
    forall it ensures it in xs <==> it in ys {
      InAgenda(ss, date, skip, it);
      InAgenda(ts, date, skip, it);
    }
    IncreasingUnique(xs, ys);
  }

  lemma ReorderedTimes(ss: seq<Schedule>, ts: seq<Schedule>)
    requires WellTimed(ss) && Covered(ts, ss)
    ensures WellTimed(ts)
  {
    forall t | t in ts
      ensures Timed(t)
    {
      assert HasTwin(t, ss);
      var s :| s in ss && SameSchedule(t, s);
    }
  }
}
