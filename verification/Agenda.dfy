/** The daily agenda: recurring blocks with dated overrides
    (backend/routers/schedule.py, lines 182-247). */
module Agenda {
  import opened Wrappers
  import opened Strings

  /** Dates are ordinals; times of day are microseconds after midnight. */
  type Date = int
  type Time = int

  datatype Subject = Subject(id: int, name: string, color: string)

  datatype Block = Block(
    id: int, subject: Subject, day: int, start: Time, end: Time,
    location: Option<string>, notes: Option<string>)

  datatype OverrideType = Cancel | Reschedule | Add

  datatype Override = Override(
    id: int, date: Date, original: Option<int>, kind: OverrideType, subject: Option<Subject>,
    start: Option<Time>, end: Option<Time>, reason: string)

  datatype Schedule = Schedule(
    id: int, studentId: int, yearId: int, yearStart: Date, yearEnd: Date, name: string,
    blocks: seq<Block>, overrides: seq<Override>)

  datatype Item = Item(
    scheduleId: int, scheduleName: string, blockId: Option<int>, overrideId: Option<int>, date: Date,
    kind: Option<OverrideType>, subject: Subject, start: Time, end: Time,
    location: Option<string>, notes: Option<string>, reason: Option<string>)

  datatype Key = BlockKey(block: int) | OverrideKey(override: int)

  datatype Entry = Entry(key: Key, item: Item)

  /** date.weekday(): Monday is 0. */
  function Weekday(d: Date): int {
    (d + 6) % 7
  }

  // ---------------------------------------------------------------- the dictionary

  /** An insertion-ordered dictionary. Assigning to a present key keeps its place. */
  type Dict = seq<Entry>

  function Put(d: Dict, k: Key, it: Item): Dict {
    if d == [] then [Entry(k, it)]
    else if d[0].key == k then [Entry(k, it)] + d[1..]
    else [d[0]] + Put(d[1..], k, it)
  }

  function Pop(d: Dict, k: Key): Dict {
    if d == [] then []
    else if d[|d| - 1].key == k then Pop(d[..|d| - 1], k)
    else Pop(d[..|d| - 1], k) + [d[|d| - 1]]
  }

  function Values(d: Dict): seq<Item> {
    if d == [] then [] else Values(d[..|d| - 1]) + [d[|d| - 1].item]
  }

  predicate Has(d: Dict, k: Key) {
    exists e :: e in d && e.key == k
  }

  // ---------------------------------------------------------------- one schedule's items

  /** block_lookup.get(id): the last block with that id. */
  function FindBlock(blocks: seq<Block>, id: int): (r: Option<Block>)
    ensures r.Some? ==> r.value in blocks && r.value.id == id
    ensures r.None? ==> forall b :: b in blocks ==> b.id != id
  {
    if blocks == [] then None
    else if blocks[|blocks| - 1].id == id then Some(blocks[|blocks| - 1])
    else FindBlock(blocks[..|blocks| - 1], id)
  }

  function BlockItem(s: Schedule, b: Block, date: Date): Item {
    Item(s.id, s.name, Some(b.id), None, date, None, b.subject, b.start, b.end, b.location, b.notes, None)
  }

  predicate Applies(o: Override, date: Date, skip: Option<int>) {
    o.date == date && (skip.None? || skip.value != o.id)
  }

  /** The override takes its block off the agenda. */
  predicate Hides(o: Override) {
    o.kind != Add && o.original.Some?
  }

  function OriginalBlock(s: Schedule, o: Override): Option<Block> {
    if o.original.Some? then FindBlock(s.blocks, o.original.value) else None
  }

  function OverrideSubject(s: Schedule, o: Override): Option<Subject> {
    if o.subject.Some? then o.subject
    else match OriginalBlock(s, o) case None => None case Some(b) => Some(b.subject)
  }

  /** The override puts an item of its own on the agenda. */
  predicate Shows(s: Schedule, o: Override) {
    o.kind != Cancel && o.start.Some? && o.end.Some? && OverrideSubject(s, o).Some?
  }

  function OverrideItem(s: Schedule, o: Override): Item
    requires Shows(s, o)
  {
    var b := OriginalBlock(s, o);
    Item(s.id, s.name, o.original, Some(o.id), o.date, Some(o.kind), OverrideSubject(s, o).value,
         o.start.value, o.end.value,
         if b.Some? then b.value.location else None, if b.Some? then b.value.notes else None, Some(o.reason))
  }

  // ---------------------------------------------------------------- the closed form

  ghost function Hidden(os: seq<Override>, date: Date, skip: Option<int>): set<int> {
    set o | o in os && Applies(o, date, skip) && Hides(o) :: o.original.value
  }

  function BlockEntry(s: Schedule, b: Block, date: Date, hidden: set<int>): Dict {
    if b.day == Weekday(date) && b.id !in hidden then [Entry(BlockKey(b.id), BlockItem(s, b, date))] else []
  }

  function BlockEntries(s: Schedule, blocks: seq<Block>, date: Date, hidden: set<int>): Dict {
    if blocks == [] then []
    else BlockEntries(s, blocks[..|blocks| - 1], date, hidden) + BlockEntry(s, blocks[|blocks| - 1], date, hidden)
  }

  function OverrideEntry(s: Schedule, o: Override, date: Date, skip: Option<int>): Dict {
    if Applies(o, date, skip) && Shows(s, o) then [Entry(OverrideKey(o.id), OverrideItem(s, o))] else []
  }

  function OverrideEntries(s: Schedule, os: seq<Override>, date: Date, skip: Option<int>): Dict {
    if os == [] then []
    else OverrideEntries(s, os[..|os| - 1], date, skip) + OverrideEntry(s, os[|os| - 1], date, skip)
  }

  /** A schedule contributes its weekday blocks that no override hides, then its shown overrides. */
  ghost function ScheduleEntries(s: Schedule, date: Date, skip: Option<int>): Dict {
    BlockEntries(s, s.blocks, date, Hidden(s.overrides, date, skip)) + OverrideEntries(s, s.overrides, date, skip)
  }

  ghost function Entries(ss: seq<Schedule>, date: Date, skip: Option<int>): Dict {
    if ss == [] then [] else Entries(ss[..|ss| - 1], date, skip) + ScheduleEntries(ss[|ss| - 1], date, skip)
  }

  /** Row ids are unique inside a schedule, and its overrides refer to its own blocks. */
  ghost predicate UniqueRows(s: Schedule) {
    && (forall a, b :: 0 <= a < b < |s.blocks| ==> s.blocks[a].id != s.blocks[b].id)
    && (forall a, b :: 0 <= a < b < |s.overrides| ==> s.overrides[a].id != s.overrides[b].id)
    && (forall o :: o in s.overrides && o.original.Some? ==> OwnBlock(s, o.original.value))
  }

  /** Two schedules share no row id. */
  ghost predicate Apart(s: Schedule, t: Schedule) {
    && s.id != t.id
    && (forall a, b :: a in s.blocks && b in t.blocks ==> a.id != b.id)
    && (forall a, b :: a in s.overrides && b in t.overrides ==> a.id != b.id)
  }

  ghost predicate WellFormed(ss: seq<Schedule>) {
    && (forall s :: s in ss ==> UniqueRows(s))
    && (forall i, j {:trigger Apart(ss[i], ss[j])} :: 0 <= i < j < |ss| ==> Apart(ss[i], ss[j]))
  }

  ghost predicate OwnBlock(s: Schedule, id: int) {
    exists b :: b in s.blocks && b.id == id
  }

  // ---------------------------------------------------------------- membership

  lemma {:induction false} InBlockEntries(s: Schedule, blocks: seq<Block>, date: Date, hidden: set<int>, e: Entry)
    ensures e in BlockEntries(s, blocks, date, hidden)
            <==> exists b :: b in blocks && b.day == Weekday(date) && b.id !in hidden
                             && e == Entry(BlockKey(b.id), BlockItem(s, b, date))
  {
    if blocks != [] {
      InBlockEntries(s, blocks[..|blocks| - 1], date, hidden, e);
      assert blocks == blocks[..|blocks| - 1] + [blocks[|blocks| - 1]];
    }
  }

  lemma {:induction false} InOverrideEntries(s: Schedule, os: seq<Override>, date: Date, skip: Option<int>, e: Entry)
    ensures e in OverrideEntries(s, os, date, skip)
            <==> exists o :: o in os && Applies(o, date, skip) && Shows(s, o)
                             && e == Entry(OverrideKey(o.id), OverrideItem(s, o))
  {
    if os != [] {
      InOverrideEntries(s, os[..|os| - 1], date, skip, e);
      assert os == os[..|os| - 1] + [os[|os| - 1]];
    }
  }

  /** A block of the weekday that no applying override hides. */
  ghost predicate ContributesBlock(s: Schedule, date: Date, skip: Option<int>, e: Entry) {
    exists b :: b in s.blocks && b.day == Weekday(date) && b.id !in Hidden(s.overrides, date, skip)
                && e == Entry(BlockKey(b.id), BlockItem(s, b, date))
  }

  /** An applying override with times and a subject. */
  ghost predicate ContributesOverride(s: Schedule, date: Date, skip: Option<int>, e: Entry) {
    exists o :: o in s.overrides && Applies(o, date, skip) && Shows(s, o)
                && e == Entry(OverrideKey(o.id), OverrideItem(s, o))
  }

  /** What one schedule contributes, stated outright. */
  ghost predicate Contributes(s: Schedule, date: Date, skip: Option<int>, e: Entry) {
    ContributesBlock(s, date, skip, e) || ContributesOverride(s, date, skip, e)
  }

  lemma InScheduleEntries(s: Schedule, date: Date, skip: Option<int>, e: Entry)
    ensures e in ScheduleEntries(s, date, skip) <==> Contributes(s, date, skip, e)
  {
    InBlockEntries(s, s.blocks, date, Hidden(s.overrides, date, skip), e);
    InOverrideEntries(s, s.overrides, date, skip, e);
  }

  /** The dictionary's entries are exactly what the schedules contribute. */
  lemma {:induction false} InEntries(ss: seq<Schedule>, date: Date, skip: Option<int>, e: Entry)
    ensures e in Entries(ss, date, skip) <==> exists s :: s in ss && Contributes(s, date, skip, e)
  {
    if ss != [] {
      var front, s := ss[..|ss| - 1], ss[|ss| - 1];
      InEntries(front, date, skip, e);
      InScheduleEntries(s, date, skip, e);
      assert forall x :: x in ss <==> x in front || x == s;
    }
  }

  // ---------------------------------------------------------------- dictionary lemmas

  lemma {:induction false} PutFresh(d: Dict, k: Key, it: Item)
    requires !Has(d, k)
    ensures Put(d, k, it) == d + [Entry(k, it)]
  {
    if d != [] {
      assert d[0] in d;
      forall e | e in d[1..] ensures e in d { }
      PutFresh(d[1..], k, it);
    }
  }

  lemma {:induction false} PopConcat(a: Dict, b: Dict, k: Key)
    ensures Pop(a + b, k) == Pop(a, k) + Pop(b, k)
  {
    if b == [] {
      assert a + b == a;
    } else {
      assert (a + b)[..|a + b| - 1] == a + b[..|b| - 1];
      PopConcat(a, b[..|b| - 1], k);
    }
  }

  lemma {:induction false} PopAbsent(d: Dict, k: Key)
    requires !Has(d, k)
    ensures Pop(d, k) == d
  {
    if d != [] {
      assert d[|d| - 1] in d;
      PopAbsent(d[..|d| - 1], k);
    }
  }

  lemma PopOne(s: Schedule, b: Block, date: Date, hidden: set<int>, id: int)
    ensures Pop(BlockEntry(s, b, date, hidden), BlockKey(id)) == BlockEntry(s, b, date, hidden + {id})
  {
    assert [Entry(BlockKey(b.id), BlockItem(s, b, date))][..0] == [];
  }

  lemma {:induction false} PopBlock(s: Schedule, blocks: seq<Block>, date: Date, hidden: set<int>, id: int)
    ensures Pop(BlockEntries(s, blocks, date, hidden), BlockKey(id)) == BlockEntries(s, blocks, date, hidden + {id})
  {
    if blocks != [] {
      var front, b := blocks[..|blocks| - 1], blocks[|blocks| - 1];
      PopBlock(s, front, date, hidden, id);
      PopOne(s, b, date, hidden, id);
      PopConcat(BlockEntries(s, front, date, hidden), BlockEntry(s, b, date, hidden), BlockKey(id));
    }
  }

  // ---------------------------------------------------------------- sorting

  /** _agenda_sort_key: start, end, lower-cased subject name. */
  predicate Leq(a: Item, b: Item) {
    || a.start < b.start
    || (a.start == b.start && (a.end < b.end
        || (a.end == b.end && LexLeq(Lower(a.subject.name), Lower(b.subject.name)))))
  }

  function InsertItem(it: Item, xs: seq<Item>): seq<Item> {
    if xs == [] || Leq(xs[|xs| - 1], it) then xs + [it]
    else InsertItem(it, xs[..|xs| - 1]) + [xs[|xs| - 1]]
  }

  /** sorted(): stable, so an item goes after the earlier ones with an equal key. */
  function SortItems(xs: seq<Item>): seq<Item> {
    if xs == [] then [] else InsertItem(xs[|xs| - 1], SortItems(xs[..|xs| - 1]))
  }

  predicate Sorted(xs: seq<Item>) {
    forall i, j {:trigger Leq(xs[i], xs[j])} :: 0 <= i < j < |xs| ==> Leq(xs[i], xs[j])
  }

  lemma LeqTransitive(a: Item, b: Item, c: Item)
    requires Leq(a, b) && Leq(b, c)
    ensures Leq(a, c)
  {
    if a.start == b.start == c.start && a.end == b.end == c.end {
      LexTransitive(Lower(a.subject.name), Lower(b.subject.name), Lower(c.subject.name));
    }
  }

  lemma LeqTotal(a: Item, b: Item)
    ensures Leq(a, b) || Leq(b, a)
  {
    LexTotal(Lower(a.subject.name), Lower(b.subject.name));
  }

  lemma {:induction false} InsertSorted(it: Item, xs: seq<Item>)
    requires Sorted(xs)
    ensures var r := InsertItem(it, xs);
            Sorted(r) && multiset(r) == multiset(xs) + multiset{it}
  {
    if xs != [] {
      var last, front := xs[|xs| - 1], xs[..|xs| - 1];
      assert xs == front + [last];
      if Leq(last, it) {
        forall i | 0 <= i < |xs| ensures Leq(xs[i], it) {
          if i < |xs| - 1 { LeqTransitive(xs[i], last, it); }
        }
      } else {
        LeqTotal(last, it);
        InsertSorted(it, front);
        var r := InsertItem(it, front);
        forall i | 0 <= i < |r| ensures Leq(r[i], last) {
          assert r[i] in multiset(r);
          assert r[i] in front || r[i] == it;
        }
      }
    }
  }

  lemma {:induction false} SortSorts(xs: seq<Item>)
    ensures Sorted(SortItems(xs)) && multiset(SortItems(xs)) == multiset(xs)
  {
    if xs != [] {
      SortSorts(xs[..|xs| - 1]);
      InsertSorted(xs[|xs| - 1], SortItems(xs[..|xs| - 1]));
      assert xs == xs[..|xs| - 1] + [xs[|xs| - 1]];
    }
  }

  // ---------------------------------------------------------------- the builder

  ghost function DailyAgenda(ss: seq<Schedule>, date: Date, skip: Option<int>): seq<Item> {
    SortItems(Values(Entries(ss, date, skip)))
  }

  /** The insert-and-pop loop returns the closed form, ties included. */
  method BuildDailyAgenda(ss: seq<Schedule>, date: Date, skip: Option<int>) returns (agenda: seq<Item>)
    requires WellFormed(ss)
    ensures agenda == DailyAgenda(ss, date, skip)
  {
    var items: Dict := [];
    for n := 0 to |ss|
      invariant items == Entries(ss[..n], date, skip)
    {
      items := InsertBlocks(ss, n, items, date, skip);
      items := ApplyOverrides(ss, n, items, date, skip);
      assert ss[..n + 1][..n] == ss[..n];
    }
    assert ss[..|ss|] == ss;
    agenda := SortItems(Values(items));
  }

  /** First inner loop: every block of the weekday goes in. */
  method InsertBlocks(ss: seq<Schedule>, n: nat, before: Dict, date: Date, skip: Option<int>) returns (items: Dict)
    requires WellFormed(ss) && n < |ss| && before == Entries(ss[..n], date, skip)
    ensures items == before + BlockEntries(ss[n], ss[n].blocks, date, {})
  {
    var s := ss[n];
    items := before;
    for b := 0 to |s.blocks|
      invariant items == before + BlockEntries(s, s.blocks[..b], date, {})
    {
      BlockStep(ss, n, b, before, date, skip);
      if s.blocks[b].day == Weekday(date) {
        items := Put(items, BlockKey(s.blocks[b].id), BlockItem(s, s.blocks[b], date));
      }
    }
    assert s.blocks[..|s.blocks|] == s.blocks;
  }

  lemma BlockStep(ss: seq<Schedule>, n: nat, b: nat, before: Dict, date: Date, skip: Option<int>)
    requires WellFormed(ss) && n < |ss| && b < |ss[n].blocks| && before == Entries(ss[..n], date, skip)
    ensures var s := ss[n];
            before + BlockEntries(s, s.blocks[..b + 1], date, {})
            == if s.blocks[b].day == Weekday(date)
               then Put(before + BlockEntries(s, s.blocks[..b], date, {}), BlockKey(s.blocks[b].id),
                        BlockItem(s, s.blocks[b], date))
               else before + BlockEntries(s, s.blocks[..b], date, {})
  {
    var s := ss[n];
    var items := before + BlockEntries(s, s.blocks[..b], date, {});
    assert s.blocks[..b + 1][..b] == s.blocks[..b];
    if s.blocks[b].day == Weekday(date) {
      BlockKeyFresh(ss, n, b, date, skip);
      PutFresh(items, BlockKey(s.blocks[b].id), BlockItem(s, s.blocks[b], date));
    }
  }

  /** Second inner loop: overrides pop their block and put their own item. */
  method ApplyOverrides(ss: seq<Schedule>, n: nat, before: Dict, date: Date, skip: Option<int>) returns (items: Dict)
    requires WellFormed(ss) && n < |ss|
    requires before == Entries(ss[..n], date, skip) + BlockEntries(ss[n], ss[n].blocks, date, {})
    ensures items == Entries(ss[..n], date, skip) + ScheduleEntries(ss[n], date, skip)
  {
    items := before;
    NoneApplied(ss, n, date, skip);
    for j := 0 to |ss[n].overrides|
      invariant items == Applied(ss, n, j, date, skip)
    {
      OverrideStep(ss, n, j, date, skip);
      items := ApplyOverride(ss[n], ss[n].overrides[j], items, date, skip);
    }
    AllApplied(ss, n, date, skip);
  }

  /** One turn: the override's block goes, and its own item is put. */
  method ApplyOverride(s: Schedule, o: Override, before: Dict, date: Date, skip: Option<int>) returns (items: Dict)
    ensures items == AfterOverride(s, o, before, date, skip)
  {
    items := before;
    if Applies(o, date, skip) {
      if Hides(o) {
        items := Pop(items, BlockKey(o.original.value));
      }
      if Shows(s, o) {
        items := Put(items, OverrideKey(o.id), OverrideItem(s, o));
      }
    }
  }

  function AfterOverride(s: Schedule, o: Override, items: Dict, date: Date, skip: Option<int>): Dict {
    var popped := if Applies(o, date, skip) && Hides(o) then Pop(items, BlockKey(o.original.value)) else items;
    if Applies(o, date, skip) && Shows(s, o) then Put(popped, OverrideKey(o.id), OverrideItem(s, o)) else popped
  }

  /** The entries once the first j overrides of schedule n are done, and those hidden ids popped. */
  ghost function Partial(ss: seq<Schedule>, n: nat, j: nat, hidden: set<int>, date: Date, skip: Option<int>): Dict
    requires n < |ss| && j <= |ss[n].overrides|
  {
    Entries(ss[..n], date, skip) + BlockEntries(ss[n], ss[n].blocks, date, hidden)
    + OverrideEntries(ss[n], ss[n].overrides[..j], date, skip)
  }

  /** The entries once the first j overrides of schedule n are done. */
  ghost function Applied(ss: seq<Schedule>, n: nat, j: nat, date: Date, skip: Option<int>): Dict
    requires n < |ss| && j <= |ss[n].overrides|
  {
    Partial(ss, n, j, Hidden(ss[n].overrides[..j], date, skip), date, skip)
  }

  lemma NoneApplied(ss: seq<Schedule>, n: nat, date: Date, skip: Option<int>)
    requires n < |ss|
    ensures Applied(ss, n, 0, date, skip) == Entries(ss[..n], date, skip) + BlockEntries(ss[n], ss[n].blocks, date, {})
  {
    assert Hidden(ss[n].overrides[..0], date, skip) == {};
    assert OverrideEntries(ss[n], ss[n].overrides[..0], date, skip) == [];
  }

  lemma AllApplied(ss: seq<Schedule>, n: nat, date: Date, skip: Option<int>)
    requires n < |ss|
    ensures Applied(ss, n, |ss[n].overrides|, date, skip)
            == Entries(ss[..n], date, skip) + ScheduleEntries(ss[n], date, skip)
  {
    var s := ss[n];
    assert s.overrides[..|s.overrides|] == s.overrides;
    var a, b, c := Entries(ss[..n], date, skip), BlockEntries(s, s.blocks, date, Hidden(s.overrides, date, skip)),
                   OverrideEntries(s, s.overrides, date, skip);
    assert (a + b) + c == a + (b + c);
  }

  lemma PutOverride(ss: seq<Schedule>, n: nat, j: nat, hidden: set<int>, date: Date, skip: Option<int>)
    requires WellFormed(ss) && n < |ss| && j < |ss[n].overrides|
    requires Applies(ss[n].overrides[j], date, skip) && Shows(ss[n], ss[n].overrides[j])
    ensures var s, o := ss[n], ss[n].overrides[j];
            Put(Partial(ss, n, j, hidden, date, skip), OverrideKey(o.id), OverrideItem(s, o))
            == Partial(ss, n, j + 1, hidden, date, skip)
  {
    var s, o := ss[n], ss[n].overrides[j];
    OverrideKeyFresh(ss, n, j, date, skip, hidden);
    PutFresh(Partial(ss, n, j, hidden, date, skip), OverrideKey(o.id), OverrideItem(s, o));
    OverrideEntriesSnoc(s, j, date, skip);
  }

  lemma SkipOverride(ss: seq<Schedule>, n: nat, j: nat, hidden: set<int>, date: Date, skip: Option<int>)
    requires n < |ss| && j < |ss[n].overrides|
    requires !(Applies(ss[n].overrides[j], date, skip) && Shows(ss[n], ss[n].overrides[j]))
    ensures Partial(ss, n, j, hidden, date, skip) == Partial(ss, n, j + 1, hidden, date, skip)
  {
    OverrideEntriesSnoc(ss[n], j, date, skip);
  }

  /** One override's pop and put, on the closed form reached so far. */
  lemma OverrideStep(ss: seq<Schedule>, n: nat, j: nat, date: Date, skip: Option<int>)
    requires WellFormed(ss) && n < |ss| && j < |ss[n].overrides|
    ensures var s, o := ss[n], ss[n].overrides[j];
            AfterOverride(s, o, Applied(ss, n, j, date, skip), date, skip) == Applied(ss, n, j + 1, date, skip)
  {
    var s, o := ss[n], ss[n].overrides[j];
    var hidden' := Hidden(s.overrides[..j + 1], date, skip);
    HiddenSnoc(s.overrides, j, date, skip);
    if Applies(o, date, skip) && Hides(o) {
      PopOverridden(ss, n, j, date, skip);
    } else {
      assert hidden' == Hidden(s.overrides[..j], date, skip);
    }
    if Applies(o, date, skip) && Shows(s, o) {
      PutOverride(ss, n, j, hidden', date, skip);
    } else {
      SkipOverride(ss, n, j, hidden', date, skip);
    }
  }

  lemma OverrideEntriesSnoc(s: Schedule, j: nat, date: Date, skip: Option<int>)
    requires j < |s.overrides|
    ensures OverrideEntries(s, s.overrides[..j + 1], date, skip)
         == OverrideEntries(s, s.overrides[..j], date, skip) + OverrideEntry(s, s.overrides[j], date, skip)
  {
    assert s.overrides[..j + 1][..j] == s.overrides[..j];
  }

  lemma HiddenSnoc(os: seq<Override>, j: nat, date: Date, skip: Option<int>)
    requires j < |os|
    ensures Hidden(os[..j + 1], date, skip)
            == Hidden(os[..j], date, skip)
               + if Applies(os[j], date, skip) && Hides(os[j]) then {os[j].original.value} else {}
  {
    assert os[..j + 1] == os[..j] + [os[j]];
    var a, b := Hidden(os[..j + 1], date, skip), Hidden(os[..j], date, skip);
    forall x | x in a
      ensures x in b || (Applies(os[j], date, skip) && Hides(os[j]) && x == os[j].original.value)
    {
      var o :| o in os[..j + 1] && Applies(o, date, skip) && Hides(o) && o.original.value == x;
    }
    forall x | x in b ensures x in a {
      var o :| o in os[..j] && Applies(o, date, skip) && Hides(o) && o.original.value == x;
      assert o in os[..j + 1];
    }
    if Applies(os[j], date, skip) && Hides(os[j]) {
      assert os[j] in os[..j + 1];
    }
  }

  /** An entry of an earlier schedule has no key of schedule n's rows. */
  lemma EarlierEntry(ss: seq<Schedule>, n: nat, date: Date, skip: Option<int>, e: Entry)
    requires WellFormed(ss) && n < |ss| && e in Entries(ss[..n], date, skip)
    ensures forall b :: b in ss[n].blocks ==> e.key != BlockKey(b.id)
    ensures forall o :: o in ss[n].overrides ==> e.key != OverrideKey(o.id)
  {
    InEntries(ss[..n], date, skip, e);
    var s :| s in ss[..n] && Contributes(s, date, skip, e);
    var i :| 0 <= i < n && ss[i] == s;
    assert Apart(ss[i], ss[n]);
  }

  lemma BlockKeyFresh(ss: seq<Schedule>, n: nat, b: nat, date: Date, skip: Option<int>)
    requires WellFormed(ss) && n < |ss| && b < |ss[n].blocks|
    ensures !Has(Entries(ss[..n], date, skip) + BlockEntries(ss[n], ss[n].blocks[..b], date, {}),
                 BlockKey(ss[n].blocks[b].id))
  {
    forall e | e in Entries(ss[..n], date, skip)
      ensures e.key != BlockKey(ss[n].blocks[b].id)
    {
      EarlierEntry(ss, n, date, skip, e);
    }
    assert UniqueRows(ss[n]);
    forall e | e in BlockEntries(ss[n], ss[n].blocks[..b], date, {})
      ensures e.key != BlockKey(ss[n].blocks[b].id)
    {
      InBlockEntries(ss[n], ss[n].blocks[..b], date, {}, e);
    }
  }

  lemma OverrideKeyFresh(ss: seq<Schedule>, n: nat, j: nat, date: Date, skip: Option<int>, hidden: set<int>)
    requires WellFormed(ss) && n < |ss| && j < |ss[n].overrides|
    ensures !Has(Entries(ss[..n], date, skip) + BlockEntries(ss[n], ss[n].blocks, date, hidden)
                 + OverrideEntries(ss[n], ss[n].overrides[..j], date, skip), OverrideKey(ss[n].overrides[j].id))
  {
    forall e | e in Entries(ss[..n], date, skip)
      ensures e.key != OverrideKey(ss[n].overrides[j].id)
    {
      EarlierEntry(ss, n, date, skip, e);
    }
    forall e | e in BlockEntries(ss[n], ss[n].blocks, date, hidden)
      ensures e.key != OverrideKey(ss[n].overrides[j].id)
    {
      InBlockEntries(ss[n], ss[n].blocks, date, hidden, e);
    }
    assert UniqueRows(ss[n]);
    forall e | e in OverrideEntries(ss[n], ss[n].overrides[..j], date, skip)
      ensures e.key != OverrideKey(ss[n].overrides[j].id)
    {
      InOverrideEntries(ss[n], ss[n].overrides[..j], date, skip, e);
    }
  }

  /** Popping an override's block touches its own schedule's block entries only. */
  lemma PopOverridden(ss: seq<Schedule>, n: nat, j: nat, date: Date, skip: Option<int>)
    requires WellFormed(ss) && n < |ss| && j < |ss[n].overrides| && Hides(ss[n].overrides[j])
    ensures var k, hidden := BlockKey(ss[n].overrides[j].original.value), Hidden(ss[n].overrides[..j], date, skip);
            Pop(Partial(ss, n, j, hidden, date, skip), k) == Partial(ss, n, j, hidden + {k.block}, date, skip)
  {
    var s, k := ss[n], BlockKey(ss[n].overrides[j].original.value);
    var a, hidden := Entries(ss[..n], date, skip), Hidden(s.overrides[..j], date, skip);
    var c := OverrideEntries(s, s.overrides[..j], date, skip);
    var b := BlockEntries(s, s.blocks, date, hidden);
    assert UniqueRows(s) && OwnBlock(s, k.block);
    forall e | e in a ensures e.key != k {
      EarlierEntry(ss, n, date, skip, e);
    }
    forall e | e in c ensures e.key != k {
      InOverrideEntries(s, s.overrides[..j], date, skip, e);
    }
    PopAbsent(a, k);
    PopAbsent(c, k);
    PopBlock(s, s.blocks, date, hidden, k.block);
    PopConcat(a + b, c, k);
    PopConcat(a, b, k);
  }
}
