/** Placing a package's lessons on class slots (backend/routers/lesson_plans.py, lines 556-560 and 619-640). */
module LessonSlots {
  import opened Wrappers
  import opened Counting
  import opened Agenda
  import opened AgendaOrder
  import opened SchoolDays

  datatype Slot = Slot(date: Date, time: Time)

  /** The agenda items of one subject, in agenda order. */
  function SubjectSlots(agenda: seq<Item>, subject: int, d: Date): seq<Slot> {
    if agenda == [] then []
    else SubjectSlots(agenda[..|agenda| - 1], subject, d)
         + if agenda[|agenda| - 1].subject.id == subject then [Slot(d, agenda[|agenda| - 1].start)] else []
  }

  ghost function DaySlots(ss: seq<Schedule>, subject: int, events: seq<Event>, d: Date): seq<Slot> {
    if Instructional(events, d) then SubjectSlots(DailyAgenda(ss, d, None), subject, d) else []
  }

  /** Every qualifying slot from first up to, not including, stop: by day, then agenda order. */
  ghost function SlotsBefore(slotsOn: Date -> seq<Slot>, first: Date, stop: Date): seq<Slot>
    decreases stop - first
  {
    if first >= stop then [] else SlotsBefore(slotsOn, first, stop - 1) + slotsOn(stop - 1)
  }

  ghost function SlotsOn(ss: seq<Schedule>, subject: int, events: seq<Event>): Date -> seq<Slot> {
    d => DaySlots(ss, subject, events, d)
  }

  ghost function AllSlots(ss: seq<Schedule>, subject: int, events: seq<Event>, first: Date, last: Date): seq<Slot> {
    SlotsBefore(SlotsOn(ss, subject, events), first, last + 1)
  }

  ghost function Take(xs: seq<Slot>, n: nat): seq<Slot> {
    if n <= |xs| then xs[..n] else xs
  }

  /** The calendar walk collects the first wanted slots of the enumeration and stops. */
  method CollectSlots(ss: seq<Schedule>, subject: int, events: seq<Event>, first: Date, last: Date, wanted: nat)
    returns (slots: seq<Slot>)
    requires WellFormed(ss)
    ensures slots == Take(AllSlots(ss, subject, events, first, last), wanted)
  {
    var eventMap := BuildEventMap(events);
    slots := Walk(ss, subject, events, eventMap, SlotsOn(ss, subject, events), first, last, wanted);
  }

  /** The loop over the days. */
  method Walk(ss: seq<Schedule>, subject: int, events: seq<Event>, eventMap: map<Date, bool>,
              ghost slotsOn: Date -> seq<Slot>, first: Date, last: Date, wanted: nat)
    returns (slots: seq<Slot>)
    requires WellFormed(ss) && IsEventMap(events, eventMap) && EachDay(slotsOn, ss, subject, events)
    ensures slots == Collected(slotsOn, first, last + 1, wanted)
  {
    slots := [];
    var day := first;
    while day <= last && |slots| < wanted
      invariant first <= day && (day <= last + 1 || day == first)
      invariant slots == Collected(slotsOn, first, day, wanted)
      decreases last - day
    {
      slots := WalkDay(ss, subject, events, eventMap, slotsOn, first, day, slots, wanted);
      day := day + 1;
    }
    WalkDone(slotsOn, first, day, last, wanted);
  }

  ghost predicate OnDay(slotsOn: Date -> seq<Slot>, ss: seq<Schedule>, subject: int, events: seq<Event>, d: Date) {
    slotsOn(d) == DaySlots(ss, subject, events, d)
  }

  ghost predicate EachDay(slotsOn: Date -> seq<Slot>, ss: seq<Schedule>, subject: int, events: seq<Event>) {
    forall d :: OnDay(slotsOn, ss, subject, events, d)
  }

  /** The slots collected before a day. */
  ghost function Collected(slotsOn: Date -> seq<Slot>, first: Date, day: Date, wanted: nat): seq<Slot> {
    Take(SlotsBefore(slotsOn, first, day), wanted)
  }

  /** The body of the walk. */
  method WalkDay(ss: seq<Schedule>, subject: int, events: seq<Event>, eventMap: map<Date, bool>,
                 ghost slotsOn: Date -> seq<Slot>, first: Date, day: Date, before: seq<Slot>, wanted: nat)
    returns (slots: seq<Slot>)
    requires WellFormed(ss) && first <= day && IsEventMap(events, eventMap) && |before| < wanted
    requires EachDay(slotsOn, ss, subject, events) && before == Collected(slotsOn, first, day, wanted)
    ensures slots == Collected(slotsOn, first, day + 1, wanted)
  {
    WalkStep(ss, subject, events, eventMap, slotsOn, first, day, wanted);
    slots := before;
    if Lookup(eventMap, day) {
      slots := TakeAgendaDay(ss, subject, events, day, before, wanted);
    }
  }

  /** The walk has passed the last day or has enough. */
  lemma WalkDone(slotsOn: Date -> seq<Slot>, first: Date, day: Date, last: Date, wanted: nat)
    requires first <= day && (day <= last + 1 || day == first)
    requires day > last || |Collected(slotsOn, first, day, wanted)| >= wanted
    ensures Collected(slotsOn, first, day, wanted) == Collected(slotsOn, first, last + 1, wanted)
  {
    if day <= last {
      SlotsPrefix(slotsOn, first, day, last + 1);
      EnoughTaken(SlotsBefore(slotsOn, first, day), SlotsBefore(slotsOn, first, last + 1), wanted);
    }
  }

  lemma EnoughTaken(a: seq<Slot>, b: seq<Slot>, n: nat)
    requires a <= b && |Take(a, n)| >= n
    ensures Take(a, n) == Take(b, n)
  {
  }

  lemma WalkStep(ss: seq<Schedule>, subject: int, events: seq<Event>, m: map<Date, bool>, slotsOn: Date -> seq<Slot>,
                 first: Date, day: Date, wanted: nat)
    requires first <= day && IsEventMap(events, m) && EachDay(slotsOn, ss, subject, events)
    requires |Collected(slotsOn, first, day, wanted)| < wanted
    ensures var before := Collected(slotsOn, first, day, wanted);
            Collected(slotsOn, first, day + 1, wanted)
            == if Lookup(m, day) then Take(before + DaySlots(ss, subject, events, day), wanted) else before
    ensures Lookup(m, day) ==> Instructional(events, day)
  {
    assert OnDay(slotsOn, ss, subject, events, day);
  }

  /** The body of the walk on an instructional day. */
  method TakeAgendaDay(ss: seq<Schedule>, subject: int, events: seq<Event>, day: Date, before: seq<Slot>, wanted: nat)
    returns (slots: seq<Slot>)
    requires WellFormed(ss) && |before| < wanted && Instructional(events, day)
    ensures slots == Take(before + DaySlots(ss, subject, events, day), wanted)
  {
    var agenda := BuildDailyAgenda(ss, day, None);
    slots := TakeDay(agenda, subject, day, before, wanted);
  }

  /** The inner loop over one day's agenda, leaving as soon as there are enough slots. */
  method TakeDay(agenda: seq<Item>, subject: int, day: Date, before: seq<Slot>, wanted: nat) returns (slots: seq<Slot>)
    requires |before| < wanted
    ensures slots == Take(before + SubjectSlots(agenda, subject, day), wanted)
  {
    slots := before;
    for i := 0 to |agenda|
      invariant |slots| < wanted
      invariant slots == before + SubjectSlots(agenda[..i], subject, day)
    {
      assert agenda[..i + 1][..i] == agenda[..i];
      if agenda[i].subject.id == subject {
        slots := slots + [Slot(day, agenda[i].start)];
        if |slots| >= wanted {
          SubjectSlotsPrefix(agenda, subject, day, i + 1);
          assert slots <= before + SubjectSlots(agenda, subject, day);
          return;
        }
      }
    }
    assert agenda[..|agenda|] == agenda;
  }

  lemma {:induction false} SubjectSlotsPrefix(agenda: seq<Item>, subject: int, d: Date, i: nat)
    requires i <= |agenda|
    ensures SubjectSlots(agenda[..i], subject, d) <= SubjectSlots(agenda, subject, d)
  {
    if i == |agenda| {
      assert agenda[..i] == agenda;
    } else {
      assert agenda[..|agenda| - 1][..i] == agenda[..i];
      SubjectSlotsPrefix(agenda[..|agenda| - 1], subject, d, i);
    }
  }

  lemma {:induction false} SlotsPrefix(slotsOn: Date -> seq<Slot>, first: Date, mid: Date, stop: Date)
    requires mid <= stop
    ensures SlotsBefore(slotsOn, first, mid) <= SlotsBefore(slotsOn, first, stop)
    decreases stop - mid
  {
    if mid < stop && first < stop {
      SlotsPrefix(slotsOn, first, mid, stop - 1);
    }
  }

  // ---------------------------------------------------------------- which slots qualify

  /** One slot for each agenda item of the subject, in agenda order, and no other. */
  lemma {:induction false} SubjectSlotsAre(agenda: seq<Item>, subject: int, d: Date) returns (at: seq<nat>)
    ensures KeepsOrder(at) && |at| == |SubjectSlots(agenda, subject, d)|
    ensures forall k :: 0 <= k < |at| ==> at[k] < |agenda| && agenda[at[k]].subject.id == subject
                                          && SubjectSlots(agenda, subject, d)[k] == Slot(d, agenda[at[k]].start)
    ensures forall i :: 0 <= i < |agenda| && agenda[i].subject.id == subject ==> i in at
  {
    if agenda == [] {
      return [];
    }
    var n := |agenda| - 1;
    at := SubjectSlotsAre(agenda[..n], subject, d);
    if agenda[n].subject.id == subject {
      at := at + [n];
    }
  }

  /** The day's agenda has a class of the subject that starts then. */
  ghost predicate HasClass(agenda: seq<Item>, subject: int, time: Time) {
    exists it :: it in agenda && it.subject.id == subject && it.start == time
  }

  lemma InSubjectSlots(agenda: seq<Item>, subject: int, d: Date, s: Slot)
    ensures s in SubjectSlots(agenda, subject, d) <==> s.date == d && HasClass(agenda, subject, s.time)
  {
    var at := SubjectSlotsAre(agenda, subject, d);
    if s in SubjectSlots(agenda, subject, d) {
      var k :| 0 <= k < |at| && SubjectSlots(agenda, subject, d)[k] == s;
      assert agenda[at[k]] in agenda;
    }
    if s.date == d && HasClass(agenda, subject, s.time) {
      var i :| 0 <= i < |agenda| && agenda[i].subject.id == subject && agenda[i].start == s.time;
      assert i in at;
      var k :| 0 <= k < |at| && at[k] == i;
      assert SubjectSlots(agenda, subject, d)[k] == s;
    }
  }

  lemma {:induction false} InSlotsBefore(slotsOn: Date -> seq<Slot>, first: Date, stop: Date, s: Slot)
    requires forall d, x :: x in slotsOn(d) ==> x.date == d
    ensures s in SlotsBefore(slotsOn, first, stop) <==> first <= s.date < stop && s in slotsOn(s.date)
    decreases stop - first
  {
    if first < stop {
      InSlotsBefore(slotsOn, first, stop - 1, s);
    }
  }

  /** The slots to choose from: the classes of the subject on the school days of the span. */
  lemma InAllSlots(ss: seq<Schedule>, subject: int, events: seq<Event>, first: Date, last: Date, s: Slot)
    ensures s in AllSlots(ss, subject, events, first, last)
            <==> first <= s.date <= last && Instructional(events, s.date)
                 && HasClass(DailyAgenda(ss, s.date, None), subject, s.time)
  {
    var slotsOn := SlotsOn(ss, subject, events);
    forall d, x | x in slotsOn(d) ensures x.date == d {
      InSlotsOn(ss, subject, events, d, x);
    }
    InSlotsBefore(slotsOn, first, last + 1, s);
    InSlotsOn(ss, subject, events, s.date, s);
  }

  lemma InSlotsOn(ss: seq<Schedule>, subject: int, events: seq<Event>, d: Date, x: Slot)
    ensures x in SlotsOn(ss, subject, events)(d)
            <==> x.date == d && Instructional(events, d) && HasClass(DailyAgenda(ss, d, None), subject, x.time)
  {
    InSubjectSlots(DailyAgenda(ss, d, None), subject, d, x);
  }

  // ---------------------------------------------------------------- the enumeration is in time order

  predicate SlotLeq(a: Slot, b: Slot) {
    a.date < b.date || (a.date == b.date && a.time <= b.time)
  }

  predicate InOrder(xs: seq<Slot>) {
    forall i, j {:trigger SlotLeq(xs[i], xs[j])} :: 0 <= i < j < |xs| ==> SlotLeq(xs[i], xs[j])
  }

  lemma {:induction false} SubjectSlotsInOrder(agenda: seq<Item>, subject: int, d: Date)
    requires Sorted(agenda)
    ensures InOrder(SubjectSlots(agenda, subject, d))
    ensures forall s :: s in SubjectSlots(agenda, subject, d) ==>
              s.date == d && exists i :: 0 <= i < |agenda| && agenda[i].start == s.time
  {
    if agenda != [] {
      var front, last := agenda[..|agenda| - 1], agenda[|agenda| - 1];
      SubjectSlotsInOrder(front, subject, d);
      forall s | s in SubjectSlots(front, subject, d)
        ensures s.time <= last.start
      {
        var i :| 0 <= i < |front| && front[i].start == s.time;
        assert Leq(agenda[i], agenda[|agenda| - 1]);
      }
    }
  }

  lemma {:induction false} SlotsInOrder(ss: seq<Schedule>, subject: int, events: seq<Event>, first: Date, stop: Date)
    requires WellFormed(ss)
    ensures InOrder(SlotsBefore(SlotsOn(ss, subject, events), first, stop))
    ensures forall s :: s in SlotsBefore(SlotsOn(ss, subject, events), first, stop) ==> first <= s.date < stop
    decreases stop - first
  {
    if first < stop {
      SlotsInOrder(ss, subject, events, first, stop - 1);
      DayInOrder(ss, subject, events, stop - 1);
      InOrderConcat(SlotsBefore(SlotsOn(ss, subject, events), first, stop - 1),
                    DaySlots(ss, subject, events, stop - 1));
    }
  }

  lemma DayInOrder(ss: seq<Schedule>, subject: int, events: seq<Event>, day: Date)
    requires WellFormed(ss)
    ensures InOrder(DaySlots(ss, subject, events, day))
    ensures forall s :: s in DaySlots(ss, subject, events, day) ==> s.date == day
  {
    AgendaNonOverlapping(ss, day, None);
    SubjectSlotsInOrder(DailyAgenda(ss, day, None), subject, day);
  }

  lemma InOrderConcat(a: seq<Slot>, b: seq<Slot>)
    requires InOrder(a) && InOrder(b) && forall s, t :: s in a && t in b ==> s.date < t.date
    ensures InOrder(a + b)
  {
    forall i, j | 0 <= i < j < |a + b| ensures SlotLeq((a + b)[i], (a + b)[j]) {
      if i < |a| <= j {
        assert a[i] in a && b[j - |a|] in b;
      }
    }
  }

  // ---------------------------------------------------------------- the greedy placement is best

  /** A placement names, for each lesson in order, the slot it takes. */
  predicate Placement(p: seq<nat>, slots: nat) {
    Distinct(p) && forall i :: 0 <= i < |p| ==> p[i] < slots
  }

  predicate KeepsOrder(p: seq<nat>) {
    forall i, j :: 0 <= i < j < |p| ==> p[i] < p[j]
  }

  lemma {:induction false} OrderedAtLeast(p: seq<nat>, i: nat)
    requires KeepsOrder(p) && i < |p|
    ensures p[i] >= i
  {
    if i > 0 {
      OrderedAtLeast(p, i - 1);
    }
  }

  /** Among placements that keep the lesson order, the first slots are earliest for every lesson. */
  lemma GreedyEarliest(all: seq<Slot>, p: seq<nat>, i: nat)
    requires InOrder(all) && Placement(p, |all|) && KeepsOrder(p) && i < |p|
    ensures i < |all| && SlotLeq(all[i], all[p[i]])
  {
    OrderedAtLeast(p, i);
  }

  /** No placement at all, in any order, finishes earlier than the first slots do. */
  lemma GreedyFinishesFirst(all: seq<Slot>, p: seq<nat>)
    requires InOrder(all) && Placement(p, |all|) && p != []
    ensures |p| <= |all| && exists i :: 0 <= i < |p| && SlotLeq(all[|p| - 1], all[p[i]])
  {
    Pigeonhole(p, |all|);
    if forall i :: 0 <= i < |p| ==> p[i] < |p| - 1 {
      Pigeonhole(p, |p| - 1);
    } else {
      var i :| 0 <= i < |p| && p[i] >= |p| - 1;
      assert SlotLeq(all[|p| - 1], all[p[i]]);
    }
  }

  /** A placement of n lessons exists exactly when there are n slots: generation rejects nothing
      that could be placed. */
  lemma PlaceableIff(all: seq<Slot>, n: nat)
    ensures (exists p: seq<nat> :: |p| == n && Placement(p, |all|)) <==> n <= |all|
  {
    if n <= |all| {
      var p: seq<nat> := seq(n, i => i);
      assert |p| == n && Placement(p, |all|);
    }
    forall p: seq<nat> | |p| == n && Placement(p, |all|)
      ensures n <= |all|
    {
      Pigeonhole(p, |all|);
    }
  }
}
