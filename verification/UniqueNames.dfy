/** Resource names that stay unique while a curriculum is activated
    (backend/routers/curriculum.py, lines 378-395, 665-667 and 742-747). */
module UniqueNames {
  import opened Wrappers
  import opened Strings
  import opened Counting

  // ---------------------------------------------------------------- candidate names

  /** s[:k] as Python slices it: a negative k counts from the end. */
  function Prefix(s: string, k: int): (r: string)
    ensures r <= s
  {
    if k >= |s| then s else if k >= 0 then s[..k] else if |s| + k >= 0 then s[..|s| + k] else []
  }

  /** _truncate_name. */
  function TruncateName(value: string, maxLength: int): (r: string)
    ensures r <= value
    ensures maxLength >= 1 ==> |r| <= maxLength
  {
    if |value| <= maxLength then value else TrimRight(Prefix(value, maxLength - 1))
  }

  /** How much of a name that is too long is looked at: with no room left the slice counts from the end. */
  function Reach(size: nat, maxLength: int): nat {
    if maxLength >= 1 then maxLength - 1 else if size + maxLength >= 1 then size + maxLength - 1 else 0
  }

  /** A name that fits is kept; of a longer one everything within reach is kept but trailing whitespace. */
  lemma TruncatedIs(value: string, maxLength: int)
    ensures |value| <= maxLength ==> TruncateName(value, maxLength) == value
    ensures |value| > maxLength ==>
              var r, reach := TruncateName(value, maxLength), Reach(|value|, maxLength);
              && |r| <= reach <= |value| && r <= value && (r != [] ==> !Space(r[|r| - 1]))
              && Blank(value[|r|..reach])
  {
    var reach := Reach(|value|, maxLength);
    if |value| > maxLength {
      assert Prefix(value, maxLength - 1) == value[..reach];
      var after := TrimRightIs(value[..reach]);
      assert value[|TruncateName(value, maxLength)|..reach] == after;
    }
  }

  function Suffix(counter: nat): string {
    " (" + Decimal(counter) + ")"
  }

  /** The first candidate is the name itself, the later ones are numbered from 2. */
  function Candidate(base: string, counter: nat, maxLength: int): string {
    if counter < 2 then TruncateName(base, maxLength)
    else TruncateName(base, maxLength - |Suffix(counter)|) + Suffix(counter)
  }

  /** A later candidate ends in its number in brackets, after as much of the name as that leaves room for. */
  lemma CandidateIs(base: string, counter: nat, maxLength: int) returns (front: string, numeral: string)
    requires counter >= 2
    ensures Candidate(base, counter, maxLength) == front + " (" + numeral + ")"
    ensures numeral != [] && NumeralValue(numeral) == counter && (forall i :: 0 <= i < |numeral| ==> Digit(numeral[i]))
    ensures front == TruncateName(base, maxLength - |numeral| - 3)
  {
    front, numeral := TruncateName(base, maxLength - |Suffix(counter)|), Decimal(counter);
    DecimalValue(counter);
    assert front + (" (" + numeral + ")") == front + " (" + numeral + ")";
  }

  /** Two numbered candidates with the same text have the same number. */
  lemma CandidatesDiffer(base: string, i: nat, j: nat, maxLength: int)
    requires 2 <= i && 2 <= j && Candidate(base, i, maxLength) == Candidate(base, j, maxLength)
    ensures i == j
  {
    SuffixDetermines(TruncateName(base, maxLength - |Suffix(i)|), i, TruncateName(base, maxLength - |Suffix(j)|), j);
  }

  /** The number after the last bracket can be read off. */
  lemma SuffixDetermines(a: string, i: nat, b: string, j: nat)
    requires a + Suffix(i) == b + Suffix(j)
    ensures i == j
  {
    if |a| > |b| {
      NotInside(b, j, a, i);
    } else if |a| < |b| {
      NotInside(a, i, b, j);
    }
    var s := a + Suffix(i);
    assert s[|a| + 2..|s| - 1] == Decimal(i);
    assert (b + Suffix(j))[|b| + 2..|s| - 1] == Decimal(j);
    DecimalValue(i);
    DecimalValue(j);
  }

  /** A longer text in front would put a bracket among digits. */
  lemma NotInside(b: string, j: nat, a: string, i: nat)
    requires |a| > |b|
    ensures a + Suffix(i) != b + Suffix(j)
  {
    var s, t := a + Suffix(i), b + Suffix(j);
    var k := |a| + 1;
    assert s[k] == '(';
    if |s| == |t| {
      assert k < |t| - 1;
      assert t[k] == Decimal(j)[k - |b| - 2];
      assert Digit(t[k]);
    }
  }

  /** A numbered name fits exactly when its number leaves room for a character, or leaves none and none is kept:
      with no room the slice counts from the end of the name. */
  lemma CandidateFitsIff(base: string, counter: nat, maxLength: int)
    requires maxLength >= 1 && counter >= 2
    ensures |Candidate(base, counter, maxLength)| <= maxLength
            <==> |Suffix(counter)| < maxLength || (|Suffix(counter)| == maxLength && TruncateName(base, 0) == [])
  {
  }

  /** All numbered candidates below k are taken. */
  ghost predicate TakenBelow(base: string, k: nat, maxLength: int, names: set<string>) {
    forall c :: 2 <= c < k ==> Candidate(base, c, maxLength) in names
  }

  /** Pigeonhole: no more candidates can be taken than there are names. */
  lemma TakenCount(base: string, k: nat, maxLength: int, names: set<string>)
    requires 2 <= k && TakenBelow(base, k, maxLength, names)
    ensures k - 2 <= |names|
  {
    var f := (c: int) => Numbered(base, c, maxLength);
    forall x, y | x in Below(k - 2) && y in Below(k - 2) && f(x) == f(y) ensures x == y {
      CandidatesDiffer(base, x + 2, y + 2, maxLength);
    }
    InjectionCount(Below(k - 2), names, f);
  }

  /** The numbered candidates, counted from zero. */
  function Numbered(base: string, c: int, maxLength: int): string {
    if c < 0 then [] else Candidate(base, c + 2, maxLength)
  }

  /** The first free candidate. */
  ghost predicate IsFirstFree(base: string, counter: nat, maxLength: int, names: set<string>) {
    && Candidate(base, counter, maxLength) !in names
    && (counter == 0
        || (counter >= 2 && Candidate(base, 0, maxLength) in names && TakenBelow(base, counter, maxLength, names)))
  }

  /** The name is the first free candidate for base. */
  ghost predicate NamedFor(base: string, name: string, maxLength: int, names: set<string>) {
    exists counter: nat :: IsFirstFree(base, counter, maxLength, names) && name == Candidate(base, counter, maxLength)
  }

  // ---------------------------------------------------------------- the allocator

  lemma TakenNext(base: string, counter: nat, maxLength: int, names: set<string>)
    requires 2 <= counter && TakenBelow(base, counter, maxLength, names) && Candidate(base, counter, maxLength) in names
    ensures TakenBelow(base, counter + 1, maxLength, names)
  {
  }

  /** The numbering loop of _allocate_unique_name. */
  method FirstNumbered(base: string, maxLength: int, names: set<string>) returns (candidate: string, counter: nat)
    ensures 2 <= counter <= |names| + 2 && TakenBelow(base, counter, maxLength, names)
    ensures candidate == Candidate(base, counter, maxLength) && candidate !in names
  {
    counter := 2;
    while true
      invariant 2 <= counter && TakenBelow(base, counter, maxLength, names)
      decreases |names| + 2 - counter
    {
      TakenCount(base, counter, maxLength, names);
      candidate := NumberedName(base, counter, maxLength);
      if candidate !in names {
        return;
      }
      TakenNext(base, counter, maxLength, names);
      counter := counter + 1;
    }
  }

  /** One numbered candidate: the suffix first, the name cut to what it leaves. */
  method NumberedName(base: string, counter: nat, maxLength: int) returns (candidate: string)
    requires counter >= 2
    ensures candidate == Candidate(base, counter, maxLength)
  {
    var suffix := Suffix(counter);
    var trimmed := TruncateName(base, maxLength - |suffix|);
    candidate := trimmed + suffix;
  }

  /** A number of at most 156 digits, so that its suffix leaves room in 160 characters. */
  ghost predicate Modest(n: nat) {
    exists d: nat :: 1 <= d <= 156 && n < PowerOfTen(d)
  }

  lemma ModestFits(base: string, counter: nat, n: nat)
    requires counter <= n
    ensures Modest(n) ==> |Candidate(base, counter, 160)| <= 160
  {
    if Modest(n) && counter >= 2 {
      var d: nat :| 1 <= d <= 156 && n < PowerOfTen(d);
      DecimalLength(counter, d);
      CandidateFitsIff(base, counter, 160);
    }
  }

  class NamePool {
    var names: set<string>

    constructor (names: set<string>)
      ensures this.names == names
    {
      this.names := names;
    }

    /** _allocate_unique_name, which also adds the name it returns. */
    method Allocate(base: string, maxLength: int) returns (name: string, ghost counter: nat)
      modifies this
      ensures names == old(names) + {name} && name !in old(names)
      ensures IsFirstFree(base, counter, maxLength, old(names)) && name == Candidate(base, counter, maxLength)
      ensures counter <= |old(names)| + 2
    {
      var candidate := TruncateName(base, maxLength);
      if candidate !in names {
        names := names + {candidate};
        return candidate, 0;
      }
      candidate, counter := FirstNumbered(base, maxLength, names);
      names := names + {candidate};
      return candidate, counter;
    }

    /** The activation loop: one resource after another takes a name of its own. */
    method AllocateAll(wanted: seq<Wanted>) returns (chosen: seq<string>)
      modifies this
      ensures |chosen| == |wanted| && Distinct(chosen)
      ensures names == old(names) + Elements(chosen)
      ensures forall i :: 0 <= i < |chosen| ==> chosen[i] !in old(names)
      ensures AllNamed(old(names), wanted, chosen)
      ensures Modest(|old(names)| + |wanted| + 2) ==> forall i :: 0 <= i < |chosen| ==> |chosen[i]| <= 160
    {
      chosen := [];
      ghost var before := names;
      for i := 0 to |wanted|
        invariant |chosen| == i && ChosenApart(before, names, chosen)
        invariant AllNamed(before, wanted, chosen)
        invariant Modest(|before| + |wanted| + 2) ==> forall k :: 0 <= k < i ==> |chosen[k]| <= 160
      {
        ghost var taken := names;
        var name, counter := Allocate(BaseName(wanted[i]), 160);
        ChosenNext(before, taken, chosen, name);
        ModestFits(BaseName(wanted[i]), counter, |before| + |wanted| + 2);
        assert IsFirstFree(BaseName(wanted[i]), counter, 160, taken);
        NamedNext(before, taken, wanted, chosen, name);
        chosen := chosen + [name];
      }

    }
  }

  /** The names chosen so far are new, apart, and all that has been added. */
  ghost predicate ChosenApart(before: set<string>, names: set<string>, chosen: seq<string>) {
    && Distinct(chosen) && names == before + Elements(chosen)
    && (forall i :: 0 <= i < |chosen| ==> chosen[i] !in before)
    && |names| <= |before| + |chosen|
  }

  lemma ChosenNext(before: set<string>, names: set<string>, chosen: seq<string>, name: string)
    requires ChosenApart(before, names, chosen) && name !in names
    ensures ChosenApart(before, names + {name}, chosen + [name])
  {
    assert forall i :: 0 <= i < |chosen| ==> chosen[i] in Elements(chosen);
    assert Elements(chosen + [name]) == Elements(chosen) + {name};
  }

  /** Each name is the first free candidate for its resource, after those chosen before it. */
  ghost predicate AllNamed(before: set<string>, wanted: seq<Wanted>, chosen: seq<string>) {
    && |chosen| <= |wanted|
    && forall k :: 0 <= k < |chosen| ==> NamedAt(before, wanted, chosen, k)
  }

  ghost predicate NamedAt(before: set<string>, wanted: seq<Wanted>, chosen: seq<string>, k: nat)
    requires k < |chosen| <= |wanted|
  {
    NamedFor(BaseName(wanted[k]), chosen[k], 160, before + Elements(chosen[..k]))
  }

  lemma NamedNext(before: set<string>, names: set<string>, wanted: seq<Wanted>, chosen: seq<string>, name: string)
    requires AllNamed(before, wanted, chosen) && |chosen| < |wanted| && names == before + Elements(chosen)
    requires NamedFor(BaseName(wanted[|chosen|]), name, 160, names)
    ensures AllNamed(before, wanted, chosen + [name])
  {
    var after := chosen + [name];
    forall k | 0 <= k < |after| ensures NamedAt(before, wanted, after, k) {
      if k < |chosen| {
        assert after[..k] == chosen[..k] && NamedAt(before, wanted, chosen, k);
      } else {
        assert after[..k] == chosen;
      }
    }
  }

  /** A resource is called by its own name, one without a name after its lesson, and as nearly so as is free. */
  lemma NameOf(before: set<string>, wanted: seq<Wanted>, chosen: seq<string>, k: nat)
    requires AllNamed(before, wanted, chosen) && k < |chosen|
    ensures var taken := before + Elements(chosen[..k]);
            var base := if wanted[k].name == None || wanted[k].name == Some("") then wanted[k].lesson + " resource"
                        else wanted[k].name.value;
            && NamedFor(base, chosen[k], 160, taken)
            && (|base| <= 160 && base !in taken ==> chosen[k] == base)
  {
    assert NamedAt(before, wanted, chosen, k);
    var base := BaseName(wanted[k]);
    var counter: nat :| IsFirstFree(base, counter, 160, before + Elements(chosen[..k]))
                        && chosen[k] == Candidate(base, counter, 160);
    TruncatedIs(base, 160);
  }

  /** A resource of an imported lesson: its own name if it has one. */
  datatype Wanted = Wanted(name: Option<string>, lesson: string)

  function BaseName(w: Wanted): string {
    if w.name.Some? && w.name.value != [] then w.name.value else w.lesson + " resource"
  }
}
