/** What the examples of schemas are worth: their types, and what they show
    (backend/openapi.py, lines 435-511). */
module SchemaSoundness {
  import opened Wrappers
  import opened Counting
  import opened SchemaExample

  // ---------------------------------------------------------------- what a schema accepts

  predicate OfKind(j: Json, kind: Kind) {
    match kind
    case NoKind => true
    case ObjectKind => j.JObject?
    case ArrayKind => j.JArray?
    case IntegerKind => j.JInt?
    case NumberKind => j.JNumber? || j.JInt?
    case BooleanKind => j.JBool?
    case StringKind => j.JString?
    case OtherKind => false
  }

  /** Looking no deeper than n, j has the type of s: references are followed, some alternative accepts,
      and every present property and every item has the type of its own schema. */
  ghost predicate AcceptsIn(n: nat, s: Schema, j: Json, comps: Components)
    decreases n, 0
  {
    n > 0 &&
    if s.ref.Some? then s.ref.value in comps && AcceptsIn(n - 1, comps[s.ref.value], j, comps)
    else
      && (s.allOf.Parts? ==> EveryAccepts(n - 1, s.allOf.list, j, comps))
      && (s.oneOf.Parts? ==> SomeAccepts(n - 1, s.oneOf.list, j, comps))
      && (s.anyOf.Parts? ==> SomeAccepts(n - 1, s.anyOf.list, j, comps))
      && OfKind(j, KindOf(s))
      && (j.JObject? ==> EntriesAccepted(n - 1, Properties(s), j.entries, comps))
      && (j.JArray? && s.items.Some? ==> ItemsAccepted(n - 1, s.items.value, j.items, comps))
  }

  ghost predicate SomeAccepts(n: nat, alternatives: seq<Schema>, j: Json, comps: Components)
    decreases n, 1
  {
    exists i :: 0 <= i < |alternatives| && AcceptsIn(n, alternatives[i], j, comps)
  }

  ghost predicate EveryAccepts(n: nat, parts: seq<Schema>, j: Json, comps: Components)
    decreases n, 1
  {
    forall i :: 0 <= i < |parts| ==> AcceptsIn(n, parts[i], j, comps)
  }

  ghost predicate ItemsAccepted(n: nat, s: Schema, items: seq<Json>, comps: Components)
    decreases n, 1
  {
    forall i :: 0 <= i < |items| ==> AcceptsIn(n, s, items[i], comps)
  }

  ghost predicate EntriesAccepted(n: nat, ps: seq<Property>, entries: map<string, Json>, comps: Components)
    decreases n, 1
  {
    forall i :: 0 <= i < |ps| && ps[i].name in entries ==> AcceptsIn(n, ps[i].schema, entries[ps[i].name], comps)
  }

  ghost predicate Accepts(s: Schema, j: Json, comps: Components) {
    exists n: nat :: AcceptsIn(n, s, j, comps)
  }

  lemma {:induction false} Deeper(n: nat, m: nat, s: Schema, j: Json, comps: Components)
    requires n <= m && AcceptsIn(n, s, j, comps)
    ensures AcceptsIn(m, s, j, comps)
    decreases n, 0
  {
    if s.ref.Some? {
      Deeper(n - 1, m - 1, comps[s.ref.value], j, comps);
    } else {
      if s.allOf.Parts? {
        DeeperEvery(n - 1, m - 1, s.allOf.list, j, comps);
      }
      if s.oneOf.Parts? {
        DeeperSome(n - 1, m - 1, s.oneOf.list, j, comps);
      }
      if s.anyOf.Parts? {
        DeeperSome(n - 1, m - 1, s.anyOf.list, j, comps);
      }
      if j.JObject? {
        DeeperEntries(n - 1, m - 1, Properties(s), j.entries, comps);
      }
      if j.JArray? && s.items.Some? {
        DeeperItems(n - 1, m - 1, s.items.value, j.items, comps);
      }
    }
  }

  lemma {:induction false} DeeperSome(n: nat, m: nat, alternatives: seq<Schema>, j: Json, comps: Components)
    requires n <= m && SomeAccepts(n, alternatives, j, comps)
    ensures SomeAccepts(m, alternatives, j, comps)
    decreases n, 1
  {
    var i :| 0 <= i < |alternatives| && AcceptsIn(n, alternatives[i], j, comps);
    Deeper(n, m, alternatives[i], j, comps);
  }

  lemma {:induction false} DeeperEvery(n: nat, m: nat, parts: seq<Schema>, j: Json, comps: Components)
    requires n <= m && EveryAccepts(n, parts, j, comps)
    ensures EveryAccepts(m, parts, j, comps)
    decreases n, 1
  {
    forall i | 0 <= i < |parts| ensures AcceptsIn(m, parts[i], j, comps) {
      Deeper(n, m, parts[i], j, comps);
    }
  }

  lemma {:induction false} DeeperItems(n: nat, m: nat, s: Schema, items: seq<Json>, comps: Components)
    requires n <= m && ItemsAccepted(n, s, items, comps)
    ensures ItemsAccepted(m, s, items, comps)
    decreases n, 1
  {
    forall i | 0 <= i < |items| ensures AcceptsIn(m, s, items[i], comps) {
      Deeper(n, m, s, items[i], comps);
    }
  }

  lemma {:induction false} DeeperEntries(n: nat, m: nat, ps: seq<Property>, entries: map<string, Json>,
                                         comps: Components)
    requires n <= m && EntriesAccepted(n, ps, entries, comps)
    ensures EntriesAccepted(m, ps, entries, comps)
    decreases n, 1
  {
    forall i | 0 <= i < |ps| && ps[i].name in entries ensures AcceptsIn(m, ps[i].schema, entries[ps[i].name], comps) {
      Deeper(n, m, ps[i].schema, entries[ps[i].name], comps);
    }
  }

  // ---------------------------------------------------------------- acceptance, part by part

  /** What the schema says beside its parts and alternatives. */
  function Own(s: Schema): Schema {
    s.(allOf := NoParts, oneOf := NoParts, anyOf := NoParts)
  }

  ghost predicate EachAccepts(parts: seq<Schema>, j: Json, comps: Components) {
    forall i :: 0 <= i < |parts| ==> Accepts(parts[i], j, comps)
  }

  ghost predicate OneAccepts(alternatives: seq<Schema>, j: Json, comps: Components) {
    exists i :: 0 <= i < |alternatives| && Accepts(alternatives[i], j, comps)
  }

  ghost predicate PropertiesAccept(ps: seq<Property>, entries: map<string, Json>, comps: Components) {
    forall i :: 0 <= i < |ps| && ps[i].name in entries ==> Accepts(ps[i].schema, entries[ps[i].name], comps)
  }

  lemma {:induction false} EveryDepth(parts: seq<Schema>, j: Json, comps: Components) returns (n: nat)
    requires EachAccepts(parts, j, comps)
    ensures EveryAccepts(n, parts, j, comps)
  {
    if parts == [] {
      return 0;
    }
    var front, last := parts[..|parts| - 1], parts[|parts| - 1];
    var m := EveryDepth(front, j, comps);
    var k: nat :| AcceptsIn(k, last, j, comps);
    n := m + k;
    DeeperEvery(m, n, front, j, comps);
    Deeper(k, n, last, j, comps);
    assert forall i :: 0 <= i < |front| ==> front[i] == parts[i];
  }

  lemma {:induction false} EntriesDepth(ps: seq<Property>, entries: map<string, Json>, comps: Components)
    returns (n: nat)
    requires PropertiesAccept(ps, entries, comps)
    ensures EntriesAccepted(n, ps, entries, comps)
  {
    if ps == [] {
      return 0;
    }
    var front, last := ps[..|ps| - 1], ps[|ps| - 1];
    assert forall i :: 0 <= i < |front| ==> front[i] == ps[i];
    var m := EntriesDepth(front, entries, comps);
    if last.name !in entries {
      return m;
    }
    var k: nat :| AcceptsIn(k, last.schema, entries[last.name], comps);
    n := m + k;
    DeeperEntries(m, n, front, entries, comps);
    Deeper(k, n, last.schema, entries[last.name], comps);
  }

  /** A value is accepted exactly when the schema's own keys, every part and some alternative accept it. */
  lemma AcceptsIff(s: Schema, j: Json, comps: Components)
    requires s.ref.None?
    ensures Accepts(s, j, comps)
            <==> && Accepts(Own(s), j, comps)
                 && (s.allOf.Parts? ==> EachAccepts(s.allOf.list, j, comps))
                 && (s.oneOf.Parts? ==> OneAccepts(s.oneOf.list, j, comps))
                 && (s.anyOf.Parts? ==> OneAccepts(s.anyOf.list, j, comps))
  {
    if n: nat :| AcceptsIn(n, s, j, comps) {
      assert AcceptsIn(n, Own(s), j, comps);
      if s.allOf.Parts? {
        assert EveryAccepts(n - 1, s.allOf.list, j, comps);
        assert forall i :: 0 <= i < |s.allOf.list| ==> AcceptsIn(n - 1, s.allOf.list[i], j, comps);
      }
      if s.oneOf.Parts? {
        SomeIsOne(n - 1, s.oneOf.list, j, comps);
      }
      if s.anyOf.Parts? {
        SomeIsOne(n - 1, s.anyOf.list, j, comps);
      }
    }
    if && Accepts(Own(s), j, comps)
       && (s.allOf.Parts? ==> EachAccepts(s.allOf.list, j, comps))
       && (s.oneOf.Parts? ==> OneAccepts(s.oneOf.list, j, comps))
       && (s.anyOf.Parts? ==> OneAccepts(s.anyOf.list, j, comps))
    {
      AcceptsAll(s, j, comps);
    }
  }

  lemma SomeIsOne(n: nat, alternatives: seq<Schema>, j: Json, comps: Components)
    requires SomeAccepts(n, alternatives, j, comps)
    ensures OneAccepts(alternatives, j, comps)
  {
    var i :| 0 <= i < |alternatives| && AcceptsIn(n, alternatives[i], j, comps);
    assert Accepts(alternatives[i], j, comps);
  }

  lemma AcceptsAll(s: Schema, j: Json, comps: Components)
    requires s.ref.None? && Accepts(Own(s), j, comps)
    requires s.allOf.Parts? ==> EachAccepts(s.allOf.list, j, comps)
    requires s.oneOf.Parts? ==> OneAccepts(s.oneOf.list, j, comps)
    requires s.anyOf.Parts? ==> OneAccepts(s.anyOf.list, j, comps)
    ensures Accepts(s, j, comps)
  {
    var own: nat :| AcceptsIn(own, Own(s), j, comps);
    var all, one, any := 0, 0, 0;
    if s.allOf.Parts? {
      all := EveryDepth(s.allOf.list, j, comps);
    }
    if s.oneOf.Parts? {
      one := SomeDepth(s.oneOf.list, j, comps);
    }
    if s.anyOf.Parts? {
      any := SomeDepth(s.anyOf.list, j, comps);
    }
    var n := own + all + one + any;
    Deeper(own, n + 1, Own(s), j, comps);
    if s.allOf.Parts? {
      DeeperEvery(all, n, s.allOf.list, j, comps);
    }
    if s.oneOf.Parts? {
      DeeperSome(one, n, s.oneOf.list, j, comps);
    }
    if s.anyOf.Parts? {
      DeeperSome(any, n, s.anyOf.list, j, comps);
    }
    assert AcceptsIn(n + 1, s, j, comps);
  }

  lemma SomeDepth(alternatives: seq<Schema>, j: Json, comps: Components) returns (n: nat)
    requires OneAccepts(alternatives, j, comps)
    ensures SomeAccepts(n, alternatives, j, comps)
  {
    var i :| 0 <= i < |alternatives| && Accepts(alternatives[i], j, comps);
    n :| AcceptsIn(n, alternatives[i], j, comps);
  }

  /** An object schema by itself. */
  predicate ObjectSchema(s: Schema) {
    s.ref.None? && !Composed(s) && KindOf(s) == ObjectKind
  }

  /** It accepts an object exactly when each declared property that is present accepts its value. */
  lemma ObjectAcceptsIff(s: Schema, entries: map<string, Json>, comps: Components)
    requires ObjectSchema(s)
    ensures Accepts(s, JObject(entries), comps) <==> PropertiesAccept(Properties(s), entries, comps)
  {
    var ps := Properties(s);
    if PropertiesAccept(ps, entries, comps) {
      var n := EntriesDepth(ps, entries, comps);
      assert n + 1 - 1 == n;
      assert AcceptsIn(n + 1, s, JObject(entries), comps);
    }
    if Accepts(s, JObject(entries), comps) {
      var n: nat :| AcceptsIn(n, s, JObject(entries), comps);
      assert EntriesAccepted(n - 1, ps, entries, comps);
    }
  }

  /** A reference accepts what its component accepts. */
  lemma ReferenceAcceptsIff(s: Schema, j: Json, comps: Components)
    requires s.ref.Some? && s.ref.value in comps
    ensures Accepts(s, j, comps) <==> Accepts(comps[s.ref.value], j, comps)
  {
    if n: nat :| AcceptsIn(n, comps[s.ref.value], j, comps) {
      assert AcceptsIn(n + 1, s, j, comps);
    }
    if n: nat :| AcceptsIn(n, s, j, comps) {
      assert AcceptsIn(n - 1, comps[s.ref.value], j, comps);
    }
  }

  // ---------------------------------------------------------------- soundness

  ghost predicate LiteralOk(s: Schema, literal: Option<Json>, comps: Components) {
    literal.Some? && literal.value != JNull ==> Accepts(s, literal.value, comps)
  }

  ghost predicate DistinctNames(ps: seq<Property>) {
    forall i, j :: 0 <= i < j < |ps| ==> ps[i].name != ps[j].name
  }

  ghost predicate Names(ps: seq<Property>, name: string) {
    exists i :: 0 <= i < |ps| && ps[i].name == name
  }

  predicate Composed(s: Schema) {
    s.allOf.Parts? || s.oneOf.Parts? || s.anyOf.Parts?
  }

  /** The schema without the list of parts or alternatives that its example is taken from. */
  function Beside(s: Schema): Schema {
    if s.allOf.Parts? then s.(allOf := NoParts)
    else if s.oneOf.Parts? then s.(oneOf := NoParts)
    else s.(anyOf := NoParts)
  }

  /** Nothing is asked beside that list, and of several parts to merge each keeps to names of its own. */
  ghost predicate StandsAlone(s: Schema, comps: Components) {
    && KindOf(s) == NoKind && s.items.None? && !Composed(Beside(s))
    && (s.allOf.Parts? ==> |s.allOf.list| <= 1 || MergesCleanly(s.allOf.list, comps))
  }

  /** What a part refers to. */
  function Target(part: Schema, comps: Components): Schema {
    if part.ref.Some? && part.ref.value in comps then comps[part.ref.value] else part
  }

  /** A part that is an object schema, or refers to one. */
  predicate ObjectPart(part: Schema, comps: Components) {
    (part.ref.Some? ==> part.ref.value in comps) && ObjectSchema(Target(part, comps))
  }

  /** A name that can turn up in the example of an object schema without literals. */
  ghost predicate MayShow(s: Schema, name: string) {
    Names(Properties(s), name) || (s.additional && name == "key")
  }

  ghost predicate MergesCleanly(parts: seq<Schema>, comps: Components) {
    && (forall i :: 0 <= i < |parts| ==> ObjectPart(parts[i], comps) && NoLiterals(parts[i], comps))
    && (forall i, j, name ::
          0 <= i < |parts| && 0 <= j < |parts| && i != j && Names(Properties(Target(parts[i], comps)), name) ==>
          !MayShow(Target(parts[j], comps), name))
  }

  predicate NoLiterals(part: Schema, comps: Components) {
    EarlyLiteral(part).None? && EarlyLiteral(Target(part, comps)).None? && LateLiteral(Target(part, comps)).None?
  }

  /** A declared property that the placeholder mentions accepts what it says. */
  ghost predicate PlaceholderFits(s: Schema, comps: Components) {
    forall i :: 0 <= i < |Properties(s)| && Properties(s)[i].name == "key" ==>
      Accepts(Properties(s)[i].schema, JString("value"), comps)
  }

  /** The fragment: literals have the type of their schema, parts and alternatives stand alone with no names
      shared by merged parts, and the placeholder for additional properties fits what is declared. */
  ghost predicate Lawful(s: Schema, comps: Components)
    decreases s
  {
    && LiteralOk(s, EarlyLiteral(s), comps)
    && (s.ref.None? && !Composed(s) ==> LiteralOk(s, LateLiteral(s), comps))
    && (Composed(s) ==> StandsAlone(s, comps))
    && DistinctNames(Properties(s))
    && (s.additional ==> PlaceholderFits(s, comps))
    && (s.allOf.Parts? ==> forall i :: 0 <= i < |s.allOf.list| ==> Lawful(s.allOf.list[i], comps))
    && (s.oneOf.Parts? ==> forall i :: 0 <= i < |s.oneOf.list| ==> Lawful(s.oneOf.list[i], comps))
    && (s.anyOf.Parts? ==> forall i :: 0 <= i < |s.anyOf.list| ==> Lawful(s.anyOf.list[i], comps))
    && (s.properties.Listing? ==>
          forall i :: 0 <= i < |s.properties.list| ==> Lawful(s.properties.list[i].schema, comps))
    && (s.items.Some? ==> Lawful(s.items.value, comps))
  }

  ghost predicate AllLawful(comps: Components) {
    forall r :: r in comps ==> Lawful(comps[r], comps)
  }

  /** There is an example, and it is one of the schema's type. */
  ghost predicate Sound(s: Schema, e: Result<Json, Error>, comps: Components) {
    e.Ok? && e.value != JNull ==> Accepts(s, e.value, comps)
  }

  /** Whatever the components refer to, an example has the type its schema asks for, or there is none. */
  lemma {:induction false} ExampleSound(s: Schema, comps: Components, texts: Texts, field: Option<string>,
                                        seen: set<string>)
    requires Lawful(s, comps) && AllLawful(comps)
    ensures Sound(s, Example(s, comps, texts, field, seen), comps)
    decreases comps.Keys - seen, s, 1, 0
  {
    var e := Example(s, comps, texts, field, seen);
    if EarlyLiteral(s).Some? {
    } else if s.ref.Some? {
      if s.ref.value !in seen && s.ref.value in comps {
        assert s.ref.value in comps.Keys - seen;
        ExampleSound(comps[s.ref.value], comps, texts, s.ref, seen + {s.ref.value});
        ReferenceSound(s, e, comps);
      }
    } else if s.allOf.Parts? {
      PartSound(s, comps, texts, field, seen);
    } else if s.oneOf.Parts? {
      if s.oneOf.list != [] {
        ExampleSound(s.oneOf.list[0], comps, texts, field, seen);
        AloneAccepts(s, e, comps);
        AlternativeIff(s, s.oneOf.list, e, comps);
      }
    } else if s.anyOf.Parts? {
      if s.anyOf.list != [] {
        ExampleSound(s.anyOf.list[0], comps, texts, field, seen);
        AloneAccepts(s, e, comps);
        AlternativeIff(s, s.anyOf.list, e, comps);
      }
    } else if LateLiteral(s).Some? {
    } else if KindOf(s) == ObjectKind {
      ObjectSound(s, comps, texts, field, seen);
    } else if KindOf(s) == ArrayKind {
      if s.items.Some? {
        ExampleSound(s.items.value, comps, texts, field, seen);
      }
      ArraySound(s, e, comps);
    } else if e.Ok? && e.value != JNull {
      assert AcceptsIn(1, s, e.value, comps);
    }
  }

  lemma ReferenceSound(s: Schema, e: Result<Json, Error>, comps: Components)
    requires s.ref.Some? && s.ref.value in comps && Sound(comps[s.ref.value], e, comps)
    ensures Sound(s, e, comps)
  {
    if e.Ok? && e.value != JNull {
      ReferenceAcceptsIff(s, e.value, comps);
    }
  }

  /** Beside a list that stands alone nothing is refused. */
  lemma AloneAccepts(s: Schema, e: Result<Json, Error>, comps: Components)
    requires s.ref.None? && Composed(s) && StandsAlone(s, comps)
    ensures Sound(Beside(s), e, comps)
  {
    if e.Ok? {
      assert Properties(Beside(s)) == [];
      assert AcceptsIn(1, Beside(s), e.value, comps);
    }
  }

  /** The first alternative's example is as good as what stands beside the list allows. */
  lemma AlternativeIff(s: Schema, alternatives: seq<Schema>, e: Result<Json, Error>, comps: Components)
    requires s.ref.None? && s.allOf.NoParts? && alternatives != []
    requires Parts(alternatives) == if s.oneOf.Parts? then s.oneOf else s.anyOf
    requires Sound(alternatives[0], e, comps)
    ensures Sound(s, e, comps) <==> Sound(Beside(s), e, comps)
  {
    if e.Ok? && e.value != JNull {
      AcceptsIff(s, e.value, comps);
      AcceptsIff(Beside(s), e.value, comps);
      assert Own(Beside(s)) == Own(s);
    }
  }

  /** An example taken from an alternative has its schema's type exactly when whatever the schema says beside
      that list accepts it. */
  lemma AlternativeSoundIff(s: Schema, comps: Components, texts: Texts, field: Option<string>, seen: set<string>)
    requires EarlyLiteral(s).None? && s.ref.None? && s.allOf.NoParts? && (s.oneOf.Parts? || s.anyOf.Parts?)
    requires (if s.oneOf.Parts? then s.oneOf else s.anyOf).list != []
    requires Lawful((if s.oneOf.Parts? then s.oneOf else s.anyOf).list[0], comps) && AllLawful(comps)
    ensures Sound(s, Example(s, comps, texts, field, seen), comps)
            <==> Sound(Beside(s), Example(s, comps, texts, field, seen), comps)
  {
    var alternatives := (if s.oneOf.Parts? then s.oneOf else s.anyOf).list;
    ExampleSound(alternatives[0], comps, texts, field, seen);
    AlternativeIff(s, alternatives, Example(s, comps, texts, field, seen), comps);
  }

  lemma {:induction false} PartSound(s: Schema, comps: Components, texts: Texts, field: Option<string>,
                                     seen: set<string>)
    requires Lawful(s, comps) && AllLawful(comps) && EarlyLiteral(s).None? && s.ref.None? && s.allOf.Parts?
    ensures Sound(s, Example(s, comps, texts, field, seen), comps)
    decreases comps.Keys - seen, s, 0, |s.allOf.list|
  {
    var parts, e := s.allOf.list, Example(s, comps, texts, field, seen);
    assert Merged(s, 0, comps, texts, field, seen) == Ok(map[]);
    if e.Ok? && e.value != JNull {
      AloneAccepts(s, e, comps);
      forall i | 0 <= i < |parts| ensures Sound(parts[i], Example(parts[i], comps, texts, field, seen), comps) {
        ExampleSound(parts[i], comps, texts, field, seen);
      }
      if |parts| == 1 {
        OnePartSound(s, comps, texts, field, seen);
      } else {
        CleanNoClash(s, comps, texts, field, seen);
        MergedIff(s, comps, texts, field, seen);
      }
    }
  }

  lemma OnePartSound(s: Schema, comps: Components, texts: Texts, field: Option<string>, seen: set<string>)
    requires EarlyLiteral(s).None? && s.ref.None? && s.allOf.Parts? && |s.allOf.list| == 1
    requires Sound(s.allOf.list[0], Example(s.allOf.list[0], comps, texts, field, seen), comps)
    requires Sound(Beside(s), Example(s, comps, texts, field, seen), comps)
    ensures Sound(s, Example(s, comps, texts, field, seen), comps)
  {
    var e := Example(s, comps, texts, field, seen);
    OnePart(s, comps, texts, field, seen);
    if e.Ok? && e.value != JNull {
      assert EachAccepts(s.allOf.list, e.value, comps);
      PartsIff(s, e.value, comps);
    }
  }

  lemma PartsIff(s: Schema, j: Json, comps: Components)
    requires s.ref.None? && s.allOf.Parts?
    ensures Accepts(s, j, comps) <==> Accepts(Beside(s), j, comps) && EachAccepts(s.allOf.list, j, comps)
  {
    AcceptsIff(s, j, comps);
    AcceptsIff(Beside(s), j, comps);
    assert Own(Beside(s)) == Own(s);
  }

  /** Merging one part gives its example, if that is an object. */
  lemma OnePart(s: Schema, comps: Components, texts: Texts, field: Option<string>, seen: set<string>)
    requires s.allOf.Parts? && |s.allOf.list| == 1
    ensures match Example(s.allOf.list[0], comps, texts, field, seen)
            case Err(e) => Merged(s, 1, comps, texts, field, seen) == Err(e)
            case Ok(part) =>
              Merged(s, 1, comps, texts, field, seen) == Ok(if part.JObject? then part.entries else map[])
  {
    assert Merged(s, 0, comps, texts, field, seen) == Ok(map[]);
    match Example(s.allOf.list[0], comps, texts, field, seen)
    case Err(_) =>
    case Ok(part) =>
      if part.JObject? {
        assert map[] + part.entries == part.entries;
      }
  }

  // ---------------------------------------------------------------- merging several parts

  function PartEntries(s: Schema, i: nat, comps: Components, texts: Texts, field: Option<string>, seen: set<string>)
    : map<string, Json>
    requires s.allOf.Parts? && i < |s.allOf.list|
  {
    var e := Example(s.allOf.list[i], comps, texts, field, seen);
    if e.Ok? && e.value.JObject? then e.value.entries else map[]
  }

  /** Of the first k parts, part i is the last one to show the name. */
  ghost predicate Supplies(s: Schema, k: nat, i: int, name: string, comps: Components, texts: Texts,
                           field: Option<string>, seen: set<string>)
    requires s.allOf.Parts? && k <= |s.allOf.list|
  {
    && 0 <= i < k && name in PartEntries(s, i, comps, texts, field, seen)
    && forall j :: i < j < k ==> name !in PartEntries(s, j, comps, texts, field, seen)
  }

  /** Every merged entry is that of the last part to show its name. */
  lemma {:induction false} MergedSupplied(s: Schema, k: nat, name: string, comps: Components, texts: Texts,
                                          field: Option<string>, seen: set<string>)
    requires s.allOf.Parts? && k <= |s.allOf.list| && Merged(s, k, comps, texts, field, seen).Ok?
    requires name in Merged(s, k, comps, texts, field, seen).value
    ensures exists i ::
              && Supplies(s, k, i, name, comps, texts, field, seen)
              && Merged(s, k, comps, texts, field, seen).value[name]
                 == PartEntries(s, i, comps, texts, field, seen)[name]
  {
    assert k > 0;
    if name in PartEntries(s, k - 1, comps, texts, field, seen) {
      assert Supplies(s, k, k - 1, name, comps, texts, field, seen);
    } else {
      MergedSupplied(s, k - 1, name, comps, texts, field, seen);
      var i :| Supplies(s, k - 1, i, name, comps, texts, field, seen)
               && Merged(s, k - 1, comps, texts, field, seen).value[name]
                  == PartEntries(s, i, comps, texts, field, seen)[name];
      assert Supplies(s, k, i, name, comps, texts, field, seen);
    }
  }

  /** Part i declares its k-th property otherwise than the part whose entry prevails. */
  ghost predicate Clashes(s: Schema, m: map<string, Json>, i: nat, k: nat, comps: Components, texts: Texts,
                          field: Option<string>, seen: set<string>)
    requires s.allOf.Parts?
  {
    && i < |s.allOf.list| && k < |Properties(Target(s.allOf.list[i], comps))|
    && var p := Properties(Target(s.allOf.list[i], comps))[k];
       && p.name in m && !Supplies(s, |s.allOf.list|, i, p.name, comps, texts, field, seen)
       && !Accepts(p.schema, m[p.name], comps)
  }

  lemma PartAcceptsIff(part: Schema, entries: map<string, Json>, comps: Components)
    requires ObjectPart(part, comps)
    ensures Accepts(part, JObject(entries), comps)
            <==> PropertiesAccept(Properties(Target(part, comps)), entries, comps)
  {
    ObjectAcceptsIff(Target(part, comps), entries, comps);
    if part.ref.Some? {
      ReferenceAcceptsIff(part, JObject(entries), comps);
    }
  }

  ghost predicate NoClash(s: Schema, m: map<string, Json>, comps: Components, texts: Texts, field: Option<string>,
                          seen: set<string>)
    requires s.allOf.Parts?
  {
    forall i: nat, k: nat :: !Clashes(s, m, i, k, comps, texts, field, seen)
  }

  /** Where no entry clashes, every part accepts the merged object. */
  lemma PartAccepts(s: Schema, m: map<string, Json>, i: nat, comps: Components, texts: Texts, field: Option<string>,
                    seen: set<string>)
    requires s.allOf.Parts? && i < |s.allOf.list| && ObjectPart(s.allOf.list[i], comps)
    requires Merged(s, |s.allOf.list|, comps, texts, field, seen) == Ok(m) && NoClash(s, m, comps, texts, field, seen)
    requires Sound(s.allOf.list[i], Example(s.allOf.list[i], comps, texts, field, seen), comps)
    ensures Accepts(s.allOf.list[i], JObject(m), comps)
  {
    var part, own := s.allOf.list[i], PartEntries(s, i, comps, texts, field, seen);
    var ps := Properties(Target(part, comps));
    PartAcceptsIff(part, own, comps);
    forall k | 0 <= k < |ps| && ps[k].name in m ensures Accepts(ps[k].schema, m[ps[k].name], comps) {
      MergedSupplied(s, |s.allOf.list|, ps[k].name, comps, texts, field, seen);
      var last :| Supplies(s, |s.allOf.list|, last, ps[k].name, comps, texts, field, seen)
                  && m[ps[k].name] == PartEntries(s, last, comps, texts, field, seen)[ps[k].name];
      if last != i {
        assert !Clashes(s, m, i, k, comps, texts, field, seen);
      }
    }
    PartAcceptsIff(part, m, comps);
  }

  lemma MergedIff(s: Schema, comps: Components, texts: Texts, field: Option<string>, seen: set<string>)
    requires EarlyLiteral(s).None? && s.ref.None? && s.allOf.Parts?
    requires forall i :: 0 <= i < |s.allOf.list| ==> ObjectPart(s.allOf.list[i], comps)
    requires forall i :: 0 <= i < |s.allOf.list| ==>
               Sound(s.allOf.list[i], Example(s.allOf.list[i], comps, texts, field, seen), comps)
    requires Merged(s, |s.allOf.list|, comps, texts, field, seen).Ok?
    requires Merged(s, |s.allOf.list|, comps, texts, field, seen).value != map[]
    ensures var m := Merged(s, |s.allOf.list|, comps, texts, field, seen).value;
            Example(s, comps, texts, field, seen) == Ok(JObject(m))
            && (Accepts(s, JObject(m), comps)
                <==> Accepts(Beside(s), JObject(m), comps) && NoClash(s, m, comps, texts, field, seen))
  {
    var parts, m := s.allOf.list, Merged(s, |s.allOf.list|, comps, texts, field, seen).value;
    PartsIff(s, JObject(m), comps);
    if EachAccepts(parts, JObject(m), comps) {
      forall i: nat, k: nat ensures !Clashes(s, m, i, k, comps, texts, field, seen) {
        if i < |parts| {
          PartAcceptsIff(parts[i], m, comps);
        }
      }
    }
    if NoClash(s, m, comps, texts, field, seen) {
      forall i | 0 <= i < |parts| ensures Accepts(parts[i], JObject(m), comps) {
        PartAccepts(s, m, i, comps, texts, field, seen);
      }
    }
  }

  /** Merged object parts have an example of the schema's type exactly when what stands beside them accepts it and
      no part's property has been overwritten by another part with a value it does not accept. */
  lemma MergedSoundIff(s: Schema, comps: Components, texts: Texts, field: Option<string>, seen: set<string>)
    requires EarlyLiteral(s).None? && s.ref.None? && s.allOf.Parts? && AllLawful(comps)
    requires forall i :: 0 <= i < |s.allOf.list| ==>
               ObjectPart(s.allOf.list[i], comps) && Lawful(s.allOf.list[i], comps)
    ensures var e := Example(s, comps, texts, field, seen);
            Sound(s, e, comps)
            <==> (e.Ok? && e.value.JObject? ==>
                    Accepts(Beside(s), e.value, comps) && NoClash(s, e.value.entries, comps, texts, field, seen))
  {
    forall i | 0 <= i < |s.allOf.list|
      ensures Sound(s.allOf.list[i], Example(s.allOf.list[i], comps, texts, field, seen), comps)
    {
      ExampleSound(s.allOf.list[i], comps, texts, field, seen);
    }
    var merged := Merged(s, |s.allOf.list|, comps, texts, field, seen);
    if merged.Ok? && merged.value != map[] {
      MergedIff(s, comps, texts, field, seen);
    }
  }

  lemma {:induction false} EntriesNamed(s: Schema, k: nat, name: string, comps: Components, texts: Texts,
                                        field: Option<string>, seen: set<string>)
    requires k <= |Properties(s)| && Entries(s, k, comps, texts, field, seen).Ok?
    requires name in Entries(s, k, comps, texts, field, seen).value
    ensures Names(Properties(s), name)
    decreases k
  {
    EntriesBefore(s, k, comps, texts, field, seen);
    if Properties(s)[k - 1].name != name {
      EntriesNamed(s, k - 1, name, comps, texts, field, seen);
    }
  }

  /** One property adds no name but its own. */
  lemma EntriesBefore(s: Schema, k: nat, comps: Components, texts: Texts, field: Option<string>, seen: set<string>)
    requires k <= |Properties(s)| && Entries(s, k, comps, texts, field, seen).Ok?
    ensures k == 0 ==> Entries(s, k, comps, texts, field, seen).value == map[]
    ensures k > 0 ==> Entries(s, k - 1, comps, texts, field, seen).Ok?
                      && Entries(s, k, comps, texts, field, seen).value.Keys
                         <= Entries(s, k - 1, comps, texts, field, seen).value.Keys + {Properties(s)[k - 1].name}
  {
  }

  /** A part shows only what it may. */
  lemma PartShows(s: Schema, i: nat, name: string, comps: Components, texts: Texts, field: Option<string>,
                  seen: set<string>)
    requires s.allOf.Parts? && i < |s.allOf.list| && name in PartEntries(s, i, comps, texts, field, seen)
    requires ObjectPart(s.allOf.list[i], comps) && NoLiterals(s.allOf.list[i], comps)
    ensures MayShow(Target(s.allOf.list[i], comps), name)
  {
    var part, t := s.allOf.list[i], Target(s.allOf.list[i], comps);
    var field' := if part.ref.Some? then part.ref else field;
    var seen' := if part.ref.Some? then seen + {part.ref.value} else seen;
    assert Example(part, comps, texts, field, seen) == Example(t, comps, texts, field', seen');
    var entries := Entries(t, |Properties(t)|, comps, texts, field', seen');
    if entries.Ok? && entries.value != map[] {
      EntriesNamed(t, |Properties(t)|, name, comps, texts, field', seen');
    }
  }

  lemma CleanNoClash(s: Schema, comps: Components, texts: Texts, field: Option<string>, seen: set<string>)
    requires s.allOf.Parts? && MergesCleanly(s.allOf.list, comps)
    requires Merged(s, |s.allOf.list|, comps, texts, field, seen).Ok?
    ensures NoClash(s, Merged(s, |s.allOf.list|, comps, texts, field, seen).value, comps, texts, field, seen)
  {
    var parts, m := s.allOf.list, Merged(s, |s.allOf.list|, comps, texts, field, seen).value;
    forall i: nat, k: nat ensures !Clashes(s, m, i, k, comps, texts, field, seen) {
      if i < |parts| && k < |Properties(Target(parts[i], comps))| && Properties(Target(parts[i], comps))[k].name in m {
        var name := Properties(Target(parts[i], comps))[k].name;
        MergedSupplied(s, |parts|, name, comps, texts, field, seen);
        var last :| Supplies(s, |parts|, last, name, comps, texts, field, seen);
        assert Names(Properties(Target(parts[i], comps)), name);
        PartShows(s, last, name, comps, texts, field, seen);
      }
    }
  }

  lemma ArraySound(s: Schema, e: Result<Json, Error>, comps: Components)
    requires s.ref.None? && !Composed(s) && KindOf(s) == ArrayKind
    requires e.Ok? ==> e.value.JArray? && |e.value.items| <= 1
    requires e.Ok? && s.items.Some? && e.value.items != [] ==> Accepts(s.items.value, e.value.items[0], comps)
    ensures Sound(s, e, comps)
  {
    if e.Err? {
    } else if s.items.Some? && e.value.items != [] {
      var n: nat :| AcceptsIn(n, s.items.value, e.value.items[0], comps);
      assert AcceptsIn(n + 1, s, e.value, comps);
    } else {
      assert AcceptsIn(1, s, e.value, comps);
    }
  }

  /** The walker reaches the property loop. */
  predicate IsObject(s: Schema) {
    EarlyLiteral(s).None? && LateLiteral(s).None? && ObjectSchema(s)
  }

  lemma {:induction false} ObjectSound(s: Schema, comps: Components, texts: Texts, field: Option<string>,
                                       seen: set<string>)
    requires Lawful(s, comps) && AllLawful(comps) && IsObject(s)
    ensures Sound(s, Example(s, comps, texts, field, seen), comps)
    decreases comps.Keys - seen, s, 0, |Properties(s)| + 1
  {
    var ps := Properties(s);
    var result := Entries(s, |ps|, comps, texts, field, seen);
    if result.Err? {
    } else if result.value != map[] {
      EntriesSound(s, |ps|, comps, texts, field, seen);
      var n: nat :| FirstAccepted(n, ps, |ps|, result.value, comps);
      assert EntriesAccepted(n, ps, result.value, comps);
      assert n + 1 - 1 == n;
      assert AcceptsIn(n + 1, s, JObject(result.value), comps);
    } else if s.additional {
      PlaceholderIff(s, comps);
    }
  }

  /** The placeholder has the type of its schema exactly when every declared property it mentions accepts it. */
  lemma PlaceholderIff(s: Schema, comps: Components)
    requires IsObject(s) && DistinctNames(Properties(s))
    ensures Accepts(s, PLACEHOLDER, comps) <==> PlaceholderFits(s, comps)
  {
    ObjectAcceptsIff(s, PLACEHOLDER.entries, comps);
  }

  /** So an open object with nothing else to show has an example of its type exactly then. */
  lemma OpenObjectSoundIff(s: Schema, comps: Components, texts: Texts, field: Option<string>, seen: set<string>)
    requires IsObject(s) && s.additional && DistinctNames(Properties(s))
    requires Entries(s, |Properties(s)|, comps, texts, field, seen) == Ok(map[])
    ensures Sound(s, Example(s, comps, texts, field, seen), comps) <==> PlaceholderFits(s, comps)
  {
    PlaceholderIff(s, comps);
  }

  /** The entries come from the first k properties, each with its type. */
  ghost predicate FirstAccepted(n: nat, ps: seq<Property>, k: nat, entries: map<string, Json>, comps: Components)
    requires k <= |ps|
  {
    && (forall name :: name in entries ==> Names(ps[..k], name))
    && (forall i :: 0 <= i < k && ps[i].name in entries ==> AcceptsIn(n, ps[i].schema, entries[ps[i].name], comps))
  }

  ghost predicate SomewhereAccepted(ps: seq<Property>, k: nat, entries: map<string, Json>, comps: Components)
    requires k <= |ps|
  {
    exists n: nat :: FirstAccepted(n, ps, k, entries, comps)
  }

  lemma {:induction false} EntriesSound(s: Schema, k: nat, comps: Components, texts: Texts, field: Option<string>,
                                        seen: set<string>)
    requires Lawful(s, comps) && AllLawful(comps) && k <= |Properties(s)|
    requires Entries(s, k, comps, texts, field, seen).Ok?
    ensures SomewhereAccepted(Properties(s), k, Entries(s, k, comps, texts, field, seen).value, comps)
    decreases comps.Keys - seen, s, 0, k
  {
    var ps := Properties(s);
    if k == 0 {
      assert FirstAccepted(0, ps, 0, map[], comps);
    } else {
      EntriesSound(s, k - 1, comps, texts, field, seen);
      var p := ps[k - 1];
      assert s.properties.list[k - 1] == p;
      ExampleSound(p.schema, comps, texts, Some(p.name), seen);
      var value := Example(p.schema, comps, texts, Some(p.name), seen);
      EntriesStep(ps, k, Entries(s, k - 1, comps, texts, field, seen).value, if value.Ok? then value.value else JNull,
                  comps);
    }
  }

  /** One turn of the property loop, whether or not the property is taken. */
  lemma EntriesStep(ps: seq<Property>, k: nat, before: map<string, Json>, value: Json, comps: Components)
    requires 0 < k <= |ps| && DistinctNames(ps)
    requires SomewhereAccepted(ps, k - 1, before, comps)
    requires value != JNull ==> Accepts(ps[k - 1].schema, value, comps)
    ensures SomewhereAccepted(ps, k, before, comps)
    ensures value != JNull ==> SomewhereAccepted(ps, k, before[ps[k - 1].name := value], comps)
  {
    var n: nat :| FirstAccepted(n, ps, k - 1, before, comps);
    KeepEntries(n, ps, k, before, comps);
    if value != JNull {
      var m: nat :| AcceptsIn(m, ps[k - 1].schema, value, comps);
      AddEntry(n, m, ps, k, before, value, comps);
    }
  }

  lemma KeepEntries(n: nat, ps: seq<Property>, k: nat, before: map<string, Json>, comps: Components)
    requires 0 < k <= |ps| && DistinctNames(ps) && FirstAccepted(n, ps, k - 1, before, comps)
    ensures FirstAccepted(n, ps, k, before, comps)
  {
    forall name | name in before ensures Names(ps[..k], name) {
      var i :| 0 <= i < k - 1 && ps[..k - 1][i].name == name;
      assert ps[..k][i].name == name;
    }
    assert ps[k - 1].name !in before;
  }

  lemma AddEntry(n: nat, m: nat, ps: seq<Property>, k: nat, before: map<string, Json>, value: Json, comps: Components)
    requires 0 < k <= |ps| && DistinctNames(ps) && FirstAccepted(n, ps, k, before, comps)
    requires AcceptsIn(m, ps[k - 1].schema, value, comps)
    ensures FirstAccepted(n + m, ps, k, before[ps[k - 1].name := value], comps)
  {
    var after := before[ps[k - 1].name := value];
    assert ps[..k][k - 1].name == ps[k - 1].name;
    forall i | 0 <= i < k && ps[i].name in after ensures AcceptsIn(n + m, ps[i].schema, after[ps[i].name], comps) {
      if i == k - 1 {
        Deeper(m, n + m, ps[i].schema, value, comps);
      } else {
        Deeper(n, n + m, ps[i].schema, before[ps[i].name], comps);
      }
    }
  }

  // ---------------------------------------------------------------- completeness

  /** What the first k properties leave under a name. */
  ghost function Entry(s: Schema, k: nat, comps: Components, texts: Texts, field: Option<string>, seen: set<string>,
                       name: string): Option<Json>
    requires k <= |Properties(s)|
  {
    var entries := Entries(s, k, comps, texts, field, seen);
    if entries.Ok? && name in entries.value then Some(entries.value[name]) else None
  }

  /** Nothing that an earlier property wrote is lost when no later one has its name. */
  lemma {:induction false} EntryStays(s: Schema, i: nat, k: nat, comps: Components, texts: Texts, field: Option<string>,
                                      seen: set<string>, name: string)
    requires i <= k <= |Properties(s)| && forall j :: i <= j < k ==> Properties(s)[j].name != name
    requires Entries(s, k, comps, texts, field, seen).Ok?
    ensures Entries(s, i, comps, texts, field, seen).Ok?
    ensures Entry(s, k, comps, texts, field, seen, name) == Entry(s, i, comps, texts, field, seen, name)
    decreases k
  {
    if i < k {
      EntryStays(s, i, k - 1, comps, texts, field, seen, name);
    }
  }

  /** A property's own entry: none if it is passed over or has no example, its example otherwise. */
  lemma OwnEntry(s: Schema, i: nat, comps: Components, texts: Texts, field: Option<string>, seen: set<string>)
    requires DistinctNames(Properties(s)) && i < |Properties(s)|
    requires Entries(s, |Properties(s)|, comps, texts, field, seen).Ok?
    ensures Entries(s, i, comps, texts, field, seen).Ok?
    ensures var p, before := Properties(s)[i], Entries(s, i, comps, texts, field, seen).value;
            var value := Example(p.schema, comps, texts, Some(p.name), seen);
            Entry(s, |Properties(s)|, comps, texts, field, seen, p.name)
            == if PassedOver(s, p, field, |before|) || value == Ok(JNull) || value.Err? then None else Some(value.value)
    ensures !PassedOver(s, Properties(s)[i], field, |Entries(s, i, comps, texts, field, seen).value|) ==>
              Example(Properties(s)[i].schema, comps, texts, Some(Properties(s)[i].name), seen).Ok?
  {
    var p := Properties(s)[i];
    EntryStays(s, i + 1, |Properties(s)|, comps, texts, field, seen, p.name);
    EntryStays(s, 0, i, comps, texts, field, seen, p.name);
  }

  /** The placeholder stands in for the entries. */
  predicate IsPlaceholder(s: Schema, entries: Result<map<string, Json>, Error>) {
    entries == Ok(map[]) && s.additional
  }

  function AllEntries(s: Schema, comps: Components, texts: Texts, field: Option<string>, seen: set<string>)
    : Result<map<string, Json>, Error>
  {
    Entries(s, |Properties(s)|, comps, texts, field, seen)
  }

  function Member(e: Json, name: string): Option<Json> {
    if e.JObject? && name in e.entries then Some(e.entries[name]) else None
  }

  /** A required property that belongs in the body is shown with its own example if it has one; without one
      its name appears only in the placeholder. */
  lemma RequiredShown(s: Schema, i: nat, comps: Components, texts: Texts, field: Option<string>, seen: set<string>)
    requires IsObject(s) && DistinctNames(Properties(s)) && i < |Properties(s)|
    requires Properties(s)[i].name in s.required && !Hidden(Properties(s)[i], field)
    requires Example(s, comps, texts, field, seen).Ok?
    ensures var p, e := Properties(s)[i], Example(s, comps, texts, field, seen).value;
            var value := Example(p.schema, comps, texts, Some(p.name), seen);
            value.Ok?
            && if value.value != JNull then Member(e, p.name) == Some(value.value)
               else Member(e, p.name).Some?
                    <==> IsPlaceholder(s, AllEntries(s, comps, texts, field, seen)) && p.name == "key"
  {
    OwnEntry(s, i, comps, texts, field, seen);
  }

  /** A hidden property's name appears exactly where the placeholder shows it. */
  lemma HiddenNotShown(s: Schema, i: nat, comps: Components, texts: Texts, field: Option<string>, seen: set<string>)
    requires IsObject(s) && DistinctNames(Properties(s)) && i < |Properties(s)| && Hidden(Properties(s)[i], field)
    requires Example(s, comps, texts, field, seen).Ok?
    ensures Member(Example(s, comps, texts, field, seen).value, Properties(s)[i].name).Some?
            <==> IsPlaceholder(s, AllEntries(s, comps, texts, field, seen)) && Properties(s)[i].name == "key"
  {
    OwnEntry(s, i, comps, texts, field, seen);
  }

  ghost function Optional(s: Schema, entries: map<string, Json>): set<string> {
    set name | name in entries && name !in s.required
  }

  lemma {:induction false} OptionalEntries(s: Schema, k: nat, comps: Components, texts: Texts, field: Option<string>,
                                           seen: set<string>)
    requires k <= |Properties(s)| && Entries(s, k, comps, texts, field, seen).Ok?
    ensures |Optional(s, Entries(s, k, comps, texts, field, seen).value)| <= Limit(s)
    decreases k
  {
    if k == 0 {
      assert Optional(s, map[]) == {};
    } else {
      OptionalEntries(s, k - 1, comps, texts, field, seen);
      var p, before := Properties(s)[k - 1], Entries(s, k - 1, comps, texts, field, seen).value;
      var value := Example(p.schema, comps, texts, Some(p.name), seen);
      if value.Ok? {
        OneMore(s, before, p.name, value.value);
      }
    }
  }

  /** Of the optional properties no more are shown than the limit. */
  lemma OptionalLimited(s: Schema, comps: Components, texts: Texts, field: Option<string>, seen: set<string>)
    requires IsObject(s) && Example(s, comps, texts, field, seen).Ok?
    requires Example(s, comps, texts, field, seen).value.JObject?
    ensures |Optional(s, Example(s, comps, texts, field, seen).value.entries)| <= Limit(s)
  {
    if AllEntries(s, comps, texts, field, seen).value == map[] {
      SubsetCount(Optional(s, PLACEHOLDER.entries), {"key"});
    } else {
      OptionalEntries(s, |Properties(s)|, comps, texts, field, seen);
    }
  }

  lemma OneMore(s: Schema, before: map<string, Json>, name: string, value: Json)
    requires |Optional(s, before)| <= Limit(s)
    ensures name in s.required || |before| < Limit(s) ==> |Optional(s, before[name := value])| <= Limit(s)
  {
    var after := before[name := value];
    if name in s.required {
      assert Optional(s, after) == Optional(s, before);
    } else {
      assert Optional(s, after) == Optional(s, before) + {name};
      SubsetCount(Optional(s, before), before.Keys);
      assert |before.Keys| == |before|;
    }
  }

  // ---------------------------------------------------------------- cycles and a clash

  /** A component that is only a reference to itself has no example. */
  lemma SelfReferenceHasNone(r: string, comps: Components, texts: Texts, field: Option<string>)
    requires r in comps && comps[r].ref == Some(r) && EarlyLiteral(comps[r]).None?
    ensures Example(comps[r], comps, texts, field, {}) == Ok(JNull)
  {
    assert Example(comps[r], comps, texts, Some(r), {r}) == Ok(JNull);
  }

  function Plain(kind: Kind): Schema {
    Schema(None, [], None, NoParts, NoParts, NoParts, [], None, None, kind, NoListing, {}, false, None, "", false,
           false)
  }

  /** A declared property called key, left out of this body, still appears as the placeholder, with the wrong type. */
  lemma PlaceholderClash(comps: Components, texts: Texts)
    ensures var count := Plain(IntegerKind).(writeOnly := true);
            var s := Plain(ObjectKind).(properties := Listing([Property("key", count)]), additional := true);
            !Sound(s, Example(s, comps, texts, Some("CountResponse"), {}), comps)
  {
    var field := Some("CountResponse");
    var count := Plain(IntegerKind).(writeOnly := true);
    var s := Plain(ObjectKind).(properties := Listing([Property("key", count)]), additional := true);
    assert "CountResponse"[5..] == "Response";
    assert Hidden(Properties(s)[0], field);
    assert Entries(s, 0, comps, texts, field, {}) == Ok(map[]);
    assert Entries(s, 1, comps, texts, field, {}) == Ok(map[]);
    forall n: nat ensures !AcceptsIn(n, count, JString("value"), comps) {
    }
    assert Properties(s)[0].name == "key";
    OpenObjectSoundIff(s, comps, texts, field, {});
  }
}
