/** Example values for the schemas of an interface description, whose references may be cyclic
    (backend/openapi.py, lines 435-511). */
module SchemaExample {
  import opened Wrappers

  // ---------------------------------------------------------------- values and schemas

  /** A value; JNull also stands for the None of a schema without an example. */
  datatype Json =
    | JNull
    | JBool(b: bool)
    | JInt(i: int)
    | JNumber(n: real)
    | JString(s: string)
    | JArray(items: seq<Json>)
    | JObject(entries: map<string, Json>)

  datatype Kind = NoKind | ObjectKind | ArrayKind | IntegerKind | NumberKind | BooleanKind | StringKind | OtherKind

  datatype Property = Property(name: string, schema: Schema)

  datatype Listing = NoListing | Listing(list: seq<Property>)

  datatype Parts = NoParts | Parts(list: seq<Schema>)

  /** The keys of a schema that the generator reads. */
  datatype Schema = Schema(
    example: Option<Json>,
    examples: seq<Json>,
    ref: Option<string>,
    allOf: Parts,
    oneOf: Parts,
    anyOf: Parts,
    choices: seq<Json>,
    fixedValue: Option<Json>,
    default_: Option<Json>,
    kind: Kind,
    properties: Listing,
    required: set<string>,
    additional: bool,
    items: Option<Schema>,
    format: string,
    writeOnly: bool,
    readOnly: bool)

  type Components = map<string, Schema>

  /** Taking the first of an empty list of alternatives. */
  datatype Error = IndexError

  predicate EndsWith(s: Option<string>, suffix: string) {
    s.Some? && |suffix| <= |s.value| && s.value[|s.value| - |suffix|..] == suffix
  }

  predicate Mentions(s: Option<string>, part: string) {
    s.Some? && exists i :: 0 <= i <= |s.value| && part <= s.value[i..]
  }

  /** A literal value given by the schema itself, in the order in which the generator looks. */
  function EarlyLiteral(s: Schema): Option<Json> {
    if s.example.Some? then s.example else if s.examples != [] then Some(s.examples[0]) else None
  }

  function LateLiteral(s: Schema): Option<Json> {
    if s.choices != [] then Some(s.choices[0]) else if s.fixedValue.Some? then s.fixedValue else s.default_
  }

  /** schema_type, with object as the default for schemas that have properties. */
  function KindOf(s: Schema): Kind {
    if s.kind == NoKind && s.properties.Listing? then ObjectKind else s.kind
  }

  function Properties(s: Schema): seq<Property> {
    if s.properties.Listing? then s.properties.list else []
  }

  /** Properties that do not belong in this body. */
  predicate Hidden(p: Property, field: Option<string>) {
    (p.schema.writeOnly && EndsWith(field, "Response")) || (p.schema.readOnly && EndsWith(field, "Request"))
  }

  function Limit(s: Schema): int {
    if |s.required| >= 4 then |s.required| else 4
  }

  /** The table of _string_example, by field name and format. */
  type Texts = (Option<string>, string) -> string

  // ---------------------------------------------------------------- the walker as a function

  /** _generate_example. Every step shrinks the set of unseen components or, with it unchanged, the schema. */
  function Example(s: Schema, comps: Components, texts: Texts, field: Option<string>, seen: set<string>)
    : Result<Json, Error>
    decreases comps.Keys - seen, s, 1, 0
  {
    if EarlyLiteral(s).Some? then Ok(EarlyLiteral(s).value)
    else if s.ref.Some? then
      if s.ref.value in seen || s.ref.value !in comps then Ok(JNull)
      else
        assert s.ref.value in comps.Keys - seen;
        Example(comps[s.ref.value], comps, texts, s.ref, seen + {s.ref.value})
    else if s.allOf.Parts? then
      match Merged(s, |s.allOf.list|, comps, texts, field, seen)
      case Err(e) => Err(e)
      case Ok(merged) => Ok(if merged == map[] then JNull else JObject(merged))
    else if s.oneOf.Parts? then
      if s.oneOf.list == [] then Err(IndexError) else Example(s.oneOf.list[0], comps, texts, field, seen)
    else if s.anyOf.Parts? then
      if s.anyOf.list == [] then Err(IndexError) else Example(s.anyOf.list[0], comps, texts, field, seen)
    else if LateLiteral(s).Some? then Ok(LateLiteral(s).value)
    else match KindOf(s)
      case ObjectKind =>
        (match Entries(s, |Properties(s)|, comps, texts, field, seen)
         case Err(e) => Err(e)
         case Ok(result) => Ok(Shown(s, result)))
      case ArrayKind =>
        if s.items.None? then Ok(JArray([]))
        else (match Example(s.items.value, comps, texts, field, seen)
              case Err(e) => Err(e)
              case Ok(item) => Ok(JArray(if item == JNull then [] else [item])))
      case IntegerKind => Ok(JInt(if EndsWith(field, "id") then 1 else 100))
      case NumberKind => Ok(JNumber(if Mentions(field, "score") then 98.5 else 0.8))
      case BooleanKind => Ok(JBool(true))
      case StringKind => Ok(JString(texts(field, s.format)))
      case NoKind => Ok(JNull)
      case OtherKind => Ok(JNull)
  }

  const PLACEHOLDER: Json := JObject(map["key" := JString("value")])

  /** The object for the entries collected, with a placeholder for an empty open one. */
  function Shown(s: Schema, result: map<string, Json>): Json {
    if result != map[] then JObject(result) else if s.additional then PLACEHOLDER else JNull
  }

  /** The merged entries of the first k parts. */
  function Merged(s: Schema, k: nat, comps: Components, texts: Texts, field: Option<string>, seen: set<string>)
    : Result<map<string, Json>, Error>
    requires s.allOf.Parts? && k <= |s.allOf.list|
    decreases comps.Keys - seen, s, 0, k
  {
    if k == 0 then Ok(map[])
    else match Merged(s, k - 1, comps, texts, field, seen)
      case Err(e) => Err(e)
      case Ok(before) =>
        match Example(s.allOf.list[k - 1], comps, texts, field, seen)
        case Err(e) => Err(e)
        case Ok(part) => Ok(if part.JObject? then before + part.entries else before)
  }

  /** The property is passed over: it is hidden, or optional and there are enough already. */
  predicate PassedOver(s: Schema, p: Property, field: Option<string>, count: nat) {
    Hidden(p, field) || (p.name !in s.required && count >= Limit(s))
  }

  /** The entries from the first k properties. */
  function Entries(s: Schema, k: nat, comps: Components, texts: Texts, field: Option<string>, seen: set<string>)
    : Result<map<string, Json>, Error>
    requires k <= |Properties(s)|
    decreases comps.Keys - seen, s, 0, k
  {
    if k == 0 then Ok(map[])
    else match Entries(s, k - 1, comps, texts, field, seen)
      case Err(e) => Err(e)
      case Ok(before) =>
        var p := Properties(s)[k - 1];
        if PassedOver(s, p, field, |before|) then Ok(before)
        else
          match Example(p.schema, comps, texts, Some(p.name), seen)
          case Err(e) => Err(e)
          case Ok(value) => Ok(if value == JNull then before else before[p.name := value])
  }

  // ---------------------------------------------------------------- the walker with its loops

  method GenerateExample(s: Schema, comps: Components, texts: Texts, field: Option<string>, seen: set<string>)
    returns (r: Result<Json, Error>)
    ensures r == Example(s, comps, texts, field, seen)
    decreases comps.Keys - seen, s, 1, 0
  {
    if EarlyLiteral(s).Some? {
      return Ok(EarlyLiteral(s).value);
    }
    if s.ref.Some? {
      if s.ref.value in seen || s.ref.value !in comps {
        return Ok(JNull);
      }
      assert s.ref.value in comps.Keys - seen;
      r := GenerateExample(comps[s.ref.value], comps, texts, s.ref, seen + {s.ref.value});
      return;
    }
    if s.allOf.Parts? {
      var merged := MergeParts(s, comps, texts, field, seen);
      if merged.Err? {
        return Err(merged.error);
      }
      return Ok(if merged.value == map[] then JNull else JObject(merged.value));
    }
    if s.oneOf.Parts? {
      if s.oneOf.list == [] {
        return Err(IndexError);
      }
      r := GenerateExample(s.oneOf.list[0], comps, texts, field, seen);
      return;
    }
    if s.anyOf.Parts? {
      if s.anyOf.list == [] {
        return Err(IndexError);
      }
      r := GenerateExample(s.anyOf.list[0], comps, texts, field, seen);
      return;
    }
    if LateLiteral(s).Some? {
      return Ok(LateLiteral(s).value);
    }
    match KindOf(s)
    case ObjectKind =>
      var result := CollectEntries(s, comps, texts, field, seen);
      if result.Err? {
        return Err(result.error);
      }
      return Ok(Shown(s, result.value));
    case ArrayKind =>
      if s.items.None? {
        return Ok(JArray([]));
      }
      var item := GenerateExample(s.items.value, comps, texts, field, seen);
      if item.Err? {
        return Err(item.error);
      }
      return Ok(JArray(if item.value == JNull then [] else [item.value]));
    case IntegerKind => return Ok(JInt(if EndsWith(field, "id") then 1 else 100));
    case NumberKind => return Ok(JNumber(if Mentions(field, "score") then 98.5 else 0.8));
    case BooleanKind => return Ok(JBool(true));
    case StringKind => return Ok(JString(texts(field, s.format)));
    case NoKind => return Ok(JNull);
    case OtherKind => return Ok(JNull);
  }

  method MergeParts(s: Schema, comps: Components, texts: Texts, field: Option<string>, seen: set<string>)
      returns (r: Result<map<string, Json>, Error>)
    requires s.allOf.Parts?
    ensures r == Merged(s, |s.allOf.list|, comps, texts, field, seen)
    decreases comps.Keys - seen, s, 0, |s.allOf.list|
  {
    var merged: map<string, Json> := map[];
    for i := 0 to |s.allOf.list|
      invariant Ok(merged) == Merged(s, i, comps, texts, field, seen)
    {
      var part := GenerateExample(s.allOf.list[i], comps, texts, field, seen);
      if part.Err? {
        MergedFails(s, i + 1, comps, texts, field, seen);
        return Err(part.error);
      }
      if part.value.JObject? {
        merged := merged + part.value.entries;
      }
    }
    return Ok(merged);
  }

  lemma {:induction false} MergedFails(s: Schema, i: nat, comps: Components, texts: Texts, field: Option<string>,
                                       seen: set<string>)
    requires s.allOf.Parts? && i <= |s.allOf.list| && Merged(s, i, comps, texts, field, seen).Err?
    ensures Merged(s, |s.allOf.list|, comps, texts, field, seen) == Merged(s, i, comps, texts, field, seen)
    decreases |s.allOf.list| - i
  {
    if i < |s.allOf.list| {
      MergedFails(s, i + 1, comps, texts, field, seen);
    }
  }

  method CollectEntries(s: Schema, comps: Components, texts: Texts, field: Option<string>, seen: set<string>)
      returns (r: Result<map<string, Json>, Error>)
    ensures r == Entries(s, |Properties(s)|, comps, texts, field, seen)
    decreases comps.Keys - seen, s, 0, |Properties(s)|
  {
    var result: map<string, Json> := map[];
    var properties := Properties(s);
    for i := 0 to |properties|
      invariant Ok(result) == Entries(s, i, comps, texts, field, seen)
    {
      var p := properties[i];
      if PassedOver(s, p, field, |result|) {
        continue;
      }
      var value := GenerateExample(p.schema, comps, texts, Some(p.name), seen);
      if value.Err? {
        EntriesFail(s, i + 1, comps, texts, field, seen);
        return Err(value.error);
      }
      if value.value != JNull {
        result := result[p.name := value.value];
      }
    }
    return Ok(result);
  }

  lemma {:induction false} EntriesFail(s: Schema, i: nat, comps: Components, texts: Texts, field: Option<string>,
                                       seen: set<string>)
    requires i <= |Properties(s)| && Entries(s, i, comps, texts, field, seen).Err?
    ensures Entries(s, |Properties(s)|, comps, texts, field, seen) == Entries(s, i, comps, texts, field, seen)
    decreases |Properties(s)| - i
  {
    if i < |Properties(s)| {
      EntriesFail(s, i + 1, comps, texts, field, seen);
    }
  }

  // ---------------------------------------------------------------- when the walker fails

  /** Every list of alternatives inside s has one. */
  ghost predicate HasChoices(s: Schema)
    decreases s
  {
    && (s.oneOf.Parts? ==> s.oneOf.list != [] && forall i :: 0 <= i < |s.oneOf.list| ==> HasChoices(s.oneOf.list[i]))
    && (s.anyOf.Parts? ==> s.anyOf.list != [] && forall i :: 0 <= i < |s.anyOf.list| ==> HasChoices(s.anyOf.list[i]))
    && (s.allOf.Parts? ==> forall i :: 0 <= i < |s.allOf.list| ==> HasChoices(s.allOf.list[i]))
    && (s.properties.Listing? ==> forall i :: 0 <= i < |s.properties.list| ==> HasChoices(s.properties.list[i].schema))
    && (s.items.Some? ==> HasChoices(s.items.value))
  }

  ghost predicate AllHaveChoices(comps: Components) {
    forall r :: r in comps ==> HasChoices(comps[r])
  }

  /** Only an empty list of alternatives makes it fail. */
  lemma {:induction false} ExampleOk(s: Schema, comps: Components, texts: Texts, field: Option<string>,
                                     seen: set<string>)
    requires HasChoices(s) && AllHaveChoices(comps)
    ensures Example(s, comps, texts, field, seen).Ok?
    decreases comps.Keys - seen, s, 1, 0
  {
    if EarlyLiteral(s).Some? {
    } else if s.ref.Some? {
      if s.ref.value !in seen && s.ref.value in comps {
        assert s.ref.value in comps.Keys - seen;
        ExampleOk(comps[s.ref.value], comps, texts, s.ref, seen + {s.ref.value});
      }
    } else if s.allOf.Parts? {
      MergedOk(s, |s.allOf.list|, comps, texts, field, seen);
    } else if s.oneOf.Parts? {
      ExampleOk(s.oneOf.list[0], comps, texts, field, seen);
    } else if s.anyOf.Parts? {
      ExampleOk(s.anyOf.list[0], comps, texts, field, seen);
    } else if LateLiteral(s).None? {
      if KindOf(s) == ObjectKind {
        EntriesOk(s, |Properties(s)|, comps, texts, field, seen);
      } else if KindOf(s) == ArrayKind && s.items.Some? {
        ExampleOk(s.items.value, comps, texts, field, seen);
      }
    }
  }

  lemma {:induction false} MergedOk(s: Schema, k: nat, comps: Components, texts: Texts, field: Option<string>,
                                    seen: set<string>)
    requires HasChoices(s) && AllHaveChoices(comps) && s.allOf.Parts? && k <= |s.allOf.list|
    ensures Merged(s, k, comps, texts, field, seen).Ok?
    decreases comps.Keys - seen, s, 0, k
  {
    if k > 0 {
      MergedOk(s, k - 1, comps, texts, field, seen);
      ExampleOk(s.allOf.list[k - 1], comps, texts, field, seen);
    }
  }

  lemma {:induction false} EntriesOk(s: Schema, k: nat, comps: Components, texts: Texts, field: Option<string>,
                                     seen: set<string>)
    requires HasChoices(s) && AllHaveChoices(comps) && k <= |Properties(s)|
    ensures Entries(s, k, comps, texts, field, seen).Ok?
    decreases comps.Keys - seen, s, 0, k
  {
    if k > 0 {
      EntriesOk(s, k - 1, comps, texts, field, seen);
      var p := s.properties.list[k - 1];
      ExampleOk(p.schema, comps, texts, Some(p.name), seen);
    }
  }
}
