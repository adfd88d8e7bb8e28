/** Which value an example is, read off the keys of its schema (backend/openapi.py, lines 435-511). */
module SchemaValues {
  import opened Wrappers
  import opened Counting
  import opened SchemaExample
  import opened SchemaSoundness

  // ---------------------------------------------------------------- field names

  lemma EndsWithIff(s: string, suffix: string)
    ensures EndsWith(Some(s), suffix) <==> exists front :: s == front + suffix
  {
    if EndsWith(Some(s), suffix) {
      assert s == s[..|s| - |suffix|] + suffix;
    }
  }

  lemma MentionsIff(s: string, part: string)
    ensures Mentions(Some(s), part) <==> exists before, after :: s == before + part + after
  {
    if Mentions(Some(s), part) {
      var i :| 0 <= i <= |s| && part <= s[i..];
      assert s == s[..i] + part + s[i..][|part|..];
    }
    if before, after :| s == before + part + after {
      assert s[|before|..] == part + after;
    }
  }

  // ---------------------------------------------------------------- literals, references and alternatives

  /** A literal is shown as it stands: an example before the first of several. */
  lemma LiteralShown(s: Schema, comps: Components, texts: Texts, field: Option<string>, seen: set<string>)
    ensures s.example.Some? ==> Example(s, comps, texts, field, seen) == Ok(s.example.value)
    ensures s.example.None? && s.examples != [] ==> Example(s, comps, texts, field, seen) == Ok(s.examples[0])
  {
  }

  /** Nothing on the schema itself is shown. */
  predicate Silent(s: Schema) {
    s.example.None? && s.examples == []
  }

  /** A reference shows what its component shows under the component's name, once on the way down. */
  lemma ReferenceShown(s: Schema, comps: Components, texts: Texts, field: Option<string>, seen: set<string>)
    requires Silent(s) && s.ref.Some?
    ensures var r := s.ref.value;
            Example(s, comps, texts, field, seen)
            == if r in comps && r !in seen then Example(comps[r], comps, texts, Some(r), seen + {r}) else Ok(JNull)
  {
  }

  /** Of alternatives the first is shown. */
  lemma AlternativeShown(s: Schema, comps: Components, texts: Texts, field: Option<string>, seen: set<string>)
    requires Silent(s) && s.ref.None? && s.allOf.NoParts?
    ensures s.oneOf.Parts? && s.oneOf.list != [] ==>
              Example(s, comps, texts, field, seen) == Example(s.oneOf.list[0], comps, texts, field, seen)
    ensures s.oneOf.NoParts? && s.anyOf.Parts? && s.anyOf.list != [] ==>
              Example(s, comps, texts, field, seen) == Example(s.anyOf.list[0], comps, texts, field, seen)
  {
  }

  /** The part shows the name. */
  ghost predicate PartHas(part: Schema, name: string, comps: Components, texts: Texts, field: Option<string>,
                          seen: set<string>)
  {
    var e := Example(part, comps, texts, field, seen);
    e.Ok? && e.value.JObject? && name in e.value.entries
  }

  /** A name is in the merged object exactly when some part shows it. */
  lemma {:induction false} MergedHasIff(s: Schema, k: nat, name: string, comps: Components, texts: Texts,
                                        field: Option<string>, seen: set<string>)
    requires s.allOf.Parts? && k <= |s.allOf.list| && Merged(s, k, comps, texts, field, seen).Ok?
    ensures name in Merged(s, k, comps, texts, field, seen).value
            <==> exists i :: 0 <= i < k && PartHas(s.allOf.list[i], name, comps, texts, field, seen)
  {
    if k > 0 {
      MergedHasIff(s, k - 1, name, comps, texts, field, seen);
      assert name in Merged(s, k, comps, texts, field, seen).value
             <==> || name in Merged(s, k - 1, comps, texts, field, seen).value
                  || PartHas(s.allOf.list[k - 1], name, comps, texts, field, seen);
    }
  }

  /** The last part to show a name decides what is merged under it. */
  lemma PartsShown(s: Schema, name: string, i: nat, comps: Components, texts: Texts, field: Option<string>,
                   seen: set<string>)
    requires Silent(s) && s.ref.None? && s.allOf.Parts? && i < |s.allOf.list|
    requires Example(s, comps, texts, field, seen).Ok?
    requires PartHas(s.allOf.list[i], name, comps, texts, field, seen)
    requires forall j :: i < j < |s.allOf.list| ==> !PartHas(s.allOf.list[j], name, comps, texts, field, seen)
    ensures Member(Example(s, comps, texts, field, seen).value, name)
            == Some(Example(s.allOf.list[i], comps, texts, field, seen).value.entries[name])
  {
    var k := |s.allOf.list|;
    MergedHasIff(s, k, name, comps, texts, field, seen);
    MergedSupplied(s, k, name, comps, texts, field, seen);
    var last :| Supplies(s, k, last, name, comps, texts, field, seen)
                && Merged(s, k, comps, texts, field, seen).value[name]
                   == PartEntries(s, last, comps, texts, field, seen)[name];
    assert PartHas(s.allOf.list[last], name, comps, texts, field, seen);
    assert name in PartEntries(s, i, comps, texts, field, seen);
  }

  /** And nothing that no part shows is. */
  lemma OnlyPartsShown(s: Schema, name: string, comps: Components, texts: Texts, field: Option<string>,
                       seen: set<string>)
    requires Silent(s) && s.ref.None? && s.allOf.Parts? && Example(s, comps, texts, field, seen).Ok?
    requires Member(Example(s, comps, texts, field, seen).value, name).Some?
    ensures exists i :: 0 <= i < |s.allOf.list| && PartHas(s.allOf.list[i], name, comps, texts, field, seen)
  {
    MergedHasIff(s, |s.allOf.list|, name, comps, texts, field, seen);
  }

  // ---------------------------------------------------------------- plain types

  /** Nothing but its type decides what the schema shows. */
  predicate Bare(s: Schema) {
    Silent(s) && s.ref.None? && !Composed(s)
  }

  /** Of the literals that come late, a choice is shown before the fixed value and that before the default. */
  lemma LateLiteralShown(s: Schema, comps: Components, texts: Texts, field: Option<string>, seen: set<string>)
    requires Bare(s)
    ensures s.choices != [] ==> Example(s, comps, texts, field, seen) == Ok(s.choices[0])
    ensures s.choices == [] && s.fixedValue.Some? ==> Example(s, comps, texts, field, seen) == Ok(s.fixedValue.value)
    ensures s.choices == [] && s.fixedValue.None? && s.default_.Some? ==>
              Example(s, comps, texts, field, seen) == Ok(s.default_.value)
  {
  }

  predicate Typed(s: Schema) {
    Bare(s) && s.choices == [] && s.fixedValue.None? && s.default_.None?
  }

  /** The value shown for a type that has no parts, by the field's name. */
  lemma TypeShown(s: Schema, comps: Components, texts: Texts, name: string, seen: set<string>)
    requires Typed(s)
    ensures var e := Example(s, comps, texts, Some(name), seen);
            && (s.kind == IntegerKind ==> e == Ok(JInt(if exists front :: name == front + "id" then 1 else 100)))
            && (s.kind == NumberKind ==>
                  e == Ok(JNumber(if exists before, after :: name == before + "score" + after then 98.5 else 0.8)))
            && (s.kind == BooleanKind ==> e == Ok(JBool(true)))
            && (s.kind == StringKind ==> e == Ok(JString(texts(Some(name), s.format))))
            && (s.kind == OtherKind || (s.kind == NoKind && s.properties.NoListing?) ==> e == Ok(JNull))
  {
    EndsWithIff(name, "id");
    MentionsIff(name, "score");
  }

  /** An array shows its item's example, and is empty exactly when that has none. */
  lemma ArrayShown(s: Schema, comps: Components, texts: Texts, field: Option<string>, seen: set<string>)
    requires Typed(s) && s.kind == ArrayKind && s.items.Some?
    ensures var e, item := Example(s, comps, texts, field, seen), Example(s.items.value, comps, texts, field, seen);
            && (e == Ok(JArray([])) <==> item == Ok(JNull))
            && (forall v :: v != JNull ==> (e == Ok(JArray([v])) <==> item == Ok(v)))
            && (e.Err? <==> item.Err?)
  {
  }

  // ---------------------------------------------------------------- objects

  /** The names of the first i properties that are shown. */
  ghost function ShownBefore(s: Schema, i: nat, entries: map<string, Json>): set<string>
    requires i <= |Properties(s)|
  {
    set k | 0 <= k < i && Properties(s)[k].name in entries :: Properties(s)[k].name
  }

  lemma {:induction false} EntriesDeclared(s: Schema, k: nat, comps: Components, texts: Texts, field: Option<string>,
                                           seen: set<string>, name: string)
    requires k <= |Properties(s)| && Entries(s, k, comps, texts, field, seen).Ok?
    requires name in Entries(s, k, comps, texts, field, seen).value
    ensures exists i :: 0 <= i < k && Properties(s)[i].name == name
  {
    if Properties(s)[k - 1].name != name {
      EntriesDeclared(s, k - 1, comps, texts, field, seen, name);
    }
  }

  /** What has been collected by the time a property is reached is what is shown of those before it. */
  lemma CollectedIsShown(s: Schema, i: nat, comps: Components, texts: Texts, field: Option<string>, seen: set<string>)
    requires DistinctNames(Properties(s)) && i <= |Properties(s)|
    requires AllEntries(s, comps, texts, field, seen).Ok?
    ensures Entries(s, i, comps, texts, field, seen).Ok?
    ensures Entries(s, i, comps, texts, field, seen).value.Keys
            == ShownBefore(s, i, AllEntries(s, comps, texts, field, seen).value)
  {
    if Entries(s, i, comps, texts, field, seen).Err? {
      EntriesFail(s, i, comps, texts, field, seen);
    }
    var all, before := AllEntries(s, comps, texts, field, seen).value, Entries(s, i, comps, texts, field, seen);
    forall name ensures name in before.value <==> name in ShownBefore(s, i, all) {
      if name in before.value {
        EntriesDeclared(s, i, comps, texts, field, seen, name);
        var k :| 0 <= k < i && Properties(s)[k].name == name;
        EntryStays(s, i, |Properties(s)|, comps, texts, field, seen, name);
      }
      if name in ShownBefore(s, i, all) {
        var k :| 0 <= k < i && Properties(s)[k].name == name;
        EntryStays(s, i, |Properties(s)|, comps, texts, field, seen, name);
      }
    }
  }

  /** The property belongs in a body of this name. */
  ghost predicate Belongs(p: Property, field: Option<string>) {
    && !(p.schema.writeOnly && field.Some? && exists front :: field.value == front + "Response")
    && !(p.schema.readOnly && field.Some? && exists front :: field.value == front + "Request")
  }

  /** An object shows exactly those declared properties that belong in the body, have an example, and are required or
      find fewer shown before them than four or as many as are required, whichever is more; each with its example. */
  lemma PropertyShownIff(s: Schema, i: nat, comps: Components, texts: Texts, field: Option<string>, seen: set<string>)
    requires DistinctNames(Properties(s)) && i < |Properties(s)|
    requires AllEntries(s, comps, texts, field, seen).Ok?
    ensures var p, entries := Properties(s)[i], AllEntries(s, comps, texts, field, seen).value;
            var value, before := Example(p.schema, comps, texts, Some(p.name), seen), |ShownBefore(s, i, entries)|;
            && (p.name in entries
                <==> && Belongs(p, field) && value.Ok? && value.value != JNull
                     && (p.name in s.required || before < 4 || before < |s.required|))
            && (p.name in entries ==> Ok(entries[p.name]) == value)
  {
    var p := Properties(s)[i];
    OwnEntry(s, i, comps, texts, field, seen);
    CollectedIsShown(s, i, comps, texts, field, seen);
    var before := Entries(s, i, comps, texts, field, seen).value;
    assert |before| == |before.Keys|;
    if field.Some? {
      EndsWithIff(field.value, "Response");
      EndsWithIff(field.value, "Request");
    }
  }

  /** Such an object is the example; where nothing is shown an open object shows the placeholder, another none. */
  lemma ObjectShown(s: Schema, comps: Components, texts: Texts, field: Option<string>, seen: set<string>)
    requires Typed(s) && (s.kind == ObjectKind || (s.kind == NoKind && s.properties.Listing?))
    requires AllEntries(s, comps, texts, field, seen).Ok?
    ensures var entries := AllEntries(s, comps, texts, field, seen).value;
            && (forall name :: name in entries ==> Names(Properties(s), name))
            && Example(s, comps, texts, field, seen)
               == Ok(if entries != map[] then JObject(entries)
                     else if s.additional then JObject(map["key" := JString("value")])
                     else JNull)
  {
    var entries := AllEntries(s, comps, texts, field, seen).value;
    forall name | name in entries ensures Names(Properties(s), name) {
      EntriesDeclared(s, |Properties(s)|, comps, texts, field, seen, name);
    }
  }
}
