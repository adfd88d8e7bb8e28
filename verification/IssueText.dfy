/** The text patterns that read an issue body back (scripts/security_automation.py, lines 18-21 and 33-40). */
module IssueText {
  import opened Wrappers
  import opened Strings

  // ---------------------------------------------------------------- lines

  function Lines(s: string): (r: seq<string>)
    ensures |r| > 0
  {
    if s == [] then [[]]
    else
      var rest := Lines(s[1..]);
      if s[0] == '\n' then [[]] + rest else [[s[0]] + rest[0]] + rest[1..]
  }

  /** '\n'.join(parts). */
  function Join(parts: seq<string>): string
    requires |parts| > 0
  {
    if |parts| == 1 then parts[0] else Join(parts[..|parts| - 1]) + "\n" + parts[|parts| - 1]
  }

  function FlatLines(parts: seq<string>): seq<string> {
    if parts == [] then [] else FlatLines(parts[..|parts| - 1]) + Lines(parts[|parts| - 1])
  }

  predicate OneLine(s: string) {
    '\n' !in s
  }

  lemma {:induction false} LinesBreak(a: string, b: string)
    ensures Lines(a + "\n" + b) == Lines(a) + Lines(b)
  {
    if a == [] {
      assert a + "\n" + b == "\n" + b && ("\n" + b)[1..] == b;
    } else {
      assert (a + "\n" + b)[1..] == a[1..] + "\n" + b;
      LinesBreak(a[1..], b);
    }
  }

  /** The lines of the joined text are the lines of its parts. */
  lemma {:induction false} LinesOfJoin(parts: seq<string>)
    requires |parts| > 0
    ensures Lines(Join(parts)) == FlatLines(parts)
  {
    if |parts| == 1 {
      assert FlatLines(parts[..0]) == [];
    } else {
      LinesOfJoin(parts[..|parts| - 1]);
      LinesBreak(Join(parts[..|parts| - 1]), parts[|parts| - 1]);
    }
  }

  /** Text put before a value stays on the value's first line. */
  lemma {:induction false} LinesPrefix(p: string, t: string)
    requires OneLine(p)
    ensures Lines(p + t) == [p + Lines(t)[0]] + Lines(t)[1..]
  {
    if p == [] {
      assert p + t == t;
      assert p + Lines(t)[0] == Lines(t)[0];
      assert [Lines(t)[0]] + Lines(t)[1..] == Lines(t);
    } else {
      assert (p + t)[1..] == p[1..] + t;
      LinesPrefix(p[1..], t);
      assert [p[0]] + (p[1..] + Lines(t)[0]) == p + Lines(t)[0];
    }
  }

  lemma LinesOne(s: string)
    requires OneLine(s)
    ensures Lines(s) == [s]
  {
    LinesPrefix(s, []);
    assert s + [] == s;
  }

  // ---------------------------------------------------------------- field lines

  predicate StartsWith(s: string, p: string) {
    p <= s
  }

  datatype Field = Field(name: string, value: string)

  /** ":** " and a value, at position k of s. */
  predicate EndsLabel(s: string, k: nat)
    requires k <= |s|
  {
    ":** " <= s[k..] && k + 4 < |s|
  }

  /** The shortest label of at least k characters after which the field pattern still matches. */
  function LabelEnd(s: string, k: nat): (e: Option<nat>)
    ensures e.Some? ==> k <= e.value && e.value + 4 < |s|
    decreases |s| - k
  {
    if k > |s| then None else if EndsLabel(s, k) then Some(k) else LabelEnd(s, k + 1)
  }

  lemma {:induction false} LabelEndFacts(s: string, k: nat)
    ensures LabelEnd(s, k).Some? ==> EndsLabel(s, LabelEnd(s, k).value)
    ensures forall j :: k <= j <= |s| && EndsLabel(s, j) ==> LabelEnd(s, k).Some? && LabelEnd(s, k).value <= j
    decreases |s| - k
  {
    if k <= |s| && !EndsLabel(s, k) {
      LabelEndFacts(s, k + 1);
    }
  }

  /** FIELD_RE on one line: "- **" label ":** " value, the label as short as possible, both non-empty. */
  function FieldOf(line: string): Option<Field> {
    if !StartsWith(line, "- **") then None
    else
      var s := line[4..];
      match LabelEnd(s, 1)
      case None => None
      case Some(e) => Some(Field(s[..e], s[e + 4..]))
  }

  /** What is read is all of the line. */
  lemma FieldIsWholeLine(line: string)
    ensures FieldOf(line).Some? ==>
              var f := FieldOf(line).value;
              f.name != [] && f.value != [] && line == "- **" + f.name + ":** " + f.value
  {
    if FieldOf(line).Some? {
      var s := line[4..];
      var e := LabelEnd(s, 1).value;
      LabelEndFacts(s, 1);
      LabelSplit(s, e);
      assert line == "- **" + s;
    }
  }

  lemma LabelSplit(s: string, e: nat)
    requires e <= |s| && EndsLabel(s, e)
    ensures e + 4 <= |s| && s == s[..e] + ":** " + s[e + 4..]
  {
    assert s == s[..e] + s[e..];
    assert s[e..] == ":** " + s[e..][4..];
    assert s[e..][4..] == s[e + 4..];
  }

  /** A printed field is read back, whatever its value holds. */
  lemma FieldOfPrinted(name: string, value: string)
    requires name != [] && ':' !in name
    ensures FieldOf("- **" + name + ":** " + value) == if value == [] then None else Some(Field(name, value))
  {
    var line := "- **" + name + ":** " + value;
    var s := line[4..];
    assert s == name + (":** " + value);
    assert s[|name|..] == ":** " + value;
    forall j | 1 <= j < |name| ensures !EndsLabel(s, j) {
      assert s[j..][0] == name[j];
    }
    LabelEndFacts(s, 1);
    if value != [] {
      assert EndsLabel(s, |name|);
      assert s[|name| + 4..] == value && s[..|name|] == name;
    }
  }

  // ---------------------------------------------------------------- markdown

  function IndexOf(s: string, c: char): (i: nat)
    ensures i <= |s| && c !in s[..i] && (i < |s| ==> s[i] == c)
  {
    if s == [] || s[0] == c then 0
    else
      assert s[..IndexOf(s[1..], c) + 1] == [s[0]] + s[1..][..IndexOf(s[1..], c)];
      IndexOf(s[1..], c) + 1
  }

  datatype Link = Link(text: string, size: nat)

  /** A link at the start of s: "[", a text without "]", "](", a target without ")", ")". */
  function LinkAt(s: string): (l: Option<Link>)
    ensures l.Some? ==> |l.value.text| + 4 < l.value.size <= |s|
  {
    if s == [] || s[0] != '[' then None
    else
      var n := IndexOf(s[1..], ']');
      var after := 1 + n + 1;
      if n == 0 || after >= |s| || s[after] != '(' then None
      else
        var m := IndexOf(s[after + 1..], ')');
        if m == 0 || after + 1 + m >= |s| then None else Some(Link(s[1..][..n], after + 1 + m + 1))
  }

  /** Every link replaced by its text, from the left. */
  function ReplaceLinks(s: string): (r: string)
    ensures |r| <= |s|
    decreases |s|
  {
    if s == [] then []
    else match LinkAt(s)
      case Some(l) => l.text + ReplaceLinks(s[l.size..])
      case None => [s[0]] + ReplaceLinks(s[1..])
  }

  /** No link starts anywhere in s. */
  predicate NoLink(s: string) {
    s == [] || (LinkAt(s).None? && NoLink(s[1..]))
  }

  lemma {:induction false} NoBracketNoLink(s: string)
    requires '[' !in s
    ensures NoLink(s)
  {
    if s != [] {
      assert s[0] in s;
      NoBracketNoLink(s[1..]);
    }
  }

  lemma LinkShortens(s: string)
    requires LinkAt(s).Some?
    ensures |ReplaceLinks(s)| < |s|
  {
    var l := LinkAt(s).value;
    assert |ReplaceLinks(s[l.size..])| <= |s| - l.size;
  }

  lemma {:induction false} ReplaceLinksKeepsIff(s: string)
    ensures ReplaceLinks(s) == s <==> NoLink(s)
    ensures !NoLink(s) ==> |ReplaceLinks(s)| < |s|
    decreases |s|
  {
    if s != [] {
      if LinkAt(s).Some? {
        LinkShortens(s);
      } else {
        ReplaceLinksKeepsIff(s[1..]);
        ConsEqual(s, ReplaceLinks(s[1..]));
      }
    }
  }

  lemma ConsEqual(s: string, t: string)
    requires s != []
    ensures [s[0]] + t == s <==> t == s[1..]
  {
    assert ([s[0]] + t)[1..] == t;
  }

  predicate InBackticks(v: string) {
    v != [] && v[0] == '`' && v[|v| - 1] == '`'
  }

  function Unquote(s: string): string {
    if !InBackticks(s) then s else if |s| == 1 then [] else s[1..|s| - 1]
  }

  function Unlinked(s: string): string {
    Trim(ReplaceLinks(s))
  }

  function Filled(s: string): (r: Option<string>)
    ensures r.Some? ==> r.value != []
  {
    if s == [] then None else Some(s)
  }

  /** _strip_markdown. */
  function StripMarkdown(value: string): (r: Option<string>)
    ensures r.Some? ==> r.value != []
  {
    Filled(Unlinked(Unquote(Trim(value))))
  }

  /** Values that survive being printed in backticks. */
  predicate Plain(v: string) {
    v != [] && Unpadded(v) && NoLink(v)
  }

  lemma UnlinkedKeepsIff(v: string)
    ensures Unlinked(v) == v <==> Unpadded(v) && NoLink(v)
  {
    ReplaceLinksKeepsIff(v);
    TrimUnpadded(ReplaceLinks(v));
  }

  lemma Quoted(v: string)
    ensures Unpadded("`" + v + "`") && Unquote("`" + v + "`") == v
  {
    var q := "`" + v + "`";
    assert q[0] == '`' && q[|q| - 1] == '`' && q[1..|q| - 1] == v;
  }

  lemma StripQuoted(v: string)
    ensures StripMarkdown("`" + v + "`") == Filled(Unlinked(v))
  {
    var q := "`" + v + "`";
    Quoted(v);
    TrimUnpadded(q);
    assert Trim(q) == q;
  }

  lemma StripBackticksIff(v: string)
    ensures StripMarkdown("`" + v + "`") == Some(v) <==> Plain(v)
  {
    StripQuoted(v);
    UnlinkedKeepsIff(v);
  }

  lemma UnlinkedShorter(v: string)
    ensures Unlinked(v) != v ==> |Unlinked(v)| < |v|
  {
    UnlinkedKeepsIff(v);
    ReplaceLinksKeepsIff(v);
    TrimUnpadded(ReplaceLinks(v));
    TrimShorter(ReplaceLinks(v));
  }

  lemma TrimShorter(v: string)
    ensures Trim(v) != v ==> |Trim(v)| < |v|
  {
    assert |TrimLeft(v)| == |v| ==> TrimLeft(v) == v;
  }

  lemma UnquoteShorter(s: string)
    ensures if InBackticks(s) then |Unquote(s)| < |s| else Unquote(s) == s
  {
  }

  /** The three steps of _strip_markdown leave v alone, or leave something shorter. */
  lemma StepsKeepIff(v: string)
    ensures Unlinked(Unquote(Trim(v))) == v <==> Unpadded(v) && !InBackticks(v) && NoLink(v)
    ensures Unlinked(Unquote(Trim(v))) != v ==> |Unlinked(Unquote(Trim(v)))| < |v|
  {
    var a := Trim(v);
    var b := Unquote(a);
    TrimUnpadded(v);
    TrimShorter(v);
    UnquoteShorter(a);
    UnlinkedShorter(b);
    if a == v && b == v {
      UnlinkedKeepsIff(v);
    }
  }

  /** A bare value is kept exactly when it is plain and not in backticks; otherwise it gets shorter. */
  lemma StripBareIff(v: string)
    ensures StripMarkdown(v) == Some(v) <==> Plain(v) && !InBackticks(v)
    ensures StripMarkdown(v).Some? && StripMarkdown(v) != Some(v) ==> |StripMarkdown(v).value| < |v|
  {
    StepsKeepIff(v);
    FilledIs(Unlinked(Unquote(Trim(v))), v);
  }

  lemma FilledIs(s: string, v: string)
    ensures Filled(s) == Some(v) <==> s == v && v != []
    ensures Filled(s).Some? ==> Filled(s).value == s
  {
  }

  // ---------------------------------------------------------------- markers

  function Run(s: string, allowed: char -> bool): (r: string)
    ensures r <= s && (forall i :: 0 <= i < |r| ==> allowed(r[i]))
    ensures |r| < |s| ==> !allowed(s[|r|])
  {
    if s == [] || !allowed(s[0]) then [] else [s[0]] + Run(s[1..], allowed)
  }

  function MarkerAt(s: string, prefix: string, allowed: char -> bool): (r: Option<string>)
    ensures r.Some? ==> r.value != [] && forall i :: 0 <= i < |r.value| ==> allowed(r.value[i])
  {
    if !StartsWith(s, prefix) then None
    else
      var word := Run(s[|prefix|..], allowed);
      if word != [] && StartsWith(s[|prefix| + |word|..], " -->") then Some(word) else None
  }

  /** The first place where the marker matches. */
  function Search(s: string, prefix: string, allowed: char -> bool): (r: Option<string>)
    ensures r.Some? ==> r.value != [] && forall i :: 0 <= i < |r.value| ==> allowed(r.value[i])
  {
    if MarkerAt(s, prefix, allowed).Some? then MarkerAt(s, prefix, allowed)
    else if s == [] then None
    else Search(s[1..], prefix, allowed)
  }

  lemma {:induction false} RunOf(word: string, rest: string, allowed: char -> bool)
    requires forall i :: 0 <= i < |word| ==> allowed(word[i])
    requires rest == [] || !allowed(rest[0])
    ensures Run(word + rest, allowed) == word
  {
    if word == [] {
      assert word + rest == rest;
    } else {
      assert (word + rest)[1..] == word[1..] + rest;
      RunOf(word[1..], rest, allowed);
    }
  }

  lemma MarkerPrinted(prefix: string, word: string, rest: string, allowed: char -> bool)
    requires word != [] && (forall i :: 0 <= i < |word| ==> allowed(word[i])) && !allowed(' ')
    ensures MarkerAt(prefix + word + " -->" + rest, prefix, allowed) == Some(word)
  {
    var s := prefix + word + " -->" + rest;
    assert s[|prefix|..] == word + (" -->" + rest);
    RunOf(word, " -->" + rest, allowed);
    assert s[|prefix| + |word|..] == " -->" + rest;
  }

  lemma NotThere(s: string, prefix: string, allowed: char -> bool, k: nat)
    requires k < |prefix| && (k < |s| ==> s[k] != prefix[k])
    ensures MarkerAt(s, prefix, allowed).None?
  {
  }

  /** Text without the marker's first character is passed over. */
  lemma {:induction false} SearchSkips(front: string, rest: string, prefix: string, allowed: char -> bool)
    requires prefix != [] && forall i :: 0 <= i < |front| ==> front[i] != prefix[0]
    ensures Search(front + rest, prefix, allowed) == Search(rest, prefix, allowed)
  {
    if front == [] {
      assert front + rest == rest;
    } else {
      NotThere(front + rest, prefix, allowed, 0);
      assert (front + rest)[1..] == front[1..] + rest;
      SearchSkips(front[1..], rest, prefix, allowed);
    }
  }

  // ---------------------------------------------------------------- locations

  /** ":" and digits. */
  predicate LineSuffix(s: string) {
    |s| >= 2 && s[0] == ':' && forall i :: 1 <= i < |s| ==> Digit(s[i])
  }

  /** Where the shortest path of at least k characters ends in LOCATION_LINE_RE. */
  function PathEnd(s: string, k: nat): (e: nat)
    requires 1 <= k <= |s|
    ensures k <= e <= |s| && (e == |s| || LineSuffix(s[e..]))
    ensures forall j :: k <= j < e ==> !LineSuffix(s[j..])
    decreases |s| - k
  {
    if k == |s| || LineSuffix(s[k..]) then k else PathEnd(s, k + 1)
  }

  datatype Place = Place(path: Option<string>, line: Option<string>)

  /** The location part of parse_issue_body. */
  function ParseLocation(field: Option<string>): Place {
    var location := if field.Some? && field.value != [] then field.value else "n/a";
    if location == "n/a" then Place(None, None)
    else
      var e := PathEnd(location, 1);
      Place(Some(location[..e]), if e == |location| then None else Some(location[e + 1..]))
  }

  /** location_text of render_issue_body; no path prints as n/a, and line 0 is no line. */
  function LocationText(path: Option<string>, line: Option<nat>): string {
    var shown := if Given(path) then path.value else "n/a";
    if HasLine(line) then shown + ":" + Decimal(line.value) else shown
  }

  predicate Given(v: Option<string>) {
    v.Some? && v.value != []
  }

  predicate HasLine(line: Option<nat>) {
    line.Some? && line.value != 0
  }

  predicate EndsInLineNumber(path: string) {
    exists k :: 1 <= k < |path| && LineSuffix(path[k..])
  }

  /** What reading the location back should give. */
  function Intended(path: Option<string>, line: Option<nat>): Place {
    Place(if Given(path) then path else None, if HasLine(line) then Some(Decimal(line.value)) else None)
  }

  /** When a location can be read back: a line needs a path, and a path alone must not look like more than one. */
  predicate Readable(path: Option<string>, line: Option<nat>) {
    if HasLine(line) then Given(path)
    else Given(path) ==> path.value != "n/a" && !EndsInLineNumber(path.value)
  }

  /** ParseLocation takes its argument apart without losing anything. */
  lemma PlaceDetermines(s: string)
    requires s != [] && s != "n/a"
    ensures var p := ParseLocation(Some(s));
            p.path.Some? && s == p.path.value + if p.line.Some? then ":" + p.line.value else []
  {
    var e := PathEnd(s, 1);
    if e < |s| {
      assert s[e..][0] == ':';
      assert s == s[..e] + ":" + s[e + 1..];
    } else {
      assert s[..e] == s && s + [] == s;
    }
  }

  lemma LineSuffixDecimal(shown: string, n: nat)
    requires shown != []
    ensures var s := shown + ":" + Decimal(n);
            PathEnd(s, 1) == |shown| && s[..|shown|] == shown && s[|shown| + 1..] == Decimal(n) && s != "n/a"
  {
    var s := shown + ":" + Decimal(n);
    assert s[|shown|..] == ":" + Decimal(n);
    assert s[|shown|] == ':';
    forall j | 1 <= j < |shown| ensures !LineSuffix(s[j..]) {
      assert s[j..][|shown| - j] == ':';
    }
    forall j | |shown| < j < |s| ensures !LineSuffix(s[j..]) {
      assert s[j] == Decimal(n)[j - |shown| - 1];
      assert Digit(s[j]);
    }
    assert s[|s| - 1] == Decimal(n)[|Decimal(n)| - 1];
  }

  /** The printed location reads back as given exactly when it is readable and survives the markdown stripping. */
  lemma LocationRoundTrip(path: Option<string>, line: Option<nat>)
    ensures ParseLocation(StripMarkdown("`" + LocationText(path, line) + "`")) == Intended(path, line)
       <==> Readable(path, line) && Plain(LocationText(path, line))
  {
    var text := LocationText(path, line);
    StripBackticksIff(text);
    if Plain(text) {
      PlainLocation(path, line);
    } else {
      NoPathPlain(line);
      SpoiltLocation(path, line, StripMarkdown("`" + text + "`"));
    }
  }

  /** Another text than the one printed never reads back as the intended place. */
  lemma SpoiltLocation(path: Option<string>, line: Option<nat>, read: Option<string>)
    requires Given(path) && read != Some(LocationText(path, line)) && (read.Some? ==> read.value != [])
    ensures ParseLocation(read) != Intended(path, line)
  {
    if read.Some? && read.value != "n/a" {
      PlaceDetermines(read.value);
      var place := ParseLocation(read);
      assert path.value + [] == path.value;
      if HasLine(line) {
        assert path.value + ":" + Decimal(line.value) == path.value + (":" + Decimal(line.value));
      }
    }
  }

  lemma PlainLocation(path: Option<string>, line: Option<nat>)
    ensures ParseLocation(Some(LocationText(path, line))) == Intended(path, line) <==> Readable(path, line)
  {
    var shown := if Given(path) then path.value else "n/a";
    if HasLine(line) {
      LineSuffixDecimal(shown, line.value);
    } else if Given(path) && path.value != "n/a" {
      var e := PathEnd(path.value, 1);
      if e == |path.value| {
        assert path.value[..e] == path.value;
        assert forall k :: 1 <= k < |path.value| ==> !LineSuffix(path.value[k..]);
      } else {
        assert LineSuffix(path.value[e..]);
      }
    }
  }

  /** Without a path there is nothing to strip. */
  lemma NoPathPlain(line: Option<nat>)
    ensures forall path: Option<string> :: !Given(path) ==> Plain(LocationText(path, line))
  {
    var s := LocationText(None, line);
    assert forall i :: 0 <= i < |s| ==> s[i] != '[';
    NoBracketNoLink(s);
    assert Plain(s);
    assert forall path: Option<string> :: !Given(path) ==> LocationText(path, line) == s;
  }
}
