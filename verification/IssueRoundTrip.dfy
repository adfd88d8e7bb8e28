/** What a printed issue body gives back when it is parsed
    (scripts/security_issue_utils.py, lines 302-351; scripts/security_automation.py, lines 101-153). */
module IssueRoundTrip {
  import opened Wrappers
  import opened Strings
  import opened IssueText
  import opened IssueBody

  // ---------------------------------------------------------------- text that hides no field

  /** The line writes another entry of the dictionary, or none. */
  predicate QuietLine(line: string, key: string) {
    FieldOf(line).Some? ==> Key(FieldOf(line).value.name) != key
  }

  predicate QuietLines(lines: seq<string>, key: string) {
    forall line :: line in lines ==> QuietLine(line, key)
  }

  predicate Quiet(text: string, key: string) {
    QuietLines(Lines(text), key)
  }

  /** The same for a text whose first line is printed after something else. */
  predicate QuietTail(text: string, key: string) {
    QuietLines(Lines(text)[1..], key)
  }

  predicate AllQuiet(texts: seq<string>, key: string) {
    forall text :: text in texts ==> Quiet(text, key)
  }

  lemma {:induction false} FlatConcat(a: seq<string>, b: seq<string>)
    ensures FlatLines(a + b) == FlatLines(a) + FlatLines(b)
  {
    if b == [] {
      assert a + b == a;
    } else {
      assert (a + b)[..|a + b| - 1] == a + b[..|b| - 1];
      FlatConcat(a, b[..|b| - 1]);
    }
  }

  lemma QuietWrite(fields: Fields, line: string, key: string)
    requires QuietLine(line, key)
    ensures Get(Written(fields, line), key) == Get(fields, key)
  {
  }

  lemma {:induction false} QuietKeeps(a: seq<string>, b: seq<string>, key: string)
    requires QuietLines(b, key)
    ensures Get(FieldsOf(a + b), key) == Get(FieldsOf(a), key)
  {
    if b == [] {
      assert a + b == a;
    } else {
      var front, last := b[..|b| - 1], b[|b| - 1];
      assert (a + b)[..|a + b| - 1] == a + front;
      assert last in b;
      QuietKeeps(a, front, key);
      QuietWrite(FieldsOf(a + front), last, key);
    }
  }

  lemma {:induction false} QuietTexts(ts: seq<string>, key: string)
    requires AllQuiet(ts, key)
    ensures QuietLines(FlatLines(ts), key)
  {
    if ts != [] {
      QuietTexts(ts[..|ts| - 1], key);
      assert ts[|ts| - 1] in ts;
    }
  }

  lemma LastLine(a: seq<string>, line: string, field: Field)
    requires FieldOf(line) == Some(field)
    ensures Get(FieldsOf(a + [line]), Key(field.name)) == StripMarkdown(field.value)
  {
    assert (a + [line])[..|a|] == a;
  }

  lemma FlatOne(line: string)
    requires OneLine(line)
    ensures FlatLines([line]) == [line]
  {
    LinesOne(line);
    assert [line][..0] == [];
  }

  lemma FlatAround(before: seq<string>, line: string, after: seq<string>)
    requires OneLine(line)
    ensures FlatLines(before + [line] + after) == FlatLines(before) + [line] + FlatLines(after)
  {
    FlatConcat(before + [line], after);
    FlatConcat(before, [line]);
    FlatOne(line);
  }

  /** The last text that writes an entry decides it. */
  lemma Decides(before: seq<string>, line: string, field: Field, after: seq<string>, key: string)
    requires OneLine(line) && FieldOf(line) == Some(field) && Key(field.name) == key && AllQuiet(after, key)
    ensures Get(FieldsOf(FlatLines(before + [line] + after)), key) == StripMarkdown(field.value)
  {
    FlatAround(before, line, after);
    QuietTexts(after, key);
    QuietKeeps(FlatLines(before) + [line], FlatLines(after), key);
    LastLine(FlatLines(before), line, field);
  }

  // ---------------------------------------------------------------- which pieces are quiet

  lemma QuietPrinted(name: string, value: string, key: string)
    requires name != [] && ':' !in name && OneLine(name) && Key(name) != key && QuietTail(value, key)
    ensures Quiet("- **" + name + ":** " + value, key)
  {
    QuietFirst(name, Lines(value)[0], key);
    QuietPrefixed("- **" + name + ":** ", value, key);
  }

  lemma QuietPrefixed(prefix: string, value: string, key: string)
    requires OneLine(prefix) && QuietLine(prefix + Lines(value)[0], key) && QuietTail(value, key)
    ensures Quiet(prefix + value, key)
  {
    LinesPrefix(prefix, value);
    QuietCons(prefix + Lines(value)[0], Lines(value)[1..], key);
  }

  lemma QuietFirst(name: string, value: string, key: string)
    requires name != [] && ':' !in name && Key(name) != key
    ensures QuietLine("- **" + name + ":** " + value, key)
  {
    FieldOfPrinted(name, value);
  }

  lemma QuietCons(line: string, rest: seq<string>, key: string)
    requires QuietLine(line, key) && QuietLines(rest, key)
    ensures QuietLines([line] + rest, key)
  {
  }

  lemma QuietOneLine(text: string, key: string)
    requires OneLine(text)
    ensures QuietTail(text, key)
    ensures !StartsWith(text, "- **") ==> Quiet(text, key)
  {
    LinesOne(text);
  }

  predicate NoteShape(text: string) {
    OneLine(text) && (|text| < 3 || text[2] != '*')
  }

  predicate LabelShape(name: string) {
    name != [] && ':' !in name && OneLine(name)
  }

  /** Labels that are read back whole and apart, and fixed text that is no field. */
  ghost predicate Proper(t: Template) {
    && (forall n :: LabelShape(t.heading(n)))
    && (forall m, n :: m != n ==> Key(t.heading(m)) != Key(t.heading(n)))
    && (forall note :: NoteShape(t.note(note)))
    && (forall hint :: OneLine(t.hint(hint)))
    && EndsVisibly(t.note(Closing))
  }

  predicate EndsVisibly(text: string) {
    text != [] && !Space(text[|text| - 1])
  }

  /** Nothing printed beside the recovered values writes this entry. */
  predicate Clean(f: Finding, url: string, date: string, key: string) {
    && QuietTail(RunLink(url), key) && QuietTail(date, key)
    && (f.description.Some? ==> Quiet(f.description.value, key))
    && (f.remediation.Some? ==> Quiet(f.remediation.value, key))
    && (f.suppressionReason.Some? ==> QuietTail(f.suppressionReason.value, key))
  }

  predicate OneLineOption(v: Option<string>) {
    v.Some? ==> OneLine(v.value)
  }

  predicate SingleLines(f: Finding) {
    && OneLine(f.severity) && OneLine(f.identifier) && OneLineOption(f.path)
    && OneLineOption(f.package) && OneLineOption(f.installed) && OneLineOption(f.fixed)
  }

  predicate Recovered(n: Name) {
    n == Severity || n == Identifier || n == Location || n == Package || n == Installed || n == Fixed
  }

  lemma RecoveredOneLine(t: Template, f: Finding, url: string, date: string, n: Name)
    requires Recovered(n) && SingleLines(f)
    ensures OneLine(Value(t, f, url, date, n))
  {
  }

  lemma ReasonTail(f: Finding, url: string, date: string, key: string)
    requires Clean(f, url, date, key)
    ensures QuietTail(ReasonText(f), key)
  {
    if !Given(f.suppressionReason) {
      ReasonOneLine(f);
      QuietOneLine(ReasonText(f), key);
    }
  }

  lemma MissingOneLine()
    ensures OneLine(MISSING_REASON)
  {
  }

  lemma ReasonOneLine(f: Finding)
    requires !Given(f.suppressionReason)
    ensures OneLine(ReasonText(f))
  {
    MissingOneLine();
  }

  lemma ValueTail(t: Template, f: Finding, url: string, date: string, m: Name, key: string)
    requires Proper(t) && SingleLines(f) && Clean(f, url, date, key) && m != ScannerField
    ensures QuietTail(Value(t, f, url, date, m), key)
  {
    match m
    case OwnerField => QuietOneLine(t.hint(OwnerHint(f.path)), key);
    case StatusField => StatusTail(f.suppressed, key);
    case ReasonField => ReasonTail(f, url, date, key);
    case RunField =>
    case DateField =>
    case _ =>
      RecoveredOneLine(t, f, url, date, m);
      QuietOneLine(Value(t, f, url, date, m), key);
  }

  lemma StatusTail(suppressed: bool, key: string)
    ensures QuietTail(StatusText(suppressed), key)
  {
    StatusOneLine(suppressed);
    QuietOneLine(StatusText(suppressed), key);
  }

  lemma StatusOneLine(suppressed: bool)
    ensures OneLine(StatusText(suppressed))
  {
  }

  /** A piece that may follow the field n. */
  predicate Follows(t: Template, f: Finding, url: string, date: string, p: Piece, n: Name) {
    match p
    case Marker(_, _) => false
    case Fixedly(_) => true
    case Free(text) => f.description == Some(text) || f.remediation == Some(text)
    case FieldLine(m, value) => m != n && m != ScannerField && value == Value(t, f, url, date, m)
  }

  lemma QuietNote(t: Template, note: Note, key: string)
    requires Proper(t)
    ensures Quiet(t.note(note), key)
  {
    assert NoteShape(t.note(note));
    QuietOneLine(t.note(note), key);
  }

  lemma QuietOther(t: Template, f: Finding, url: string, date: string, m: Name, n: Name)
    requires Proper(t) && m != n && m != ScannerField && SingleLines(f) && Clean(f, url, date, Key(t.heading(n)))
    ensures Quiet("- **" + t.heading(m) + ":** " + Value(t, f, url, date, m), Key(t.heading(n)))
  {
    ValueTail(t, f, url, date, m, Key(t.heading(n)));
    assert LabelShape(t.heading(m));
    QuietPrinted(t.heading(m), Value(t, f, url, date, m), Key(t.heading(n)));
  }

  lemma FollowsQuiet(t: Template, f: Finding, url: string, date: string, p: Piece, n: Name)
    requires Proper(t) && SingleLines(f) && Clean(f, url, date, Key(t.heading(n))) && Follows(t, f, url, date, p, n)
    ensures Quiet(Text(t, p), Key(t.heading(n)))
  {
    match p
    case Fixedly(note) => QuietNote(t, note, Key(t.heading(n)));
    case Free(text) =>
    case FieldLine(m, value) => QuietOther(t, f, url, date, m, n);
  }

  /** Where a recovered field stands in the summary. */
  function IndexOfField(n: Name): (i: nat)
    requires Recovered(n)
    ensures i < |SUMMARY| && SUMMARY[i] == n
  {
    match n
    case Severity => 1
    case Identifier => 2
    case Location => 3
    case Package => 4
    case Installed => 5
    case Fixed => 6
  }

  lemma SummaryFollows(t: Template, f: Finding, url: string, date: string, n: Name, p: Piece)
    requires Recovered(n) && p in Summary(t, f, url, date)[IndexOfField(n) + 1..]
    ensures Follows(t, f, url, date, p, n)
  {
    var i := IndexOfField(n);
    var j :| i < j < |SUMMARY| && Summary(t, f, url, date)[j] == p;
    SummaryApart(i, j);
    SummaryApart(0, j);
  }

  lemma SummaryApart(i: nat, j: nat)
    requires i < j < |SUMMARY|
    ensures SUMMARY[i] != SUMMARY[j]
  {
  }

  lemma ProseFollows(t: Template, f: Finding, url: string, date: string, n: Name, p: Piece)
    requires Recovered(n) && p in Prose(t, f, url, date)
    ensures Follows(t, f, url, date, p, n)
  {
  }

  lemma {:induction false} TextsQuiet(t: Template, f: Finding, url: string, date: string, n: Name, ps: seq<Piece>)
    requires Proper(t) && SingleLines(f) && Clean(f, url, date, Key(t.heading(n)))
    requires forall p :: p in ps ==> Follows(t, f, url, date, p, n)
    ensures AllQuiet(Texts(t, ps), Key(t.heading(n)))
  {
    forall text | text in Texts(t, ps) ensures Quiet(text, Key(t.heading(n))) {
      var i :| 0 <= i < |ps| && Texts(t, ps)[i] == text;
      FollowsQuiet(t, f, url, date, ps[i], n);
    }
  }

  lemma TextsConcat(t: Template, a: seq<Piece>, p: Piece, b: seq<Piece>)
    ensures Texts(t, a + [p] + b) == Texts(t, a) + [Text(t, p)] + Texts(t, b)
  {
  }

  /** The pieces around a recovered field. */
  lemma Around(t: Template, f: Finding, url: string, date: string, n: Name)
    requires Recovered(n)
    ensures var s, i := Summary(t, f, url, date), IndexOfField(n);
            Pieces(t, f, url, date)
            == (Opening(f) + s[..i]) + [Printed(t, f, url, date, n)] + (s[i + 1..] + Prose(t, f, url, date))
  {
    var s, i := Summary(t, f, url, date), IndexOfField(n);
    assert s[i] == Printed(t, f, url, date, n);
    Enclosed(Opening(f), s, i, Prose(t, f, url, date));
  }

  lemma Enclosed<T>(a: seq<T>, s: seq<T>, i: nat, b: seq<T>)
    requires i < |s|
    ensures a + s + b == (a + s[..i]) + [s[i]] + (s[i + 1..] + b)
  {
  }

  lemma AfterFollows(t: Template, f: Finding, url: string, date: string, n: Name, p: Piece)
    requires Recovered(n) && p in Summary(t, f, url, date)[IndexOfField(n) + 1..] + Prose(t, f, url, date)
    ensures Follows(t, f, url, date, p, n)
  {
    if p in Prose(t, f, url, date) {
      ProseFollows(t, f, url, date, n, p);
    } else {
      SummaryFollows(t, f, url, date, n, p);
    }
  }

  lemma PieceWrites(t: Template, n: Name, value: string)
    requires LabelShape(t.heading(n)) && OneLine(value) && value != []
    ensures OneLine(Text(t, FieldLine(n, value)))
    ensures FieldOf(Text(t, FieldLine(n, value))) == Some(Field(t.heading(n), value))
  {
    FieldOfPrinted(t.heading(n), value);
  }

  lemma PieceRead(t: Template, before: seq<Piece>, n: Name, value: string, after: seq<Piece>)
    requires LabelShape(t.heading(n)) && OneLine(value) && value != []
    requires AllQuiet(Texts(t, after), Key(t.heading(n)))
    ensures Get(FieldsOf(FlatLines(Texts(t, before + [FieldLine(n, value)] + after))), Key(t.heading(n)))
            == StripMarkdown(value)
  {
    TextsConcat(t, before, FieldLine(n, value), after);
    PieceWrites(t, n, value);
    Decides(Texts(t, before), Text(t, FieldLine(n, value)), Field(t.heading(n), value), Texts(t, after),
            Key(t.heading(n)));
  }

  /** What the parser finds under each recovered key. */
  lemma FieldRead(t: Template, f: Finding, url: string, date: string, n: Name)
    requires Proper(t) && Recovered(n) && Value(t, f, url, date, n) != []
    requires SingleLines(f) && Clean(f, url, date, Key(t.heading(n)))
    ensures Get(FieldsOf(FlatLines(Texts(t, Pieces(t, f, url, date)))), Key(t.heading(n)))
            == StripMarkdown(Value(t, f, url, date, n))
  {
    var s, i := Summary(t, f, url, date), IndexOfField(n);
    var after := s[i + 1..] + Prose(t, f, url, date);
    forall p | p in after ensures Follows(t, f, url, date, p, n) {
      AfterFollows(t, f, url, date, n, p);
    }
    TextsQuiet(t, f, url, date, n, after);
    RecoveredOneLine(t, f, url, date, n);
    assert LabelShape(t.heading(n));
    PieceRead(t, Opening(f) + s[..i], n, Value(t, f, url, date, n), after);
    Around(t, f, url, date, n);
  }

  // ---------------------------------------------------------------- the body as text

  lemma {:induction false} JoinStarts(ts: seq<string>)
    requires |ts| > 0 && ts[0] != []
    ensures Join(ts) != [] && Join(ts)[0] == ts[0][0]
  {
    if |ts| > 1 {
      JoinStarts(ts[..|ts| - 1]);
    }
  }

  lemma {:induction false} JoinCons(ts: seq<string>)
    requires |ts| > 1
    ensures Join(ts) == ts[0] + "\n" + Join(ts[1..])
  {
    var front := ts[..|ts| - 1];
    if |ts| > 2 {
      JoinCons(front);
      assert ts[1..][..|ts| - 2] == front[1..];
    } else {
      assert front == [ts[0]] && ts[1..] == [ts[1]];
    }
  }

  /** Stripping leaves a joined text alone when neither its first nor its last character is a space. */
  lemma JoinUnpadded(ts: seq<string>)
    requires |ts| > 0 && ts[0] != [] && ts[|ts| - 1] != []
    requires !Space(ts[0][0]) && !Space(ts[|ts| - 1][|ts[|ts| - 1]| - 1])
    ensures Trim(Join(ts)) == Join(ts)
  {
    JoinStarts(ts);
    TrimUnpadded(Join(ts));
  }

  lemma BodyEnds(t: Template, f: Finding, url: string, date: string)
    ensures |Pieces(t, f, url, date)| == 32
    ensures Pieces(t, f, url, date)[0] == Marker(FINDING, f.fingerprint)
    ensures Pieces(t, f, url, date)[1] == Marker(SCANNER, f.scanner)
    ensures Pieces(t, f, url, date)[31] == Fixedly(Closing)
  {
    var prose := Prose(t, f, url, date);
    assert |prose| == 17 && prose[16] == Fixedly(Closing);
  }

  lemma BodyIsJoin(t: Template, f: Finding, url: string, date: string)
    requires Proper(t)
    ensures Body(t, f, url, date) == Join(Texts(t, Pieces(t, f, url, date)))
  {
    BodyEnds(t, f, url, date);
    JoinUnpadded(Texts(t, Pieces(t, f, url, date)));
  }

  lemma BodyLines(t: Template, f: Finding, url: string, date: string)
    requires Proper(t)
    ensures Lines(Body(t, f, url, date)) == FlatLines(Texts(t, Pieces(t, f, url, date)))
  {
    BodyIsJoin(t, f, url, date);
    LinesOfJoin(Texts(t, Pieces(t, f, url, date)));
  }

  // ---------------------------------------------------------------- the markers

  predicate Hex(s: string) {
    s != [] && forall i :: 0 <= i < |s| ==> HexDigit(s[i])
  }

  predicate Word(s: string) {
    s != [] && forall i :: 0 <= i < |s| ==> WordChar(s[i])
  }

  /** The two marker lines in front of everything else. */
  function WithMarkers(fingerprint: string, scanner: string, rest: string): string {
    FINDING + fingerprint + " -->" + ("\n" + (SCANNER + scanner + " -->" + ("\n" + rest)))
  }

  lemma JoinTwice(ts: seq<string>, fingerprint: string, scanner: string)
    requires |ts| > 2 && ts[0] == FINDING + fingerprint + " -->" && ts[1] == SCANNER + scanner + " -->"
    ensures Join(ts) == WithMarkers(fingerprint, scanner, Join(ts[2..]))
  {
    JoinCons(ts);
    JoinCons(ts[1..]);
    assert ts[1..][1..] == ts[2..];
    TwoBreaks(ts[0], ts[1], Join(ts[2..]));
  }

  lemma TwoBreaks(a: string, b: string, c: string)
    ensures a + "\n" + (b + "\n" + c) == a + ("\n" + (b + ("\n" + c)))
  {
  }

  lemma BodyStarts(t: Template, f: Finding, url: string, date: string)
    requires Proper(t)
    ensures Body(t, f, url, date) == WithMarkers(f.fingerprint, f.scanner, Join(Texts(t, Pieces(t, f, url, date))[2..]))
  {
    BodyEnds(t, f, url, date);
    BodyIsJoin(t, f, url, date);
    JoinTwice(Texts(t, Pieces(t, f, url, date)), f.fingerprint, f.scanner);
  }

  /** The fingerprint is recovered exactly when it is a hexadecimal word. */
  lemma FingerprintIff(fingerprint: string, scanner: string, rest: string)
    ensures Search(WithMarkers(fingerprint, scanner, rest), FINDING, HexDigit) == Some(fingerprint)
            <==> Hex(fingerprint)
  {
    if Hex(fingerprint) {
      MarkerPrinted(FINDING, fingerprint, "\n" + (SCANNER + scanner + " -->" + ("\n" + rest)), HexDigit);
    }
  }

  lemma NoAngle(fingerprint: string)
    requires Hex(fingerprint)
    ensures var first := FINDING + fingerprint + " -->" + "\n";
            forall i :: 0 < i < |first| ==> first[i] != '<'
  {
    assert forall k :: 0 < k < |FINDING| ==> FINDING[k] != '<';
  }

  lemma ScannerRead(fingerprint: string, scanner: string, rest: string)
    requires Hex(fingerprint) && Word(scanner)
    ensures Search(WithMarkers(fingerprint, scanner, rest), SCANNER, WordChar) == Some(scanner)
  {
    var first := FINDING + fingerprint + " -->" + "\n";
    var second := SCANNER + scanner + " -->" + ("\n" + rest);
    assert WithMarkers(fingerprint, scanner, rest) == first + second;
    NoAngle(fingerprint);
    assert first[14] == 'f' && SCANNER[14] == 's' && SCANNER[0] == '<';
    SkipFirst(first, second);
    MarkerPrinted(SCANNER, scanner, "\n" + rest, WordChar);
  }

  lemma SkipFirst(first: string, second: string)
    requires |first| > 14 && first[14] != SCANNER[14] && forall i :: 0 < i < |first| ==> first[i] != SCANNER[0]
    ensures Search(first + second, SCANNER, WordChar) == Search(second, SCANNER, WordChar)
  {
    NotThere(first + second, SCANNER, WordChar, 14);
    assert (first + second)[1..] == first[1..] + second;
    SearchSkips(first[1..], second, SCANNER, WordChar);
  }

  // ---------------------------------------------------------------- the words of the program

  lemma LabelUnpadded(n: Name)
    ensures Unpadded(Label(n))
  {
  }

  lemma KeyIsLower(n: Name)
    ensures Key(Label(n)) == Lower(Label(n))
  {
    LabelUnpadded(n);
    TrimUnpadded(Label(n));
  }

  lemma SameLower(name: string, key: string)
    requires |name| == |key| && forall i :: 0 <= i < |name| ==> LowerChar(name[i]) == key[i]
    ensures Lower(name) == key
  {
  }

  lemma AffectedKeys()
    ensures Lower("Affected location") == "affected location" && Lower("Affected package") == "affected package"
  {
    SameLower("Affected location", "affected location");
    SameLower("Affected package", "affected package");
  }

  lemma VersionKeys()
    ensures Lower("Installed version") == "installed version" && Lower("Fixed version") == "fixed version"
  {
    SameLower("Installed version", "installed version");
    SameLower("Fixed version", "fixed version");
  }

  lemma ShortKeys()
    ensures Lower("Severity") == "severity" && Lower("Identifier") == "identifier"
  {
    SameLower("Severity", "severity");
    SameLower("Identifier", "identifier");
  }

  /** The key a recovered field is looked up under. */
  function KeyText(n: Name): string
    requires Recovered(n)
  {
    match n
    case Severity => "severity"
    case Identifier => "identifier"
    case Location => "affected location"
    case Package => "affected package"
    case Installed => "installed version"
    case Fixed => "fixed version"
  }

  lemma KeyOfLabel(n: Name)
    requires Recovered(n)
    ensures Key(Label(n)) == KeyText(n)
  {
    KeyIsLower(n);
    ShortKeys();
    AffectedKeys();
    VersionKeys();
  }

  /** Which field a key belongs to, by its length and its ends. */
  function NameOf(size: int, first: char, last: char): Name {
    if size == 7 then ScannerField
    else if size == 8 then Severity
    else if size == 10 then Identifier
    else if size == 13 then Fixed
    else if size == 15 then RunField
    else if size == 16 then (if first == 'a' then Package else DateField)
    else if size == 17 then (if first == 'a' then Location else if first == 'i' then Installed else OwnerField)
    else if last == 's' then StatusField
    else ReasonField
  }

  lemma NameOfLabel(n: Name)
    ensures var l := Label(n); l != [] && NameOf(|l|, LowerChar(l[0]), LowerChar(l[|l| - 1])) == n
  {
  }

  /** Different fields never share a key. */
  lemma KeysDiffer(m: Name, n: Name)
    requires m != n
    ensures Key(Label(m)) != Key(Label(n))
  {
    KeyIsLower(m);
    KeyIsLower(n);
    NameOfLabel(m);
    NameOfLabel(n);
    LowerEnds(Label(m));
    LowerEnds(Label(n));
  }

  lemma LowerEnds(s: string)
    requires s != []
    ensures |Lower(s)| == |s| && Lower(s)[0] == LowerChar(s[0]) && Lower(s)[|Lower(s)| - 1] == LowerChar(s[|s| - 1])
  {
  }

  lemma RecoveredNoColon(n: Name)
    requires Recovered(n)
    ensures Label(n) != [] && ':' !in Label(n)
  {
  }

  lemma LabelNoColon(n: Name)
    ensures Label(n) != [] && ':' !in Label(n)
  {
    if Recovered(n) {
      RecoveredNoColon(n);
    }
  }

  lemma LabelOneLine(n: Name)
    ensures OneLine(Label(n))
  {
  }

  lemma NoDetailsShape()
    ensures NoteShape(NO_DETAILS)
  {
  }

  lemma NoRemediationShape()
    ensures NoteShape(NO_REMEDIATION)
  {
  }

  lemma TrivyShape()
    ensures NoteShape(TRIVY_NOTE)
  {
  }

  lemma CodeqlShape()
    ensures NoteShape(CODEQL_NOTE)
  {
  }

  lemma ClosingShape()
    ensures NoteShape(CLOSING)
  {
  }

  lemma ClosingEnds()
    ensures EndsVisibly(CLOSING)
  {
  }

  lemma NoteShapes(note: Note)
    ensures NoteShape(NoteText(note))
  {
    NoDetailsShape();
    NoRemediationShape();
    TrivyShape();
    CodeqlShape();
    ClosingShape();
  }

  lemma ScanningShape()
    ensures OneLine(SCANNING)
  {
  }

  lemma ToolingShape()
    ensures OneLine(TOOLING)
  {
  }

  lemma BackendShape()
    ensures OneLine(BACKEND)
  {
  }

  lemma FrontendShape()
    ensures OneLine(FRONTEND)
  {
  }

  lemma LeadHintShape()
    ensures OneLine(UNCLEAR)
  {
  }

  lemma HintShape(hint: Hint)
    ensures OneLine(HintText(hint))
  {
    ScanningShape();
    ToolingShape();
    BackendShape();
    FrontendShape();
    LeadHintShape();
  }

  lemma ProgramIsProper()
    ensures Proper(TEMPLATE)
  {
    forall n ensures LabelShape(TEMPLATE.heading(n)) {
      LabelNoColon(n);
      LabelOneLine(n);
    }
    forall m, n | m != n ensures Key(TEMPLATE.heading(m)) != Key(TEMPLATE.heading(n)) {
      KeysDiffer(m, n);
    }
    forall note ensures NoteShape(TEMPLATE.note(note)) {
      NoteShapes(note);
    }
    forall hint ensures OneLine(TEMPLATE.hint(hint)) {
      HintShape(hint);
    }
    ClosingEnds();
  }

  // ---------------------------------------------------------------- the round trip

  lemma LowerOfUpper(s: string)
    requires Lower(s) == s
    ensures Lower(Upper(s)) == s
  {
    forall i | 0 <= i < |s| ensures LowerChar(UpperChar(s[i])) == s[i] {
      assert Lower(s)[i] == s[i];
    }
  }

  lemma LowerWord(s: string)
    requires Word(s)
    ensures Lower(s) == s
  {
  }

  /** One field of the dictionary, from the finding that was printed. */
  lemma FieldParsed(f: Finding, url: string, date: string, n: Name, key: string)
    requires Recovered(n) && key == KeyText(n) && Value(TEMPLATE, f, url, date, n) != []
    requires SingleLines(f) && Clean(f, url, date, key)
    ensures Get(FieldsOf(Lines(RenderIssueBody(f, url, date))), key) == StripMarkdown(Value(TEMPLATE, f, url, date, n))
  {
    ProgramIsProper();
    KeyOfLabel(n);
    FieldRead(TEMPLATE, f, url, date, n);
    BodyLines(TEMPLATE, f, url, date);
  }

  lemma MarkersParsed(fingerprint: string, scanner: string, rest: string, labels: seq<string>)
    ensures ParseSecurityIssue(WithMarkers(fingerprint, scanner, rest), labels).fingerprint == Some(fingerprint)
            <==> Hex(fingerprint)
    ensures Hex(fingerprint) && Word(scanner) ==>
              ParseSecurityIssue(WithMarkers(fingerprint, scanner, rest), labels).scanner == Some(scanner)
  {
    FingerprintIff(fingerprint, scanner, rest);
    if Hex(fingerprint) && Word(scanner) {
      ScannerRead(fingerprint, scanner, rest);
      LowerWord(scanner);
    }
  }

  lemma MarkersRoundTrip(f: Finding, url: string, date: string, labels: seq<string>)
    ensures ParseSecurityIssue(RenderIssueBody(f, url, date), labels).fingerprint == Some(f.fingerprint)
            <==> Hex(f.fingerprint)
    ensures Hex(f.fingerprint) && Word(f.scanner) ==>
              ParseSecurityIssue(RenderIssueBody(f, url, date), labels).scanner == Some(f.scanner)
  {
    ProgramIsProper();
    BodyStarts(TEMPLATE, f, url, date);
    MarkersParsed(f.fingerprint, f.scanner, Join(Texts(TEMPLATE, Pieces(TEMPLATE, f, url, date))[2..]), labels);
  }

  /** A location is recovered exactly when it is readable and plain. */
  lemma LocationParsed(f: Finding, url: string, date: string, labels: seq<string>)
    requires SingleLines(f) && Clean(f, url, date, "affected location")
    ensures var issue := ParseSecurityIssue(RenderIssueBody(f, url, date), labels);
            Place(issue.path, issue.line) == Intended(f.path, f.line) <==>
              Readable(f.path, f.line) && Plain(LocationText(f.path, f.line))
  {
    FieldParsed(f, url, date, Location, "affected location");
    LocationRoundTrip(f.path, f.line);
  }

  lemma CodeParsed(f: Finding, url: string, date: string, n: Name, key: string, v: string)
    requires Recovered(n) && key == KeyText(n) && Value(TEMPLATE, f, url, date, n) == Code(v)
    requires SingleLines(f) && Clean(f, url, date, key)
    ensures Get(FieldsOf(Lines(RenderIssueBody(f, url, date))), key) == Some(v) <==> Plain(v)
  {
    FieldParsed(f, url, date, n, key);
    StripBackticksIff(v);
  }

  /** Each value printed in backticks is recovered exactly when it is plain. */
  predicate CodesKept(f: Finding, issue: Issue) {
    && (issue.identifier == Some(f.identifier) <==> Plain(f.identifier))
    && (issue.package == Some(Or(f.package, "n/a")) <==> Plain(Or(f.package, "n/a")))
    && (issue.installed == Some(Or(f.installed, "n/a")) <==> Plain(Or(f.installed, "n/a")))
    && (issue.fixed == Some(Or(f.fixed, "not provided")) <==> Plain(Or(f.fixed, "not provided")))
  }

  lemma IdentifierParsed(f: Finding, url: string, date: string)
    requires SingleLines(f) && Clean(f, url, date, "identifier")
    ensures Get(FieldsOf(Lines(RenderIssueBody(f, url, date))), "identifier") == Some(f.identifier)
            <==> Plain(f.identifier)
  {
    CodeParsed(f, url, date, Identifier, "identifier", f.identifier);
  }

  lemma PackageParsed(f: Finding, url: string, date: string)
    requires SingleLines(f) && Clean(f, url, date, "affected package")
    ensures Get(FieldsOf(Lines(RenderIssueBody(f, url, date))), "affected package") == Some(Or(f.package, "n/a"))
            <==> Plain(Or(f.package, "n/a"))
  {
    CodeParsed(f, url, date, Package, "affected package", Or(f.package, "n/a"));
  }

  lemma InstalledParsed(f: Finding, url: string, date: string)
    requires SingleLines(f) && Clean(f, url, date, "installed version")
    ensures Get(FieldsOf(Lines(RenderIssueBody(f, url, date))), "installed version") == Some(Or(f.installed, "n/a"))
            <==> Plain(Or(f.installed, "n/a"))
  {
    CodeParsed(f, url, date, Installed, "installed version", Or(f.installed, "n/a"));
  }

  lemma FixedParsed(f: Finding, url: string, date: string)
    requires SingleLines(f) && Clean(f, url, date, "fixed version")
    ensures Get(FieldsOf(Lines(RenderIssueBody(f, url, date))), "fixed version") == Some(Or(f.fixed, "not provided"))
            <==> Plain(Or(f.fixed, "not provided"))
  {
    CodeParsed(f, url, date, Fixed, "fixed version", Or(f.fixed, "not provided"));
  }

  lemma CodesParsed(f: Finding, url: string, date: string, labels: seq<string>)
    requires SingleLines(f) && CleanAll(f, url, date)
    ensures CodesKept(f, ParseSecurityIssue(RenderIssueBody(f, url, date), labels))
  {
    IdentifierParsed(f, url, date);
    PackageParsed(f, url, date);
    InstalledParsed(f, url, date);
    FixedParsed(f, url, date);
  }

  predicate CleanAll(f: Finding, url: string, date: string) {
    && Clean(f, url, date, "identifier") && Clean(f, url, date, "affected location")
       && Clean(f, url, date, "affected package")
    && Clean(f, url, date, "installed version") && Clean(f, url, date, "fixed version")
  }

  /** Parsing what was printed gives the finding back; each value is recovered exactly when it is plain. */
  lemma RoundTrip(f: Finding, url: string, date: string, labels: seq<string>)
    requires Hex(f.fingerprint) && Word(f.scanner) && SingleLines(f) && CleanAll(f, url, date)
    ensures var issue := ParseSecurityIssue(RenderIssueBody(f, url, date), labels);
            && issue.fingerprint == Some(f.fingerprint)
            && issue.scanner == Some(f.scanner)
            && CodesKept(f, issue)
            && (Place(issue.path, issue.line) == Intended(f.path, f.line) <==>
                  Readable(f.path, f.line) && Plain(LocationText(f.path, f.line)))
  {
    MarkersRoundTrip(f, url, date, labels);
    LocationParsed(f, url, date, labels);
    CodesParsed(f, url, date, labels);
  }

  /** A severity that survives being printed in capitals and not in backticks. */
  predicate SeveritySurvives(s: string) {
    Lower(s) == s && Plain(Upper(s)) && !InBackticks(Upper(s))
  }

  lemma SeverityKept(s: string)
    requires s != []
    ensures SeveritySurvives(s) <==> StripMarkdown(Upper(s)).Some? && Lower(StripMarkdown(Upper(s)).value) == s
  {
    StripBareIff(Upper(s));
    if Lower(s) == s {
      LowerOfUpper(s);
    }
    if StripMarkdown(Upper(s)).Some? && Lower(StripMarkdown(Upper(s)).value) == s {
      LowerTwice(StripMarkdown(Upper(s)).value);
    }
  }

  lemma LowerTwice(s: string)
    ensures Lower(Lower(s)) == Lower(s)
  {
  }

  /** The severity is recovered when it survives printing, and, unless a label supplies it, only then. */
  lemma SeverityRoundTrip(f: Finding, url: string, date: string, labels: seq<string>)
    requires SingleLines(f) && Clean(f, url, date, "severity")
    ensures var severity := ParseSecurityIssue(RenderIssueBody(f, url, date), labels).severity;
            && (SeveritySurvives(f.severity) ==> severity == Some(f.severity))
            && (!Given(SeverityLabel(labels)) && severity == Some(f.severity) ==> SeveritySurvives(f.severity))
  {
    if f.severity != [] {
      FieldParsed(f, url, date, Severity, "severity");
      SeverityKept(f.severity);
      SeverityFromField(RenderIssueBody(f, url, date), labels, StripMarkdown(Upper(f.severity)));
    } else {
      NeverEmpty(RenderIssueBody(f, url, date), labels);
    }
  }

  lemma NeverEmpty(body: string, labels: seq<string>)
    ensures ParseSecurityIssue(body, labels).severity != Some([])
  {
  }

  lemma SeverityFromField(body: string, labels: seq<string>, v: Option<string>)
    requires Get(FieldsOf(Lines(body)), "severity") == v && (v.Some? ==> v.value != [])
    ensures v.Some? ==> ParseSecurityIssue(body, labels).severity == Some(Lower(v.value))
    ensures v.None? && !Given(SeverityLabel(labels)) ==> ParseSecurityIssue(body, labels).severity == None
  {
  }

  /** A container image without a line loses its tag to the line number. */
  lemma ImageTagReadAsLine()
    ensures ParseLocation(Some(LocationText(Some("python:3"), None))) == Place(Some("python"), Some("3"))
  {
    assert "python:3" == "python" + ":" + "3";
    assert Decimal(3) == "3";
    LineSuffixDecimal("python", 3);
  }
}
