/** What an issue body says of a finding, line by line, and whom it names as likely owner
    (scripts/security_issue_utils.py, lines 278-351). */
module IssueWriting {
  import opened Wrappers
  import opened Strings
  import opened Counting
  import opened IssueText
  import opened IssueBody
  import opened IssueRoundTrip

  // ---------------------------------------------------------------- the owner hint

  /** A path as the rules compare it: forward slashes, lower case, no dot or slash in front. */
  predicate Normal(p: string) {
    && (forall i :: 0 <= i < |p| ==> p[i] != '\\' && LowerChar(p[i]) == p[i])
    && (p != [] ==> p[0] != '.' && p[0] != '/')
  }

  lemma NormalKept(p: string)
    requires Normal(p)
    ensures Lower(DropLeading(Slashes(p))) == p
  {
    assert Slashes(p) == p;
    assert Lower(p) == p;
  }

  predicate ImageName(p: string) {
    "python:" <= p || "node:" <= p || "ghcr.io/" <= p || "docker.io/" <= p
  }

  /** Whom each normal path is routed to. */
  lemma OwnerIff(p: string)
    requires Normal(p)
    ensures OwnerHint(Some(p)) == Scanning <==> ImageName(p) || ('/' !in p && ':' in p)
    ensures OwnerHint(Some(p)) == Backend <==> "backend/" <= p
    ensures OwnerHint(Some(p)) == Frontend <==> "frontend/" <= p
    ensures p == "" ==> OwnerHint(None) == OwnerHint(Some(p)) == Unclear
  {
    NormalKept(p);
    if "backend/" <= p {
      assert p[7] == '/';
    }
    if "frontend/" <= p {
      assert p[8] == '/';
    }
  }

  lemma ToolingIff(p: string)
    requires Normal(p)
    ensures OwnerHint(Some(p)) == Tooling
            <==> "scripts/" <= p || "docs/" <= p || p == "dockerfile" || p == "docker-compose.yml"
  {
    NormalKept(p);
    if "scripts/" <= p {
      assert p[7] == '/';
    }
    if "docs/" <= p {
      assert p[4] == '/';
    }
    if p == "dockerfile" || p == "docker-compose.yml" {
      DockerNames(p);
    }
  }

  /** What is printed for a normal path names the owner. */
  lemma OwnerTextIs(p: string)
    requires Normal(p)
    ensures var text := HintText(OwnerHint(Some(p)));
            && (ImageName(p) || ('/' !in p && ':' in p) ==> text == SCANNING)
            && ("backend/" <= p ==> text == BACKEND) && ("frontend/" <= p ==> text == FRONTEND)
            && ("scripts/" <= p || "docs/" <= p ==> text == TOOLING)
            && (OwnerHint(Some(p)) == Unclear ==> text == UNCLEAR)
  {
    OwnerIff(p);
    ToolingIff(p);
  }

  lemma DockerNames(p: string)
    requires p == "dockerfile" || p == "docker-compose.yml"
    ensures ':' !in p && !ImageName(p) && p[0] == 'd'
  {
    assert p[0] == 'd' && p[6] != '.';
  }

  /** A character apart from the slash it is written with and from its case. */
  function Folded(c: char): char {
    if c == '\\' then '/' else LowerChar(c)
  }

  /** Slashes, case, and dots and slashes in front make no difference. */
  lemma OwnerSame(p: string, q: string, front: string)
    requires |p| == |q| && forall i :: 0 <= i < |p| ==> Folded(p[i]) == Folded(q[i])
    requires forall i :: 0 <= i < |front| ==> front[i] == '.' || front[i] == '/' || front[i] == '\\'
    ensures OwnerHint(Some(front + p)) == OwnerHint(Some(q))
  {
    FrontDropped(Slashes(front), Slashes(p));
    assert Slashes(front + p) == Slashes(front) + Slashes(p);
    SameDropped(Slashes(p), Slashes(q));
  }

  lemma {:induction false} FrontDropped(front: string, p: string)
    requires forall i :: 0 <= i < |front| ==> front[i] == '.' || front[i] == '/'
    ensures DropLeading(front + p) == DropLeading(p)
  {
    if front == [] {
      assert front + p == p;
    } else {
      assert (front + p)[1..] == front[1..] + p;
      FrontDropped(front[1..], p);
    }
  }

  lemma {:induction false} SameDropped(p: string, q: string)
    requires |p| == |q| && forall i :: 0 <= i < |p| ==> LowerChar(p[i]) == LowerChar(q[i])
    ensures Lower(DropLeading(p)) == Lower(DropLeading(q))
  {
    if p != [] {
      assert LowerChar(p[0]) == LowerChar(q[0]);
      SameDropped(p[1..], q[1..]);
    }
  }

  /** The rules for names that start with a dot never apply: the dot is dropped before they are tried. */
  lemma DotNamesUnclear(rest: string)
    requires forall i :: 0 <= i < |rest| ==> rest[i] != '\\' && LowerChar(rest[i]) == rest[i]
    ensures OwnerHint(Some(".github/" + rest)) == OwnerHint(Some(".trivyignore")) == Unclear
  {
    GithubUnclear(rest);
    IgnoreFileUnclear();
  }

  lemma IgnoreFileUnclear()
    ensures OwnerHint(Some(".trivyignore")) == Unclear
  {
    var p := "trivyignore";
    forall i | 0 <= i < |p| ensures p[i] != ':' && p[i] != '\\' && LowerChar(p[i]) == p[i] {
      assert 'a' <= p[i] <= 'z';
    }
    PlainName(p, ".trivyignore");
  }

  lemma PlainName(p: string, q: string)
    requires |p| > 1 && p[0] == 't' && q == "." + p && Normal(p) && ':' !in p
    ensures OwnerHint(Some(q)) == Unclear
  {
    DotDropped(p, q);
    Unrouted(p);
  }

  lemma DotDropped(p: string, q: string)
    requires q == "." + p
    ensures OwnerHint(Some(q)) == OwnerHint(Some(p))
  {
    OwnerSame(p, p, ".");
  }

  /** No rule asks for a name that starts like these. */
  lemma Unrouted(p: string)
    requires Normal(p) && |p| > 1 && ('/' in p || ':' !in p)
    requires p[0] == 't' || (p[0] == 'g' && p[1] == 'i')
    ensures OwnerHint(Some(p)) == Unclear
  {
    OwnerIff(p);
    ToolingIff(p);
  }

  lemma GithubUnclear(rest: string)
    requires forall i :: 0 <= i < |rest| ==> rest[i] != '\\' && LowerChar(rest[i]) == rest[i]
    ensures OwnerHint(Some(".github/" + rest)) == Unclear
  {
    var p := "github/" + rest;
    assert p[0] == 'g' && p[1] == 'i' && p[6] == '/';
    Directory(p, ".github/" + rest);
  }

  lemma Directory(p: string, q: string)
    requires |p| > 6 && p[0] == 'g' && p[1] == 'i' && p[6] == '/' && q == "." + p && Normal(p)
    ensures OwnerHint(Some(q)) == Unclear
  {
    DotDropped(p, q);
    Unrouted(p);
  }

  // ---------------------------------------------------------------- the lines

  function FieldText(name: string, value: string): string {
    "- **" + name + ":** " + value
  }

  function OrText(v: Option<string>, fallback: string): string {
    match v
    case None => fallback
    case Some(text) => if |text| == 0 then fallback else text
  }

  /** Line 0 counts as none. */
  function LineNumber(line: Option<nat>): string {
    match line
    case None => ""
    case Some(n) => if n > 0 then ":" + Decimal(n) else ""
  }

  lemma LocationIs(path: Option<string>, line: Option<nat>)
    ensures LocationText(path, line) == OrText(path, "n/a") + LineNumber(line)
  {
    var shown := OrText(path, "n/a");
    if HasLine(line) {
      Regroup(shown, ":", Decimal(line.value));
    } else {
      Regroup(shown, [], []);
    }
  }

  /** The line of each field. A reason that is missing is asked for only where the finding is suppressed. */
  function LineOf(f: Finding, url: string, date: string, n: Name): string {
    match n
    case ScannerField => FieldText("Scanner", f.tool)
    case Severity => FieldText("Severity", Upper(f.severity))
    case Identifier => FieldText("Identifier", "`" + f.identifier + "`")
    case Location => FieldText("Affected location", "`" + (OrText(f.path, "n/a") + LineNumber(f.line)) + "`")
    case Package => FieldText("Affected package", "`" + OrText(f.package, "n/a") + "`")
    case Installed => FieldText("Installed version", "`" + OrText(f.installed, "n/a") + "`")
    case Fixed => FieldText("Fixed version", "`" + OrText(f.fixed, "not provided") + "`")
    case OwnerField => FieldText("Likely owner hint", HintText(OwnerHint(f.path)))
    case RunField => FieldText("Latest scan run", "[workflow run](" + url + ")")
    case DateField => FieldText("Latest scan date", date)
    case StatusField =>
      FieldText("Suppression status",
                if f.suppressed then "Active suppression detected." else "No active suppression recorded.")
    case ReasonField =>
      FieldText("Suppression reason",
                OrText(f.suppressionReason, if f.suppressed then MISSING_REASON else "Not suppressed."))
  }

  lemma LineIs(f: Finding, url: string, date: string, n: Name)
    ensures Text(TEMPLATE, Printed(TEMPLATE, f, url, date, n)) == LineOf(f, url, date, n)
  {
    LocationIs(f.path, f.line);
  }

  function OpeningLines(f: Finding): seq<string> {
    ["<!-- security-finding:" + f.fingerprint + " -->", "<!-- security-scanner:" + f.scanner + " -->", "",
     "## Finding summary", ""]
  }

  function SummaryLines(f: Finding, url: string, date: string): seq<string> {
    var line := n => LineOf(f, url, date, n);
    [line(ScannerField), line(Severity), line(Identifier), line(Location), line(Package), line(Installed), line(Fixed),
     line(OwnerField), line(RunField), line(DateField)]
  }

  function ProseLines(f: Finding, url: string, date: string): seq<string> {
    var line := n => LineOf(f, url, date, n);
    ["", "## Details", "", OrText(f.description, NO_DETAILS), "", "## Remediation guidance", "",
     OrText(f.remediation, NO_REMEDIATION), "", "## Suppression instructions", "", TRIVY_NOTE, CODEQL_NOTE,
     line(StatusField), line(ReasonField), "", CLOSING]
  }

  /** The whole body, as it is written. */
  lemma BodyIs(f: Finding, url: string, date: string)
    ensures RenderIssueBody(f, url, date)
            == Join(OpeningLines(f) + SummaryLines(f, url, date) + ProseLines(f, url, date))
  {
    ProgramIsProper();
    BodyIsJoin(TEMPLATE, f, url, date);
    OpeningIs(f);
    SummaryIs(f, url, date);
    ProseIs(f, url, date);
    TextsParts(TEMPLATE, Opening(f), Summary(TEMPLATE, f, url, date), Prose(TEMPLATE, f, url, date));
  }

  lemma TextsParts(t: Template, a: seq<Piece>, b: seq<Piece>, c: seq<Piece>)
    ensures Texts(t, a + b + c) == Texts(t, a) + Texts(t, b) + Texts(t, c)
  {
  }

  lemma OpeningIs(f: Finding)
    ensures Texts(TEMPLATE, Opening(f)) == OpeningLines(f)
  {
  }

  lemma SummaryIs(f: Finding, url: string, date: string)
    ensures Texts(TEMPLATE, Summary(TEMPLATE, f, url, date)) == SummaryLines(f, url, date)
  {
    var line := n => LineOf(f, url, date, n);
    var texts := Texts(TEMPLATE, Summary(TEMPLATE, f, url, date));
    forall i | 0 <= i < |SUMMARY| ensures texts[i] == line(SUMMARY[i]) {
      LineIs(f, url, date, SUMMARY[i]);
    }
    InSummary(line);
  }

  lemma InSummary(line: Name -> string)
    ensures seq(|SUMMARY|, i requires 0 <= i < |SUMMARY| => line(SUMMARY[i]))
            == [line(ScannerField), line(Severity), line(Identifier), line(Location), line(Package), line(Installed),
                line(Fixed), line(OwnerField), line(RunField), line(DateField)]
  {
  }

  lemma ProseIs(f: Finding, url: string, date: string)
    ensures Texts(TEMPLATE, Prose(TEMPLATE, f, url, date)) == ProseLines(f, url, date)
  {
    LineIs(f, url, date, StatusField);
    LineIs(f, url, date, ReasonField);
    InProse(TEMPLATE, f, url, date);
    NotesAre();
    LongNotesAre();
  }

  lemma NotesAre()
    ensures var note := TEMPLATE.note;
            && note(Blank) == "" && note(DetailsHeading) == "## Details"
            && note(RemediationHeading) == "## Remediation guidance"
            && note(SuppressionHeading) == "## Suppression instructions"
  {
  }

  lemma LongNotesAre()
    ensures var note := TEMPLATE.note;
            && note(NoDetails) == NO_DETAILS && note(NoRemediation) == NO_REMEDIATION
            && note(TrivyNote) == TRIVY_NOTE && note(CodeqlNote) == CODEQL_NOTE && note(Closing) == CLOSING
  {
  }

  lemma InProse(t: Template, f: Finding, url: string, date: string)
    ensures Texts(t, Prose(t, f, url, date))
            == [t.note(Blank), t.note(DetailsHeading), t.note(Blank), OrText(f.description, t.note(NoDetails)),
                t.note(Blank), t.note(RemediationHeading), t.note(Blank), OrText(f.remediation, t.note(NoRemediation)),
                t.note(Blank), t.note(SuppressionHeading), t.note(Blank), t.note(TrivyNote), t.note(CodeqlNote),
                Text(t, Printed(t, f, url, date, StatusField)), Text(t, Printed(t, f, url, date, ReasonField)),
                t.note(Blank), t.note(Closing)]
  {
  }
}
