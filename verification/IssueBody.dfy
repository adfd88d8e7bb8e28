/** A security finding printed as an issue body and read back
    (scripts/security_issue_utils.py, lines 278-351; scripts/security_automation.py, lines 101-153). */
module IssueBody {
  import opened Wrappers
  import opened Strings
  import opened IssueText

  // ---------------------------------------------------------------- printing

  datatype Finding = Finding(
    fingerprint: string, scanner: string, tool: string, severity: string, identifier: string,
    path: Option<string>, line: Option<nat>,
    package: Option<string>, installed: Option<string>, fixed: Option<string>,
    description: Option<string>, remediation: Option<string>,
    suppressed: bool, suppressionReason: Option<string>)

  /** value or fallback: an empty string counts as none. */
  function Or(v: Option<string>, fallback: string): string {
    if Given(v) then v.value else fallback
  }

  function SlashChar(c: char): char {
    if c == '\\' then '/' else c
  }

  function Slashes(s: string): string {
    seq(|s|, i requires 0 <= i < |s| => SlashChar(s[i]))
  }

  function DropLeading(s: string): string {
    if s != [] && (s[0] == '.' || s[0] == '/') then DropLeading(s[1..]) else s
  }

  datatype Hint = Scanning | Backend | Frontend | Tooling | Unclear

  /** likely_owner_hint. */
  function OwnerHint(path: Option<string>): Hint {
    var p := Lower(DropLeading(Slashes(Or(path, ""))));
    if "python:" <= p || "node:" <= p || "ghcr.io/" <= p || "docker.io/" <= p || ('/' !in p && ':' in p) then Scanning
    else if "backend/" <= p then Backend
    else if "frontend/" <= p then Frontend
    else if ".github/" <= p || "scripts/" <= p || "docs/" <= p || p == "dockerfile" || p == "docker-compose.yml"
         || p == ".trivyignore"
    then Tooling
    else Unclear
  }

  // Long fixed texts are joined from short pieces: the verifier looks at a literal one character at a time.

  const SCANNING: string := "Likely owner: Winston (Tester) — " + "container image " + "or scanner configuration."
  const BACKEND: string := "Likely owner: Ray (Backend Dev) — " + "backend API or service code."
  const FRONTEND: string := "Likely owner: Venkman (Frontend Dev) — " + "frontend client code."
  const TOOLING: string := "Likely owner: Winston (Tester) — " + "CI, security automation, " + "or release tooling."
  const UNCLEAR: string :=
    "Likely owner: Egon (Lead) — " + "review and route this finding " + "if ownership is unclear."

  function HintText(hint: Hint): string {
    match hint
    case Scanning => SCANNING
    case Backend => BACKEND
    case Frontend => FRONTEND
    case Tooling => TOOLING
    case Unclear => UNCLEAR
  }

  const FINDING: string := "<!-- security-finding:"
  const SCANNER: string := "<!-- security-scanner:"

  datatype Name =
    | ScannerField | Severity | Identifier | Location | Package | Installed | Fixed
    | OwnerField | RunField | DateField | StatusField | ReasonField

  /** The label a field is printed with. */
  function Label(n: Name): string {
    match n
    case ScannerField => "Scanner"
    case Severity => "Severity"
    case Identifier => "Identifier"
    case Location => "Affected location"
    case Package => "Affected package"
    case Installed => "Installed version"
    case Fixed => "Fixed version"
    case OwnerField => "Likely owner hint"
    case RunField => "Latest scan run"
    case DateField => "Latest scan date"
    case StatusField => "Suppression status"
    case ReasonField => "Suppression reason"
  }

  /** Fixed text. */
  datatype Note =
    | Blank | SummaryHeading | DetailsHeading | RemediationHeading | SuppressionHeading
    | NoDetails | NoRemediation | TrivyNote | CodeqlNote | Closing

  const NO_DETAILS: string := "No additional details were " + "provided by the scanner."
  const NO_REMEDIATION: string :=
    "Review the scanner output, " + "validate the impacted code " + "or dependency, and apply "
    + "the least-risk fix available."
  const TRIVY_NOTE: string :=
    "- Trivy false positives " + "must be added to `.trivyignore` " + "with an adjacent comment "
    + "explaining the reason " + "for the suppression."
  const CODEQL_NOTE: string :=
    "- CodeQL false positives " + "must document the reason here " + "before using an inline "
    + "`// codeql[suppress]` annotation."
  const CLOSING: string :=
    "> If this finding " + "is intentionally suppressed, " + "keep the `suppressed` label "
    + "on this issue and update the reason " + "before closing it."

  function NoteText(note: Note): string {
    match note
    case Blank => ""
    case SummaryHeading => "## Finding summary"
    case DetailsHeading => "## Details"
    case RemediationHeading => "## Remediation guidance"
    case SuppressionHeading => "## Suppression instructions"
    case NoDetails => NO_DETAILS
    case NoRemediation => NO_REMEDIATION
    case TrivyNote => TRIVY_NOTE
    case CodeqlNote => CODEQL_NOTE
    case Closing => CLOSING
  }

  datatype Piece =
    | Marker(kind: string, word: string)
    | Fixedly(note: Note)
    | Free(text: string)
    | FieldLine(name: Name, value: string)

  /** The fixed words of a body. */
  datatype Template = Template(heading: Name -> string, note: Note -> string, hint: Hint -> string)

  const TEMPLATE: Template := Template(Label, NoteText, HintText)

  function Text(t: Template, p: Piece): string {
    match p
    case Marker(kind, word) => kind + word + " -->"
    case Fixedly(note) => t.note(note)
    case Free(text) => text
    case FieldLine(name, value) => "- **" + t.heading(name) + ":** " + value
  }

  function Texts(t: Template, ps: seq<Piece>): (r: seq<string>)
    ensures |r| == |ps| && forall i :: 0 <= i < |ps| ==> r[i] == Text(t, ps[i])
  {
    seq(|ps|, i requires 0 <= i < |ps| => Text(t, ps[i]))
  }

  function Code(value: string): string {
    "`" + value + "`"
  }

  function RunLink(url: string): string {
    "[workflow run](" + url + ")"
  }

  function StatusText(suppressed: bool): string {
    if suppressed then "Active suppression detected." else "No active suppression recorded."
  }

  const MISSING_REASON: string :=
    "MISSING — document the explicit " + "false-positive or accepted-risk "
    + "reason before keeping " + "this suppression."

  function ReasonText(f: Finding): string {
    if f.suppressed && !Given(f.suppressionReason)
    then MISSING_REASON
    else Or(f.suppressionReason, "Not suppressed.")
  }

  function OrNote(text: Option<string>, note: Note): Piece {
    if Given(text) then Free(text.value) else Fixedly(note)
  }

  /** The printed value of a field. */
  function Value(t: Template, f: Finding, url: string, date: string, n: Name): string {
    match n
    case ScannerField => f.tool
    case Severity => Upper(f.severity)
    case Identifier => Code(f.identifier)
    case Location => Code(LocationText(f.path, f.line))
    case Package => Code(Or(f.package, "n/a"))
    case Installed => Code(Or(f.installed, "n/a"))
    case Fixed => Code(Or(f.fixed, "not provided"))
    case OwnerField => t.hint(OwnerHint(f.path))
    case RunField => RunLink(url)
    case DateField => date
    case StatusField => StatusText(f.suppressed)
    case ReasonField => ReasonText(f)
  }

  function Printed(t: Template, f: Finding, url: string, date: string, n: Name): Piece {
    FieldLine(n, Value(t, f, url, date, n))
  }

  const SUMMARY: seq<Name> :=
    [ScannerField, Severity, Identifier, Location, Package, Installed, Fixed, OwnerField, RunField, DateField]

  function Opening(f: Finding): seq<Piece> {
    [Marker(FINDING, f.fingerprint), Marker(SCANNER, f.scanner), Fixedly(Blank), Fixedly(SummaryHeading),
     Fixedly(Blank)]
  }

  function Summary(t: Template, f: Finding, url: string, date: string): (ps: seq<Piece>)
    ensures |ps| == |SUMMARY| && forall i :: 0 <= i < |ps| ==> ps[i] == Printed(t, f, url, date, SUMMARY[i])
  {
    seq(|SUMMARY|, i requires 0 <= i < |SUMMARY| => Printed(t, f, url, date, SUMMARY[i]))
  }

  function Prose(t: Template, f: Finding, url: string, date: string): seq<Piece> {
    [ Fixedly(Blank), Fixedly(DetailsHeading), Fixedly(Blank), OrNote(f.description, NoDetails),
      Fixedly(Blank), Fixedly(RemediationHeading), Fixedly(Blank), OrNote(f.remediation, NoRemediation),
      Fixedly(Blank), Fixedly(SuppressionHeading), Fixedly(Blank), Fixedly(TrivyNote), Fixedly(CodeqlNote),
      Printed(t, f, url, date, StatusField), Printed(t, f, url, date, ReasonField), Fixedly(Blank), Fixedly(Closing) ]
  }

  /** The body, piece by piece. */
  function Pieces(t: Template, f: Finding, url: string, date: string): seq<Piece> {
    Opening(f) + Summary(t, f, url, date) + Prose(t, f, url, date)
  }

  function Body(t: Template, f: Finding, url: string, date: string): string {
    Trim(Join(Texts(t, Pieces(t, f, url, date))))
  }

  /** render_issue_body. */
  function RenderIssueBody(f: Finding, url: string, date: string): string {
    Body(TEMPLATE, f, url, date)
  }

  // ---------------------------------------------------------------- parsing

  type Fields = map<string, Option<string>>

  function Key(name: string): string {
    Lower(Trim(name))
  }

  function Written(fields: Fields, line: string): Fields {
    match FieldOf(line)
    case None => fields
    case Some(field) => fields[Key(field.name) := StripMarkdown(field.value)]
  }

  function FieldsOf(lines: seq<string>): Fields {
    if lines == [] then map[] else Written(FieldsOf(lines[..|lines| - 1]), lines[|lines| - 1])
  }

  function Get(fields: Fields, key: string): Option<string> {
    if key in fields then fields[key] else None
  }

  predicate HexDigit(c: char) {
    '0' <= c <= '9' || 'a' <= c <= 'f'
  }

  predicate WordChar(c: char) {
    '0' <= c <= '9' || 'a' <= c <= 'z' || c == '_' || c == '-'
  }

  /** The dictionary, and the four entries the parser adds to it, which no label can spoil. */
  datatype Parsed = Parsed(fields: Fields, place: Place, scannerMarker: Option<string>, fingerprint: Option<string>)

  function ParsedBody(text: string): Parsed {
    var fields := FieldsOf(Lines(text));
    Parsed(fields, ParseLocation(Get(fields, "affected location")), Search(text, SCANNER, WordChar),
           Search(text, FINDING, HexDigit))
  }

  lemma FieldsStep(lines: seq<string>, i: nat)
    requires i < |lines|
    ensures FieldsOf(lines[..i + 1]) == Written(FieldsOf(lines[..i]), lines[i])
  {
    assert lines[..i + 1][..i] == lines[..i];
  }

  /** The dictionary of parse_issue_body, filled line by line. */
  method CollectFields(text: string) returns (fields: Fields)
    ensures fields == FieldsOf(Lines(text))
  {
    fields := map[];
    var lines := Lines(text);
    for i := 0 to |lines|
      invariant fields == FieldsOf(lines[..i])
    {
      FieldsStep(lines, i);
      var field := FieldOf(lines[i]);
      if field.Some? {
        fields := fields[Key(field.value.name) := StripMarkdown(field.value.value)];
      }
    }
    assert lines[..|lines|] == lines;
  }

  /** parse_issue_body. */
  method ParseIssueBody(body: Option<string>) returns (parsed: Parsed)
    ensures parsed == ParsedBody(Or(body, ""))
  {
    var text := Or(body, "");
    var fields := CollectFields(text);
    var place := ParseLocation(Get(fields, "affected location"));
    var scanner, fingerprint := Search(text, SCANNER, WordChar), Search(text, FINDING, HexDigit);
    return Parsed(fields, place, scanner, fingerprint);
  }

  datatype Issue = Issue(
    severity: Option<string>, scanner: Option<string>, identifier: Option<string>, location: Option<string>,
    path: Option<string>, line: Option<string>, package: Option<string>, installed: Option<string>,
    fixed: Option<string>, fingerprint: Option<string>)

  /** The first severity label. */
  function SeverityLabel(labels: seq<string>): Option<string> {
    if labels == [] then None
    else if "severity:" <= labels[0] then Some(labels[0][|"severity:"|..])
    else SeverityLabel(labels[1..])
  }

  /** parse_security_issue. */
  function ParseSecurityIssue(body: string, labels: seq<string>): Issue {
    var parsed := ParsedBody(body);
    var severity := Lower(Or(Get(parsed.fields, "severity"), Or(SeverityLabel(labels), "")));
    var scanner := Lower(Or(parsed.scannerMarker, Lower(Or(Get(parsed.fields, "scanner"), ""))));
    Issue(Filled(severity), Filled(scanner), Get(parsed.fields, "identifier"), Get(parsed.fields, "affected location"),
          parsed.place.path, parsed.place.line, Get(parsed.fields, "affected package"),
          Get(parsed.fields, "installed version"), Get(parsed.fields, "fixed version"), parsed.fingerprint)
  }
}
