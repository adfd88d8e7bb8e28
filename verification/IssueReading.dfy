/** What the patterns that read an issue body match, said of the text they match
    (scripts/security_automation.py, lines 18-21, 33-40 and 101-153). */
module IssueReading {
  import opened Wrappers
  import opened Strings
  import opened Counting
  import opened IssueText
  import opened IssueBody
  import opened IssueRoundTrip

  // ---------------------------------------------------------------- lines

  /** The lines of a text are what it is joined from. */
  lemma {:induction false} LinesWhole(s: string)
    ensures Join(Lines(s)) == s && forall line :: line in Lines(s) ==> OneLine(line)
  {
    if s != [] {
      LinesWhole(s[1..]);
      var rest := Lines(s[1..]);
      assert rest[0] in rest;
      if s[0] == '\n' {
        JoinCons([[]] + rest);
      } else {
        JoinPrefix([s[0]], rest);
        assert OneLine([s[0]] + rest[0]);
        assert forall line :: line in rest[1..] ==> line in rest;
      }
      assert s == [s[0]] + s[1..];
    }
  }

  lemma JoinPrefix(p: string, lines: seq<string>)
    requires lines != []
    ensures Join([p + lines[0]] + lines[1..]) == p + Join(lines)
  {
    if |lines| > 1 {
      JoinCons([p + lines[0]] + lines[1..]);
      JoinCons(lines);
    }
  }

  /** The line is a label and a value, printed as a field. */
  predicate Reads(line: string, name: string, value: string) {
    name != [] && value != [] && line == "- **" + name + ":** " + value
  }

  /** A line is read as the field with the shortest label it can be printed from, and as none exactly when there is
      none. */
  lemma FieldOfIs(line: string)
    ensures forall name, value :: Reads(line, name, value) ==>
              && FieldOf(line).Some? && Reads(line, FieldOf(line).value.name, FieldOf(line).value.value)
              && |FieldOf(line).value.name| <= |name|
  {
    FieldIsWholeLine(line);
    forall name, value | Reads(line, name, value)
      ensures FieldOf(line).Some? && |FieldOf(line).value.name| <= |name|
    {
      var s := line[4..];
      assert s == name + (":** " + value);
      assert s[|name|..] == ":** " + value;
      LabelEndFacts(s, 1);
      assert EndsLabel(s, |name|);
    }
  }

  // ---------------------------------------------------------------- links

  /** A link as it is written. */
  function Linked(text: string, target: string): string {
    "[" + text + "](" + target + ")"
  }

  predicate LinkText(text: string, target: string) {
    text != [] && ']' !in text && target != [] && ')' !in target
  }

  lemma {:induction false} IndexAfter(a: string, c: char, b: string)
    requires c !in a
    ensures IndexOf(a + [c] + b, c) == |a|
  {
    if a != [] {
      assert a[0] in a && (a + [c] + b)[1..] == a[1..] + [c] + b;
      IndexAfter(a[1..], c, b);
    }
  }

  /** A link that is written is found, with its text and its length. */
  lemma LinkPrinted(text: string, target: string, rest: string)
    requires LinkText(text, target)
    ensures LinkAt(Linked(text, target) + rest) == Some(Link(text, |Linked(text, target)|))
  {
    var s := Linked(text, target) + rest;
    var tail := "(" + target + ")" + rest;
    assert s[1..] == text + [']'] + tail;
    IndexAfter(text, ']', tail);
    var after := |text| + 2;
    assert s[after..] == tail;
    assert s[after + 1..] == target + [')'] + rest;
    IndexAfter(target, ')', rest);
    assert s[1..][..|text|] == text;
  }

  /** What is found is a link that is written there. */
  lemma LinkFound(s: string) returns (target: string)
    requires LinkAt(s).Some?
    ensures LinkText(LinkAt(s).value.text, target) && Linked(LinkAt(s).value.text, target) <= s
    ensures LinkAt(s).value.size == |Linked(LinkAt(s).value.text, target)|
  {
    var n := IndexOf(s[1..], ']');
    var after := 1 + n + 1;
    var m := IndexOf(s[after + 1..], ')');
    target := s[after + 1..][..m];
    var text := s[1..][..n];
    assert s[1..][n] == ']' && s[after + 1..][m] == ')';
    assert Linked(text, target) == s[..after + 1 + m + 1];
  }

  lemma LinkFirst(text: string, target: string, rest: string)
    requires LinkText(text, target)
    ensures ReplaceLinks(Linked(text, target) + rest) == text + ReplaceLinks(rest)
  {
    LinkPrinted(text, target, rest);
    assert (Linked(text, target) + rest)[|Linked(text, target)|..] == rest;
  }

  lemma {:induction false} FrontKept(front: string, s: string)
    requires '[' !in front
    ensures ReplaceLinks(front + s) == front + ReplaceLinks(s)
  {
    if front == [] {
      assert front + s == s;
    } else {
      assert front[0] in front && (front + s)[1..] == front[1..] + s;
      FrontKept(front[1..], s);
      Regroup([front[0]], front[1..], ReplaceLinks(s));
      assert [front[0]] + front[1..] == front;
    }
  }

  /** Text without a bracket is kept, and a link is replaced by its text. */
  lemma LinkReplaced(front: string, text: string, target: string, rest: string)
    requires '[' !in front && LinkText(text, target)
    ensures ReplaceLinks(front + Linked(text, target) + rest) == front + text + ReplaceLinks(rest)
  {
    Regroup(front, Linked(text, target), rest);
    FrontKept(front, Linked(text, target) + rest);
    LinkFirst(text, target, rest);
    Regroup(front, text, ReplaceLinks(rest));
  }

  /** A value that is a link, in backticks or not, is read as the link's text without the whitespace around it. */
  lemma LinkStripped(text: string, target: string)
    requires LinkText(text, target)
    ensures StripMarkdown(Linked(text, target)) == Filled(Trim(text))
    ensures StripMarkdown("`" + Linked(text, target) + "`") == Filled(Trim(text))
  {
    var s := Linked(text, target);
    OnlyLink(text, target);
    assert s[0] == '[' && s[|s| - 1] == ')';
    StripUnquoted(s);
    StripQuoted(s);
  }

  lemma OnlyLink(text: string, target: string)
    requires LinkText(text, target)
    ensures ReplaceLinks(Linked(text, target)) == text
  {
    LinkReplaced([], text, target, []);
    assert [] + Linked(text, target) + [] == Linked(text, target) && [] + text + [] == text;
  }

  lemma StripUnquoted(s: string)
    requires Unpadded(s) && !InBackticks(s)
    ensures StripMarkdown(s) == Filled(Trim(ReplaceLinks(s)))
  {
    TrimUnpadded(s);
  }

  // ---------------------------------------------------------------- markers

  /** A marker with this word stands at the front of s. */
  predicate Marked(s: string, prefix: string, word: string, allowed: char -> bool) {
    word != [] && prefix + word + " -->" <= s && forall i :: 0 <= i < |word| ==> allowed(word[i])
  }

  lemma MarkerAtIff(s: string, prefix: string, word: string, allowed: char -> bool)
    requires !allowed(' ')
    ensures MarkerAt(s, prefix, allowed) == Some(word) <==> Marked(s, prefix, word, allowed)
  {
    if Marked(s, prefix, word, allowed) {
      var rest := s[|prefix + word + " -->"|..];
      assert s == prefix + word + " -->" + rest;
      MarkerPrinted(prefix, word, rest, allowed);
    }
    if MarkerAt(s, prefix, allowed) == Some(word) {
      assert s[|prefix|..][..|word|] == word;
      assert s == prefix + word + s[|prefix| + |word|..];
      var after := s[|prefix| + |word|..];
      assert after == " -->" + after[4..];
      assert s == prefix + word + " -->" + after[4..];
    }
  }

  /** A search gives the word of the first marker, wherever it stands. */
  lemma {:induction false} SearchIs(s: string, prefix: string, allowed: char -> bool)
    requires !allowed(' ')
    ensures match Search(s, prefix, allowed)
            case None => forall k, word :: 0 <= k <= |s| ==> !Marked(s[k..], prefix, word, allowed)
            case Some(w) =>
              exists k :: 0 <= k <= |s| && Marked(s[k..], prefix, w, allowed)
                          && forall j, word :: 0 <= j < k ==> !Marked(s[j..], prefix, word, allowed)
  {
    assert s[0..] == s;
    var found := MarkerAt(s, prefix, allowed);
    forall word ensures found == Some(word) <==> Marked(s, prefix, word, allowed) {
      MarkerAtIff(s, prefix, word, allowed);
    }
    if found.None? && s != [] {
      SearchIs(s[1..], prefix, allowed);
      assert forall k :: 1 <= k <= |s| ==> s[1..][k - 1..] == s[k..];
      if Search(s, prefix, allowed).Some? {
        var w := Search(s, prefix, allowed).value;
        var k :| 0 <= k <= |s[1..]| && Marked(s[1..][k..], prefix, w, allowed)
                 && forall j, word :: 0 <= j < k ==> !Marked(s[1..][j..], prefix, word, allowed);
        assert Marked(s[k + 1..], prefix, w, allowed);
        forall j, word | 0 <= j < k + 1 ensures !Marked(s[j..], prefix, word, allowed) {
          if j > 0 {
            assert !Marked(s[1..][j - 1..], prefix, word, allowed);
          }
        }
      } else {
        forall k, word | 0 <= k <= |s| ensures !Marked(s[k..], prefix, word, allowed) {
          if k > 0 {
            assert !Marked(s[1..][k - 1..], prefix, word, allowed);
          }
        }
      }
    }
  }

  lemma AllowedIn(c: char)
    ensures HexDigit(c) <==> c in "0123456789abcdef"
    ensures WordChar(c) <==> c in "0123456789abcdefghijklmnopqrstuvwxyz_-"
  {
    if HexDigit(c) {
      HexIndex(c);
    }
    if WordChar(c) {
      WordIndex(c);
    }
  }

  lemma HexIndex(c: char)
    requires HexDigit(c)
    ensures c in "0123456789abcdef"
  {
    var i := if c <= '9' then c as int - '0' as int else c as int - 'a' as int + 10;
    assert "0123456789abcdef"[i] == c;
  }

  lemma WordIndex(c: char)
    requires WordChar(c)
    ensures c in "0123456789abcdefghijklmnopqrstuvwxyz_-"
  {
    var i := if c == '-' then 37 else if c == '_' then 36 else if c <= '9' then c as int - '0' as int
      else c as int - 'a' as int + 10;
    assert "0123456789abcdefghijklmnopqrstuvwxyz_-"[i] == c;
  }

  // ---------------------------------------------------------------- locations

  predicate Numeral(s: string) {
    s != [] && forall i :: 0 <= i < |s| ==> Digit(s[i])
  }

  lemma AtLine(path: string, line: string)
    requires path != [] && Numeral(line)
    ensures ParseLocation(Some(path + ":" + line)) == Place(Some(path), Some(line))
  {
    var s := path + ":" + line;
    assert s[|path|..] == ":" + line && s[|path|] == ':' && s[|path| + 1..] == line;
    forall j | |path| < j < |s| ensures !LineSuffix(s[j..]) {
      assert s[j] == line[j - |path| - 1];
    }
    forall j | 1 <= j < |path| ensures !LineSuffix(s[j..]) {
      assert s[j..][|path| - j] == ':';
    }
    assert s[|s| - 1] == line[|line| - 1];
    assert s != "n/a";
    assert s[..|path|] == path;
  }

  /** A location is a path and a line exactly when a numeral follows its last colon, and the path is not empty. */
  lemma PlaceWithLineIff(s: string, path: string, line: string)
    ensures ParseLocation(Some(s)) == Place(Some(path), Some(line))
            <==> path != [] && Numeral(line) && s == path + ":" + line
  {
    if path != [] && Numeral(line) && s == path + ":" + line {
      AtLine(path, line);
    }
    if ParseLocation(Some(s)) == Place(Some(path), Some(line)) {
      LineRead(s, path, line);
    }
  }

  lemma LineRead(s: string, path: string, line: string)
    requires ParseLocation(Some(s)) == Place(Some(path), Some(line))
    ensures path != [] && Numeral(line) && s == path + ":" + line
  {
    PlaceDetermines(s);
    assert path + (":" + line) == path + ":" + line;
    assert s[|path|..] == ":" + line;
  }

  /** Anything else is a path as it stands, and nothing or `n/a` no location at all. */
  lemma PlaceOtherwise(s: string)
    ensures ParseLocation(None) == ParseLocation(Some("")) == ParseLocation(Some("n/a")) == Place(None, None)
    ensures var p := ParseLocation(Some(s));
            s != "" && s != "n/a" ==> p.path.Some? && (p.line.None? ==> p.path.value == s)
  {
    if s != "" && s != "n/a" {
      PlaceDetermines(s);
    }
  }

  // ---------------------------------------------------------------- the dictionary

  /** The last line that writes a key decides what it holds. */
  lemma LastWriter(before: seq<string>, line: string, after: seq<string>, name: string, value: string)
    requires FieldOf(line) == Some(Field(name, value))
    requires forall l :: l in after && FieldOf(l).Some? ==> Lower(Trim(FieldOf(l).value.name)) != Lower(Trim(name))
    ensures Get(FieldsOf(before + [line] + after), Lower(Trim(name))) == StripMarkdown(value)
  {
    QuietKeeps(before + [line], after, Lower(Trim(name)));
    LastLine(before, line, Field(name, value));
  }

  /** The severity label that counts is the first one. */
  lemma {:induction false} SeverityLabelIs(before: seq<string>, severity: string, after: seq<string>)
    requires forall l :: l in before ==> !("severity:" <= l)
    ensures SeverityLabel(before) == None
    ensures SeverityLabel(before + ["severity:" + severity] + after) == Some(severity)
  {
    var labels := before + ["severity:" + severity] + after;
    if before != [] {
      assert labels[1..] == before[1..] + ["severity:" + severity] + after;
      assert before[0] in before;
      forall l | l in before[1..] ensures !("severity:" <= l) {
        assert l in before;
      }
      SeverityLabelIs(before[1..], severity, after);
    } else {
      assert ("severity:" + severity)[|"severity:"|..] == severity;
    }
  }

  /** The severity is the field's, else the label's, in lower case; the scanner the marker's, else the field's. */
  lemma SeverityAndScanner(body: string, labels: seq<string>)
    ensures var fields, issue := FieldsOf(Lines(body)), ParseSecurityIssue(body, labels);
            var severity, scanner, marker := Get(fields, "severity"), Get(fields, "scanner"),
                                      Search(body, SCANNER, WordChar);
            && (severity.Some? && severity.value != "" ==> issue.severity == Some(Lower(severity.value)))
            && (severity == None && SeverityLabel(labels).Some? && SeverityLabel(labels).value != "" ==>
                  issue.severity == Some(Lower(SeverityLabel(labels).value)))
            && (severity == None && (SeverityLabel(labels) == None || SeverityLabel(labels) == Some("")) ==>
                  issue.severity == None)
            && (marker.Some? ==> issue.scanner == marker)
            && (marker == None && scanner.Some? && scanner.value != "" ==> issue.scanner == Some(Lower(scanner.value)))
            && (marker == None && (scanner == None || scanner == Some("")) ==> issue.scanner == None)
  {
    var marker := Search(body, SCANNER, WordChar);
    if marker.Some? {
      LowerWord(marker.value);
    }
    var scanner := Get(FieldsOf(Lines(body)), "scanner");
    if scanner.Some? {
      LowerTwice(scanner.value);
    }
  }

  /** The other columns of an issue are what the dictionary holds under their keys. */
  lemma ColumnsRead(body: string, labels: seq<string>)
    ensures var fields, issue := FieldsOf(Lines(body)), ParseSecurityIssue(body, labels);
            && issue.identifier == Get(fields, "identifier") && issue.location == Get(fields, "affected location")
            && issue.package == Get(fields, "affected package")
            && issue.installed == Get(fields, "installed version") && issue.fixed == Get(fields, "fixed version")
            && Place(issue.path, issue.line) == ParseLocation(issue.location)
            && issue.fingerprint == Search(body, "<!-- security-finding:", HexDigit)
  {
  }
}
