/**
 Units as they are written, and that `Parse` undoes writing them: the shape of
 a line, of a value and of a name said without the parser's own functions.
 */
module UnitPrinter {
  import opened Wrappers
  import opened Text
  import opened UnitEnv
  import opened UnitEnvLaws

  // ---------------------------------------------------------- what is written

  datatype Setting = Setting(key: string, value: string)

  function Shown(s: Setting): string {
    s.key + "=" + s.value
  }

  function ShownAll(settings: seq<Setting>): (r: seq<string>)
    ensures |r| == |settings|
  {
    seq(|settings|, i requires 0 <= i < |settings| => Shown(settings[i]))
  }

  /** A letter or an underscore, and after the first also a digit. */
  predicate GoodKey(key: string) {
    key != "" && forall i :: 0 <= i < |key| ==>
      'a' <= key[i] <= 'z' || 'A' <= key[i] <= 'Z' || key[i] == '_' || (i > 0 && '0' <= key[i] <= '9')
  }

  /** No blank, no end of line, and nothing systemd would interpret. */
  predicate PlainValue(value: string) {
    forall i :: 0 <= i < |value| ==> value[i] !in {' ', '\t', '\r', '\n', '"', '\'', '\\', '%'}
  }

  predicate Good(s: Setting) {
    GoodKey(s.key) && PlainValue(s.value)
  }

  predicate Blank(s: string) {
    forall i :: 0 <= i < |s| ==> s[i] == ' ' || s[i] == '\t'
  }

  predicate BlankToTheEnd(s: string) {
    forall i :: 0 <= i < |s| ==> s[i] == ' ' || s[i] == '\t' || s[i] == '\r'
  }

  /** One Environment= line: blanks wherever systemd allows them, `blanks[i]` before setting `i`. */
  datatype Line = Line(indent: string, gap: string, settings: seq<Setting>, blanks: seq<string>, tail: string)

  predicate GoodLine(l: Line) {
    && Blank(l.indent) && Blank(l.gap) && BlankToTheEnd(l.tail)
    && |l.settings| == |l.blanks| > 0
    && forall i :: 0 <= i < |l.settings| ==>
        Good(l.settings[i]) && Blank(l.blanks[i]) && (i > 0 ==> l.blanks[i] != "")
  }

  function Spaced(settings: seq<Setting>, blanks: seq<string>, tail: string): string
    requires |settings| == |blanks|
  {
    if settings == [] then tail else blanks[0] + (Shown(settings[0]) + Spaced(settings[1..], blanks[1..], tail))
  }

  /** The line without its indent. */
  function Directive(l: Line): string
    requires |l.settings| == |l.blanks|
  {
    "Environment" + l.gap + "=" + Spaced(l.settings, l.blanks, l.tail)
  }

  function Printed(l: Line): string
    requires |l.settings| == |l.blanks|
  {
    l.indent + Directive(l)
  }

  /** Lines separated by line feeds. */
  function JoinLines(lines: seq<string>): string {
    if lines == [] then ""
    else if |lines| == 1 then lines[0]
    else lines[0] + "\n" + JoinLines(lines[1..])
  }

  predicate NoLineFeed(s: string) {
    forall i :: 0 <= i < |s| ==> s[i] != '\n'
  }

  ghost predicate NoFeeds(lines: seq<string>) {
    forall i :: 0 <= i < |lines| ==> NoLineFeed(lines[i])
  }

  // ---------------------------------------------------------- trimming and splitting

  lemma {:induction false} TrimLeftIs(p: string, s: string, cut: set<char>)
    requires (forall i :: 0 <= i < |p| ==> p[i] in cut) && (s == "" || s[0] !in cut)
    ensures TrimLeft(p + s, cut) == s
  {
    if p == "" {
      assert p + s == s;
    } else {
      assert (p + s)[1..] == p[1..] + s;
      TrimLeftIs(p[1..], s, cut);
    }
  }

  lemma {:induction false} TrimRightIs(s: string, p: string, cut: set<char>)
    requires (forall i :: 0 <= i < |p| ==> p[i] in cut) && (s == "" || s[|s| - 1] !in cut)
    ensures TrimRight(s + p, cut) == s
    decreases |p|
  {
    if p == "" {
      assert s + p == s;
    } else {
      assert (s + p)[..|s + p| - 1] == s + p[..|p| - 1];
      TrimRightIs(s, p[..|p| - 1], cut);
    }
  }

  lemma {:induction false} SplitOne(s: string)
    requires NoLineFeed(s)
    ensures Split(s, '\n') == [s]
  {
    if s != "" {
      SplitOne(s[1..]);
      assert [s[0]] + s[1..] == s;
    }
  }

  lemma {:induction false} SplitFirst(s: string, rest: string)
    requires NoLineFeed(s)
    ensures Split(s + "\n" + rest, '\n') == [s] + Split(rest, '\n')
  {
    if s == "" {
      assert s + "\n" + rest == "\n" + rest && ("\n" + rest)[1..] == rest;
    } else {
      assert (s + "\n" + rest)[1..] == s[1..] + "\n" + rest;
      SplitFirst(s[1..], rest);
      assert [s[0]] + s[1..] == s;
    }
  }

  lemma {:induction false} SplitLines(lines: seq<string>)
    requires lines != [] && forall i :: 0 <= i < |lines| ==> NoLineFeed(lines[i])
    ensures Split(JoinLines(lines), '\n') == lines
  {
    if |lines| == 1 {
      SplitOne(lines[0]);
    } else {
      assert forall i :: 0 <= i < |lines[1..]| ==> lines[1..][i] == lines[i + 1];
      SplitLines(lines[1..]);
      SplitFirst(lines[0], JoinLines(lines[1..]));
      assert lines == [lines[0]] + lines[1..];
    }
  }

  lemma {:induction false} FieldsSkip(p: string, s: string, cut: set<char>)
    requires forall i :: 0 <= i < |p| ==> p[i] in cut
    ensures Fields(p + s, cut) == Fields(s, cut)
  {
    if p == "" {
      assert p + s == s;
    } else {
      assert (p + s)[1..] == p[1..] + s;
      FieldsSkip(p[1..], s, cut);
    }
  }

  lemma {:induction false} RunLengthIs(f: string, rest: string, cut: set<char>)
    requires (forall i :: 0 <= i < |f| ==> f[i] !in cut) && (rest == "" || rest[0] in cut)
    ensures RunLength(f + rest, cut) == |f|
  {
    if f == "" {
      assert f + rest == rest;
    } else {
      assert (f + rest)[1..] == f[1..] + rest;
      RunLengthIs(f[1..], rest, cut);
    }
  }

  lemma FieldsTake(f: string, rest: string, cut: set<char>)
    requires f != "" && (forall i :: 0 <= i < |f| ==> f[i] !in cut) && (rest == "" || rest[0] in cut)
    ensures Fields(f + rest, cut) == [f] + Fields(rest, cut)
  {
    RunLengthIs(f, rest, cut);
    assert (f + rest)[..|f|] == f && (f + rest)[|f|..] == rest;
  }

  // ---------------------------------------------------------- one setting, one line

  /** A setting written is an assignment to its own name. */
  lemma ShownIsAssignment(s: Setting)
    requires GoodKey(s.key)
    ensures IsAssignment(Shown(s)) && Key(Shown(s)) == s.key
  {
    var field := Shown(s);
    assert field[..|s.key|] == s.key && field[|s.key|] == '=';
    IndexOfIs(field, '=', |s.key|);
  }

  /** And every assignment taken is a setting with a good name. */
  lemma AssignmentIsShown(field: string) returns (s: Setting)
    requires IsAssignment(field)
    ensures GoodKey(s.key) && field == Shown(s)
  {
    var sep := IndexOf(field, '=');
    s := Setting(field[..sep], field[sep + 1..]);
    assert field == field[..sep] + [field[sep]] + field[sep + 1..];
  }

  predicate GoodSpacing(settings: seq<Setting>, blanks: seq<string>, tail: string) {
    && |settings| == |blanks| && BlankToTheEnd(tail)
    && forall i :: 0 <= i < |settings| ==> Good(settings[i]) && Blank(blanks[i])
  }

  lemma ShownIsPlain(s: Setting)
    requires Good(s)
    ensures Shown(s) != ""
    ensures forall i :: 0 <= i < |Shown(s)| ==>
              Shown(s)[i] !in {' ', '\t', '\r', '\n', '"', '\'', '\\', '%'}
    ensures !IsSpace(Shown(s)[0])
  {
    var f := Shown(s);
    forall i | 0 <= i < |f| ensures f[i] !in {' ', '\t', '\r', '\n', '"', '\'', '\\', '%'} {
      if i < |s.key| { assert f[i] == s.key[i]; }
      else if i == |s.key| { assert f[i] == '='; }
      else { assert f[i] == s.value[i - |s.key| - 1]; }
    }
  }

  lemma {:induction false} SpacedFields(settings: seq<Setting>, blanks: seq<string>, tail: string)
    requires GoodSpacing(settings, blanks, tail) && forall i :: 0 < i < |settings| ==> blanks[i] != ""
    ensures Fields(Spaced(settings, blanks, tail), BLANKS_AND_RETURN) == ShownAll(settings)
    decreases |settings|
  {
    if settings == [] {
      FieldsSkip(tail, "", BLANKS_AND_RETURN);
      assert tail + "" == tail;
    } else {
      var f, rest := Shown(settings[0]), Spaced(settings[1..], blanks[1..], tail);
      assert Spaced(settings, blanks, tail) == blanks[0] + (f + rest);
      hide Fields, Shown, Good, Spaced;
      SpacedFields(settings[1..], blanks[1..], tail);
      FieldsSkip(blanks[0], f + rest, BLANKS_AND_RETURN);
      ShownIsPlain(settings[0]);
      StartsBlank(settings[1..], blanks[1..], tail);
      FieldsTake(f, rest, BLANKS_AND_RETURN);
      ShownCons(settings);
    }
  }

  lemma ShownCons(settings: seq<Setting>)
    requires settings != []
    ensures ShownAll(settings) == [Shown(settings[0])] + ShownAll(settings[1..])
  {
    hide Shown;
  }

  lemma StartsBlank(settings: seq<Setting>, blanks: seq<string>, tail: string)
    requires GoodSpacing(settings, blanks, tail) && (settings != [] ==> blanks[0] != "")
    ensures var s := Spaced(settings, blanks, tail); s == "" || s[0] in BLANKS_AND_RETURN
  {
    hide Good, Shown;
  }

  predicate Unquoted(s: string) {
    forall i :: 0 <= i < |s| ==> s[i] !in {'"', '\'', '\\', '%', '\n'}
  }

  lemma UnquotedJoin(a: string, b: string)
    requires Unquoted(a) && Unquoted(b)
    ensures Unquoted(a + b)
  {
  }

  lemma {:induction false} SpacedIsPlain(settings: seq<Setting>, blanks: seq<string>, tail: string)
    requires GoodSpacing(settings, blanks, tail)
    ensures Unquoted(Spaced(settings, blanks, tail))
    decreases |settings|
  {
    if settings != [] {
      hide Good, Shown, Unquoted;
      var f, rest := Shown(settings[0]), Spaced(settings[1..], blanks[1..], tail);
      SpacedIsPlain(settings[1..], blanks[1..], tail);
      ShownIsPlain(settings[0]);
      assert Unquoted(f) && Unquoted(blanks[0]) by { NoQuotes(f, blanks[0]); }
      UnquotedJoin(f, rest);
      UnquotedJoin(blanks[0], f + rest);
    } else {
      assert Unquoted(tail);
    }
  }

  lemma NoQuotes(f: string, blank: string)
    requires forall i :: 0 <= i < |f| ==> f[i] !in {' ', '\t', '\r', '\n', '"', '\'', '\\', '%'}
    requires Blank(blank)
    ensures Unquoted(f) && Unquoted(blank)
  {
  }

  lemma SpacedIsNotBlank(settings: seq<Setting>, blanks: seq<string>, tail: string)
    requires GoodSpacing(settings, blanks, tail) && settings != []
    ensures !IsBlank(Spaced(settings, blanks, tail))
  {
    hide Good, Shown, IsSpace;
    ShownIsPlain(settings[0]);
    var s := Spaced(settings, blanks, tail);
    assert s[|blanks[0]|] == Shown(settings[0])[0];
  }

  /** What stands before the first `=` of an Environment directive, and after it. */
  lemma DirectiveCut(gap: string, value: string)
    requires Blank(gap)
    ensures var line := "Environment" + gap + "=" + value;
            var cut := IndexOf(line, '=');
            && cut == 11 + |gap| < |line| && line[cut + 1..] == value
            && TrimRight(line[..cut], BLANKS) == "Environment"
  {
    var line := "Environment" + gap + "=" + value;
    var cut := 11 + |gap|;
    assert line[..cut] == "Environment" + gap && line[cut] == '=';
    IndexOfIs(line, '=', cut);
    TrimRightIs("Environment", gap, BLANKS);
  }

  lemma ContainsItself()
    ensures Contains("Environment", "Environment")
  {
    assert OccursAt("Environment", "Environment", 0);
  }

  /** In `[Service]` the directive gives its value's fields, or is refused for what it holds. */
  lemma DirectiveReads(gap: string, value: string, inService: bool)
    requires Blank(gap)
    ensures var line := "Environment" + gap + "=" + value;
            EnvironmentFields(line, false, inService) ==
            if !inService || ContainsAny(value, UNREAD) || IsBlank(value) then Err(NotRead(line))
            else Ok(Fields(value, BLANKS_AND_RETURN))
  {
    DirectiveCut(gap, value);
    ContainsItself();
  }

  /** A written line reads as its settings, and is neither comment, header nor continued. */
  lemma LineReads(l: Line)
    requires GoodLine(l)
    ensures TrimLeft(Printed(l), BLANKS) == Directive(l)
    ensures !IsComment(Directive(l)) && !IsHeader(Directive(l)) && !Continues(Directive(l)) && NoLineFeed(Printed(l))
    ensures EnvironmentFields(Directive(l), false, true) == Ok(ShownAll(l.settings))
    ensures EnvironmentFields(Directive(l), false, false).Err?
  {
    hide Fields, Spaced, EnvironmentFields, Continues, Good;
    var line, value := Directive(l), Spaced(l.settings, l.blanks, l.tail);
    TrimLeftIs(l.indent, line, BLANKS);
    DirectiveReads(l.gap, value, true);
    DirectiveReads(l.gap, value, false);
    SpacedIsPlain(l.settings, l.blanks, l.tail);
    SpacedIsNotBlank(l.settings, l.blanks, l.tail);
    SpacedFields(l.settings, l.blanks, l.tail);
    assert line[0] == 'E';
    ReadLineIsNotContinued(line, true);
  }

  // ---------------------------------------------------------- a whole unit

  function AllSettings(lines: seq<Line>): seq<Setting> {
    if lines == [] then [] else AllSettings(lines[..|lines| - 1]) + lines[|lines| - 1].settings
  }

  predicate GoodLines(lines: seq<Line>) {
    forall i :: 0 <= i < |lines| ==> GoodLine(lines[i])
  }

  ghost predicate KeysApart(settings: seq<Setting>) {
    forall i, j :: 0 <= i < j < |settings| ==> settings[i].key != settings[j].key
  }

  /** `[Service]`, and under it the lines. */
  function ServiceLines(headerTail: string, lines: seq<Line>): (r: seq<string>)
    requires GoodLines(lines)
    ensures |r| == |lines| + 1
  {
    ["[Service]" + headerTail] + seq(|lines|, i requires 0 <= i < |lines| => Printed(lines[i]))
  }

  function TrimmedAll(lines: seq<string>): (r: seq<string>)
    ensures |r| == |lines|
  {
    seq(|lines|, i requires 0 <= i < |lines| => TrimLeft(lines[i], BLANKS))
  }

  lemma JoinedLines(lines: seq<string>)
    requires lines != [] && NoFeeds(lines)
    ensures LinesOf(JoinLines(lines)) == TrimmedAll(lines)
  {
    SplitLines(lines);
  }

  lemma HeaderChars(tail: string)
    requires BlankToTheEnd(tail)
    ensures forall i :: 0 <= i < |"[Service]" + tail| ==>
              ("[Service]" + tail)[i] != '\\' && ("[Service]" + tail)[i] != '\n'
  {
    var h := "[Service]" + tail;
    forall i | 0 <= i < |h| ensures h[i] != '\\' && h[i] != '\n' {
      if i >= 9 { assert h[i] == tail[i - 9]; }
    }
  }

  lemma ServiceHeader(tail: string)
    requires BlankToTheEnd(tail)
    ensures var h := "[Service]" + tail;
            && TrimLeft(h, BLANKS) == h && NoLineFeed(h)
            && IsHeader(h) && IsServiceHeader(h) && !IsComment(h) && !Continues(h)
  {
    var h := "[Service]" + tail;
    assert h[0] == '[';
    hide Continues, TrimRight;
    TrimRightIs("[Service]", tail, BLANKS_AND_RETURN);
    HeaderChars(tail);
    NotContinued(h);
  }

  lemma NotContinued(h: string)
    requires forall i :: 0 <= i < |h| ==> h[i] != '\\'
    ensures !Continues(h)
  {
    var l := TrimReturn(h);
    assert forall i :: 0 <= i < |l| ==> l[i] == h[i];
    assert TrimRight(l, {'\\'}) == l;
  }

  /** Where no line is continued, none is swallowed. */
  lemma NoneSwallowed(lines: seq<string>, i: nat)
    requires i <= |lines| && forall k :: 0 <= k < |lines| ==> !Continues(lines[k])
    ensures !Swallowed(lines, i)
  {
    hide Continues;
  }

  lemma ServiceLineIs(headerTail: string, lines: seq<Line>, i: nat)
    requires BlankToTheEnd(headerTail) && GoodLines(lines) && i < |lines| + 1
    ensures var trimmed := TrimmedAll(ServiceLines(headerTail, lines));
            && trimmed[i] == (if i == 0 then "[Service]" + headerTail else Directive(lines[i - 1]))
            && NoLineFeed(ServiceLines(headerTail, lines)[i])
            && !IsComment(trimmed[i]) && !Continues(trimmed[i]) && (IsHeader(trimmed[i]) <==> i == 0)
  {
    hide IsComment, Continues, IsHeader, Directive, Printed, TrimLeft, GoodLine, NoLineFeed;
    if i == 0 {
      ServiceHeader(headerTail);
    } else {
      LineReads(lines[i - 1]);
    }
  }

  lemma ServiceUnitLines(headerTail: string, lines: seq<Line>)
    requires BlankToTheEnd(headerTail) && GoodLines(lines)
    ensures var trimmed := TrimmedAll(ServiceLines(headerTail, lines));
            && (forall k :: 0 <= k < |trimmed| ==> !IsComment(trimmed[k]) && !Continues(trimmed[k]))
            && (forall k :: 0 <= k < |trimmed| ==> (IsHeader(trimmed[k]) <==> k == 0))
            && IsServiceHeader(trimmed[0])
            && (forall k :: 0 <= k < |trimmed| ==> NoLineFeed(ServiceLines(headerTail, lines)[k]))
  {
    hide IsComment, Continues, IsHeader, IsServiceHeader, TrimmedAll, ServiceLines;
    ServiceHeader(headerTail);
    ServiceLineIs(headerTail, lines, 0);
    forall k | 0 <= k < |TrimmedAll(ServiceLines(headerTail, lines))|
      ensures var trimmed := TrimmedAll(ServiceLines(headerTail, lines));
              && !IsComment(trimmed[k]) && !Continues(trimmed[k]) && (IsHeader(trimmed[k]) <==> k == 0)
              && NoLineFeed(ServiceLines(headerTail, lines)[k])
    {
      ServiceLineIs(headerTail, lines, k);
    }
  }

  /** Every line after the first lies in `[Service]`. */
  lemma AllInService(trimmed: seq<string>, i: nat)
    requires 0 < i <= |trimmed| && IsServiceHeader(trimmed[0])
    requires forall k :: 0 <= k < |trimmed| ==> !Continues(trimmed[k])
    requires forall k :: 0 <= k < |trimmed| ==> (IsHeader(trimmed[k]) <==> k == 0)
    ensures InService(trimmed, i)
  {
    hide Continues, IsServiceHeader, IsHeader, Swallowed;
    NoneSwallowed(trimmed, 0);
    assert LiveHeader(trimmed, 0);
    assert forall k :: 0 < k < i ==> !LiveHeader(trimmed, k);
  }

  lemma ServiceFields(headerTail: string, lines: seq<Line>, i: nat)
    requires BlankToTheEnd(headerTail) && GoodLines(lines) && i < |lines| + 1
    ensures FieldsAt(TrimmedAll(ServiceLines(headerTail, lines)), i) ==
            Ok(if i == 0 then [] else ShownAll(lines[i - 1].settings))
  {
    hide Swallowed, InService, EnvironmentFields, Continues, IsComment, IsHeader, IsServiceHeader, TrimmedAll,
         ServiceLines, Directive, Printed;
    var trimmed := TrimmedAll(ServiceLines(headerTail, lines));
    ServiceUnitLines(headerTail, lines);
    ServiceLineIs(headerTail, lines, i);
    NoneSwallowed(trimmed, i);
    if i > 0 {
      AllInService(trimmed, i);
      assert GoodLine(lines[i - 1]);
      LineReads(lines[i - 1]);
    }
  }

  lemma {:induction false} ServiceAssigned(headerTail: string, lines: seq<Line>, n: nat)
    requires BlankToTheEnd(headerTail) && GoodLines(lines) && n <= |lines|
    ensures var trimmed := TrimmedAll(ServiceLines(headerTail, lines));
            Readable(trimmed, n + 1) && Assigned(trimmed, n + 1) == ShownAll(AllSettings(lines[..n]))
  {
    hide FieldsAt, TrimmedAll, ServiceLines, GoodLine;
    var trimmed := TrimmedAll(ServiceLines(headerTail, lines));
    forall i | 0 <= i < n + 1 ensures FieldsAt(trimmed, i).Ok? { ServiceFields(headerTail, lines, i); }
    ServiceFields(headerTail, lines, n);
    if n == 0 {
      assert Assigned(trimmed, 1) == Assigned(trimmed, 0) + [];
    } else {
      ServiceAssigned(headerTail, lines, n - 1);
      assert lines[..n][..n - 1] == lines[..n - 1];
      var front, last := AllSettings(lines[..n - 1]), lines[n - 1].settings;
      assert ShownAll(front + last) == ShownAll(front) + ShownAll(last);
    }
  }

  lemma {:induction false} AllGood(lines: seq<Line>)
    requires GoodLines(lines)
    ensures forall i :: 0 <= i < |AllSettings(lines)| ==> Good(AllSettings(lines)[i])
  {
    hide Good;
    if lines != [] {
      assert GoodLine(lines[|lines| - 1]);
      AllGood(lines[..|lines| - 1]);
    }
  }

  lemma ValidIffApart(settings: seq<Setting>)
    requires forall i :: 0 <= i < |settings| ==> Good(settings[i])
    ensures ValidEnv(ShownAll(settings)) <==> KeysApart(settings)
  {
    hide IsAssignment, Key, Shown;
    forall i | 0 <= i < |settings|
      ensures IsAssignment(Shown(settings[i])) && Key(Shown(settings[i])) == settings[i].key
    {
      ShownIsAssignment(settings[i]);
    }
    var env := ShownAll(settings);
    assert forall i :: 0 <= i < |settings| ==> Key(env[i]) == settings[i].key;
  }

  /**
   `Parse` undoes writing: a `[Service]` section of Environment= lines, any
   number of settings on each, blanks wherever systemd allows them, is read as
   exactly those settings in order, or refused if two have one name.
   */
  lemma ParseUndoesPrint(headerTail: string, lines: seq<Line>)
    requires BlankToTheEnd(headerTail) && GoodLines(lines)
    ensures var parsed := Parsed(JoinLines(ServiceLines(headerTail, lines)));
            if KeysApart(AllSettings(lines)) then parsed == Ok(ShownAll(AllSettings(lines))) else parsed.Err?
  {
    hide Parsed, TrimmedAll, ServiceLines, GoodLine, Readable, Assigned, ValidEnv, KeysApart, JoinLines;
    var text, env := JoinLines(ServiceLines(headerTail, lines)), ShownAll(AllSettings(lines));
    ServiceUnitLines(headerTail, lines);
    JoinedLines(ServiceLines(headerTail, lines));
    ServiceAssigned(headerTail, lines, |lines|);
    assert lines[..|lines|] == lines;
    AllGood(lines);
    ValidIffApart(AllSettings(lines));
    ParseReturnsExactly(text, env);
    if Parsed(text).Ok? { ParseReturnsExactly(text, Parsed(text).value); }
  }

  // ---------------------------------------------------------- continuation

  function Backslashes(n: nat): (r: string)
    ensures |r| == n && forall i :: 0 <= i < n ==> r[i] == '\\'
  {
    seq(n, i requires 0 <= i < n => '\\')
  }

  lemma TrimReturnIs(l: string)
    requires l == "" || l[|l| - 1] != '\r'
    ensures TrimReturn(l) == l && TrimReturn(l + "\r") == l
  {
    assert (l + "\r")[..|l|] == l;
  }

  /** A line goes on exactly when it ends in an odd number of backslashes, one carriage return aside. */
  lemma ContinuesIs(body: string, n: nat)
    requires body == "" || body[|body| - 1] !in {'\\', '\r'}
    ensures Continues(body + Backslashes(n)) <==> n % 2 == 1
    ensures Continues(body + Backslashes(n) + "\r") <==> n % 2 == 1
  {
    hide Backslashes, TrimReturn, TrimRight;
    TrimRightIs(body, Backslashes(n), {'\\'});
    TrimReturnIs(body + Backslashes(n));
  }

  // ---------------------------------------------------------- comments

  lemma CommentIsSkipped(s: Scan, line: string)
    requires line != "" && line[0] in {'#', ';'}
    ensures ScanLine(s, line) == Ok(s)
  {
    hide Continues;
    assert line[..1] == [line[0]];
    assert IsComment(line) && !IsHeader(line);
  }

  lemma {:induction false} ScanSkips(s: Scan, before: seq<string>, comment: string, after: seq<string>)
    requires comment != "" && comment[0] in {'#', ';'}
    ensures ScanLines(s, before + [comment] + after) == ScanLines(s, before + after)
    decreases |after|
  {
    hide ScanLine;
    var all, without := before + [comment] + after, before + after;
    if after == [] {
      assert all[..|all| - 1] == before && without == before;
      if ScanLines(s, before).Ok? { CommentIsSkipped(ScanLines(s, before).value, comment); }
    } else {
      var front := after[..|after| - 1];
      assert all[..|all| - 1] == before + [comment] + front && without[..|without| - 1] == before + front;
      ScanSkips(s, before, comment, front);
    }
  }

  lemma NoFeedsInside(before: seq<string>, line: string, after: seq<string>)
    requires NoFeeds(before) && NoLineFeed(line) && NoFeeds(after)
    ensures NoFeeds(before + [line] + after)
  {
    hide NoLineFeed;
  }

  lemma TrimmedInside(before: seq<string>, line: string, after: seq<string>)
    ensures TrimmedAll(before + [line] + after) == TrimmedAll(before) + [TrimLeft(line, BLANKS)] + TrimmedAll(after)
    ensures TrimmedAll(before + after) == TrimmedAll(before) + TrimmedAll(after)
  {
    hide TrimLeft;
  }

  /** A comment put anywhere, even into a continued line, changes nothing. */
  lemma CommentsChangeNothing(before: seq<string>, after: seq<string>, indent: string, comment: string)
    requires before + after != [] && NoFeeds(before) && NoFeeds(after)
    requires Blank(indent) && NoLineFeed(comment) && comment != "" && comment[0] in {'#', ';'}
    ensures Parsed(JoinLines(before + [indent + comment] + after)) == Parsed(JoinLines(before + after))
  {
    hide ScanLines, NoLineFeed, JoinLines, TrimmedAll, TrimLeft, LinesOf;
    IndentedComment(indent, comment);
    NoFeedsInside(before, indent + comment, after);
    JoinedLines(before + [indent + comment] + after);
    JoinedLines(before + after);
    TrimLeftIs(indent, comment, BLANKS);
    TrimmedInside(before, indent + comment, after);
    ScanSkips(START, TrimmedAll(before), comment, TrimmedAll(after));
  }

  lemma IndentedComment(indent: string, comment: string)
    requires Blank(indent) && NoLineFeed(comment)
    ensures NoLineFeed(indent + comment)
  {
  }

  // ---------------------------------------------------------- what is refused

  /** One line that cannot be read refuses the unit, whatever stands around it. */
  lemma ErrorStands(lines: seq<string>, i: nat)
    requires i < |lines| && NoFeeds(lines) && FieldsAt(TrimmedAll(lines), i).Err?
    ensures Parsed(JoinLines(lines)).Err?
  {
    hide FieldsAt, Parsed, Assigned, TrimmedAll, JoinLines, NoLineFeed;
    JoinedLines(lines);
    if Parsed(JoinLines(lines)).Ok? {
      ParseReturnsExactly(JoinLines(lines), Parsed(JoinLines(lines)).value);
    }
  }

  /** A line of settings outside `[Service]`, where it is no continuation, is an error. */
  lemma OutsideServiceIsError(lines: seq<string>, i: nat, l: Line)
    requires i < |lines| && NoFeeds(lines) && GoodLine(l) && lines[i] == Printed(l)
    requires !Swallowed(TrimmedAll(lines), i) && !InService(TrimmedAll(lines), i)
    ensures Parsed(JoinLines(lines)).Err?
  {
    hide Swallowed, InService, EnvironmentFields, JoinLines, GoodLine, Printed, Directive, NoFeeds;
    LineReads(l);
    assert FieldsAt(TrimmedAll(lines), i).Err?;
    ErrorStands(lines, i);
  }

  /** Under no section at all. */
  lemma NoSectionIsError(l: Line, after: seq<string>)
    requires GoodLine(l) && NoFeeds(after)
    ensures Parsed(JoinLines([] + [Printed(l)] + after)).Err?
  {
    hide Printed, Parsed, JoinLines, TrimmedAll, Directive, NoLineFeed;
    LineReads(l);
    NoFeedsInside([], Printed(l), after);
    Unsectioned(TrimmedAll([] + [Printed(l)] + after));
    OutsideServiceIsError([] + [Printed(l)] + after, 0, l);
  }

  /** And under any section but the one. */
  lemma OtherSectionIsError(name: string, l: Line, after: seq<string>)
    requires GoodLine(l) && NoFeeds(after)
    requires name != "Service" && forall i :: 0 <= i < |name| ==> name[i] !in {'\n', '\\'}
    ensures Parsed(JoinLines(["[" + name + "]"] + [Printed(l)] + after)).Err?
  {
    hide Printed, IsServiceHeader, Continues, Parsed, JoinLines, TrimmedAll, TrimLeft, Directive, NoLineFeed, Swallowed,
         InService;
    var h := "[" + name + "]";
    LineReads(l);
    OtherHeader(name);
    NoFeedsInside([h], Printed(l), after);
    TrimmedInside([h], Printed(l), after);
    TrimmedOne(h);
    NotYetService(TrimmedAll([h] + [Printed(l)] + after));
    OutsideServiceIsError([h] + [Printed(l)] + after, 1, l);
  }

  lemma TrimmedOne(line: string)
    ensures TrimmedAll([line]) == [TrimLeft(line, BLANKS)]
  {
    hide TrimLeft;
  }

  lemma Unsectioned(trimmed: seq<string>)
    ensures !Swallowed(trimmed, 0) && !InService(trimmed, 0)
  {
  }

  lemma HeaderText(name: string)
    requires name != "Service" && forall i :: 0 <= i < |name| ==> name[i] !in {'\n', '\\'}
    ensures var h := "[" + name + "]";
            && h != "[Service]" && h[0] == '[' && h[|h| - 1] == ']'
            && forall i :: 0 <= i < |h| ==> h[i] != '\\' && h[i] != '\n'
  {
    var h := "[" + name + "]";
    assert h[1..|h| - 1] == name;
    assert "[Service]"[1..8] == "Service";
  }

  lemma OtherHeader(name: string)
    requires name != "Service" && forall i :: 0 <= i < |name| ==> name[i] !in {'\n', '\\'}
    ensures var h := "[" + name + "]";
            TrimLeft(h, BLANKS) == h && NoLineFeed(h) && !IsServiceHeader(h) && !Continues(h)
  {
    hide Continues, TrimRight, TrimLeft;
    HeaderText(name);
    HeaderIsNot("[" + name + "]");
  }

  lemma HeaderIsNot(h: string)
    requires h != "" && h != "[Service]" && h[0] == '[' && h[|h| - 1] == ']'
    requires forall i :: 0 <= i < |h| ==> h[i] != '\\'
    ensures TrimLeft(h, BLANKS) == h && !IsServiceHeader(h) && !Continues(h)
  {
    hide Continues, TrimRight;
    NotContinued(h);
    TrimRightIs(h, "", BLANKS_AND_RETURN);
    assert h + "" == h;
  }

  lemma NotYetService(trimmed: seq<string>)
    requires |trimmed| > 1 && !IsServiceHeader(trimmed[0]) && !Continues(trimmed[0])
    ensures !Swallowed(trimmed, 1) && !InService(trimmed, 1)
  {
    hide Continues, IsServiceHeader, IsHeader, IsComment;
  }

  /** A second line under `[Service]` is in that section. */
  lemma SecondInService(trimmed: seq<string>)
    requires |trimmed| > 1 && IsHeader(trimmed[0]) && IsServiceHeader(trimmed[0]) && !Continues(trimmed[0])
    ensures !Swallowed(trimmed, 1) && InService(trimmed, 1)
  {
    hide IsHeader, IsServiceHeader, Continues, IsComment;
    assert !Swallowed(trimmed, 0) && LiveHeader(trimmed, 0);
  }

  /** The second line of a `[Service]` section, refused. */
  lemma SecondLineRefused(line: string, after: seq<string>)
    requires NoLineFeed(line) && NoFeeds(after)
    requires TrimLeft(line, BLANKS) == line && !IsComment(line) && !IsHeader(line)
    requires EnvironmentFields(line, false, true).Err?
    ensures Parsed(JoinLines(["[Service]"] + [line] + after)).Err?
  {
    hide IsComment, IsHeader, IsServiceHeader, Continues, EnvironmentFields, JoinLines, NoLineFeed, TrimLeft,
         TrimmedAll, Swallowed, InService, Parsed;
    assert "[Service]" + "" == "[Service]";
    ServiceHeader("");
    NoFeedsInside(["[Service]"], line, after);
    TrimmedInside(["[Service]"], line, after);
    TrimmedOne("[Service]");
    SecondInService(TrimmedAll(["[Service]"] + [line] + after));
    ErrorStands(["[Service]"] + [line] + after, 1);
  }

  lemma StartsAsDirective(line: string)
    requires line != "" && line[0] !in {' ', '\t', '#', ';', '['}
    ensures TrimLeft(line, BLANKS) == line && !IsComment(line) && !IsHeader(line)
  {
  }

  lemma NoFeedJoined(a: string, b: string)
    requires NoLineFeed(a) && NoLineFeed(b)
    ensures NoLineFeed(a + b)
  {
  }

  /** A value with a quote, a backslash or a specifier in it, or with nothing in it, is refused. */
  lemma RefusedValueIsError(gap: string, value: string, after: seq<string>)
    requires Blank(gap) && NoLineFeed(value) && NoFeeds(after)
    requires (exists k :: 0 <= k < |value| && value[k] in {'"', '\'', '\\', '%'}) || BlankToTheEnd(value)
    ensures Parsed(JoinLines(["[Service]"] + ["Environment" + gap + "=" + value] + after)).Err?
  {
    hide Parsed, EnvironmentFields, JoinLines, TrimLeft, IsComment, IsHeader, Fields;
    var line := "Environment" + gap + "=" + value;
    assert line[0] == 'E';
    StartsAsDirective(line);
    DirectiveReads(gap, value, true);
    NoFeedJoined("Environment" + gap + "=", value);
    SecondLineRefused(line, after);
  }

  /** Any other directive that names the environment is refused: UnsetEnvironment=, EnvironmentFile= and the like. */
  lemma OtherDirectiveIsError(a: string, b: string, value: string, after: seq<string>)
    requires NoLineFeed(a + "Environment" + b) && NoLineFeed(value) && NoFeeds(after)
    requires '=' !in a + "Environment" + b && (a != "" ==> a[0] !in {' ', '\t', '#', ';', '['})
    requires a != "" || !Blank(b)
    ensures Parsed(JoinLines(["[Service]"] + [a + "Environment" + b + "=" + value] + after)).Err?
  {
    OtherDirectiveRefused(a, b, value);
    hide Parsed, JoinLines, EnvironmentFields, TrimLeft, IsComment, IsHeader;
    var line := a + "Environment" + b + "=" + value;
    assert line[0] == if a != "" then a[0] else 'E';
    StartsAsDirective(line);
    NoFeedJoined(a + "Environment" + b, "=");
    NoFeedJoined(a + "Environment" + b + "=", value);
    SecondLineRefused(line, after);
  }

  lemma OtherDirectiveRefused(a: string, b: string, value: string)
    requires '=' !in a + "Environment" + b && (a != "" || !Blank(b))
    ensures EnvironmentFields(a + "Environment" + b + "=" + value, false, true).Err?
  {
    var name := a + "Environment" + b;
    var line := name + "=" + value;
    assert line[..|name|] == name && line[|name|] == '=';
    IndexOfIs(line, '=', |name|);
    NamesEnvironment(a, b);
  }

  lemma NamesEnvironment(a: string, b: string)
    requires a != "" || !Blank(b)
    ensures var d := TrimRight(a + "Environment" + b, BLANKS);
            Contains(d, "Environment") && d != "Environment"
  {
    var name := a + "Environment" + b;
    var d := TrimRight(name, BLANKS);
    hide TrimRight;
    assert name[|a| + 10] == 't' && name[|a|..|a| + 11] == "Environment";
    assert |d| >= |a| + 11;
    assert d[|a|..|a| + 11] == name[|a|..|a| + 11];
    assert OccursAt(d, "Environment", |a|);
    if a == "" {
      var k :| 0 <= k < |b| && !(b[k] == ' ' || b[k] == '\t');
      assert name[11 + k] == b[k];
    }
  }
}
