/** The parser of a systemd unit's Environment= assignments, and the environment a server ships with. */
module UnitEnv {
  import opened Wrappers
  import opened Text

  const BLANKS: set<char> := {' ', '\t'}
  const BLANKS_AND_RETURN: set<char> := {' ', '\t', '\r'}
  const UNREAD: set<char> := {'"', '\'', '\\', '%'}

  datatype ParseError = NotRead(line: string) | NotAssignment(field: string) | SetTwice(key: string)

  // ---------------------------------------------------------- one line

  predicate IsComment(line: string) {
    HasPrefix(line, "#") || HasPrefix(line, ";")
  }

  /** The line ends, one carriage return aside, in an odd run of backslashes. */
  predicate Continues(line: string) {
    var l := TrimReturn(line);
    (|l| - |TrimRight(l, {'\\'})|) % 2 == 1
  }

  predicate IsHeader(line: string) {
    HasPrefix(line, "[")
  }

  predicate IsServiceHeader(line: string) {
    TrimRight(line, BLANKS_AND_RETURN) == "[Service]"
  }

  function EnvironmentFields(line: string, comment: bool, inService: bool): Result<seq<string>, ParseError> {
    var cut := IndexOf(line, '=');
    if cut == |line| || comment then Ok([])
    else
      var directive, value := TrimRight(line[..cut], BLANKS), line[cut + 1..];
      if !Contains(directive, "Environment") then Ok([])
      else if directive != "Environment" || !inService || ContainsAny(value, UNREAD) || IsBlank(value) then
        Err(NotRead(line))
      else Ok(Fields(value, BLANKS_AND_RETURN))
  }

  predicate IsLetter(c: char) {
    c == '_' || 'A' <= c <= 'Z' || 'a' <= c <= 'z'
  }

  predicate ValidName(key: string) {
    key != [] && forall i :: 0 <= i < |key| ==> IsLetter(key[i]) || (i > 0 && '0' <= key[i] <= '9')
  }

  /** The name an assignment sets: what is before the first `=`. */
  function Key(field: string): string {
    field[..IndexOf(field, '=')]
  }

  predicate IsAssignment(field: string) {
    var sep := IndexOf(field, '=');
    0 < sep < |field| && ValidName(field[..sep])
  }

  predicate Sets(env: seq<string>, key: string) {
    exists i :: 0 <= i < |env| && HasPrefix(env[i], key + "=")
  }

  function AddAssignment(env: seq<string>, field: string): Result<seq<string>, ParseError> {
    if !IsAssignment(field) then Err(NotAssignment(field))
    else if Sets(env, Key(field)) then Err(SetTwice(Key(field) + "="))
    else Ok(env + [field])
  }

  function AddAll(env: seq<string>, fields: seq<string>): Result<seq<string>, ParseError>
    decreases fields
  {
    if fields == [] then Ok(env)
    else
      var more :- AddAssignment(env, fields[0]);
      AddAll(more, fields[1..])
  }

  // ---------------------------------------------------------- the machine

  datatype Scan = Scan(env: seq<string>, inService: bool, continued: bool)

  /** One turn of the line loop, on a line with its leading blanks already gone. */
  function ScanLine(s: Scan, line: string): Result<Scan, ParseError> {
    var comment := IsComment(line);
    if s.continued then Ok(s.(continued := comment || Continues(line)))
    else
      var continued := !comment && Continues(line);
      if IsHeader(line) then Ok(Scan(s.env, IsServiceHeader(line), continued))
      else
        var fields :- EnvironmentFields(line, comment, s.inService);
        var env :- AddAll(s.env, fields);
        Ok(Scan(env, s.inService, continued))
  }

  function ScanLines(s: Scan, lines: seq<string>): Result<Scan, ParseError> {
    if lines == [] then Ok(s)
    else
      var n := |lines| - 1;
      var before :- ScanLines(s, lines[..n]);
      ScanLine(before, lines[n])
  }

  const START: Scan := Scan([], false, false)

  /** The unit's lines without their leading blanks. */
  function LinesOf(text: string): (r: seq<string>)
    ensures |r| == |Split(text, '\n')|
  {
    var raw := Split(text, '\n');
    seq(|raw|, i requires 0 <= i < |raw| => TrimLeft(raw[i], BLANKS))
  }

  function Parsed(text: string): Result<seq<string>, ParseError> {
    var s :- ScanLines(START, LinesOf(text));
    Ok(s.env)
  }

  /** The inner loop of `Parse`, over one line's fields. */
  method AddFields(env: seq<string>, fields: seq<string>) returns (r: Result<seq<string>, ParseError>)
    ensures r == AddAll(env, fields)
  {
    var more := env;
    for i := 0 to |fields|
      invariant AddAll(env, fields) == AddAll(more, fields[i..])
    {
      var added := AddAssignment(more, fields[i]);
      if added.Err? {
        return Err(added.error);
      }
      assert fields[i..][1..] == fields[i + 1..];
      more := added.value;
    }
    return Ok(more);
  }

  lemma {:induction false} FirstErrorStands(s: Scan, lines: seq<string>, n: nat)
    requires n <= |lines| && ScanLines(s, lines[..n]).Err?
    ensures ScanLines(s, lines) == ScanLines(s, lines[..n])
  {
    if n == |lines| {
      assert lines[..n] == lines;
    } else {
      assert lines[..|lines| - 1][..n] == lines[..n];
      FirstErrorStands(s, lines[..|lines| - 1], n);
    }
  }

  method Parse(text: string) returns (r: Result<seq<string>, ParseError>)
    ensures r == Parsed(text)
  {
    hide IsComment, Continues, IsHeader, IsServiceHeader, EnvironmentFields, AddAll;
    var raw := Split(text, '\n');
    ghost var lines := LinesOf(text);
    var env: seq<string> := [];
    var inService, continued := false, false;
    for i := 0 to |raw|
      invariant ScanLines(START, lines[..i]) == Ok(Scan(env, inService, continued))
    {
      var line := TrimLeft(raw[i], BLANKS);
      ghost var before := Scan(env, inService, continued);
      assert lines[..i + 1][..i] == lines[..i] && lines[..i + 1][i] == line;
      assert ScanLines(START, lines[..i + 1]) == ScanLine(before, line);
      var comment := IsComment(line);
      if continued {
        continued := comment || Continues(line);
        continue;
      }
      continued := !comment && Continues(line);
      if IsHeader(line) {
        inService := IsServiceHeader(line);
        continue;
      }
      var fields := EnvironmentFields(line, comment, inService);
      if fields.Err? {
        FirstErrorStands(START, lines, i + 1);
        return Err(fields.error);
      }
      var added := AddFields(env, fields.value);
      if added.Err? {
        FirstErrorStands(START, lines, i + 1);
        return Err(added.error);
      }
      env := added.value;
    }
    assert lines[..|raw|] == lines;
    return Ok(env);
  }

  // ---------------------------------------------------------- the environment a server is started with

  /** What `Shipped` keeps of the inherited environment: nothing that steers the allocator, no key of the unit's. */
  predicate Inherits(unit: seq<string>, kv: string) {
    !HasPrefix(kv, "MALLOC_") && !HasPrefix(kv, "GLIBC_TUNABLES=") && !HasPrefix(kv, "LD_PRELOAD=")
    && !Sets(unit, Key(kv))
  }

  function Inherited(unit: seq<string>, inherited: seq<string>): seq<string> {
    if inherited == [] then []
    else
      var n := |inherited| - 1;
      Inherited(unit, inherited[..n]) + if Inherits(unit, inherited[n]) then [inherited[n]] else []
  }

  method Shipped(unit: seq<string>, inherited: seq<string>) returns (env: seq<string>)
    ensures env == unit + Inherited(unit, inherited)
  {
    env := unit;
    for i := 0 to |inherited|
      invariant env == unit + Inherited(unit, inherited[..i])
    {
      var kv := inherited[i];
      assert inherited[..i + 1][..i] == inherited[..i];
      if HasPrefix(kv, "MALLOC_") || HasPrefix(kv, "GLIBC_TUNABLES=") || HasPrefix(kv, "LD_PRELOAD=")
         || Sets(unit, Key(kv)) {
        continue;
      }
      env := env + [kv];
    }
    assert inherited[..|inherited|] == inherited;
  }
}
