/**
 What the unit parser's one-bit machine means: which lines it swallows, which
 section a line is in, and exactly which environment it returns.
 */
module UnitEnvLaws {
  import opened Wrappers
  import opened Text
  import opened UnitEnv

  // ---------------------------------------------------------- continuation

  /** The machine's bit before line `i`. */
  function ContinuedAt(lines: seq<string>, i: nat): bool
    requires i <= |lines|
  {
    if i == 0 then false
    else
      var line := lines[i - 1];
      if ContinuedAt(lines, i - 1) then IsComment(line) || Continues(line)
      else !IsComment(line) && Continues(line)
  }

  /** The nearest earlier line that is no comment ends in a backslash that escapes nothing. */
  ghost predicate Swallowed(lines: seq<string>, i: nat)
    requires i <= |lines|
  {
    exists j :: 0 <= j < i && !IsComment(lines[j]) && Continues(lines[j])
      && forall k :: j < k < i ==> IsComment(lines[k])
  }

  /** The bit is the closed form: comments pass it on, any other line sets it anew. */
  lemma {:induction false} MachineSwallows(lines: seq<string>, i: nat)
    requires i <= |lines|
    ensures ContinuedAt(lines, i) <==> Swallowed(lines, i)
  {
    hide Continues;
    if i > 0 {
      MachineSwallows(lines, i - 1);
      var line := lines[i - 1];
      if IsComment(line) {
        if Swallowed(lines, i - 1) {
          var j :| 0 <= j < i - 1 && !IsComment(lines[j]) && Continues(lines[j])
                   && forall k :: j < k < i - 1 ==> IsComment(lines[k]);
          assert forall k :: j < k < i ==> IsComment(lines[k]);
        }
      } else if Swallowed(lines, i) {
        var j :| 0 <= j < i && !IsComment(lines[j]) && Continues(lines[j])
                 && forall k :: j < k < i ==> IsComment(lines[k]);
        assert j == i - 1;
      }
    }
  }

  // ---------------------------------------------------------- sections

  /** A section header that is a line of its own. */
  ghost predicate LiveHeader(lines: seq<string>, i: nat)
    requires i < |lines|
  {
    !Swallowed(lines, i) && IsHeader(lines[i])
  }

  /** The last section header before line `i` is `[Service]`. */
  ghost predicate InService(lines: seq<string>, i: nat)
    requires i <= |lines|
  {
    exists j :: 0 <= j < i && LiveHeader(lines, j) && IsServiceHeader(lines[j])
      && forall k :: j < k < i ==> !LiveHeader(lines, k)
  }

  lemma InServiceStep(lines: seq<string>, i: nat)
    requires i < |lines|
    ensures InService(lines, i + 1) <==>
            if LiveHeader(lines, i) then IsServiceHeader(lines[i]) else InService(lines, i)
  {
  }

  // ---------------------------------------------------------- what the unit assigns

  /** The fields line `i` contributes: none if swallowed or a header. */
  ghost function FieldsAt(lines: seq<string>, i: nat): Result<seq<string>, ParseError>
    requires i < |lines|
  {
    if Swallowed(lines, i) || IsHeader(lines[i]) then Ok([])
    else EnvironmentFields(lines[i], IsComment(lines[i]), InService(lines, i))
  }

  ghost predicate Readable(lines: seq<string>, n: nat)
    requires n <= |lines|
  {
    forall i :: 0 <= i < n ==> FieldsAt(lines, i).Ok?
  }

  /** The fields of the first `n` lines, in order. */
  ghost function Assigned(lines: seq<string>, n: nat): seq<string>
    requires n <= |lines| && Readable(lines, n)
  {
    if n == 0 then [] else Assigned(lines, n - 1) + FieldsAt(lines, n - 1).value
  }

  /** Assignments to names systemd takes, no name twice. */
  ghost predicate ValidEnv(env: seq<string>) {
    && (forall i :: 0 <= i < |env| ==> IsAssignment(env[i]))
    && (forall i, j :: 0 <= i < j < |env| ==> Key(env[i]) != Key(env[j]))
  }

  /** Having `KEY=` as a prefix is setting that very name. */
  lemma PrefixIsKey(field: string, key: string)
    requires IsAssignment(field) && '=' !in key
    ensures HasPrefix(field, key + "=") <==> Key(field) == key
  {
    if HasPrefix(field, key + "=") {
      assert field[..|key|] == field[..|key| + 1][..|key|] == key;
      assert field[|key|] == (key + "=")[|key|];
      IndexOfIs(field, '=', |key|);
    }
    var sep := IndexOf(field, '=');
    assert field[..sep + 1] == Key(field) + "=";
  }

  lemma SetsIsKey(env: seq<string>, field: string)
    requires IsAssignment(field) && forall i :: 0 <= i < |env| ==> IsAssignment(env[i])
    ensures Sets(env, Key(field)) <==> exists i :: 0 <= i < |env| && Key(env[i]) == Key(field)
  {
    hide IsAssignment, HasPrefix;
    KeyHasNoEquals(field);
    forall i | 0 <= i < |env| ensures HasPrefix(env[i], Key(field) + "=") <==> Key(env[i]) == Key(field) {
      PrefixIsKey(env[i], Key(field));
    }
  }

  lemma KeyHasNoEquals(field: string)
    requires IsAssignment(field)
    ensures '=' !in Key(field)
  {
  }

  /** Adding fields succeeds exactly when the result is a valid environment, and appends them. */
  lemma {:induction false} AddAllIs(env: seq<string>, fields: seq<string>)
    requires ValidEnv(env)
    ensures AddAll(env, fields).Ok? <==> ValidEnv(env + fields)
    ensures AddAll(env, fields).Ok? ==> AddAll(env, fields).value == env + fields
    decreases fields
  {
    hide IsAssignment, Sets, Key;
    if fields == [] {
      assert env + fields == env;
    } else {
      var field, rest := fields[0], fields[1..];
      assert env + fields == (env + [field]) + rest;
      assert (env + fields)[|env|] == field;
      if IsAssignment(field) {
        SetsIsKey(env, field);
        if Sets(env, Key(field)) {
          var i :| 0 <= i < |env| && Key(env[i]) == Key(field);
          assert (env + fields)[i] == env[i];
        } else {
          assert ValidEnv(env + [field]);
          AddAllIs(env + [field], rest);
        }
      }
    }
  }

  lemma ValidEnvPrefix(env: seq<string>, more: seq<string>)
    requires ValidEnv(env + more)
    ensures ValidEnv(env)
  {
    hide IsAssignment, Key;
    assert forall i :: 0 <= i < |env| ==> (env + more)[i] == env[i];
  }

  /** The machine after `n` lines, or the reason it stopped before. */
  lemma {:induction false} MachineAt(lines: seq<string>, n: nat)
    requires n <= |lines|
    ensures ScanLines(START, lines[..n]).Ok? <==> Readable(lines, n) && ValidEnv(Assigned(lines, n))
    ensures ScanLines(START, lines[..n]).Ok? ==>
              ScanLines(START, lines[..n]).value == Scan(Assigned(lines, n), InService(lines, n), ContinuedAt(lines, n))
  {
    hide IsComment, Continues, IsHeader, IsServiceHeader, EnvironmentFields, ValidEnv, Swallowed, InService;
    if n == 0 {
      NothingYet(lines);
    } else {
      var line := lines[n - 1];
      assert lines[..n][..n - 1] == lines[..n - 1];
      MachineAt(lines, n - 1);
      MachineSwallows(lines, n - 1);
      InServiceStep(lines, n - 1);
      HeaderIsNoComment(line);
      if Readable(lines, n) {
        assert Readable(lines, n - 1);
        var fields := FieldsAt(lines, n - 1).value;
        if ValidEnv(Assigned(lines, n)) { ValidEnvPrefix(Assigned(lines, n - 1), fields); }
        if ValidEnv(Assigned(lines, n - 1)) {
          AddAllIs(Assigned(lines, n - 1), fields);
          assert Assigned(lines, n - 1) + [] == Assigned(lines, n - 1);
        }
      } else if Readable(lines, n - 1) {
        assert FieldsAt(lines, n - 1).Err?;
      }
    }
  }

  lemma NothingYet(lines: seq<string>)
    ensures ValidEnv([]) && !InService(lines, 0)
  {
  }

  lemma HeaderIsNoComment(line: string)
    ensures IsHeader(line) ==> !IsComment(line)
  {
    if line != [] { assert line[..1] == [line[0]]; }
  }

  /**
   `Parse` succeeds exactly when every live line is readable and the fields of
   the live Environment= lines are valid assignments to distinct names; and
   then those fields, in order, are what it returns.
   */
  lemma ParseReturnsExactly(text: string, env: seq<string>)
    ensures var lines := LinesOf(text);
            Parsed(text) == Ok(env) <==>
            Readable(lines, |lines|) && env == Assigned(lines, |lines|) && ValidEnv(env)
  {
    hide ValidEnv, Readable, Assigned, ScanLines;
    var lines := LinesOf(text);
    MachineAt(lines, |lines|);
    assert lines[..|lines|] == lines;
  }

  /** An Environment= line that is read is never continued: its backslash would have been refused. */
  lemma ReadLineIsNotContinued(line: string, inService: bool)
    requires EnvironmentFields(line, false, inService).Ok? && EnvironmentFields(line, false, inService).value != []
    ensures !Continues(line)
  {
    var cut := IndexOf(line, '=');
    var value := line[cut + 1..];
    assert !IsBlank(value) && !ContainsAny(value, UNREAD);
    LastIsNoBackslash(line, cut + 1, value);
  }

  lemma LastIsNoBackslash(line: string, from: nat, value: string)
    requires from <= |line| && value == line[from..] && !IsBlank(value) && !ContainsAny(value, UNREAD)
    ensures !Continues(line)
  {
  }

  // ---------------------------------------------------------- the shipped environment

  lemma {:induction false} InheritedOnly(unit: seq<string>, inherited: seq<string>, j: nat)
    requires j < |Inherited(unit, inherited)|
    ensures Inherits(unit, Inherited(unit, inherited)[j]) && Inherited(unit, inherited)[j] in inherited
  {
    hide Inherits;
    if inherited != [] {
      var n := |inherited| - 1;
      if j < |Inherited(unit, inherited[..n])| { InheritedOnly(unit, inherited[..n], j); }
    }
  }

  /**
   Every name the unit sets has the unit's value in the shipped environment:
   the last entry for it is the unit's own. No allocator setting is inherited.
   */
  lemma UnitSettingsWin(unit: seq<string>, inherited: seq<string>, i: nat, j: nat)
    requires ValidEnv(unit) && i < |unit| && i < j < |unit + Inherited(unit, inherited)|
    ensures var env := unit + Inherited(unit, inherited);
            && !HasPrefix(env[j], Key(env[i]) + "=")
            && (j >= |unit| ==> !HasPrefix(env[j], "MALLOC_") && !HasPrefix(env[j], "GLIBC_TUNABLES=")
                                && !HasPrefix(env[j], "LD_PRELOAD=") && env[j] in inherited)
  {
    hide IsAssignment, HasPrefix, Sets;
    var key := Key(unit[i]);
    KeyHasNoEquals(unit[i]);
    if j < |unit| {
      PrefixIsKey(unit[j], key);
    } else {
      var kv := Inherited(unit, inherited)[j - |unit|];
      InheritedOnly(unit, inherited, j - |unit|);
      PrefixIsKey(unit[i], key);
      SetsKey(unit, i, key);
      if HasPrefix(kv, key + "=") { PrefixCutsKey(kv, key); }
    }
  }

  lemma SetsKey(unit: seq<string>, i: nat, key: string)
    requires i < |unit| && HasPrefix(unit[i], key + "=")
    ensures Sets(unit, key)
  {
  }

  lemma PrefixCutsKey(kv: string, key: string)
    requires HasPrefix(kv, key + "=") && '=' !in key
    ensures Key(kv) == key
  {
    assert kv[..|key|] == kv[..|key| + 1][..|key|] == key;
    assert kv[|key|] == (key + "=")[|key|];
    IndexOfIs(kv, '=', |key|);
  }

  /** And nothing else inherited is lost. */
  lemma {:induction false} OthersAreInherited(unit: seq<string>, inherited: seq<string>, kv: string)
    requires kv in inherited && Inherits(unit, kv)
    ensures kv in Inherited(unit, inherited)
  {
    hide Inherits;
    var n := |inherited| - 1;
    if kv in inherited[..n] { OthersAreInherited(unit, inherited[..n], kv); }
  }

  /**
   Entry by entry: one more inherited entry is kept, at the end, exactly when
   it is no allocator setting and the unit does not set its name.
   */
  lemma ShippedEntryByEntry(unit: seq<string>, inherited: seq<string>, name: string, rest: string)
    requires '=' !in name && (rest == "" || rest[0] == '=')
    ensures Inherited(unit, []) == []
    ensures var kv := name + rest;
            var kept := !HasPrefix(kv, "MALLOC_") && !HasPrefix(kv, "GLIBC_TUNABLES=") && !HasPrefix(kv, "LD_PRELOAD=")
                        && forall i :: 0 <= i < |unit| ==> !HasPrefix(unit[i], name + "=");
            Inherited(unit, inherited + [kv]) == Inherited(unit, inherited) + if kept then [kv] else []
  {
    var kv := name + rest;
    assert (inherited + [kv])[..|inherited|] == inherited;
    KeyIs(name, rest);
    hide HasPrefix;
  }

  lemma KeyIs(name: string, rest: string)
    requires '=' !in name && (rest == "" || rest[0] == '=')
    ensures Key(name + rest) == name
  {
    var kv := name + rest;
    assert kv[..|name|] == name;
    if rest == "" {
      assert kv == name;
      assert IndexOf(kv, '=') == |kv|;
    } else {
      IndexOfIs(kv, '=', |name|);
    }
  }
}
