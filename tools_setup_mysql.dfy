/**
 * tools/setup_mysql.py: creates the olist database and applies the MySQL
 * DDL scripts in a fixed order, one ';'-separated statement at a time.
 * The file system and the server are parameters: whether a script path
 * present, what it contains, and whether executing a statement raises
 * mysql.connector.Error given everything executed before it.
 */
module ToolsSetupMysql {
  import opened Wrappers
  import opened PyText

  const Host: string := "127.0.0.1"
  const Port: int := 3306
  const User: string := "root"
  const DbName: string := "olist"

  /** PASSWORD: sys.argv[1] when given, "root" otherwise. */
  function Password(argv: seq<string>): (p: string)
    ensures |argv| > 1 ==> p == argv[1]
    ensures |argv| <= 1 ==> p == "root"
  {
    if |argv| > 1 then argv[1] else "root"
  }

  // ---------------------------------------------------------------------
  // Statements of one script

  /** [s.strip() for s in pieces if s.strip()] */
  function StripNonEmpty(pieces: seq<string>): (stmts: seq<string>)
    ensures |stmts| <= |pieces|
    ensures forall i :: 0 <= i < |stmts| ==> stmts[i] != "" && IsStripped(stmts[i])
    ensures forall c :: NoneHolds(pieces, c) ==> NoneHolds(stmts, c)
    decreases |pieces|
  {
    if pieces == [] then []
    else
      var rest := StripNonEmpty(pieces[1..]);
      var s := Strip(pieces[0]);
      assert forall c :: NoneHolds(pieces, c) ==> c !in s && NoneHolds(pieces[1..], c);
      if s != "" then [s] + rest else rest
  }

  /** No string of the list holds c. */
  predicate NoneHolds(strs: seq<string>, c: char) {
    forall j :: 0 <= j < |strs| ==> c !in strs[j]
  }

  /** The statements of a script: its ';'-separated pieces, trimmed, empty ones dropped. */
  function Statements(content: string): (stmts: seq<string>)
    ensures forall i :: 0 <= i < |stmts| ==> stmts[i] != "" && ';' !in stmts[i] && IsStripped(stmts[i])
  {
    var pieces := Split(content, ';');
    assert NoneHolds(pieces, ';');
    StripNonEmpty(pieces)
  }

  lemma {:induction false} StripNonEmptyKeeps(stmts: seq<string>)
    requires forall i :: 0 <= i < |stmts| ==> stmts[i] != "" && IsStripped(stmts[i])
    ensures StripNonEmpty(stmts) == stmts
    decreases |stmts|
  {
    if stmts != [] {
      StripOfStripped(stmts[0]);
      StripNonEmptyKeeps(stmts[1..]);
    }
  }

  /**
   * Statements joined by ';' split back into the same statements, in the
   * same order: nothing is lost, merged or reordered.
   */
  lemma StatementsOfJoin(stmts: seq<string>)
    requires forall i :: 0 <= i < |stmts| ==> stmts[i] != "" && ';' !in stmts[i] && IsStripped(stmts[i])
    ensures Statements(Join(stmts, ';')) == stmts
  {
    if stmts == [] {
      assert Split("", ';') == [""];
      assert StripNonEmpty([""]) == [] by {
        assert Strip("") == "" by { StripEmptyIffAllSpace(""); }
      }
    } else {
      SplitJoin(stmts, ';');
      StripNonEmptyKeeps(stmts);
    }
  }

  /** A script of blanks and ';' alone has no statement. */
  lemma BlankScriptIsEmpty(content: string)
    requires forall i :: 0 <= i < |content| ==> IsSpace(content[i]) || content[i] == ';'
    ensures Statements(content) == []
  {
    var pieces := Split(content, ';');
    JoinSplit(content, ';');
    forall j | 0 <= j < |pieces| ensures Strip(pieces[j]) == "" {
      PieceOfBlank(content, pieces, j);
      StripEmptyIffAllSpace(pieces[j]);
    }
    AllBlankDropped(pieces);
  }

  lemma PieceOfBlank(content: string, pieces: seq<string>, j: nat)
    requires forall i :: 0 <= i < |content| ==> IsSpace(content[i]) || content[i] == ';'
    requires pieces == Split(content, ';') && j < |pieces|
    ensures AllSpace(pieces[j])
  {
    JoinSplit(content, ';');
    JoinChars(pieces, ';');
    forall i | 0 <= i < |pieces[j]| ensures IsSpace(pieces[j][i]) {
      var c := pieces[j][i];
      assert c in pieces[j];
      assert c != ';';
      assert c in content by {
        assert c in Join(pieces, ';') by { JoinHasPart(pieces, ';', j, c); }
      }
    }
  }

  lemma {:induction false} AllBlankDropped(pieces: seq<string>)
    requires forall j :: 0 <= j < |pieces| ==> Strip(pieces[j]) == ""
    ensures StripNonEmpty(pieces) == []
    decreases |pieces|
  {
    if pieces != [] {
      AllBlankDropped(pieces[1..]);
    }
  }

  // ---------------------------------------------------------------------
  // apply_ddl

  const DdlDir: string := "db/ddl_mysql"

  /** The DDL scripts, in the order they are applied. */
  const Scripts: seq<string> := ["000_base.sql", "010_categories.sql", "020_geo_zip.sql", "030_fk_v2_1.sql", "040_indexes.sql"]

  function ScriptPath(name: string): string {
    DdlDir + "/" + name
  }

  /** What apply_ddl does, in order: skip a missing script, run a statement, commit a script. */
  datatype Event =
    | Skipped(script: string)
    | Ran(script: string, statement: string, failed: bool)
    | Committed(script: string)

  /**
   * The statements of one script run one after another; a failure is
   * reported (failed = true) and the next statement still runs. Whether a
   * statement fails may depend on everything executed before it.
   */
  function RunFrom(log: seq<Event>, name: string, stmts: seq<string>, fails: (seq<Event>, string) -> bool): (r: seq<Event>)
    ensures |r| == |log| + |stmts| && r[..|log|] == log
    decreases |stmts|
  {
    if stmts == [] then log
    else
      var next := log + [Ran(name, stmts[0], fails(log, stmts[0]))];
      var r := RunFrom(next, name, stmts[1..], fails);
      assert r[..|log|] == r[..|next|][..|log|];
      r
  }

  /**
   * The i-th event after the log runs the i-th statement, and whether it
   * failed is decided on exactly the events before it.
   */
  lemma {:induction false} RunFromRuns(log: seq<Event>, name: string, stmts: seq<string>,
                                       fails: (seq<Event>, string) -> bool, i: nat)
    requires i < |stmts|
    ensures RunFrom(log, name, stmts, fails)[|log| + i]
            == Ran(name, stmts[i], fails(RunFrom(log, name, stmts, fails)[..|log| + i], stmts[i]))
    decreases |stmts|
  {
    var next := log + [Ran(name, stmts[0], fails(log, stmts[0]))];
    var r := RunFrom(next, name, stmts[1..], fails);
    assert RunFrom(log, name, stmts, fails) == r;
    if i == 0 {
      assert r[..|log|] == log;
      assert r[|log|] == r[..|next|][|log|] == next[|log|];
    } else {
      RunFromRuns(next, name, stmts[1..], fails, i - 1);
      assert |log| + i == |next| + (i - 1);
    }
  }

  /** One script: skipped when its file is missing, else its statements run and it is committed. */
  function ApplyScript(log: seq<Event>, name: string, present: string -> bool, read: string -> string,
                       fails: (seq<Event>, string) -> bool): seq<Event>
  {
    var path := ScriptPath(name);
    if !present(path) then log + [Skipped(name)]
    else RunFrom(log, name, Statements(read(path)), fails) + [Committed(name)]
  }

  /** The scripts from the given one on, in order. */
  function ApplyFrom(log: seq<Event>, scripts: seq<string>, present: string -> bool, read: string -> string,
                     fails: (seq<Event>, string) -> bool): seq<Event>
    decreases |scripts|
  {
    if scripts == [] then log
    else ApplyFrom(ApplyScript(log, scripts[0], present, read, fails), scripts[1..], present, read, fails)
  }

  /** apply_ddl's loop over the scripts and, inside it, over the statements of each. */
  method ApplyDdl(present: string -> bool, read: string -> string, fails: (seq<Event>, string) -> bool)
    returns (log: seq<Event>)
    ensures log == ApplyFrom([], Scripts, present, read, fails)
  {
    log := [];
    var k := 0;
    while k < |Scripts|
      invariant 0 <= k <= |Scripts|
      invariant ApplyFrom([], Scripts, present, read, fails) == ApplyFrom(log, Scripts[k..], present, read, fails)
    {
      var name := Scripts[k];
      var path := ScriptPath(name);
      assert Scripts[k..][1..] == Scripts[k + 1..];
      assert ApplyFrom(log, Scripts[k..], present, read, fails)
             == ApplyFrom(ApplyScript(log, name, present, read, fails), Scripts[k + 1..], present, read, fails);
      if !present(path) {
        log := log + [Skipped(name)];
      } else {
        var statements := Statements(read(path));
        log := RunStatements(log, name, statements, fails);
        log := log + [Committed(name)];
      }
      k := k + 1;
    }
  }

  /** The inner loop: execute each statement, reporting and passing over a failure. */
  method RunStatements(log0: seq<Event>, name: string, statements: seq<string>, fails: (seq<Event>, string) -> bool)
    returns (log: seq<Event>)
    ensures log == RunFrom(log0, name, statements, fails)
  {
    log := log0;
    var j := 0;
    while j < |statements|
      invariant 0 <= j <= |statements|
      invariant RunFrom(log0, name, statements, fails) == RunFrom(log, name, statements[j..], fails)
    {
      assert statements[j..][1..] == statements[j + 1..];
      var failed := fails(log, statements[j]);
      log := log + [Ran(name, statements[j], failed)];
      j := j + 1;
    }
  }

  /** The skip and commit events of a log, in order. */
  function Outcomes(log: seq<Event>): (r: seq<Event>)
    ensures forall i :: 0 <= i < |r| ==> !r[i].Ran?
    decreases |log|
  {
    if log == [] then []
    else (if log[0].Ran? then [] else [log[0]]) + Outcomes(log[1..])
  }

  lemma {:induction false} OutcomesAppend(a: seq<Event>, b: seq<Event>)
    ensures Outcomes(a + b) == Outcomes(a) + Outcomes(b)
    decreases |a|
  {
    if a == [] {
      assert a + b == b;
    } else {
      assert (a + b)[0] == a[0];
      assert (a + b)[1..] == a[1..] + b;
      OutcomesAppend(a[1..], b);
    }
  }

  lemma {:induction false} OutcomesOfRun(log: seq<Event>, name: string, stmts: seq<string>, fails: (seq<Event>, string) -> bool)
    ensures Outcomes(RunFrom(log, name, stmts, fails)) == Outcomes(log)
    decreases |stmts|
  {
    if stmts != [] {
      var next := log + [Ran(name, stmts[0], fails(log, stmts[0]))];
      OutcomesOfRun(next, name, stmts[1..], fails);
      OutcomesAppend(log, [Ran(name, stmts[0], fails(log, stmts[0]))]);
      assert Outcomes([Ran(name, stmts[0], fails(log, stmts[0]))]) == [];
    }
  }

  /** The outcome apply_ddl records for one script. */
  function ScriptOutcome(name: string, present: string -> bool): Event {
    if present(ScriptPath(name)) then Committed(name) else Skipped(name)
  }

  function ScriptOutcomes(scripts: seq<string>, present: string -> bool): (r: seq<Event>)
    ensures |r| == |scripts|
    ensures forall i :: 0 <= i < |scripts| ==> r[i].script == scripts[i]
  {
    if scripts == [] then []
    else [ScriptOutcome(scripts[0], present)] + ScriptOutcomes(scripts[1..], present)
  }

  /** One script adds exactly its own outcome. */
  lemma ScriptStep(log: seq<Event>, name: string, present: string -> bool, read: string -> string,
                   fails: (seq<Event>, string) -> bool)
    ensures Outcomes(ApplyScript(log, name, present, read, fails)) == Outcomes(log) + [ScriptOutcome(name, present)]
  {
    var path := ScriptPath(name);
    if !present(path) {
      OutcomesAppend(log, [Skipped(name)]);
    } else {
      var run := RunFrom(log, name, Statements(read(path)), fails);
      OutcomesAppend(run, [Committed(name)]);
      OutcomesOfRun(log, name, Statements(read(path)), fails);
    }
  }

  /**
   * The scripts are dealt with in the listed order, each exactly once:
   * skipped when its file is missing, committed otherwise, whatever its
   * statements did.
   */
  lemma {:induction false} ScriptsInOrder(log: seq<Event>, scripts: seq<string>, present: string -> bool,
                                          read: string -> string, fails: (seq<Event>, string) -> bool)
    ensures Outcomes(ApplyFrom(log, scripts, present, read, fails)) == Outcomes(log) + ScriptOutcomes(scripts, present)
    decreases |scripts|
  {
    if scripts != [] {
      var next := ApplyScript(log, scripts[0], present, read, fails);
      ScriptsInOrder(next, scripts[1..], present, read, fails);
      ScriptStep(log, scripts[0], present, read, fails);
    }
  }

  /** apply_ddl itself: one outcome per listed script, in the listed order. */
  lemma DdlOutcomes(present: string -> bool, read: string -> string, fails: (seq<Event>, string) -> bool)
    ensures Outcomes(ApplyFrom([], Scripts, present, read, fails)) == ScriptOutcomes(Scripts, present)
  {
    ScriptsInOrder([], Scripts, present, read, fails);
    assert Outcomes([]) == [];
  }

  /**
   * A present script's statements all run, in order, right after whatever
   * came before, and its commit follows them; a failing statement does
   * not stop the ones after it.
   */
  lemma ScriptRunsEveryStatement(log: seq<Event>, name: string, present: string -> bool, read: string -> string,
                                 fails: (seq<Event>, string) -> bool, i: nat)
    requires present(ScriptPath(name))
    requires i < |Statements(read(ScriptPath(name)))|
    ensures var stmts := Statements(read(ScriptPath(name)));
            var r := ApplyScript(log, name, present, read, fails);
            && |r| == |log| + |stmts| + 1
            && r[..|log|] == log
            && r[|log| + i] == Ran(name, stmts[i], fails(r[..|log| + i], stmts[i]))
            && r[|r| - 1] == Committed(name)
  {
    var stmts := Statements(read(ScriptPath(name)));
    var run := RunFrom(log, name, stmts, fails);
    var r := run + [Committed(name)];
    RunFromRuns(log, name, stmts, fails, i);
    assert r[..|log|] == run[..|log|];
    assert r[..|log| + i] == run[..|log| + i];
  }
}
