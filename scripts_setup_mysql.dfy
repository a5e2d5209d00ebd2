/**
 * scripts/setup_mysql.py: finds a working MySQL root password (common
 * guesses first, then up to three typed ones), creates the olist database
 * and writes the password into the DB_PASS line of .env. The server, the
 * terminal and the file system are parameters: whether a password
 * connects, the answer typed at each prompt, whether the database was
 * created, and the .env text if it could be read.
 */
module ScriptsSetupMysql {
  import opened Wrappers
  import opened PyText

  /** The passwords tried before asking. */
  const CommonPasswords: seq<string> := ["", "root", "password", "mysql"]

  /** How many times the password is asked for. */
  const Attempts: nat := 3

  /** The position of the first string p accepts, searching from k on. */
  function FirstFrom(xs: seq<string>, p: string -> bool, k: nat): (r: Option<nat>)
    requires k <= |xs|
    ensures r.Some? ==> k <= r.value < |xs| && p(xs[r.value])
    ensures r.Some? ==> forall j :: k <= j < r.value ==> !p(xs[j])
    ensures r.None? ==> forall j :: k <= j < |xs| ==> !p(xs[j])
    decreases |xs| - k
  {
    if k == |xs| then None
    else if p(xs[k]) then Some(k)
    else FirstFrom(xs, p, k + 1)
  }

  /** The position of the first string p accepts. */
  function First(xs: seq<string>, p: string -> bool): Option<nat> {
    FirstFrom(xs, p, 0)
  }

  /** A position whose string p accepts, with none before it, is the first one. */
  lemma FirstIs(xs: seq<string>, p: string -> bool, i: nat)
    requires i < |xs| && p(xs[i])
    requires forall j :: 0 <= j < i ==> !p(xs[j])
    ensures First(xs, p) == Some(i)
  {
  }

  // ---------------------------------------------------------------------
  // Finding the password

  /**
   * The passwords given to test_connection, in order, and the one that
   * connected; None makes the script exit with status 1.
   */
  datatype Attempt = Attempt(tried: seq<string>, password: Option<string>)

  /** The answers to the three getpass prompts. */
  function Typed(answer: nat -> string): (typed: seq<string>)
    ensures |typed| == Attempts
    ensures forall i :: 0 <= i < Attempts ==> typed[i] == answer(i)
  {
    [answer(0), answer(1), answer(2)]
  }

  /** The search over one list of candidates, stopping at the first that connects. */
  function FirstOf(cands: seq<string>, connects: string -> bool): Attempt {
    match First(cands, connects)
    case Some(i) => Attempt(cands[..i + 1], Some(cands[i]))
    case None => Attempt(cands, None)
  }

  /** main's two phases: the common passwords, then, only if none connected, the typed ones. */
  function Choose(connects: string -> bool, answer: nat -> string): Attempt {
    match First(CommonPasswords, connects)
    case Some(i) => Attempt(CommonPasswords[..i + 1], Some(CommonPasswords[i]))
    case None =>
      var typed := Typed(answer);
      match First(typed, connects)
      case Some(j) => Attempt(CommonPasswords + typed[..j + 1], Some(typed[j]))
      case None => Attempt(CommonPasswords + typed, None)
  }

  /** The two loops of main, each left by break as soon as a password connects. */
  method ChoosePassword(connects: string -> bool, answer: nat -> string) returns (tried: seq<string>, password: Option<string>)
    ensures Attempt(tried, password) == Choose(connects, answer)
  {
    tried := [];
    password := None;
    var k := 0;
    while k < |CommonPasswords|
      invariant 0 <= k <= |CommonPasswords|
      invariant tried == CommonPasswords[..k] && password == None
      invariant forall j :: 0 <= j < k ==> !connects(CommonPasswords[j])
    {
      tried := tried + [CommonPasswords[k]];
      if connects(CommonPasswords[k]) {
        password := Some(CommonPasswords[k]);
        FirstIs(CommonPasswords, connects, k);
        break;
      }
      k := k + 1;
    }
    if password.None? {
      assert tried == CommonPasswords;
      assert First(CommonPasswords, connects).None?;
      var attempt := 0;
      while attempt < Attempts
        invariant 0 <= attempt <= Attempts
        invariant tried == CommonPasswords + Typed(answer)[..attempt] && password == None
        invariant forall j :: 0 <= j < attempt ==> !connects(answer(j))
      {
        var typed := answer(attempt);
        tried := tried + [typed];
        assert Typed(answer)[..attempt + 1] == Typed(answer)[..attempt] + [typed];
        if connects(typed) {
          password := Some(typed);
          FirstIs(Typed(answer), connects, attempt);
          break;
        }
        attempt := attempt + 1;
      }
      if password.None? {
        assert Typed(answer)[..Attempts] == Typed(answer);
      }
    }
  }

  /** The first position found in a concatenation, when the first part has none. */
  lemma FirstInSecond(a: seq<string>, b: seq<string>, p: string -> bool)
    requires First(a, p).None?
    ensures First(b, p).None? ==> First(a + b, p).None?
    ensures First(b, p).Some? ==> First(a + b, p) == Some(|a| + First(b, p).value)
  {
    var ab := a + b;
    assert forall j :: 0 <= j < |a| ==> ab[j] == a[j];
    assert forall j :: |a| <= j < |ab| ==> ab[j] == b[j - |a|];
    match First(b, p)
    case Some(i) =>
      FirstIs(ab, p, |a| + i);
    case None =>
      var r := First(ab, p);
  }

  /** The first position found in a concatenation, when the first part has one. */
  lemma FirstInFirst(a: seq<string>, b: seq<string>, p: string -> bool)
    requires First(a, p).Some?
    ensures First(a + b, p) == First(a, p)
  {
    var i := First(a, p).value;
    var ab := a + b;
    assert forall j :: 0 <= j <= i ==> ab[j] == a[j];
    FirstIs(ab, p, i);
  }

  /**
   * The two phases together are one search over the seven candidates,
   * common passwords first: the password found is the first candidate
   * that connects, everything before it was tried and failed, and nothing
   * after it is tried.
   */
  lemma ChooseIsOneSearch(connects: string -> bool, answer: nat -> string)
    ensures Choose(connects, answer) == FirstOf(CommonPasswords + Typed(answer), connects)
  {
    var all := CommonPasswords + Typed(answer);
    match First(CommonPasswords, connects)
    case Some(i) =>
      FirstInFirst(CommonPasswords, Typed(answer), connects);
      assert all[..i + 1] == CommonPasswords[..i + 1];
    case None =>
      FirstInSecond(CommonPasswords, Typed(answer), connects);
      match First(Typed(answer), connects)
      case Some(j) =>
        assert all[..|CommonPasswords| + j + 1] == CommonPasswords + Typed(answer)[..j + 1];
      case None =>
  }

  /** The search gives up, and the script exits, exactly when none of the seven candidates connects. */
  lemma GivesUpIffNoneConnects(connects: string -> bool, answer: nat -> string)
    ensures Choose(connects, answer).password.None? <==>
            (forall j :: 0 <= j < |CommonPasswords| ==> !connects(CommonPasswords[j]))
            && (forall a :: 0 <= a < Attempts ==> !connects(answer(a)))
  {
    var all := CommonPasswords + Typed(answer);
    ChooseIsOneSearch(connects, answer);
    if First(all, connects).None? {
      forall a | 0 <= a < Attempts ensures !connects(answer(a)) {
        assert all[|CommonPasswords| + a] == answer(a);
      }
      forall j | 0 <= j < |CommonPasswords| ensures !connects(CommonPasswords[j]) {
        assert all[j] == CommonPasswords[j];
      }
    } else {
      var i := First(all, connects).value;
      if i < |CommonPasswords| {
        assert all[i] == CommonPasswords[i];
      } else {
        assert all[i] == answer(i - |CommonPasswords|);
      }
    }
  }

  // ---------------------------------------------------------------------
  // Updating .env

  const PassKey: string := "DB_PASS="

  predicate IsPassLine(line: string) {
    StartsWith(line, PassKey)
  }

  /** The lines with the first DB_PASS= line, if any, replaced; no other line changes. */
  function RewriteLines(lines: seq<string>, password: string): (r: seq<string>) {
    match First(lines, IsPassLine)
    case None => lines
    case Some(i) => lines[i := PassKey + password]
  }

  /** What main writes back to .env. */
  function RewriteEnvText(content: string, password: string): string {
    Join(RewriteLines(Split(content, '\n'), password), '\n')
  }

  /** The loop over the lines of .env, left by break after the first DB_PASS= line. */
  method RewriteEnv(content: string, password: string) returns (text: string)
    ensures text == RewriteEnvText(content, password)
  {
    var lines := Split(content, '\n');
    ghost var original := lines;
    var i := 0;
    while i < |lines|
      invariant 0 <= i <= |lines| && lines == original
      invariant forall j :: 0 <= j < i ==> !IsPassLine(lines[j])
    {
      if StartsWith(lines[i], PassKey) {
        FirstIs(original, IsPassLine, i);
        lines := lines[i := PassKey + password];
        break;
      }
      i := i + 1;
    }
    text := Join(lines, '\n');
  }

  /**
   * The rewrite keeps the number of lines and every line but the first
   * DB_PASS= line, which becomes DB_PASS= and the password.
   */
  lemma RewriteLinesEffect(lines: seq<string>, password: string)
    ensures |RewriteLines(lines, password)| == |lines|
    ensures First(lines, IsPassLine).None? ==> RewriteLines(lines, password) == lines
    ensures First(lines, IsPassLine).Some? ==>
              var i := First(lines, IsPassLine).value;
              && RewriteLines(lines, password)[i] == PassKey + password
              && forall j :: 0 <= j < |lines| && j != i ==> RewriteLines(lines, password)[j] == lines[j]
  {
  }

  /** A .env without a DB_PASS= line is written back unchanged. */
  lemma NoPassLineUnchanged(content: string, password: string)
    requires First(Split(content, '\n'), IsPassLine).None?
    ensures RewriteEnvText(content, password) == content
  {
    JoinSplit(content, '\n');
  }

  lemma PassLineOfPassword(password: string)
    ensures IsPassLine(PassKey + password)
  {
    assert (PassKey + password)[..|PassKey|] == PassKey;
  }

  /**
   * Read back, the written .env splits into the rewritten lines, and its
   * first DB_PASS= line is where it was, now carrying the password (a
   * password without a line break).
   */
  lemma RewriteReadBack(content: string, password: string)
    requires '\n' !in password
    requires First(Split(content, '\n'), IsPassLine).Some?
    ensures var lines := Split(RewriteEnvText(content, password), '\n');
            && lines == RewriteLines(Split(content, '\n'), password)
            && First(lines, IsPassLine) == First(Split(content, '\n'), IsPassLine)
            && lines[First(lines, IsPassLine).value] == PassKey + password
  {
    var before := Split(content, '\n');
    var i := First(before, IsPassLine).value;
    var lines := RewriteLines(before, password);
    RewriteLinesEffect(before, password);
    assert forall j :: 0 <= j < |lines| ==> '\n' !in lines[j] by {
      forall j | 0 <= j < |lines| ensures '\n' !in lines[j] {
        if j != i {
          assert lines[j] == before[j];
        }
      }
    }
    SplitJoin(lines, '\n');
    PassLineOfPassword(password);
    FirstIs(lines, IsPassLine, i);
  }

  /** Running the script again with the same password leaves .env as it is. */
  lemma RewriteIdempotent(content: string, password: string)
    requires '\n' !in password
    ensures RewriteEnvText(RewriteEnvText(content, password), password) == RewriteEnvText(content, password)
  {
    var before := Split(content, '\n');
    if First(before, IsPassLine).Some? {
      RewriteReadBack(content, password);
      var lines := RewriteLines(before, password);
      assert RewriteLines(lines, password) == lines;
    } else {
      NoPassLineUnchanged(content, password);
      NoPassLineUnchanged(content, password);
    }
  }

  // ---------------------------------------------------------------------
  // main

  /** What main ends with: its exit status and the new .env text, if it wrote one. */
  datatype Outcome = Outcome(status: int, env: Option<string>)

  /**
   * main after the search: exit 1 with nothing written when no password
   * connected; otherwise .env is rewritten only when the database was
   * created and .env could be read.
   */
  function Setup(found: Attempt, created: bool, envText: Option<string>): (o: Outcome)
    ensures o.status == 1 <==> found.password.None?
    ensures o.env.Some? <==> found.password.Some? && created && envText.Some?
    ensures o.env.Some? ==> o.env.value == RewriteEnvText(envText.value, found.password.value)
  {
    match found.password
    case None => Outcome(1, None)
    case Some(password) =>
      if created && envText.Some? then Outcome(0, Some(RewriteEnvText(envText.value, password)))
      else Outcome(0, None)
  }
}
