/** The program's two calls to `git`: reading the configured user name, and
    the per-repository `git log` query for one day offset. Running a command
    is an oracle: the model builds the command line and the working
    directory, and the oracle says what the process gave back. */
module GitQuery {
  import opened Wrappers
  import JsString
  import Decimal

  /** What `execAsync` settles with: the captured standard output, or a
      rejection (git missing, non-zero exit status, not a repository, ...). */
  datatype ExecOutcome = Stdout(text: string) | Rejected

  /** Runs a command line in a working directory. */
  type Exec = (string, string) -> ExecOutcome

  const UserNameCommand: string := "git config user.name"

  /** `getGitUserName`: the trimmed configured name, or `None` when the
      command is rejected (the program then aborts). */
  function GetGitUserName(outcome: ExecOutcome): (name: Option<string>)
    ensures name.None? <==> outcome.Rejected?
    ensures name.Some? ==> JsString.Trimmed(name.value)
    ensures name.Some? ==> exists i :: JsString.StrippedAt(outcome.text, i, name.value)
  {
    match outcome
    case Stdout(text) => Some(JsString.Trim(text))
    case Rejected => None
  }

  /** `"x"`: `x` between double quotes. */
  function Quote(x: string): string {
    "\"" + x + "\""
  }

  /** ` flag"value"`: one option of the query line, its value quoted. */
  function Arg(flag: string, value: string): string {
    " " + flag + Quote(value)
  }

  /** The command line of one day's query: the author verbatim, the same
      decimal offset in both window bounds, and one subject line per commit. */
  function LogCommand(userName: string, daysAgo: nat): string {
    var n := Decimal.NatToString(daysAgo);
    "git log" + (Arg("--author=", userName)
      + (Arg("--since=", n + " days ago 00:00")
      + (Arg("--until=", n + " days ago 23:59")
      + Arg("--pretty=format:", "%s"))))
  }

  /** `getGitLogs`: the trimmed output of the query run in `folder`, or
      `None` when the promise rejects. */
  function GetGitLogs(exec: Exec, folder: string, userName: string, daysAgo: nat): (logs: Option<string>)
    ensures logs.None? <==> exec(folder, LogCommand(userName, daysAgo)).Rejected?
    ensures logs.Some? ==> JsString.Trimmed(logs.value)
    ensures logs.Some? ==> exists i :: JsString.StrippedAt(exec(folder, LogCommand(userName, daysAgo)).text, i, logs.value)
  {
    match exec(folder, LogCommand(userName, daysAgo))
    case Stdout(text) => Some(JsString.Trim(text))
    case Rejected => None
  }

  /** The words `sh` splits a command line into, for lines whose only special
      characters are spaces and double quotes: an unquoted space ends a word,
      a double quote switches quoting on or off and is itself dropped.
      `quoted` says whether a quote is open, `word` is the word read so far and
      `inWord` whether one has started (`""` starts an empty word). */
  function Scan(s: string, quoted: bool, word: string, inWord: bool): seq<string> {
    if s == [] then (if inWord then [word] else [])
    else if s[0] == '"' then Scan(s[1..], !quoted, word, true)
    else if s[0] == ' ' && !quoted then
      (if inWord then [word] else []) + Scan(s[1..], false, [], false)
    else Scan(s[1..], quoted, word + [s[0]], true)
  }

  function ShellWords(s: string): seq<string> {
    Scan(s, false, [], false)
  }

  /** Ordinary characters join the current word. */
  lemma {:induction false} ScanPlain(a: string, b: string, quoted: bool, word: string, inWord: bool)
    requires '"' !in a && (quoted || ' ' !in a)
    ensures Scan(a + b, quoted, word, inWord) == Scan(b, quoted, word + a, inWord || a != [])
  {
    if a == [] {
      assert a + b == b && word + a == word;
    } else {
      assert a[0] in a;
      assert (a + b)[0] == a[0] && (a + b)[1..] == a[1..] + b;
      assert '"' !in a[1..] && (quoted || ' ' !in a[1..]);
      ScanPlain(a[1..], b, quoted, word + [a[0]], true);
      assert word + [a[0]] + a[1..] == word + a;
    }
  }

  /** An option ends the word before it and leaves `flag` and its unquoted
      value as the word being read. */
  lemma ScanArg(flag: string, value: string, b: string, word: string)
    requires '"' !in flag && ' ' !in flag && '"' !in value
    ensures Scan(Arg(flag, value) + b, false, word, true) == [word] + Scan(b, false, flag + value, true)
  {
    var r3 := "\"" + b;
    var r2 := value + r3;
    var r1 := "\"" + r2;
    var r0 := flag + r1;
    assert Arg(flag, value) + b == " " + r0;
    assert (" " + r0)[0] == ' ' && (" " + r0)[1..] == r0;
    ScanPlain(flag, r1, false, [], false);
    assert [] + flag == flag;
    assert r1[0] == '"' && r1[1..] == r2;
    ScanPlain(value, r3, true, flag, true);
    assert r3[0] == '"' && r3[1..] == b;
  }

  /** `git log` starts every query line. */
  lemma ScanGitLog(b: string)
    ensures Scan("git log" + b, false, [], false) == ["git"] + Scan(b, false, "log", true)
  {
    var r := "log" + b;
    assert "git log" + b == "git" + (" " + r);
    ScanPlain("git", " " + r, false, [], false);
    assert [] + "git" == "git";
    assert (" " + r)[0] == ' ' && (" " + r)[1..] == r;
    ScanPlain("log", b, false, [], false);
    assert [] + "log" == "log";
  }

  /** The last two options of the query line. */
  lemma ScanWindowEnd(until: string, word: string)
    requires '"' !in until
    ensures Scan(Arg("--until=", until) + Arg("--pretty=format:", "%s"), false, word, true)
         == [word, "--until=" + until, "--pretty=format:%s"]
  {
    var last := Arg("--pretty=format:", "%s");
    ScanArg("--until=", until, last, word);
    assert last + [] == last;
    ScanArg("--pretty=format:", "%s", [], "--until=" + until);
    assert "--pretty=format:" + "%s" == "--pretty=format:%s";
    assert Scan([], false, "--pretty=format:%s", true) == ["--pretty=format:%s"];
  }

  /** The words of a query line built from any quote-free pieces. */
  lemma ScanQuery(userName: string, since: string, until: string)
    requires '"' !in userName && '"' !in since && '"' !in until
    ensures ShellWords("git log" + (Arg("--author=", userName)
      + (Arg("--since=", since)
      + (Arg("--until=", until)
      + Arg("--pretty=format:", "%s")))))
      == ["git", "log", "--author=" + userName, "--since=" + since, "--until=" + until, "--pretty=format:%s"]
  {
    var t2 := Arg("--until=", until) + Arg("--pretty=format:", "%s");
    var t1 := Arg("--since=", since) + t2;
    var t0 := Arg("--author=", userName) + t1;
    ScanGitLog(t0);
    ScanArg("--author=", userName, t1, "log");
    ScanArg("--since=", since, t2, "--author=" + userName);
    ScanWindowEnd(until, "--since=" + since);
  }

  lemma NoQuoteInWindow(n: string, suffix: string)
    requires Decimal.AllDigits(n) && '"' !in suffix
    ensures '"' !in n + suffix
  {
    assert forall i :: 0 <= i < |n| ==> n[i] != '"';
  }

  /** Split into words as `sh` does, the query passes git the options
      `--author=` with the user name verbatim, `--since=` and `--until=` with
      the bounds of the same day `daysAgo` days back, and the subject-only
      format `%s`. */
  lemma LogCommandWords(userName: string, daysAgo: nat)
    requires '"' !in userName
    ensures var words := ShellWords(LogCommand(userName, daysAgo));
      var n := Decimal.NatToString(daysAgo);
      && words == ["git", "log", "--author=" + userName, "--since=" + n + " days ago 00:00",
                   "--until=" + n + " days ago 23:59", "--pretty=format:%s"]
      && Decimal.LeadingNumber(words[3][|"--since="|..]) == daysAgo
      && Decimal.LeadingNumber(words[4][|"--until="|..]) == daysAgo
  {
    var n := Decimal.NatToString(daysAgo);
    var since := n + " days ago 00:00";
    var until := n + " days ago 23:59";
    NoQuoteInWindow(n, " days ago 00:00");
    NoQuoteInWindow(n, " days ago 23:59");
    ScanQuery(userName, since, until);
    assert ("--since=" + since)[|"--since="|..] == since;
    assert ("--until=" + until)[|"--until="|..] == until;
    assert "--since=" + since == "--since=" + n + " days ago 00:00";
    assert "--until=" + until == "--until=" + n + " days ago 23:59";
    Decimal.LeadingNumberOf(daysAgo, " days ago 00:00");
    Decimal.LeadingNumberOf(daysAgo, " days ago 23:59");
  }
}
