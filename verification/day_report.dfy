/** One day of the report (`printForDaysAgo`): every repository is queried,
    each outcome becomes a `{folder, logs}` record, and the records are
    rendered as console output in discovery order. */
module DayReport {
  import opened Wrappers
  import JsString
  import Lines
  import Paths
  import GitQuery

  /** One repository's result for the day: its label and its commit text
      (`None` for JavaScript's `null`). */
  datatype RepoLogs = RepoLogs(folder: string, logs: Option<string>)

  /** The grey placeholder printed when no repository has commits for the day. */
  const Placeholder: string := "\U{1B}[90m" + "\tNo commits found." + "\U{1B}[0m"

  /** The outcome of one repository's query (after `getGitLogs` ran the oracle). */
  function Normalise(folderPath: string, gitLogs: Option<string>): (r: RepoLogs)
    ensures r.folder == Paths.Basename(folderPath)
    ensures r.logs.None? <==> gitLogs.None? || JsString.AllWhitespace(gitLogs.value)
    ensures r.logs.Some? ==> r.logs.value != [] && JsString.Trimmed(r.logs.value)
    ensures r.logs.Some? ==> exists i :: JsString.StrippedAt(gitLogs.value, i, r.logs.value)
  {
    match gitLogs
    // `gitLogs?.trim() || null`: the empty string is falsy
    case Some(out) =>
      var t := JsString.Trim(out);
      RepoLogs(Paths.Basename(folderPath), if t == [] then None else Some(t))
    // the `catch` branch
    case None => RepoLogs(Paths.Basename(folderPath), None)
  }

  /** The record for one repository on day `daysAgo`. */
  function QueryRepo(exec: GitQuery.Exec, folderPath: string, userName: string, daysAgo: nat): (r: RepoLogs)
    ensures r.folder == Paths.Basename(folderPath)
    ensures var outcome := exec(folderPath, GitQuery.LogCommand(userName, daysAgo));
      r.logs.None? <==> outcome.Rejected? || JsString.AllWhitespace(outcome.text)
    ensures r.logs.Some? ==> r.logs.value != [] && JsString.Trimmed(r.logs.value)
  {
    var gitLogs := GitQuery.GetGitLogs(exec, folderPath, userName, daysAgo);
    var r := Normalise(folderPath, gitLogs);
    assert gitLogs.Some? && JsString.AllWhitespace(gitLogs.value) ==> JsString.Trim(gitLogs.value) == [];
    r
  }

  /** The second trim changes nothing: a non-null `logs` is exactly the
      trimmed output of the query. */
  lemma QueryRepoLogs(exec: GitQuery.Exec, folderPath: string, userName: string, daysAgo: nat)
    ensures var outcome := exec(folderPath, GitQuery.LogCommand(userName, daysAgo));
      var r := QueryRepo(exec, folderPath, userName, daysAgo);
      r.logs.Some? ==> r.logs.value == JsString.Trim(outcome.text)
  {
    var outcome := exec(folderPath, GitQuery.LogCommand(userName, daysAgo));
    if outcome.Stdout? {
      JsString.TrimIdempotent(outcome.text);
    }
  }

  /** The records of all repositories for one day: one per folder, in the
      folders' order (`Promise.all` keeps the order of `map`). */
  function DayResults(exec: GitQuery.Exec, folderPaths: seq<string>, userName: string, daysAgo: nat): (rs: seq<RepoLogs>)
    ensures |rs| == |folderPaths|
    ensures forall i :: 0 <= i < |rs| ==> rs[i] == QueryRepo(exec, folderPaths[i], userName, daysAgo)
    ensures forall i :: 0 <= i < |rs| ==> rs[i].folder == Paths.Basename(folderPaths[i])
    ensures forall i :: 0 <= i < |rs| ==> rs[i].logs.Some? ==> rs[i].logs.value != []
  {
    seq(|folderPaths|, i requires 0 <= i < |folderPaths| => QueryRepo(exec, folderPaths[i], userName, daysAgo))
  }

  /** Failure isolation: a repository's record depends on its own query
      alone, whatever any other repository's query does. */
  lemma FailureIsolation(exec1: GitQuery.Exec, exec2: GitQuery.Exec, folderPaths: seq<string>,
                         userName: string, daysAgo: nat, i: nat)
    requires i < |folderPaths|
    requires exec1(folderPaths[i], GitQuery.LogCommand(userName, daysAgo))
          == exec2(folderPaths[i], GitQuery.LogCommand(userName, daysAgo))
    ensures DayResults(exec1, folderPaths, userName, daysAgo)[i] == DayResults(exec2, folderPaths, userName, daysAgo)[i]
  {
  }

  /** `if (logs)`: JavaScript truthiness of `string | null`. */
  predicate HasLogs(r: RepoLogs) {
    r.logs.Some? && r.logs.value != []
  }

  /** `results.every(({ logs }) => !logs)` */
  predicate NoneHasLogs(rs: seq<RepoLogs>) {
    forall i :: 0 <= i < |rs| ==> !HasLogs(rs[i])
  }

  /** Number of records that render a block. */
  function CountWithLogs(rs: seq<RepoLogs>): (n: nat)
    ensures n <= |rs|
  {
    if rs == [] then 0 else (if HasLogs(rs[0]) then 1 else 0) + CountWithLogs(rs[1..])
  }

  /** No block is printed exactly when no record has commits, which is when
      the placeholder is printed instead. */
  lemma {:induction false} NoBlocksIffNoneHasLogs(rs: seq<RepoLogs>)
    ensures CountWithLogs(rs) == 0 <==> NoneHasLogs(rs)
  {
    if rs != [] {
      NoBlocksIffNoneHasLogs(rs[1..]);
      if NoneHasLogs(rs[1..]) && !HasLogs(rs[0]) {
        forall i | 0 <= i < |rs|
          ensures !HasLogs(rs[i])
        {
          if i > 0 {
            assert rs[i] == rs[1..][i - 1];
          }
        }
      } else if !HasLogs(rs[0]) {
        var j :| 0 <= j < |rs[1..]| && HasLogs(rs[1..][j]);
        assert rs[j + 1] == rs[1..][j];
      }
    }
  }

  /** The console text for one repository with commits: a tab-indented label,
      then the commit lines under it, each indented by two tabs. */
  function RepoBlock(folder: string, logs: string): string {
    "\t" + folder + ":\n" + Lines.Indent + Lines.Reindent(logs)
  }

  /** The records that render a block, in record order (`if (logs)`). */
  function Shown(rs: seq<RepoLogs>): (shown: seq<RepoLogs>)
    ensures |shown| == CountWithLogs(rs)
    ensures forall k :: 0 <= k < |shown| ==> HasLogs(shown[k])
  {
    if rs == [] then []
    else (if HasLogs(rs[0]) then [rs[0]] else []) + Shown(rs[1..])
  }

  /** The blocks of all records with commits, in record order. */
  function RepoBlocks(rs: seq<RepoLogs>): (blocks: seq<string>)
    ensures |blocks| == CountWithLogs(rs)
    ensures forall k :: 0 <= k < |blocks| ==> blocks[k] != [] && blocks[k][0] == '\t'
  {
    var shown := Shown(rs);
    seq(|shown|, k requires 0 <= k < |shown| => RepoBlock(shown[k].folder, shown[k].logs.value))
  }

  /** The `console.log` arguments of one day's body. */
  function DayBody(rs: seq<RepoLogs>): (lines: seq<string>)
    ensures Placeholder in lines <==> NoneHasLogs(rs)
    ensures NoneHasLogs(rs) ==> lines == [Placeholder]
    ensures !NoneHasLogs(rs) ==> lines == RepoBlocks(rs) && |lines| == CountWithLogs(rs)
  {
    var blocks := RepoBlocks(rs);
    NoBlocksIffNoneHasLogs(rs);
    assert Placeholder !in blocks by {
      assert Placeholder[0] != '\t';
    }
    blocks + (if NoneHasLogs(rs) then [Placeholder] else [])
  }

  /** Ordering: the block of the `i`-th record, when it has commits, is
      printed after exactly those of the earlier records that have commits. */
  lemma BlockPosition(rs: seq<RepoLogs>, i: nat)
    requires i < |rs| && HasLogs(rs[i])
    ensures var k := CountWithLogs(rs[..i]);
      k < |RepoBlocks(rs)| && RepoBlocks(rs)[k] == RepoBlock(rs[i].folder, rs[i].logs.value)
  {
    ShownPosition(rs, i);
  }

  /** A shown record sits after exactly the earlier shown records. */
  lemma {:induction false} ShownPosition(rs: seq<RepoLogs>, i: nat)
    requires i < |rs| && HasLogs(rs[i])
    ensures var k := CountWithLogs(rs[..i]);
      k < |Shown(rs)| && Shown(rs)[k] == rs[i]
  {
    var h := if HasLogs(rs[0]) then [rs[0]] else [];
    var t := Shown(rs[1..]);
    assert Shown(rs) == h + t;
    if i > 0 {
      ShownPosition(rs[1..], i - 1);
      CountPrefix(rs, i);
      var k' := CountWithLogs(rs[1..][..i - 1]);
      assert CountWithLogs(rs[..i]) == |h| + k';
      assert (h + t)[|h| + k'] == t[k'];
    } else {
      assert rs[..0] == [];
      assert CountWithLogs(rs[..0]) == 0;
      assert h == [rs[0]];
    }
  }

  /** Conversely, every block belongs to a record with commits: the `k`-th
      block is that of the record with exactly `k` earlier records with commits. */
  lemma BlockOrigin(rs: seq<RepoLogs>, k: nat)
    requires k < |RepoBlocks(rs)|
    ensures exists i ::
              && 0 <= i < |rs| && HasLogs(rs[i]) && CountWithLogs(rs[..i]) == k
              && RepoBlocks(rs)[k] == RepoBlock(rs[i].folder, rs[i].logs.value)
  {
    var i := ShownOrigin(rs, k);
    BlockPosition(rs, i);
  }

  /** The record behind the `k`-th shown one. */
  lemma {:induction false} ShownOrigin(rs: seq<RepoLogs>, k: nat) returns (i: nat)
    requires k < |Shown(rs)|
    ensures i < |rs| && HasLogs(rs[i]) && CountWithLogs(rs[..i]) == k
  {
    var h := if HasLogs(rs[0]) then [rs[0]] else [];
    var t := Shown(rs[1..]);
    assert Shown(rs) == h + t;
    if HasLogs(rs[0]) && k == 0 {
      i := 0;
      assert rs[..0] == [];
    } else {
      var i' := ShownOrigin(rs[1..], k - |h|);
      i := i' + 1;
      CountPrefix(rs, i);
      assert rs[1..][..i - 1] == rs[1..][..i'];
    }
  }

  lemma CountPrefix(rs: seq<RepoLogs>, i: nat)
    requires 0 < i <= |rs|
    ensures CountWithLogs(rs[..i]) == (if HasLogs(rs[0]) then 1 else 0) + CountWithLogs(rs[1..][..i - 1])
  {
    assert rs[..i][1..] == rs[1..][..i - 1];
    assert rs[..i][0] == rs[0];
  }

  /** A block shows the lines of its label (one, unless the folder name
      holds a line feed), then every physical line of the commit text
      indented by two tabs. */
  lemma RepoBlockLines(folder: string, logs: string)
    ensures Lines.SplitLines(RepoBlock(folder, logs))
         == Lines.SplitLines("\t" + folder + ":") + Lines.IndentAll(Lines.SplitLines(logs))
  {
    var lbl := "\t" + folder + ":";
    var rest := Lines.Indent + Lines.Reindent(logs);
    assert RepoBlock(folder, logs) == lbl + "\n" + rest;
    Lines.SplitLinesAround(lbl, rest);
    Lines.IndentedLines(logs);
  }

  /** The commit text is recoverable from its block: after the label and the
      first indentation, removing the indentation gives `logs` back. */
  lemma RepoBlockRecoversLogs(folder: string, logs: string)
    ensures var b := RepoBlock(folder, logs);
      var head := "\t" + folder + ":\n" + Lines.Indent;
      && b[..|head|] == head
      && Lines.Unindent(b[|head|..]) == logs
  {
    var head := "\t" + folder + ":\n" + Lines.Indent;
    var b := RepoBlock(folder, logs);
    assert b == head + Lines.Reindent(logs);
    assert b[|head|..] == Lines.Reindent(logs);
    Lines.UnindentReindent(logs);
  }

  /** A block has the line feeds of its label and of its commit text, and
      one more: the one after the label. */
  lemma RepoBlockNewlines(folder: string, logs: string)
    ensures Lines.NewlineCount(RepoBlock(folder, logs))
         == Lines.NewlineCount(folder) + 1 + Lines.NewlineCount(logs)
  {
    var lbl := "\t" + folder + ":";
    RepoBlockLines(folder, logs);
    Lines.NewlineCountAppend("\t" + folder, ":");
    Lines.NewlineCountAppend("\t", folder);
    assert Lines.NewlineCount(":") == 0 && Lines.NewlineCount("\t") == 0;
  }

  /** A repository whose query printed something other than white space is
      shown with its trimmed output, whatever the other repositories' queries
      did: the block for folder `i` is among the day's lines. */
  lemma CommitsShown(exec: GitQuery.Exec, folderPaths: seq<string>, userName: string, daysAgo: nat, i: nat)
    requires i < |folderPaths|
    requires var outcome := exec(folderPaths[i], GitQuery.LogCommand(userName, daysAgo));
      outcome.Stdout? && !JsString.AllWhitespace(outcome.text)
    ensures var outcome := exec(folderPaths[i], GitQuery.LogCommand(userName, daysAgo));
      RepoBlock(Paths.Basename(folderPaths[i]), JsString.Trim(outcome.text))
        in DayBody(DayResults(exec, folderPaths, userName, daysAgo))
  {
    var rs := DayResults(exec, folderPaths, userName, daysAgo);
    assert rs[i] == QueryRepo(exec, folderPaths[i], userName, daysAgo);
    QueryRepoLogs(exec, folderPaths[i], userName, daysAgo);
    BlockInBody(rs, i);
  }

  /** The block of a record with commits is one of the day's lines. */
  lemma BlockInBody(rs: seq<RepoLogs>, i: nat)
    requires i < |rs| && HasLogs(rs[i])
    ensures RepoBlock(rs[i].folder, rs[i].logs.value) in DayBody(rs)
  {
    BlockPosition(rs, i);
    assert !NoneHasLogs(rs);
  }

  /** Conversely, every line of the day is the placeholder or the block of a
      repository whose query printed something other than white space. */
  lemma LinesFromQueries(exec: GitQuery.Exec, folderPaths: seq<string>, userName: string, daysAgo: nat, k: nat)
    requires k < |DayBody(DayResults(exec, folderPaths, userName, daysAgo))|
    ensures var line := DayBody(DayResults(exec, folderPaths, userName, daysAgo))[k];
      || line == Placeholder
      || exists i :: 0 <= i < |folderPaths| && QueryShows(exec, folderPaths[i], userName, daysAgo, line)
  {
    var rs := DayResults(exec, folderPaths, userName, daysAgo);
    if !NoneHasLogs(rs) {
      var i := ShownOrigin(rs, k);
      BlockPosition(rs, i);
      QueryRepoLogs(exec, folderPaths[i], userName, daysAgo);
      assert QueryShows(exec, folderPaths[i], userName, daysAgo, DayBody(rs)[k]);
    }
  }

  /** `line` is the block the query of `folderPath` gives rise to. */
  ghost predicate QueryShows(exec: GitQuery.Exec, folderPath: string, userName: string, daysAgo: nat, line: string) {
    var outcome := exec(folderPath, GitQuery.LogCommand(userName, daysAgo));
    && outcome.Stdout?
    && !JsString.AllWhitespace(outcome.text)
    && line == RepoBlock(Paths.Basename(folderPath), JsString.Trim(outcome.text))
  }

  /** On the records the program builds, truthiness of `logs` is just
      non-nullness, so the placeholder appears exactly when every
      repository's `logs` is `null` (in particular for no repositories). */
  lemma PlaceholderIffAllNull(exec: GitQuery.Exec, folderPaths: seq<string>, userName: string, daysAgo: nat)
    ensures var rs := DayResults(exec, folderPaths, userName, daysAgo);
      Placeholder in DayBody(rs) <==> forall i :: 0 <= i < |rs| ==> rs[i].logs.None?
  {
  }
}
