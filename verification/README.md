# commit-standup in Dafny

`commit-standup` is a small Node.js command-line tool. It prints what the
current git user committed on each of the last `days` days, across every git
repository found under a folder. For each day offset `i` in `0..days` it
prints three things:

- the date `i` days ago;
- for every repository, in discovery order, the subject lines of that day's
  commits by the configured author, under the repository's folder name, or a
  grey "No commits found." when no repository has any;
- a separator.

This project models the program's logic in `src/main.ts` as pure functions
over strings and sequences:

- **Identity.** `getGitUserName` runs `git config user.name` and trims the
  output (`GitQuery.GetGitUserName`).
- **Repository discovery.** `findGitFolderPaths` turns each `.git` directory
  that the glob matched into its repository root. It does this by cutting the
  `/.git` suffix (`Paths.RepoRoot`, `Paths.FindGitFolderPaths`).
- **One day's query.** `getGitLogs` builds the `git log` command line for one
  day offset, runs it in the repository, and trims what it prints
  (`GitQuery.LogCommand`, `GitQuery.GetGitLogs`). Rendering the offset as a
  decimal numeral is modelled in `Decimal`.
- **One day's report.** `printForDaysAgo` first turns each repository's query
  into a `{folder, logs}` record (`DayReport.Normalise`, `QueryRepo`,
  `DayResults`):
  - a rejected query gives `null` (`None`);
  - output that is empty after trimming also gives `null`;
  - the folder label is the `path.basename` of the root (`Paths.Basename`).

  It then prints one block per record with commits, and the placeholder when
  there are none (`DayReport.DayBody`). A block is the label, then the commit
  text with every line feed re-indented by two tabs (`Lines.Reindent`).
- **The day loop.** `printLogs` loops `for (let i = 0; i <= days; i++)`
  (`Standup.PrintLogs`). A whole run, including the two ways it can abort, is
  `Standup.Run`.

JavaScript's `String.prototype.trim` is modelled exactly, with the white-space
set of ECMA-262, in `JsString`.

Three things outside the program become parameters:

- running a command is an oracle `Exec = (cwd, commandLine) -> Stdout(text) | Rejected`;
- the clock is `Clock = nat -> int`. It is read once per loop iteration,
  because the program calls `new Date()` inside the loop;
- what `fast-glob` returned is `Option<seq<string>>`, where `None` means the
  glob threw.

Console output is a sequence of `Standup.Line` values, one per `console.log`
call. `DateHeader(ms)` stands for printing `new Date(ms).toDateString()`, and
`Text(s)` stands for printing `s`.

## Model

| member | source | states |
|---|---|---|
| GitQuery.GetGitUserName | src/main.ts:12-15 | The name is absent exactly when the `git config user.name` call rejects. Otherwise it is the command's output with only white space removed from its two ends, and it neither starts nor ends with white space. |
| Paths.RepoRoot | src/main.ts:19 | The root is a prefix of the matched path. For a path ending in `/.git`, the root followed by `/.git` gives back the path. |
| Paths.FindGitFolderPaths | src/main.ts:17-20 | There is one root per glob match, in match order. Each root is a prefix of its match, and appending `/.git` recovers every match that ends in `/.git`. |
| Paths.Basename | src/main.ts:32 | A folder label never contains a path separator. |
| Paths.LastSegmentSuffix | src/main.ts:32 | The label is the tail of the path after its last separator: a suffix of the path, preceded by `/` unless it is the whole path. |
| Paths.BasenameOfChild | src/main.ts:32 | The basename of `dir/name`, with any trailing separators, is `name`. |
| Paths.LabelOfMatch | src/main.ts:19 | The repository found at `dir/name/.git` is labelled `name`. |
| Decimal.NatToString | src/main.ts:23 | The offset written into the command is a non-empty string of decimal digits. It has no leading zero unless the offset is 0. |
| Decimal.ParseNatToString | src/main.ts:23 | Reading the written numeral back gives the offset. |
| GitQuery.LogCommandWords | src/main.ts:23 | `LogCommand(userName, daysAgo)`, split into words as `sh` splits it, passes git exactly `git`, `log`, `--author=<name>` with the name verbatim, `--since=N days ago 00:00`, `--until=N days ago 23:59` and `--pretty=format:%s`. The number in both window bounds reads back as the day offset. This holds for any user name without a double quote. |
| GitQuery.GetGitLogs | src/main.ts:22-26 | The query runs in the repository folder with the day's command line. The result is absent exactly when that command rejects. Otherwise it is the output stripped of white space at both ends. |
| JsString.Trim | src/main.ts:25 | The trimmed string neither starts nor ends with white space. It sits inside the input with only white space around it, and it is empty exactly when the input is all white space. |
| JsString.TrimUnique | src/main.ts:25 | Any string with those two properties is the trimmed string, so they characterise `trim` completely. |
| JsString.TrimIdempotent | src/main.ts:32 | Trimming an already trimmed string changes nothing. |
| DayReport.Normalise | src/main.ts:30-35 | The label is the basename of the folder. `logs` is `null` exactly when the query threw or its output was all white space. A non-null `logs` is non-empty and trimmed, and it sits inside the query's output with only white space around it. With `JsString.TrimUnique`, that makes it the trimmed output. |
| DayReport.QueryRepo | src/main.ts:29-36 | The same three outcomes, stated in terms of the oracle's answer to this repository's command. |
| DayReport.QueryRepoLogs | src/main.ts:32 | A non-null `logs` is exactly the trimmed output of the query: the second trim adds nothing. |
| DayReport.DayResults | src/main.ts:29-38 | There is one record per discovered folder, in discovery order. Record `i` is the outcome of folder `i`'s own query, labelled with that folder's basename. No record holds an empty `logs` string. |
| DayReport.FailureIsolation | src/main.ts:29-38 | A repository's record depends only on its own query's outcome, whatever the other repositories' queries do. |
| DayReport.NoBlocksIffNoneHasLogs | src/main.ts:41-45 | No repository block is printed exactly when no record's `logs` is truthy. |
| DayReport.RepoBlocks | src/main.ts:40-44 | One block is printed per record with truthy `logs`. Every block starts with the tab before its label. |
| DayReport.BlockPosition | src/main.ts:40-44 | The block of record `i`, if it has commits, is `RepoBlock(folder, logs)`, which is `"\t" + folder + ":\n\t\t" + reindented logs`. It comes right after the blocks of the earlier records that have commits. |
| DayReport.BlockOrigin | src/main.ts:40-44 | Conversely, every printed block is the block of one record with commits, at the position given by the earlier records with commits. |
| DayReport.DayBody | src/main.ts:40-48 | The placeholder is printed exactly when no record has commits, and then it is the only line of the body. Otherwise the body is exactly the repository blocks, one per record with commits. |
| DayReport.CommitsShown | src/main.ts:29-44 | A repository whose query printed something other than white space has its block among the day's lines: its basename, then its trimmed output re-indented. This holds whatever the other repositories' queries did. |
| DayReport.LinesFromQueries | src/main.ts:29-48 | Every line of a day is either the placeholder or the block of a repository whose query printed something other than white space. |
| DayReport.PlaceholderIffAllNull | src/main.ts:45-48 | For the records the program builds, the placeholder appears exactly when every `logs` is `null`. This includes the case of no repositories. |
| DayReport.RepoBlockLines | src/main.ts:42 | On the console, a block shows the lines of `"\t" + folder + ":"`, then every line of the commit text with two tabs in front. That is one label line unless the folder name itself holds a line feed. |
| DayReport.RepoBlockRecoversLogs | src/main.ts:42 | After the label and the first indentation, removing the inserted tabs recovers the commit text exactly. |
| DayReport.RepoBlockNewlines | src/main.ts:42 | A block has the line feeds of its folder name and of its commit text, plus exactly one more, the one after the label. |
| Lines.Reindent | src/main.ts:42 | Re-indentation adds exactly two characters per line feed. |
| Lines.UnindentReindent | src/main.ts:42 | Deleting the two tabs after each line feed undoes the re-indentation. |
| Lines.ReindentKeepsNewlines | src/main.ts:42 | Re-indentation neither adds nor removes line feeds. |
| Lines.ReindentIndentsEveryLine | src/main.ts:42 | Every line feed of the re-indented text is followed by two tabs. |
| Lines.SplitReindent | src/main.ts:42 | Re-indentation keeps the first physical line and puts two tabs in front of every later one. |
| Lines.SplitLinesAround | src/main.ts:42 | The console lines of `a + "\n" + b` are the lines of `a` followed by the lines of `b`. |
| Lines.IndentedLines | src/main.ts:42 | With the leading two tabs, every physical line of the commit text is shown indented by two tabs. |
| Standup.DayBlockShape | src/main.ts:105-108 | Iteration `i`'s output `DayBlock(i)` prints its date header first. The header is dated `DaysBefore(clock(i), i)`, which is `i * 86400000` ms before that iteration's clock reading. It then prints exactly the report for offset `i`, and the separator last, with no other date header. |
| Standup.DayPlaceholder | src/main.ts:104-109 | Iteration `i` prints the grey placeholder exactly when every repository's `logs` for offset `i` is `null`. |
| Standup.DayLoopHeaders | src/main.ts:104-109 | The first `n` iterations print exactly `n` date headers, one per offset in increasing order, each dated from its own clock reading. |
| Standup.DayAt | src/main.ts:104-109 | In the output of the first `n` iterations, the block of offset `k` starts right after the blocks of the earlier offsets. It holds that offset's date header, report and separator. |
| Standup.PrintLogs | src/main.ts:104-109 | The output is the blocks for offsets `0, 1, ..., days`, back to back and in that order. Block `k` holds a date header dated `k` days before iteration `k`'s clock reading, then the report for offset `k`, then the separator. There are `DayCount(days)` date headers: `days + 1`, or none for negative `days`. |
| Standup.Run | src/main.ts:100-115 | The run aborts exactly when the user-name lookup rejects or the glob throws. Otherwise its output is the day loop, as `PrintLogs` describes it, over the roots of the glob matches with the trimmed user name. |

## Left out

- Argument parsing with `yargs`, the help and version text, and the option defaults (`src/main.ts:55-98`). This is configuration of a foreign library. `days` is taken as an integer parameter, and the folder, depth and ignore list only reach the glob.
- The matching done by `fast-glob` (`src/main.ts:18`): the `**/.git` pattern, `deep`, `ignore` and `absolute`. The library is not part of this model. Its result is an arbitrary sequence of paths, so depth bounds and exclusion pruning are not modelled.
- Spawning processes with `child_process.exec`. Each call is an oracle answer, and the model places no constraint on what git prints.
- `Promise.all` concurrency. `map` keeps the order and the per-repository queries are independent, so the fan-out is modelled as a sequential map.
- Calendar formatting by `toDateString`, time zones, and git's reading of `"N days ago 00:00"`. Only the integer millisecond arithmetic of `src/main.ts:105` is kept.
- Paths.Basename: models Node's POSIX `path.basename`, which ignores trailing `/` and takes the last segment. Windows separators are not modelled.
- Decimal.NatToString: renders only non-negative integers, which the loop counter always is. Exponent notation for numbers of `1e21` and above is not modelled.
- Standup.PrintLogs: `days` is an integer. With a fractional `--days` such as `2.5`, the source runs `floor(days) + 1` iterations. With `NaN` it runs none. Neither case is modelled.
- Strings are sequences of Unicode code points, not UTF-16 code units. This affects `substring` only for paths holding characters outside the Basic Multilingual Plane.
- GitQuery.LogCommandWords: the user name is pasted between double quotes without escaping, so the lemma assumes a name without `"`. `GitQuery.ShellWords` models only the shell's splitting at unquoted spaces and its removal of double quotes. Inside double quotes `sh` still expands `$`, backquotes and backslashes, and that is not modelled.
- Writing the error to standard error and `process.exit(1)` (`src/main.ts:112-115`). They are modelled only as the `Aborted` outcome.
- The separator `console.log('\n')` writes a line feed followed by the one `console.log` adds, so each day ends with two empty lines, not one. The model keeps the call as written: `Text("\n")`.
