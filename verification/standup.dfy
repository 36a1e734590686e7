/** The top level (`printLogs`): resolve the user name, discover the
    repositories once, then print one block per day offset `0..days`. */
module Standup {
  import opened Wrappers
  import JsString
  import Paths
  import GitQuery
  import DayReport

  /** `24 * 60 * 60 * 1000` */
  const MsPerDay: int := 86400000

  /** One `console.log` call. `DateHeader(ms)` stands for printing
      `new Date(ms).toDateString()`; `Text(s)` for printing `s`. */
  datatype Line = DateHeader(epochMs: int) | Text(text: string)

  /** The clock reading, in milliseconds since the epoch, taken by `new Date()`
      on iteration `i` of the day loop. */
  type Clock = nat -> int

  /** The instant `i` whole days before `now` (`now - i * 24 * 60 * 60 * 1000`). */
  function DaysBefore(now: int, i: nat): int {
    now - i * MsPerDay
  }

  /** Number of loop iterations for `--days days`: the offsets `0..days`. */
  function DayCount(days: int): (n: nat)
    ensures days >= 0 ==> n == days + 1
    ensures days < 0 ==> n == 0
  {
    if days < 0 then 0 else days + 1
  }

  function Texts(ss: seq<string>): (ls: seq<Line>)
    ensures |ls| == |ss|
    ensures forall k :: 0 <= k < |ss| ==> ls[k] == Text(ss[k])
  {
    seq(|ss|, k requires 0 <= k < |ss| => Text(ss[k]))
  }

  /** Iteration `i` of the day loop: the date header, the day's body, the separator. */
  function DayBlock(exec: GitQuery.Exec, folderPaths: seq<string>, userName: string, clock: Clock, i: nat): seq<Line> {
    Framed(DaysBefore(clock(i), i), DayReport.DayBody(DayReport.DayResults(exec, folderPaths, userName, i)))
  }

  /** `console.log(day.toDateString())`, the body, then `console.log('\n')`. */
  function Framed(ts: int, body: seq<string>): seq<Line> {
    [DateHeader(ts)] + Texts(body) + [Text("\n")]
  }

  /** The blocks of the first `n` iterations of the day loop, by offset. */
  function DayBlocks(exec: GitQuery.Exec, folderPaths: seq<string>, userName: string, clock: Clock, n: nat): (bs: seq<seq<Line>>)
    ensures |bs| == n
    ensures forall i :: 0 <= i < n ==> bs[i] == DayBlock(exec, folderPaths, userName, clock, i)
  {
    seq(n, i requires 0 <= i < n => DayBlock(exec, folderPaths, userName, clock, i))
  }

  /** Blocks printed one after the other. */
  function Flatten(bs: seq<seq<Line>>): seq<Line> {
    if bs == [] then [] else Flatten(bs[..|bs| - 1]) + bs[|bs| - 1]
  }

  /** The timestamps of the date headers among `ls`, in output order. */
  function Headers(ls: seq<Line>): seq<int> {
    if ls == [] then []
    else (if ls[0].DateHeader? then [ls[0].epochMs] else []) + Headers(ls[1..])
  }

  lemma {:induction false} HeadersAppend(a: seq<Line>, b: seq<Line>)
    ensures Headers(a + b) == Headers(a) + Headers(b)
  {
    if a != [] {
      HeadersAppend(a[1..], b);
      assert (a + b)[1..] == a[1..] + b;
    } else {
      assert a + b == b;
    }
  }

  lemma {:induction false} HeadersOfTexts(ss: seq<string>)
    ensures Headers(Texts(ss)) == []
  {
    if ss != [] {
      HeadersOfTexts(ss[1..]);
      assert Texts(ss)[1..] == Texts(ss[1..]);
    }
  }

  /** A header, lines of text and the separator hold just that one header. */
  lemma FramedHeaders(ts: int, body: seq<string>)
    ensures var b := Framed(ts, body);
      && |b| == |body| + 2 && b[0] == DateHeader(ts) && b[1..|b| - 1] == Texts(body)
      && b[|b| - 1] == Text("\n") && Headers(b) == [ts]
  {
    var h := [DateHeader(ts)];
    assert Framed(ts, body)[1..|body| + 1] == Texts(body);
    HeadersAppend(h, Texts(body));
    HeadersAppend(h + Texts(body), [Text("\n")]);
    HeadersOfTexts(body);
    assert Headers(h) == [ts] by {
      assert h[1..] == [];
    }
    assert Headers([Text("\n")]) == [] by {
      assert [Text("\n")][1..] == [];
    }
  }

  /** A day block opens with its date header, dated `i` days before the clock
      reading, then prints the report for offset `i`, ends with the separator,
      and holds no other header. */
  lemma DayBlockShape(exec: GitQuery.Exec, folderPaths: seq<string>, userName: string, clock: Clock, i: nat)
    ensures var b := DayBlock(exec, folderPaths, userName, clock, i);
      var body := DayReport.DayBody(DayReport.DayResults(exec, folderPaths, userName, i));
      && |b| == |body| + 2
      && b[0] == DateHeader(DaysBefore(clock(i), i))
      && b[1..|b| - 1] == Texts(body)
      && b[|b| - 1] == Text("\n")
      && Headers(b) == [DaysBefore(clock(i), i)]
  {
    var ts := DaysBefore(clock(i), i);
    var body := DayReport.DayBody(DayReport.DayResults(exec, folderPaths, userName, i));
    assert DayBlock(exec, folderPaths, userName, clock, i) == Framed(ts, body);
    FramedHeaders(ts, body);
  }

  /** A day prints the grey placeholder exactly when every repository's
      `logs` for that offset is `null` (so always when there are no repositories). */
  lemma DayPlaceholder(exec: GitQuery.Exec, folderPaths: seq<string>, userName: string, clock: Clock, i: nat)
    ensures var rs := DayReport.DayResults(exec, folderPaths, userName, i);
      (Text(DayReport.Placeholder) in DayBlock(exec, folderPaths, userName, clock, i))
        <==> (forall j :: 0 <= j < |rs| ==> rs[j].logs.None?)
  {
    var body := DayReport.DayBody(DayReport.DayResults(exec, folderPaths, userName, i));
    var b := DayBlock(exec, folderPaths, userName, clock, i);
    DayBlockShape(exec, folderPaths, userName, clock, i);
    assert DayReport.Placeholder != "\n" by {
      assert DayReport.Placeholder[0] != '\n';
    }
    assert b == [b[0]] + b[1..|b| - 1] + [b[|b| - 1]];
    TextIn(body, DayReport.Placeholder);
    DayReport.PlaceholderIffAllNull(exec, folderPaths, userName, i);
  }

  lemma TextIn(ss: seq<string>, x: string)
    ensures Text(x) in Texts(ss) <==> x in ss
  {
    if x in ss {
      var k :| 0 <= k < |ss| && ss[k] == x;
      assert Texts(ss)[k] == Text(x);
    }
  }

  /** Printing blocks that each hold one date header prints those headers in block order. */
  lemma {:induction false} FlattenHeaders(bs: seq<seq<Line>>)
    requires forall i :: 0 <= i < |bs| ==> |Headers(bs[i])| == 1
    ensures var hs := Headers(Flatten(bs));
      |hs| == |bs| && forall i :: 0 <= i < |bs| ==> hs[i] == Headers(bs[i])[0]
  {
    if bs != [] {
      var init := bs[..|bs| - 1];
      var last := bs[|bs| - 1];
      FlattenHeaders(init);
      HeadersAppend(Flatten(init), last);
      assert Headers(last) == [Headers(last)[0]];
    }
  }

  /** Where the block of offset `k` starts: after the header, body and
      separator of every earlier offset. The clock does not affect it. */
  function DayOffset(exec: GitQuery.Exec, folderPaths: seq<string>, userName: string, k: nat): nat {
    if k == 0 then 0
    else
      var body := DayReport.DayBody(DayReport.DayResults(exec, folderPaths, userName, k - 1));
      DayOffset(exec, folderPaths, userName, k - 1) + |body| + 2
  }

  /** At position `o`, `out` prints the date header `ts`, then `body`, then the separator. */
  predicate PrintsDayAt(out: seq<Line>, o: nat, ts: int, body: seq<string>) {
    && o + |body| + 2 <= |out|
    && out[o] == DateHeader(ts)
    && out[o + 1..o + 1 + |body|] == Texts(body)
    && out[o + 1 + |body|] == Text("\n")
  }

  /** Everything the day loop's output is: `DayCount(days)` blocks back to
      back, block `k` at `DayOffset(k)` with its header, report and separator,
      and the date headers one per offset in offset order. */
  predicate DayLoopOutput(out: seq<Line>, days: int, exec: GitQuery.Exec, folderPaths: seq<string>,
                          userName: string, clock: Clock) {
    && |out| == DayOffset(exec, folderPaths, userName, DayCount(days))
    && (forall k :: 0 <= k < DayCount(days) ==>
          PrintsDayAt(out, DayOffset(exec, folderPaths, userName, k), DaysBefore(clock(k), k),
                      DayReport.DayBody(DayReport.DayResults(exec, folderPaths, userName, k))))
    && |Headers(out)| == DayCount(days)
    && (forall k :: 0 <= k < |Headers(out)| ==> Headers(out)[k] == DaysBefore(clock(k), k))
  }

  /** `printLogs`' loop: `for (let i = 0; i <= days; i++)`. The output is
      the blocks of offsets `0, 1, ..., days` back to back, in that order:
      the block of offset `k` starts where the earlier ones end, with a date
      header `k` whole days before that iteration's clock reading, then the
      report for offset `k`, then the separator. The date headers are exactly
      one per offset. */
  method PrintLogs(days: int, exec: GitQuery.Exec, folderPaths: seq<string>, userName: string, clock: Clock)
    returns (out: seq<Line>)
    ensures DayLoopOutput(out, days, exec, folderPaths, userName, clock)
  {
    out := [];
    var i: nat := 0;
    while i <= days
      invariant i <= DayCount(days)
      invariant out == Flatten(DayBlocks(exec, folderPaths, userName, clock, i))
    {
      DayBlocksStep(exec, folderPaths, userName, clock, i);
      out := out + DayBlock(exec, folderPaths, userName, clock, i);
      i := i + 1;
    }
    assert i == DayCount(days);
    DayLoopHeaders(exec, folderPaths, userName, clock, i);
    DayLoopLength(exec, folderPaths, userName, clock, i);
    forall k | 0 <= k < i
      ensures PrintsDayAt(out, DayOffset(exec, folderPaths, userName, k), DaysBefore(clock(k), k),
                          DayReport.DayBody(DayReport.DayResults(exec, folderPaths, userName, k)))
    {
      DayAt(exec, folderPaths, userName, clock, i, k);
    }
  }

  /** The first `n` blocks take up `DayOffset(n)` lines. */
  lemma {:induction false} DayLoopLength(exec: GitQuery.Exec, folderPaths: seq<string>, userName: string, clock: Clock, n: nat)
    ensures |Flatten(DayBlocks(exec, folderPaths, userName, clock, n))| == DayOffset(exec, folderPaths, userName, n)
  {
    if n > 0 {
      DayLoopLength(exec, folderPaths, userName, clock, n - 1);
      DayBlocksStep(exec, folderPaths, userName, clock, n - 1);
      DayBlockShape(exec, folderPaths, userName, clock, n - 1);
    } else {
      assert DayBlocks(exec, folderPaths, userName, clock, 0) == [];
    }
  }

  /** The blocks printed first come first. */
  lemma {:induction false} FlattenPrefix(bs: seq<seq<Line>>, m: nat)
    requires m <= |bs|
    ensures Flatten(bs[..m]) <= Flatten(bs)
  {
    if m < |bs| {
      FlattenPrefix(bs[..|bs| - 1], m);
      assert bs[..|bs| - 1][..m] == bs[..m];
    } else {
      assert bs[..m] == bs;
    }
  }

  /** Block `k` of the first `n` sits at `DayOffset(k)`. */
  lemma DayAt(exec: GitQuery.Exec, folderPaths: seq<string>, userName: string, clock: Clock, n: nat, k: nat)
    requires k < n
    ensures PrintsDayAt(Flatten(DayBlocks(exec, folderPaths, userName, clock, n)),
                        DayOffset(exec, folderPaths, userName, k), DaysBefore(clock(k), k),
                        DayReport.DayBody(DayReport.DayResults(exec, folderPaths, userName, k)))
  {
    var bs := DayBlocks(exec, folderPaths, userName, clock, n);
    var ts := DaysBefore(clock(k), k);
    var body := DayReport.DayBody(DayReport.DayResults(exec, folderPaths, userName, k));
    BlockAt(bs, k);
    assert bs[..k] == DayBlocks(exec, folderPaths, userName, clock, k);
    assert bs[k] == Framed(ts, body);
    DayLoopLength(exec, folderPaths, userName, clock, k);
    FramedAt(Flatten(bs), Flatten(bs[..k]), ts, body);
  }

  /** Block `k` follows the blocks before it in the flattened output. */
  lemma BlockAt(bs: seq<seq<Line>>, k: nat)
    requires k < |bs|
    ensures Flatten(bs[..k]) + bs[k] <= Flatten(bs)
  {
    FlattenPrefix(bs, k + 1);
    var p := bs[..k + 1];
    assert p[..|p| - 1] == bs[..k] && p[|p| - 1] == bs[k];
  }

  /** A framed block inside the output, read back at its position. */
  lemma FramedAt(out: seq<Line>, before: seq<Line>, ts: int, body: seq<string>)
    requires before + Framed(ts, body) <= out
    ensures PrintsDayAt(out, |before|, ts, body)
  {
    var b := Framed(ts, body);
    FramedHeaders(ts, body);
    var o := |before|;
    assert out[o..o + |b|] == b by {
      assert (before + b)[o..] == b;
    }
    assert out[o + 1..o + 1 + |body|] == b[1..|b| - 1];
  }

  /** One more iteration appends one more block. */
  lemma DayBlocksStep(exec: GitQuery.Exec, folderPaths: seq<string>, userName: string, clock: Clock, i: nat)
    ensures Flatten(DayBlocks(exec, folderPaths, userName, clock, i + 1))
         == Flatten(DayBlocks(exec, folderPaths, userName, clock, i)) + DayBlock(exec, folderPaths, userName, clock, i)
  {
    var bs := DayBlocks(exec, folderPaths, userName, clock, i + 1);
    assert bs[..i] == DayBlocks(exec, folderPaths, userName, clock, i);
  }

  /** The date headers of the first `n` iterations: one per offset, in offset order. */
  lemma DayLoopHeaders(exec: GitQuery.Exec, folderPaths: seq<string>, userName: string, clock: Clock, n: nat)
    ensures var hs := Headers(Flatten(DayBlocks(exec, folderPaths, userName, clock, n)));
      |hs| == n && forall k :: 0 <= k < n ==> hs[k] == DaysBefore(clock(k), k)
  {
    var blocks := DayBlocks(exec, folderPaths, userName, clock, n);
    forall k | 0 <= k < n
      ensures |Headers(blocks[k])| == 1 && Headers(blocks[k])[0] == DaysBefore(clock(k), k)
    {
      DayBlockShape(exec, folderPaths, userName, clock, k);
    }
    FlattenHeaders(blocks);
  }

  /** How a run ends: all of standard output, or a rejection of `printLogs()`
      (the error goes to standard error and the exit status is 1). */
  datatype RunOutcome = Completed(stdout: seq<Line>) | Aborted

  /** A whole run in working directory `cwd`: `globMatches` is what `fast-glob`
      returned for the recursive `.git` pattern (`None` when it threw). Only the user-name lookup
      and the glob can abort the run; a failing repository query never does. */
  method Run(days: int, cwd: string, globMatches: Option<seq<string>>, exec: GitQuery.Exec, clock: Clock)
    returns (o: RunOutcome)
    ensures o.Aborted? <==> exec(cwd, GitQuery.UserNameCommand).Rejected? || globMatches.None?
    ensures o.Completed? ==> DayLoopOutput(o.stdout, days, exec, Paths.FindGitFolderPaths(globMatches.value),
                                           JsString.Trim(exec(cwd, GitQuery.UserNameCommand).text), clock)
  {
    var userName := GitQuery.GetGitUserName(exec(cwd, GitQuery.UserNameCommand));
    if userName.None? {
      return Aborted;
    }
    if globMatches.None? {
      return Aborted;
    }
    var folderPaths := Paths.FindGitFolderPaths(globMatches.value);
    var out := PrintLogs(days, exec, folderPaths, userName.value, clock);
    o := Completed(out);
  }
}
