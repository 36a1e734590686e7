/** The line structure of a repository's commit text: the program's
    `logs.replace(/\n/g, '\n\t\t')` re-indentation and the physical lines
    a string occupies once written to the console. */
module Lines {

  /** What the re-indentation puts after every line feed. */
  const Indent: string := "\t\t"

  function NewlineCount(s: string): nat {
    if s == [] then 0 else (if s[0] == '\n' then 1 else 0) + NewlineCount(s[1..])
  }

  /** `s.replace(/\n/g, '\n\t\t')`: every line feed followed by two tabs. */
  function Reindent(s: string): (r: string)
    ensures |r| == |s| + 2 * NewlineCount(s)
  {
    if s == [] then []
    else if s[0] == '\n' then "\n" + Indent + Reindent(s[1..])
    else [s[0]] + Reindent(s[1..])
  }

  /** Inverse of `Reindent`: drops the two tabs right after each line feed. */
  function Unindent(s: string): string {
    if |s| >= 3 && s[..3] == "\n" + Indent then "\n" + Unindent(s[3..])
    else if s == [] then []
    else [s[0]] + Unindent(s[1..])
  }

  /** Deleting the inserted tabs gives back the original commit text. */
  lemma {:induction false} UnindentReindent(s: string)
    ensures Unindent(Reindent(s)) == s
  {
    if s != [] {
      UnindentReindent(s[1..]);
      var t := Reindent(s[1..]);
      if s[0] == '\n' {
        assert ("\n" + Indent + t)[..3] == "\n" + Indent;
        assert ("\n" + Indent + t)[3..] == t;
      } else {
        assert ([s[0]] + t)[1..] == t;
      }
      assert s == [s[0]] + s[1..];
    }
  }

  lemma {:induction false} NewlineCountAppend(a: string, b: string)
    ensures NewlineCount(a + b) == NewlineCount(a) + NewlineCount(b)
  {
    if a != [] {
      NewlineCountAppend(a[1..], b);
      assert (a + b)[1..] == a[1..] + b;
    } else {
      assert a + b == b;
    }
  }

  /** Re-indentation neither adds nor removes line feeds. */
  lemma {:induction false} ReindentKeepsNewlines(s: string)
    ensures NewlineCount(Reindent(s)) == NewlineCount(s)
  {
    if s != [] {
      ReindentKeepsNewlines(s[1..]);
      var h := if s[0] == '\n' then "\n" + Indent else [s[0]];
      assert Reindent(s) == h + Reindent(s[1..]);
      NewlineCountAppend(h, Reindent(s[1..]));
      if s[0] == '\n' {
        assert h[1..] == "\t\t" && h[1..][1..] == "\t" && h[1..][1..][1..] == [];
        assert NewlineCount(h) == 1;
      } else {
        assert h[1..] == [];
      }
    }
  }

  /** Every line feed in `r` is followed by the indentation. */
  predicate IndentedAfterNewlines(r: string) {
    forall i :: 0 <= i < |r| && r[i] == '\n' ==> i + 2 < |r| && r[i + 1] == '\t' && r[i + 2] == '\t'
  }

  /** Every line feed of the re-indented text is followed by the indentation. */
  lemma {:induction false} ReindentIndentsEveryLine(s: string)
    ensures IndentedAfterNewlines(Reindent(s))
  {
    if s != [] {
      ReindentIndentsEveryLine(s[1..]);
      var t := Reindent(s[1..]);
      var r := Reindent(s);
      var h := if s[0] == '\n' then "\n" + Indent else [s[0]];
      assert r == h + t;
      forall i | 0 <= i < |r| && r[i] == '\n'
        ensures i + 2 < |r| && r[i + 1] == '\t' && r[i + 2] == '\t'
      {
        if i >= |h| {
          var j := i - |h|;
          assert t[j] == r[i];
        }
      }
    }
  }

  /** The physical lines of `s`: its pieces between line feeds, as the
      console shows them. There is always at least one. */
  function SplitLines(s: string): (ls: seq<string>)
    ensures |ls| == NewlineCount(s) + 1
    ensures forall k :: 0 <= k < |ls| ==> '\n' !in ls[k]
  {
    if s == [] then [""]
    else if s[0] == '\n' then [""] + SplitLines(s[1..])
    else
      var rest := SplitLines(s[1..]);
      [[s[0]] + rest[0]] + rest[1..]
  }

  /** Puts the physical lines back together, separated by line feeds. */
  function JoinLines(ls: seq<string>): string
    requires |ls| >= 1
  {
    if |ls| == 1 then ls[0] else ls[0] + "\n" + JoinLines(ls[1..])
  }

  /** Splitting loses nothing: joining the lines gives back the text. */
  lemma {:induction false} JoinSplitLines(s: string)
    ensures JoinLines(SplitLines(s)) == s
  {
    if s != [] {
      JoinSplitLines(s[1..]);
      var rest := SplitLines(s[1..]);
      if s[0] != '\n' {
        var ls := SplitLines(s);
        if |rest| == 1 {
          assert ls == [[s[0]] + rest[0]];
        } else {
          assert ls[1..] == rest[1..];
          assert JoinLines(rest) == rest[0] + "\n" + JoinLines(rest[1..]);
        }
      } else {
        assert SplitLines(s)[1..] == rest;
      }
      assert s == [s[0]] + s[1..];
    }
  }

  /** A character other than a line feed joins the first physical line. */
  lemma SplitLinesCons(c: char, t: string)
    requires c != '\n'
    ensures var ls := SplitLines(t);
      SplitLines([c] + t) == [[c] + ls[0]] + ls[1..]
  {
    assert ([c] + t)[0] == c && ([c] + t)[1..] == t;
  }

  /** A line-feed-free prefix only lengthens the first physical line. */
  lemma {:induction false} SplitLinesPrefix(p: string, s: string)
    requires '\n' !in p
    ensures SplitLines(p + s) == [p + SplitLines(s)[0]] + SplitLines(s)[1..]
  {
    var ls := SplitLines(s);
    if p != [] {
      assert p[0] in p && '\n' !in p[1..];
      SplitLinesPrefix(p[1..], s);
      assert p + s == [p[0]] + (p[1..] + s);
      SplitLinesCons(p[0], p[1..] + s);
      assert [p[0]] + (p[1..] + ls[0]) == p + ls[0];
    } else {
      assert p + s == s && p + ls[0] == ls[0];
      assert ls == [ls[0]] + ls[1..];
    }
  }

  /** A line feed between two texts ends the last physical line of the
      first: the lines of the whole are those of each part, in order. */
  lemma {:induction false} SplitLinesAround(a: string, b: string)
    ensures SplitLines(a + "\n" + b) == SplitLines(a) + SplitLines(b)
  {
    if a == [] {
      SplitLinesNewline(b);
      assert a + "\n" + b == "\n" + b;
    } else {
      var a' := a[1..];
      SplitLinesAround(a', b);
      assert a == [a[0]] + a' && a + "\n" + b == [a[0]] + (a' + "\n" + b);
      if a[0] == '\n' {
        SplitAroundNewline(a', b);
      } else {
        SplitAroundChar(a[0], a', b);
      }
    }
  }

  lemma SplitAroundNewline(a': string, b: string)
    requires SplitLines(a' + "\n" + b) == SplitLines(a') + SplitLines(b)
    ensures SplitLines("\n" + (a' + "\n" + b)) == SplitLines("\n" + a') + SplitLines(b)
  {
    SplitLinesNewline(a' + "\n" + b);
    SplitLinesNewline(a');
  }

  lemma SplitAroundChar(c: char, a': string, b: string)
    requires c != '\n'
    requires SplitLines(a' + "\n" + b) == SplitLines(a') + SplitLines(b)
    ensures SplitLines([c] + (a' + "\n" + b)) == SplitLines([c] + a') + SplitLines(b)
  {
    SplitLinesCons(c, a' + "\n" + b);
    SplitLinesCons(c, a');
    JoinFirstLine(c, SplitLines(a'), SplitLines(b));
  }

  /** Prepending to the first line commutes with appending further lines. */
  lemma JoinFirstLine(c: char, front: seq<string>, back: seq<string>)
    requires |front| >= 1
    ensures var all := front + back;
      [[c] + all[0]] + all[1..] == [[c] + front[0]] + front[1..] + back
  {
    var all := front + back;
    assert all[0] == front[0] && all[1..] == front[1..] + back;
  }

  /** A leading line feed ends an empty first line. */
  lemma SplitLinesNewline(t: string)
    ensures SplitLines("\n" + t) == [""] + SplitLines(t)
  {
    assert ("\n" + t)[0] == '\n' && ("\n" + t)[1..] == t;
  }

  function IndentAll(ls: seq<string>): (r: seq<string>)
    ensures |r| == |ls|
    ensures forall k :: 0 <= k < |ls| ==> r[k] == Indent + ls[k]
  {
    seq(|ls|, k requires 0 <= k < |ls| => Indent + ls[k])
  }

  lemma SplitAfterNewline(t: string, ls: seq<string>)
    requires |ls| >= 1 && SplitLines(t) == [ls[0]] + IndentAll(ls[1..])
    ensures SplitLines("\n" + (Indent + t)) == [""] + IndentAll(ls)
  {
    var u := Indent + t;
    var r := "\n" + u;
    assert r[0] == '\n' && r[1..] == u;
    assert SplitLines(r) == [""] + SplitLines(u);
    SplitLinesPrefix(Indent, t);
    var lt := SplitLines(t);
    assert SplitLines(u) == [Indent + lt[0]] + lt[1..];
    assert lt[0] == ls[0] && lt[1..] == IndentAll(ls[1..]);
    IndentAllCons(ls);
  }

  lemma IndentAllCons(ls: seq<string>)
    requires |ls| >= 1
    ensures IndentAll(ls) == [Indent + ls[0]] + IndentAll(ls[1..])
  {
  }

  lemma SplitAfterChar(c: char, t: string, ls: seq<string>)
    requires c != '\n'
    requires |ls| >= 1 && SplitLines(t) == [ls[0]] + IndentAll(ls[1..])
    ensures SplitLines([c] + t) == [[c] + ls[0]] + IndentAll(ls[1..])
  {
    var r := [c] + t;
    assert r[0] == c && r[1..] == t;
  }

  /** Re-indentation keeps the first physical line and indents every later one. */
  lemma {:induction false} SplitReindent(s: string)
    ensures var ls := SplitLines(s);
      SplitLines(Reindent(s)) == [ls[0]] + IndentAll(ls[1..])
  {
    if s != [] {
      SplitReindent(s[1..]);
      if s[0] == '\n' {
        SplitReindentNewline(s);
      } else {
        SplitReindentChar(s);
      }
    }
  }

  lemma SplitReindentNewline(s: string)
    requires s != [] && s[0] == '\n'
    requires var ls := SplitLines(s[1..]);
      SplitLines(Reindent(s[1..])) == [ls[0]] + IndentAll(ls[1..])
    ensures var ls := SplitLines(s);
      SplitLines(Reindent(s)) == [ls[0]] + IndentAll(ls[1..])
  {
    var t := Reindent(s[1..]);
    var ls' := SplitLines(s[1..]);
    assert Reindent(s) == "\n" + (Indent + t);
    SplitAfterNewline(t, ls');
    assert SplitLines(s) == [""] + ls';
  }

  lemma SplitReindentChar(s: string)
    requires s != [] && s[0] != '\n'
    requires var ls := SplitLines(s[1..]);
      SplitLines(Reindent(s[1..])) == [ls[0]] + IndentAll(ls[1..])
    ensures var ls := SplitLines(s);
      SplitLines(Reindent(s)) == [ls[0]] + IndentAll(ls[1..])
  {
    var t := Reindent(s[1..]);
    var ls' := SplitLines(s[1..]);
    assert Reindent(s) == [s[0]] + t;
    SplitAfterChar(s[0], t, ls');
    assert SplitLines(s) == [[s[0]] + ls'[0]] + ls'[1..];
  }

  /** `"\t\t" + s.replace(/\n/g, '\n\t\t')` shows every physical line of `s` indented. */
  lemma IndentedLines(s: string)
    ensures SplitLines(Indent + Reindent(s)) == IndentAll(SplitLines(s))
  {
    SplitLinesPrefix(Indent, Reindent(s));
    SplitReindent(s);
  }
}
