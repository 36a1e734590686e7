/** `String.prototype.trim` of the JavaScript runtime, which the program applies
    to the identity, to every query's output, and once more while normalising. */
module JsString {

  /** The code points `trim` removes: the WhiteSpace and LineTerminator
      productions of ECMA-262 (tab, vertical tab, form feed, space, no-break
      space, byte order mark, the other space separators, line feed,
      carriage return, line and paragraph separators). */
  predicate IsWhitespace(c: char) {
    || c == '\t' || c == '\n' || c == '\U{000B}' || c == '\U{000C}' || c == '\r'
    || c == ' ' || c == '\U{00A0}' || c == '\U{1680}'
    || ('\U{2000}' <= c <= '\U{200A}')
    || c == '\U{2028}' || c == '\U{2029}' || c == '\U{202F}' || c == '\U{205F}'
    || c == '\U{3000}' || c == '\U{FEFF}'
  }

  predicate AllWhitespace(s: string) {
    forall i :: 0 <= i < |s| ==> IsWhitespace(s[i])
  }

  /** Neither end of `s` is white space (vacuously true of the empty string). */
  predicate Trimmed(s: string) {
    s == [] || (!IsWhitespace(s[0]) && !IsWhitespace(s[|s| - 1]))
  }

  /** `r` sits in `s` at offset `i`, with only white space before and after it. */
  ghost predicate StrippedAt(s: string, i: int, r: string) {
    && 0 <= i <= i + |r| <= |s|
    && s[i..i + |r|] == r
    && AllWhitespace(s[..i])
    && AllWhitespace(s[i + |r|..])
  }

  /** Length of the white-space run at the front of `s`. */
  function LeadingWhitespace(s: string): (k: nat)
    ensures k <= |s|
    ensures AllWhitespace(s[..k])
    ensures k < |s| ==> !IsWhitespace(s[k])
  {
    if |s| > 0 && IsWhitespace(s[0]) then 1 + LeadingWhitespace(s[1..]) else 0
  }

  /** Length of the white-space run at the back of `s`. */
  function TrailingWhitespace(s: string): (k: nat)
    ensures k <= |s|
    ensures AllWhitespace(s[|s| - k..])
    ensures k < |s| ==> !IsWhitespace(s[|s| - 1 - k])
  {
    if |s| > 0 && IsWhitespace(s[|s| - 1]) then 1 + TrailingWhitespace(s[..|s| - 1]) else 0
  }

  /** `s.trim()`: `s` without its leading and trailing white space. */
  function Trim(s: string): (r: string)
    ensures Trimmed(r)
    ensures r == [] <==> AllWhitespace(s)
    ensures exists i :: StrippedAt(s, i, r)
  {
    var a := LeadingWhitespace(s);
    var b := TrailingWhitespace(s[a..]);
    var r := s[a..|s| - b];
    assert StrippedAt(s, a, r) by {
      assert s[a + |r|..] == s[a..][|s[a..]| - b..];
    }
    r
  }

  /** The leading run ends at the first non-white-space code point. */
  lemma LeadingWhitespaceAt(s: string, i: nat)
    requires i < |s| && AllWhitespace(s[..i]) && !IsWhitespace(s[i])
    ensures LeadingWhitespace(s) == i
  {
  }

  /** The trailing run starts after the last non-white-space code point. */
  lemma TrailingWhitespaceAt(s: string, j: nat)
    requires j < |s| && AllWhitespace(s[|s| - j..]) && !IsWhitespace(s[|s| - 1 - j])
    ensures TrailingWhitespace(s) == j
  {
  }

  /** Only white space around nothing means white space throughout. */
  lemma StrippedEmpty(s: string, i: int)
    requires StrippedAt(s, i, [])
    ensures AllWhitespace(s)
  {
    forall k | 0 <= k < |s|
      ensures IsWhitespace(s[k])
    {
      if k < i {
        assert s[..i][k] == s[k];
      } else {
        assert s[i..][k - i] == s[k];
      }
    }
  }

  /** Trimming is determined by the two properties above: any white-space-free-ended
      `r` that `s` surrounds only with white space is `s.trim()`. */
  lemma TrimUnique(s: string, i: int, r: string)
    requires StrippedAt(s, i, r) && Trimmed(r)
    ensures Trim(s) == r
  {
    if r == [] {
      StrippedEmpty(s, i);
    } else {
      assert s[i] == r[0];
      LeadingWhitespaceAt(s, i);
      var t := s[i..];
      var j := |t| - |r|;
      assert t[|t| - j..] == s[i + |r|..];
      assert t[|t| - 1 - j] == r[|r| - 1];
      TrailingWhitespaceAt(t, j);
      assert s[i..|s| - j] == r;
    }
  }

  /** The second `trim` the program applies to an already trimmed string changes nothing. */
  lemma TrimIdempotent(s: string)
    ensures Trim(Trim(s)) == Trim(s)
  {
    var r := Trim(s);
    assert StrippedAt(r, 0, r) by {
      assert r[..0] == [] && r[|r|..] == [];
      assert r[0..|r|] == r;
    }
    TrimUnique(r, 0, r);
  }
}
