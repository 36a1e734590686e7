/** Path handling of repository discovery: turning each matched `.git`
    directory into its repository root, and the label a root is shown under. */
module Paths {

  /** What `findGitFolderPaths` cuts from every match. */
  const GitSuffix: string := "/.git"

  predicate EndsWith(s: string, suffix: string) {
    |suffix| <= |s| && s[|s| - |suffix|..] == suffix
  }

  /** `gitDir.substring(0, gitDir.length - '/.git'.length)`; a negative end
      index is clamped to 0 by `substring`. */
  function RepoRoot(gitDir: string): (root: string)
    ensures root <= gitDir
    ensures EndsWith(gitDir, GitSuffix) ==> root + GitSuffix == gitDir
  {
    if |gitDir| >= |GitSuffix| then gitDir[..|gitDir| - |GitSuffix|] else ""
  }

  /** The repository roots for the glob's matches: one per match, in match order. */
  function FindGitFolderPaths(gitDirs: seq<string>): (roots: seq<string>)
    ensures |roots| == |gitDirs|
    ensures forall i :: 0 <= i < |gitDirs| ==> roots[i] <= gitDirs[i]
    ensures forall i :: 0 <= i < |gitDirs| && EndsWith(gitDirs[i], GitSuffix) ==> roots[i] + GitSuffix == gitDirs[i]
  {
    seq(|gitDirs|, i requires 0 <= i < |gitDirs| => RepoRoot(gitDirs[i]))
  }

  predicate AllSlashes(s: string) {
    forall i :: 0 <= i < |s| ==> s[i] == '/'
  }

  /** `p` without its trailing separators. */
  function StripTrailingSlashes(p: string): (q: string)
    ensures q <= p && AllSlashes(p[|q|..])
    ensures q == [] || q[|q| - 1] != '/'
  {
    if p != [] && p[|p| - 1] == '/' then StripTrailingSlashes(p[..|p| - 1]) else p
  }

  /** The part of `q` after its last separator. */
  function LastSegment(q: string): (name: string)
    ensures '/' !in name
  {
    if q != [] && q[|q| - 1] != '/' then LastSegment(q[..|q| - 1]) + [q[|q| - 1]] else ""
  }

  /** The last segment is a suffix of its input, preceded by a separator
      unless it is the whole input. */
  lemma {:induction false} LastSegmentSuffix(q: string)
    ensures var name := LastSegment(q);
      |name| <= |q| && q[|q| - |name|..] == name
      && (|name| == |q| || q[|q| - |name| - 1] == '/')
  {
    if q != [] && q[|q| - 1] != '/' {
      var q' := q[..|q| - 1];
      LastSegmentSuffix(q');
      assert LastSegment(q) == LastSegment(q') + [q[|q| - 1]];
    }
  }

  /** Node's POSIX `path.basename(p)`: trailing separators are ignored and
      the last remaining segment is returned (empty for "" and for "/"). */
  function Basename(p: string): (name: string)
    ensures '/' !in name
  {
    LastSegment(StripTrailingSlashes(p))
  }

  /** A directory's basename is the name it was given under its parent,
      whatever trailing separators follow. */
  lemma BasenameOfChild(dir: string, name: string, trail: string)
    requires name != [] && '/' !in name && AllSlashes(trail)
    ensures Basename(dir + "/" + name + trail) == name
  {
    StripTrailing(dir + "/" + name, trail);
    LastSegmentOf(dir, name);
  }

  lemma {:induction false} StripTrailing(q: string, trail: string)
    requires q != [] && q[|q| - 1] != '/' && AllSlashes(trail)
    ensures StripTrailingSlashes(q + trail) == q
  {
    if trail != [] {
      var t' := trail[..|trail| - 1];
      assert (q + trail)[..|q + trail| - 1] == q + t';
      StripTrailing(q, t');
    } else {
      assert q + trail == q;
    }
  }

  lemma {:induction false} LastSegmentOf(dir: string, name: string)
    requires '/' !in name
    ensures LastSegment(dir + "/" + name) == name
  {
    if name != [] {
      var n' := name[..|name| - 1];
      assert (dir + "/" + name)[..|dir + "/" + name| - 1] == dir + "/" + n';
      LastSegmentOf(dir, n');
      assert name == n' + [name[|name| - 1]];
    } else {
      assert dir + "/" + name == dir + "/";
    }
  }

  /** The label shown for the repository found at `dir/name/.git` is `name`. */
  lemma LabelOfMatch(dir: string, name: string)
    requires name != [] && '/' !in name
    ensures Basename(RepoRoot(dir + "/" + name + GitSuffix)) == name
  {
    var g := dir + "/" + name + GitSuffix;
    assert g[..|g| - |GitSuffix|] == dir + "/" + name + "";
    BasenameOfChild(dir, name, "");
  }
}
