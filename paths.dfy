/**
 * POSIX path helpers in the form Python's `os.path` gives them, and
 * `str.replace`, as the review tools use them to locate a run's error
 * file next to its log file.
 */
module Paths {
  import opened Text

  /** Index just past the last '/' of p, or 0 when p has none. */
  function AfterLastSlash(p: string): (k: nat)
    ensures k <= |p|
    ensures k > 0 ==> p[k - 1] == '/'
    ensures forall i :: k <= i < |p| ==> p[i] != '/'
  {
    if p == [] then 0
    else if p[|p| - 1] == '/' then |p|
    else AfterLastSlash(p[..|p| - 1])
  }

  /** `os.path.basename`: the text after the last '/'. */
  function Basename(p: string): (r: string)
    ensures '/' !in r
    ensures |r| <= |p| && r == p[|p| - |r|..]
  {
    p[AfterLastSlash(p)..]
  }

  function StripTrailingSlashes(s: string): (r: string)
    ensures |r| <= |s| && r == s[..|r|]
  {
    if s != [] && s[|s| - 1] == '/' then StripTrailingSlashes(s[..|s| - 1]) else s
  }

  predicate AllSlashes(s: string) {
    forall i :: 0 <= i < |s| ==> s[i] == '/'
  }

  /** `os.path.dirname`: the text up to the last '/', without trailing slashes unless it is all slashes. */
  function Dirname(p: string): (r: string)
    ensures |r| <= |p| && r == p[..|r|]
  {
    var head := p[..AfterLastSlash(p)];
    if head != [] && !AllSlashes(head) then StripTrailingSlashes(head) else head
  }

  /** `os.path.join(a, b)` for two components. */
  function JoinPath(a: string, b: string): (r: string)
    ensures StartsWith(b, "/") ==> r == b
  {
    if StartsWith(b, "/") then b
    else if a == [] || a[|a| - 1] == '/' then a + b
    else a + "/" + b
  }

  /** `s.replace(pat, rep)`: every non-overlapping occurrence, scanning left to right. */
  function Replace(s: string, pat: string, rep: string): string
    decreases |s|
  {
    if pat == [] then
      if s == [] then rep else rep + [s[0]] + Replace(s[1..], pat, rep)
    else if |pat| <= |s| && s[..|pat|] == pat then rep + Replace(s[|pat|..], pat, rep)
    else if s == [] then []
    else [s[0]] + Replace(s[1..], pat, rep)
  }

  /** `t` occurs in `s` at position i. */
  predicate At(s: string, t: string, i: nat) {
    i + |t| <= |s| && s[i..i + |t|] == t
  }

  predicate Occurs(s: string, t: string) {
    exists i: nat :: i <= |s| && At(s, t, i)
  }

  /** An occurrence in the tail of s is an occurrence in s one place later. */
  lemma AtTail(s: string, t: string, i: nat)
    requires s != []
    ensures At(s[1..], t, i) <==> At(s, t, i + 1)
  {
    if i + |t| <= |s[1..]| {
      assert s[1..][i..i + |t|] == s[i + 1..i + 1 + |t|];
    }
  }

  lemma NotOccursTail(s: string, t: string)
    requires s != [] && !Occurs(s, t)
    ensures !Occurs(s[1..], t)
  {
    forall i: nat ensures !At(s[1..], t, i) {
      AtTail(s, t, i);
    }
  }

  /** A string without the searched text is left as it is. */
  lemma {:induction false} ReplaceAbsent(s: string, pat: string, rep: string)
    requires pat != [] && !Occurs(s, pat)
    ensures Replace(s, pat, rep) == s
  {
    if s != [] {
      assert !At(s, pat, 0);
      NotOccursTail(s, pat);
      ReplaceAbsent(s[1..], pat, rep);
    }
  }

  /** Removing ".gz" from "stem.gz", when the stem holds no ".gz", gives the stem. */
  lemma {:induction false} GzSuffixRemoved(stem: string)
    requires !Occurs(stem, ".gz")
    ensures Replace(stem + ".gz", ".gz", "") == stem
  {
    var s := stem + ".gz";
    if stem == [] {
      assert s[..3] == ".gz";
      assert s[3..] == [];
    } else {
      assert s[..3] != ".gz" by {
        if |stem| >= 3 {
          assert !At(stem, ".gz", 0);
          assert s[..3] == stem[0..3];
        } else if |stem| == 2 {
          assert s[2] == '.';
        } else {
          assert s[1] == '.';
        }
      }
      NotOccursTail(stem, ".gz");
      assert s[1..] == stem[1..] + ".gz";
      GzSuffixRemoved(stem[1..]);
    }
  }

  /** A path "dir/name" splits back into its directory and base name. */
  lemma SplitPath(dir: string, name: string)
    requires '/' !in name
    requires dir != [] && dir[|dir| - 1] != '/'
    ensures Basename(dir + "/" + name) == name
    ensures Dirname(dir + "/" + name) == dir
  {
    var p := dir + "/" + name;
    assert p[|dir|] == '/';
    assert forall i :: |dir| < i < |p| ==> p[i] == name[i - |dir| - 1];
    LastSlashAt(p, |dir|);
    assert p[..|dir| + 1] == dir + "/";
    assert !AllSlashes(dir + "/") by {
      assert (dir + "/")[|dir| - 1] == dir[|dir| - 1];
    }
    assert (dir + "/")[..|dir|] == dir;
    assert StripTrailingSlashes(dir + "/") == StripTrailingSlashes(dir) == dir;
    assert p[|dir| + 1..] == name;
  }

  lemma {:induction false} LastSlashAt(p: string, j: nat)
    requires j < |p| && p[j] == '/'
    requires forall i :: j < i < |p| ==> p[i] != '/'
    ensures AfterLastSlash(p) == j + 1
  {
    if p[|p| - 1] != '/' {
      LastSlashAt(p[..|p| - 1], j);
    }
  }
}
