/**
 * String helpers of the CVC utility library: removing the cell names from
 * a hierarchical instance path, turning a shell-style filter into a
 * regular expression, and the alphanumeric test.
 */
module TextUtility {
  import opened Outcomes
  import opened CppString

  // ---- RemoveCellNames ----

  /**
   * A path with its cell-name groups removed, read left to right: a '('
   * opens a group that runs up to and including the next ')', and a group
   * that is never closed takes the rest of the path. `inGroup` says the
   * reading is inside a group.
   */
  function Strip(s: string, inGroup: bool): string
    decreases |s|
  {
    if s == [] then []
    else if inGroup then Strip(s[1..], s[0] != ')')
    else if s[0] == '(' then Strip(s[1..], true)
    else [s[0]] + Strip(s[1..], false)
  }

  /** The path with every "(cell)" group deleted and the rest kept in order. */
  function WithoutGroups(path: string): string {
    Strip(path, false)
  }

  /** A stretch free of '(' is copied as it is. */
  lemma {:induction false} StripPlain(s: string, k: nat)
    requires k <= |s| && forall i :: 0 <= i < k ==> s[i] != '('
    ensures Strip(s, false) == s[..k] + Strip(s[k..], false)
    decreases k
  {
    if k > 0 {
      StripPlain(s[1..], k - 1);
      assert s[1..][k - 1..] == s[k..];
      assert s[..k] == [s[0]] + s[1..][..k - 1];
    }
  }

  /** Inside a group, everything up to and including the first ')' is dropped. */
  lemma {:induction false} StripGroup(s: string, j: nat)
    requires j < |s| && s[j] == ')' && forall i :: 0 <= i < j ==> s[i] != ')'
    ensures Strip(s, true) == Strip(s[j + 1..], false)
    decreases j
  {
    if j > 0 {
      StripGroup(s[1..], j - 1);
      assert s[1..][j..] == s[j + 1..];
    }
  }

  /** A group that is never closed takes everything after it. */
  lemma {:induction false} StripUnclosed(s: string)
    requires forall i :: 0 <= i < |s| ==> s[i] != ')'
    ensures Strip(s, true) == []
    decreases |s|
  {
    if s != [] {
      StripUnclosed(s[1..]);
    }
  }

  /** Nothing of a group survives: the result holds no '('. */
  lemma {:induction false} StripLeavesNoOpen(s: string, inGroup: bool)
    ensures forall i :: 0 <= i < |Strip(s, inGroup)| ==> Strip(s, inGroup)[i] != '('
    decreases |s|
  {
    if s != [] {
      StripLeavesNoOpen(s[1..], if inGroup then s[0] != ')' else s[0] == '(');
    }
  }

  /** A path without '(' comes back unchanged. */
  lemma NoGroupUnchanged(path: string)
    requires forall i :: 0 <= i < |path| ==> path[i] != '('
    ensures WithoutGroups(path) == path
  {
    StripPlain(path, |path|);
    assert path[|path|..] == [];
  }

  /** "a(g)b" loses exactly the group "(g)". */
  lemma GroupRemoved(a: string, g: string, b: string)
    requires forall i :: 0 <= i < |a| ==> a[i] != '('
    requires forall i :: 0 <= i < |g| ==> g[i] != ')'
    ensures WithoutGroups(a + "(" + g + ")" + b) == a + WithoutGroups(b)
  {
    var s := a + "(" + g + ")" + b;
    StripPlain(s, |a|);
    assert s[..|a|] == a;
    var t := s[|a|..];
    assert t == "(" + g + ")" + b;
    assert t[1..] == g + ")" + b;
    StripGroup(t[1..], |g|);
    assert t[1..][|g| + 1..] == b;
  }

  /** A closed group at `start`..`end` goes entirely. */
  lemma GroupAt(path: string, start: nat, end: nat)
    requires start < end < |path| && path[start] == '(' && path[end] == ')'
    requires forall i :: start < i < end ==> path[i] != ')'
    ensures Strip(path[start..], false) == Strip(path[end + 1..], false)
  {
    assert path[start..][1..] == path[start + 1..];
    StripGroup(path[start + 1..], end - start - 1);
    assert path[start + 1..][end - start..] == path[end + 1..];
  }

  /** A stretch `from`..`stop` free of '(' stays as it is. */
  lemma PlainAt(path: string, from: nat, stop: nat)
    requires from <= stop <= |path|
    requires forall i :: from <= i < stop ==> path[i] != '('
    ensures Strip(path[from..], false) == path[from..stop] + Strip(path[stop..], false)
  {
    var tail := path[from..];
    StripPlain(tail, stop - from);
    assert tail[stop - from..] == path[stop..];
    assert tail[..stop - from] == path[from..stop];
  }

  /** A closed group followed by a stretch free of '(': the group goes, the stretch stays. */
  lemma StripThrough(path: string, start: nat, end: nat, stop: nat)
    requires start < end < stop <= |path| || (start < end < |path| && stop == end + 1)
    requires path[start] == '(' && path[end] == ')'
    requires forall i :: start < i < end ==> path[i] != ')'
    requires forall i :: end < i < stop ==> path[i] != '('
    ensures Strip(path[start..], false) == path[end + 1..stop] + Strip(path[stop..], false)
  {
    GroupAt(path, start, end);
    PlainAt(path, end + 1, stop);
  }

  /** `r` is where `find_first_of(c, from)` lands: the first `c` at or after `from`, or npos when there is none. */
  ghost predicate FirstFrom(path: string, c: char, from: nat, r: nat) {
    && (r == NPOS || (from <= r < |path| && path[r] == c))
    && forall i :: from <= i < |path| && i < r ==> path[i] != c
  }

  /** FindFirstOf with a single character finds the first occurrence. */
  lemma FindsFirst(path: string, c: char, from: nat)
    requires |path| < NPOS
    ensures FirstFrom(path, c, from, FindFirstOf(path, [c], from))
  {
    var r := FindFirstOf(path, [c], from);
    forall i | from <= i < |path| && i < r
      ensures path[i] != c
    {
      assert path[i] !in [c];
    }
  }

  /**
   * One iteration of the removal loop, at a '(' whose group closes at
   * `end`: the group goes, and the text up to the next '(' at `next` (or
   * the end) is kept.
   */
  lemma GroupStep(path: string, start: nat, end: nat, next: nat)
    requires |path| < NPOS && start < |path| && path[start] == '('
    requires end != NPOS && FirstFrom(path, ')', start, end) && FirstFrom(path, '(', end, next)
    ensures start < end < |path| && (next == NPOS || end < next < |path|)
    ensures Strip(path[start..], false)
            == path[end + 1..if next == NPOS then |path| else next] + Strip(Rest(path, next), false)
  {
    var stop := if next == NPOS then |path| else next;
    StripThrough(path, start, end, stop);
    assert Rest(path, next) == path[stop..];
  }

  /** `substr(end + 1, next - end - 1)`: the text strictly between `end` and `next` (npos: the end). */
  lemma PieceBetween(path: string, end: nat, next: nat)
    requires end < |path| < NPOS && (next == NPOS || end < next < |path|)
    ensures Substr(path, end + 1, SizeSub(SizeSub(next, end), 1))
            == Ok(path[end + 1..if next == NPOS then |path| else next])
  {
  }

  /** `r` is what RemoveCellNames has copied before the '(' at `start` (npos: the end). */
  ghost predicate CopiedBefore(path: string, start: nat, r: string) {
    r + Strip(Rest(path, start), false) == WithoutGroups(path)
  }

  /** The loop at a '(' that is never closed: what was copied is the whole result. */
  lemma UnclosedStep(path: string, start: nat, r: string)
    requires |path| < NPOS && start < |path| && path[start] == '('
    requires FirstFrom(path, ')', start, NPOS)
    requires CopiedBefore(path, start, r)
    ensures r == WithoutGroups(path)
  {
    assert path[start..][1..] == path[start + 1..];
    StripUnclosed(path[start + 1..]);
  }

  /** The loop at a '(' that closes: the piece up to the next '(' is copied and the loop moves on to that '('. */
  lemma ClosedStep(path: string, start: nat, r: string, end: nat, next: nat)
    requires |path| < NPOS && start < |path| && path[start] == '('
    requires end != NPOS && FirstFrom(path, ')', start, end) && FirstFrom(path, '(', end, next)
    requires CopiedBefore(path, start, r)
    ensures end < |path| && start < next && (next == NPOS || (next < |path| && path[next] == '('))
    ensures var piece := Substr(path, end + 1, SizeSub(SizeSub(next, end), 1));
            piece.Ok? && CopiedBefore(path, next, r + piece.value)
  {
    GroupStep(path, start, end, next);
    PieceBetween(path, end, next);
    var piece := path[end + 1..if next == NPOS then |path| else next];
    assert Rest(path, start) == path[start..];
    Regroup(r, piece, Strip(Rest(path, next), false), Strip(Rest(path, start), false), WithoutGroups(path));
  }

  /** Moving a piece from the part still to copy to the part copied. */
  lemma Regroup(r: string, piece: string, rest: string, todo: string, whole: string)
    requires r + todo == whole && todo == piece + rest
    ensures (r + piece) + rest == whole
  {
  }

  /** Before the loop: the text up to the first '(' at `start` is copied. */
  lemma HeadCopied(path: string, start: nat)
    requires |path| < NPOS && FirstFrom(path, '(', 0, start)
    ensures Substr(path, 0, start).Ok? && CopiedBefore(path, start, Substr(path, 0, start).value)
  {
    var r := Substr(path, 0, start).value;
    StripPlain(path, |r|);
    assert path[|r|..] == Rest(path, start);
  }

  /** One pass of the removal loop at the '(' at `start`: an unclosed group ends the copy, a closed one copies the next piece. */
  method CopyGroup(path: string, start: nat, r: string) returns (done: bool, r': string, start': nat)
    requires |path| < NPOS && start < |path| && path[start] == '('
    requires CopiedBefore(path, start, r)
    ensures done ==> r' == WithoutGroups(path)
    ensures !done ==> start < start' && (start' == NPOS || (start' < |path| && path[start'] == '('))
    ensures !done ==> CopiedBefore(path, start', r')
  {
    var end := FindFirstOf(path, ")", start);
    FindsFirst(path, ')', start);
    if end == NPOS {
      UnclosedStep(path, start, r);
      return true, r, start;
    }
    var next := FindFirstOf(path, "(", end);
    FindsFirst(path, '(', end);
    ClosedStep(path, start, r, end, next);
    r' := r + Substr(path, end + 1, SizeSub(SizeSub(next, end), 1)).value;
    return false, r', next;
  }

  /**
   * RemoveCellNames: copies the path up to its first '(' and then, group
   * by group, the text between a ')' and the next '('. A group that is
   * never closed ends the copy.
   */
  method RemoveCellNames(path: string) returns (r: string)
    requires |path| < NPOS
    ensures r == WithoutGroups(path)
  {
    var start := FindFirstOf(path, "(", 0);
    FindsFirst(path, '(', 0);
    HeadCopied(path, start);
    r := Substr(path, 0, start).value;
    while start <= |path|
      invariant start == NPOS || (start < |path| && path[start] == '(')
      invariant CopiedBefore(path, start, r)
      decreases SIZE_RANGE - start
    {
      var done;
      done, r, start := CopyGroup(path, start, r);
      if done {
        return;
      }
    }
  }

  /**
   * The text the source's RemoveCellNames appends from the '(' at `start`
   * on. When no ')' follows, `end` is npos, `end + 1` wraps to 0 and the
   * whole path is appended once more.
   */
  function AppendedAsWritten(path: string, start: nat): string
    requires |path| < NPOS && start < |path| && path[start] == '('
    decreases |path| - start
  {
    var end := FindFirstOf(path, ")", start);
    var next := FindFirstOf(path, "(", end);
    var piece := Substr(path, SizeAdd(end, 1), SizeSub(SizeSub(next, end), 1));
    assert piece.Ok?;
    piece.value + (if next <= |path| then AppendedAsWritten(path, next) else "")
  }

  /** The source's RemoveCellNames, loop for loop, including the unclosed-group case. */
  function RemoveCellNamesAsWritten(path: string): string
    requires |path| < NPOS
  {
    var start := FindFirstOf(path, "(", 0);
    Substr(path, 0, start).value + (if start <= |path| then AppendedAsWritten(path, start) else "")
  }

  /** Every '(' of the path is followed by a ')'. */
  predicate Closed(path: string) {
    forall i :: 0 <= i < |path| && path[i] == '(' ==> exists j :: i < j < |path| && path[j] == ')'
  }

  /** In a closed path every '(' finds its ')'. */
  lemma ClosedFinds(path: string, start: nat, end: nat)
    requires |path| < NPOS && start < |path| && path[start] == '(' && Closed(path)
    requires FirstFrom(path, ')', start, end)
    ensures end != NPOS
  {
    var j :| start < j < |path| && path[j] == ')';
  }

  /** One group of the source's loop when its ')' is found at `end`: the piece up to the next '(' and the rest from there. */
  lemma AppendedUnfold(path: string, start: nat, end: nat, next: nat)
    requires |path| < NPOS && start < |path| && path[start] == '('
    requires end == FindFirstOf(path, ")", start) && next == FindFirstOf(path, "(", end)
    requires end < |path| && (next == NPOS || end < next < |path|)
    ensures AppendedAsWritten(path, start)
            == path[end + 1..if next == NPOS then |path| else next]
               + (if next == NPOS then "" else AppendedAsWritten(path, next))
  {
    assert SizeAdd(end, 1) == end + 1;
    PieceBetween(path, end, next);
  }

  lemma {:induction false} AppendedAgrees(path: string, start: nat)
    requires |path| < NPOS && start < |path| && path[start] == '(' && Closed(path)
    ensures AppendedAsWritten(path, start) == Strip(path[start..], false)
    decreases |path| - start
  {
    var end := FindFirstOf(path, ")", start);
    FindsFirst(path, ')', start);
    ClosedFinds(path, start, end);
    var next := FindFirstOf(path, "(", end);
    FindsFirst(path, '(', end);
    GroupStep(path, start, end, next);
    AppendedUnfold(path, start, end, next);
    if next != NPOS {
      AppendedAgrees(path, next);
      assert Rest(path, next) == path[next..];
    }
  }

  /** With every group closed, the source's loop does delete exactly the groups. */
  lemma AsWrittenAgreesWhenClosed(path: string)
    requires |path| < NPOS && Closed(path)
    ensures RemoveCellNamesAsWritten(path) == WithoutGroups(path)
  {
    var start := FindFirstOf(path, "(", 0);
    var head := Substr(path, 0, start).value;
    StripPlain(path, |head|);
    if start <= |path| {
      AppendedAgrees(path, start);
      assert path[|head|..] == path[start..];
    } else {
      assert path[|head|..] == [];
    }
  }

  /** The source on "a(b": the unclosed group makes it append the whole path again. */
  lemma UnclosedGroupRepeatsPath()
    ensures RemoveCellNamesAsWritten("a(b") == "aa(b"
    ensures WithoutGroups("a(b") == "a"
  {
    var path := "a(b";
    assert FindFirstOf(path, "(", 0) == 1 by {
      assert path[0] != '(' && path[1] == '(';
    }
    assert FindFirstOf(path, ")", 1) == NPOS;
    assert FindFirstOf(path, "(", NPOS) == NPOS;
    assert Substr(path, 0, 1).value == "a";
    assert Substr(path, 0, NPOS).value == path;
  }

  // ---- FuzzyFilter ----

  /**
   * The `i`-th '*' of the filter is widened to ".*": the character before
   * it is neither '.' nor a '?' (which has itself become '.').
   */
  predicate WidensStar(filter: string, i: nat)
    requires i < |filter|
  {
    filter[i] == '*' && (i == 0 || filter[i - 1] !in ".?")
  }

  /** What the `i`-th character of the filter becomes in the glob form. */
  function GlobPiece(filter: string, i: nat): (r: string)
    requires i < |filter|
    ensures r != []
  {
    if WidensStar(filter, i) then ".*"
    else if filter[i] == '?' then "."
    else [filter[i]]
  }

  /** The glob form of the filter: '?' becomes '.', a '*' not after '.' becomes ".*". */
  function Glob(filter: string): string {
    if filter == [] then [] else Glob(filter[..|filter| - 1]) + GlobPiece(filter, |filter| - 1)
  }

  /** Some '*' of the filter is widened. */
  predicate UsesGlob(filter: string) {
    exists i :: 0 <= i < |filter| && WidensStar(filter, i)
  }

  lemma GlobStep(filter: string, k: nat)
    requires k < |filter|
    ensures Glob(filter[..k + 1]) == Glob(filter[..k]) + GlobPiece(filter, k)
    ensures UsesGlob(filter[..k + 1]) <==> UsesGlob(filter[..k]) || WidensStar(filter, k)
  {
    var p := filter[..k + 1];
    assert p[..k] == filter[..k];
    assert forall i :: 0 <= i <= k ==> p[i] == filter[i];
    if UsesGlob(p) {
      var i :| 0 <= i < |p| && WidensStar(p, i);
      if i < k {
        assert WidensStar(filter[..k], i);
      }
    }
    if UsesGlob(filter[..k]) {
      var i :| 0 <= i < k && WidensStar(filter[..k], i);
      assert WidensStar(p, i);
    }
    if WidensStar(filter, k) {
      assert WidensStar(p, k);
    }
  }

  /** The glob form ends in '.' exactly when the filter's last character is '.' or '?'. */
  lemma GlobLast(filter: string)
    requires filter != []
    ensures Glob(filter) != []
    ensures Glob(filter)[|Glob(filter)| - 1] == '.' <==> filter[|filter| - 1] in ".?"
  {
  }

  /** Replacing the character at the seam of `done + rest` by `piece`. */
  lemma Splice(done: string, piece: string, rest: string)
    requires rest != []
    ensures (done + rest)[..|done|] + piece + (done + rest)[|done| + 1..] == (done + piece) + rest[1..]
  {
  }

  /** At the seam of the loop's string, the character is the filter's `k`-th, and the source's test for widening is WidensStar. */
  lemma SeamFacts(filter: string, k: nat, glob: string, i: nat)
    requires k < |filter|
    requires glob == Glob(filter[..k]) + filter[k..]
    requires i == |Glob(filter[..k])|
    ensures i < |glob| && glob[i] == filter[k]
    ensures (glob[i] == '*' && (i == 0 || glob[i - 1] != '.')) == WidensStar(filter, k)
  {
    assert glob[i] == filter[k..][0];
    if k > 0 {
      GlobLast(filter[..k]);
      assert glob[i - 1] == Glob(filter[..k])[i - 1];
      assert filter[..k][k - 1] == filter[k - 1];
    }
  }

  /** One step of the glob loop: the character at `i` is the filter's `k`-th, and becomes its piece. */
  method GlobAt(ghost filter: string, ghost k: nat, glob: string, i: nat) returns (glob': string, i': nat, widened: bool)
    requires k < |filter|
    requires glob == Glob(filter[..k]) + filter[k..]
    requires i == |Glob(filter[..k])|
    ensures glob' == Glob(filter[..k]) + GlobPiece(filter, k) + filter[k + 1..]
    ensures i' == i + |GlobPiece(filter, k)|
    ensures widened == WidensStar(filter, k)
  {
    SeamFacts(filter, k, glob, i);
    ghost var done, rest := Glob(filter[..k]), filter[k..];
    assert rest[1..] == filter[k + 1..];
    widened := glob[i] == '*' && (i == 0 || glob[i - 1] != '.');
    if widened {
      Splice(done, ".*", rest);
      glob' := glob[..i] + ".*" + glob[i + 1..];
    } else if glob[i] == '?' {
      Splice(done, ".", rest);
      glob' := glob[..i] + "." + glob[i + 1..];
    } else {
      Splice(done, [glob[i]], rest);
      assert glob == glob[..i] + [glob[i]] + glob[i + 1..];
      glob' := glob;
    }
    i' := i + |glob'| - |glob| + 1;
  }

  /**
   * FuzzyFilter: rewrites the filter in place, character by character; the
   * verdict of compiling the original filter as a regular expression is
   * `filterIsRegex`. An invalid original, or a widened '*', gives the glob
   * form alone; otherwise both forms are offered as alternatives.
   */
  method FuzzyFilter(filter: string, filterIsRegex: bool) returns (r: string)
    ensures !filterIsRegex || UsesGlob(filter) ==> r == Glob(filter)
    ensures filterIsRegex && !UsesGlob(filter) ==> r == "(" + Glob(filter) + ")|(" + filter + ")"
  {
    var glob := filter;
    var useGlob := false;
    var i := 0;
    ghost var k := 0;
    assert filter[..0] == [];
    while i < |glob|
      invariant k <= |filter|
      invariant glob == Glob(filter[..k]) + filter[k..]
      invariant i == |Glob(filter[..k])|
      invariant useGlob <==> UsesGlob(filter[..k])
      decreases |glob| - i
    {
      var widened;
      GlobStep(filter, k);
      glob, i, widened := GlobAt(filter, k, glob, i);
      useGlob := useGlob || widened;
      k := k + 1;
    }
    assert filter[..k] == filter;
    if !filterIsRegex {
      return glob;
    }
    if useGlob {
      return glob;
    }
    return "(" + glob + ")|(" + filter + ")";
  }

  /** A string the glob form leaves alone: no '?', and every '*' follows a '.'. */
  predicate IsGlobbed(g: string) {
    forall i {:trigger g[i]} :: 0 <= i < |g| ==> g[i] != '?' && (g[i] == '*' ==> i > 0 && g[i - 1] == '.')
  }

  /** Every glob form is globbed. */
  lemma {:induction false} GlobIsGlobbed(filter: string)
    ensures IsGlobbed(Glob(filter))
    decreases |filter|
  {
    if filter != [] {
      var n := |filter|;
      var front := filter[..n - 1];
      GlobIsGlobbed(front);
      if n > 1 {
        GlobLast(front);
      }
      var g := Glob(filter);
      var piece := GlobPiece(filter, n - 1);
      assert g == Glob(front) + piece;
      var m := |Glob(front)|;
      if n > 1 {
        assert front[|front| - 1] == filter[n - 2];
      }
      forall i | 0 <= i < |g| ensures g[i] != '?' && (g[i] == '*' ==> i > 0 && g[i - 1] == '.') {
        if i >= m {
          assert g[i] == piece[i - m];
          if i > m {
            assert g[i - 1] == piece[i - 1 - m];
          } else if i > 0 {
            assert g[i - 1] == Glob(front)[m - 1];
          }
        } else {
          assert g[i] == Glob(front)[i];
          if i > 0 {
            assert g[i - 1] == Glob(front)[i - 1];
          }
        }
      }
    }
  }

  /** Globbing a globbed string changes nothing. */
  lemma {:induction false} GlobbedFixed(g: string)
    requires IsGlobbed(g)
    ensures Glob(g) == g
    decreases |g|
  {
    if g != [] {
      var n := |g|;
      var front := g[..n - 1];
      GlobbedFixed(front);
      assert g[n - 1] != '?' && (g[n - 1] == '*' ==> n - 1 > 0 && g[n - 2] == '.');
      assert !WidensStar(g, n - 1);
      assert GlobPiece(g, n - 1) == [g[n - 1]];
      assert g == front + [g[n - 1]];
    }
  }

  /** The glob form is idempotent. */
  lemma GlobIdempotent(filter: string)
    ensures Glob(Glob(filter)) == Glob(filter)
  {
    GlobIsGlobbed(filter);
    GlobbedFixed(Glob(filter));
  }

  /** A filter without '*' or '?' is its own glob form, and is offered twice when it is a valid expression. */
  lemma PlainFilter(filter: string)
    requires forall i :: 0 <= i < |filter| ==> filter[i] != '*' && filter[i] != '?'
    ensures Glob(filter) == filter && !UsesGlob(filter)
  {
    assert IsGlobbed(filter) by {
      forall i | 0 <= i < |filter| ensures filter[i] != '?' && (filter[i] == '*' ==> i > 0 && filter[i - 1] == '.') {
        assert filter[i] != '*' && filter[i] != '?';
      }
    }
    GlobbedFixed(filter);
  }

  // ---- IsAlphanumeric ----

  /** `isalnum` in the C locale. */
  predicate IsAlnum(c: char) {
    '0' <= c <= '9' || 'A' <= c <= 'Z' || 'a' <= c <= 'z'
  }

  /** IsAlphanumeric: stops at the first character that is not a letter or a digit. */
  method IsAlphanumeric(s: string) returns (r: bool)
    ensures r <==> forall i :: 0 <= i < |s| ==> IsAlnum(s[i])
  {
    for i := 0 to |s|
      invariant forall j :: 0 <= j < i ==> IsAlnum(s[j])
    {
      if !IsAlnum(s[i]) {
        return false;
      }
    }
    return true;
  }
}
