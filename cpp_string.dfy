/**
 * The parts of C++ `std::string` the parsers rely on, with `size_t`
 * arithmetic written out: positions are unsigned 64-bit values, `npos` is
 * the largest one, and `npos + 1` wraps to 0.
 */
module CppString {
  import opened Outcomes

  const SIZE_RANGE: nat := 0x1_0000_0000_0000_0000
  /** std::string::npos */
  const NPOS: nat := 0xFFFF_FFFF_FFFF_FFFF

  predicate IsSize(n: int) {
    0 <= n < SIZE_RANGE
  }

  /** Unsigned 64-bit `a - b`. */
  function SizeSub(a: nat, b: nat): (r: nat)
    requires IsSize(a) && IsSize(b)
    ensures IsSize(r)
    ensures b <= a ==> r == a - b
    ensures a < b ==> r + b == a + SIZE_RANGE
  {
    if b <= a then a - b else a - b + SIZE_RANGE
  }

  /** Unsigned 64-bit `a + b`. */
  function SizeAdd(a: nat, b: nat): (r: nat)
    requires IsSize(a) && IsSize(b)
    ensures IsSize(r)
    ensures a + b < SIZE_RANGE ==> r == a + b
    ensures a == NPOS && b == 1 ==> r == 0
  {
    if a + b < SIZE_RANGE then a + b else a + b - SIZE_RANGE
  }

  predicate OccursAt(s: string, pat: string, i: nat) {
    i + |pat| <= |s| && s[i..i + |pat|] == pat
  }

  /** `s.find(pat, from)`: the first occurrence at or after `from`, or npos. */
  function Find(s: string, pat: string, from: nat): (r: nat)
    requires |s| < NPOS
    ensures IsSize(r)
    ensures r == NPOS || (from <= r && OccursAt(s, pat, r))
    ensures forall i :: from <= i < r && i <= |s| ==> !OccursAt(s, pat, i)
    decreases |s| + 1 - from
  {
    if from + |pat| > |s| then NPOS
    else if OccursAt(s, pat, from) then from
    else Find(s, pat, from + 1)
  }

  /** `s.find_first_of(chars, from)`. */
  function FindFirstOf(s: string, chars: string, from: nat): (r: nat)
    requires |s| < NPOS
    ensures IsSize(r)
    ensures r == NPOS || (from <= r < |s| && s[r] in chars)
    ensures forall i :: from <= i < r && i < |s| ==> s[i] !in chars
    decreases |s| - from
  {
    if from >= |s| then NPOS
    else if s[from] in chars then from
    else FindFirstOf(s, chars, from + 1)
  }

  /** `s.find_first_not_of(chars, from)`. */
  function FindFirstNotOf(s: string, chars: string, from: nat): (r: nat)
    requires |s| < NPOS
    ensures IsSize(r)
    ensures r == NPOS || (from <= r < |s| && s[r] !in chars)
    ensures forall i :: from <= i < r && i < |s| ==> s[i] in chars
    decreases |s| - from
  {
    if from >= |s| then NPOS
    else if s[from] !in chars then from
    else FindFirstNotOf(s, chars, from + 1)
  }

  /** `s.find_last_not_of(chars)`: the last position whose character is not in `chars`. */
  function FindLastNotOf(s: string, chars: string): (r: nat)
    requires |s| < NPOS
    ensures IsSize(r)
    ensures r == NPOS || (r < |s| && s[r] !in chars)
    ensures forall i :: (if r == NPOS then 0 else r + 1) <= i < |s| ==> s[i] in chars
  {
    if |s| == 0 then NPOS
    else if s[|s| - 1] !in chars then |s| - 1
    else FindLastNotOf(s[..|s| - 1], chars)
  }

  /** `s.find_last_of(chars)`: the last position whose character is in `chars`. */
  function FindLastOf(s: string, chars: string): (r: nat)
    requires |s| < NPOS
    ensures IsSize(r)
    ensures r == NPOS || (r < |s| && s[r] in chars)
    ensures forall i :: (if r == NPOS then 0 else r + 1) <= i < |s| ==> s[i] !in chars
  {
    if |s| == 0 then NPOS
    else if s[|s| - 1] in chars then |s| - 1
    else FindLastOf(s[..|s| - 1], chars)
  }

  /** The characters from position `start` on; empty at or past the end (npos included). */
  function Rest(s: string, start: nat): string {
    if start < |s| then s[start..] else ""
  }

  /** `s.substr(pos, len)`: throws std::out_of_range when pos > |s|, else clamps len. */
  function Substr(s: string, pos: nat, len: nat): (r: Result<string>)
    ensures r.Ok? <==> pos <= |s|
    ensures r.Ok? ==> |r.value| == (if pos + len <= |s| then len else |s| - pos)
    ensures r.Ok? ==> r.value == s[pos..pos + |r.value|]
  {
    if pos > |s| then Fail(OutOfRange)
    else if pos + len <= |s| then Ok(s[pos..pos + len])
    else Ok(s[pos..])
  }
}
