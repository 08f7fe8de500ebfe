/**
 * Inline helpers of the CVC utility header: saturating resistance
 * addition, whitespace trimming and the emptiness test.
 */
module CvcUtil {
  import opened Outcomes
  import opened CppString
  import opened CvcTypes

  /**
   * AddResistance: the new base value, computed in 64 bits so that the
   * 32-bit sum cannot wrap, and capped at MAX_RESISTANCE.
   */
  function AddResistance(base: nat, increment: nat): (r: nat)
    requires base < UINT32_RANGE && increment < UINT32_RANGE
    ensures r <= MAX_RESISTANCE
    ensures base + increment <= MAX_RESISTANCE ==> r == base + increment
    ensures base + increment > MAX_RESISTANCE ==> r == MAX_RESISTANCE
    ensures base <= MAX_RESISTANCE ==> base <= r
  {
    if base + increment > MAX_RESISTANCE then MAX_RESISTANCE else base + increment
  }

  const BLANKS: string := " \t\n"

  /**
   * trim_: `s.substr(0, s.find_last_not_of(" \t\n") + 1).substr(s.find_first_not_of(" \t\n"))`.
   * For empty or all-blank input the second substr starts at npos and throws.
   */
  function Trim(s: string): (r: Result<string>)
    requires |s| < NPOS
    ensures r.Fail? <==> forall i :: 0 <= i < |s| ==> s[i] in BLANKS
    ensures r.Ok? ==> r.value != [] && r.value[0] !in BLANKS && r.value[|r.value| - 1] !in BLANKS
  {
    var last := FindLastNotOf(s, BLANKS);
    var head := Substr(s, 0, SizeAdd(last, 1));
    var first := FindFirstNotOf(s, BLANKS, 0);
    if head.Fail? then head
    else
      assert last == NPOS ==> first == NPOS;
      assert last != NPOS ==> first <= last;
      Substr(head.value, first, NPOS)
  }

  /** Trimming a blank-padded word gives back the word. */
  lemma TrimPadded(pre: string, core: string, post: string)
    requires |pre + core + post| < NPOS
    requires forall i :: 0 <= i < |pre| ==> pre[i] in BLANKS
    requires forall i :: 0 <= i < |post| ==> post[i] in BLANKS
    requires core != [] && core[0] !in BLANKS && core[|core| - 1] !in BLANKS
    ensures Trim(pre + core + post) == Ok(core)
  {
    var s := pre + core + post;
    var last := FindLastNotOf(s, BLANKS);
    var first := FindFirstNotOf(s, BLANKS, 0);
    assert s[|pre| + |core| - 1] == core[|core| - 1];
    assert s[|pre|] == core[0];
    assert forall i :: |pre| + |core| <= i < |s| ==> s[i] == post[i - |pre| - |core|];
    assert forall i :: 0 <= i < |pre| ==> s[i] == pre[i];
    assert last == |pre| + |core| - 1;
    assert first == |pre|;
    assert s[..last + 1][first..] == core;
  }

  /** IsEmpty for a NUL-terminated text: the first character is NUL. */
  predicate IsEmptyText(text: string)
    requires text != []
  {
    text[0] == '\0'
  }

  /** IsEmpty for a std::string. */
  predicate IsEmptyString(s: string) {
    s == []
  }
}
