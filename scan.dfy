/**
 * Character-class scanning as the C++ `std::string` members do it:
 * `find_first_of`, `find_first_not_of` and the `substr(pos, stop - pos)`
 * idiom whose unsigned length wraps when `stop` is npos or lies before `pos`.
 */
module Scan {
  import opened Outcomes
  import opened CppString

  /** `s.find_first_of(chars, from)`: the first position at or after `from` holding one of `chars`, or npos. */
  function FirstOf(s: string, chars: set<char>, from: nat): (r: nat)
    requires |s| < NPOS
    ensures r == NPOS || (from <= r < |s| && s[r] in chars)
    decreases |s| - from
  {
    if from >= |s| then NPOS
    else if s[from] in chars then from
    else FirstOf(s, chars, from + 1)
  }

  /** Nothing before the position `FirstOf` returns is one of `chars`. */
  lemma {:induction false} FirstOfFirst(s: string, chars: set<char>, from: nat)
    requires |s| < NPOS
    ensures forall i :: from <= i < FirstOf(s, chars, from) && i < |s| ==> s[i] !in chars
    decreases |s| - from
  {
    if from < |s| && s[from] !in chars {
      FirstOfFirst(s, chars, from + 1);
    }
  }

  /** `s.find_first_not_of(chars, from)`: the first position at or after `from` not holding one of `chars`, or npos. */
  function FirstNotOf(s: string, chars: set<char>, from: nat): (r: nat)
    requires |s| < NPOS
    ensures r == NPOS || (from <= r < |s| && s[r] !in chars)
    decreases |s| - from
  {
    if from >= |s| then NPOS
    else if s[from] !in chars then from
    else FirstNotOf(s, chars, from + 1)
  }

  /** Everything before the position `FirstNotOf` returns is one of `chars`. */
  lemma {:induction false} FirstNotOfFirst(s: string, chars: set<char>, from: nat)
    requires |s| < NPOS
    ensures forall i :: from <= i < FirstNotOf(s, chars, from) && i < |s| ==> s[i] in chars
    decreases |s| - from
  {
    if from < |s| && s[from] in chars {
      FirstNotOfFirst(s, chars, from + 1);
    }
  }

  /**
   * `s.substr(pos, stop - pos)` for `pos <= |s|`: up to `stop`, or to the end
   * of the text when `stop` is past it (npos) or before `pos` (the length wraps).
   */
  function Span(s: string, pos: nat, stop: nat): (r: string)
    requires pos <= |s|
    ensures |r| <= |s| - pos
  {
    s[pos..if stop < pos || stop > |s| then |s| else stop]
  }

  /** `Span` is what `substr` returns for a start inside the text and any size_t stop. */
  lemma SpanIsSubstr(s: string, pos: nat, stop: nat)
    requires pos <= |s| < NPOS && IsSize(stop)
    ensures Substr(s, pos, SizeSub(stop, pos)) == Ok(Span(s, pos, stop))
  {
  }

  /** A start past the end (npos included) makes `substr` throw std::out_of_range. */
  lemma SubstrPastEnd(s: string, pos: nat, len: nat)
    requires pos > |s|
    ensures Substr(s, pos, len) == Fail(OutOfRange)
  {
  }
}
