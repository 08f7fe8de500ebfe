/**
 * Reconciling a sorted summary list with a sorted error list: a merge join
 * on (priority, key) that gives every summary and every error record a
 * display line, in one of five states.
 */
module Reconcile {
  import opened Outcomes
  import opened Text
  import opened Ordering
  import opened Records

  /** A summary record without an error: a comment line, or an unmatched reference marked "* ". */
  function SummaryOnly(s: SummaryRecord): (d: DisplayRecord)
    ensures d.level == UNKNOWN_LEVEL && d.data == s.data && d.priority == s.priority
    ensures StartsWith(s.reference, "#") ==> d.rtype == Comment && d.reference == s.reference
    ensures !StartsWith(s.reference, "#") ==> d.rtype == Unmatched && d.reference == "* " + s.reference
  {
    if StartsWith(s.reference, "#") then
      DisplayRecord(s.priority, s.reference, s.data, UNKNOWN_LEVEL, Comment, s.keyData)
    else
      DisplayRecord(s.priority, "* " + s.reference, s.data, UNKNOWN_LEVEL, Unmatched, s.keyData)
  }

  /** An error with no summary record: unchecked, with no reference. */
  function ErrorOnly(e: ErrorRecord): (d: DisplayRecord)
    ensures d.rtype == Unchecked && d.reference == "" && d.level == UNKNOWN_LEVEL
    ensures d.data == e.data && d.priority == e.priority
  {
    DisplayRecord(e.priority, "", e.data, UNKNOWN_LEVEL, Unchecked, e.data)
  }

  /**
   * A summary record and an error with the same key: checked, with the
   * summary's reference and level and the error's data; a commented-out
   * summary record leaves the error unchecked, its reference marked "! ".
   */
  function Both(s: SummaryRecord, e: ErrorRecord): (d: DisplayRecord)
    ensures d.level == s.level && d.data == e.data && d.priority == e.priority
    ensures StartsWith(s.reference, "#") ==> d.rtype == Unchecked && d.reference == "! " + s.reference
    ensures !StartsWith(s.reference, "#") ==> d.rtype == Checked && d.reference == s.reference
  {
    if StartsWith(s.reference, "#") then
      DisplayRecord(e.priority, "! " + s.reference, e.data, s.level, Unchecked, e.data)
    else
      DisplayRecord(e.priority, s.reference, e.data, s.level, Checked, e.data)
  }

  function Head<T>(xs: seq<T>, key: T -> Key): Option<Key> {
    if xs == [] then None else Some(key(xs[0]))
  }

  /** The display lines CreateDisplayList appends for a summary list and an error list. */
  function Merge(summary: seq<SummaryRecord>, errors: seq<ErrorRecord>): seq<DisplayRecord>
    decreases |summary| + |errors|
  {
    if summary == [] && errors == [] then []
    else
      var order := CompareErrors(Head(summary, SummaryKey), Head(errors, ErrorKey));
      if order == Before then [SummaryOnly(summary[0])] + Merge(summary[1..], errors)
      else if order == After then [ErrorOnly(errors[0])] + Merge(summary, errors[1..])
      else [Both(summary[0], errors[0])] + Merge(summary[1..], errors[1..])
  }

  /** The merge from positions si and ei: one display line, then the merge of what is left. */
  lemma MergeStep(summary: seq<SummaryRecord>, errors: seq<ErrorRecord>, si: nat, ei: nat)
    requires si <= |summary| && ei <= |errors| && (si < |summary| || ei < |errors|)
    ensures var order := CompareErrors(Head(summary[si..], SummaryKey), Head(errors[ei..], ErrorKey));
            && (order == Before ==>
                  && si < |summary|
                  && Merge(summary[si..], errors[ei..]) == [SummaryOnly(summary[si])] + Merge(summary[si + 1..], errors[ei..]))
            && (order == After ==>
                  && ei < |errors|
                  && Merge(summary[si..], errors[ei..]) == [ErrorOnly(errors[ei])] + Merge(summary[si..], errors[ei + 1..]))
            && (order != Before && order != After ==>
                  && si < |summary| && ei < |errors|
                  && Merge(summary[si..], errors[ei..]) == [Both(summary[si], errors[ei])] + Merge(summary[si + 1..], errors[ei + 1..]))
  {
    if si < |summary| {
      assert summary[si..][0] == summary[si] && summary[si..][1..] == summary[si + 1..];
    }
    if ei < |errors| {
      assert errors[ei..][0] == errors[ei] && errors[ei..][1..] == errors[ei + 1..];
    }
  }

  // ---- every input record is used exactly once ----

  /** A display line that stands for an error record. */
  predicate FromError(d: DisplayRecord) {
    d.rtype == Checked || d.rtype == Unchecked
  }

  /** A display line that stands for a summary record. */
  predicate FromSummary(d: DisplayRecord) {
    d.rtype == Comment || d.rtype == Unmatched || d.rtype == Checked || (d.rtype == Unchecked && d.reference != "")
  }

  /** The (priority, data) of the error records behind a display list, in order. */
  function ErrorsBehind(ds: seq<DisplayRecord>): seq<(nat, string)> {
    if ds == [] then []
    else (if FromError(ds[0]) then [(ds[0].priority, ds[0].data)] else []) + ErrorsBehind(ds[1..])
  }

  /** The reference of the summary record behind a display line: its marker removed. */
  function OriginalReference(d: DisplayRecord): string {
    if (d.rtype == Unmatched || d.rtype == Unchecked) && |d.reference| >= 2 then d.reference[2..] else d.reference
  }

  function SummariesBehind(ds: seq<DisplayRecord>): seq<string> {
    if ds == [] then []
    else (if FromSummary(ds[0]) then [OriginalReference(ds[0])] else []) + SummariesBehind(ds[1..])
  }

  function ErrorPairs(es: seq<ErrorRecord>): seq<(nat, string)> {
    if es == [] then [] else [(es[0].priority, es[0].data)] + ErrorPairs(es[1..])
  }

  function References(ss: seq<SummaryRecord>): seq<string> {
    if ss == [] then [] else [ss[0].reference] + References(ss[1..])
  }

  /** The error-side display lines are exactly the error records, in order. */
  lemma {:induction false} MergeKeepsErrors(summary: seq<SummaryRecord>, errors: seq<ErrorRecord>)
    ensures ErrorsBehind(Merge(summary, errors)) == ErrorPairs(errors)
    decreases |summary| + |errors|
  {
    if !(summary == [] && errors == []) {
      var order := CompareErrors(Head(summary, SummaryKey), Head(errors, ErrorKey));
      var m := Merge(summary, errors);
      if order == Before {
        MergeKeepsErrors(summary[1..], errors);
        assert m[1..] == Merge(summary[1..], errors);
      } else if order == After {
        MergeKeepsErrors(summary, errors[1..]);
        assert m[1..] == Merge(summary, errors[1..]);
      } else {
        MergeKeepsErrors(summary[1..], errors[1..]);
        assert m[1..] == Merge(summary[1..], errors[1..]);
      }
    }
  }

  /**
   * The summary-side display lines are exactly the summary records, in
   * order, and each gives back the record's reference once its "* " or "! "
   * marker is removed.
   */
  lemma {:induction false} MergeKeepsSummaries(summary: seq<SummaryRecord>, errors: seq<ErrorRecord>)
    requires forall i :: 0 <= i < |summary| ==> summary[i].reference != ""
    ensures SummariesBehind(Merge(summary, errors)) == References(summary)
    decreases |summary| + |errors|
  {
    if !(summary == [] && errors == []) {
      var order := CompareErrors(Head(summary, SummaryKey), Head(errors, ErrorKey));
      var m := Merge(summary, errors);
      if order == Before {
        MergeKeepsSummaries(summary[1..], errors);
        assert m[1..] == Merge(summary[1..], errors);
      } else if order == After {
        MergeKeepsSummaries(summary, errors[1..]);
        assert m[1..] == Merge(summary, errors[1..]);
      } else {
        MergeKeepsSummaries(summary[1..], errors[1..]);
        assert m[1..] == Merge(summary[1..], errors[1..]);
      }
    }
  }

  /** Number of summary/error pairs joined on equal keys. */
  function Joined(ds: seq<DisplayRecord>): nat {
    if ds == [] then 0 else (if FromError(ds[0]) && FromSummary(ds[0]) then 1 else 0) + Joined(ds[1..])
  }

  /** The display list has one line per summary record plus one per error record, less one per joined pair. */
  lemma {:induction false} MergeLength(summary: seq<SummaryRecord>, errors: seq<ErrorRecord>)
    ensures |Merge(summary, errors)| + Joined(Merge(summary, errors)) == |summary| + |errors|
    ensures |Merge(summary, errors)| >= |summary| && |Merge(summary, errors)| >= |errors|
    decreases |summary| + |errors|
  {
    if !(summary == [] && errors == []) {
      var order := CompareErrors(Head(summary, SummaryKey), Head(errors, ErrorKey));
      var m := Merge(summary, errors);
      if order == Before {
        MergeLength(summary[1..], errors);
        assert m[1..] == Merge(summary[1..], errors);
        assert !FromError(m[0]);
      } else if order == After {
        MergeLength(summary, errors[1..]);
        assert m[1..] == Merge(summary, errors[1..]);
        assert !FromSummary(m[0]);
      } else {
        MergeLength(summary[1..], errors[1..]);
        assert m[1..] == Merge(summary[1..], errors[1..]);
        assert FromError(m[0]) && FromSummary(m[0]);
      }
    }
  }

  // ---- the merge of sorted lists is sorted ----

  predicate AllAbove<T>(b: Key, xs: seq<T>, key: T -> Key) {
    forall i :: 0 <= i < |xs| ==> KeyLessEq(b, key(xs[i]))
  }

  lemma {:induction false} MergeAbove(b: Key, summary: seq<SummaryRecord>, errors: seq<ErrorRecord>)
    requires AllAbove(b, summary, SummaryKey) && AllAbove(b, errors, ErrorKey)
    ensures AllAbove(b, Merge(summary, errors), DisplayKey)
    decreases |summary| + |errors|
  {
    if !(summary == [] && errors == []) {
      var order := CompareErrors(Head(summary, SummaryKey), Head(errors, ErrorKey));
      var m := Merge(summary, errors);
      if order == Before {
        MergeAbove(b, summary[1..], errors);
        assert m[1..] == Merge(summary[1..], errors);
        assert DisplayKey(m[0]) == SummaryKey(summary[0]);
      } else if order == After {
        MergeAbove(b, summary, errors[1..]);
        assert m[1..] == Merge(summary, errors[1..]);
        assert DisplayKey(m[0]) == ErrorKey(errors[0]);
      } else {
        MergeAbove(b, summary[1..], errors[1..]);
        assert m[1..] == Merge(summary[1..], errors[1..]);
        assert DisplayKey(m[0]) == ErrorKey(errors[0]);
      }
    }
  }

  lemma SortedAbove<T>(xs: seq<T>, key: T -> Key)
    requires xs != [] && SortedBy(xs, key)
    ensures AllAbove(key(xs[0]), xs, key)
    ensures SortedBy(xs[1..], key)
  {
    forall i | 0 <= i < |xs| ensures KeyLessEq(key(xs[0]), key(xs[i])) {
      if i > 0 {
        assert KeyLessEq(key(xs[0]), key(xs[i]));
      }
    }
    forall i, j | 0 <= i < j < |xs[1..]| ensures KeyLessEq(key(xs[1..][i]), key(xs[1..][j])) {
      assert xs[1..][i] == xs[i + 1] && xs[1..][j] == xs[j + 1];
    }
  }

  lemma AboveWeaken<T>(a: Key, b: Key, xs: seq<T>, key: T -> Key)
    requires KeyLessEq(a, b) && AllAbove(b, xs, key)
    ensures AllAbove(a, xs, key)
  {
    forall i | 0 <= i < |xs| ensures KeyLessEq(a, key(xs[i])) {
      KeyLessEqTransitive(a, b, key(xs[i]));
    }
  }

  /** Merging two lists sorted by key gives a display list sorted by key. */
  lemma {:induction false} MergeSorted(summary: seq<SummaryRecord>, errors: seq<ErrorRecord>)
    requires SortedBy(summary, SummaryKey) && SortedBy(errors, ErrorKey)
    ensures SortedBy(Merge(summary, errors), DisplayKey)
    decreases |summary| + |errors|
  {
    if !(summary == [] && errors == []) {
      var hs := Head(summary, SummaryKey);
      var he := Head(errors, ErrorKey);
      var order := CompareErrors(hs, he);
      var m := Merge(summary, errors);
      var first := DisplayKey(m[0]);
      if summary != [] {
        SortedAbove(summary, SummaryKey);
      }
      if errors != [] {
        SortedAbove(errors, ErrorKey);
      }
      if order == Before {
        MergeSorted(summary[1..], errors);
        assert m[1..] == Merge(summary[1..], errors);
        assert first == hs.value;
        if errors != [] {
          AboveWeaken(first, he.value, errors, ErrorKey);
        }
        MergeAbove(first, summary[1..], errors);
      } else if order == After {
        MergeSorted(summary, errors[1..]);
        assert m[1..] == Merge(summary, errors[1..]);
        assert first == he.value;
        if summary != [] {
          AboveWeaken(first, hs.value, summary, SummaryKey);
        }
        MergeAbove(first, summary, errors[1..]);
      } else {
        MergeSorted(summary[1..], errors[1..]);
        assert m[1..] == Merge(summary[1..], errors[1..]);
        assert first == he.value == hs.value;
        MergeAbove(first, summary[1..], errors[1..]);
      }
      forall i, j | 0 <= i < j < |m| ensures KeyLessEq(DisplayKey(m[i]), DisplayKey(m[j])) {
        if i > 0 {
          assert m[i] == m[1..][i - 1] && m[j] == m[1..][j - 1];
        } else {
          assert m[j] == m[1..][j - 1];
        }
      }
    }
  }

  // ---- the merge as written: CompareErrors reads a 'keyData' error records lack ----

  function HeadEntries<T>(xs: seq<T>, entries: T -> Entries): Option<Entries> {
    if xs == [] then None else Some(entries(xs[0]))
  }

  /** Whenever the comparison as written completes, it orders the two heads as the keyed comparison does. */
  lemma HeadsAgree(summary: seq<SummaryRecord>, errors: seq<ErrorRecord>)
    ensures var order := CompareAsWritten(HeadEntries(summary, SummaryEntries), HeadEntries(errors, ErrorEntries));
            order.Ok? ==> order.value == CompareErrors(Head(summary, SummaryKey), Head(errors, ErrorKey))
  {
    if summary != [] && errors != [] && summary[0].priority != errors[0].priority {
      PriorityDecides(SummaryKey(summary[0]), ErrorKey(errors[0]),
                      EntriesKey(SummaryEntries(summary[0])), EntriesKey(ErrorEntries(errors[0])));
    }
  }

  /** One display line in front of the rest of a merge that may have raised. */
  function Prepend(d: DisplayRecord, rest: Result<seq<DisplayRecord>>): Result<seq<DisplayRecord>> {
    if rest.Fail? then Fail(rest.failure) else Ok([d] + rest.value)
  }

  /**
   * The loop of CreateDisplayList as written: the summary head is compared
   * with the error head by CompareErrors, which raises KeyError as soon as
   * the two share a priority, because an error record has no 'keyData'.
   * Whenever it completes it gives the keyed merge.
   */
  function MergeAsWritten(summary: seq<SummaryRecord>, errors: seq<ErrorRecord>): (r: Result<seq<DisplayRecord>>)
    ensures r.Ok? ==> r.value == Merge(summary, errors)
    ensures r.Fail? ==> r.failure == KeyError
    decreases |summary| + |errors|
  {
    if summary == [] && errors == [] then Ok([])
    else
      var order := CompareAsWritten(HeadEntries(summary, SummaryEntries), HeadEntries(errors, ErrorEntries));
      if order.Fail? then Fail(order.failure)
      else
        HeadsAgree(summary, errors);
        if order.value == Before then Prepend(SummaryOnly(summary[0]), MergeAsWritten(summary[1..], errors))
        else if order.value == After then Prepend(ErrorOnly(errors[0]), MergeAsWritten(summary, errors[1..]))
        // A Checked line needs equal keys, hence equal priorities, which
        // raise above: as written this branch is never reached.
        else assert false; Fail(KeyError)
  }

  /**
   * With both lists in the order they are sorted in, a summary record and an
   * error record of one priority make CreateDisplayList raise KeyError: the
   * merge advances the lower priority, so the two meet as heads.
   */
  lemma {:induction false} SharedPriorityRaises(summary: seq<SummaryRecord>, errors: seq<ErrorRecord>, i: nat, j: nat)
    requires SortedBy(summary, SummaryKey) && SortedBy(errors, ErrorKey)
    requires i < |summary| && j < |errors| && summary[i].priority == errors[j].priority
    ensures MergeAsWritten(summary, errors) == Fail(KeyError)
    decreases |summary| + |errors|
  {
    var p := summary[0].priority;
    var q := errors[0].priority;
    if p < q {
      SortedTail(summary, SummaryKey);
      assert summary[1..][i - 1] == summary[i];
      SharedPriorityRaises(summary[1..], errors, i - 1, j);
    } else if p > q {
      SortedTail(errors, ErrorKey);
      assert errors[1..][j - 1] == errors[j];
      SharedPriorityRaises(summary, errors[1..], i, j - 1);
    }
  }

  /** When no summary record shares a priority with an error record, CreateDisplayList completes with the keyed merge. */
  lemma {:induction false} DisjointPrioritiesComplete(summary: seq<SummaryRecord>, errors: seq<ErrorRecord>)
    requires forall i, j :: 0 <= i < |summary| && 0 <= j < |errors| ==> summary[i].priority != errors[j].priority
    ensures MergeAsWritten(summary, errors) == Ok(Merge(summary, errors))
    decreases |summary| + |errors|
  {
    if !(summary == [] && errors == []) {
      if summary != [] && errors != [] {
        assert summary[0].priority != errors[0].priority;
      }
      var order := CompareAsWritten(HeadEntries(summary, SummaryEntries), HeadEntries(errors, ErrorEntries));
      if order.value == Before {
        assert forall i :: 0 <= i < |summary| - 1 ==> summary[1..][i] == summary[i + 1];
        DisjointPrioritiesComplete(summary[1..], errors);
      } else if order.value == After {
        assert forall j :: 0 <= j < |errors| - 1 ==> errors[1..][j] == errors[j + 1];
        DisjointPrioritiesComplete(summary, errors[1..]);
      }
    }
  }

  /** Over sorted lists, CreateDisplayList as written completes exactly when no priority is shared by the two lists. */
  lemma AsWrittenCompletes(summary: seq<SummaryRecord>, errors: seq<ErrorRecord>)
    requires SortedBy(summary, SummaryKey) && SortedBy(errors, ErrorKey)
    ensures MergeAsWritten(summary, errors).Ok?
            <==> forall i, j :: 0 <= i < |summary| && 0 <= j < |errors| ==> summary[i].priority != errors[j].priority
  {
    if forall i, j :: 0 <= i < |summary| && 0 <= j < |errors| ==> summary[i].priority != errors[j].priority {
      DisjointPrioritiesComplete(summary, errors);
    } else {
      var i, j :| 0 <= i < |summary| && 0 <= j < |errors| && summary[i].priority == errors[j].priority;
      SharedPriorityRaises(summary, errors, i, j);
    }
  }

  /**
   * A reviewed error: the summary record and the error it checks share
   * priority 21 and the text "SHORT x". The keyed merge gives one checked
   * line; the loop as written raises KeyError.
   */
  lemma CheckedLineRaises()
    ensures var s := SummaryRecord(21, "[r] ERROR", "ERROR", "SHORT x", "SHORT x");
            var e := ErrorRecord(21, "SHORT", "SHORT x");
            && Merge([s], [e]) == [Both(s, e)] && Both(s, e).rtype == Checked
            && MergeAsWritten([s], [e]) == Fail(KeyError)
  {
    var s := SummaryRecord(21, "[r] ERROR", "ERROR", "SHORT x", "SHORT x");
    var e := ErrorRecord(21, "SHORT", "SHORT x");
    LessIrreflexive("SHORT x");
    assert !StartsWith(s.reference, "#") by { assert s.reference[0] == '['; }
    assert [s][1..] == [] && [e][1..] == [];
  }
}
