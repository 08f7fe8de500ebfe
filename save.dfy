/**
 * Saving and exporting the reviewed summary of every mode at once
 * (SummaryWidget.SaveSummary and ExportSummary). Each mode's display list
 * is ordered by key; the lists are walked together like a k-way merge.
 * Each round takes the least pending record over all modes and advances
 * every mode whose next record has the same reference and data. It writes
 * the line once, headed by the set of modes it holds in.
 *
 * Modes are handled by position: `modes` is the sorted list of mode names,
 * and `lists[m]` and `index[m]` are the display list and the read position
 * of mode `modes[m]`.
 */
module Saving {
  import opened Outcomes
  import opened Text
  import opened Ordering
  import opened Records

  // ---- one item per mode, and the least of them ----

  /** The next record of a mode at position i, or nothing (the source's `{}`) once its list is exhausted. */
  function Item(list: seq<DisplayRecord>, i: nat): Option<DisplayRecord> {
    if i < |list| then Some(list[i]) else None
  }

  /** Every mode has a read position within its list. */
  predicate Aligned(lists: seq<seq<DisplayRecord>>, index: seq<nat>) {
    |index| == |lists| && forall m :: 0 <= m < |lists| ==> index[m] <= |lists[m]|
  }

  /** The items of one round, one per mode. */
  function Items(lists: seq<seq<DisplayRecord>>, index: seq<nat>): (items: seq<Option<DisplayRecord>>)
    requires |index| == |lists|
  {
    seq(|lists|, m requires 0 <= m < |lists| => Item(lists[m], index[m]))
  }

  /** Some mode still has records to print. */
  predicate Pending(lists: seq<seq<DisplayRecord>>, index: seq<nat>)
    requires |index| == |lists|
  {
    exists m :: 0 <= m < |lists| && index[m] < |lists[m]|
  }

  /** _Unprinted: whether any mode has records left. */
  method Unprinted(index: seq<nat>, lists: seq<seq<DisplayRecord>>) returns (r: bool)
    requires |index| == |lists|
    ensures r <==> Pending(lists, index)
  {
    for m := 0 to |index|
      invariant forall j :: 0 <= j < m ==> index[j] >= |lists[j]|
    {
      if index[m] < |lists[m]| {
        return true;
      }
    }
    return false;
  }

  function ItemKey(item: Option<DisplayRecord>): Option<Key> {
    if item.Some? then Some(DisplayKey(item.value)) else None
  }

  /** One step of _GetLeastItem: the new item replaces the one held unless the held one sorts strictly first. */
  function Pick(held: Option<DisplayRecord>, item: Option<DisplayRecord>): Option<DisplayRecord> {
    if CompareErrors(ItemKey(held), ItemKey(item)) != Before then item else held
  }

  /** The item _GetLeastItem settles on after seeing `items` in mode order. */
  function Least(items: seq<Option<DisplayRecord>>): Option<DisplayRecord> {
    if items == [] then None else Pick(Least(items[..|items| - 1]), items[|items| - 1])
  }

  /** _GetLeastItem. */
  method GetLeastItem(items: seq<Option<DisplayRecord>>) returns (least: Option<DisplayRecord>)
    ensures least == Least(items)
  {
    least := None;
    for i := 0 to |items|
      invariant least == Least(items[..i])
    {
      assert items[..i + 1][..i] == items[..i];
      if CompareErrors(ItemKey(least), ItemKey(items[i])) != Before {
        least := items[i];
      }
    }
    assert items[..|items|] == items;
  }

  /**
   * The least item is present exactly when some item is; it is one of the
   * items, its key is at most every present key, and among the items with
   * that key it is the one of the last mode.
   */
  lemma {:induction false} LeastFacts(items: seq<Option<DisplayRecord>>)
    ensures Least(items).Some? <==> exists i :: 0 <= i < |items| && items[i].Some?
    ensures Least(items).Some? ==>
      exists j :: 0 <= j < |items| && items[j] == Least(items)
        && forall i :: j < i < |items| && items[i].Some? ==> KeyLess(DisplayKey(items[j].value), DisplayKey(items[i].value))
    ensures forall i :: 0 <= i < |items| && items[i].Some? ==>
      Least(items).Some? && KeyLessEq(DisplayKey(Least(items).value), DisplayKey(items[i].value))
  {
    if items != [] {
      var n := |items| - 1;
      var before := items[..n];
      LeastFacts(before);
      assert forall i :: 0 <= i < n ==> before[i] == items[i];
      var held := Least(before);
      var x := items[n];
      if x.Some? && held.Some? {
        var kh := DisplayKey(held.value);
        var kx := DisplayKey(x.value);
        KeyLessFacts(kh, kx);
        if !KeyLess(kh, kx) {
          assert Least(items) == x;
          assert KeyLessEq(kx, kh);
          forall i | 0 <= i < |items| && items[i].Some?
            ensures KeyLessEq(kx, DisplayKey(items[i].value))
          {
            if i < n {
              KeyLessEqTransitive(kx, kh, DisplayKey(items[i].value));
            }
          }
        } else {
          assert Least(items) == held;
          var j :| 0 <= j < n && before[j] == held
            && forall i :: j < i < n && before[i].Some? ==> KeyLess(DisplayKey(before[j].value), DisplayKey(before[i].value));
          assert items[j] == held;
        }
      }
    }
  }

  // ---- _GetLeastItem as written: CompareErrors reads a 'keyData' display records lack ----

  function ItemEntries(item: Option<DisplayRecord>): Option<Entries> {
    if item.Some? then Some(DisplayEntries(item.value)) else None
  }

  /** Whenever the comparison as written completes, it orders two items as the keyed comparison does. */
  lemma ItemsAgree(a: Option<DisplayRecord>, b: Option<DisplayRecord>)
    ensures var order := CompareAsWritten(ItemEntries(a), ItemEntries(b));
            order.Ok? ==> order.value == CompareErrors(ItemKey(a), ItemKey(b))
  {
    if a.Some? && b.Some? && a.value.priority != b.value.priority {
      PriorityDecides(DisplayKey(a.value), DisplayKey(b.value),
                      EntriesKey(DisplayEntries(a.value)), EntriesKey(DisplayEntries(b.value)));
    }
  }

  /**
   * The loop of _GetLeastItem as written: the held item meets the next one
   * through CompareErrors, which raises KeyError when both share a priority.
   * Whenever it completes it gives the keyed least item.
   */
  function LeastAsWritten(items: seq<Option<DisplayRecord>>): (r: Result<Option<DisplayRecord>>)
    ensures r.Ok? ==> r.value == Least(items)
    ensures r.Fail? ==> r.failure == KeyError
  {
    if items == [] then Ok(None)
    else
      var held := LeastAsWritten(items[..|items| - 1]);
      if held.Fail? then held
      else
        var item := items[|items| - 1];
        var order := CompareAsWritten(ItemEntries(held.value), ItemEntries(item));
        ItemsAgree(held.value, item);
        if order.Fail? then Fail(order.failure)
        else if order.value != Before then Ok(item)
        else Ok(held.value)
  }

  /**
   * Two items sharing the lowest priority seen so far make _GetLeastItem
   * raise KeyError: by the second of them, the item held has that priority.
   */
  lemma {:induction false} LeastTieRaises(items: seq<Option<DisplayRecord>>, i: nat, j: nat)
    requires i < j < |items| && items[i].Some? && items[j].Some?
    requires items[i].value.priority == items[j].value.priority
    requires forall k :: 0 <= k < j && items[k].Some? ==> items[k].value.priority >= items[j].value.priority
    ensures LeastAsWritten(items) == Fail(KeyError)
  {
    var n := |items| - 1;
    var before := items[..n];
    assert forall k :: 0 <= k < n ==> before[k] == items[k];
    if j < n {
      LeastTieRaises(before, i, j);
    } else if LeastAsWritten(before).Ok? {
      LeastFacts(before);
      var k :| 0 <= k < n && before[k] == Least(before)
        && forall m :: k < m < n && before[m].Some? ==> KeyLess(DisplayKey(before[k].value), DisplayKey(before[m].value));
      assert KeyLessEq(DisplayKey(Least(before).value), DisplayKey(before[i].value));
    }
  }

  /**
   * Two modes holding the same error, the usual case when several modes are
   * saved together: the keyed least item is that error; _GetLeastItem as
   * written raises.
   */
  lemma SameErrorRaises(d: DisplayRecord)
    ensures Least([Some(d), Some(d)]) == Some(d)
    ensures LeastAsWritten([Some(d), Some(d)]) == Fail(KeyError)
  {
    LeastTieRaises([Some(d), Some(d)], 0, 1);
    assert [Some(d), Some(d)][..1] == [Some(d)];
  }

  // ---- the modes that take part in a round ----

  /** The mode's item has the printed record's reference and data. */
  predicate Matches(out: DisplayRecord, item: Option<DisplayRecord>) {
    item.Some? && item.value.reference == out.reference && item.value.data == out.data
  }

  /** Record types written to the summary file. */
  predicate Printed(t: RecordType) {
    t == Checked || t == Comment || t == Unmatched
  }

  /** Per mode: its item matches the printed record. */
  function AppliedMask(out: DisplayRecord, items: seq<Option<DisplayRecord>>): seq<bool> {
    seq(|items|, m requires 0 <= m < |items| => Matches(out, items[m]))
  }

  /** Per mode: its item matches the printed record and is of a type that is written. */
  function OutputMask(out: DisplayRecord, items: seq<Option<DisplayRecord>>): seq<bool> {
    seq(|items|, m requires 0 <= m < |items| => Matches(out, items[m]) && Printed(items[m].value.rtype))
  }

  /** The modes among the first n whose mask entry is set, in mode order. */
  function Select(modes: seq<string>, mask: seq<bool>, n: nat): seq<string>
    requires n <= |modes| == |mask|
  {
    if n == 0 then []
    else Select(modes, mask, n - 1) + (if mask[n - 1] then [modes[n - 1]] else [])
  }

  /** The read positions after a round: each matching mode moves past its item. */
  function Advanced(out: DisplayRecord, items: seq<Option<DisplayRecord>>, index: seq<nat>): seq<nat>
    requires |index| == |items|
  {
    seq(|index|, m requires 0 <= m < |index| => if Matches(out, items[m]) then index[m] + 1 else index[m])
  }

  /** _FindOutputModes: the applied modes, the output modes and the advanced read positions. */
  method FindOutputModes(out: DisplayRecord, index: seq<nat>, items: seq<Option<DisplayRecord>>, modes: seq<string>)
    returns (applied: seq<string>, outputs: seq<string>, next: seq<nat>)
    requires |items| == |modes| == |index|
    ensures applied == Select(modes, AppliedMask(out, items), |modes|)
    ensures outputs == Select(modes, OutputMask(out, items), |modes|)
    ensures next == Advanced(out, items, index)
  {
    applied, outputs, next := [], [], index;
    for m := 0 to |modes|
      invariant applied == Select(modes, AppliedMask(out, items), m)
      invariant outputs == Select(modes, OutputMask(out, items), m)
      invariant |next| == |index|
      invariant forall j :: 0 <= j < |index| ==> next[j] == if j < m then Advanced(out, items, index)[j] else index[j]
    {
      if items[m].Some? && out.reference == items[m].value.reference && out.data == items[m].value.data {
        applied := applied + [modes[m]];
        next := next[m := next[m] + 1];
        if Printed(items[m].value.rtype) {
          outputs := outputs + [modes[m]];
        }
      }
    }
  }

  /** A mode is selected exactly when its mask entry is set; nothing more is selected than there are modes. */
  lemma {:induction false} SelectFacts(modes: seq<string>, mask: seq<bool>, n: nat)
    requires n <= |modes| == |mask|
    ensures forall x :: x in Select(modes, mask, n) <==> exists m :: 0 <= m < n && mask[m] && modes[m] == x
    ensures |Select(modes, mask, n)| <= n
    ensures |Select(modes, mask, n)| == n <==> forall m :: 0 <= m < n ==> mask[m]
  {
    if n > 0 {
      SelectFacts(modes, mask, n - 1);
    }
  }

  /** Every output mode is an applied mode. */
  lemma OutputsApplied(out: DisplayRecord, items: seq<Option<DisplayRecord>>, modes: seq<string>)
    requires |items| == |modes|
    ensures forall x :: x in Select(modes, OutputMask(out, items), |modes|) ==> x in Select(modes, AppliedMask(out, items), |modes|)
  {
    SelectFacts(modes, OutputMask(out, items), |modes|);
    SelectFacts(modes, AppliedMask(out, items), |modes|);
    forall x | x in Select(modes, OutputMask(out, items), |modes|)
      ensures x in Select(modes, AppliedMask(out, items), |modes|)
    {
      var m :| 0 <= m < |modes| && OutputMask(out, items)[m] && modes[m] == x;
      assert AppliedMask(out, items)[m];
    }
  }

  // ---- progress: the merge ends ----

  /** The records not yet printed in the first n modes. */
  function RemainingUpTo(lists: seq<seq<DisplayRecord>>, index: seq<nat>, n: nat): nat
    requires Aligned(lists, index) && n <= |lists|
  {
    if n == 0 then 0 else RemainingUpTo(lists, index, n - 1) + (|lists[n - 1]| - index[n - 1])
  }

  function Remaining(lists: seq<seq<DisplayRecord>>, index: seq<nat>): nat
    requires Aligned(lists, index)
  {
    RemainingUpTo(lists, index, |lists|)
  }

  lemma {:induction false} RemainingShrinks(lists: seq<seq<DisplayRecord>>, index: seq<nat>, next: seq<nat>, n: nat)
    requires Aligned(lists, index) && Aligned(lists, next) && n <= |lists|
    requires forall m :: 0 <= m < |lists| ==> index[m] <= next[m]
    ensures RemainingUpTo(lists, next, n) <= RemainingUpTo(lists, index, n)
    ensures (exists m :: 0 <= m < n && index[m] < next[m]) ==> RemainingUpTo(lists, next, n) < RemainingUpTo(lists, index, n)
  {
    if n > 0 {
      RemainingShrinks(lists, index, next, n - 1);
    }
  }

  /** A round advances the mode of the printed item and keeps every position within its list. */
  lemma RoundAdvances(lists: seq<seq<DisplayRecord>>, index: seq<nat>)
    requires Aligned(lists, index) && Pending(lists, index)
    ensures Least(Items(lists, index)).Some?
    ensures var items := Items(lists, index);
            var next := Advanced(Least(items).value, items, index);
            Aligned(lists, next) && Remaining(lists, next) < Remaining(lists, index)
  {
    var items := Items(lists, index);
    var p :| 0 <= p < |lists| && index[p] < |lists[p]|;
    assert items[p].Some?;
    LeastFacts(items);
    var out := Least(items).value;
    var j :| 0 <= j < |items| && items[j] == Least(items);
    var next := Advanced(out, items, index);
    assert next[j] == index[j] + 1;
    RemainingShrinks(lists, index, next, |lists|);
  }

  // ---- the state a save keeps between rounds ----

  /** The two lines printed for a discrepancy: the earlier output with its modes, then this one with its modes. */
  datatype Discrepancy = Discrepancy(lastModes: seq<string>, lastOutput: string, modes: seq<string>, output: string)

  /**
   * The widget's save variables (_InitializeSave), the text written to the
   * summary file so far, and the discrepancies reported so far.
   */
  datatype Session = Session(
    discrepancyFound: bool,
    lastAppliedModes: seq<string>,
    trueLastOutputModes: seq<string>,
    lastData: string,
    lastOutput: string,
    text: string,
    reports: seq<Discrepancy>)

  /** _InitializeSave. */
  function Initial(): (s: Session)
    ensures !s.discrepancyFound && s.text == "" && s.reports == []
  {
    Session(false, [], [], "", "", "", [])
  }

  /** The line of the summary file for a record: `reference:data`. */
  function OutputLine(d: DisplayRecord): string {
    d.reference + ":" + d.data
  }

  /**
   * _CheckDiscrepancies: comment lines are skipped; otherwise, outside an
   * auto-save, the same error data printed with a different line is a
   * discrepancy; then the line becomes the one to compare with.
   */
  function Compared(s: Session, out: DisplayRecord, output: string, applied: seq<string>, autoSave: bool): (r: Session)
    ensures r.text == s.text && r.trueLastOutputModes == s.trueLastOutputModes
    ensures StartsWith(output, "#") ==> r == s
    ensures !StartsWith(output, "#") ==> r.lastData == out.data && r.lastOutput == output && r.lastAppliedModes == applied
    ensures r.discrepancyFound <==> s.discrepancyFound || |r.reports| > |s.reports|
    ensures |r.reports| > |s.reports| <==>
              !StartsWith(output, "#") && !autoSave && out.data == s.lastData && output != s.lastOutput
  {
    if StartsWith(output, "#") then s
    else
      var found := !autoSave && out.data == s.lastData && output != s.lastOutput;
      s.(discrepancyFound := s.discrepancyFound || found,
         reports := if found then s.reports + [Discrepancy(s.lastAppliedModes, s.lastOutput, applied, output)] else s.reports,
         lastData := out.data,
         lastOutput := output,
         lastAppliedModes := applied)
  }

  /** The modes not in `outputs`, in mode order. */
  function Excluded(modes: seq<string>, outputs: seq<string>): (r: seq<string>) {
    if modes == [] then []
    else (if modes[0] in outputs then [] else [modes[0]]) + Excluded(modes[1..], outputs)
  }

  predicate StrictlySorted(names: seq<string>) {
    forall i, j :: 0 <= i < j < |names| ==> Less(names[i], names[j])
  }

  /**
   * With the modes sorted, Excluded lists exactly the set difference of the
   * modes and the output modes, strictly sorted: it is the source's
   * `sorted(set(modes).difference(outputs))`.
   */
  lemma {:induction false} ExcludedFacts(modes: seq<string>, outputs: seq<string>)
    requires StrictlySorted(modes)
    ensures forall x :: x in Excluded(modes, outputs) <==> x in modes && x !in outputs
    ensures StrictlySorted(Excluded(modes, outputs))
  {
    if modes != [] {
      var rest := modes[1..];
      assert StrictlySorted(rest) by {
        forall i, j | 0 <= i < j < |rest| ensures Less(rest[i], rest[j]) {
          assert rest[i] == modes[i + 1] && rest[j] == modes[j + 1];
        }
      }
      ExcludedFacts(rest, outputs);
      var e := Excluded(rest, outputs);
      forall k | 0 <= k < |e| ensures Less(modes[0], e[k]) {
        assert e[k] in rest;
        var i :| 0 <= i < |rest| && rest[i] == e[k];
        assert modes[i + 1] == e[k];
      }
      assert modes == [modes[0]] + rest;
    }
  }

  /** Nothing is excluded exactly when every mode is an output mode. */
  lemma {:induction false} ExcludedEmpty(modes: seq<string>, outputs: seq<string>)
    ensures Excluded(modes, outputs) == [] <==> forall i :: 0 <= i < |modes| ==> modes[i] in outputs
  {
    if modes != [] {
      ExcludedEmpty(modes[1..], outputs);
      assert forall i :: 0 < i < |modes| ==> modes[i] == modes[1..][i - 1];
    }
  }

  /** Strictly sorted names are distinct. */
  lemma SortedDistinct(names: seq<string>)
    requires StrictlySorted(names)
    ensures forall i, j :: 0 <= i < j < |names| ==> names[i] != names[j]
  {
    forall i, j | 0 <= i < j < |names| ensures names[i] != names[j] {
      LessIrreflexive(names[i]);
    }
  }

  /** The heading _OutputSummary writes before a line: none while the output modes stay the same. */
  function Heading(lastOutputs: seq<string>, outputs: seq<string>, modes: seq<string>): string {
    if outputs == lastOutputs then ""
    else if |outputs| == |modes| then "\n#ALWAYS\n"
    else "\n#IFNOT " + Join(" ", Excluded(modes, outputs)) + "\n"
  }

  /** _OutputSummary: the heading when the output modes change, then the line. */
  function Written(s: Session, output: string, outputs: seq<string>, modes: seq<string>): (r: Session)
    ensures r.trueLastOutputModes == outputs
    ensures r.discrepancyFound == s.discrepancyFound && r.reports == s.reports
    ensures r.text == s.text + Heading(s.trueLastOutputModes, outputs, modes) + output + "\n"
  {
    s.(text := s.text + Heading(s.trueLastOutputModes, outputs, modes) + output + "\n",
       trueLastOutputModes := outputs)
  }

  /**
   * When the output modes come from one round of the merge over distinct
   * modes, "#ALWAYS" is written exactly when no mode is excluded.
   */
  lemma AlwaysExactly(out: DisplayRecord, items: seq<Option<DisplayRecord>>, modes: seq<string>)
    requires |items| == |modes| && StrictlySorted(modes)
    ensures var outputs := Select(modes, OutputMask(out, items), |modes|);
            |outputs| == |modes| <==> Excluded(modes, outputs) == []
  {
    var mask := OutputMask(out, items);
    var outputs := Select(modes, mask, |modes|);
    SelectFacts(modes, mask, |modes|);
    ExcludedFacts(modes, outputs);
    ExcludedEmpty(modes, outputs);
    SortedDistinct(modes);
    if |outputs| != |modes| {
      var m :| 0 <= m < |modes| && !mask[m];
      assert forall k :: 0 <= k < |modes| && mask[k] ==> modes[k] != modes[m];
      assert modes[m] in Excluded(modes, outputs);
    } else {
      assert forall m :: 0 <= m < |modes| ==> mask[m];
    }
  }

  // ---- a whole save ----

  /** The read positions and the session between rounds. */
  datatype Progress = Progress(index: seq<nat>, session: Session)

  /** What a round settles on: the record to write, the applied and output modes, and the next read positions. */
  datatype Choice = Choice(out: DisplayRecord, applied: seq<string>, outputs: seq<string>, next: seq<nat>)

  /** The shared start of a SaveSummary and an ExportSummary round. */
  function Choose(modes: seq<string>, lists: seq<seq<DisplayRecord>>, index: seq<nat>): (c: Choice)
    requires |modes| == |lists| && Aligned(lists, index) && Pending(lists, index)
    ensures Aligned(lists, c.next) && Remaining(lists, c.next) < Remaining(lists, index)
  {
    RoundAdvances(lists, index);
    var items := Items(lists, index);
    var out := Least(items).value;
    Choice(out, Select(modes, AppliedMask(out, items), |modes|), Select(modes, OutputMask(out, items), |modes|),
           Advanced(out, items, index))
  }

  /** One round of the SaveSummary loop. */
  function Round(modes: seq<string>, lists: seq<seq<DisplayRecord>>, p: Progress, autoSave: bool): (r: Progress)
    requires |modes| == |lists| && Aligned(lists, p.index) && Pending(lists, p.index)
    ensures Aligned(lists, r.index) && Remaining(lists, r.index) < Remaining(lists, p.index)
  {
    var c := Choose(modes, lists, p.index);
    var output := OutputLine(c.out);
    var checked := Compared(p.session, c.out, output, c.applied, autoSave);
    Progress(c.next, if c.outputs != [] then Written(checked, output, c.outputs, modes) else checked)
  }

  /** The rounds of SaveSummary, until no mode has records left. */
  function Merge(modes: seq<string>, lists: seq<seq<DisplayRecord>>, p: Progress, autoSave: bool): (r: Progress)
    requires |modes| == |lists| && Aligned(lists, p.index)
    ensures Aligned(lists, r.index) && !Pending(lists, r.index)
    decreases Remaining(lists, p.index)
  {
    if Pending(lists, p.index) then Merge(modes, lists, Round(modes, lists, p, autoSave), autoSave) else p
  }

  /** Each mode starts at its first record. */
  function Start(lists: seq<seq<DisplayRecord>>): (index: seq<nat>)
    ensures Aligned(lists, index)
  {
    seq(|lists|, m requires 0 <= m < |lists| => 0)
  }

  /**
   * A later session of the same save: the discrepancies only accumulate
   * (none in an auto-save), the flag is raised exactly when one was
   * reported or it was already raised, and the text written only grows.
   */
  predicate Extends(s0: Session, s1: Session, autoSave: bool) {
    && |s1.reports| >= |s0.reports|
    && s1.reports[..|s0.reports|] == s0.reports
    && (s1.discrepancyFound <==> s0.discrepancyFound || |s1.reports| > |s0.reports|)
    && (autoSave ==> s1.reports == s0.reports)
    && StartsWith(s1.text, s0.text)
  }

  lemma RoundExtends(modes: seq<string>, lists: seq<seq<DisplayRecord>>, p: Progress, autoSave: bool)
    requires |modes| == |lists| && Aligned(lists, p.index) && Pending(lists, p.index)
    ensures Extends(p.session, Round(modes, lists, p, autoSave).session, autoSave)
  {
    var c := Choose(modes, lists, p.index);
    var checked := Compared(p.session, c.out, OutputLine(c.out), c.applied, autoSave);
    assert checked.reports[..|p.session.reports|] == p.session.reports;
  }

  lemma ExtendsTransitive(s0: Session, s1: Session, s2: Session, autoSave: bool)
    requires Extends(s0, s1, autoSave) && Extends(s1, s2, autoSave)
    ensures Extends(s0, s2, autoSave)
  {
    assert s2.reports[..|s0.reports|] == s2.reports[..|s1.reports|][..|s0.reports|];
    assert s2.text[..|s0.text|] == s2.text[..|s1.text|][..|s0.text|];
  }

  /** A whole save extends the session it starts from, and reads every record of every mode. */
  lemma {:induction false} MergeFacts(modes: seq<string>, lists: seq<seq<DisplayRecord>>, p: Progress, autoSave: bool)
    requires |modes| == |lists| && Aligned(lists, p.index)
    ensures forall m :: 0 <= m < |lists| ==> Merge(modes, lists, p, autoSave).index[m] == |lists[m]|
    ensures Extends(p.session, Merge(modes, lists, p, autoSave).session, autoSave)
    decreases Remaining(lists, p.index)
  {
    var r := Merge(modes, lists, p, autoSave);
    if Pending(lists, p.index) {
      var q := Round(modes, lists, p, autoSave);
      RoundExtends(modes, lists, p, autoSave);
      MergeFacts(modes, lists, q, autoSave);
      ExtendsTransitive(p.session, q.session, r.session, autoSave);
    } else {
      assert p.session.reports[..|p.session.reports|] == p.session.reports;
    }
    assert !Pending(lists, r.index);
  }



  /** The loop of SaveSummary and ExportSummary that takes one item from each mode. */
  method GatherItems(lists: seq<seq<DisplayRecord>>, index: seq<nat>) returns (items: seq<Option<DisplayRecord>>)
    requires |index| == |lists|
    ensures items == Items(lists, index)
  {
    items := [];
    for m := 0 to |lists|
      invariant items == Items(lists, index)[..m]
    {
      items := items + [if index[m] < |lists[m]| then Some(lists[m][index[m]]) else None];
    }
  }

  // ---- exporting as CSV ----

  /**
   * The groups the export patterns capture from a `reference,data` line:
   * reference, level, type and device, and the error count when the line
   * is a subcircuit error count. The patterns themselves are parameters of
   * the export.
   */
  datatype ExportMatch = ExportMatch(reference: string, level: string, kind: string, device: string, count: Option<string>)

  const FIXED_COLUMNS: seq<string> := ["Reference", "Level", "Type", "Device"]

  /** The `,name` columns of the header for the first n modes. */
  function ModeColumns(modes: seq<string>, n: nat): string
    requires n <= |modes|
  {
    if n == 0 then "" else ModeColumns(modes, n - 1) + "," + modes[n - 1]
  }

  /** The header line of the CSV file. */
  function CsvHeader(modes: seq<string>): string {
    "Reference,Level,Type,Device" + ModeColumns(modes, |modes|) + "\n"
  }

  /** _PrintCSVHeader. */
  method PrintCSVHeader(modes: seq<string>) returns (text: string)
    ensures text == CsvHeader(modes)
  {
    text := "Reference,Level,Type,Device";
    for m := 0 to |modes|
      invariant text == "Reference,Level,Type,Device" + ModeColumns(modes, m)
    {
      text := text + "," + modes[m];
    }
    text := text + "\n";
  }

  /** The count written under each output mode: the captured count, or "*" for a log line. */
  function CountText(e: ExportMatch): string {
    if e.count.Some? then e.count.value else "*"
  }

  /** The value of one mode's column: the count, quoted, when the line holds in that mode, else empty. */
  function Cell(count: string, mode: string, outputs: seq<string>): string {
    if mode in outputs then "'" + count else ""
  }

  /** The `,cell` columns of a row for the first n modes. */
  function Cells(count: string, outputs: seq<string>, modes: seq<string>, n: nat): string
    requires n <= |modes|
  {
    if n == 0 then "" else Cells(count, outputs, modes, n - 1) + "," + Cell(count, modes[n - 1], outputs)
  }

  /** One line of the CSV file. */
  function CsvRow(e: ExportMatch, outputs: seq<string>, modes: seq<string>): string {
    e.reference + "," + e.level + "," + e.kind + "," + e.device + Cells(CountText(e), outputs, modes, |modes|) + "\n"
  }

  /** _ExportCSV. */
  method ExportCSV(e: ExportMatch, outputs: seq<string>, modes: seq<string>) returns (text: string)
    ensures text == CsvRow(e, outputs, modes)
  {
    text := e.reference + "," + e.level + "," + e.kind + "," + e.device;
    var count := if e.count.Some? then e.count.value else "*";
    for m := 0 to |modes|
      invariant text == e.reference + "," + e.level + "," + e.kind + "," + e.device + Cells(count, outputs, modes, m)
    {
      if modes[m] in outputs {
        text := text + ",'" + count;
      } else {
        text := text + ",";
      }
    }
    text := text + "\n";
  }

  lemma {:induction false} JoinSnoc(sep: string, parts: seq<string>, x: string)
    requires |parts| >= 1
    ensures Join(sep, parts + [x]) == Join(sep, parts) + sep + x
    decreases |parts|
  {
    if |parts| > 1 {
      JoinSnoc(sep, parts[1..], x);
      assert (parts + [x])[1..] == parts[1..] + [x];
    }
  }

  /** Appending columns one at a time is joining them with commas. */
  lemma {:induction false} ColumnsJoin(first: seq<string>, columns: seq<string>, n: nat)
    requires |first| >= 1 && n <= |columns|
    ensures Join(",", first) + JoinedTail(columns, n) == Join(",", first + columns[..n])
  {
    if n == 0 {
      assert first + columns[..0] == first;
    } else {
      ColumnsJoin(first, columns, n - 1);
      JoinSnoc(",", first + columns[..n - 1], columns[n - 1]);
      assert first + columns[..n] == first + columns[..n - 1] + [columns[n - 1]];
    }
  }

  /** `,c0,c1,...` for the first n columns. */
  function JoinedTail(columns: seq<string>, n: nat): string
    requires n <= |columns|
  {
    if n == 0 then "" else JoinedTail(columns, n - 1) + "," + columns[n - 1]
  }

  /** The cells of a row, one per mode. */
  function CellList(count: string, outputs: seq<string>, modes: seq<string>): (cells: seq<string>)
    ensures |cells| == |modes|
  {
    seq(|modes|, m requires 0 <= m < |modes| => Cell(count, modes[m], outputs))
  }

  lemma {:induction false} CellsAreColumns(count: string, outputs: seq<string>, modes: seq<string>, n: nat)
    requires n <= |modes|
    ensures Cells(count, outputs, modes, n) == JoinedTail(CellList(count, outputs, modes), n)
  {
    if n > 0 {
      CellsAreColumns(count, outputs, modes, n - 1);
    }
  }

  lemma {:induction false} ModeColumnsAreColumns(modes: seq<string>, n: nat)
    requires n <= |modes|
    ensures ModeColumns(modes, n) == JoinedTail(modes, n)
  {
    if n > 0 {
      ModeColumnsAreColumns(modes, n - 1);
    }
  }

  /** Four fields joined with commas. */
  lemma JoinFour(a: string, b: string, c: string, d: string)
    ensures Join(",", [a, b, c, d]) == a + "," + b + "," + c + "," + d
  {
    assert [c, d][1..] == [d];
    assert Join(",", [c, d]) == c + "," + d;
    assert [b, c, d][1..] == [c, d];
    assert Join(",", [b, c, d]) == b + "," + Join(",", [c, d]);
    assert [a, b, c, d][1..] == [b, c, d];
  }

  /** The fixed part of the header is the four fixed columns joined with commas. */
  lemma FixedHeader()
    ensures Join(",", FIXED_COLUMNS) == "Reference,Level,Type,Device"
  {
    JoinFour("Reference", "Level", "Type", "Device");
  }

  predicate NoComma(fields: seq<string>) {
    forall i :: 0 <= i < |fields| ==> ',' !in fields[i]
  }

  /** Read back at its commas, the header gives the four fixed columns, then one column per mode. */
  lemma HeaderColumns(modes: seq<string>)
    requires NoComma(modes)
    ensures var h := CsvHeader(modes); SplitOn(h[..|h| - 1], ',') == FIXED_COLUMNS + modes
  {
    ModeColumnsAreColumns(modes, |modes|);
    ColumnsJoin(FIXED_COLUMNS, modes, |modes|);
    FixedHeader();
    assert modes[..|modes|] == modes;
    var h := CsvHeader(modes);
    assert h[..|h| - 1] == Join(",", FIXED_COLUMNS + modes);
    SplitOnJoin(FIXED_COLUMNS + modes, ',');
  }

  /**
   * Read back at its commas, a row gives the four captured fields, then one
   * cell per mode, under the header's columns: the quoted count exactly for
   * the modes the line holds in.
   */
  lemma RowColumns(e: ExportMatch, outputs: seq<string>, modes: seq<string>)
    requires NoComma([e.reference, e.level, e.kind, e.device, CountText(e)])
    ensures var r := CsvRow(e, outputs, modes);
            && SplitOn(r[..|r| - 1], ',') == [e.reference, e.level, e.kind, e.device] + CellList(CountText(e), outputs, modes)
            && |SplitOn(r[..|r| - 1], ',')| == |FIXED_COLUMNS + modes|
  {
    var fields := [e.reference, e.level, e.kind, e.device];
    var cells := CellList(CountText(e), outputs, modes);
    CellsAreColumns(CountText(e), outputs, modes, |modes|);
    ColumnsJoin(fields, cells, |modes|);
    JoinFour(e.reference, e.level, e.kind, e.device);
    assert cells[..|modes|] == cells;
    var r := CsvRow(e, outputs, modes);
    assert r[..|r| - 1] == Join(",", fields + cells);
    var named := [e.reference, e.level, e.kind, e.device, CountText(e)];
    assert ',' !in named[0] && ',' !in named[1] && ',' !in named[2] && ',' !in named[3] && ',' !in named[4];
    assert NoComma(cells) by {
      forall i | 0 <= i < |cells| ensures ',' !in cells[i] {
        assert cells[i] == Cell(CountText(e), modes[i], outputs);
      }
    }
    assert NoComma(fields + cells) by {
      forall i | 0 <= i < |fields + cells| ensures ',' !in (fields + cells)[i] {
        if i >= 4 {
          assert (fields + cells)[i] == cells[i - 4];
        }
      }
    }
    SplitOnJoin(fields + cells, ',');
  }

  /** The read positions, the CSV text and the lines no pattern matched, between rounds of an export. */
  datatype ExportProgress = ExportProgress(index: seq<nat>, csv: string, unmatched: seq<string>)

  /** The line an export round tries to match: `reference,data`. */
  function ExportLine(d: DisplayRecord): string {
    d.reference + "," + d.data
  }

  /**
   * One round of the ExportSummary loop: a line that holds in some mode and
   * is not a comment is matched by the error-count pattern, else by the log
   * pattern, and becomes a CSV row; a line neither matches is reported.
   */
  function ExportRound(modes: seq<string>, lists: seq<seq<DisplayRecord>>, p: ExportProgress,
                       errorPattern: string -> Option<ExportMatch>, logPattern: string -> Option<ExportMatch>): (r: ExportProgress)
    requires |modes| == |lists| && Aligned(lists, p.index) && Pending(lists, p.index)
    ensures Aligned(lists, r.index) && Remaining(lists, r.index) < Remaining(lists, p.index)
  {
    var c := Choose(modes, lists, p.index);
    var output := ExportLine(c.out);
    if c.outputs == [] || StartsWith(output, "#") then p.(index := c.next)
    else
      var m := if errorPattern(output).Some? then errorPattern(output) else logPattern(output);
      if m.Some? then p.(index := c.next, csv := p.csv + CsvRow(m.value, c.outputs, modes))
      else p.(index := c.next, unmatched := p.unmatched + [output])
  }

  /** The rounds of ExportSummary, until no mode has records left. */
  function Export(modes: seq<string>, lists: seq<seq<DisplayRecord>>, p: ExportProgress,
                  errorPattern: string -> Option<ExportMatch>, logPattern: string -> Option<ExportMatch>): (r: ExportProgress)
    requires |modes| == |lists| && Aligned(lists, p.index)
    ensures Aligned(lists, r.index) && !Pending(lists, r.index)
    decreases Remaining(lists, p.index)
  {
    if Pending(lists, p.index) then Export(modes, lists, ExportRound(modes, lists, p, errorPattern, logPattern), errorPattern, logPattern)
    else p
  }

  /** A record the export writes: one that holds in some mode as checked, comment or unmatched, and is not a comment line. */
  lemma ExportRowMeaning(modes: seq<string>, lists: seq<seq<DisplayRecord>>, p: ExportProgress,
                         errorPattern: string -> Option<ExportMatch>, logPattern: string -> Option<ExportMatch>)
    requires |modes| == |lists| && Aligned(lists, p.index) && Pending(lists, p.index)
    ensures var c := Choose(modes, lists, p.index);
            var r := ExportRound(modes, lists, p, errorPattern, logPattern);
            && (r.csv != p.csv ==> exists m :: 0 <= m < |modes| && modes[m] in c.outputs && p.index[m] < |lists[m]|
                                     && Printed(lists[m][p.index[m]].rtype)
                                     && ExportLine(lists[m][p.index[m]]) == ExportLine(c.out))
            && (r.csv != p.csv || r.unmatched != p.unmatched ==> !StartsWith(ExportLine(c.out), "#"))
  {
    var c := Choose(modes, lists, p.index);
    var items := Items(lists, p.index);
    var mask := OutputMask(c.out, items);
    SelectFacts(modes, mask, |modes|);
    assert c.outputs == Select(modes, mask, |modes|);
    if c.outputs != [] {
      assert c.outputs[0] in c.outputs;
      var m :| 0 <= m < |modes| && mask[m] && modes[m] == c.outputs[0];
      assert items[m] == Some(lists[m][p.index[m]]);
      assert modes[m] in c.outputs;
    }
  }
}
