/**
 * The review operations of the summary viewer on one mode's display list:
 * adding a reference and level, adding a comment, clearing, committing
 * copied references, deleting lines, the whole-list undo and redo stacks,
 * copying references from another mode, and stepping the number in the
 * reference text.
 *
 * The rows the user has selected arrive as `selection`, the positions
 * (`baseIndex`) of the selected rows in the display list.
 */
module Review {
  import opened Outcomes
  import opened Text
  import opened Ordering
  import opened Records
  import opened RunResult
  import Tally

  // ---- the edit applied to one selected record ----

  /** What AddReference does with an existing reference: ask first, replace it, or keep it and change its level. */
  datatype ReferenceAction = Ask | Replace | Keep

  /** The edit one button applies to every selected record. */
  datatype Edit =
    | SetReference(level: string, action: ReferenceAction, reference: string)
    | SetComment(comment: string)
    | ClearEdit
    | CommitEdit

  /** Python's `s[n:]`: empty when s is shorter than n. */
  function DropFirst(s: string, n: nat): (r: string)
    ensures |s| >= n ==> s == s[..n] + r
    ensures |s| < n ==> r == []
  {
    if |s| >= n then s[n..] else []
  }

  /** The reference box text, stripped and wrapped in "[" "]" unless it already starts with "[". */
  function Bracketed(text: string): (r: string)
    ensures StartsWith(r, "[")
    ensures r == Strip(text) || r == "[" + Strip(text) + "]"
  {
    var t := Strip(text);
    if StartsWith(t, "[") then t else "[" + t + "]"
  }

  /** The comment box text, stripped and prefixed with "#" unless it already starts with "#". */
  function Hashed(text: string): (r: string)
    ensures StartsWith(r, "#")
    ensures r == Strip(text) || r == "#" + Strip(text)
  {
    var t := Strip(text);
    if StartsWith(t, "#") then t else "#" + t
  }

  /** "] " starts at position i of s. */
  predicate MarkAt(s: string, i: nat) {
    i + 1 < |s| && s[i] == ']' && s[i + 1] == ' '
  }

  /** The position of the first "] " in s at or after `from`, if any. */
  function LevelMark(s: string, from: nat): (r: Option<nat>)
    ensures r.Some? ==> from <= r.value && MarkAt(s, r.value)
    ensures forall i :: from <= i && (r.None? || i < r.value) ==> !MarkAt(s, i)
    decreases |s| - from
  {
    if from + 1 >= |s| then None
    else if MarkAt(s, from) then Some(from)
    else LevelMark(s, from + 1)
  }

  /** `re.sub(r"\] .*", "] " + level, reference)`: everything from the first "] " on becomes "] level". */
  function KeepLevel(reference: string, level: string): (r: string)
  {
    match LevelMark(reference, 0)
    case None => reference
    case Some(p) => reference[..p] + "] " + level
  }

  /** The selected record after one edit. */
  function Apply(e: Edit, d: DisplayRecord): (r: DisplayRecord)
    ensures DisplayKey(r) == DisplayKey(d) && r.data == d.data
  {
    match e
    case SetReference(level, action, reference) =>
      d.(level := level, rtype := Checked,
         reference := if action == Replace then reference + " " + level else KeepLevel(d.reference, level))
    case SetComment(comment) =>
      d.(level := UNKNOWN_LEVEL, rtype := Comment,
         reference := comment + " " + (if StartsWith(d.reference, "* ") then d.reference[2..] else d.reference))
    case ClearEdit =>
      if d.rtype == Comment || d.rtype == Unmatched then d.(level := UNKNOWN_LEVEL, rtype := Unmatched, reference := "* ")
      else d.(level := UNKNOWN_LEVEL, rtype := Unchecked, reference := "")
    case CommitEdit =>
      d.(rtype := Checked, reference := DropFirst(d.reference, 2))
  }

  predicate InRange(selection: seq<nat>, n: nat) {
    forall k :: 0 <= k < |selection| ==> selection[k] < n
  }

  /** The display list after the edit of each selected position, in selection order. */
  function ApplyAt(e: Edit, list: seq<DisplayRecord>, selection: seq<nat>): (r: seq<DisplayRecord>)
    requires InRange(selection, |list|)
    ensures |r| == |list|
    decreases |selection|
  {
    if selection == [] then list
    else ApplyAt(e, list[selection[0] := Apply(e, list[selection[0]])], selection[1..])
  }

  predicate Distinct(selection: seq<nat>) {
    forall j, k :: 0 <= j < k < |selection| ==> selection[j] != selection[k]
  }

  /** Each selected record is edited once and every other record is left alone. */
  lemma {:induction false} ApplyAtEffect(e: Edit, list: seq<DisplayRecord>, selection: seq<nat>, i: nat)
    requires InRange(selection, |list|) && Distinct(selection) && i < |list|
    ensures ApplyAt(e, list, selection)[i] == if i in selection then Apply(e, list[i]) else list[i]
    decreases |selection|
  {
    if selection != [] {
      var next := list[selection[0] := Apply(e, list[selection[0]])];
      assert Distinct(selection[1..]) by {
        forall j, k | 0 <= j < k < |selection[1..]| ensures selection[1..][j] != selection[1..][k] {
          assert selection[1..][j] == selection[j + 1] && selection[1..][k] == selection[k + 1];
        }
      }
      ApplyAtEffect(e, next, selection[1..], i);
      if i == selection[0] {
        assert i !in selection[1..] by {
          forall k | 0 <= k < |selection[1..]| ensures selection[1..][k] != i {
            assert selection[1..][k] == selection[k + 1];
          }
        }
      } else {
        assert i in selection <==> i in selection[1..] by {
          assert selection == [selection[0]] + selection[1..];
        }
      }
    }
  }

  /** No edit moves a record: the keys, and so the order, of the list stay as they were. */
  lemma {:induction false} ApplyAtKeys(e: Edit, list: seq<DisplayRecord>, selection: seq<nat>, i: nat)
    requires InRange(selection, |list|) && i < |list|
    ensures DisplayKey(ApplyAt(e, list, selection)[i]) == DisplayKey(list[i])
    ensures ApplyAt(e, list, selection)[i].data == list[i].data
    decreases |selection|
  {
    if selection != [] {
      ApplyAtKeys(e, list[selection[0] := Apply(e, list[selection[0]])], selection[1..], i);
    }
  }

  // ---- what each button leaves in a record ----

  /** Replacing gives "[ref] LEVEL"; both actions make the record checked with the new level. */
  lemma ReferenceReplaced(d: DisplayRecord, text: string, level: string)
    ensures var r := Apply(SetReference(level, Replace, Bracketed(text)), d);
            r.rtype == Checked && r.level == level && StartsWith(r.reference, "[")
            && (r.reference == Strip(text) + " " + level || r.reference == "[" + Strip(text) + "] " + level)
  {
  }

  /** Keeping the reference of "[ref] OLD" changes only the level, when "[ref]" holds no "] ". */
  lemma {:induction false} ReferenceKept(d: DisplayRecord, reference: string, old_level: string, level: string)
    requires d.reference == reference + " " + old_level
    requires reference != [] && reference[|reference| - 1] == ']'
    requires forall i :: 0 <= i ==> !MarkAt(reference, i)
    ensures Apply(SetReference(level, Keep, ""), d).reference == reference + " " + level
  {
    var s := d.reference;
    var p := |reference| - 1;
    assert MarkAt(s, p);
    forall i | 0 <= i < p ensures !MarkAt(s, i) {
      assert !MarkAt(reference, i);
    }
    assert LevelMark(s, 0) == Some(p);
    assert s[..p] + "] " == reference + " ";
  }

  /** A comment on an unmatched line keeps its old reference text without the "* " marker. */
  lemma CommentKeepsText(d: DisplayRecord, text: string, original: string)
    requires d.reference == "* " + original
    ensures Apply(SetComment(Hashed(text)), d).reference == Hashed(text) + " " + original
    ensures Apply(SetComment(Hashed(text)), d).rtype == Comment
  {
    assert d.reference[2..] == original;
  }

  /** Clearing sends comments and unmatched lines back to unmatched, everything else to unchecked. */
  lemma ClearFacts(d: DisplayRecord)
    ensures Apply(ClearEdit, d).level == UNKNOWN_LEVEL
    ensures (d.rtype == Comment || d.rtype == Unmatched) <==> Apply(ClearEdit, d).rtype == Unmatched
    ensures Apply(ClearEdit, d).rtype == Unmatched ==> Apply(ClearEdit, d).reference == "* "
    ensures Apply(ClearEdit, d).rtype != Unmatched ==> Apply(ClearEdit, d).rtype == Unchecked && Apply(ClearEdit, d).reference == ""
  {
  }

  /** Clearing twice is clearing once. */
  lemma ClearIdempotent(d: DisplayRecord)
    ensures Apply(ClearEdit, Apply(ClearEdit, d)) == Apply(ClearEdit, d)
  {
  }

  // ---- copying references from another mode ----

  /** The copy filters: which source levels are copied, and whether comments are. */
  datatype CopyFilter = CopyFilter(error: bool, warning: bool, check: bool, ignore: bool, comment: bool)

  predicate LevelCopied(f: CopyFilter, level: string) {
    (level == "ERROR" && f.error) || (level == "Warning" && f.warning)
    || (level == "Check" && f.check) || (level == "ignore" && f.ignore)
  }

  /** The target record after meeting a source record with the same key. */
  function Copied(source: DisplayRecord, target: DisplayRecord, f: CopyFilter): (r: DisplayRecord)
    ensures DisplayKey(r) == DisplayKey(target) && r.data == target.data
  {
    if target.rtype == Unchecked && source.rtype == Checked then
      if LevelCopied(f, source.level) then
        target.(rtype := Uncommitted, level := source.level, reference := "? " + source.reference)
      else target
    else if target.rtype == Unmatched && source.rtype == Comment && f.comment then
      target.(rtype := Comment, level := UNKNOWN_LEVEL, reference := source.reference)
    else target
  }

  /** A copied check waits for a commit, and committing it restores the source's reference and level. */
  lemma CopyThenCommit(source: DisplayRecord, target: DisplayRecord, f: CopyFilter)
    requires target.rtype == Unchecked && source.rtype == Checked && LevelCopied(f, source.level)
    ensures Copied(source, target, f).rtype == Uncommitted
    ensures var c := Apply(CommitEdit, Copied(source, target, f));
            c.rtype == Checked && c.reference == source.reference && c.level == source.level
  {
    assert ("? " + source.reference)[2..] == source.reference;
  }

  /**
   * The target list after the two-position walk of CopyReferences: the
   * smaller key advances, equal keys copy and advance both.
   */
  function CopyMerge(source: seq<DisplayRecord>, target: seq<DisplayRecord>, si: nat, ti: nat, f: CopyFilter): (r: seq<DisplayRecord>)
    requires si <= |source| && ti <= |target|
    ensures |r| == |target|
    decreases |source| - si + |target| - ti
  {
    if si == |source| || ti == |target| then target
    else
      var order := CompareErrors(Some(DisplayKey(source[si])), Some(DisplayKey(target[ti])));
      if order == Before then CopyMerge(source, target, si + 1, ti, f)
      else if order == After then CopyMerge(source, target, si, ti + 1, f)
      else CopyMerge(source, target[ti := Copied(source[si], target[ti], f)], si + 1, ti + 1, f)
  }

  /**
   * CopyReferences changes no key and no data, and each target record is
   * either left alone or updated from a source record with its key; the
   * records before `ti` are never touched.
   */
  lemma {:induction false} CopyMergeEffect(source: seq<DisplayRecord>, target: seq<DisplayRecord>, si: nat, ti: nat, f: CopyFilter, i: nat)
    requires si <= |source| && ti <= |target| && i < |target|
    ensures var r := CopyMerge(source, target, si, ti, f);
            && DisplayKey(r[i]) == DisplayKey(target[i]) && r[i].data == target[i].data
            && (r[i] == target[i] || exists j :: si <= j < |source| && DisplayKey(source[j]) == DisplayKey(target[i])
                                                  && r[i] == Copied(source[j], target[i], f))
            && (i < ti ==> r[i] == target[i])
    decreases |source| - si + |target| - ti
  {
    if si == |source| || ti == |target| {
    } else {
      var o := CompareErrors(Some(DisplayKey(source[si])), Some(DisplayKey(target[ti])));
      if o == Before {
        CopyMergeEffect(source, target, si + 1, ti, f, i);
      } else if o == After {
        CopyMergeEffect(source, target, si, ti + 1, f, i);
      } else {
        var next := target[ti := Copied(source[si], target[ti], f)];
        CopyMergeEffect(source, next, si + 1, ti + 1, f, i);
        if i == ti {
          assert DisplayKey(source[si]) == DisplayKey(target[ti]);
        }
      }
    }
  }

  /** A target record whose key no source record has is never changed. */
  lemma NoPartnerUnchanged(source: seq<DisplayRecord>, target: seq<DisplayRecord>, f: CopyFilter, i: nat)
    requires i < |target|
    requires forall j :: 0 <= j < |source| ==> DisplayKey(source[j]) != DisplayKey(target[i])
    ensures CopyMerge(source, target, 0, 0, f)[i] == target[i]
  {
    CopyMergeEffect(source, target, 0, 0, f, i);
  }

  /**
   * The walk of CopyReferences as written: CompareErrors reads a 'keyData'
   * that display records lack, so two heads of one priority raise KeyError.
   * Whenever it completes it gives the keyed walk.
   */
  function CopyMergeAsWritten(source: seq<DisplayRecord>, target: seq<DisplayRecord>, si: nat, ti: nat, f: CopyFilter): (r: Result<seq<DisplayRecord>>)
    requires si <= |source| && ti <= |target|
    ensures r.Ok? ==> r.value == CopyMerge(source, target, si, ti, f)
    ensures r.Fail? ==> r.failure == KeyError
    decreases |source| - si + |target| - ti
  {
    if si == |source| || ti == |target| then Ok(target)
    else
      var order := CompareAsWritten(Some(DisplayEntries(source[si])), Some(DisplayEntries(target[ti])));
      if order.Fail? then Fail(order.failure)
      else
        PriorityDecides(DisplayKey(source[si]), DisplayKey(target[ti]),
                        EntriesKey(DisplayEntries(source[si])), EntriesKey(DisplayEntries(target[ti])));
        if order.value == Before then CopyMergeAsWritten(source, target, si + 1, ti, f)
        else if order.value == After then CopyMergeAsWritten(source, target, si, ti + 1, f)
        // Copying needs equal keys, hence equal priorities, which raise
        // above: as written no reference is ever copied.
        else assert false; Fail(KeyError)
  }

  /**
   * Over sorted lists, a source record and a target record of one priority
   * make CopyReferences raise KeyError: the walk advances the lower
   * priority, so the two meet as heads.
   */
  lemma {:induction false} CopyWalkRaises(source: seq<DisplayRecord>, target: seq<DisplayRecord>, si: nat, ti: nat, f: CopyFilter, i: nat, j: nat)
    requires SortedBy(source, DisplayKey) && SortedBy(target, DisplayKey)
    requires si <= i < |source| && ti <= j < |target| && source[i].priority == target[j].priority
    ensures CopyMergeAsWritten(source, target, si, ti, f) == Fail(KeyError)
    decreases |source| - si + |target| - ti
  {
    if source[si].priority < target[ti].priority {
      CopyWalkRaises(source, target, si + 1, ti, f, i, j);
    } else if source[si].priority > target[ti].priority {
      CopyWalkRaises(source, target, si, ti + 1, f, i, j);
    }
  }

  /** When no source record shares a priority with a target record, CopyReferences completes with the keyed walk. */
  lemma {:induction false} CopyDisjointCompletes(source: seq<DisplayRecord>, target: seq<DisplayRecord>, si: nat, ti: nat, f: CopyFilter)
    requires si <= |source| && ti <= |target|
    requires forall i, j :: si <= i < |source| && ti <= j < |target| ==> source[i].priority != target[j].priority
    ensures CopyMergeAsWritten(source, target, si, ti, f) == Ok(CopyMerge(source, target, si, ti, f))
    decreases |source| - si + |target| - ti
  {
    if si < |source| && ti < |target| {
      if source[si].priority < target[ti].priority {
        CopyDisjointCompletes(source, target, si + 1, ti, f);
      } else {
        CopyDisjointCompletes(source, target, si, ti + 1, f);
      }
    }
  }

  // ---- the whole-list undo and redo stacks ----

  /** A display list with its undo and redo stacks (the last element is the top). */
  datatype History = History(display: seq<DisplayRecord>, undo: seq<seq<DisplayRecord>>, redo: seq<seq<DisplayRecord>>)

  /** _AddUndo then a change to `display`: the old list is pushed and the redo stack emptied. */
  function Edited(h: History, display: seq<DisplayRecord>): (r: History)
    ensures |r.undo| == |h.undo| + 1 && r.redo == []
  {
    History(display, h.undo + [h.display], [])
  }

  /**
   * UndoChanges: the current list is pushed on the redo stack, then the top
   * of the undo stack is popped into place; an empty undo stack raises
   * IndexError after the push.
   */
  function Undone(h: History): (r: (History, Option<Failure>))
    ensures r.1.Some? <==> h.undo == []
    ensures |r.0.redo| == |h.redo| + 1
  {
    if h.undo == [] then (h.(redo := h.redo + [h.display]), Some(IndexError))
    else (History(h.undo[|h.undo| - 1], h.undo[..|h.undo| - 1], h.redo + [h.display]), None)
  }

  /** RedoChanges, the mirror image of UndoChanges. */
  function Redone(h: History): (r: (History, Option<Failure>))
    ensures r.1.Some? <==> h.redo == []
    ensures |r.0.undo| == |h.undo| + 1
  {
    if h.redo == [] then (h.(undo := h.undo + [h.display]), Some(IndexError))
    else (History(h.redo[|h.redo| - 1], h.undo + [h.display], h.redo[..|h.redo| - 1]), None)
  }

  /** Undo then redo gives back the list and both stacks. */
  lemma UndoRedo(h: History)
    requires h.undo != []
    ensures Redone(Undone(h).0) == (h, None)
  {
    assert h.undo[..|h.undo| - 1] + [h.undo[|h.undo| - 1]] == h.undo;
    assert (h.redo + [h.display])[..|h.redo|] == h.redo;
  }

  /** Redo then undo gives back the list and both stacks. */
  lemma RedoUndo(h: History)
    requires h.redo != []
    ensures Undone(Redone(h).0) == (h, None)
  {
    assert h.redo[..|h.redo| - 1] + [h.redo[|h.redo| - 1]] == h.redo;
    assert (h.undo + [h.display])[..|h.undo|] == h.undo;
  }

  /** Undoing an edit restores the list before it and the undo stack, and offers the edit for redo. */
  lemma UndoEdit(h: History, display: seq<DisplayRecord>)
    ensures Undone(Edited(h, display)) == (History(h.display, h.undo, [display]), None)
  {
    var u := h.undo + [h.display];
    assert u[|u| - 1] == h.display;
    assert u[..|u| - 1] == h.undo;
    assert [] + [display] == [display];
  }

  // ---- the tab contents of one mode ----

  /** One mode's tab: its report (holding the display list) and its undo and redo stacks. */
  class ModeContent {
    const report: ResultFile
    var undoList: seq<seq<DisplayRecord>>
    var redoList: seq<seq<DisplayRecord>>

    constructor (report: ResultFile)
      ensures this.report == report && undoList == [] && redoList == []
    {
      this.report := report;
      undoList := [];
      redoList := [];
    }

    function State(): History
      reads this, report
    {
      History(report.displayList, undoList, redoList)
    }

    /** _AddUndo: push a copy of the display list and forget the redo stack. */
    method AddUndo()
      modifies `undoList, `redoList
      ensures undoList == old(undoList) + [report.displayList] && redoList == []
    {
      undoList := undoList + [report.displayList];
      redoList := [];
    }

    /** UndoChanges, followed by the recount when it succeeds. */
    method UndoChanges() returns (failure: Option<Failure>)
      modifies `undoList, `redoList, report`displayList, report`errorCount, report`checkCount, report`errorDetails, report`percentage
      ensures State() == Undone(old(State())).0
      ensures Undone(old(State())).1.Some? ==> failure == Undone(old(State())).1
      ensures Undone(old(State())).1.None? ==> report.Counted(failure, old(report.percentage))
    {
      redoList := redoList + [report.displayList];
      if undoList == [] {
        return Some(IndexError);
      }
      report.displayList := undoList[|undoList| - 1];
      undoList := undoList[..|undoList| - 1];
      failure := report.CountErrors();
    }

    /** RedoChanges, followed by the recount when it succeeds. */
    method RedoChanges() returns (failure: Option<Failure>)
      modifies `undoList, `redoList, report`displayList, report`errorCount, report`checkCount, report`errorDetails, report`percentage
      ensures State() == Redone(old(State())).0
      ensures Redone(old(State())).1.Some? ==> failure == Redone(old(State())).1
      ensures Redone(old(State())).1.None? ==> report.Counted(failure, old(report.percentage))
    {
      undoList := undoList + [report.displayList];
      if redoList == [] {
        return Some(IndexError);
      }
      report.displayList := redoList[|redoList| - 1];
      redoList := redoList[..|redoList| - 1];
      failure := report.CountErrors();
    }

    /** The edit of one button applied to the selected rows, in selection order. */
    method EditSelected(e: Edit, selection: seq<nat>)
      requires InRange(selection, |report.displayList|)
      modifies report`displayList
      ensures report.displayList == ApplyAt(e, old(report.displayList), selection)
    {
      var k := 0;
      while k < |selection|
        invariant k <= |selection| && |report.displayList| == |old(report.displayList)|
        invariant ApplyAt(e, old(report.displayList), selection) == ApplyAt(e, report.displayList, selection[k..])
      {
        var i := selection[k];
        assert selection[k..][1..] == selection[k + 1..];
        report.displayList := report.displayList[i := Apply(e, report.displayList[i])];
        k := k + 1;
      }
    }

    /**
     * The common shape of the review buttons: push the undo copy, edit the
     * selected rows, recount.
     */
    method Review(e: Edit, selection: seq<nat>) returns (failure: Option<Failure>)
      requires InRange(selection, |report.displayList|)
      modifies `undoList, `redoList, report`displayList, report`errorCount, report`checkCount, report`errorDetails, report`percentage
      ensures State() == Edited(old(State()), ApplyAt(e, old(report.displayList), selection))
      ensures report.Counted(failure, old(report.percentage))
    {
      AddUndo();
      EditSelected(e, selection);
      failure := report.CountErrors();
    }

    /**
     * AddReference: "ask" only opens the question and changes nothing;
     * otherwise the selected rows become checked with `level` and the
     * typed reference (or their old one with the new level).
     */
    method AddReference(level: string, action: ReferenceAction, text: string, selection: seq<nat>)
      returns (failure: Option<Failure>)
      requires InRange(selection, |report.displayList|)
      modifies `undoList, `redoList, report`displayList, report`errorCount, report`checkCount, report`errorDetails, report`percentage
      ensures action == Ask ==> State() == old(State()) && failure.None?
      ensures action != Ask ==>
                && State() == Edited(old(State()), ApplyAt(SetReference(level, action, Bracketed(text)), old(report.displayList), selection))
                && report.Counted(failure, old(report.percentage))
    {
      if action == Ask {
        return None;
      }
      failure := Review(SetReference(level, action, Bracketed(text)), selection);
    }

    /** AddComment: the selected rows become comments led by the typed comment. */
    method AddComment(text: string, selection: seq<nat>) returns (failure: Option<Failure>)
      requires InRange(selection, |report.displayList|)
      modifies `undoList, `redoList, report`displayList, report`errorCount, report`checkCount, report`errorDetails, report`percentage
      ensures State() == Edited(old(State()), ApplyAt(SetComment(Hashed(text)), old(report.displayList), selection))
      ensures report.Counted(failure, old(report.percentage))
    {
      failure := Review(SetComment(Hashed(text)), selection);
    }

    /** ClearReference: the selected rows lose their reference and level. */
    method ClearReference(selection: seq<nat>) returns (failure: Option<Failure>)
      requires InRange(selection, |report.displayList|)
      modifies `undoList, `redoList, report`displayList, report`errorCount, report`checkCount, report`errorDetails, report`percentage
      ensures State() == Edited(old(State()), ApplyAt(ClearEdit, old(report.displayList), selection))
      ensures report.Counted(failure, old(report.percentage))
    {
      failure := Review(ClearEdit, selection);
    }

    /** CommitReferences: the selected rows become checked and lose the first two characters ("? ") of their reference. */
    method CommitReferences(selection: seq<nat>) returns (failure: Option<Failure>)
      requires InRange(selection, |report.displayList|)
      modifies `undoList, `redoList, report`displayList, report`errorCount, report`checkCount, report`errorDetails, report`percentage
      ensures State() == Edited(old(State()), ApplyAt(CommitEdit, old(report.displayList), selection))
      ensures report.Counted(failure, old(report.percentage))
    {
      failure := Review(CommitEdit, selection);
    }

    /**
     * DeleteSummary: the selected rows are deleted, the highest position
     * first so that the lower positions stay valid.
     */
    method DeleteSummary(selection: seq<nat>) returns (failure: Option<Failure>)
      requires InRange(selection, |report.displayList|)
      modifies `undoList, `redoList, report`displayList, report`errorCount, report`checkCount, report`errorDetails, report`percentage
      ensures State() == Edited(old(State()), Kept(old(report.displayList), selection, 0))
      ensures report.Counted(failure, old(report.percentage))
    {
      AddUndo();
      DeleteSelected(selection);
      failure := report.CountErrors();
    }

    /** The deletions of DeleteSummary, from the highest position down. */
    method DeleteSelected(selection: seq<nat>)
      modifies report`displayList
      ensures report.displayList == Kept(old(report.displayList), selection, 0)
    {
      ghost var list := report.displayList;
      var i: nat := |report.displayList|;
      while i > 0
        invariant i <= |list|
        invariant report.displayList == list[..i] + Kept(list, selection, i)
      {
        i := i - 1;
        if i in selection {
          report.displayList := report.displayList[..i] + report.displayList[i + 1..];
        } else {
          assert list[..i + 1] == list[..i] + [list[i]];
        }
      }
    }

    /** CopyReferences into this tab from the source list: push the undo copy, copy, recount. */
    method CopyReferences(source: seq<DisplayRecord>, f: CopyFilter) returns (failure: Option<Failure>)
      modifies `undoList, `redoList, report`displayList, report`errorCount, report`checkCount, report`errorDetails, report`percentage
      ensures State() == Edited(old(State()), CopyMerge(source, old(report.displayList), 0, 0, f))
      ensures report.Counted(failure, old(report.percentage))
    {
      AddUndo();
      CopyFrom(source, f);
      failure := report.CountErrors();
    }

    /** The two-position walk of CopyReferences over the source and this tab's display list. */
    method CopyFrom(source: seq<DisplayRecord>, f: CopyFilter)
      modifies report`displayList
      ensures report.displayList == CopyMerge(source, old(report.displayList), 0, 0, f)
    {
      var si := 0;
      var ti := 0;
      while si < |source| && ti < |report.displayList|
        invariant si <= |source| && ti <= |report.displayList|
        invariant CopyMerge(source, old(report.displayList), 0, 0, f) == CopyMerge(source, report.displayList, si, ti, f)
        decreases |source| - si + |report.displayList| - ti
      {
        var order := CompareErrors(Some(DisplayKey(source[si])), Some(DisplayKey(report.displayList[ti])));
        if order == Before {
          si := si + 1;
        } else if order == After {
          ti := ti + 1;
        } else {
          report.displayList := report.displayList[ti := Copied(source[si], report.displayList[ti], f)];
          si := si + 1;
          ti := ti + 1;
        }
      }
    }

    /**
     * _UpdateDisplayList, walked from the end so that deletions keep the
     * lower positions valid: copied references are committed when
     * `autoCommit`; unmatched lines lose their "* " marker while the file is
     * written when `saveUnmatched`, and are deleted otherwise.
     */
    method UpdateDisplayList(autoCommit: bool, saveUnmatched: bool)
      modifies report`displayList
      ensures report.displayList == ForSave(old(report.displayList), autoCommit, saveUnmatched, 0)
    {
      ghost var list := report.displayList;
      var i: nat := |report.displayList|;
      while i > 0
        invariant i <= |list|
        invariant report.displayList == list[..i] + ForSave(list, autoCommit, saveUnmatched, i)
      {
        i := i - 1;
        ghost var head := list[..i];
        ghost var tail := ForSave(list, autoCommit, saveUnmatched, i + 1);
        assert list[..i + 1] == head + [list[i]];
        assert report.displayList == head + [list[i]] + tail;
        var d := report.displayList[i];
        if d.rtype == Uncommitted && autoCommit {
          report.displayList := report.displayList[i := d.(reference := DropFirst(d.reference, 2), rtype := Checked)];
        } else if d.rtype == Unmatched && saveUnmatched {
          report.displayList := report.displayList[i := d.(reference := DropFirst(d.reference, 2))];
        } else if d.rtype == Unmatched && !saveUnmatched {
          report.displayList := report.displayList[..i] + report.displayList[i + 1..];
          assert report.displayList == head + tail;
        }
        assert report.displayList == head + SavedForm(d, autoCommit, saveUnmatched) + tail;
      }
    }

    /**
     * One tab's part of _GetDisplayLists: an undo copy is pushed when the
     * counts show uncommitted lines to commit or unmatched lines to delete,
     * then the list is updated for the save.
     */
    method PrepareForSave(autoCommit: bool, saveUnmatched: bool)
      requires "uncommitted" in report.errorCount && "unmatched" in report.errorCount
      modifies `undoList, `redoList, report`displayList
      ensures report.displayList == ForSave(old(report.displayList), autoCommit, saveUnmatched, 0)
      ensures undoList == if UndoNeeded(old(report.errorCount), autoCommit, saveUnmatched) then old(undoList) + [old(report.displayList)] else old(undoList)
      ensures redoList == if UndoNeeded(old(report.errorCount), autoCommit, saveUnmatched) then [] else old(redoList)
    {
      if report.errorCount["uncommitted"] > 0 && autoCommit {
        AddUndo();
      } else if report.errorCount["unmatched"] > 0 && !saveUnmatched {
        AddUndo();
      }
      UpdateDisplayList(autoCommit, saveUnmatched);
    }

    /** One tab's part of _FinalizeSave: the recount, then the "* " marker put back on unmatched lines. */
    method FinalizeSave(saveUnmatched: bool) returns (failure: Option<Failure>)
      modifies report`displayList, report`errorCount, report`checkCount, report`errorDetails, report`percentage
      ensures report.displayList == if saveUnmatched then Remarked(old(report.displayList)) else old(report.displayList)
      ensures report.Counted(failure, old(report.percentage))
    {
      failure := report.CountErrors();
      if saveUnmatched {
        ghost var counted := report.displayList;
        Remark();
        RemarkedTally(counted);
      }
    }

    /** The loop of _FinalizeSave that puts "* " back in front of each unmatched reference. */
    method Remark()
      modifies report`displayList
      ensures report.displayList == Remarked(old(report.displayList))
    {
      ghost var list := report.displayList;
      var i := 0;
      while i < |report.displayList|
        invariant i <= |report.displayList| == |list|
        invariant forall j :: 0 <= j < i ==> report.displayList[j] == Mark(list[j])
        invariant forall j :: i <= j < |list| ==> report.displayList[j] == list[j]
      {
        var d := report.displayList[i];
        if d.rtype == Unmatched {
          report.displayList := report.displayList[i := d.(reference := "* " + d.reference)];
        }
        i := i + 1;
      }
      assert report.displayList == Remarked(list);
    }
  }

  // ---- preparing the lists for a save, and restoring them after ----

  /** _GetDisplayLists keeps an undo copy of a tab whose save commits uncommitted lines or deletes unmatched ones. */
  predicate UndoNeeded(counts: map<string, int>, autoCommit: bool, saveUnmatched: bool)
    requires "uncommitted" in counts && "unmatched" in counts
  {
    (counts["uncommitted"] > 0 && autoCommit) || (counts["unmatched"] > 0 && !saveUnmatched)
  }

  /** What _UpdateDisplayList makes of one record: nothing (deleted) or one record. */
  function SavedForm(d: DisplayRecord, autoCommit: bool, saveUnmatched: bool): seq<DisplayRecord> {
    if d.rtype == Uncommitted && autoCommit then [d.(reference := DropFirst(d.reference, 2), rtype := Checked)]
    else if d.rtype == Unmatched && saveUnmatched then [d.(reference := DropFirst(d.reference, 2))]
    else if d.rtype == Unmatched then []
    else [d]
  }

  /** The records of list[from..] as _UpdateDisplayList leaves them. */
  function ForSave(list: seq<DisplayRecord>, autoCommit: bool, saveUnmatched: bool, from: nat): seq<DisplayRecord>
    requires from <= |list|
    decreases |list| - from
  {
    if from == |list| then []
    else SavedForm(list[from], autoCommit, saveUnmatched) + ForSave(list, autoCommit, saveUnmatched, from + 1)
  }

  /** One record with "* " put back in front of its reference when it is unmatched. */
  function Mark(d: DisplayRecord): DisplayRecord {
    if d.rtype == Unmatched then d.(reference := "* " + d.reference) else d
  }

  /** The unmatched records with "* " put back in front of their reference. */
  function Remarked(list: seq<DisplayRecord>): seq<DisplayRecord> {
    seq(|list|, i requires 0 <= i < |list| => Mark(list[i]))
  }

  /** Every unmatched record carries the "* " marker, as the reconciler and ClearReference leave them. */
  predicate Marked(list: seq<DisplayRecord>) {
    forall i :: 0 <= i < |list| && list[i].rtype == Unmatched ==> StartsWith(list[i].reference, "* ")
  }

  /** Saving with unmatched lines and then restoring gives back every list whose unmatched lines are marked, when nothing is committed. */
  lemma SaveRestores(list: seq<DisplayRecord>)
    requires Marked(list)
    ensures Remarked(ForSave(list, false, true, 0)) == list
  {
    var saved := ForSave(list, false, true, 0);
    SavedUnmarked(list, 0);
    forall i | 0 <= i < |list| ensures Remarked(saved)[i] == list[i] {
      if list[i].rtype == Unmatched {
        assert StartsWith(list[i].reference, "* ");
        assert "* " + list[i].reference[2..] == list[i].reference;
      }
    }
  }

  /** Keeping unmatched lines, and committing nothing, the save only strips the first two characters of unmatched references. */
  lemma {:induction false} SavedUnmarked(list: seq<DisplayRecord>, from: nat)
    requires from <= |list|
    ensures |ForSave(list, false, true, from)| == |list| - from
    ensures forall j :: 0 <= j < |list| - from ==>
      ForSave(list, false, true, from)[j]
        == if list[from + j].rtype == Unmatched then list[from + j].(reference := DropFirst(list[from + j].reference, 2)) else list[from + j]
    decreases |list| - from
  {
    if from < |list| {
      SavedUnmarked(list, from + 1);
    }
  }

  /** Deleting for the save removes exactly the unmatched lines, when they are not saved. */
  lemma {:induction false} ForSaveDropsUnmatched(list: seq<DisplayRecord>, autoCommit: bool, from: nat)
    requires from <= |list|
    ensures forall i :: 0 <= i < |ForSave(list, autoCommit, false, from)| ==> ForSave(list, autoCommit, false, from)[i].rtype != Unmatched
    ensures forall i :: 0 <= i < |ForSave(list, autoCommit, false, from)| ==> ForSave(list, autoCommit, false, from)[i].rtype != Uncommitted || !autoCommit
    decreases |list| - from
  {
    if from < |list| {
      ForSaveDropsUnmatched(list, autoCommit, from + 1);
    }
  }

  /** The counts do not read references, so putting the marker back leaves the tally as it was. */
  lemma {:induction false} RemarkedTally(list: seq<DisplayRecord>)
    ensures Tally.TallyFrom(Tally.Initial(|list|), list) == Tally.TallyFrom(Tally.Initial(|Remarked(list)|), Remarked(list))
  {
    SameTally(Tally.Initial(|list|), list, Remarked(list));
  }

  /** Two lists that differ only in references tally alike. */
  lemma {:induction false} SameTally(c: Tally.Counts, a: seq<DisplayRecord>, b: seq<DisplayRecord>)
    requires |a| == |b|
    requires forall i :: 0 <= i < |a| ==> a[i] == b[i].(reference := a[i].reference)
    ensures Tally.TallyFrom(c, a) == Tally.TallyFrom(c, b)
    decreases |a|
  {
    if a != [] {
      assert a[0] == b[0].(reference := a[0].reference);
      assert Tally.Step(c, a[0]) == Tally.Step(c, b[0]);
      var c1 := Tally.Step(c, a[0]).0;
      SameTally(c1, a[1..], b[1..]);
    }
  }

  /** The records of list[from..] whose position is not selected, in order. */
  function Kept(list: seq<DisplayRecord>, selection: seq<nat>, from: nat): (r: seq<DisplayRecord>)
    requires from <= |list|
    decreases |list| - from
  {
    if from == |list| then []
    else (if from in selection then [] else [list[from]]) + Kept(list, selection, from + 1)
  }

  /** Deleting keeps exactly the records at unselected positions. */
  lemma {:induction false} KeptMembers(list: seq<DisplayRecord>, selection: seq<nat>, from: nat, d: DisplayRecord)
    requires from <= |list|
    ensures d in Kept(list, selection, from) <==> exists i :: from <= i < |list| && i !in selection && list[i] == d
    decreases |list| - from
  {
    if from < |list| {
      KeptMembers(list, selection, from + 1, d);
      var head := if from in selection then [] else [list[from]];
      var rest := Kept(list, selection, from + 1);
      assert Kept(list, selection, from) == head + rest;
      if d in head + rest {
        if d !in rest {
          assert from !in selection && list[from] == d;
        }
      }
      if exists i :: from <= i < |list| && i !in selection && list[i] == d {
        var i :| from <= i < |list| && i !in selection && list[i] == d;
        if i == from {
          assert d in head;
        } else {
          assert d in rest;
        }
      }
    }
  }

  /** Nothing selected, nothing deleted. */
  lemma {:induction false} KeptNothing(list: seq<DisplayRecord>, from: nat)
    requires from <= |list|
    ensures Kept(list, [], from) == list[from..]
    decreases |list| - from
  {
    if from < |list| {
      KeptNothing(list, from + 1);
    }
  }

  // ---- IncrementReference ----

  /** The groups of `(.*?)(\d*)(\D*)$` on a reference text: lazy head, digit run, trailing non-digits. */
  datatype NumberSplit = NumberSplit(head: string, digits: string, tail: string)

  predicate NoDigits(s: string) {
    forall i :: 0 <= i < |s| ==> !IsDigit(s[i])
  }

  /** The start of the run of non-digits that ends s[..n]. */
  function TailStart(s: string, n: nat): (k: nat)
    requires n <= |s|
    ensures k <= n && forall i :: k <= i < n ==> !IsDigit(s[i])
    ensures k > 0 ==> IsDigit(s[k - 1])
  {
    if n == 0 || IsDigit(s[n - 1]) then n else TailStart(s, n - 1)
  }

  /** The start of the run of digits that ends s[..k]. */
  function DigitsStart(s: string, k: nat): (j: nat)
    requires k <= |s|
    ensures j <= k && forall i :: j <= i < k ==> IsDigit(s[i])
    ensures j > 0 ==> !IsDigit(s[j - 1])
  {
    if k == 0 || !IsDigit(s[k - 1]) then k else DigitsStart(s, k - 1)
  }

  function SplitNumber(s: string): (r: NumberSplit)
    ensures s == r.head + r.digits + r.tail
    ensures AllDigits(r.digits) && NoDigits(r.tail)
    ensures r.head != [] ==> r.digits != [] && !IsDigit(r.head[|r.head| - 1])
  {
    var k := TailStart(s, |s|);
    var j := DigitsStart(s, k);
    SplitAt(s, j, k);
    NumberSplit(s[..j], s[j..k], s[k..])
  }

  /** Cutting s at the digit run s[j..k] and the non-digit tail s[k..] gives back s. */
  lemma SplitAt(s: string, j: nat, k: nat)
    requires j <= k <= |s|
    requires forall i :: j <= i < k ==> IsDigit(s[i])
    requires forall i :: k <= i < |s| ==> !IsDigit(s[i])
    ensures s == s[..j] + s[j..k] + s[k..]
    ensures AllDigits(s[j..k]) && NoDigits(s[k..])
  {
    assert s[..j] + s[j..k] + s[k..] == s[..k] + s[k..];
  }

  lemma TailStartAt(s: string, n: nat)
    requires n <= |s| && forall i :: n <= i < |s| ==> !IsDigit(s[i])
    requires n > 0 ==> IsDigit(s[n - 1])
    ensures TailStart(s, |s|) == n
  {
  }

  lemma DigitsStartAt(s: string, k: nat, j: nat)
    requires j <= k <= |s| && forall i :: j <= i < k ==> IsDigit(s[i])
    requires j > 0 ==> !IsDigit(s[j - 1])
    ensures DigitsStart(s, k) == j
  {
  }

  /** The split is the only one with those three properties, so it is the lazy match. */
  lemma SplitNumberUnique(head: string, digits: string, tail: string)
    requires AllDigits(digits) && NoDigits(tail)
    requires head != [] ==> digits != [] && !IsDigit(head[|head| - 1])
    ensures SplitNumber(head + digits + tail) == NumberSplit(head, digits, tail)
  {
    var s := head + digits + tail;
    var n := |head| + |digits|;
    SplitBounds(head, digits, tail);
    TailStartAt(s, n);
    DigitsStartAt(s, n, |head|);
    assert s[..|head|] == head && s[|head|..n] == digits && s[n..] == tail;
  }

  /** Where the digit run and the tail of head + digits + tail lie. */
  lemma SplitBounds(head: string, digits: string, tail: string)
    requires AllDigits(digits) && NoDigits(tail)
    requires head != [] ==> digits != [] && !IsDigit(head[|head| - 1])
    ensures var s := head + digits + tail;
            var n := |head| + |digits|;
            && (forall i :: n <= i < |s| ==> !IsDigit(s[i]))
            && (n > 0 ==> IsDigit(s[n - 1]))
            && (forall i :: |head| <= i < n ==> IsDigit(s[i]))
            && (|head| > 0 ==> !IsDigit(s[|head| - 1]))
  {
    var s := head + digits + tail;
    var n := |head| + |digits|;
    assert forall i :: n <= i < |s| ==> s[i] == tail[i - n];
    assert forall i :: |head| <= i < n ==> s[i] == digits[i - |head|];
  }

  /** 10^n */
  function Pow10(n: nat): (r: nat)
    ensures r >= 1
  {
    if n == 0 then 1 else 10 * Pow10(n - 1)
  }

  lemma {:induction false} DecimalBound(s: string)
    requires AllDigits(s)
    ensures DecimalValue(s) < Pow10(|s|)
  {
    if s != [] {
      DecimalBound(s[..|s| - 1]);
    }
  }

  lemma {:induction false} DecimalWidth(n: nat, w: nat)
    requires n < Pow10(w)
    ensures |Decimal(n)| <= w || (w == 0 && n == 0)
  {
    if n >= 10 {
      DecimalWidth(n / 10, w - 1);
    }
  }

  /** Two digit strings of one length and one value are the same string. */
  lemma {:induction false} DigitsInjective(a: string, b: string)
    requires AllDigits(a) && AllDigits(b) && |a| == |b|
    requires DecimalValue(a) == DecimalValue(b)
    ensures a == b
  {
    if a != [] {
      var n := |a| - 1;
      DigitsInjective(a[..n], b[..n]);
      assert a == a[..n] + [a[n]] && b == b[..n] + [b[n]];
    }
  }

  /**
   * IncrementReference: the last run of digits in the text, moved by
   * `increment` but not below zero, and zero-padded to its old width; a
   * text without digits is left as it is.
   */
  function IncrementReference(text: string, increment: int): (r: string)
    ensures NoDigits(text) ==> r == text
    ensures !NoDigits(text) ==> SplitNumber(text).digits != []
  {
    var m := SplitNumber(text);
    if m.digits == [] then text
    else
      var value := DecimalValue(m.digits) + increment;
      m.head + PadDecimal(if value < 0 then 0 else value, |m.digits|) + m.tail
  }

  /**
   * The new text keeps the head and tail, its number is max(0, n + increment),
   * and a decrement never changes the number of digits.
   */
  lemma IncrementFacts(text: string, increment: int)
    requires SplitNumber(text).digits != []
    ensures var m := SplitNumber(text);
            var n := DecimalValue(m.digits) + increment;
            exists d :: IncrementReference(text, increment) == m.head + d + m.tail
                        && AllDigits(d) && DecimalValue(d) == (if n < 0 then 0 else n) && |d| >= |m.digits|
                        && (increment <= 0 ==> |d| == |m.digits|)
  {
    var m := SplitNumber(text);
    var n := DecimalValue(m.digits) + increment;
    var v := if n < 0 then 0 else n;
    var d := PadDecimal(v, |m.digits|);
    if increment <= 0 {
      DecimalBound(m.digits);
      DecimalWidth(v, |m.digits|);
    }
    assert IncrementReference(text, increment) == m.head + d + m.tail;
  }

  /** Stepping down and back up gives back the text, when the number is not zero. */
  lemma DecrementIncrement(text: string)
    requires SplitNumber(text).digits != [] && DecimalValue(SplitNumber(text).digits) > 0
    ensures IncrementReference(IncrementReference(text, -1), 1) == text
  {
    var m := SplitNumber(text);
    var v := DecimalValue(m.digits);
    var d := PadDecimal(v - 1, |m.digits|);
    DecimalBound(m.digits);
    DecimalWidth(v - 1, |m.digits|);
    assert |d| == |m.digits|;
    var t := IncrementReference(text, -1);
    assert t == m.head + d + m.tail;
    SplitNumberUnique(m.head, d, m.tail);
    assert SplitNumber(t) == NumberSplit(m.head, d, m.tail);
    var e := PadDecimal(v, |d|);
    assert IncrementReference(t, 1) == m.head + e + m.tail;
    DecimalWidth(v, |m.digits|);
    DigitsInjective(e, m.digits);
  }
}
