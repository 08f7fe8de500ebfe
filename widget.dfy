/**
 * The summary widget's save and export (SummaryWidget in summaryGUI.py):
 * the state the save keeps on the widget, the loops over the tabs that
 * prepare and restore each mode's display list, and the merge loops that
 * write the summary file and the CSV file. The files are modelled by the
 * text written to them.
 */
module Widget {
  import opened Outcomes
  import opened Text
  import opened Ordering
  import opened Records
  import opened RunResult
  import opened Review
  import opened Saving

  /** Mode names sort as Python strings. */
  function ModeKey(name: string): Key {
    Key(0, name)
  }

  /** Distinct mode names, sorted, are strictly sorted and are the same names. */
  lemma SortedModes(names: seq<string>)
    requires forall i, j :: 0 <= i < j < |names| ==> names[i] != names[j]
    ensures StrictlySorted(SortBy(names, ModeKey))
    ensures multiset(SortBy(names, ModeKey)) == multiset(names)
  {
    var modes := SortBy(names, ModeKey);
    SortByFacts(names, ModeKey, ModeKey(""));
    DistinctCount(names);
    forall i, j | 0 <= i < j < |modes| ensures Less(modes[i], modes[j]) {
      assert KeyLessEq(ModeKey(modes[i]), ModeKey(modes[j]));
      TwiceCounted(modes, i, j);
    }
  }

  /** In a sequence without repeats every value occurs at most once. */
  lemma {:induction false} DistinctCount(names: seq<string>)
    requires forall i, j :: 0 <= i < j < |names| ==> names[i] != names[j]
    ensures forall x :: multiset(names)[x] <= 1
  {
    if names != [] {
      var rest := names[1..];
      DistinctCount(rest);
      assert names == [names[0]] + rest;
      assert names[0] !in rest by {
        forall k | 0 <= k < |rest| ensures rest[k] != names[0] {
          assert rest[k] == names[k + 1];
        }
      }
    }
  }

  /** A value at two positions is counted twice. */
  lemma TwiceCounted(s: seq<string>, i: nat, j: nat)
    requires i < j < |s|
    ensures s[i] == s[j] ==> multiset(s)[s[i]] >= 2
  {
    assert s == s[..j] + s[j..];
    assert s[i] == s[..j][i];
    assert s[j] == s[j..][0];
  }

  /** The mode names of a snapshot of the tabs. */
  function NamesOf(snapshot: seq<(string, seq<DisplayRecord>)>): (names: seq<string>)
    ensures |names| == |snapshot|
  {
    seq(|snapshot|, i requires 0 <= i < |snapshot| => snapshot[i].0)
  }

  /** The list filed under `name` in the dict _GetDisplayLists builds: a later tab of the same name overwrites an earlier one. */
  function Named(snapshot: seq<(string, seq<DisplayRecord>)>, name: string): seq<DisplayRecord> {
    if snapshot == [] then []
    else if snapshot[|snapshot| - 1].0 == name then snapshot[|snapshot| - 1].1
    else Named(snapshot[..|snapshot| - 1], name)
  }

  /** With distinct names, the list filed under a tab's name is that tab's list. */
  lemma {:induction false} NamedAt(snapshot: seq<(string, seq<DisplayRecord>)>, i: nat)
    requires i < |snapshot|
    requires forall a, b :: 0 <= a < b < |snapshot| ==> snapshot[a].0 != snapshot[b].0
    ensures Named(snapshot, snapshot[i].0) == snapshot[i].1
  {
    var n := |snapshot| - 1;
    if i < n {
      assert snapshot[i].0 != snapshot[n].0;
      NamedAt(snapshot[..n], i);
    }
  }

  /** The save variables as SaveSummary leaves them: reset, then every round of the merge of the prepared lists. */
  function SummaryWritten(snapshot: seq<(string, seq<DisplayRecord>)>, before: Session,
                          autoCommit: bool, saveUnmatched: bool, autoSave: bool): Session
  {
    var modes := SortBy(NamesOf(snapshot), ModeKey);
    var lists := Prepared(snapshot, modes, autoCommit, saveUnmatched);
    var reset := before.(discrepancyFound := false, lastAppliedModes := [], trueLastOutputModes := [],
                         lastData := "", lastOutput := "", text := "");
    Merge(modes, lists, Progress(Start(lists), reset), autoSave).session
  }

  /** The lists a save merges: per sorted mode, that mode's list as _UpdateDisplayList leaves it. */
  function Prepared(snapshot: seq<(string, seq<DisplayRecord>)>, modes: seq<string>, autoCommit: bool, saveUnmatched: bool)
    : (lists: seq<seq<DisplayRecord>>)
    ensures |lists| == |modes|
  {
    seq(|modes|, m requires 0 <= m < |modes| => ForSave(Named(snapshot, modes[m]), autoCommit, saveUnmatched, 0))
  }

  /** The dict _GetDisplayLists builds from the first n tabs: each prepared list filed under its mode name, a later tab overwriting an earlier one. */
  function FiledUpTo(snapshot: seq<(string, seq<DisplayRecord>)>, n: nat, autoCommit: bool, saveUnmatched: bool): map<string, seq<DisplayRecord>>
    requires n <= |snapshot|
  {
    if n == 0 then map[]
    else FiledUpTo(snapshot, n - 1, autoCommit, saveUnmatched)[snapshot[n - 1].0 := ForSave(snapshot[n - 1].1, autoCommit, saveUnmatched, 0)]
  }

  /** The dict built from every tab. */
  function Filed(snapshot: seq<(string, seq<DisplayRecord>)>, autoCommit: bool, saveUnmatched: bool): map<string, seq<DisplayRecord>> {
    FiledUpTo(snapshot, |snapshot|, autoCommit, saveUnmatched)
  }

  /** The dict holds exactly the tabs' names, each with the prepared form of the list Named picks for it. */
  lemma {:induction false} FiledNamedUpTo(snapshot: seq<(string, seq<DisplayRecord>)>, n: nat, autoCommit: bool, saveUnmatched: bool)
    requires n <= |snapshot|
    ensures forall name :: name in FiledUpTo(snapshot, n, autoCommit, saveUnmatched) <==> name in NamesOf(snapshot[..n])
    ensures forall name :: name in FiledUpTo(snapshot, n, autoCommit, saveUnmatched) ==>
      FiledUpTo(snapshot, n, autoCommit, saveUnmatched)[name] == ForSave(Named(snapshot[..n], name), autoCommit, saveUnmatched, 0)
  {
    if n > 0 {
      FiledNamedUpTo(snapshot, n - 1, autoCommit, saveUnmatched);
      assert snapshot[..n][..n - 1] == snapshot[..n - 1];
      assert NamesOf(snapshot[..n]) == NamesOf(snapshot[..n - 1]) + [snapshot[n - 1].0];
    }
  }

  lemma FiledNamed(snapshot: seq<(string, seq<DisplayRecord>)>, autoCommit: bool, saveUnmatched: bool)
    ensures forall name :: name in Filed(snapshot, autoCommit, saveUnmatched) <==> name in NamesOf(snapshot)
    ensures forall name :: name in Filed(snapshot, autoCommit, saveUnmatched) ==>
      Filed(snapshot, autoCommit, saveUnmatched)[name] == ForSave(Named(snapshot, name), autoCommit, saveUnmatched, 0)
  {
    FiledNamedUpTo(snapshot, |snapshot|, autoCommit, saveUnmatched);
    assert snapshot[..|snapshot|] == snapshot;
  }

  /** The dict's lists in the order of `modes`, as the merge indexes them. */
  function InOrder(dict: map<string, seq<DisplayRecord>>, modes: seq<string>): (lists: seq<seq<DisplayRecord>>)
    requires forall m :: 0 <= m < |modes| ==> modes[m] in dict
    ensures |lists| == |modes|
  {
    seq(|modes|, m requires 0 <= m < |modes| => dict[modes[m]])
  }

  /** Taken in sorted mode order, the dict is the lists the save merges. */
  lemma ListsPrepared(snapshot: seq<(string, seq<DisplayRecord>)>, modes: seq<string>, autoCommit: bool, saveUnmatched: bool)
    requires modes == SortBy(NamesOf(snapshot), ModeKey)
    ensures forall m :: 0 <= m < |modes| ==> modes[m] in Filed(snapshot, autoCommit, saveUnmatched)
    ensures InOrder(Filed(snapshot, autoCommit, saveUnmatched), modes) == Prepared(snapshot, modes, autoCommit, saveUnmatched)
  {
    var names := NamesOf(snapshot);
    SortByFacts(names, ModeKey, ModeKey(""));
    FiledNamed(snapshot, autoCommit, saveUnmatched);
    forall m | 0 <= m < |modes|
      ensures modes[m] in names
    {
      assert modes[m] in multiset(names);
    }
  }

  /**
   * One tab after _GetDisplayLists: its list updated for the save, and an
   * undo copy of the old list pushed exactly when the save changes it.
   */
  twostate predicate Prepped(t: ModeContent, autoCommit: bool, saveUnmatched: bool)
    reads t`undoList, t`redoList, t.report`displayList
  {
    && Pushed(t, autoCommit, saveUnmatched)
    && t.report.displayList == ForSave(old(t.report.displayList), autoCommit, saveUnmatched, 0)
  }

  /** The undo copy of one tab's list that _GetDisplayLists pushes when the save changes the list. */
  twostate predicate Pushed(t: ModeContent, autoCommit: bool, saveUnmatched: bool)
    reads t`undoList, t`redoList
  {
    && "uncommitted" in old(t.report.errorCount) && "unmatched" in old(t.report.errorCount)
    && t.undoList == (if UndoNeeded(old(t.report.errorCount), autoCommit, saveUnmatched)
                      then old(t.undoList) + [old(t.report.displayList)] else old(t.undoList))
    && t.redoList == (if UndoNeeded(old(t.report.errorCount), autoCommit, saveUnmatched) then [] else old(t.redoList))
  }

  /**
   * One tab after SaveSummary: the undo copy pushed, its list prepared for
   * the save with the "* " markers put back, and its counters recounted.
   */
  twostate predicate Saved(t: ModeContent, new failure: Option<Failure>, autoCommit: bool, saveUnmatched: bool)
    reads t`undoList, t`redoList, t.report
  {
    && Pushed(t, autoCommit, saveUnmatched)
    && (var saved := ForSave(old(t.report.displayList), autoCommit, saveUnmatched, 0);
        t.report.displayList == (if saveUnmatched then Remarked(saved) else saved))
    && t.report.Counted(failure, old(t.report.percentage))
  }

  class SummaryWidget {
    /** The mode tabs, in display order. */
    const tabs: seq<ModeContent>
    var summaryFileName: string
    var changedFlag: bool
    var autoSaveFlag: bool
    var discrepancyFound: bool
    var lastAppliedModes: seq<string>
    var trueLastOutputModes: seq<string>
    var lastData: string
    var lastOutput: string
    /** The text of the summary file being written. */
    var summaryText: string
    /** The discrepancies printed so far. */
    var discrepancies: seq<Discrepancy>
    /** The text of the CSV file being written, and the lines no export pattern matched. */
    var csvText: string
    var exportFailures: seq<string>
    /** The tabs and their reports, as sets: what a save may change. */
    ghost const tabSet: set<ModeContent>
    ghost const reportSet: set<ResultFile>

    constructor (tabs: seq<ModeContent>)
      ensures this.tabs == tabs && !changedFlag && !autoSaveFlag
      ensures tabSet == (set i | 0 <= i < |tabs| :: tabs[i]) && reportSet == (set i | 0 <= i < |tabs| :: tabs[i].report)
      ensures Framed()
      ensures SaveSession() == Initial() && discrepancies == [] && csvText == "" && exportFailures == []
    {
      this.tabs := tabs;
      tabSet := set i | 0 <= i < |tabs| :: tabs[i];
      reportSet := set i | 0 <= i < |tabs| :: tabs[i].report;
      summaryFileName := "";
      changedFlag := false;
      autoSaveFlag := false;
      discrepancyFound := false;
      lastAppliedModes := [];
      trueLastOutputModes := [];
      lastData := "";
      lastOutput := "";
      summaryText := "";
      discrepancies := [];
      csvText := "";
      exportFailures := [];
    }


    /** The sets hold every tab and every report. */
    ghost predicate Framed() {
      forall i :: 0 <= i < |tabs| ==> tabs[i] in tabSet && tabs[i].report in reportSet
    }

    /** Each tab is its own object with its own report. */
    ghost predicate Valid() {
      && Framed()
      && forall i, j :: 0 <= i < j < |tabs| ==> tabs[i] != tabs[j] && tabs[i].report != tabs[j].report
    }

    /** Every tab has been counted, so its "uncommitted" and "unmatched" counters exist. */
    ghost predicate Counters()
      requires Framed()
      reads reportSet`errorCount
    {
      forall i :: 0 <= i < |tabs| ==> "uncommitted" in tabs[i].report.errorCount && "unmatched" in tabs[i].report.errorCount
    }

    /** The save variables and what has been written and printed. */
    function SaveSession(): Session
      reads `discrepancyFound, `lastAppliedModes, `trueLastOutputModes, `lastData, `lastOutput, `summaryText, `discrepancies
    {
      Session(discrepancyFound, lastAppliedModes, trueLastOutputModes, lastData, lastOutput, summaryText, discrepancies)
    }

    /** The mode names of the first n tabs. */
    function NamesUpTo(n: nat): seq<string>
      requires n <= |tabs| && Framed()
      reads reportSet`modeName
    {
      if n == 0 then [] else NamesUpTo(n - 1) + [tabs[n - 1].report.modeName]
    }

    lemma {:induction false} NamesAt(n: nat)
      requires n <= |tabs| && Framed()
      ensures |NamesUpTo(n)| == n && forall i :: 0 <= i < n ==> NamesUpTo(n)[i] == tabs[i].report.modeName
    {
      if n > 0 {
        NamesAt(n - 1);
      }
    }

    /** Each tab's mode name and display list, for the first n tabs. */
    function Snapshot(n: nat): (r: seq<(string, seq<DisplayRecord>)>)
      requires n <= |tabs| && Framed()
      reads reportSet`modeName, reportSet`displayList
      ensures |r| == n
    {
      if n == 0 then [] else Snapshot(n - 1) + [(tabs[n - 1].report.modeName, tabs[n - 1].report.displayList)]
    }

    lemma {:induction false} SnapshotNames(n: nat)
      requires n <= |tabs| && Framed()
      ensures NamesUpTo(n) == NamesOf(Snapshot(n))
    {
      if n > 0 {
        SnapshotNames(n - 1);
        assert NamesOf(Snapshot(n)) == NamesOf(Snapshot(n - 1)) + [tabs[n - 1].report.modeName];
      }
    }

    lemma {:induction false} SnapshotAt(n: nat)
      requires n <= |tabs| && Framed()
      ensures |Snapshot(n)| == n
      ensures forall i :: 0 <= i < n ==> Snapshot(n)[i] == (tabs[i].report.modeName, tabs[i].report.displayList)
    {
      if n > 0 {
        SnapshotAt(n - 1);
      }
    }

    /** _InitializeSave. */
    method InitializeSave()
      modifies `discrepancyFound, `lastAppliedModes, `trueLastOutputModes, `lastData, `lastOutput
      ensures SaveSession() == old(SaveSession()).(discrepancyFound := false, lastAppliedModes := [], trueLastOutputModes := [],
                                           lastData := "", lastOutput := "")
    {
      discrepancyFound := false;
      lastAppliedModes := [];
      trueLastOutputModes := [];
      lastData := "";
      lastOutput := "";
    }

    /** _GetModes. */
    method GetModes() returns (names: seq<string>)
      requires Framed()
      ensures names == NamesUpTo(|tabs|)
    {
      names := [];
      for k := 0 to |tabs|
        invariant names == NamesUpTo(k)
      {
        names := names + [tabs[k].report.modeName];
      }
    }

    /** _CheckDiscrepancies. */
    method CheckDiscrepancies(out: DisplayRecord, output: string, applied: seq<string>, autoSave: bool)
      modifies `discrepancyFound, `lastAppliedModes, `lastData, `lastOutput, `discrepancies
      ensures SaveSession() == Compared(old(SaveSession()), out, output, applied, autoSave)
    {
      if StartsWith(output, "#") {
        return;
      }
      if !autoSave && out.data == lastData && output != lastOutput {
        discrepancyFound := true;
        discrepancies := discrepancies + [Discrepancy(lastAppliedModes, lastOutput, applied, output)];
      }
      lastData := out.data;
      lastOutput := output;
      lastAppliedModes := applied;
    }

    /** _OutputSummary. */
    method OutputSummary(output: string, outputs: seq<string>, modes: seq<string>)
      modifies `summaryText, `trueLastOutputModes
      ensures SaveSession() == Written(old(SaveSession()), output, outputs, modes)
    {
      if outputs != trueLastOutputModes {
        if |outputs| == |modes| {
          summaryText := summaryText + "\n#ALWAYS\n";
        } else {
          summaryText := summaryText + "\n#IFNOT " + Join(" ", Excluded(modes, outputs)) + "\n";
        }
        trueLastOutputModes := outputs;
      }
      summaryText := summaryText + output + "\n";
    }

    /** The rounds of SaveSummary: write each line once, headed by the modes it holds in. */
    method WriteSummary(modes: seq<string>, lists: seq<seq<DisplayRecord>>, autoSave: bool)
      requires |modes| == |lists|
      modifies `discrepancyFound, `lastAppliedModes, `trueLastOutputModes, `lastData, `lastOutput, `summaryText, `discrepancies
      ensures SaveSession() == Merge(modes, lists, Progress(Start(lists), old(SaveSession())), autoSave).session
    {
      var index := Start(lists);
      var more := Unprinted(index, lists);
      while more
        invariant Aligned(lists, index) && (more <==> Pending(lists, index))
        invariant Merge(modes, lists, Progress(Start(lists), old(SaveSession())), autoSave)
                  == Merge(modes, lists, Progress(index, SaveSession()), autoSave)
        decreases Remaining(lists, index)
      {
        RoundAdvances(lists, index);
        var items := GatherItems(lists, index);
        var out := GetLeastItem(items);
        var applied, outputs, next := FindOutputModes(out.value, index, items, modes);
        var output := out.value.reference + ":" + out.value.data;
        CheckDiscrepancies(out.value, output, applied, autoSave);
        if outputs != [] {
          OutputSummary(output, outputs, modes);
        }
        index := next;
        more := Unprinted(index, lists);
      }
    }

    /** The rounds of ExportSummary: one CSV row per exported line, and the lines no pattern matched. */
    method ExportRows(modes: seq<string>, lists: seq<seq<DisplayRecord>>,
                      errorPattern: string -> Option<ExportMatch>, logPattern: string -> Option<ExportMatch>)
      requires |modes| == |lists|
      modifies `csvText, `exportFailures
      ensures var r := Export(modes, lists, ExportProgress(Start(lists), old(csvText), old(exportFailures)), errorPattern, logPattern);
              csvText == r.csv && exportFailures == r.unmatched
    {
      var index := Start(lists);
      var more := Unprinted(index, lists);
      while more
        invariant Aligned(lists, index) && (more <==> Pending(lists, index))
        invariant Export(modes, lists, ExportProgress(Start(lists), old(csvText), old(exportFailures)), errorPattern, logPattern)
                  == Export(modes, lists, ExportProgress(index, csvText, exportFailures), errorPattern, logPattern)
        decreases Remaining(lists, index)
      {
        RoundAdvances(lists, index);
        var items := GatherItems(lists, index);
        var out := GetLeastItem(items);
        var applied, outputs, next := FindOutputModes(out.value, index, items, modes);
        var output := out.value.reference + "," + out.value.data;
        if outputs != [] && !StartsWith(output, "#") {
          var found := errorPattern(output);
          if found.None? {
            found := logPattern(output);
          }
          if found.Some? {
            var row := ExportCSV(found.value, outputs, modes);
            csvText := csvText + row;
          } else {
            exportFailures := exportFailures + [output];
          }
        }
        index := next;
        more := Unprinted(index, lists);
      }
    }
  
    /**
     * _GetDisplayLists: each tab in turn keeps an undo copy when its save
     * changes it, and has its list updated for the save; the dict files
     * each updated list under its tab's mode name.
     */
    method GetDisplayLists(autoCommit: bool, saveUnmatched: bool, ghost snapshot: seq<(string, seq<DisplayRecord>)>)
      returns (lists: map<string, seq<DisplayRecord>>)
      requires Valid() && Counters()
      requires |snapshot| == |tabs| && forall i :: 0 <= i < |tabs| ==> snapshot[i] == (tabs[i].report.modeName, tabs[i].report.displayList)
      modifies tabSet`undoList, tabSet`redoList, reportSet`displayList
      ensures forall i :: 0 <= i < |tabs| ==> Prepped(tabs[i], autoCommit, saveUnmatched)
      ensures lists == Filed(snapshot, autoCommit, saveUnmatched)
    {
      lists := map[];
      for k := 0 to |tabs|
        invariant forall i :: 0 <= i < k ==> Prepped(tabs[i], autoCommit, saveUnmatched)
        invariant forall i :: k <= i < |tabs| ==>
          tabs[i].report.displayList == old(tabs[i].report.displayList)
          && tabs[i].undoList == old(tabs[i].undoList) && tabs[i].redoList == old(tabs[i].redoList)
          && snapshot[i] == (tabs[i].report.modeName, tabs[i].report.displayList)
        invariant lists == FiledUpTo(snapshot, k, autoCommit, saveUnmatched)
      {
        var name := tabs[k].report.modeName;
        assert snapshot[k] == (name, tabs[k].report.displayList);
        ghost var filed := FiledUpTo(snapshot, k + 1, autoCommit, saveUnmatched);
        assert tabs[k].report.errorCount == old(tabs[k].report.errorCount);
        label Before:
        tabs[k].PrepareForSave(autoCommit, saveUnmatched);
        assert Prepped(tabs[k], autoCommit, saveUnmatched);
        forall i | 0 <= i < |tabs| && i != k
          ensures tabs[i].report.displayList == old@Before(tabs[i].report.displayList)
          ensures tabs[i].undoList == old@Before(tabs[i].undoList) && tabs[i].redoList == old@Before(tabs[i].redoList)
        {
          assert tabs[i] != tabs[k] && tabs[i].report != tabs[k].report;
        }
        assert filed == lists[name := tabs[k].report.displayList];
        lists := lists[name := tabs[k].report.displayList];
      }
    }

    /**
     * _FinalizeSave: outside an auto-save the file becomes the summary
     * file and the changes count as saved; every tab is recounted and, when
     * unmatched lines were saved, gets their "* " marker back.
     */
    method FinalizeSave(fileName: string, saveUnmatched: bool, autoSave: bool) returns (failures: seq<Option<Failure>>)
      requires Valid()
      modifies `summaryFileName, `changedFlag, `autoSaveFlag
      modifies reportSet`displayList, reportSet`errorCount, reportSet`checkCount, reportSet`errorDetails, reportSet`percentage
      ensures summaryFileName == (if autoSave then old(summaryFileName) else fileName)
      ensures changedFlag == (autoSave && old(changedFlag)) && !autoSaveFlag
      ensures SaveSession() == old(SaveSession())
      ensures forall i :: 0 <= i < |tabs| ==> tabs[i].undoList == old(tabs[i].undoList) && tabs[i].redoList == old(tabs[i].redoList)
      ensures |failures| == |tabs|
      ensures forall i :: 0 <= i < |tabs| ==>
        tabs[i].report.displayList == (if saveUnmatched then Remarked(old(tabs[i].report.displayList)) else old(tabs[i].report.displayList))
      ensures forall i :: 0 <= i < |tabs| ==> tabs[i].report.Counted(failures[i], old(tabs[i].report.percentage))
    {
      if !autoSave {
        summaryFileName := fileName;
        changedFlag := false;
      }
      failures := RecountTabs(saveUnmatched);
      autoSaveFlag := false;
    }

    /** The loop of _FinalizeSave over the tabs. */
    method RecountTabs(saveUnmatched: bool) returns (failures: seq<Option<Failure>>)
      requires Valid()
      modifies reportSet`displayList, reportSet`errorCount, reportSet`checkCount, reportSet`errorDetails, reportSet`percentage
      ensures |failures| == |tabs|
      ensures forall i :: 0 <= i < |tabs| ==>
        tabs[i].report.displayList == (if saveUnmatched then Remarked(old(tabs[i].report.displayList)) else old(tabs[i].report.displayList))
      ensures forall i :: 0 <= i < |tabs| ==> tabs[i].report.Counted(failures[i], old(tabs[i].report.percentage))
    {
      failures := [];
      for k := 0 to |tabs|
        invariant |failures| == k
        invariant forall i :: 0 <= i < k ==>
          tabs[i].report.displayList == (if saveUnmatched then Remarked(old(tabs[i].report.displayList)) else old(tabs[i].report.displayList))
        invariant forall i :: 0 <= i < k ==> tabs[i].report.Counted(failures[i], old(tabs[i].report.percentage))
        invariant forall i :: k <= i < |tabs| ==>
          tabs[i].report.displayList == old(tabs[i].report.displayList) && tabs[i].report.percentage == old(tabs[i].report.percentage)
      {
        var failure := tabs[k].FinalizeSave(saveUnmatched);
        failures := failures + [failure];
      }
    }

    /** The sorted modes and their lists as a save or an export merges them, after _GetDisplayLists. */
    method CollectLists(autoCommit: bool, saveUnmatched: bool) returns (modes: seq<string>, lists: seq<seq<DisplayRecord>>)
      requires Valid() && Counters()
      modifies tabSet`undoList, tabSet`redoList, reportSet`displayList
      ensures modes == SortBy(NamesOf(old(Snapshot(|tabs|))), ModeKey)
      ensures lists == Prepared(old(Snapshot(|tabs|)), modes, autoCommit, saveUnmatched)
      ensures forall i :: 0 <= i < |tabs| ==> Prepped(tabs[i], autoCommit, saveUnmatched)
    {
      ghost var snapshot := Snapshot(|tabs|);
      var names := GetModes();
      SnapshotNames(|tabs|);
      modes := SortBy(names, ModeKey);
      SnapshotAt(|tabs|);
      var dict := GetDisplayLists(autoCommit, saveUnmatched, snapshot);
      ListsPrepared(snapshot, modes, autoCommit, saveUnmatched);
      lists := InOrder(dict, modes);
    }

    /** The part of SaveSummary that writes the file: the save variables reset, the lists prepared, and the rounds. */
    method WriteSession(autoCommit: bool, saveUnmatched: bool, autoSave: bool)
      requires Valid() && Counters()
      modifies `discrepancyFound, `lastAppliedModes, `trueLastOutputModes, `lastData, `lastOutput, `summaryText, `discrepancies
      modifies tabSet`undoList, tabSet`redoList, reportSet`displayList
      ensures SaveSession() == SummaryWritten(old(Snapshot(|tabs|)), old(SaveSession()), autoCommit, saveUnmatched, autoSave)
      ensures forall i :: 0 <= i < |tabs| ==> Prepped(tabs[i], autoCommit, saveUnmatched)
    {
      // The lists touch only the tabs and the reset only the save variables,
      // so preparing the lists first leaves the same state.
      var modes, lists := CollectLists(autoCommit, saveUnmatched);
      summaryText := "";
      InitializeSave();
      WriteSummary(modes, lists, autoSave);
    }

    /**
     * SaveSummary. When the file could not be opened nothing changes;
     * otherwise the summary file holds the merge of every mode's prepared
     * list, and the tabs are prepared, recounted and restored as the steps
     * say.
     */
    method SaveSummary(fileName: string, autoCommit: bool, saveUnmatched: bool, autoSave: bool, fileOpened: bool)
      returns (failures: seq<Option<Failure>>)
      requires Valid() && Counters()
      modifies this, tabSet`undoList, tabSet`redoList
      modifies reportSet`displayList, reportSet`errorCount, reportSet`checkCount, reportSet`errorDetails, reportSet`percentage
      ensures !fileOpened ==> unchanged(this) && forall i :: 0 <= i < |tabs| ==> unchanged(tabs[i], tabs[i].report)
      ensures fileOpened ==> SaveSession() == SummaryWritten(old(Snapshot(|tabs|)), old(SaveSession()), autoCommit, saveUnmatched, autoSave)
      ensures fileOpened ==> |failures| == |tabs| && forall i :: 0 <= i < |tabs| ==> Saved(tabs[i], failures[i], autoCommit, saveUnmatched)
      ensures fileOpened ==> summaryFileName == (if autoSave then old(summaryFileName) else fileName) && !autoSaveFlag
      ensures fileOpened ==> changedFlag == (autoSave && old(changedFlag))
    {
      if fileOpened {
        failures := SaveOpened(fileName, autoCommit, saveUnmatched, autoSave);
      } else {
        failures := [];
      }
    }

    /** SaveSummary once the file is open: write it, then finalize the tabs. */
    method SaveOpened(fileName: string, autoCommit: bool, saveUnmatched: bool, autoSave: bool)
      returns (failures: seq<Option<Failure>>)
      requires Valid() && Counters()
      modifies `discrepancyFound, `lastAppliedModes, `trueLastOutputModes, `lastData, `lastOutput, `summaryText, `discrepancies
      modifies `summaryFileName, `changedFlag, `autoSaveFlag, tabSet`undoList, tabSet`redoList
      modifies reportSet`displayList, reportSet`errorCount, reportSet`checkCount, reportSet`errorDetails, reportSet`percentage
      ensures SaveSession() == SummaryWritten(old(Snapshot(|tabs|)), old(SaveSession()), autoCommit, saveUnmatched, autoSave)
      ensures |failures| == |tabs| && forall i :: 0 <= i < |tabs| ==> Saved(tabs[i], failures[i], autoCommit, saveUnmatched)
      ensures summaryFileName == (if autoSave then old(summaryFileName) else fileName) && !autoSaveFlag
      ensures changedFlag == (autoSave && old(changedFlag))
    {
      WriteSession(autoCommit, saveUnmatched, autoSave);
      assert summaryFileName == old(summaryFileName) && changedFlag == old(changedFlag);
      label Written:
      failures := FinalizeSave(fileName, saveUnmatched, autoSave);
      forall i | 0 <= i < |tabs|
        ensures Saved(tabs[i], failures[i], autoCommit, saveUnmatched)
      {
        var t := tabs[i];
        assert old@Written(t.report.displayList) == ForSave(old(t.report.displayList), autoCommit, saveUnmatched, 0);
        assert t.undoList == old@Written(t.undoList) && t.redoList == old@Written(t.redoList);
        assert old@Written(t.report.percentage) == old(t.report.percentage);
      }
    }

    /** The part of ExportSummary that writes the file: the save variables reset, the lists prepared, the header and the rounds. */
    method WriteExport(errorPattern: string -> Option<ExportMatch>, logPattern: string -> Option<ExportMatch>)
      requires Valid() && Counters()
      modifies `discrepancyFound, `lastAppliedModes, `trueLastOutputModes, `lastData, `lastOutput, `csvText, `exportFailures
      modifies tabSet`undoList, tabSet`redoList, reportSet`displayList
      ensures
        var modes := SortBy(NamesOf(old(Snapshot(|tabs|))), ModeKey);
        var lists := Prepared(old(Snapshot(|tabs|)), modes, false, false);
        var r := Export(modes, lists, ExportProgress(Start(lists), CsvHeader(modes), old(exportFailures)), errorPattern, logPattern);
        csvText == r.csv && exportFailures == r.unmatched
      ensures SaveSession() == old(SaveSession()).(discrepancyFound := false, lastAppliedModes := [],
                                                  trueLastOutputModes := [], lastData := "", lastOutput := "")
      ensures forall i :: 0 <= i < |tabs| ==> Prepped(tabs[i], false, false)
    {
      // The lists touch only the tabs and the reset only the save variables,
      // so preparing the lists first leaves the same state.
      ghost var failures := exportFailures;
      var modes, lists := CollectLists(false, false);
      InitializeSave();
      var header := PrintCSVHeader(modes);
      csvText := header;
      assert exportFailures == failures;
      ExportRows(modes, lists, errorPattern, logPattern);
      ghost var r := Export(modes, lists, ExportProgress(Start(lists), CsvHeader(modes), failures), errorPattern, logPattern);
      assert csvText == r.csv && exportFailures == r.unmatched;
    }

    /**
     * ExportSummary. When the file could not be opened nothing changes;
     * otherwise the CSV file holds the header and one row per exported
     * line. Unmatched lines are deleted from the tabs, as the export
     * prepares the lists without saving them.
     */
    method ExportSummary(fileOpened: bool, errorPattern: string -> Option<ExportMatch>, logPattern: string -> Option<ExportMatch>)
      requires Valid() && Counters()
      modifies this, tabSet`undoList, tabSet`redoList, reportSet`displayList
      ensures !fileOpened ==> unchanged(this) && forall i :: 0 <= i < |tabs| ==> unchanged(tabs[i], tabs[i].report)
      ensures fileOpened ==>
        var modes := SortBy(NamesOf(old(Snapshot(|tabs|))), ModeKey);
        var lists := Prepared(old(Snapshot(|tabs|)), modes, false, false);
        var r := Export(modes, lists, ExportProgress(Start(lists), CsvHeader(modes), old(exportFailures)), errorPattern, logPattern);
        csvText == r.csv && exportFailures == r.unmatched
      ensures fileOpened ==> SaveSession() == old(SaveSession()).(discrepancyFound := false, lastAppliedModes := [],
                                                               trueLastOutputModes := [], lastData := "", lastOutput := "")
      ensures fileOpened ==> forall i :: 0 <= i < |tabs| ==> Prepped(tabs[i], false, false)
    {
      if fileOpened {
        WriteExport(errorPattern, logPattern);
      }
    }
  }
}
