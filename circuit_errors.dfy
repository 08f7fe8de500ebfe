/**
 * The per-cell device error summary (CCircuitPtrList::PrintAndResetCircuitErrors):
 * every device whose error count of one kind is nonzero, and whose model
 * type is listed, gets a summary line and its count reset; the lines are
 * sorted and framed by a heading and a "! Finished" trailer.
 */
module CircuitErrors {
  import opened CvcTypes
  import opened Text
  import opened Ordering
  import opened Circuits

  /** Every device of the cell has a row of counts, and each row has the kind `subIndex`. */
  predicate Counted(devices: seq<Placed>, counts: seq<seq<nat>>, subIndex: nat) {
    |counts| >= |devices| && forall d :: 0 <= d < |devices| ==> subIndex < |counts[d]|
  }

  /** A device is reported when its count is nonzero and its model type is listed (an empty list lists every type). */
  predicate Reported(p: Placed, counts: seq<nat>, subIndex: nat, modelList: set<ModelType>)
    requires subIndex < |counts|
  {
    counts[subIndex] > 0 && (modelList == {} || p.device.modelType in modelList)
  }

  /** The summary line of one device: cell, device and model, its count over the cell's instance count, and the limit when exceeded. */
  function ErrorLine(cellName: string, p: Placed, count: nat, instances: nat, limit: nat): (line: string)
    ensures "INFO: SUBCKT (" <= line
  {
    "INFO: SUBCKT (" + cellName + ")/" + p.device.name + "(" + p.device.modelName + ")"
      + " error count " + Decimal(count) + "/" + Decimal(instances)
      + (if limit > 0 && count > limit then " exceeded error limit " + Decimal(limit) else "")
  }

  /** The lines of a cell's first k devices, each new line pushed to the front. */
  function ErrorLines(cellName: string, devices: seq<Placed>, counts: seq<seq<nat>>, subIndex: nat,
                      instances: nat, limit: nat, modelList: set<ModelType>, k: nat): seq<string>
    requires Counted(devices, counts, subIndex) && k <= |devices|
  {
    if k == 0 then []
    else
      (if Reported(devices[k - 1], counts[k - 1], subIndex, modelList)
       then [ErrorLine(cellName, devices[k - 1], counts[k - 1][subIndex], instances, limit)]
       else [])
      + ErrorLines(cellName, devices, counts, subIndex, instances, limit, modelList, k - 1)
  }

  /** The counts after the summary: every reported device's entry of kind `subIndex` is zero. */
  function Reset(devices: seq<Placed>, counts: seq<seq<nat>>, subIndex: nat, modelList: set<ModelType>): (r: seq<seq<nat>>)
    requires Counted(devices, counts, subIndex)
    ensures |r| == |counts| && Counted(devices, r, subIndex)
    ensures forall d :: 0 <= d < |devices| && Reported(devices[d], counts[d], subIndex, modelList) ==>
      r[d] == counts[d][subIndex := 0]
    ensures forall d :: 0 <= d < |counts| && !(d < |devices| && Reported(devices[d], counts[d], subIndex, modelList)) ==>
      r[d] == counts[d]
  {
    seq(|counts|, d requires 0 <= d < |counts| =>
      if d < |devices| && Reported(devices[d], counts[d], subIndex, modelList) then counts[d][subIndex := 0] else counts[d])
  }

  /** The devices among the first k that are reported. */
  function ReportedSet(devices: seq<Placed>, counts: seq<seq<nat>>, subIndex: nat, modelList: set<ModelType>, k: nat): set<nat>
    requires Counted(devices, counts, subIndex) && k <= |devices|
  {
    set d | 0 <= d < k && Reported(devices[d], counts[d], subIndex, modelList)
  }

  /** There is one line per reported device. */
  lemma {:induction false} ErrorLinesCount(cellName: string, devices: seq<Placed>, counts: seq<seq<nat>>, subIndex: nat,
                                           instances: nat, limit: nat, modelList: set<ModelType>, k: nat)
    requires Counted(devices, counts, subIndex) && k <= |devices|
    ensures |ErrorLines(cellName, devices, counts, subIndex, instances, limit, modelList, k)|
      == |ReportedSet(devices, counts, subIndex, modelList, k)|
  {
    if k > 0 {
      ErrorLinesCount(cellName, devices, counts, subIndex, instances, limit, modelList, k - 1);
      var before := ReportedSet(devices, counts, subIndex, modelList, k - 1);
      var now := ReportedSet(devices, counts, subIndex, modelList, k);
      if Reported(devices[k - 1], counts[k - 1], subIndex, modelList) {
        assert now == before + {k - 1};
      } else {
        assert now == before;
      }
    }
  }

  /** A line is among the cell's lines exactly when it is the line of a reported device. */
  lemma {:induction false} ErrorLinesMember(cellName: string, devices: seq<Placed>, counts: seq<seq<nat>>, subIndex: nat,
                                            instances: nat, limit: nat, modelList: set<ModelType>, k: nat, line: string)
    requires Counted(devices, counts, subIndex) && k <= |devices|
    ensures line in ErrorLines(cellName, devices, counts, subIndex, instances, limit, modelList, k) <==>
      exists d :: d in ReportedSet(devices, counts, subIndex, modelList, k)
        && line == ErrorLine(cellName, devices[d], counts[d][subIndex], instances, limit)
  {
    if k > 0 {
      ErrorLinesMember(cellName, devices, counts, subIndex, instances, limit, modelList, k - 1, line);
      var last := k - 1;
      if Reported(devices[last], counts[last], subIndex, modelList)
        && line == ErrorLine(cellName, devices[last], counts[last][subIndex], instances, limit) {
        assert last in ReportedSet(devices, counts, subIndex, modelList, k);
      }
    }
  }

  /** After a reset no device is reported any more, so a second summary has no lines and changes nothing. */
  lemma {:induction false} ResetClears(cellName: string, devices: seq<Placed>, counts: seq<seq<nat>>, subIndex: nat,
                                       instances: nat, limit: nat, modelList: set<ModelType>, k: nat)
    requires Counted(devices, counts, subIndex) && k <= |devices|
    ensures ErrorLines(cellName, devices, Reset(devices, counts, subIndex, modelList), subIndex, instances, limit, modelList, k) == []
    ensures Reset(devices, Reset(devices, counts, subIndex, modelList), subIndex, modelList) == Reset(devices, counts, subIndex, modelList)
  {
    if k > 0 {
      ResetClears(cellName, devices, counts, subIndex, instances, limit, modelList, k - 1);
    }
  }

  /** One cell's lines, read from the cell. */
  function CellLines(c: Circuit, subIndex: nat, limit: nat, modelList: set<ModelType>): seq<string>
    reads c`name, c`devices, c`errorCounts, c`instanceIds
    requires Counted(c.devices, c.errorCounts, subIndex)
  {
    ErrorLines(c.name, c.devices, c.errorCounts, subIndex, |c.instanceIds|, limit, modelList, |c.devices|)
  }

  /** The summary list after the first k cells: each cell's lines go in front of the earlier ones. */
  function Collected(circuits: seq<Circuit>, subIndex: nat, limit: nat, modelList: set<ModelType>, k: nat): seq<string>
    reads set c | c in circuits
    requires k <= |circuits| && forall c :: c in circuits ==> Counted(c.devices, c.errorCounts, subIndex)
  {
    if k == 0 then []
    else CellLines(circuits[k - 1], subIndex, limit, modelList) + Collected(circuits, subIndex, limit, modelList, k - 1)
  }

  /** std::list::sort orders the lines by string comparison. */
  function LineKey(line: string): Key {
    Key(0, line)
  }

  /** One cell's part of the summary: its lines, with the reported counts reset. */
  method CollectErrors(c: Circuit, subIndex: nat, limit: nat, modelList: set<ModelType>) returns (lines: seq<string>)
    requires Counted(c.devices, c.errorCounts, subIndex)
    modifies c`errorCounts
    ensures lines == old(CellLines(c, subIndex, limit, modelList))
    ensures c.errorCounts == Reset(c.devices, old(c.errorCounts), subIndex, modelList)
  {
    var devices, counts, instances := c.devices, c.errorCounts, |c.instanceIds|;
    var reset := counts;
    lines := [];
    for d := 0 to |devices|
      invariant |reset| == |counts|
      invariant forall e :: 0 <= e < |counts| ==>
        reset[e] == if e < d then Reset(devices, counts, subIndex, modelList)[e] else counts[e]
      invariant lines == ErrorLines(c.name, devices, counts, subIndex, instances, limit, modelList, d)
    {
      if counts[d][subIndex] > 0 && (modelList == {} || devices[d].device.modelType in modelList) {
        lines := [ErrorLine(c.name, devices[d], counts[d][subIndex], instances, limit)] + lines;
        reset := reset[d := counts[d][subIndex := 0]];
      }
    }
    c.errorCounts := reset;
  }

  /** The error summary list of PrintAndResetCircuitErrors before sorting, with the reported counts reset. */
  method CollectAll(circuits: seq<Circuit>, limit: nat, subIndex: nat, modelList: set<ModelType>)
    returns (summary: seq<string>)
    requires forall i, j :: 0 <= i < j < |circuits| ==> circuits[i] != circuits[j]
    requires forall c :: c in circuits ==> Counted(c.devices, c.errorCounts, subIndex)
    modifies set c | c in circuits :: c`errorCounts
    ensures summary == old(Collected(circuits, subIndex, limit, modelList, |circuits|))
    ensures forall c :: c in circuits ==> c.errorCounts == Reset(c.devices, old(c.errorCounts), subIndex, modelList)
  {
    summary := [];
    for k := 0 to |circuits|
      invariant forall j :: 0 <= j < k ==>
        circuits[j].errorCounts == Reset(circuits[j].devices, old(circuits[j].errorCounts), subIndex, modelList)
      invariant forall j :: k <= j < |circuits| ==> circuits[j].errorCounts == old(circuits[j].errorCounts)
      invariant summary == old(Collected(circuits, subIndex, limit, modelList, k))
    {
      var lines := CollectErrors(circuits[k], subIndex, limit, modelList);
      summary := lines + summary;
    }
  }

  /**
   * PrintAndResetCircuitErrors: the error file's summary block is the
   * heading, every reported device's line in sorted order, then a blank
   * line, "! Finished" and another blank line; every reported count is
   * reset.
   */
  method PrintAndResetCircuitErrors(circuits: seq<Circuit>, limit: nat, heading: string, subIndex: nat, modelList: set<ModelType>)
    returns (output: seq<string>)
    requires forall i, j :: 0 <= i < j < |circuits| ==> circuits[i] != circuits[j]
    requires forall c :: c in circuits ==> Counted(c.devices, c.errorCounts, subIndex)
    modifies set c | c in circuits :: c`errorCounts
    ensures output == [heading] + SortBy(old(Collected(circuits, subIndex, limit, modelList, |circuits|)), LineKey) + ["", "! Finished", ""]
    ensures forall c :: c in circuits ==> c.errorCounts == Reset(c.devices, old(c.errorCounts), subIndex, modelList)
  {
    var summary := CollectAll(circuits, limit, subIndex, modelList);
    output := [heading] + SortBy(summary, LineKey) + ["", "! Finished", ""];
  }

  /** The summary lines are sorted, and they are exactly the collected lines. */
  lemma SummaryOrdered(collected: seq<string>)
    ensures SortedBy(SortBy(collected, LineKey), LineKey)
    ensures multiset(SortBy(collected, LineKey)) == multiset(collected)
  {
    SortByFacts(collected, LineKey, Key(0, ""));
  }
}
