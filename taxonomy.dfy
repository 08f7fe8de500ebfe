/**
 * The fixed table of error categories. A category's position in the table
 * is its priority; the first twenty are found in the log file, the rest in
 * the report (error) file. The regular expression that recognises each
 * category is kept as text, by position, in `SearchTexts`.
 */
module Taxonomy {

  datatype Source = Log | Report

  datatype Category = Category(source: Source, section: string)

  /** The review levels a checked error may carry, most severe first. */
  const ValidLevels: seq<string> := ["ERROR", "Warning", "Check", "ignore"]

  /** Number of categories found in the log file; they come first. */
  const LOG_CATEGORIES: nat := 20

  const ErrorTable: seq<Category> := [
    Category(Log, "resistor"),
    Category(Log, "unsupported_device"),
    Category(Log, "min_voltage_ignore"),
    Category(Log, "max_voltage_ignore"),
    Category(Log, "unexpected_max_voltage"),
    Category(Log, "unexpected_min_voltage"),
    Category(Log, "unknown_max_gate"),
    Category(Log, "unknown_min_gate"),
    Category(Log, "fuse_only"),
    Category(Log, "resistor_error"),
    Category(Log, "inverter_error"),
    Category(Log, "port_min/max"),
    Category(Log, "min_exceeds_sim"),
    Category(Log, "sim_exceeds_max"),
    Category(Log, "high_res_bias"),
    Category(Log, "missing_bias"),
    Category(Log, "missing_overvoltage"),
    Category(Log, "possible_missing_input"),
    Category(Log, "resistance_overflow"),
    Category(Log, "unexpected_diode"),
    Category(Report, "MOS_DIODE"),
    Category(Report, "SHORT"),
    Category(Report, "BIAS"),
    Category(Report, "FORWARD"),
    Category(Report, "FLOATING"),
    Category(Report, "GATE"),
    Category(Report, "LEAK?"),
    Category(Report, "VALUE"),
    Category(Report, "LDD"),
    Category(Report, "OVERVOLTAGE_VBG"),
    Category(Report, "OVERVOLTAGE_VBS"),
    Category(Report, "OVERVOLTAGE_VDS"),
    Category(Report, "OVERVOLTAGE_VGS"),
    Category(Report, "UNKNOWN")
  ]

  /** The regular expressions that recognise the table entries, position by position. */
  const SearchTexts: seq<string> := [
    "^INFO: resistor voltage calculation",
    "^WARNING: unsupported devices in netlist",
    "^WARNING: min voltage .* ignored for ",
    "^WARNING: max voltage .* ignored for ",
    "^WARNING: Max voltage already set for",
    "^WARNING: Min voltage already set for",
    "^WARNING: unknown max gate at",
    "^WARNING: unknown min gate at",
    "^WARNING: MIN = MAX .* through FUSE",
    "^WARNING: Could not calculate explicit resistor voltage",
    "^WARNING: could not set .* ->inv-> ",
    "^WARNING: Invalid Min/Max on top level port",
    "^WARNING: MIN > SIM",
    "^WARNING: MAX < SIM",
    "^WARNING: high res bias",
    "^WARNING: missing bias",
    "^WARNING: no overvoltage check for model",
    "^WARNING: possible missing input at net",
    "^WARNING: resistance ",
    "^INFO: unexpected diode",
    "^! ... voltage already",
    "^! Short Detected",
    "^! Checking .mos source/drain vs bias errors",
    "^! Checking forward bias diode errors",
    "^! Checking mos floating input errors",
    "^! Checking .mos gate vs source errors",
    "^! Checking .mos possible leak errors",
    "^! Checking expected values",
    "^! Checking LDD errors for model",
    "^! Checking Vbg overvoltage errors",
    "^! Checking Vbs overvoltage errors",
    "^! Checking Vds overvoltage errors",
    "^! Checking Vgs overvoltage errors",
    "^! Finished"
  ]

  /** The section-to-priority map after the first k table entries have been registered. */
  function PrefixMap(k: nat): map<string, nat>
    requires k <= |ErrorTable|
  {
    if k == 0 then map[] else PrefixMap(k - 1)[ErrorTable[k - 1].section := k - 1]
  }

  /** The section-to-priority map the whole table produces. */
  function PriorityMap(): map<string, nat> {
    PrefixMap(|ErrorTable|)
  }

  /** The priorities the first k table entries carry: entry i has priority i. */
  function Numbering(k: nat): map<nat, nat> {
    if k == 0 then map[] else Numbering(k - 1)[k - 1 := k - 1]
  }

  /** Numbering(k) gives exactly the positions below k, each its own priority. */
  lemma {:induction false} NumberingIdentity(k: nat, i: nat)
    ensures i in Numbering(k) <==> i < k
    ensures i < k ==> Numbering(k)[i] == i
  {
    if k > 0 {
      NumberingIdentity(k - 1, i);
    }
  }

  predicate IsSection(s: string) {
    exists i :: 0 <= i < |ErrorTable| && ErrorTable[i].section == s
  }

  lemma ValidLevelsExactly()
    ensures |ValidLevels| == 4
    ensures ValidLevels[0] == "ERROR" && ValidLevels[1] == "Warning"
    ensures ValidLevels[2] == "Check" && ValidLevels[3] == "ignore"
  {
  }

  /** No two categories share a section name. */
  lemma SectionsDistinct(i: nat, j: nat)
    requires i < j < |ErrorTable|
    ensures ErrorTable[i].section != ErrorTable[j].section
  {
    if j < 12 {
      DistinctLow(i, j);
    } else if j < 23 {
      if i < 12 { DistinctLowMiddle(i, j); } else { DistinctMiddle(i, j); }
    } else if i < 12 {
      DistinctLowHigh(i, j);
    } else if i < 23 {
      DistinctMiddleHigh(i, j);
    } else {
      DistinctHigh(i, j);
    }
  }

  // The table in three bands, [0, 12), [12, 23) and [23, 34), compared band by band.

  lemma DistinctLow(i: nat, j: nat)
    requires i < j < 12
    ensures ErrorTable[i].section != ErrorTable[j].section
  {
  }

  lemma DistinctMiddle(i: nat, j: nat)
    requires 12 <= i < j < 23
    ensures ErrorTable[i].section != ErrorTable[j].section
  {
  }

  lemma DistinctHigh(i: nat, j: nat)
    requires 23 <= i < j < 34
    ensures ErrorTable[i].section != ErrorTable[j].section
  {
  }

  lemma DistinctLowMiddle(i: nat, j: nat)
    requires i < 12 <= j < 23
    ensures ErrorTable[i].section != ErrorTable[j].section
  {
  }

  lemma DistinctLowHigh(i: nat, j: nat)
    requires i < 12 && 23 <= j < 34
    ensures ErrorTable[i].section != ErrorTable[j].section
  {
  }

  lemma DistinctMiddleHigh(i: nat, j: nat)
    requires 12 <= i < 23 <= j < 34
    ensures ErrorTable[i].section != ErrorTable[j].section
  {
  }

  /** Every log category precedes every report category. */
  lemma LogBeforeReport(i: nat, j: nat)
    requires i < |ErrorTable| && j < |ErrorTable|
    requires ErrorTable[i].source == Log && ErrorTable[j].source == Report
    ensures i < j
  {
    SourceOf(i);
    SourceOf(j);
  }

  /** The number of categories (`TableSize`: the length of the table). */
  const TABLE_SIZE: nat := 34

  lemma TableSize()
    ensures |ErrorTable| == TABLE_SIZE
  {
  }

  /** The source a position of the table holds: the log categories come first (`SourceOf`). */
  function SourceAt(i: nat): Source {
    if i < LOG_CATEGORIES then Log else Report
  }

  /** The source of a category is decided by its position alone. */
  lemma SourceOf(i: nat)
    requires i < |ErrorTable|
    ensures ErrorTable[i].source == Log <==> i < LOG_CATEGORIES
    ensures ErrorTable[i].source == SourceAt(i)
  {
    assert forall k :: 0 <= k < LOG_CATEGORIES ==> ErrorTable[k].source == Log;
    assert forall k :: LOG_CATEGORIES <= k < |ErrorTable| ==> ErrorTable[k].source == Report;
  }

  /** A prefix map sends each registered section back to a position holding that section. */
  lemma {:induction false} PrefixMapSound(k: nat, s: string)
    requires k <= |ErrorTable|
    requires s in PrefixMap(k)
    ensures PrefixMap(k)[s] < k && ErrorTable[PrefixMap(k)[s]].section == s
  {
    if k > 0 && s != ErrorTable[k - 1].section {
      PrefixMapSound(k - 1, s);
    }
  }

  /** Each of the first k sections is registered at its own position. */
  lemma {:induction false} PrefixMapComplete(k: nat, i: nat)
    requires i < k <= |ErrorTable|
    ensures ErrorTable[i].section in PrefixMap(k)
    ensures PrefixMap(k)[ErrorTable[i].section] == i
  {
    if i < k - 1 {
      SectionsDistinct(i, k - 1);
      PrefixMapComplete(k - 1, i);
    }
  }

  /** The priority map is exactly the inverse of the table's section column. */
  lemma PriorityMapInverse(s: string)
    ensures s in PriorityMap() <==> IsSection(s)
    ensures s in PriorityMap() ==> PriorityMap()[s] < |ErrorTable| && ErrorTable[PriorityMap()[s]].section == s
  {
    if s in PriorityMap() {
      PrefixMapSound(|ErrorTable|, s);
    }
    if IsSection(s) {
      var i :| 0 <= i < |ErrorTable| && ErrorTable[i].section == s;
      PrefixMapComplete(|ErrorTable|, i);
    }
  }

  /**
   * The category registry of the review tools: the table entries gain a
   * priority, and the global section map is filled in.
   */
  class Registry {
    /** priority[i] is the priority stored into table entry i. */
    var priority: map<nat, nat>
    var priorityMap: map<string, nat>

    constructor ()
      ensures priority == map[] && priorityMap == map[]
    {
      priority := map[];
      priorityMap := map[];
    }

    /** InitializeErrors: number the table entries 0, 1, ... in order and map each section to its number. */
    method InitializeErrors()
      modifies this
      ensures priority == old(priority) + Numbering(|ErrorTable|)
      ensures priorityMap == old(priorityMap) + PriorityMap()
    {
      var index := 0;
      while index < |ErrorTable|
        invariant 0 <= index <= |ErrorTable|
        invariant priority == old(priority) + Numbering(index)
        invariant priorityMap == old(priorityMap) + PrefixMap(index)
      {
        var section := ErrorTable[index].section;
        PrefixMapNext(old(priorityMap), index);
        NumberingNext(old(priority), index);
        priority := priority[index := index];
        priorityMap := priorityMap[section := index];
        index := index + 1;
      }
    }
  }

  /** Registering entry k on top of a map holding the first k entries. */
  lemma PrefixMapNext(m: map<string, nat>, k: nat)
    requires k < |ErrorTable|
    ensures m + PrefixMap(k + 1) == (m + PrefixMap(k))[ErrorTable[k].section := k]
  {
  }

  /** Numbering entry k on top of the first k numbers. */
  lemma NumberingNext(p: map<nat, nat>, k: nat)
    ensures p + Numbering(k + 1) == (p + Numbering(k))[k := k]
  {
  }

  /** Running InitializeErrors a second time changes nothing. */
  lemma InitializeTwice(m: map<string, nat>, p: map<nat, nat>)
    ensures (m + PriorityMap()) + PriorityMap() == m + PriorityMap()
    ensures (p + Numbering(|ErrorTable|)) + Numbering(|ErrorTable|) == p + Numbering(|ErrorTable|)
  {
  }
}
