/**
 * The detail excerpt of one summarised error: the lines of the retained
 * report text that describe the devices behind an "INFO: SUBCKT ... error
 * count n/m" line, read by a small state machine.
 *
 * The parse of the error text and the regular-expression searches are
 * parameters: `parse` stands for the five groups of the error-text pattern
 * and `search(pattern, line)` for `re.search`; `escape` for `re.escape`.
 */
module ErrorDetails {
  import opened Outcomes
  import opened Text
  import opened Taxonomy

  /** The groups of the error text: section, "(top cell)" part, device, error count, cell count. */
  datatype ErrorText = ErrorText(section: string, cell: string, device: string, errors: string, cells: string)

  /** The text of `s` before its first '(' (`s.split("(")[0]`). */
  function BeforeParen(s: string): (r: string)
    ensures '(' !in r && StartsWith(s, r)
    ensures |r| < |s| ==> s[|r|] == '('
  {
    if s == [] || s[0] == '(' then []
    else
      var r := [s[0]] + BeforeParen(s[1..]);
      assert s[..|r|] == [s[0]] + s[1..][..|r| - 1];
      r
  }

  /**
   * The pattern of a device's first detail line: the bare device name for
   * an error in the top cell, else any hierarchical path ending in the
   * escaped cell text and the device name.
   */
  function DevicePattern(topCell: string, m: ErrorText, escape: string -> string): (p: string)
    ensures "(" + topCell + ")" == m.cell ==> p == "^" + BeforeParen(m.device) + " "
    ensures "(" + topCell + ")" != m.cell ==> p == "^/.*" + escape(m.cell) + BeforeParen(m.device) + " "
  {
    var name := BeforeParen(m.device);
    if "(" + topCell + ")" == m.cell then "^" + name + " " else "^/.*" + escape(m.cell) + name + " "
  }

  /** `^\s*$`: a line of white space only. */
  predicate Blank(line: string) {
    forall i :: 0 <= i < |line| ==> IsSpace(line[i])
  }

  /** `^! Finished`: the end of a report section. */
  predicate SectionEnd(line: string) {
    StartsWith(line, "! Finished")
  }

  /** What the scan looks for: the section header pattern, the device pattern, and whether one sample is enough. */
  datatype Target = Target(sectionPattern: string, devicePattern: string, sampleOnly: bool)

  /** The scan's variables between two lines. */
  datatype Scan = Scan(saveLeading: bool, correctSection: bool, saveLine: bool,
                       output: string, section: string, leading: string, count: nat)

  const START: Scan := Scan(true, false, false, "", "", "", 0)

  /** The lines read inside the right section: device lines open an excerpt, blank lines close it. */
  function InSection(t: Target, st: Scan, line: string, search: (string, string) -> bool): (r: (Scan, bool))
  {
    var st1 := if search(t.devicePattern, line)
               then st.(count := st.count + 1, output := st.output + st.section + st.leading,
                        saveLeading := false, saveLine := true)
               else st;
    var st2 := if st1.saveLine then st1.(output := st1.output + line) else st1;
    if Blank(line) then
      if st2.output != "" && (t.sampleOnly || st2.count > 9) then (st2, true)
      else (st2.(saveLeading := true, leading := "", saveLine := false), false)
    else if st2.saveLeading then (st2.(leading := st2.leading + (if line != st2.section then line else "")), false)
    else (st2, false)
  }

  /** One line of the scan: the new variables and whether the scan stops after it. */
  function Step(t: Target, st: Scan, line: string, search: (string, string) -> bool): (r: (Scan, bool))
    ensures r.1 ==> r.0.output != ""
    ensures r.0.count >= st.count
  {
    var (st1, stop) :=
      if search(t.sectionPattern, line) then (st.(correctSection := true, section := line), false)
      else if st.correctSection then InSection(t, st, line, search)
      else (st, false);
    if stop then (st1, true)
    else if SectionEnd(line) then (st1.(correctSection := false), st1.output != "")
    else (st1, false)
  }

  /** The excerpt the scan of `lines` from `st` returns. */
  function Run(t: Target, st: Scan, lines: seq<string>, search: (string, string) -> bool): string
    decreases |lines|
  {
    if lines == [] then st.output
    else
      var (st1, stop) := Step(t, st, lines[0], search);
      if stop then st1.output else Run(t, st1, lines[1..], search)
  }

  /**
   * GetErrorDetails: an error text the pattern does not parse is returned
   * as it is; an unknown section fails with KeyError; otherwise the
   * excerpt of the report lines.
   */
  function Details(errorText: string, topCell: string, errorData: seq<string>,
                   parse: string -> Option<ErrorText>, search: (string, string) -> bool,
                   escape: string -> string): (r: Result<string>)
    ensures parse(errorText).None? ==> r == Ok(errorText)
    ensures parse(errorText).Some? ==> (r.Fail? <==> !IsSection(parse(errorText).value.section))
    ensures r.Fail? ==> r.failure == KeyError
  {
    match parse(errorText)
    case None => Ok(errorText)
    case Some(m) =>
      PriorityMapInverse(m.section);
      if m.section !in PriorityMap() then Fail(KeyError)
      else Ok(Run(TargetOf(topCell, m, escape), START, errorData, search))
  }

  /** The scan target for a parsed error text whose section is in the table. */
  function TargetOf(topCell: string, m: ErrorText, escape: string -> string): (t: Target)
    requires m.section in PriorityMap()
    ensures t.sampleOnly <==> m.errors == m.cells
  {
    PriorityMapInverse(m.section);
    Target(SearchTexts[PriorityMap()[m.section]], DevicePattern(topCell, m, escape), m.errors == m.cells)
  }

  // ---- properties of the scan ----

  /** Output appears only once a device line has been counted. */
  predicate Quiet(st: Scan) {
    st.count == 0 ==> st.output == "" && !st.saveLine
  }

  lemma StepQuiet(t: Target, st: Scan, line: string, search: (string, string) -> bool)
    requires Quiet(st)
    ensures Quiet(Step(t, st, line, search).0)
  {
  }

  /** An excerpt that is not empty needs a line that matches the device pattern. */
  lemma {:induction false} NoDeviceNoOutput(t: Target, st: Scan, lines: seq<string>, search: (string, string) -> bool)
    requires Quiet(st) && st.count == 0
    requires forall i :: 0 <= i < |lines| ==> !search(t.devicePattern, lines[i])
    ensures Run(t, st, lines, search) == ""
    decreases |lines|
  {
    if lines != [] {
      var (st1, stop) := Step(t, st, lines[0], search);
      StepQuiet(t, st, lines[0], search);
      assert st1.count == 0;
      if !stop {
        NoDeviceNoOutput(t, st1, lines[1..], search);
      }
    }
  }

  /** With one sample wanted, the scan stops at the first blank line of the section once an excerpt exists. */
  lemma SampleStopsAtBlank(t: Target, st: Scan, line: string, search: (string, string) -> bool)
    requires t.sampleOnly && st.correctSection && !search(t.sectionPattern, line)
    requires Blank(line) && st.output != ""
    ensures Step(t, st, line, search).1
  {
  }

  /** Otherwise a blank line stops it only once an excerpt exists and more than nine device lines were seen. */
  lemma BlankStopsAfterTen(t: Target, st: Scan, line: string, search: (string, string) -> bool)
    requires !t.sampleOnly && st.correctSection && !search(t.sectionPattern, line)
    requires Blank(line) && !SectionEnd(line)
    ensures Step(t, st, line, search).1 <==>
              Step(t, st, line, search).0.output != "" && Step(t, st, line, search).0.count > 9
  {
  }

  /** The end of a section stops the scan exactly when an excerpt exists. */
  lemma FinishedStops(t: Target, st: Scan, line: string, search: (string, string) -> bool)
    requires !st.correctSection && !search(t.sectionPattern, line) && SectionEnd(line)
    ensures Step(t, st, line, search).1 <==> st.output != ""
    ensures !Step(t, st, line, search).0.correctSection
  {
  }

  /** Outside the right section nothing but the section end is looked at. */
  lemma OutsideSectionIgnored(t: Target, st: Scan, line: string, search: (string, string) -> bool)
    requires !st.correctSection && !search(t.sectionPattern, line) && !SectionEnd(line)
    ensures Step(t, st, line, search) == (st, false)
  {
  }

  /** The header line itself is never added to the leading lines. */
  lemma HeaderNotLeading(t: Target, st: Scan, line: string, search: (string, string) -> bool)
    requires line == st.section && !search(t.sectionPattern, line)
    requires !search(t.devicePattern, line)
    ensures Step(t, st, line, search).0.leading == st.leading || Step(t, st, line, search).0.leading == ""
  {
    assert st.leading + "" == st.leading;
  }

  /** A stop needs an excerpt, and a scan that never stops returns its whole output. */
  lemma {:induction false} RunGrows(t: Target, st: Scan, lines: seq<string>, search: (string, string) -> bool)
    ensures StartsWith(Run(t, st, lines, search), st.output)
    decreases |lines|
  {
    if lines != [] {
      var (st1, stop) := Step(t, st, lines[0], search);
      StepGrows(t, st, lines[0], search);
      if !stop {
        RunGrows(t, st1, lines[1..], search);
      }
    }
  }

  lemma StepGrows(t: Target, st: Scan, line: string, search: (string, string) -> bool)
    ensures StartsWith(Step(t, st, line, search).0.output, st.output)
  {
    var st1 := Step(t, st, line, search).0;
    assert st1.output[..|st.output|] == st.output;
  }
}
