/**
 * Reading a CVC run: the log file names the mode, the top cell, the log
 * and error files and reports log-level errors; the report (error) file
 * holds section headers followed by INFO/WARNING error lines.
 *
 * The category patterns are regular expressions, kept by position in
 * `SearchTexts`; `matches(k, line)` stands for Python's `re.matches` of the
 * pattern of table entry k in the line, and `TableSearch` builds it from a
 * `search(pattern, line)`. The fixed anchored patterns of the log header
 * lines are simple enough to be written out.
 */
module LogScan {
  import opened Outcomes
  import opened Text
  import opened Records
  import opened Taxonomy
  import Paths

  /** Index of the first newline of s, or |s|. */
  function LineEnd(s: string): (k: nat)
    ensures k <= |s| && '\n' !in s[..k]
    ensures k < |s| ==> s[k] == '\n'
  {
    if s == [] || s[0] == '\n' then 0
    else
      var k := 1 + LineEnd(s[1..]);
      assert s[..k] == [s[0]] + s[1..][..k - 1];
      k
  }

  /** Group 1 of `^PREFIX(.*)`: the rest of the line before its first newline. */
  function RestCapture(line: string, prefix: string): (r: Option<string>)
    ensures r.Some? <==> StartsWith(line, prefix)
    ensures r.Some? ==> '\n' !in r.value && StartsWith(line, prefix + r.value)
    ensures r.Some? ==> |prefix| + |r.value| == |line| || line[|prefix| + |r.value|] == '\n'
  {
    if !StartsWith(line, prefix) then None
    else
      var rest := line[|prefix|..];
      var c := rest[..LineEnd(rest)];
      assert line[..|prefix + c|] == prefix + c;
      Some(c)
  }

  /** Index of the last quote in s, if any. */
  function LastQuote(s: string): (r: Option<nat>)
    ensures r.Some? ==> r.value < |s| && s[r.value] == '\''
    ensures forall i :: (if r.Some? then r.value + 1 else 0) <= i < |s| ==> s[i] != '\''
  {
    if s == [] then None
    else if s[|s| - 1] == '\'' then Some(|s| - 1)
    else LastQuote(s[..|s| - 1])
  }

  /**
   * Group 1 of `^PREFIX'(.*)'` (the prefix includes the opening quote):
   * the text up to the last quote before the line's first newline.
   */
  function QuotedCapture(line: string, prefix: string): (r: Option<string>)
    ensures r.Some? ==> StartsWith(line, prefix + r.value + "'") && '\n' !in r.value
    ensures r.Some? ==> forall i :: |prefix| + |r.value| < i < |prefix| + LineEnd(line[|prefix|..]) ==> line[i] != '\''
  {
    match RestCapture(line, prefix)
    case None => None
    case Some(c) =>
      match LastQuote(c)
      case None => None
      case Some(j) =>
        assert line[..|prefix| + |c|] == prefix + c;
        assert c[..j + 1] == c[..j] + "'";
        assert line[..|prefix| + j + 1] == (prefix + c)[..|prefix| + j + 1] == prefix + c[..j + 1];
        assert forall i :: |prefix| + j < i < |prefix| + |c| ==> line[i] == c[i - |prefix|];
        Some(c[..j])
  }

  const LOG_OUTPUT: string := "CVC: Log output to "
  const ERROR_OUTPUT: string := "CVC: Error output to "
  const MODE_PREFIX: string := "CVC_MODE = '"
  const TOP_PREFIX: string := "CVC_TOP = '"

  /** The base name of the log file a run recorded (`^CVC: Log output to (.*)`). */
  function BaseLogCapture(line: string): Option<string> {
    match RestCapture(line, LOG_OUTPUT)
    case None => None
    case Some(c) => Some(Paths.Basename(c))
  }

  /** The error file a run recorded (`^CVC: Error output to (.*)`). */
  function ErrorFileCapture(line: string): Option<string> {
    RestCapture(line, ERROR_OUTPUT)
  }

  /** The mode of a run (`^CVC_MODE = '(.*)'`). */
  function ModeCapture(line: string): Option<string> {
    QuotedCapture(line, MODE_PREFIX)
  }

  /** The top cell of a run (`^CVC_TOP = '(.*)'`). */
  function TopCapture(line: string): Option<string> {
    QuotedCapture(line, TOP_PREFIX)
  }

  /** One line's effect on a field that is filled from its first matching line. */
  function Adopt(field: string, line: string, capture: string -> Option<string>): string {
    if field == "" && capture(line).Some? then capture(line).value else field
  }

  /** The field after reading all of `lines`. */
  function AdoptAll(field: string, lines: seq<string>, capture: string -> Option<string>): string
    decreases |lines|
  {
    if lines == [] then field else AdoptAll(Adopt(field, lines[0], capture), lines[1..], capture)
  }

  /** Reading the line at position i, then the rest. */
  lemma AdoptStep(field: string, lines: seq<string>, i: nat, capture: string -> Option<string>)
    requires i < |lines|
    ensures AdoptAll(field, lines[i..], capture) == AdoptAll(Adopt(field, lines[i], capture), lines[i + 1..], capture)
  {
    assert lines[i..][0] == lines[i] && lines[i..][1..] == lines[i + 1..];
  }

  /** A field that is already set keeps its value. */
  lemma {:induction false} AdoptKeeps(field: string, lines: seq<string>, capture: string -> Option<string>)
    requires field != ""
    ensures AdoptAll(field, lines, capture) == field
  {
    if lines != [] {
      AdoptKeeps(field, lines[1..], capture);
    }
  }

  /** An unset field takes the first non-empty capture. */
  lemma {:induction false} AdoptFirst(lines: seq<string>, capture: string -> Option<string>, k: nat)
    requires k < |lines| && capture(lines[k]).Some? && capture(lines[k]).value != ""
    requires forall j :: 0 <= j < k ==> capture(lines[j]).None? || capture(lines[j]).value == ""
    ensures AdoptAll("", lines, capture) == capture(lines[k]).value
  {
    if k == 0 {
      AdoptKeeps(capture(lines[0]).value, lines[1..], capture);
    } else {
      assert capture(lines[0]).None? || capture(lines[0]).value == "";
      AdoptFirst(lines[1..], capture, k - 1);
    }
  }

  /** An unset field stays unset when no line gives a non-empty capture. */
  lemma {:induction false} AdoptNone(lines: seq<string>, capture: string -> Option<string>)
    requires forall j :: 0 <= j < |lines| ==> capture(lines[j]).None? || capture(lines[j]).value == ""
    ensures AdoptAll("", lines, capture) == ""
  {
    if lines != [] {
      AdoptNone(lines[1..], capture);
    }
  }

  /** The searches of the table's patterns: entry k's regular expression looked for in a line. */
  function TableSearch(search: (string, string) -> bool): (nat, string) -> bool {
    (k: nat, line: string) => k < |SearchTexts| && search(SearchTexts[k], line)
  }

  /** Table entry k is a category of the source whose pattern is found in the line. */
  predicate Hit(line: string, matches: (nat, string) -> bool, source: Source, k: nat)
  {
    SourceAt(k) == source && matches(k, line)
  }

  /**
   * The first category of the given source whose pattern is found in the
   * line, scanning the table from position `from`.
   */
  function FirstMatch(line: string, matches: (nat, string) -> bool, source: Source, from: nat): (r: Option<nat>)
    requires from <= TABLE_SIZE
    ensures r.Some? ==> from <= r.value < TABLE_SIZE && Hit(line, matches, source, r.value)
    decreases TABLE_SIZE - from
  {
    if from == TABLE_SIZE then None
    else if Hit(line, matches, source, from) then Some(from)
    else FirstMatch(line, matches, source, from + 1)
  }

  /** No category of the source between `from` and the one found (or the table end) matches the line. */
  lemma {:induction false} FirstMatchIsFirst(line: string, matches: (nat, string) -> bool, source: Source, from: nat, i: nat)
    requires from <= i < TABLE_SIZE
    requires FirstMatch(line, matches, source, from).Some? ==> i < FirstMatch(line, matches, source, from).value
    ensures !Hit(line, matches, source, i)
    decreases i - from
  {
    var hit := Hit(line, matches, source, from);
    assert hit ==> FirstMatch(line, matches, source, from) == Some(from);
    if from < i {
      assert FirstMatch(line, matches, source, from) == FirstMatch(line, matches, source, from + 1);
      FirstMatchIsFirst(line, matches, source, from + 1, i);
    }
  }

  /** The position of the first category of `source` whose pattern is found in the line, or the table size. */
  method FindCategory(line: string, matches: (nat, string) -> bool, source: Source) returns (k: nat)
    ensures k <= TABLE_SIZE
    ensures FirstMatch(line, matches, source, 0) == if k < TABLE_SIZE then Some(k) else None
  {
    k := 0;
    while k < TABLE_SIZE
      invariant k <= TABLE_SIZE
      invariant FirstMatch(line, matches, source, k) == FirstMatch(line, matches, source, 0)
    {
      FirstMatchAt(line, matches, source, k);
      if Hit(line, matches, source, k) {
        return;
      }
      k := k + 1;
    }
  }

  /** The scan from position k: a hit at k, or else the scan from k + 1. */
  lemma FirstMatchAt(line: string, matches: (nat, string) -> bool, source: Source, k: nat)
    requires k < TABLE_SIZE
    ensures FirstMatch(line, matches, source, k)
            == if Hit(line, matches, source, k) then Some(k) else FirstMatch(line, matches, source, k + 1)
  {
  }

  /** The record a line gives under category i: its data is "section line". */
  function RecordOf(line: string, i: nat): ErrorRecord
    requires i < TABLE_SIZE
  {
    TableSize();
    ErrorRecord(i, ErrorTable[i].section, ErrorTable[i].section + " " + Strip(line))
  }

  /** The record of one log line: under the first log category whose pattern is found in it, if any. */
  function LineRecords(line: string, matches: (nat, string) -> bool): seq<ErrorRecord> {
    var m := FirstMatch(line, matches, Log, 0);
    if m.Some? then [RecordOf(line, m.value)] else []
  }

  /** The records of the line at position i, then of the rest. */
  lemma LogRecordsStep(lines: seq<string>, i: nat, matches: (nat, string) -> bool)
    requires i < |lines|
    ensures LogRecords(lines[i..], matches) == LineRecords(lines[i], matches) + LogRecords(lines[i + 1..], matches)
  {
    assert lines[i..][0] == lines[i] && lines[i..][1..] == lines[i + 1..];
  }

  /** The records of a log: one per line whose text matches a log category, under the first such category. */
  function LogRecords(lines: seq<string>, matches: (nat, string) -> bool): seq<ErrorRecord> {
    if lines == [] then [] else LineRecords(lines[0], matches) + LogRecords(lines[1..], matches)
  }

  /** Each log line gives at most one record, always a log category's, labelled with its section. */
  lemma {:induction false} LogRecordsFacts(lines: seq<string>, matches: (nat, string) -> bool)
    ensures |LogRecords(lines, matches)| <= |lines|
    ensures forall r :: r in LogRecords(lines, matches) ==>
              r.priority < LOG_CATEGORIES && r.section == ErrorTable[r.priority].section
              && StartsWith(r.data, r.section + " ")
  {
    if lines != [] {
      LogRecordsFacts(lines[1..], matches);
      var m := FirstMatch(lines[0], matches, Log, 0);
      if m.Some? {
        SourceOf(m.value);
        var r := RecordOf(lines[0], m.value);
        assert r.data[..|r.section + " "|] == r.section + " ";
      }
    }
  }

  lemma StripIdempotentText(s: string)
    ensures Strip(Strip(s)) == Strip(s)
  {
    var r := Strip(s);
    if r != [] {
      assert LeadingSpace(r) == 0;
      assert r[LeadingSpace(r)..] == r;
      assert TrailingStart(r) == |r|;
    }
  }

  /** `^(INFO|WARNING)`: the lines of a report that are errors. */
  predicate IsErrorLine(line: string) {
    StartsWith(line, "INFO") || StartsWith(line, "WARNING")
  }

  /** A header, when there is one, is a report category. */
  predicate ReportHeader(h: Option<nat>) {
    h.Some? ==> h.value < TABLE_SIZE && SourceAt(h.value) == Report
  }

  /** The header in force after a line: the line's own report category, else the previous one. */
  function NextHeader(line: string, matches: (nat, string) -> bool, header: Option<nat>): (r: Option<nat>)
    requires ReportHeader(header)
    ensures ReportHeader(r)
  {
    var m := FirstMatch(line, matches, Report, 0);
    if m.Some? then m else header
  }

  /** The record of a report line read under header h: one for an error line, none otherwise. */
  function HeaderRecords(line: string, h: Option<nat>): seq<ErrorRecord>
    requires h.Some? ==> h.value < TABLE_SIZE
  {
    if IsErrorLine(line) && h.Some? then [RecordOf(line, h.value)]
    else []
  }

  /** The stop position of a read, counted from `from` lines earlier. */
  function Shift(stop: Option<nat>, from: nat): Option<nat> {
    if stop.Some? then Some(stop.value + from) else None
  }

  /**
   * The records of a report read under `header`, and the position of the
   * error line at which reading stops because no header has been seen
   * (the source then concatenates None with a string and raises TypeError).
   */
  function ReportRecords(lines: seq<string>, matches: (nat, string) -> bool, header: Option<nat>)
    : (r: (seq<ErrorRecord>, Option<nat>))
    requires ReportHeader(header)
    ensures r.1.Some? ==> r.1.value < |lines|
  {
    if lines == [] then ([], None)
    else
      var h := NextHeader(lines[0], matches, header);
      if IsErrorLine(lines[0]) && h.None? then ([], Some(0))
      else
        var rest := ReportRecords(lines[1..], matches, h);
        (HeaderRecords(lines[0], h) + rest.0, Shift(rest.1, 1))
  }

  lemma ShiftTwice(stop: Option<nat>, a: nat, b: nat)
    ensures Shift(Shift(stop, a), b) == Shift(stop, a + b)
  {
  }

  /** The report read from position i under `header`: that line's effect, then the rest. */
  lemma ReportRecordsStep(lines: seq<string>, i: nat, matches: (nat, string) -> bool, header: Option<nat>)
    requires i < |lines|
    requires ReportHeader(header)
    ensures var h := NextHeader(lines[i], matches, header);
            IsErrorLine(lines[i]) && h.None? ==> ReportRecords(lines[i..], matches, header) == ([], Some(0))
    ensures var h := NextHeader(lines[i], matches, header);
            !(IsErrorLine(lines[i]) && h.None?) ==>
              && ReportRecords(lines[i..], matches, header).0
                 == HeaderRecords(lines[i], h) + ReportRecords(lines[i + 1..], matches, h).0
              && ReportRecords(lines[i..], matches, header).1 == Shift(ReportRecords(lines[i + 1..], matches, h).1, 1)
  {
    assert lines[i..][0] == lines[i] && lines[i..][1..] == lines[i + 1..];
    ReportRecordsUnfold(lines[i..], matches, header);
  }

  /** A report read under `header`: its first line's effect, then the rest. */
  lemma ReportRecordsUnfold(lines: seq<string>, matches: (nat, string) -> bool, header: Option<nat>)
    requires lines != []
    requires ReportHeader(header)
    ensures var h := NextHeader(lines[0], matches, header);
            IsErrorLine(lines[0]) && h.None? ==> ReportRecords(lines, matches, header) == ([], Some(0))
    ensures var h := NextHeader(lines[0], matches, header);
            !(IsErrorLine(lines[0]) && h.None?) ==>
              && ReportRecords(lines, matches, header).0
                 == HeaderRecords(lines[0], h) + ReportRecords(lines[1..], matches, h).0
              && ReportRecords(lines, matches, header).1 == Shift(ReportRecords(lines[1..], matches, h).1, 1)
  {
    var h := NextHeader(lines[0], matches, header);
    if !(IsErrorLine(lines[0]) && h.None?) {
      var rest := ReportRecords(lines[1..], matches, h);
      assert ReportRecords(lines, matches, header).0 == HeaderRecords(lines[0], h) + rest.0;
      assert ReportRecords(lines, matches, header).1 == Shift(rest.1, 1);
    }
  }

  /** Report records belong to report categories and are labelled with their section. */
  lemma {:induction false} ReportRecordsCategories(lines: seq<string>, matches: (nat, string) -> bool, header: Option<nat>)
    requires ReportHeader(header)
    ensures forall r :: r in ReportRecords(lines, matches, header).0 ==>
              LOG_CATEGORIES <= r.priority < |ErrorTable| && r.section == ErrorTable[r.priority].section
  {
    if lines != [] {
      var h := NextHeader(lines[0], matches, header);
      if !(IsErrorLine(lines[0]) && h.None?) {
        ReportRecordsCategories(lines[1..], matches, h);
        if h.Some? {
          SourceOf(h.value);
        }
      }
    }
  }

  /** A report read to its end gives exactly one record per error line. */
  lemma {:induction false} ReportRecordsCount(lines: seq<string>, matches: (nat, string) -> bool, header: Option<nat>)
    requires ReportHeader(header)
    ensures ReportRecords(lines, matches, header).1.None? ==>
              |ReportRecords(lines, matches, header).0| == CountErrorLines(lines)
  {
    if lines != [] {
      var h := NextHeader(lines[0], matches, header);
      if !(IsErrorLine(lines[0]) && h.None?) {
        ReportRecordsCount(lines[1..], matches, h);
      }
    }
  }

  function CountErrorLines(lines: seq<string>): nat {
    if lines == [] then 0 else (if IsErrorLine(lines[0]) then 1 else 0) + CountErrorLines(lines[1..])
  }

  /** A report whose first line is a header never stops early. */
  lemma {:induction false} HeaderFirstNeverStops(lines: seq<string>, matches: (nat, string) -> bool,
                                                 header: Option<nat>)
    requires header.Some? && ReportHeader(header)
    ensures ReportRecords(lines, matches, header).1.None?
  {
    if lines != [] {
      HeaderFirstNeverStops(lines[1..], matches, NextHeader(lines[0], matches, header));
    }
  }
}
