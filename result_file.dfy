/**
 * One run's results for the review tools: the header fields and errors
 * read from its log, the errors and retained text of its report, the
 * display list reconciled against a summary file, and its tallies.
 *
 * Files arrive as sequences of lines; opening, decompressing and closing
 * them, `os.path.abspath` and `os.path.normpath` are not modelled.
 */
module RunResult {
  import opened Outcomes
  import opened Text
  import opened Ordering
  import opened Records
  import opened Taxonomy
  import opened Paths
  import opened LogScan
  import opened SummaryFile
  import opened Reconcile
  import opened Tally
  import opened ErrorDetails

  /**
   * _CalculateErrorPath: the error file is looked for next to the current
   * log. Its name is the recorded error name without ".gz", followed by
   * what the current log name adds to the recorded one, or by ".gz" when
   * the log was not renamed.
   */
  function ErrorPath(currentLog: string, baseLog: string, errorName: string): (r: string)
    ensures Basename(currentLog) == baseLog ==>
              r == JoinPath(Dirname(currentLog), Replace(errorName, ".gz", "") + ".gz")
    ensures Basename(currentLog) != baseLog ==>
              r == JoinPath(Dirname(currentLog), Replace(errorName, ".gz", "") + Replace(Basename(currentLog), baseLog, ""))
  {
    var suffix := if Basename(currentLog) != baseLog then Replace(Basename(currentLog), baseLog, "") else ".gz";
    JoinPath(Dirname(currentLog), Replace(errorName, ".gz", "") + suffix)
  }

  /** A log read where it was written finds "stem.gz" in its own directory. */
  lemma ErrorPathUnmoved(dir: string, log: string, stem: string)
    requires dir != [] && dir[|dir| - 1] != '/' && '/' !in log
    requires !Occurs(stem, ".gz") && !StartsWith(stem, "/")
    ensures ErrorPath(dir + "/" + log, log, stem + ".gz") == dir + "/" + stem + ".gz"
  {
    SplitPath(dir, log);
    GzSuffixRemoved(stem);
    assert !StartsWith(stem + ".gz", "/") by {
      if stem == [] {
        assert (stem + ".gz")[0] == '.';
      } else {
        assert (stem + ".gz")[0] == stem[0];
      }
    }
  }

  /** The table summary of a tally: its section lines, a "Total" line, and the checked share. */
  predicate Reported(c: Counts, details: seq<Detail>, percentage: int)
    requires TableCounted(c)
  {
    var t := TotalsFrom(c, 0, [], 0, 0);
    TotalsSound(c, 0, [], 0, 0);
    details == t.details + [Detail("Total", t.checked, t.total)]
    && percentage == Permille(t.checked, t.total)
  }

  class ResultFile {
    var modeName: string
    var errorFileName: string
    var baseLogFileName: string
    var topCell: string
    var logFileName: string
    var summaryFileName: string
    /** The errors of the run, sorted by (priority, data) once the report is read. */
    var errorList: seq<ErrorRecord>
    var displayList: seq<DisplayRecord>
    /** Every line of the report, kept for the detail excerpts. */
    var errorData: seq<string>
    var errorCount: map<string, int>
    var checkCount: map<string, int>
    var errorDetails: seq<Detail>
    /** The checked share of all errors, in tenths of a percent. */
    var percentage: int

    /** The counters, section lines and share CountErrors leaves after `failure`. */
    ghost predicate Counted(failure: Option<Failure>, oldPercentage: int)
      reads this
    {
      var t := TallyFrom(Initial(|displayList|), displayList);
      && failure == t.1
      && errorCount == t.0.errorCount && checkCount == t.0.checkCount
      && (t.1.Some? ==> errorDetails == [] && percentage == oldPercentage)
      && (t.1.None? ==> TableCounted(t.0) && Reported(t.0, errorDetails, percentage))
    }

    /** The constructor's first half: every field empty, then the log read. */
    constructor (logName: string, logLines: seq<string>, search: (string, string) -> bool)
      ensures logFileName == logName
      ensures baseLogFileName == AdoptAll("", logLines, BaseLogCapture)
      ensures errorFileName == AdoptAll("", logLines, ErrorFileCapture)
      ensures modeName == AdoptAll("", logLines, ModeCapture)
      ensures topCell == AdoptAll("", logLines, TopCapture)
      ensures errorList == LogRecords(logLines, TableSearch(search))
      ensures displayList == [] && errorData == []
    {
      modeName := "";
      errorFileName := "";
      baseLogFileName := "";
      topCell := "";
      errorList := [];
      displayList := [];
      errorData := [];
      new;
      ExtractLogErrors(logName, logLines, TableSearch(search));
    }

    /**
     * The constructor's second half: the report is looked for beside the
     * log (`openFile` gives the lines of a file that can be opened) and read.
     */
    method LoadReport(logName: string, openFile: string -> Option<seq<string>>, search: (string, string) -> bool)
      returns (errorPath: string, failure: Option<Failure>)
      modifies `errorFileName, `errorData, `errorList
      ensures errorPath == ErrorPath(logName, old(baseLogFileName), Basename(old(errorFileName)))
      ensures openFile(errorPath).None? ==> failure == Some(IOError) && errorList == old(errorList)
      ensures openFile(errorPath).Some? ==>
                var lines := openFile(errorPath).value;
                var rr := ReportRecords(lines, TableSearch(search), None);
                && errorFileName == errorPath
                && (failure.None? <==> rr.1.None?)
                && (rr.1.None? ==> errorList == SortBy(old(errorList) + rr.0, ErrorKey))
    {
      errorPath := ErrorPath(logName, baseLogFileName, Basename(errorFileName));
      var lines := openFile(errorPath);
      if lines.None? {
        failure := Some(IOError);
        return;
      }
      failure := ExtractReportErrors(errorPath, lines.value, TableSearch(search));
    }

    /**
     * ExtractLogErrors: each header field takes its first non-empty
     * capture, and each line that matches a log category adds one record.
     */
    method ExtractLogErrors(path: string, lines: seq<string>, matches: (nat, string) -> bool)
      modifies `logFileName, `baseLogFileName, `errorFileName, `modeName, `topCell, `errorList
      ensures logFileName == path
      ensures baseLogFileName == AdoptAll(old(baseLogFileName), lines, BaseLogCapture)
      ensures errorFileName == AdoptAll(old(errorFileName), lines, ErrorFileCapture)
      ensures modeName == AdoptAll(old(modeName), lines, ModeCapture)
      ensures topCell == AdoptAll(old(topCell), lines, TopCapture)
      ensures errorList == old(errorList) + LogRecords(lines, matches)
    {
      logFileName := path;
      var i := 0;
      while i < |lines|
        invariant 0 <= i <= |lines|
        invariant AdoptAll(old(baseLogFileName), lines, BaseLogCapture) == AdoptAll(baseLogFileName, lines[i..], BaseLogCapture)
        invariant AdoptAll(old(errorFileName), lines, ErrorFileCapture) == AdoptAll(errorFileName, lines[i..], ErrorFileCapture)
        invariant AdoptAll(old(modeName), lines, ModeCapture) == AdoptAll(modeName, lines[i..], ModeCapture)
        invariant AdoptAll(old(topCell), lines, TopCapture) == AdoptAll(topCell, lines[i..], TopCapture)
        invariant old(errorList) + LogRecords(lines, matches) == errorList + LogRecords(lines[i..], matches)
        invariant logFileName == path
      {
        ReadLine(lines, i, matches);
        i := i + 1;
      }
    }

    /** Reading the line at position i moves the whole-log results one line on. */
    method ReadLine(lines: seq<string>, i: nat, matches: (nat, string) -> bool)
      requires i < |lines|
      modifies `baseLogFileName, `errorFileName, `modeName, `topCell, `errorList
      ensures AdoptAll(old(baseLogFileName), lines[i..], BaseLogCapture) == AdoptAll(baseLogFileName, lines[i + 1..], BaseLogCapture)
      ensures AdoptAll(old(errorFileName), lines[i..], ErrorFileCapture) == AdoptAll(errorFileName, lines[i + 1..], ErrorFileCapture)
      ensures AdoptAll(old(modeName), lines[i..], ModeCapture) == AdoptAll(modeName, lines[i + 1..], ModeCapture)
      ensures AdoptAll(old(topCell), lines[i..], TopCapture) == AdoptAll(topCell, lines[i + 1..], TopCapture)
      ensures old(errorList) + LogRecords(lines[i..], matches) == errorList + LogRecords(lines[i + 1..], matches)
    {
      AdoptStep(baseLogFileName, lines, i, BaseLogCapture);
      AdoptStep(errorFileName, lines, i, ErrorFileCapture);
      AdoptStep(modeName, lines, i, ModeCapture);
      AdoptStep(topCell, lines, i, TopCapture);
      LogRecordsStep(lines, i, matches);
      AppendAssoc(errorList, LineRecords(lines[i], matches), LogRecords(lines[i + 1..], matches));
      ReadHeaderLine(lines[i]);
      ReadLogLine(lines[i], matches);
    }

    /** The header fields after one log line. */
    method ReadHeaderLine(line: string)
      modifies `baseLogFileName, `errorFileName, `modeName, `topCell
      ensures baseLogFileName == Adopt(old(baseLogFileName), line, BaseLogCapture)
      ensures errorFileName == Adopt(old(errorFileName), line, ErrorFileCapture)
      ensures modeName == Adopt(old(modeName), line, ModeCapture)
      ensures topCell == Adopt(old(topCell), line, TopCapture)
    {
      baseLogFileName := Adopt(baseLogFileName, line, BaseLogCapture);
      errorFileName := Adopt(errorFileName, line, ErrorFileCapture);
      modeName := Adopt(modeName, line, ModeCapture);
      topCell := Adopt(topCell, line, TopCapture);
    }

    /** The error list after one log line. */
    method ReadLogLine(line: string, matches: (nat, string) -> bool)
      modifies `errorList
      ensures errorList == old(errorList) + LineRecords(line, matches)
    {
      var k := FindCategory(line, matches, Log);
      if k < TABLE_SIZE {
        errorList := errorList + [RecordOf(line, k)];
      }
    }

    /**
     * ExtractReportErrors: every line is kept; a line matching a report
     * category becomes the current header; each "INFO"/"WARNING" line adds
     * a record under it, and the list is then sorted. An error line before
     * any header raises TypeError, leaving what was read so far.
     */
    method ExtractReportErrors(path: string, lines: seq<string>, matches: (nat, string) -> bool)
      returns (failure: Option<Failure>)
      modifies `errorFileName, `errorData, `errorList
      ensures errorFileName == path
      ensures failure.None? <==> ReportRecords(lines, matches, None).1.None?
      ensures failure.None? ==>
                && errorData == old(errorData) + lines
                && errorList == SortBy(old(errorList) + ReportRecords(lines, matches, None).0, ErrorKey)
      ensures failure.Some? ==>
                && failure == Some(TypeError)
                && errorData == old(errorData) + lines[..ReportRecords(lines, matches, None).1.value + 1]
                && errorList == old(errorList) + ReportRecords(lines, matches, None).0
    {
      errorFileName := path;
      var stop := ReadReport(lines, matches);
      if stop.Some? {
        failure := Some(TypeError);
        return;
      }
      errorList := SortBy(errorList, ErrorKey);
      failure := None;
    }

    /** The loop of ExtractReportErrors: every line kept and its records added, up to a stop. */
    method ReadReport(lines: seq<string>, matches: (nat, string) -> bool) returns (stop: Option<nat>)
      modifies `errorData, `errorList
      ensures stop == ReportRecords(lines, matches, None).1
      ensures errorList == old(errorList) + ReportRecords(lines, matches, None).0
      ensures stop.None? ==> errorData == old(errorData) + lines
      ensures stop.Some? ==> stop.value < |lines| && errorData == old(errorData) + lines[..stop.value + 1]
    {
      var header: Option<nat> := None;
      ghost var all := ReportRecords(lines, matches, None);
      var i := 0;
      while i < |lines|
        invariant 0 <= i <= |lines|
        invariant ReportHeader(header)
        invariant errorData == old(errorData) + lines[..i]
        invariant old(errorList) + all.0 == errorList + ReportRecords(lines[i..], matches, header).0
        invariant all.1 == Shift(ReportRecords(lines[i..], matches, header).1, i)
      {
        var next, stopped := ReportStep(lines, i, matches, header);
        TakeNext(lines, i);
        AppendAssoc(old(errorData), lines[..i], [lines[i]]);
        ShiftTwice(ReportRecords(lines[i + 1..], matches, next).1, 1, i);
        if stopped {
          assert errorList + [] == errorList;
          return Some(i);
        }
        header := next;
        i := i + 1;
      }
      assert lines[..i] == lines && lines[i..] == [];
      assert errorList + [] == errorList;
      return None;
    }

    /** Reading the report line at position i moves the whole-report results one line on. */
    method ReportStep(lines: seq<string>, i: nat, matches: (nat, string) -> bool, header: Option<nat>)
      returns (next: Option<nat>, stopped: bool)
      requires i < |lines|
      requires ReportHeader(header)
      modifies `errorData, `errorList
      ensures ReportHeader(next)
      ensures errorData == old(errorData) + [lines[i]]
      ensures stopped ==>
                && ReportRecords(lines[i..], matches, header).0 == []
                && ReportRecords(lines[i..], matches, header).1 == Some(0)
                && errorList == old(errorList)
      ensures !stopped ==>
                && old(errorList) + ReportRecords(lines[i..], matches, header).0
                   == errorList + ReportRecords(lines[i + 1..], matches, next).0
                && ReportRecords(lines[i..], matches, header).1 == Shift(ReportRecords(lines[i + 1..], matches, next).1, 1)
    {
      ghost var before := errorList;
      next, stopped := ReadReportLine(lines[i], matches, header);
      ReportRecordsStep(lines, i, matches, header);
      if !stopped {
        AppendAssoc(before, HeaderRecords(lines[i], next), ReportRecords(lines[i + 1..], matches, next).0);
      }
    }

    /**
     * One report line: it is kept, may become the header, and, as an error
     * line, adds a record under the header or stops the read.
     */
    method ReadReportLine(line: string, matches: (nat, string) -> bool, header: Option<nat>)
      returns (next: Option<nat>, stopped: bool)
      requires ReportHeader(header)
      modifies `errorData, `errorList
      ensures next == NextHeader(line, matches, header)
      ensures errorData == old(errorData) + [line]
      ensures stopped <==> IsErrorLine(line) && next.None?
      ensures errorList == old(errorList) + HeaderRecords(line, next)
    {
      errorData := errorData + [line];
      next := header;
      var k := FindCategory(line, matches, Report);
      if k < TABLE_SIZE {
        next := Some(k);
      }
      stopped := IsErrorLine(line) && next.None?;
      if IsErrorLine(line) && next.Some? {
        errorList := errorList + [RecordOf(line, next.value)];
      }
    }

    /**
     * GetErrorDetails: the excerpt of the retained report text for an
     * error line, as `Details` defines it.
     */
    method GetErrorDetails(errorText: string, parse: string -> Option<ErrorText>,
                           search: (string, string) -> bool, escape: string -> string)
      returns (r: Result<string>)
      ensures r == Details(errorText, topCell, errorData, parse, search, escape)
    {
      var m := parse(errorText);
      if m.None? {
        return Ok(errorText);
      }
      PriorityMapInverse(m.value.section);
      if m.value.section !in PriorityMap() {
        return Fail(KeyError);
      }
      var output := ScanReport(TargetOf(topCell, m.value, escape), search);
      return Ok(output);
    }

    /** The state machine of GetErrorDetails over the retained report text. */
    method ScanReport(t: Target, search: (string, string) -> bool) returns (output: string)
      ensures output == Run(t, START, errorData, search)
    {
      var saveLeading := true;
      var correctSection := false;
      var saveLine := false;
      output := "";
      var section := "";
      var leading := "";
      var count: nat := 0;
      var i := 0;
      while i < |errorData|
        invariant 0 <= i <= |errorData|
        invariant Run(t, START, errorData, search)
                  == Run(t, Scan(saveLeading, correctSection, saveLine, output, section, leading, count), errorData[i..], search)
      {
        var line := errorData[i];
        ghost var before := Scan(saveLeading, correctSection, saveLine, output, section, leading, count);
        assert errorData[i..][0] == line && errorData[i..][1..] == errorData[i + 1..];
        var stop := false;
        if search(t.sectionPattern, line) {
          correctSection := true;
          section := line;
        } else if correctSection {
          if search(t.devicePattern, line) {
            count := count + 1;
            output := output + section + leading;
            saveLeading := false;
            saveLine := true;
          }
          if saveLine {
            output := output + line;
          }
          if Blank(line) {
            if output != "" && (t.sampleOnly || count > 9) {
              stop := true;
            } else {
              saveLeading := true;
              leading := "";
              saveLine := false;
            }
          } else if saveLeading {
            leading := leading + (if line != section then line else "");
          }
        }
        if !stop && SectionEnd(line) {
          correctSection := false;
          stop := output != "";
        }
        assert ErrorDetails.Step(t, before, line, search)
               == (Scan(saveLeading, correctSection, saveLine, output, section, leading, count), stop);
        if stop {
          return;
        }
        i := i + 1;
      }
    }

    /**
     * CountErrors: the type, level and section counters of the display
     * list, then the section lines in table order, the "Total" line and the
     * checked share. A record whose type or level has no counter, or whose
     * priority is outside the table, raises.
     */
    method CountErrors() returns (failure: Option<Failure>)
      modifies `errorCount, `checkCount, `errorDetails, `percentage
      ensures Counted(failure, old(percentage))
    {
      var start := Initial(|displayList|);
      errorCount := start.errorCount;
      checkCount := start.checkCount;
      errorDetails := [];
      InitialConsistent(|displayList|);
      failure := TallyRecords();
      if failure.Some? {
        return;
      }
      var counts := Counts(errorCount, checkCount);
      ConsistentTableCounted(counts);
      var total, checked := SumSections();
      TotalsSound(counts, 0, [], 0, 0);
      percentage := if total != 0 then (1000 * checked) / total else 0;
      errorDetails := errorDetails + [Detail("Total", checked, total)];
    }

    /** The counters after the display list, read from the current ones, as far as the first failure. */
    method TallyRecords() returns (failure: Option<Failure>)
      requires Consistent(Counts(errorCount, checkCount))
      modifies `errorCount, `checkCount
      ensures (Counts(errorCount, checkCount), failure) == TallyFrom(Counts(old(errorCount), old(checkCount)), displayList)
      ensures failure.None? ==> Consistent(Counts(errorCount, checkCount))
    {
      var i := 0;
      assert displayList[i..] == displayList;
      while i < |displayList|
        invariant 0 <= i <= |displayList|
        invariant TallyFrom(Counts(old(errorCount), old(checkCount)), displayList)
                  == TallyFrom(Counts(errorCount, checkCount), displayList[i..])
        invariant Consistent(Counts(errorCount, checkCount))
      {
        ghost var before := Counts(errorCount, checkCount);
        TallyStep(before, displayList, i);
        StepKeepsConsistent(before, displayList[i]);
        failure := CountRecord(displayList[i]);
        if failure.Some? {
          return;
        }
        i := i + 1;
      }
      failure := None;
    }

    /** One record's effect on the counters, or the failure it raises. */
    method CountRecord(d: DisplayRecord) returns (failure: Option<Failure>)
      modifies `errorCount, `checkCount
      ensures Counts(errorCount, checkCount) == Tally.Step(Counts(old(errorCount), old(checkCount)), d).0
      ensures failure == Tally.Step(Counts(old(errorCount), old(checkCount)), d).1
    {
      var section := "";
      var bucket := TypeName(d.rtype);
      if IsErrorType(d.rtype) {
        if d.priority >= |ErrorTable| {
          return Some(IndexError);
        }
        section := ErrorTable[d.priority].section;
        if d.rtype == Checked {
          bucket := d.level;
        }
      }
      assert bucket == Bucket(d) && section == RecordSection(d);
      if bucket !in errorCount {
        return Some(KeyError);
      }
      errorCount := errorCount[bucket := errorCount[bucket] + 1];
      if section != "" && section !in errorCount {
        errorCount := errorCount[section := 0];
        checkCount := checkCount[section := 0];
      }
      failure := None;
      if IsErrorType(d.rtype) {
        failure := CountInSection(section, d.rtype == Checked);
      }
    }

    /** A section record's own counters: the error counter, and the checked counter when checked. */
    method CountInSection(section: string, checked: bool) returns (failure: Option<Failure>)
      modifies `errorCount, `checkCount
      ensures Counts(errorCount, checkCount) == CountSection(Counts(old(errorCount), old(checkCount)), section, checked).0
      ensures failure == CountSection(Counts(old(errorCount), old(checkCount)), section, checked).1
    {
      if !checked {
        if section !in errorCount {
          return Some(KeyError);
        }
        errorCount := errorCount[section := errorCount[section] + 1];
        return None;
      }
      if section !in checkCount {
        return Some(KeyError);
      }
      checkCount := checkCount[section := checkCount[section] + 1];
      if section !in errorCount {
        return Some(KeyError);
      }
      errorCount := errorCount[section := errorCount[section] + 1];
      return None;
    }

    /** The section lines in table order, appended to the detail list, with their sums. */
    method SumSections() returns (total: int, checked: int)
      requires TableCounted(Counts(errorCount, checkCount))
      modifies `errorDetails
      ensures TotalsFrom(Counts(errorCount, checkCount), 0, old(errorDetails), 0, 0) == Totals(errorDetails, total, checked, None)
    {
      var counts := Counts(errorCount, checkCount);
      TotalsSound(counts, 0, errorDetails, 0, 0);
      total := 0;
      checked := 0;
      var k := 0;
      while k < |ErrorTable|
        invariant 0 <= k <= |ErrorTable|
        invariant 0 <= checked <= total
        invariant TotalsFrom(counts, 0, old(errorDetails), 0, 0) == TotalsFrom(counts, k, errorDetails, total, checked)
      {
        var s := ErrorTable[k].section;
        if s in errorCount {
          errorDetails := errorDetails + [Detail(s, checkCount[s], errorCount[s])];
          total := total + errorCount[s];
          checked := checked + checkCount[s];
        }
        k := k + 1;
      }
    }

    /**
     * CreateDisplayList: the summary records that apply to this run's mode
     * are merged with its errors into display lines, which are then counted.
     */
    method CreateDisplayList(summary: SummaryFileReader, countMatch: string -> Option<CountMatch>)
      returns (failure: Option<Failure>)
      modifies `summaryFileName, `displayList, `errorCount, `checkCount, `errorDetails, `percentage
      ensures summaryFileName == summary.summaryFileName
      ensures Summarize(summary.summaryLine, modeName, countMatch).Fail? ==>
                && failure == Some(Summarize(summary.summaryLine, modeName, countMatch).failure)
                && displayList == old(displayList)
      ensures Summarize(summary.summaryLine, modeName, countMatch).Ok? ==>
                && displayList == old(displayList) + Merge(Summarize(summary.summaryLine, modeName, countMatch).value, errorList)
                && Counted(failure, old(percentage))
    {
      summaryFileName := summary.summaryFileName;
      var sorted := summary.ExtractSummary(modeName, countMatch);
      if sorted.Fail? {
        failure := Some(sorted.failure);
        return;
      }
      MergeDisplay(sorted.value);
      failure := CountErrors();
    }

    /** The summary records and this run's errors, merged in key order, appended to the display list. */
    method MergeDisplay(summaryList: seq<SummaryRecord>)
      modifies `displayList
      ensures displayList == old(displayList) + Merge(summaryList, errorList)
    {
      var summaryIndex := 0;
      var errorIndex := 0;
      assert summaryList[summaryIndex..] == summaryList && errorList[errorIndex..] == errorList;
      while errorIndex < |errorList| || summaryIndex < |summaryList|
        invariant 0 <= summaryIndex <= |summaryList| && 0 <= errorIndex <= |errorList|
        invariant old(displayList) + Merge(summaryList, errorList)
                  == displayList + Merge(summaryList[summaryIndex..], errorList[errorIndex..])
        decreases |summaryList| - summaryIndex + |errorList| - errorIndex
      {
        summaryIndex, errorIndex := MergeOne(summaryList, summaryIndex, errorIndex);
      }
      assert summaryList[summaryIndex..] == [] && errorList[errorIndex..] == [];
      assert displayList + [] == displayList;
    }

    /** One display line: the summary record first in key order, the error, or both when their keys agree. */
    method MergeOne(summaryList: seq<SummaryRecord>, summaryIndex: nat, errorIndex: nat)
      returns (nextSummary: nat, nextError: nat)
      requires summaryIndex <= |summaryList| && errorIndex <= |errorList|
      requires summaryIndex < |summaryList| || errorIndex < |errorList|
      modifies `displayList
      ensures summaryIndex <= nextSummary <= |summaryList| && errorIndex <= nextError <= |errorList|
      ensures summaryIndex < nextSummary || errorIndex < nextError
      ensures old(displayList) + Merge(summaryList[summaryIndex..], errorList[errorIndex..])
              == displayList + Merge(summaryList[nextSummary..], errorList[nextError..])
    {
      var summaryItem := if summaryIndex < |summaryList| then Some(SummaryKey(summaryList[summaryIndex])) else None;
      var errorItem := if errorIndex < |errorList| then Some(ErrorKey(errorList[errorIndex])) else None;
      assert summaryItem == Head(summaryList[summaryIndex..], SummaryKey);
      assert errorItem == Head(errorList[errorIndex..], ErrorKey);
      MergeStep(summaryList, errorList, summaryIndex, errorIndex);
      var order := CompareErrors(summaryItem, errorItem);
      var record;
      nextSummary, nextError := summaryIndex, errorIndex;
      if order == Before {
        record := SummaryOnly(summaryList[summaryIndex]);
        nextSummary := summaryIndex + 1;
      } else if order == After {
        record := ErrorOnly(errorList[errorIndex]);
        nextError := errorIndex + 1;
      } else {
        record := Both(summaryList[summaryIndex], errorList[errorIndex]);
        nextSummary := summaryIndex + 1;
        nextError := errorIndex + 1;
      }
      AppendAssoc(displayList, [record], Merge(summaryList[nextSummary..], errorList[nextError..]));
      displayList := displayList + [record];
    }
  }
}
