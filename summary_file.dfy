/**
 * Summary files: the reviewed error lines of a design, scoped to run modes
 * by `#ALWAYS`, `#IF m...` and `#IFNOT m...` directives. Each data line has
 * the form `[reference] level:section ...:details`, optionally preceded by
 * a `#comment` word.
 */
module SummaryFile {
  import opened Outcomes
  import opened Text
  import opened Ordering
  import opened Records
  import opened Taxonomy

  /**
   * What the count pattern `^(.*INFO: .* error count )([0-9]+)/([0-9]+)`
   * captures: the text before the counts, the error count and the cell count.
   */
  datatype CountMatch = CountMatch(prefix: string, errors: string, cells: string)

  /** The mode lists in force: lines apply to the active modes, or to all but the inactive ones. */
  datatype Scope = Scope(active: seq<string>, inactive: seq<string>)

  const ALWAYS: Scope := Scope([], [])

  /** The scope a directive line sets, or None for a line that is not a directive. */
  function Directive(line: string): (r: Option<Scope>)
    ensures StartsWith(line, "#ALWAYS") ==> r == Some(ALWAYS)
    ensures r.Some? <==> StartsWith(line, "#ALWAYS") || StartsWith(line, "#IF ") || StartsWith(line, "#IFNOT ")
    ensures r.Some? && !StartsWith(line, "#ALWAYS") ==> (r.value.active == [] <==> r.value.inactive != [] || |Words(line)| <= 1)
    ensures StartsWith(line, "#IF ") ==> |Words(line)| >= 1 && r == Some(Scope(Words(line)[1..], []))
    ensures StartsWith(line, "#IFNOT ") ==> |Words(line)| >= 1 && r == Some(Scope([], Words(line)[1..]))
  {
    DirectivesExclusive(line);
    if StartsWith(line, "#ALWAYS") then Some(ALWAYS)
    else if StartsWith(line, "#IF ") then
      FirstWord(line);
      Some(Scope(Words(line)[1..], []))
    else if StartsWith(line, "#IFNOT ") then
      FirstWord(line);
      Some(Scope([], Words(line)[1..]))
    else None
  }

  /** A line starts with at most one of the three directives. */
  lemma DirectivesExclusive(line: string)
    ensures StartsWith(line, "#IF ") ==> !StartsWith(line, "#ALWAYS") && !StartsWith(line, "#IFNOT ")
    ensures StartsWith(line, "#IFNOT ") ==> !StartsWith(line, "#ALWAYS")
  {
    if StartsWith(line, "#IF ") {
      assert line[1] == 'I' && line[3] == ' ';
    }
    if StartsWith(line, "#IFNOT ") {
      assert line[1] == 'I';
    }
  }

  /** A data line applies to a mode iff it is listed as active (or none are) and not listed as inactive. */
  predicate Applies(scope: Scope, mode: string) {
    (scope.active == [] || mode in scope.active) && (scope.inactive == [] || mode !in scope.inactive)
  }

  /** The comparison text of a record: counts "n/m" become "all" when n == m, else just n. */
  function KeyData(data: string, countMatch: string -> Option<CountMatch>): string {
    match countMatch(data)
    case None => data
    case Some(m) => if m.errors == m.cells then m.prefix + "all" else m.prefix + m.errors
  }

  function Last(ws: seq<string>): string
    requires ws != []
  {
    ws[|ws| - 1]
  }

  /** The "#comment " word a commented line carries before its reference, or "" for a plain line. */
  function CommentHead(line: string): (head: string)
    ensures StartsWith(line, "#") ==> Words(line) != [] && head == Words(line)[0] + " "
    ensures !StartsWith(line, "#") ==> head == ""
  {
    if StartsWith(line, "#") then (FirstWord(line); Words(line)[0] + " ") else ""
  }

  /** The line without its comment word: the remaining words joined by single blanks. */
  function Body(line: string): string {
    if StartsWith(line, "#") then (FirstWord(line); Join(" ", Words(line)[1..])) else line
  }

  /** The ':'-separated fields of the body: reference and level, then the section, then the details. */
  function Fields(line: string): (tokens: seq<string>)
    ensures |tokens| >= 1
    ensures Join([':'], tokens) == Body(line)
  {
    JoinSplitOn(Body(line), ':');
    SplitOn(Body(line), ':')
  }

  /**
   * One data line (not a directive) as a summary record. Ok(None) is a line
   * of unknown format, which is reported and ignored: its first field does
   * not start with "[", its level is not a valid level, or its section is
   * not in the error table. Fail(IndexError) is a "[" line with no section
   * word after its first ':'.
   */
  function ParseLine(line: string, countMatch: string -> Option<CountMatch>): (r: Result<Option<SummaryRecord>>)
    ensures var tokens := Fields(line);
            r.Fail? <==> StartsWith(tokens[0], "[") && (|tokens| < 2 || Words(tokens[1]) == [])
    ensures r.Fail? ==> r.failure == IndexError
    ensures var tokens := Fields(line);
            r == Ok(None) <==>
              || !StartsWith(tokens[0], "[")
              || (&& |tokens| >= 2 && Words(tokens[1]) != []
                  && Words(CommentHead(line) + tokens[0]) != []
                  && (|| Last(Words(CommentHead(line) + tokens[0])) !in ValidLevels
                      || Words(tokens[1])[0] !in PriorityMap()))
    ensures r.Ok? && r.value.Some? ==>
              var rec := r.value.value;
              var tokens := Fields(line);
              && StartsWith(tokens[0], "[") && |tokens| >= 2 && Words(tokens[1]) != []
              && rec.reference == CommentHead(line) + tokens[0]
              && Words(rec.reference) != [] && rec.level == Last(Words(rec.reference))
              && rec.level in ValidLevels
              && rec.priority < |ErrorTable| && ErrorTable[rec.priority].section == Words(tokens[1])[0]
              && rec.priority == PriorityMap()[Words(tokens[1])[0]]
              && Body(line) == tokens[0] + ":" + Join(":", tokens[1..])
              && rec.data == Strip(Join(":", tokens[1..]))
              && rec.data == Strip(rec.data)
              && rec.keyData == KeyData(rec.data, countMatch)
  {
    var tokens := Fields(line);
    if !StartsWith(tokens[0], "[") then Ok(None)  // section 'summary_error'
    else if |tokens| < 2 || Words(tokens[1]) == [] then Fail(IndexError)
    else
      var section := Words(tokens[1])[0];
      var reference := CommentHead(line) + tokens[0];
      WordsNonEmpty(reference, |CommentHead(line)|);
      var level := Last(Words(reference));
      if level !in ValidLevels || section !in PriorityMap() then Ok(None)
      else
        PriorityMapInverse(section);
        JoinCons(tokens[0], tokens[1..], ":");
        assert [tokens[0]] + tokens[1..] == tokens;
        var data := Strip(Join(":", tokens[1..]));
        StripIdempotent(Join(":", tokens[1..]));
        Ok(Some(SummaryRecord(PriorityMap()[section], reference, level, KeyData(data, countMatch), data)))
  }

  /**
   * The source files an unknown-format line under the section
   * "summary_error" and keeps it only when that section is in the priority
   * map; no table entry has that section, so such a line is always dropped.
   */
  lemma SummaryErrorUnmapped()
    ensures "summary_error" !in PriorityMap()
  {
    PriorityMapInverse("summary_error");
    forall i | 0 <= i < |ErrorTable|
      ensures ErrorTable[i].section != "summary_error"
    {
      if i < 12 {
        NotSummaryErrorLow(i);
      } else if i < 23 {
        NotSummaryErrorMiddle(i);
      } else {
        NotSummaryErrorHigh(i);
      }
    }
  }

  // The same, band by band: [0, 12), [12, 23) and [23, 34).

  lemma NotSummaryErrorLow(i: nat)
    requires i < 12
    ensures ErrorTable[i].section != "summary_error"
  {
  }

  lemma NotSummaryErrorMiddle(i: nat)
    requires 12 <= i < 23
    ensures ErrorTable[i].section != "summary_error"
  {
  }

  lemma NotSummaryErrorHigh(i: nat)
    requires 23 <= i < |ErrorTable|
    ensures ErrorTable[i].section != "summary_error"
  {
  }

  /** A text with a non-blank character somewhere has at least one word. */
  lemma WordsNonEmpty(s: string, i: nat)
    requires i < |s| && !IsSpace(s[i])
    ensures Words(s) != []
  {
    assert LeadingSpace(s) <= i;
  }

  lemma StripIdempotent(s: string)
    ensures Strip(Strip(s)) == Strip(s)
  {
    var r := Strip(s);
    if r != [] {
      assert LeadingSpace(r) == 0;
      assert r[LeadingSpace(r)..] == r;
      assert TrailingStart(r) == |r|;
    }
  }

  /**
   * The summary records of `lines` for `mode`, in file order, reading under
   * `scope`: the loop of ExtractSummary before its final sort.
   */
  function Collect(lines: seq<string>, mode: string, scope: Scope,
                   countMatch: string -> Option<CountMatch>): Result<seq<SummaryRecord>>
  {
    if lines == [] then Ok([])
    else
      var d := Directive(lines[0]);
      if d.Some? then Collect(lines[1..], mode, d.value, countMatch)
      else if !Applies(scope, mode) then Collect(lines[1..], mode, scope, countMatch)
      else
        match ParseLine(lines[0], countMatch)
        case Fail(f) => Fail(f)
        case Ok(None) => Collect(lines[1..], mode, scope, countMatch)
        case Ok(Some(rec)) => Prepend([rec], Collect(lines[1..], mode, scope, countMatch))
  }

  function Prepend<T>(xs: seq<T>, r: Result<seq<T>>): Result<seq<T>> {
    match r
    case Ok(ys) => Ok(xs + ys)
    case Fail(f) => Fail(f)
  }

  lemma PrependNothing<T>(r: Result<seq<T>>)
    ensures Prepend([], r) == r
  {
    if r.Ok? {
      assert [] + r.value == r.value;
    }
  }

  lemma PrependTwice<T>(xs: seq<T>, ys: seq<T>, r: Result<seq<T>>)
    ensures Prepend(xs, Prepend(ys, r)) == Prepend(xs + ys, r)
  {
    if r.Ok? {
      assert xs + (ys + r.value) == (xs + ys) + r.value;
    }
  }

  /** One data line in scope: Collect continues with its parse. */
  lemma CollectParsed(lines: seq<string>, mode: string, scope: Scope, countMatch: string -> Option<CountMatch>)
    requires lines != [] && Directive(lines[0]).None? && Applies(scope, mode)
    ensures ParseLine(lines[0], countMatch).Fail? ==>
              Collect(lines, mode, scope, countMatch) == Fail(ParseLine(lines[0], countMatch).failure)
    ensures ParseLine(lines[0], countMatch) == Ok(None) ==>
              Collect(lines, mode, scope, countMatch) == Collect(lines[1..], mode, scope, countMatch)
    ensures ParseLine(lines[0], countMatch).Ok? && ParseLine(lines[0], countMatch).value.Some? ==>
              Collect(lines, mode, scope, countMatch)
              == Prepend([ParseLine(lines[0], countMatch).value.value], Collect(lines[1..], mode, scope, countMatch))
  {
  }

  /** The result of ExtractSummary: the collected records sorted by (priority, keyData). */
  function Summarize(lines: seq<string>, mode: string, countMatch: string -> Option<CountMatch>): Result<seq<SummaryRecord>> {
    match Collect(lines, mode, ALWAYS, countMatch)
    case Ok(recs) => Ok(SortBy(recs, SummaryKey))
    case Fail(f) => Fail(f)
  }

  // ---- an independent reading: first select the lines in scope, then parse them ----

  /** The data lines of `lines` that apply to `mode`, directives removed. */
  function Visible(lines: seq<string>, mode: string, scope: Scope): seq<string> {
    if lines == [] then []
    else
      var d := Directive(lines[0]);
      if d.Some? then Visible(lines[1..], mode, d.value)
      else if Applies(scope, mode) then [lines[0]] + Visible(lines[1..], mode, scope)
      else Visible(lines[1..], mode, scope)
  }

  /** Every line parsed in order; the first failure wins, unknown formats are dropped. */
  function ParseAll(lines: seq<string>, countMatch: string -> Option<CountMatch>): Result<seq<SummaryRecord>> {
    if lines == [] then Ok([])
    else
      match ParseLine(lines[0], countMatch)
      case Fail(f) => Fail(f)
      case Ok(None) => ParseAll(lines[1..], countMatch)
      case Ok(Some(rec)) => Prepend([rec], ParseAll(lines[1..], countMatch))
  }

  /** Collecting is parsing exactly the lines that are in scope. */
  lemma {:induction false} CollectIsParseVisible(lines: seq<string>, mode: string, scope: Scope,
                                                 countMatch: string -> Option<CountMatch>)
    ensures Collect(lines, mode, scope, countMatch) == ParseAll(Visible(lines, mode, scope), countMatch)
  {
    if lines != [] {
      CollectIsParseVisible(lines[1..], mode, scope, countMatch);
      var d := Directive(lines[0]);
      if d.Some? {
        CollectIsParseVisible(lines[1..], mode, d.value, countMatch);
      } else if Applies(scope, mode) {
        var v := Visible(lines, mode, scope);
        assert v[0] == lines[0] && v[1..] == Visible(lines[1..], mode, scope);
      }
    }
  }

  /** A directive produces no record: it only replaces the scope. */
  lemma DirectiveProducesNothing(d: string, rest: seq<string>, mode: string, scope: Scope,
                                 countMatch: string -> Option<CountMatch>)
    requires StartsWith(d, "#ALWAYS") || StartsWith(d, "#IF ") || StartsWith(d, "#IFNOT ")
    ensures Collect([d] + rest, mode, scope, countMatch) == Collect(rest, mode, Directive(d).value, countMatch)
  {
    assert ([d] + rest)[1..] == rest;
  }

  /** `#IF m...` followed by a line: the line is read iff the mode is listed. */
  lemma IfScope(modes: seq<string>, mode: string, line: string)
    requires modes != []
    ensures Applies(Scope(modes, []), mode) <==> mode in modes
    ensures Applies(Scope([], modes), mode) <==> mode !in modes
    ensures Applies(ALWAYS, mode)
  {
  }

  /** Every collected record carries a known section and a valid level. */
  lemma {:induction false} CollectedRecordsValid(lines: seq<string>, mode: string, scope: Scope,
                                                 countMatch: string -> Option<CountMatch>)
    requires Collect(lines, mode, scope, countMatch).Ok?
    ensures forall rec :: rec in Collect(lines, mode, scope, countMatch).value ==>
              rec.priority < |ErrorTable| && rec.level in ValidLevels
              && rec.keyData == KeyData(rec.data, countMatch)
  {
    if lines != [] {
      var d := Directive(lines[0]);
      if d.Some? {
        CollectedRecordsValid(lines[1..], mode, d.value, countMatch);
      } else if Applies(scope, mode) {
        CollectedRecordsValid(lines[1..], mode, scope, countMatch);
      } else {
        CollectedRecordsValid(lines[1..], mode, scope, countMatch);
      }
    }
  }

  /** ExtractSummary's result is ordered by (priority, keyData), keeps every collected record, and is stable. */
  lemma SummarizeSorted(lines: seq<string>, mode: string, countMatch: string -> Option<CountMatch>, k: Key)
    requires Collect(lines, mode, ALWAYS, countMatch).Ok?
    ensures Summarize(lines, mode, countMatch).Ok?
    ensures SortedBy(Summarize(lines, mode, countMatch).value, SummaryKey)
    ensures multiset(Summarize(lines, mode, countMatch).value) == multiset(Collect(lines, mode, ALWAYS, countMatch).value)
    ensures WithKey(Summarize(lines, mode, countMatch).value, SummaryKey, k)
            == WithKey(Collect(lines, mode, ALWAYS, countMatch).value, SummaryKey, k)
  {
    SortByFacts(Collect(lines, mode, ALWAYS, countMatch).value, SummaryKey, k);
  }

  /** Two "all instances" count lines with the same leading text share a key, whatever their counts. */
  lemma AllSentinel(a: string, b: string, countMatch: string -> Option<CountMatch>)
    requires countMatch(a).Some? && countMatch(b).Some?
    requires countMatch(a).value.prefix == countMatch(b).value.prefix
    requires countMatch(a).value.errors == countMatch(a).value.cells
    requires countMatch(b).value.errors == countMatch(b).value.cells
    ensures KeyData(a, countMatch) == KeyData(b, countMatch) == countMatch(a).value.prefix + "all"
  {
  }

  /** A partial count's key keeps the error count and drops the cell count. */
  lemma PartialCountKey(a: string, b: string, countMatch: string -> Option<CountMatch>)
    requires countMatch(a).Some? && countMatch(b).Some?
    requires countMatch(a).value.prefix == countMatch(b).value.prefix
    requires countMatch(a).value.errors == countMatch(b).value.errors
    requires countMatch(a).value.errors != countMatch(a).value.cells
    requires countMatch(b).value.errors != countMatch(b).value.cells
    ensures KeyData(a, countMatch) == KeyData(b, countMatch)
  {
  }

  /** A numeric key never collides with the "all" sentinel of the same leading text. */
  lemma SentinelDistinct(p: string, n: string)
    requires n != [] && AllDigits(n)
    ensures p + "all" != p + n
  {
    assert (p + n)[|p|] == n[0];
    assert (p + "all")[|p|] == 'a';
  }

  /** The summary file's lines, stripped, with blank lines dropped. */
  function NonBlank(fileLines: seq<string>): (r: seq<string>)
    ensures |r| <= |fileLines|
    ensures forall i :: 0 <= i < |r| ==> r[i] != []
  {
    if fileLines == [] then []
    else if Strip(fileLines[0]) == [] then NonBlank(fileLines[1..])
    else [Strip(fileLines[0])] + NonBlank(fileLines[1..])
  }

  lemma {:induction false} NonBlankAppend(lines: seq<string>, line: string)
    ensures NonBlank(lines + [line]) == NonBlank(lines) + (if Strip(line) == [] then [] else [Strip(line)])
  {
    if lines != [] {
      assert (lines + [line])[1..] == lines[1..] + [line];
      NonBlankAppend(lines[1..], line);
    } else {
      assert [line][1..] == [];
    }
  }

  class SummaryFileReader {
    /** The name the file was opened under. */
    var summaryFileName: string

    /** The non-blank, stripped lines of the file. */
    var summaryLine: seq<string>

    /** Reads the file's lines; opening and decompressing the file are not modelled. */
    constructor (fileName: string, fileLines: seq<string>)
      ensures summaryFileName == fileName
      ensures summaryLine == NonBlank(fileLines)
    {
      var kept: seq<string> := [];
      var i := 0;
      while i < |fileLines|
        invariant 0 <= i <= |fileLines|
        invariant kept == NonBlank(fileLines[..i])
      {
        var line := Strip(fileLines[i]);
        assert fileLines[..i + 1] == fileLines[..i] + [fileLines[i]];
        NonBlankAppend(fileLines[..i], fileLines[i]);
        if line != [] {
          kept := kept + [line];
        }
        i := i + 1;
      }
      assert fileLines[..i] == fileLines;
      summaryFileName := fileName;
      summaryLine := kept;
    }

    /** ExtractSummary: the sorted summary records that apply to `mode`. */
    method ExtractSummary(mode: string, countMatch: string -> Option<CountMatch>)
      returns (r: Result<seq<SummaryRecord>>)
      ensures r == Summarize(summaryLine, mode, countMatch)
    {
      var scope := ALWAYS;
      var summaryList: seq<SummaryRecord> := [];
      var i := 0;
      assert summaryLine[i..] == summaryLine;
      PrependNothing(Collect(summaryLine, mode, scope, countMatch));
      while i < |summaryLine|
        invariant 0 <= i <= |summaryLine|
        invariant Collect(summaryLine, mode, ALWAYS, countMatch)
                  == Prepend(summaryList, Collect(summaryLine[i..], mode, scope, countMatch))
      {
        var line := summaryLine[i];
        ghost var rest := summaryLine[i..];
        assert rest[0] == line && rest[1..] == summaryLine[i + 1..];
        var d := Directive(line);
        if d.Some? {
          scope := d.value;
        } else if Applies(scope, mode) {
          var parsed := ParseLine(line, countMatch);
          CollectParsed(rest, mode, scope, countMatch);
          if parsed.Fail? {
            return Fail(parsed.failure);
          }
          if parsed.value.Some? {
            PrependTwice(summaryList, [parsed.value.value], Collect(summaryLine[i + 1..], mode, scope, countMatch));
            summaryList := summaryList + [parsed.value.value];
          }
        }
        i := i + 1;
      }
      assert summaryLine[i..] == [];
      assert summaryList + [] == summaryList;
      return Ok(SortBy(summaryList, SummaryKey));
    }
  }
}
