/**
 * The cell-expansion heuristics of scripts/expand_cells.py: reading the
 * override file, counting resistors and MOSFETs into a subcircuit's
 * record, smashing small child cells into their parents and deciding
 * which cells Calibre SVS should expand. The script runs under Python 2,
 * so `\s` and `str.strip()` mean the six ASCII whitespace characters.
 */
module ExpandCells {
  import opened Outcomes

  // ------------------------------------------------------------ override lines

  /** The five override keywords. */
  datatype Override = EXPAND | KEEP | IGNORE | MOSFET | RESISTOR

  function Keyword(o: Override): (k: string)
    ensures |k| >= 4
  {
    match o
    case EXPAND => "EXPAND"
    case KEEP => "KEEP"
    case IGNORE => "IGNORE"
    case MOSFET => "MOSFET"
    case RESISTOR => "RESISTOR"
  }

  /** `\s` of a byte-string regex, and what `str.strip()` removes. */
  predicate Blank(c: char) {
    c == ' ' || c == '\t' || c == '\n' || c == '\r' || c == '\U{0B}' || c == '\U{0C}'
  }

  predicate AllBlank(s: string) {
    forall i :: 0 <= i < |s| ==> Blank(s[i])
  }

  predicate NoBlank(s: string) {
    forall i :: 0 <= i < |s| ==> !Blank(s[i])
  }

  /** Length of the run of blanks that starts s. */
  function BlankRun(s: string): (k: nat)
    ensures k <= |s| && AllBlank(s[..k]) && (k == |s| || !Blank(s[k]))
  {
    if |s| > 0 && Blank(s[0]) then
      var k := 1 + BlankRun(s[1..]);
      assert s[..k] == [s[0]] + s[1..][..k - 1];
      k
    else 0
  }

  /** Length of the run of non-blanks that starts s. */
  function WordRun(s: string): (k: nat)
    ensures k <= |s| && NoBlank(s[..k]) && (k == |s| || Blank(s[k]))
  {
    if |s| > 0 && !Blank(s[0]) then
      var k := 1 + WordRun(s[1..]);
      assert s[..k] == [s[0]] + s[1..][..k - 1];
      k
    else 0
  }

  /** Start of the trailing run of blanks of s. */
  function TrailingBlanks(s: string): (k: nat)
    ensures k <= |s| && (k == 0 || !Blank(s[k - 1]))
  {
    if |s| > 0 && Blank(s[|s| - 1]) then TrailingBlanks(s[..|s| - 1]) else |s|
  }

  /** `line.strip()`. */
  function StripLine(line: string): (r: string)
    ensures r == [] || (!Blank(r[0]) && !Blank(r[|r| - 1]))
  {
    var t := line[BlankRun(line)..];
    t[..TrailingBlanks(t)]
  }

  /** The cell a line names after keyword kw, when the line has the shape `kw\s+(\S+)`. */
  function MatchKeyword(line: string, kw: string): (cell: Option<string>)
  {
    var k := |kw|;
    if k < |line| && line[..k] == kw && Blank(line[k]) then
      var j := k + BlankRun(line[k..]);
      var w := WordRun(line[j..]);
      if w == 0 then None else Some(line[j..j + w])
    else None
  }

  /** The alternatives of the pattern, in the order it tries them. */
  const KEYWORDS: seq<Override> := [EXPAND, KEEP, IGNORE, MOSFET, RESISTOR]

  /** The first keyword of ks the line matches, with its cell. */
  function MatchFirst(line: string, ks: seq<Override>): (r: Option<(Override, string)>)
    ensures r.Some? ==> r.value.0 in ks && MatchKeyword(line, Keyword(r.value.0)) == Some(r.value.1)
    ensures r.None? ==> forall o :: o in ks ==> MatchKeyword(line, Keyword(o)).None?
  {
    if ks == [] then None
    else if MatchKeyword(line, Keyword(ks[0])).Some? then Some((ks[0], MatchKeyword(line, Keyword(ks[0])).value))
    else MatchFirst(line, ks[1..])
  }

  /** `^(EXPAND|KEEP|IGNORE|MOSFET|RESISTOR)\s+(\S+)` with its two groups. */
  function MatchOverride(line: string): Option<(Override, string)>
  {
    MatchFirst(line, KEYWORDS)
  }

  /** A line made of keyword o, a run of blanks, the cell name, and nothing or more after a blank. */
  predicate OverrideShape(line: string, kw: string, blanks: string, cell: string, rest: string) {
    && line == kw + blanks + cell + rest
    && blanks != [] && AllBlank(blanks)
    && cell != [] && NoBlank(cell)
    && (rest == [] || Blank(rest[0]))
  }

  /** The line is kw, the blank run after it, cell, and the rest after cell. */
  predicate SplitsAs(line: string, kw: string, cell: string) {
    && |kw| <= |line|
    && var j := |kw| + BlankRun(line[|kw|..]);
       && j + |cell| <= |line|
       && OverrideShape(line, kw, line[|kw|..j], cell, line[j + |cell|..])
  }

  /** A keyword match splits the line into the shape the pattern describes. */
  lemma MatchKeywordSound(line: string, kw: string)
    requires MatchKeyword(line, kw).Some?
    ensures SplitsAs(line, kw, MatchKeyword(line, kw).value)
  {
    var k := |kw|;
    var j := k + BlankRun(line[k..]);
    var e := j + WordRun(line[j..]);
    assert MatchKeyword(line, kw) == Some(line[j..e]);
    assert line[k..][..j - k] == line[k..j];
    assert line[j..][..e - j] == line[j..e];
    ShapeAt(line, kw, j, e);
  }

  /** Cutting a line at the ends of its blank run and of its word gives the shape. */
  lemma ShapeAt(line: string, kw: string, j: nat, e: nat)
    requires |kw| < j < e <= |line| && line[..|kw|] == kw
    requires AllBlank(line[|kw|..j]) && NoBlank(line[j..e]) && (e == |line| || Blank(line[e]))
    ensures OverrideShape(line, kw, line[|kw|..j], line[j..e], line[e..])
  {
    SplitFour(line, |kw|, j, e);
  }

  lemma SplitFour(s: string, a: nat, b: nat, c: nat)
    requires a <= b <= c <= |s|
    ensures s == s[..a] + s[a..b] + s[b..c] + s[c..]
  {
    assert s[..a] + s[a..b] == s[..b];
    assert s[..b] + s[b..c] == s[..c];
  }

  /** The override a line matches is one whose keyword pattern matches it, with the same cell. */
  lemma MatchOverrideKeyword(line: string, o: Override, cell: string)
    requires MatchOverride(line) == Some((o, cell))
    ensures MatchKeyword(line, Keyword(o)) == Some(cell)
  {
    assert MatchFirst(line, KEYWORDS) == Some((o, cell));
  }

  /** A match splits the line into the shape the pattern describes. */
  lemma MatchOverrideSound(line: string, o: Override, cell: string)
    requires MatchOverride(line) == Some((o, cell))
    ensures SplitsAs(line, Keyword(o), cell)
  {
    MatchOverrideKeyword(line, o, cell);
    MatchKeywordSound(line, Keyword(o));
  }

  /** The keywords start with five different letters, so a line starts with at most one of them. */
  lemma KeywordsExclusive(line: string, o: Override, p: Override)
    requires |Keyword(o)| < |line| && line[..|Keyword(o)|] == Keyword(o)
    requires |Keyword(p)| < |line| && line[..|Keyword(p)|] == Keyword(p)
    ensures o == p
  {
    assert Keyword(o)[0] == line[0] == Keyword(p)[0];
  }

  /** A line of that shape matches its own keyword with its cell. */
  lemma MatchKeywordComplete(line: string, kw: string, blanks: string, cell: string, rest: string)
    requires OverrideShape(line, kw, blanks, cell, rest)
    ensures MatchKeyword(line, kw) == Some(cell)
  {
    var k := |kw|;
    var j := k + |blanks|;
    assert line[..k] == kw;
    assert line[k..] == blanks + (cell + rest);
    BlankRunOver(blanks, cell + rest);
    assert line[j..] == cell + rest;
    WordRunOver(cell, rest);
    MatchKeywordAt(line, kw, j, |cell|);
    assert line[j..j + |cell|] == cell;
  }

  lemma MatchKeywordAt(line: string, kw: string, j: nat, w: nat)
    requires |kw| < |line| && line[..|kw|] == kw && Blank(line[|kw|])
    requires j == |kw| + BlankRun(line[|kw|..]) && j <= |line| && w == WordRun(line[j..]) && w > 0
    ensures MatchKeyword(line, kw) == Some(line[j..j + w])
  {
  }

  /** Every line of that shape matches, with its keyword and cell as the groups. */
  lemma MatchOverrideComplete(line: string, o: Override, blanks: string, cell: string, rest: string)
    requires OverrideShape(line, Keyword(o), blanks, cell, rest)
    ensures MatchOverride(line) == Some((o, cell))
  {
    MatchKeywordComplete(line, Keyword(o), blanks, cell, rest);
    assert o in KEYWORDS;
    var r := MatchOverride(line);
    assert r.Some?;
    if r.value.0 != o {
      KeywordsExclusive(line, o, r.value.0);
    }
  }

  lemma BlankRunOver(blanks: string, s: string)
    requires AllBlank(blanks) && s != [] && !Blank(s[0])
    ensures BlankRun(blanks + s) == |blanks|
    decreases |blanks|
  {
    if blanks != [] {
      assert (blanks + s)[1..] == blanks[1..] + s;
      BlankRunOver(blanks[1..], s);
    } else {
      assert blanks + s == s;
    }
  }

  lemma WordRunOver(word: string, s: string)
    requires NoBlank(word) && (s == [] || Blank(s[0]))
    ensures WordRun(word + s) == |word|
    decreases |word|
  {
    if word != [] {
      assert (word + s)[1..] == word[1..] + s;
      WordRunOver(word[1..], s);
    } else {
      assert word + s == s;
    }
  }

  /** How ReadCellOverrides reads one line of the override file. */
  datatype LineKind = BlankLine | Comment | Setting(o: Override, cell: string) | Invalid

  function Classify(raw: string): LineKind {
    var line := StripLine(raw);
    if line == [] then BlankLine
    else if MatchOverride(line).Some? then Setting(MatchOverride(line).value.0, MatchOverride(line).value.1)
    else if line[0] == '#' then Comment
    else Invalid
  }

  /** How each line of the file reads. */
  function Kinds(lines: seq<string>): (kinds: seq<LineKind>)
    ensures |kinds| == |lines| && forall i :: 0 <= i < |lines| ==> kinds[i] == Classify(lines[i])
  {
    seq(|lines|, i requires 0 <= i < |lines| => Classify(lines[i]))
  }

  /** The overrides read so far and the indices of the lines reported as errors. */
  datatype OverrideState = OverrideState(overrides: map<string, Override>, errors: seq<nat>)

  /** One line: a new setting is recorded, a conflicting one or a malformed line is reported. */
  function ReadLine(s: OverrideState, index: nat, kind: LineKind): OverrideState {
    match kind
    case Setting(o, cell) =>
      if cell in s.overrides && s.overrides[cell] != o then s.(errors := s.errors + [index])
      else s.(overrides := s.overrides[cell := o])
    case Invalid => s.(errors := s.errors + [index])
    case _ => s
  }

  /** All lines, first to last. */
  function ReadKinds(kinds: seq<LineKind>): OverrideState {
    if kinds == [] then OverrideState(map[], [])
    else ReadLine(ReadKinds(kinds[..|kinds| - 1]), |kinds| - 1, kinds[|kinds| - 1])
  }

  /**
   * ReadCellOverrides over the file's lines: every line is read before the
   * script gives up, and it gives up (a bare `raise`) when any line was
   * reported; errors lists the reported lines in order.
   */
  method ReadCellOverrides(lines: seq<string>) returns (r: Result<map<string, Override>>, errors: seq<nat>)
    ensures errors == ReadKinds(Kinds(lines)).errors
    ensures r == if errors == [] then Ok(ReadKinds(Kinds(lines)).overrides) else Fail(ScriptAbort)
  {
    ghost var kinds := Kinds(lines);
    var overrides: map<string, Override> := map[];
    errors := [];
    var i := 0;
    while i < |lines|
      invariant i <= |lines|
      invariant OverrideState(overrides, errors) == ReadKinds(kinds[..i])
    {
      assert kinds[..i + 1][..i] == kinds[..i];
      var kind := Classify(lines[i]);
      if kind.Setting? {
        if kind.cell in overrides && overrides[kind.cell] != kind.o {
          errors := errors + [i];
        } else {
          overrides := overrides[kind.cell := kind.o];
        }
      } else if kind.Invalid? {
        errors := errors + [i];
      }
      i := i + 1;
    }
    assert kinds[..i] == kinds;
    if errors != [] {
      return Fail(ScriptAbort), errors;
    }
    return Ok(overrides), errors;
  }

  /** The override the first line that names cell gives it. */
  function FirstSetting(kinds: seq<LineKind>, cell: string): Option<Override> {
    if kinds == [] then None
    else if FirstSetting(kinds[..|kinds| - 1], cell).Some? then FirstSetting(kinds[..|kinds| - 1], cell)
    else if kinds[|kinds| - 1].Setting? && kinds[|kinds| - 1].cell == cell then Some(kinds[|kinds| - 1].o)
    else None
  }

  /** Line i is malformed, or names a cell an earlier line set differently. */
  predicate Faulty(kinds: seq<LineKind>, i: nat)
    requires i < |kinds|
  {
    match kinds[i]
    case Invalid => true
    case Setting(o, cell) => FirstSetting(kinds[..i], cell).Some? && FirstSetting(kinds[..i], cell).value != o
    case _ => false
  }

  /**
   * What the file means: each cell keeps the first setting given to it,
   * and the reported lines are exactly the malformed ones and those that
   * contradict a cell's first setting.
   */
  lemma {:induction false} ReadKindsMeaning(kinds: seq<LineKind>)
    ensures var s := ReadKinds(kinds);
      && (forall cell :: cell in s.overrides <==> FirstSetting(kinds, cell).Some?)
      && (forall cell :: cell in s.overrides ==> s.overrides[cell] == FirstSetting(kinds, cell).value)
      && (forall i: nat :: i in s.errors <==> i < |kinds| && Faulty(kinds, i))
  {
    if kinds != [] {
      var n := |kinds| - 1;
      var before := kinds[..n];
      ReadKindsMeaning(before);
      forall i | 0 <= i < n
        ensures Faulty(kinds, i) == Faulty(before, i)
      {
        assert kinds[..i] == before[..i] && kinds[i] == before[i];
      }
      var s := ReadKinds(before);
      forall i: nat
        ensures i in ReadKinds(kinds).errors <==> i < |kinds| && Faulty(kinds, i)
      {
        if i == n {
          assert ReadKinds(kinds).errors == s.errors || ReadKinds(kinds).errors == s.errors + [n];
        }
      }
    }
  }

  /** Once a prefix sets a cell, longer prefixes keep that first setting. */
  lemma {:induction false} FirstSettingStable(kinds: seq<LineKind>, cell: string, k: nat, l: nat)
    requires k <= l <= |kinds| && FirstSetting(kinds[..k], cell).Some?
    ensures FirstSetting(kinds[..l], cell) == FirstSetting(kinds[..k], cell)
    decreases l
  {
    if l > k {
      FirstSettingStable(kinds, cell, k, l - 1);
      assert kinds[..l][..l - 1] == kinds[..l - 1];
    }
  }

  /** Two lines giving one cell different settings make the script give up. */
  lemma ConflictingSettingsFail(kinds: seq<LineKind>, i: nat, j: nat)
    requires i < j < |kinds| && kinds[i].Setting? && kinds[j].Setting?
    requires kinds[i].cell == kinds[j].cell && kinds[i].o != kinds[j].o
    ensures ReadKinds(kinds).errors != []
  {
    var cell := kinds[i].cell;
    ReadKindsMeaning(kinds);
    assert kinds[..i + 1][..i] == kinds[..i];
    assert FirstSetting(kinds[..i + 1], cell).Some?;
    FirstSettingStable(kinds, cell, i + 1, j);
    if FirstSetting(kinds[..j], cell).value != kinds[j].o {
      assert Faulty(kinds, j);
      assert j in ReadKinds(kinds).errors;
    } else {
      assert FirstSetting(kinds[..i], cell).Some?;
      FirstSettingStable(kinds, cell, i, j);
      assert Faulty(kinds, i);
      assert i in ReadKinds(kinds).errors;
    }
  }

  /** A malformed line makes the script give up. */
  lemma InvalidLineFails(kinds: seq<LineKind>, i: nat)
    requires i < |kinds| && kinds[i] == Invalid
    ensures ReadKinds(kinds).errors != []
  {
    ReadKindsMeaning(kinds);
    assert i in ReadKinds(kinds).errors;
  }

  // ------------------------------------------------------------ a subcircuit's counts

  /** One key of a counting dictionary with its count. */
  datatype Entry = Entry(name: string, count: nat)

  /** The per-subcircuit record: instances and MOS models are dictionaries in insertion order. */
  datatype Circuit = Circuit(
    instances: seq<Entry>, mosModels: seq<Entry>,
    resistorCount: nat, otherCount: nat, checked: bool, small: bool)

  function Names(es: seq<Entry>): (r: seq<string>)
    ensures |r| == |es| && forall i :: 0 <= i < |es| ==> r[i] == es[i].name
  {
    if es == [] then [] else [es[0].name] + Names(es[1..])
  }

  /** No key appears twice. */
  predicate Unique(es: seq<Entry>) {
    forall i, j :: 0 <= i < j < |es| ==> es[i].name != es[j].name
  }

  /** `d[name]` for a key present, 0 for one absent. */
  function CountOf(es: seq<Entry>, name: string): nat {
    if es == [] then 0 else if es[0].name == name then es[0].count else CountOf(es[1..], name)
  }

  /** The sum of the counts. */
  function Total(es: seq<Entry>): nat {
    if es == [] then 0 else es[0].count + Total(es[1..])
  }

  lemma {:induction false} AbsentCount(es: seq<Entry>, name: string)
    requires name !in Names(es)
    ensures CountOf(es, name) == 0
  {
    if es != [] {
      assert Names(es[1..]) == Names(es)[1..];
      AbsentCount(es[1..], name);
    }
  }

  /** `if name not in d: d[name] = 0` then `d[name] += k`. */
  function AddCount(es: seq<Entry>, name: string, k: nat): (r: seq<Entry>)
    ensures forall x :: CountOf(r, x) == CountOf(es, x) + (if x == name then k else 0)
    ensures Total(r) == Total(es) + k
  {
    if es == [] then [Entry(name, k)]
    else if es[0].name == name then [Entry(name, es[0].count + k)] + es[1..]
    else [es[0]] + AddCount(es[1..], name, k)
  }

  /** A new key goes last; an existing key keeps its place; no key is repeated. */
  lemma {:induction false} AddCountNames(es: seq<Entry>, name: string, k: nat)
    ensures Names(AddCount(es, name, k)) == if name in Names(es) then Names(es) else Names(es) + [name]
    ensures Unique(es) ==> Unique(AddCount(es, name, k))
  {
    var r := AddCount(es, name, k);
    if es != [] {
      assert Names(es) == [es[0].name] + Names(es[1..]);
      assert Names(r) == [r[0].name] + Names(r[1..]);
      if es[0].name != name {
        AddCountNames(es[1..], name, k);
        assert r[1..] == AddCount(es[1..], name, k);
        if Unique(es) {
          assert es[0].name !in Names(es[1..]);
          forall i, j | 0 <= i < j < |r|
            ensures r[i].name != r[j].name
          {
            assert Names(r)[i] == r[i].name && Names(r)[j] == r[j].name;
          }
        }
      }
    }
  }

  /** `del d[name]` for a key present; no key is left out but that one. */
  function Remove(es: seq<Entry>, name: string): (r: seq<Entry>)
    ensures CountOf(r, name) == 0
    ensures forall x :: x != name ==> CountOf(r, x) == CountOf(es, x)
    ensures Unique(es) ==> Unique(r) && Total(r) + CountOf(es, name) == Total(es)
    ensures forall x :: x in Names(r) <==> x in Names(es) && x != name
  {
    if es == [] then []
    else if es[0].name == name then
      var r := Remove(es[1..], name);
      assert Unique(es) ==> CountOf(es[1..], name) == 0 by {
        if Unique(es) {
          assert name !in Names(es[1..]);
          AbsentCount(es[1..], name);
        }
      }
      assert Names(es) == [name] + Names(es[1..]);
      r
    else
      var rest := Remove(es[1..], name);
      var r := [es[0]] + rest;
      assert r[1..] == rest;
      assert Names(r) == [es[0].name] + Names(rest);
      assert Names(es) == [es[0].name] + Names(es[1..]);
      assert Unique(es) ==> Unique(r) by {
        if Unique(es) {
          assert es[0].name !in Names(es[1..]);
          forall j | 0 < j < |r|
            ensures r[0].name != r[j].name
          {
            assert Names(rest)[j - 1] == r[j].name;
          }
        }
      }
      r
  }

  /** The devices a record holds besides its instances. */
  function Devices(c: Circuit): nat {
    c.resistorCount + c.otherCount + Total(c.mosModels)
  }

  /**
   * CountResistor: a resistor whose two terminals the pattern found and
   * which differ is counted as a resistor; any other is counted as other.
   * terminals is what the resistor pattern captured, when it matched.
   */
  function CountResistor(c: Circuit, terminals: Option<(string, string)>): (r: Circuit)
    ensures Devices(r) == Devices(c) + 1
    ensures r.instances == c.instances && r.mosModels == c.mosModels
    ensures r.resistorCount == c.resistorCount + 1 <==> terminals.Some? && terminals.value.0 != terminals.value.1
  {
    if terminals.Some? && terminals.value.0 != terminals.value.1 then c.(resistorCount := c.resistorCount + 1)
    else c.(otherCount := c.otherCount + 1)
  }

  /**
   * CountMosfet: a MOSFET whose source and drain differ is counted under
   * its model; any other is counted as other. terminals is (source, drain,
   * model) as the MOS pattern captured them, when it matched.
   */
  function CountMosfet(c: Circuit, terminals: Option<(string, string, string)>): (r: Circuit)
    ensures Devices(r) == Devices(c) + 1
    ensures r.instances == c.instances && r.resistorCount == c.resistorCount
    ensures terminals.Some? && terminals.value.0 != terminals.value.1 ==>
      && r.otherCount == c.otherCount
      && forall m :: CountOf(r.mosModels, m) == CountOf(c.mosModels, m) + (if m == terminals.value.2 then 1 else 0)
    ensures !(terminals.Some? && terminals.value.0 != terminals.value.1) ==>
      r.otherCount == c.otherCount + 1 && r.mosModels == c.mosModels
    ensures Unique(c.mosModels) ==> Unique(r.mosModels)
  {
    if terminals.Some? && terminals.value.0 != terminals.value.1 then
      AddCountNames(c.mosModels, terminals.value.2, 1);
      c.(mosModels := AddCount(c.mosModels, terminals.value.2, 1))
    else c.(otherCount := c.otherCount + 1)
  }

  // ------------------------------------------------------------ smashing a child

  /**
   * The instance loop of a smash: each of the child's instances is added
   * to the parent, times the parent's count of the child as it stands
   * when that instance is added.
   */
  function AddScaled(es: seq<Entry>, add: seq<Entry>, child: string): seq<Entry>
    decreases |add|
  {
    if add == [] then es
    else AddScaled(AddCount(es, add[0].name, add[0].count * CountOf(es, child)), add[1..], child)
  }

  /** The model loop of a smash: each count times m. */
  function AddAll(es: seq<Entry>, add: seq<Entry>, m: nat): seq<Entry>
    decreases |add|
  {
    if add == [] then es
    else AddAll(AddCount(es, add[0].name, add[0].count * m), add[1..], m)
  }

  /** Smashing child (a small cell) into parent, lines 227-243 of the script. */
  function SmashChild(parent: Circuit, child: Circuit, name: string): Circuit {
    var instances := AddScaled(parent.instances, child.instances, name);
    var m := CountOf(instances, name);
    parent.(
      instances := Remove(instances, name),
      mosModels := AddAll(parent.mosModels, child.mosModels, m),
      resistorCount := parent.resistorCount + child.resistorCount * m,
      otherCount := parent.otherCount + child.otherCount * m)
  }

  /** Multiplication distributes over a sum of counts. */
  lemma Scale(m: nat, a: nat, b: nat)
    ensures m * (a + b) == m * a + m * b && a * m == m * a
  {
  }

  lemma {:induction false} AddAllCounts(es: seq<Entry>, add: seq<Entry>, m: nat)
    requires Unique(add)
    ensures forall x :: CountOf(AddAll(es, add, m), x) == CountOf(es, x) + m * CountOf(add, x)
    ensures Total(AddAll(es, add, m)) == Total(es) + m * Total(add)
    ensures Unique(es) ==> Unique(AddAll(es, add, m))
  {
    forall x
      ensures CountOf(AddAll(es, add, m), x) == CountOf(es, x) + m * CountOf(add, x)
    {
      AddAllCount(es, add, m, x);
    }
    AddAllTotal(es, add, m);
  }

  /** The count of one name after merging counts m times. */
  lemma {:induction false} AddAllCount(es: seq<Entry>, add: seq<Entry>, m: nat, x: string)
    requires Unique(add)
    ensures CountOf(AddAll(es, add, m), x) == CountOf(es, x) + m * CountOf(add, x)
    decreases |add|
  {
    if add != [] {
      var first, rest := add[0], add[1..];
      var next := AddCount(es, first.name, first.count * m);
      assert Unique(rest);
      AddAllCount(next, rest, m, x);
      assert AddAll(es, add, m) == AddAll(next, rest, m);
      if x == first.name {
        assert Names(add) == [x] + Names(rest);
        AbsentCount(rest, x);
        assert CountOf(add, x) == first.count;
      } else {
        assert CountOf(add, x) == CountOf(rest, x);
      }
    }
  }

  /** The total and the uniqueness of names after merging counts m times. */
  lemma AddAllTotal(es: seq<Entry>, add: seq<Entry>, m: nat)
    ensures Total(AddAll(es, add, m)) == Total(es) + m * Total(add)
    ensures Unique(es) ==> Unique(AddAll(es, add, m))
  {
    AddAllSum(es, add, m);
    if Unique(es) {
      AddAllUnique(es, add, m);
    }
  }

  lemma {:induction false} AddAllSum(es: seq<Entry>, add: seq<Entry>, m: nat)
    ensures Total(AddAll(es, add, m)) == Total(es) + m * Total(add)
    decreases |add|
  {
    if add != [] {
      var first, rest := add[0], add[1..];
      var next := AddCount(es, first.name, first.count * m);
      AddAllSum(next, rest, m);
      assert AddAll(es, add, m) == AddAll(next, rest, m);
      assert Total(next) == Total(es) + first.count * m;
      assert Total(add) == first.count + Total(rest);
      Scale(m, first.count, Total(rest));
    }
  }

  lemma {:induction false} AddAllUnique(es: seq<Entry>, add: seq<Entry>, m: nat)
    requires Unique(es)
    ensures Unique(AddAll(es, add, m))
    decreases |add|
  {
    if add != [] {
      var next := AddCount(es, add[0].name, add[0].count * m);
      AddCountNames(es, add[0].name, add[0].count * m);
      AddAllUnique(next, add[1..], m);
    }
  }

  lemma {:induction false} AddScaledCounts(es: seq<Entry>, add: seq<Entry>, child: string)
    requires Unique(add) && child !in Names(add)
    ensures CountOf(AddScaled(es, add, child), child) == CountOf(es, child)
    ensures AddScaled(es, add, child) == AddAll(es, add, CountOf(es, child))
    decreases |add|
  {
    if add != [] {
      var m := CountOf(es, child);
      var next := AddCount(es, add[0].name, add[0].count * m);
      assert Names(add) == [add[0].name] + Names(add[1..]);
      assert CountOf(next, child) == m;
      assert Unique(add[1..]);
      AddScaledCounts(next, add[1..], child);
    }
  }

  /**
   * What a smash does when the child does not instantiate itself: the
   * child's instance leaves the parent, each of the child's instances and
   * MOS models is added times the child's multiplicity, and so are all its
   * devices.
   */
  lemma SmashChildCounts(parent: Circuit, child: Circuit, name: string)
    requires Unique(parent.instances) && Unique(child.instances) && Unique(child.mosModels)
    requires name !in Names(child.instances)
    ensures var r := SmashChild(parent, child, name);
      var m := CountOf(parent.instances, name);
      && CountOf(r.instances, name) == 0
      && (forall x :: x != name ==> CountOf(r.instances, x) == CountOf(parent.instances, x) + m * CountOf(child.instances, x))
      && (forall x :: CountOf(r.mosModels, x) == CountOf(parent.mosModels, x) + m * CountOf(child.mosModels, x))
      && Devices(r) == Devices(parent) + m * Devices(child)
      && Unique(r.instances)
      && (Unique(parent.mosModels) ==> Unique(r.mosModels))
  {
    var m := CountOf(parent.instances, name);
    AddScaledCounts(parent.instances, child.instances, name);
    AddAllCounts(parent.instances, child.instances, m);
    AddAllCounts(parent.mosModels, child.mosModels, m);
    var r := SmashChild(parent, child, name);
    assert Total(r.mosModels) == Total(parent.mosModels) + m * Total(child.mosModels);
    ScaleDevices(m, child.resistorCount, child.otherCount, Total(child.mosModels));
  }

  lemma ScaleDevices(m: nat, resistors: nat, others: nat, mos: nat)
    ensures m * (resistors + others + mos) == resistors * m + others * m + m * mos
  {
  }

  /** Python's `in` on a string. */
  predicate ContainsText(s: string, part: string)
    decreases |s|
  {
    |part| <= |s| && (s[..|part|] == part || (s != [] && ContainsText(s[1..], part)))
  }

  /**
   * The keep/smash decision of PrintSmallCells, in the script's order:
   * keep with more than one counted instance, more than one MOS model, or
   * one instance and any MOS or resistor; smash anyway when the name holds
   * "ICV_" or "$$"; keep a parameterized box; a KEEP or EXPAND override
   * has the last word.
   */
  function SmashFlag(name: string, overrides: map<string, Override>, instanceCount: nat,
                     modelCount: nat, mosCount: nat, resistorCount: nat, parameterizedBox: bool): (r: bool)
    ensures r <==>
      || (name in overrides && overrides[name] == EXPAND)
      || (&& !(name in overrides && overrides[name] == KEEP)
          && !parameterizedBox
          && (|| ContainsText(name, "ICV_") || ContainsText(name, "$$")
              || (instanceCount == 0 && modelCount <= 1)
              || (instanceCount == 1 && modelCount <= 1 && resistorCount + mosCount == 0)))
  {
    var keep := instanceCount > 1 || modelCount > 1 || (instanceCount == 1 && resistorCount + mosCount > 0);
    var flag := if ContainsText(name, "ICV_") || ContainsText(name, "$$") then true else !keep;
    var flag' := if parameterizedBox then false else flag;
    if name in overrides && overrides[name] == KEEP then false
    else if name in overrides && overrides[name] == EXPAND then true
    else flag'
  }

  /**
   * Top's record after the smash loop of PrintSmallCells has passed over
   * names: each defined child that is small, and not a parameterized box,
   * smashed in, in order. A child is read as it stands once visited; top
   * itself, as its own child, is the record being built.
   */
  function SmashedAll(start: Circuit, names: seq<string>, cells: map<string, Circuit>, top: string,
                      boxes: set<string>, parameterized: set<string>): Circuit
    decreases |names|
  {
    if names == [] then start
    else
      var prior := SmashedAll(start, names[..|names| - 1], cells, top, boxes, parameterized);
      var name := names[|names| - 1];
      if name !in cells then prior
      else
        var child := if name == top then prior else cells[name];
        if child.small && !(name in boxes && name in parameterized) then SmashChild(prior, child, name) else prior
  }

  /** The smash loop reads only the children's records, so cells it does not read may change. */
  lemma {:induction false} SmashedAllFrame(start: Circuit, names: seq<string>, c1: map<string, Circuit>,
                                           c2: map<string, Circuit>, top: string, boxes: set<string>,
                                           parameterized: set<string>)
    requires forall n :: n in names ==> (n in c1 <==> n in c2) && (n in c1 && n != top ==> c1[n] == c2[n])
    ensures SmashedAll(start, names, c1, top, boxes, parameterized) == SmashedAll(start, names, c2, top, boxes, parameterized)
    decreases |names|
  {
    if names != [] {
      var init := names[..|names| - 1];
      assert forall n :: n in init ==> n in names;
      SmashedAllFrame(start, init, c1, c2, top, boxes, parameterized);
    }
  }

  /** One pass of the smash loop over names[i], from the record built so far. */
  lemma SmashedAllStep(start: Circuit, names: seq<string>, i: nat, cells: map<string, Circuit>, top: string,
                       boxes: set<string>, parameterized: set<string>, next: Circuit)
    requires i < |names| && top in cells
    requires cells[top] == SmashedAll(start, names[..i], cells, top, boxes, parameterized)
    requires next == (if names[i] in cells && cells[names[i]].small && !(names[i] in boxes && names[i] in parameterized)
                      then SmashChild(cells[top], cells[names[i]], names[i]) else cells[top])
    ensures next == SmashedAll(start, names[..i + 1], cells[top := next], top, boxes, parameterized)
  {
    assert names[..i + 1][..i] == names[..i];
    SmashedAllFrame(start, names[..i], cells, cells[top := next], top, boxes, parameterized);
  }

  /** A pass of the smash loop that smashes names[i] into top keeps the loop's invariants. */
  lemma SmashKeeps(c0: map<string, Circuit>, e0: seq<Exclusion>, cells: map<string, Circuit>, excluded: seq<Exclusion>,
                   top: string, merged: Circuit, start: Circuit, names: seq<string>, i: nat,
                   boxes: set<string>, parameterized: set<string>)
    requires i < |names| && top in cells && cells[top].checked && names[i] in cells && cells[names[i]].checked
    requires cells[names[i]].small && !(names[i] in boxes && names[i] in parameterized)
    requires merged == SmashChild(cells[top], cells[names[i]], names[i])
    requires cells[top] == SmashedAll(start, names[..i], cells, top, boxes, parameterized)
    requires forall j :: 0 <= j < i && names[j] in cells ==> cells[names[j]].checked
    requires Progress(c0, e0, cells, excluded, top) && forall k :: |e0| <= k < |excluded| ==> excluded[k].cell != top
    ensures var c := cells[top := merged];
      && c[top].checked
      && merged == SmashedAll(start, names[..i + 1], c, top, boxes, parameterized)
      && (forall j :: 0 <= j < i + 1 && names[j] in c ==> c[names[j]].checked)
      && Progress(c0, e0, c, excluded, top)
      && UncheckedIn(c) <= UncheckedIn(cells)
  {
    ProgressTop(c0, e0, cells, excluded, top, merged);
    MarkShrinks(cells, top, merged);
    SmashedAllStep(start, names, i, cells, top, boxes, parameterized, merged);
  }

  /** A pass of the smash loop that does not smash names[i] leaves top as it was. */
  lemma SmashSkips(start: Circuit, names: seq<string>, i: nat, cells: map<string, Circuit>, top: string,
                   boxes: set<string>, parameterized: set<string>)
    requires i < |names| && top in cells
    requires names[i] in cells ==> cells[names[i]].checked
    requires !(names[i] in cells && cells[names[i]].small && !(names[i] in boxes && names[i] in parameterized))
    requires cells[top] == SmashedAll(start, names[..i], cells, top, boxes, parameterized)
    requires forall j :: 0 <= j < i && names[j] in cells ==> cells[names[j]].checked
    ensures cells[top] == SmashedAll(start, names[..i + 1], cells, top, boxes, parameterized)
    ensures forall j :: 0 <= j < i + 1 && names[j] in cells ==> cells[names[j]].checked
  {
    SmashedAllStep(start, names, i, cells, top, boxes, parameterized, cells[top]);
    assert cells[top := cells[top]] == cells;
  }

  /** A visit of an unvisited child leaves the record built from visited children as it was. */
  lemma SmashedAllVisit(start: Circuit, names: seq<string>, i: nat, c0: map<string, Circuit>, e0: seq<Exclusion>,
                        c1: map<string, Circuit>, e1: seq<Exclusion>, top: string, name: string,
                        boxes: set<string>, parameterized: set<string>)
    requires i <= |names| && Progress(c0, e0, c1, e1, name) && name in c0 && !c0[name].checked
    requires forall j :: 0 <= j < i && names[j] in c0 ==> c0[names[j]].checked
    ensures forall j :: 0 <= j < i && names[j] in c1 ==> c1[names[j]].checked
    ensures SmashedAll(start, names[..i], c0, top, boxes, parameterized)
         == SmashedAll(start, names[..i], c1, top, boxes, parameterized)
  {
    forall n | n in names[..i]
      ensures (n in c0 <==> n in c1) && (n in c0 && n != top ==> c0[n] == c1[n])
    {
      var j :| 0 <= j < i && names[j] == n;
    }
    SmashedAllFrame(start, names[..i], c0, c1, top, boxes, parameterized);
  }

  /** The instances counted by the decision: those of defined cells not already small. */
  function LargeInstances(es: seq<Entry>, cells: map<string, Circuit>): nat {
    if es == [] then 0
    else (if es[0].name in cells && !cells[es[0].name].small then es[0].count else 0) + LargeInstances(es[1..], cells)
  }

  /** One `LVS EXCLUDE HCELL` line: the cell and the five counts printed after it. */
  datatype Exclusion = Exclusion(cell: string, instanceCount: nat, modelCount: nat,
                                 mosCount: nat, resistorCount: nat, otherCount: nat)

  /** The global netlist dictionaries the script updates, and its output. */
  /** The cells of m that PrintSmallCells has not visited yet. */
  function UncheckedIn(m: map<string, Circuit>): set<string> {
    set n | n in m && !m[n].checked
  }

  /** Cell n was printed by a run from c0 to c1 rooted at top: it is small and visited now, and was unvisited or top. */
  predicate Fresh(c0: map<string, Circuit>, c1: map<string, Circuit>, n: string, top: string) {
    n in c1 && c1[n].small && c1[n].checked && (n == top || (n in c0 && !c0[n].checked))
  }

  /**
   * What one PrintSmallCells(top) does to the netlist: the same cells, no
   * visited or small mark cleared, no visited cell but top changed, and
   * the lines it prints appended, each for a distinct fresh cell.
   */
  predicate Progress(c0: map<string, Circuit>, e0: seq<Exclusion>, c1: map<string, Circuit>, e1: seq<Exclusion>,
                     top: string) {
    && c1.Keys == c0.Keys
    && (forall n :: n in c0 && c0[n].checked ==> c1[n].checked)
    && (forall n :: n in c0 && c0[n].small ==> c1[n].small)
    && (forall n :: n in c0 && c0[n].checked && n != top ==> c1[n] == c0[n])
    && |e0| <= |e1| && e1[..|e0|] == e0
    && (forall k :: |e0| <= k < |e1| ==> Fresh(c0, c1, e1[k].cell, top))
    && (forall k, l :: |e0| <= k < l < |e1| ==> e1[k].cell != e1[l].cell)
  }

  lemma ProgressShrinks(c0: map<string, Circuit>, e0: seq<Exclusion>, c1: map<string, Circuit>, e1: seq<Exclusion>,
                        top: string)
    requires Progress(c0, e0, c1, e1, top)
    ensures UncheckedIn(c1) <= UncheckedIn(c0)
  {
  }

  lemma MarkShrinks(c: map<string, Circuit>, top: string, v: Circuit)
    requires v.checked
    ensures UncheckedIn(c[top := v]) == UncheckedIn(c) - {top}
  {
  }

  /** Visiting an unvisited child inside a run rooted at a visited top extends the run. */
  lemma ProgressChild(c0: map<string, Circuit>, e0: seq<Exclusion>, c1: map<string, Circuit>, e1: seq<Exclusion>,
                      c2: map<string, Circuit>, e2: seq<Exclusion>, top: string, name: string)
    requires Progress(c0, e0, c1, e1, top) && Progress(c1, e1, c2, e2, name)
    requires top in c1 && c1[top].checked && name in c1 && !c1[name].checked
    requires forall k :: |e0| <= k < |e1| ==> e1[k].cell != top
    ensures Progress(c0, e0, c2, e2, top)
    ensures forall k :: |e0| <= k < |e2| ==> e2[k].cell != top
  {
    assert e2[..|e0|] == e2[..|e1|][..|e0|];
    forall k | |e0| <= k < |e2|
      ensures Fresh(c0, c2, e2[k].cell, top) && e2[k].cell != top
    {
      if k < |e1| {
        assert e2[k] == e1[k];
      } else {
        assert Fresh(c1, c2, e2[k].cell, name);
      }
    }
    forall k, l | |e0| <= k < l < |e2|
      ensures e2[k].cell != e2[l].cell
    {
      if l < |e1| {
        assert e2[k] == e1[k] && e2[l] == e1[l];
      } else if k < |e1| {
        assert e2[k] == e1[k];
        assert Fresh(c0, c1, e1[k].cell, top);
        assert Fresh(c1, c2, e2[l].cell, name);
      }
    }
  }

  /** Replacing top's record by one with the same marks, after nothing printed top, keeps the run. */
  lemma ProgressTop(c0: map<string, Circuit>, e0: seq<Exclusion>, c1: map<string, Circuit>, e1: seq<Exclusion>,
                    top: string, v: Circuit)
    requires Progress(c0, e0, c1, e1, top) && top in c1
    requires v.checked == c1[top].checked && v.small == c1[top].small
    requires forall k :: |e0| <= k < |e1| ==> e1[k].cell != top
    ensures Progress(c0, e0, c1[top := v], e1, top)
  {
    forall k | |e0| <= k < |e1|
      ensures Fresh(c0, c1[top := v], e1[k].cell, top)
    {
      assert Fresh(c0, c1, e1[k].cell, top);
    }
  }

  /** The decision on top closes the run: top may be printed once more, marked small. */
  lemma ProgressDecide(c0: map<string, Circuit>, e0: seq<Exclusion>, c1: map<string, Circuit>, e1: seq<Exclusion>,
                       top: string, c2: map<string, Circuit>, e2: seq<Exclusion>)
    requires Progress(c0, e0, c1, e1, top) && top in c1 && c1[top].checked
    requires forall k :: |e0| <= k < |e1| ==> e1[k].cell != top
    requires (c2 == c1[top := c1[top].(small := true)] && |e2| == |e1| + 1 && e2[..|e1|] == e1 && e2[|e1|].cell == top)
             || (c2 == c1 && e2 == e1)
    ensures Progress(c0, e0, c2, e2, top)
  {
    if c2 != c1 {
      assert e2[..|e0|] == e2[..|e1|][..|e0|];
      forall k | |e0| <= k < |e2|
        ensures Fresh(c0, c2, e2[k].cell, top)
      {
        if k < |e1| {
          assert e2[k] == e1[k];
          assert Fresh(c0, c1, e1[k].cell, top);
        }
      }
      forall k, l | |e0| <= k < l < |e2|
        ensures e2[k].cell != e2[l].cell
      {
        assert e2[k] == e1[k];
        if l < |e1| {
          assert e2[l] == e1[l];
        }
      }
    }
  }

  /** A run rooted at an unvisited child, seen from a visited top: nothing it prints is top. */
  lemma ProgressRetop(c0: map<string, Circuit>, e0: seq<Exclusion>, c1: map<string, Circuit>, e1: seq<Exclusion>,
                      name: string, top: string)
    requires Progress(c0, e0, c1, e1, name) && name in c0 && !c0[name].checked && top in c0 && c0[top].checked
    ensures Progress(c0, e0, c1, e1, top)
    ensures forall k :: |e0| <= k < |e1| ==> e1[k].cell != top
  {
    forall k | |e0| <= k < |e1|
      ensures Fresh(c0, c1, e1[k].cell, top) && e1[k].cell != top
    {
      assert Fresh(c0, c1, e1[k].cell, name);
    }
  }

  /** Two runs rooted at the same visited top, the first not printing top, make one run. */
  lemma ProgressTrans(c0: map<string, Circuit>, e0: seq<Exclusion>, c1: map<string, Circuit>, e1: seq<Exclusion>,
                      c2: map<string, Circuit>, e2: seq<Exclusion>, top: string)
    requires Progress(c0, e0, c1, e1, top) && Progress(c1, e1, c2, e2, top)
    requires forall k :: |e0| <= k < |e1| ==> e1[k].cell != top
    ensures Progress(c0, e0, c2, e2, top)
  {
    assert e2[..|e0|] == e2[..|e1|][..|e0|];
    forall k | |e0| <= k < |e2|
      ensures Fresh(c0, c2, e2[k].cell, top)
    {
      if k < |e1| {
        assert e2[k] == e1[k];
        assert Fresh(c0, c1, e1[k].cell, top);
      } else {
        assert Fresh(c1, c2, e2[k].cell, top);
      }
    }
    forall k, l | |e0| <= k < l < |e2|
      ensures e2[k].cell != e2[l].cell
    {
      if l < |e1| {
        assert e2[k] == e1[k] && e2[l] == e1[l];
      } else if k < |e1| {
        assert e2[k] == e1[k];
        assert Fresh(c0, c1, e1[k].cell, top);
        assert Fresh(c1, c2, e2[l].cell, top);
      }
    }
  }

  /**
   * How one PrintSmallCells(top) leaves top: its record is SmashedAll over
   * its instance names, marked small exactly when SmashFlag holds for the
   * merged counts, and then its exclusion line is the last one printed;
   * otherwise no line printed names it.
   */
  predicate Decided(c0: map<string, Circuit>, e0: seq<Exclusion>, c1: map<string, Circuit>, e1: seq<Exclusion>,
                    top: string, overrides: map<string, Override>, boxes: set<string>, parameterized: set<string>) {
    && top in c0 && top in c1
    && var merged := SmashedAll(c0[top].(checked := true), Names(c0[top].instances), c1, top, boxes, parameterized);
       DecidedAs(merged, c1[top := merged], c1[top], e0, e1, top, overrides, boxes, parameterized)
  }

  /** The decision on the merged record merged, with the other cells as in cells, left top as after and printed e1 after e0. */
  predicate DecidedAs(merged: Circuit, cells: map<string, Circuit>, after: Circuit, e0: seq<Exclusion>,
                      e1: seq<Exclusion>, top: string, overrides: map<string, Override>, boxes: set<string>,
                      parameterized: set<string>) {
    var counted := LargeInstances(merged.instances, cells);
    var smash := SmashFlag(top, overrides, counted, |merged.mosModels|, Total(merged.mosModels),
                           merged.resistorCount, top in boxes && top in parameterized);
    && after == (if smash then merged.(small := true) else merged)
    && (smash ==>
          && |e1| > |e0|
          && e1[|e1| - 1] == Exclusion(top, counted, |merged.mosModels|, Total(merged.mosModels),
                                       merged.resistorCount, merged.otherCount))
    && (!smash ==> forall k :: |e0| <= k < |e1| ==> e1[k].cell != top)
  }

  /** What DecideCell leaves is DecidedAs on the record it decided. */
  lemma DecideCellOutcome(cb: map<string, Circuit>, eb: seq<Exclusion>, c1: map<string, Circuit>, e1: seq<Exclusion>,
                          e0: seq<Exclusion>, top: string, overrides: map<string, Override>, boxes: set<string>,
                          parameterized: set<string>, smash: bool)
    requires top in cb && |e0| <= |eb| && forall k :: |e0| <= k < |eb| ==> eb[k].cell != top
    requires var c := cb[top];
      var counted := LargeInstances(c.instances, cb);
      && smash == SmashFlag(top, overrides, counted, |c.mosModels|, Total(c.mosModels), c.resistorCount,
                            top in boxes && top in parameterized)
      && c1 == (if smash then cb[top := c.(small := true)] else cb)
      && e1 == eb + if smash then
           [Exclusion(top, counted, |c.mosModels|, Total(c.mosModels), c.resistorCount, c.otherCount)]
         else []
    ensures top in c1 && DecidedAs(cb[top], cb, c1[top], e0, e1, top, overrides, boxes, parameterized)
  {
    if !smash {
      assert e1 == eb;
    }
  }

  /** The decision after the smash loop establishes Decided. */
  lemma DecidedAfterLoop(c0: map<string, Circuit>, e0: seq<Exclusion>, cb: map<string, Circuit>, eb: seq<Exclusion>,
                         c1: map<string, Circuit>, e1: seq<Exclusion>, top: string, overrides: map<string, Override>,
                         boxes: set<string>, parameterized: set<string>)
    requires top in c0 && top in cb && top in c1 && cb.Keys == c1.Keys
    requires cb[top] == SmashedAll(c0[top].(checked := true), Names(c0[top].instances), cb, top, boxes, parameterized)
    requires forall n :: n in cb && n != top ==> c1[n] == cb[n]
    requires DecidedAs(cb[top], cb, c1[top], e0, e1, top, overrides, boxes, parameterized)
    ensures Decided(c0, e0, c1, e1, top, overrides, boxes, parameterized)
  {
    SmashedAllFrame(c0[top].(checked := true), Names(c0[top].instances), cb, c1, top, boxes, parameterized);
    RestoreTop(cb, c1, top);
  }

  /** A map that differs from cb only at top becomes cb again once top is put back. */
  lemma RestoreTop(cb: map<string, Circuit>, c1: map<string, Circuit>, top: string)
    requires top in cb && cb.Keys == c1.Keys && forall n :: n in cb && n != top ==> c1[n] == cb[n]
    ensures c1[top := cb[top]] == cb
  {
  }

  /** Marking top visited, then a run rooted at top, is one run rooted at top that does not print top before its decision. */
  lemma ProgressMark(c0: map<string, Circuit>, e0: seq<Exclusion>, c1: map<string, Circuit>,
                     c2: map<string, Circuit>, e2: seq<Exclusion>, top: string)
    requires top in c0 && c1 == c0[top := c0[top].(checked := true)]
    requires Progress(c1, e0, c2, e2, top) && forall k :: |e0| <= k < |e2| ==> e2[k].cell != top
    ensures Progress(c0, e0, c2, e2, top) && top in c2 && c2[top].checked
    ensures forall k :: |e0| <= k < |e2| ==> e2[k].cell != top
  {
    assert Progress(c0, e0, c1, e0, top);
    ProgressTrans(c0, e0, c1, e0, c2, e2, top);
  }

  class Netlist {
    var cells: map<string, Circuit>
    var boxes: set<string>
    var parameterized: set<string>
    var excluded: seq<Exclusion>

    /** The cells PrintSmallCells has not visited yet. */
    function Unchecked(): set<string>
      reads this
    {
      UncheckedIn(cells)
    }

    /** The loop over the child's instances. */
    method AddInstances(instances: seq<Entry>, add: seq<Entry>, name: string) returns (r: seq<Entry>)
      ensures r == AddScaled(instances, add, name)
    {
      r := instances;
      var i := 0;
      while i < |add|
        invariant i <= |add|
        invariant AddScaled(r, add[i..], name) == AddScaled(instances, add, name)
      {
        assert add[i..][1..] == add[i + 1..];
        r := AddCount(r, add[i].name, add[i].count * CountOf(r, name));
        i := i + 1;
      }
    }

    /** The loop over the child's MOS models, each count times m. */
    method AddModels(models: seq<Entry>, add: seq<Entry>, m: nat) returns (r: seq<Entry>)
      ensures r == AddAll(models, add, m)
    {
      r := models;
      var i := 0;
      while i < |add|
        invariant i <= |add|
        invariant AddAll(r, add[i..], m) == AddAll(models, add, m)
      {
        assert add[i..][1..] == add[i + 1..];
        r := AddCount(r, add[i].name, add[i].count * m);
        i := i + 1;
      }
    }

    /** Smashing one small child into the parent record, on values. */
    method Smash(parent: Circuit, child: Circuit, name: string) returns (r: Circuit)
      ensures r == SmashChild(parent, child, name)
    {
      var instances := AddInstances(parent.instances, child.instances, name);
      var m := CountOf(instances, name);
      var models := AddModels(parent.mosModels, child.mosModels, m);
      r := parent.(
        instances := Remove(instances, name), mosModels := models,
        resistorCount := parent.resistorCount + child.resistorCount * m,
        otherCount := parent.otherCount + child.otherCount * m);
    }

    /** The decision half of PrintSmallCells for cell top, lines 245-278 of the script. */
    method DecideCell(overrides: map<string, Override>, top: string) returns (smash: bool)
      requires top in cells
      modifies `cells, `excluded
      ensures var c := old(cells)[top];
        var counted := LargeInstances(c.instances, old(cells));
        && smash == SmashFlag(top, overrides, counted, |c.mosModels|, Total(c.mosModels), c.resistorCount,
                              top in boxes && top in parameterized)
        && cells == (if smash then old(cells)[top := c.(small := true)] else old(cells))
        && excluded == old(excluded) + if smash then
             [Exclusion(top, counted, |c.mosModels|, Total(c.mosModels), c.resistorCount, c.otherCount)]
           else []
    {
      var c := cells[top];
      var instanceCount := 0;
      var i := |c.instances|;
      while i > 0
        invariant 0 <= i <= |c.instances|
        invariant instanceCount == LargeInstances(c.instances[i..], cells)
      {
        i := i - 1;
        assert c.instances[i..][1..] == c.instances[i + 1..];
        if c.instances[i].name in cells && !cells[c.instances[i].name].small {
          instanceCount := instanceCount + c.instances[i].count;
        }
      }
      var mosCount := 0;
      i := |c.mosModels|;
      while i > 0
        invariant 0 <= i <= |c.mosModels|
        invariant mosCount == Total(c.mosModels[i..])
      {
        i := i - 1;
        assert c.mosModels[i..][1..] == c.mosModels[i + 1..];
        mosCount := mosCount + c.mosModels[i].count;
      }
      smash := SmashFlag(top, overrides, instanceCount, |c.mosModels|, mosCount, c.resistorCount,
                         top in boxes && top in parameterized);
      if smash {
        cells := cells[top := c.(small := true)];
        excluded := excluded + [Exclusion(top, instanceCount, |c.mosModels|, mosCount, c.resistorCount, c.otherCount)];
      }
    }

    /** The recursive visit of an unvisited child, seen from its visited parent top. */
    method VisitFirst(overrides: map<string, Override>, top: string, name: string, ghost start: Circuit,
                      ghost names: seq<string>, ghost i: nat)
      requires i <= |names| && name in cells && !cells[name].checked && top in cells && cells[top].checked
      requires forall j :: 0 <= j < i && names[j] in cells ==> cells[names[j]].checked
      modifies `cells, `excluded
      ensures top in cells && cells[top] == old(cells)[top] && name in cells && cells[name].checked
      ensures forall j :: 0 <= j < i && names[j] in cells ==> cells[names[j]].checked
      ensures SmashedAll(start, names[..i], cells, top, boxes, parameterized)
           == SmashedAll(start, names[..i], old(cells), top, boxes, parameterized)
      ensures Progress(old(cells), old(excluded), cells, excluded, top)
      ensures forall k :: |old(excluded)| <= k < |excluded| ==> excluded[k].cell != top
      ensures Unchecked() <= old(Unchecked())
      decreases Unchecked(), 1
    {
      ghost var before := cells;
      ghost var beforeExcluded := excluded;
      var _ := PrintSmallCells(overrides, name);
      ProgressRetop(before, beforeExcluded, cells, excluded, name, top);
      ProgressShrinks(before, beforeExcluded, cells, excluded, name);
      SmashedAllVisit(start, names, i, before, beforeExcluded, cells, excluded, top, name, boxes, parameterized);
    }

    /**
     * One pass of PrintSmallCells' loop over top's instances, for names[i]:
     * a child the netlist does not define is skipped; an unvisited child
     * is visited first; a small child that is not a parameterized box is
     * then smashed into top.
     */
    method VisitChild(overrides: map<string, Override>, top: string, name: string, ghost start: Circuit,
                      ghost names: seq<string>, ghost i: nat)
      requires i < |names| && names[i] == name && top in cells && cells[top].checked
      requires cells[top] == SmashedAll(start, names[..i], cells, top, boxes, parameterized)
      requires forall j :: 0 <= j < i && names[j] in cells ==> cells[names[j]].checked
      modifies `cells, `excluded
      ensures top in cells && cells[top].checked
      ensures cells[top] == SmashedAll(start, names[..i + 1], cells, top, boxes, parameterized)
      ensures forall j :: 0 <= j < i + 1 && names[j] in cells ==> cells[names[j]].checked
      ensures Progress(old(cells), old(excluded), cells, excluded, top)
      ensures forall k :: |old(excluded)| <= k < |excluded| ==> excluded[k].cell != top
      ensures Unchecked() <= old(Unchecked())
      decreases Unchecked(), 2
    {
      if name in cells {
        if !cells[name].checked {
          VisitFirst(overrides, top, name, start, names, i);
        }
        var child := cells[name];
        if child.small && !(name in boxes && name in parameterized) {
          var merged := Smash(cells[top], child, name);
          SmashKeeps(old(cells), old(excluded), cells, excluded, top, merged, start, names, i, boxes, parameterized);
          cells := cells[top := merged];
        } else {
          SmashSkips(start, names, i, cells, top, boxes, parameterized);
        }
      } else {
        SmashSkips(start, names, i, cells, top, boxes, parameterized);
      }
    }

    /**
     * PrintSmallCells(top): mark top visited, visit its unvisited children
     * first, smash every small child (other than a parameterized box) into
     * it, then decide top. A top the netlist does not define is a KeyError.
     * Each call changes only cells it visits, never clears a visited or
     * small mark, and prints each cell at most once. Top ends as SmashedAll
     * leaves it, marked small and printed last exactly when SmashFlag holds
     * for its merged counts.
     */
    method PrintSmallCells(overrides: map<string, Override>, top: string) returns (failure: Option<Failure>)
      modifies `cells, `excluded
      ensures failure.Some? <==> top !in old(cells)
      ensures failure.Some? ==> failure == Some(KeyError) && cells == old(cells) && excluded == old(excluded)
      ensures top in cells ==> cells[top].checked
      ensures Progress(old(cells), old(excluded), cells, excluded, top)
      ensures failure.None? ==> Decided(old(cells), old(excluded), cells, excluded, top, overrides, boxes, parameterized)
      decreases Unchecked() + {top}, 0
    {
      if top !in cells {
        return Some(KeyError);
      }
      failure := None;
      ghost var entry := cells;
      ghost var printed := excluded;
      cells := cells[top := cells[top].(checked := true)];
      MarkShrinks(entry, top, cells[top]);
      ghost var marked := cells;
      SmashChildren(overrides, top, Names(cells[top].instances));
      ProgressMark(entry, printed, marked, cells, excluded, top);
      ghost var beforeDecision := cells;
      ghost var beforeExcluded := excluded;
      var smash := DecideCell(overrides, top);
      ProgressDecide(entry, printed, beforeDecision, beforeExcluded, top, cells, excluded);
      DecideCellOutcome(beforeDecision, beforeExcluded, cells, excluded, printed, top, overrides, boxes,
                        parameterized, smash);
      DecidedAfterLoop(entry, printed, beforeDecision, beforeExcluded, cells, excluded, top, overrides, boxes,
                       parameterized);
    }

    /** The smash loop of PrintSmallCells over top's instance names, once top is marked visited. */
    method SmashChildren(overrides: map<string, Override>, top: string, names: seq<string>)
      requires top in cells && cells[top].checked
      modifies `cells, `excluded
      ensures top in cells && cells[top].checked
      ensures cells[top] == SmashedAll(old(cells)[top], names, cells, top, boxes, parameterized)
      ensures Progress(old(cells), old(excluded), cells, excluded, top)
      ensures forall k :: |old(excluded)| <= k < |excluded| ==> excluded[k].cell != top
      ensures Unchecked() <= old(Unchecked())
      decreases Unchecked(), 3
    {
      ghost var start := cells[top];
      var i := 0;
      while i < |names|
        invariant i <= |names|
        invariant top in cells && cells[top].checked
        invariant cells[top] == SmashedAll(start, names[..i], cells, top, boxes, parameterized)
        invariant forall j :: 0 <= j < i && names[j] in cells ==> cells[names[j]].checked
        invariant Progress(old(cells), old(excluded), cells, excluded, top)
        invariant forall k :: |old(excluded)| <= k < |excluded| ==> excluded[k].cell != top
        invariant Unchecked() <= old(Unchecked())
      {
        ghost var before := cells;
        ghost var beforeExcluded := excluded;
        VisitChild(overrides, top, names[i], start, names, i);
        ProgressTrans(old(cells), old(excluded), before, beforeExcluded, cells, excluded, top);
        i := i + 1;
      }
      assert names[..i] == names;
    }
  }
}
