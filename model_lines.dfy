/**
 * Model lines as they are written: a type token and a name, a diode list
 * "(1-3,2-3)" and a condition list "(L<0.4u w>=1.2u)". These lemmas read
 * such texts back through the parser of module Models and show that the
 * first token selects the type and the second becomes the name, that the
 * diode list is the written pairs in order, and that every written
 * condition lands in the condition list (or the cell filter) with its
 * parameter, relation and value.
 */
module ModelLines {
  import opened Outcomes
  import opened CppString
  import opened CvcTypes
  import opened Scan
  import opened Models
  import CvcUtil
  import ParameterMaps

  // ---- scanning over known text ----

  /** `FirstOf` stops at the first character of `chars`, or gives npos when none follows. */
  lemma {:induction false} FirstOfAt(s: string, chars: set<char>, from: nat, at: nat)
    requires |s| < NPOS && from <= at <= |s|
    requires forall i :: from <= i < at ==> s[i] !in chars
    requires at < |s| ==> s[at] in chars
    ensures FirstOf(s, chars, from) == if at == |s| then NPOS else at
    decreases at - from
  {
    if from < at {
      FirstOfAt(s, chars, from + 1, at);
    }
  }

  /** `FirstNotOf` stops at the first character outside `chars`, or gives npos when none follows. */
  lemma {:induction false} FirstNotOfAt(s: string, chars: set<char>, from: nat, at: nat)
    requires |s| < NPOS && from <= at <= |s|
    requires forall i :: from <= i < at ==> s[i] in chars
    requires at < |s| ==> s[at] !in chars
    ensures FirstNotOf(s, chars, from) == if at == |s| then NPOS else at
    decreases at - from
  {
    if from < at {
      FirstNotOfAt(s, chars, from + 1, at);
    }
  }

  /** A non-empty text none of whose characters is in `stops`. */
  predicate Word(w: string, stops: set<char>) {
    w != [] && forall i :: 0 <= i < |w| ==> w[i] !in stops
  }

  /** A word free of blanks trims to itself. */
  lemma TrimWord(w: string, stops: set<char>)
    requires Word(w, stops) && ' ' in stops && '\t' in stops && '\n' in stops && |w| < NPOS
    ensures CvcUtil.Trim(w) == Ok(w)
  {
    assert [] + w + [] == w;
    CvcUtil.TrimPadded([], w, []);
  }

  /** Cutting a text that starts at `at` with x, y and z. */
  lemma Cut(s: string, at: nat, x: string, y: string, z: string, tail: string)
    requires at <= |s| && s[at..] == x + y + z + tail
    ensures at + |x| + |y| + |z| + |tail| == |s|
    ensures s[at..at + |x|] == x && s[at + |x|..at + |x| + |y|] == y
    ensures s[at + |x| + |y|..at + |x| + |y| + |z|] == z && s[at + |x| + |y| + |z|..] == tail
  {
    var t := s[at..];
    assert t[..|x|] == x;
    assert t[|x|..|x| + |y|] == y;
    assert t[|x| + |y|..|x| + |y| + |z|] == z;
    assert t[|x| + |y| + |z|..] == tail;
  }

  /** The characters of a slice that equals a word avoid the word's stops. */
  lemma SliceWord(s: string, from: nat, to: nat, w: string, stops: set<char>)
    requires from <= to <= |s| && s[from..to] == w && Word(w, stops)
    ensures forall i :: from <= i < to ==> s[i] !in stops
  {
    forall i | from <= i < to
      ensures s[i] !in stops
    {
      assert s[i] == w[i - from];
    }
  }

  // ---- the type token and the name ----

  /**
   * A line "TYPE NAME..." whose first token names a model type: the header
   * has that type, its base type and the second token as the name, and the
   * parameters start at the first non-blank after the name.
   */
  lemma HeaderOfLine(typeText: string, name: string, rest: string, t: ModelType)
    requires Word(typeText, BLANK) && Word(name, BLANK) && TypeNamed(typeText) == Some(t)
    requires rest == [] || rest[0] in BLANK
    requires |typeText + " " + name + rest| < NPOS
    ensures var line := typeText + " " + name + rest;
      t != UNKNOWN
      && HeaderOf(line) == Ok(Header(Initial(t, typeText, name), FirstNotOf(line, BLANK, |typeText| + 1 + |name|)))
  {
    var line := typeText + " " + name + rest;
    LineTokens(line, typeText, name, rest);
    HeaderAt(line, |typeText|, |typeText| + 1 + |name|, typeText, name, t);
  }

  /** Where the blanks around the two tokens of "TYPE NAME..." fall. */
  lemma LineTokens(line: string, typeText: string, name: string, rest: string)
    requires Word(typeText, BLANK) && Word(name, BLANK) && (rest == [] || rest[0] in BLANK)
    requires line == typeText + " " + name + rest && |line| < NPOS
    ensures var k, n := |typeText|, |typeText| + 1 + |name|;
      && n <= |line| && FirstNotOf(line, BLANK, 0) == 0 && FirstOf(line, BLANK, 0) == k && line[0..k] == typeText
      && FirstNotOf(line, BLANK, k) == k + 1 && FirstOf(line, BLANK, k + 1) == (if n == |line| then NPOS else n)
      && line[k + 1..n] == name
  {
    var k := |typeText|;
    var n := k + 1 + |name|;
    Cut(line, 0, typeText, " ", name, rest);
    SliceWord(line, 0, k, typeText, BLANK);
    SliceWord(line, k + 1, n, name, BLANK);
    FirstNotOfAt(line, BLANK, 0, 0);
    FirstOfAt(line, BLANK, 0, k);
    FirstNotOfAt(line, BLANK, k, k + 1);
    FirstOfAt(line, BLANK, k + 1, n);
  }

  /** HeaderOf once the two tokens have been located. */
  lemma HeaderAt(s: string, k: nat, n: nat, typeText: string, name: string, t: ModelType)
    requires |s| < NPOS && k < n <= |s|
    requires FirstNotOf(s, BLANK, 0) == 0 && FirstOf(s, BLANK, 0) == k && s[0..k] == typeText
    requires FirstNotOf(s, BLANK, k) == k + 1 && FirstOf(s, BLANK, k + 1) == (if n == |s| then NPOS else n)
    requires s[k + 1..n] == name && TypeNamed(typeText) == Some(t)
    ensures t != UNKNOWN && HeaderOf(s) == Ok(Header(Initial(t, typeText, name), FirstNotOf(s, BLANK, n)))
  {
    assert Span(s, 0, k) == typeText;
    assert Span(s, k + 1, FirstOf(s, BLANK, k + 1)) == name;
    if n == |s| {
      assert FirstNotOf(s, BLANK, NPOS) == NPOS == FirstNotOf(s, BLANK, n);
    }
  }

  /** "TYPE NAME" alone parses to the initial model of that type and name with its default diodes. */
  lemma ParseTypeAndName(typeText: string, name: string, t: ModelType, number: Number)
    requires Word(typeText, BLANK) && Word(name, BLANK) && TypeNamed(typeText) == Some(t)
    requires |typeText + " " + name| < NPOS
    ensures t != UNKNOWN && Parse(typeText + " " + name, number) == Ok(DefaultDiodes(Initial(t, typeText, name)))
  {
    var line := typeText + " " + name;
    assert line + [] == line;
    HeaderOfLine(typeText, name, [], t);
    FirstNotOfAt(line, BLANK, |line|, |line|);
  }

  // ---- diode=(...) ----

  /** What may not occur inside an anode or a cathode for the pair to read back. */
  const PAIR_STOPS: set<char> := {'(', ')', ',', '-', ' ', '\t', '\n'}

  /** A written pair: two words, each a number. */
  predicate PairReadable(p: (string, string), number: Number) {
    Word(p.0, PAIR_STOPS) && Word(p.1, PAIR_STOPS) && number(p.0).Ok? && number(p.1).Ok?
  }

  /** "a-c,a-c,...,a-c" */
  function PairsText(ps: seq<(string, string)>): string
    requires ps != []
  {
    ps[0].0 + "-" + ps[0].1 + (if |ps| == 1 then "" else "," + PairsText(ps[1..]))
  }

  /** The diode a readable pair names. */
  function DiodeOf(p: (string, string), number: Number): (d: Diode)
    requires PairReadable(p, number)
    ensures Ok(d.anode) == number(p.0) && Ok(d.cathode) == number(p.1)
  {
    Diode(number(p.0).value, number(p.1).value)
  }

  /** The diodes the pairs name, in written order. */
  function Written(ps: seq<(string, string)>, number: Number): (r: seq<Diode>)
    requires forall i :: 0 <= i < |ps| ==> PairReadable(ps[i], number)
    ensures |r| == |ps|
  {
    if ps == [] then []
    else
      assert PairReadable(ps[0], number);
      [DiodeOf(ps[0], number)] + Written(ps[1..], number)
  }

  /** Written lists each pair's diode at the pair's own position. */
  lemma {:induction false} WrittenAt(ps: seq<(string, string)>, number: Number, i: nat)
    requires forall k :: 0 <= k < |ps| ==> PairReadable(ps[k], number)
    requires i < |ps|
    ensures PairReadable(ps[i], number) && Written(ps, number)[i] == DiodeOf(ps[i], number)
    decreases i
  {
    if i > 0 {
      WrittenAt(ps[1..], number, i - 1);
      assert ps[1..][i - 1] == ps[i];
    }
  }

  /** Where the first pair of `ps` ends when the pairs start at `begin`. */
  function PairEnd(ps: seq<(string, string)>, begin: nat): nat
    requires ps != []
  {
    begin + |ps[0].0| + 1 + |ps[0].1|
  }

  /** Reading one character past a known start. */
  lemma Past(s: string, at: nat, ch: char, rest: string)
    requires at <= |s| && s[at..] == [ch] + rest
    ensures at < |s| && s[at] == ch && s[at + 1..] == rest
  {
    assert s[at..][0] == ch;
    assert s[at..][1..] == rest;
  }

  /** The pair `p` written from `begin` on: its anode, '-', its cathode, followed by more text. */
  predicate PairHere(s: string, begin: nat, p: (string, string), number: Number) {
    && PairReadable(p, number)
    && var dash := begin + |p.0|;
    && var e := dash + 1 + |p.1|;
    && e < |s| && s[begin..dash] == p.0 && s[dash] == '-' && s[dash + 1..e] == p.1
  }

  /**
   * Where the pairs lie from `begin` on: each anode, then '-', then the
   * cathode, then ',' and the next pair, or the closing ')' that ends the text.
   */
  predicate PairsAt(s: string, begin: nat, ps: seq<(string, string)>, number: Number)
    decreases |ps|
  {
    && ps != [] && PairHere(s, begin, ps[0], number)
    && var e := PairEnd(ps, begin);
    && e < |s|
    && if |ps| == 1 then s[e] == ')' && e + 1 == |s|
       else s[e] == ',' && PairsAt(s, e + 1, ps[1..], number)
  }

  /** A pair written at `begin` and followed by `ch` and `rest`. */
  lemma PairHereText(s: string, begin: nat, p: (string, string), ch: char, rest: string, number: Number)
    requires PairReadable(p, number)
    requires begin <= |s| && s[begin..] == p.0 + "-" + p.1 + ([ch] + rest)
    ensures PairHere(s, begin, p, number)
    ensures var e := begin + |p.0| + 1 + |p.1|;
      e < |s| && s[e] == ch && s[e + 1..] == rest
  {
    Cut(s, begin, p.0, "-", p.1, [ch] + rest);
    assert s[begin + |p.0|..begin + |p.0| + 1] == "-";
    Past(s, begin + |p.0| + 1 + |p.1|, ch, rest);
  }

  /** Regrouping a list text: the head, then a separator, then the rest and the closing text. */
  lemma Regroup<T>(head: seq<T>, x: seq<T>, y: seq<T>, z: seq<T>)
    ensures head + (x + y) + z == head + (x + (y + z))
  {
  }

  /** The last pair of a text "a-c,...,a-c)", followed by the closing ')'. */
  lemma PairTextLast(s: string, begin: nat, ps: seq<(string, string)>, number: Number)
    requires |ps| == 1 && PairReadable(ps[0], number)
    requires begin <= |s| && s[begin..] == PairsText(ps) + ")"
    ensures PairHere(s, begin, ps[0], number) && PairEnd(ps, begin) < |s|
    ensures s[PairEnd(ps, begin)] == ')' && PairEnd(ps, begin) + 1 == |s|
  {
    var p := ps[0];
    assert PairsText(ps) + ")" == p.0 + "-" + p.1 + ([')'] + []);
    PairHereText(s, begin, p, ')', [], number);
  }

  /** A pair of a text "a-c,...,a-c)" before the last, followed by ',' and the rest. */
  lemma PairTextMore(s: string, begin: nat, ps: seq<(string, string)>, number: Number)
    requires |ps| > 1 && PairReadable(ps[0], number)
    requires begin <= |s| && s[begin..] == PairsText(ps) + ")"
    ensures PairHere(s, begin, ps[0], number) && PairEnd(ps, begin) < |s|
    ensures s[PairEnd(ps, begin)] == ',' && s[PairEnd(ps, begin) + 1..] == PairsText(ps[1..]) + ")"
  {
    PairsTextSplit(ps);
    PairHereText(s, begin, ps[0], ',', PairsText(ps[1..]) + ")", number);
  }

  /** The closed text of several pairs is the first one, ',', and the closed text of the rest. */
  lemma PairsTextSplit(ps: seq<(string, string)>)
    requires |ps| > 1
    ensures PairsText(ps) + ")" == ps[0].0 + "-" + ps[0].1 + ([','] + (PairsText(ps[1..]) + ")"))
  {
    var head := ps[0].0 + "-" + ps[0].1;
    assert PairsText(ps) == head + ("," + PairsText(ps[1..]));
    Regroup(head, ",", PairsText(ps[1..]), ")");
  }

  /** The text "a-c,...,a-c)" from `begin` on holds the pairs there. */
  lemma {:induction false} PairsTextAt(s: string, begin: nat, ps: seq<(string, string)>, number: Number)
    requires ps != [] && EachPairReadable(ps, number)
    requires begin <= |s| && s[begin..] == PairsText(ps) + ")"
    ensures PairsAt(s, begin, ps, number)
    decreases |ps|
  {
    if |ps| == 1 {
      PairTextLastAt(s, begin, ps, number);
    } else {
      var next := PairTextRest(s, begin, ps, number);
      PairsTextAt(s, next, ps[1..], number);
      PairTextMoreAt(s, begin, next, ps, number);
    }
  }

  /** The text of the last pair holds it. */
  lemma PairTextLastAt(s: string, begin: nat, ps: seq<(string, string)>, number: Number)
    requires |ps| == 1 && EachPairReadable(ps, number)
    requires begin <= |s| && s[begin..] == PairsText(ps) + ")"
    ensures PairsAt(s, begin, ps, number)
  {
    PairTextLast(s, begin, ps, number);
  }

  /** After a pair before the last, the text of the rest follows. */
  lemma PairTextRest(s: string, begin: nat, ps: seq<(string, string)>, number: Number) returns (next: nat)
    requires |ps| > 1 && EachPairReadable(ps, number)
    requires begin <= |s| && s[begin..] == PairsText(ps) + ")"
    ensures next == PairEnd(ps, begin) + 1 && next <= |s|
    ensures ps[1..] != [] && EachPairReadable(ps[1..], number) && s[next..] == PairsText(ps[1..]) + ")"
  {
    PairTextMore(s, begin, ps, number);
    next := PairEnd(ps, begin) + 1;
  }

  /** The text of a pair before the last, once the rest is known to hold the rest of the pairs. */
  lemma PairTextMoreAt(s: string, begin: nat, next: nat, ps: seq<(string, string)>, number: Number)
    requires |ps| > 1 && EachPairReadable(ps, number)
    requires begin <= |s| && s[begin..] == PairsText(ps) + ")"
    requires next == PairEnd(ps, begin) + 1 && PairsAt(s, next, ps[1..], number)
    ensures PairsAt(s, begin, ps, number)
  {
    PairTextMore(s, begin, ps, number);
    PairsAtMore(s, begin, ps, number);
  }

  /** A pair before the last, followed by ',' and the rest, starts the pairs. */
  lemma PairsAtMore(s: string, begin: nat, ps: seq<(string, string)>, number: Number)
    requires |ps| > 1 && PairHere(s, begin, ps[0], number) && PairEnd(ps, begin) < |s|
    requires s[PairEnd(ps, begin)] == ',' && PairsAt(s, PairEnd(ps, begin) + 1, ps[1..], number)
    ensures PairsAt(s, begin, ps, number)
  {
  }

  /** The pairs after the first lie after its ','. */
  lemma PairsAtRest(s: string, begin: nat, ps: seq<(string, string)>, number: Number)
    requires PairsAt(s, begin, ps, number) && |ps| > 1
    ensures PairsAt(s, PairEnd(ps, begin) + 1, ps[1..], number)
  {
  }

  /** The characters of a written pair: anode and cathode avoid the stops. */
  lemma PairSpans(s: string, begin: nat, p: (string, string), number: Number)
    requires PairHere(s, begin, p, number)
    ensures var dash := begin + |p.0|;
      && (forall i :: begin <= i < dash ==> s[i] !in PAIR_STOPS)
      && (forall i :: dash + 1 <= i < dash + 1 + |p.1| ==> s[i] !in PAIR_STOPS)
  {
    var dash := begin + |p.0|;
    SliceWord(s, begin, dash, p.0, PAIR_STOPS);
    SliceWord(s, dash + 1, dash + 1 + |p.1|, p.1, PAIR_STOPS);
  }

  /** The pair the loop meets at `begin` ends at the ',' or ')' after its cathode. */
  lemma PairBounds(s: string, begin: nat, ps: seq<(string, string)>, number: Number)
    requires |s| < NPOS && PairsAt(s, begin, ps, number)
    ensures var e := PairEnd(ps, begin);
      e < |s| && s[e] in DIODE_END && FirstOf(s, DIODE_END, begin) == e
  {
    PairSpans(s, begin, ps[0], number);
    FirstOfAt(s, DIODE_END, begin, PairEnd(ps, begin));
  }

  /** A diode whose anode and cathode texts are known words reads as their numbers. */
  lemma DiodeOfWords(s: string, begin: nat, dash: nat, end: nat, p: (string, string), number: Number)
    requires begin <= dash < end < |s| < NPOS && FirstOf(s, DASH, begin) == dash
    requires s[begin..dash] == p.0 && s[dash + 1..end] == p.1 && PairReadable(p, number)
    ensures DiodeAt(s, begin, end, number) == Ok(DiodeOf(p, number))
  {
    TrimWord(p.0, PAIR_STOPS);
    TrimWord(p.1, PAIR_STOPS);
    assert Span(s, begin, dash) == p.0 && Span(s, dash + 1, end) == p.1;
    DiodeAtTrimmed(s, begin, dash, end, p.0, p.1, number);
  }

  /** DiodeAt with both trimmed texts known. */
  lemma DiodeAtTrimmed(s: string, begin: nat, dash: nat, end: nat, a: string, c: string, number: Number)
    requires begin <= dash < end < |s| < NPOS && FirstOf(s, DASH, begin) == dash
    requires CvcUtil.Trim(Span(s, begin, dash)) == Ok(a) && CvcUtil.Trim(Span(s, dash + 1, end)) == Ok(c)
    requires number(a).Ok? && number(c).Ok?
    ensures DiodeAt(s, begin, end, number) == Ok(Diode(number(a).value, number(c).value))
  {
  }

  /** A written pair reads as its diode. */
  lemma PairReadHere(s: string, begin: nat, end: nat, p: (string, string), number: Number)
    requires |s| < NPOS && PairHere(s, begin, p, number) && end == begin + |p.0| + 1 + |p.1|
    ensures end < |s| && DiodeAt(s, begin, end, number) == Ok(DiodeOf(p, number))
  {
    var dash := begin + |p.0|;
    PairSpans(s, begin, p, number);
    FirstOfAt(s, DASH, begin, dash);
    DiodeOfWords(s, begin, dash, end, p, number);
  }

  /** After a pair the loop skips the separator: to the next pair, or past the end. */
  lemma PairNext(s: string, begin: nat, ps: seq<(string, string)>, number: Number)
    requires |s| < NPOS && PairsAt(s, begin, ps, number)
    ensures var e := PairEnd(ps, begin);
      FirstNotOf(s, DIODE_END, e) == if |ps| == 1 then NPOS else e + 1
  {
    var e := PairEnd(ps, begin);
    if |ps| == 1 {
      FirstNotOfAt(s, DIODE_END, e, |s|);
    } else {
      var next := ps[1];
      assert ps[1..][0] == next;
      assert s[e + 1..e + 1 + |next.0|] == next.0;
      assert s[e + 1] == next.0[0];
      FirstNotOfAt(s, DIODE_END, e, e + 1);
    }
  }

  /** The last pass of SetDiodes' loop: the last diode appended, and the loop ends. */
  lemma PairLast(m: Model, m': Model, s: string, begin: nat, ps: seq<(string, string)>, number: Number)
    requires |s| < NPOS && PairsAt(s, begin, ps, number) && |ps| == 1
    requires m' == m.(diodes := m.diodes + [DiodeOf(ps[0], number)])
    ensures DiodesFrom(m, s, begin, PairEnd(ps, begin), number) == Ok(m')
  {
    PairBounds(s, begin, ps, number);
    PairReadHere(s, begin, PairEnd(ps, begin), ps[0], number);
    PairNext(s, begin, ps, number);
    DiodesStep(m, s, begin, PairEnd(ps, begin), number, DiodeOf(ps[0], number));
  }

  /** A pass of SetDiodes' loop before the last: the diode appended, and the loop moves past the ','. */
  lemma PairStep(m: Model, m': Model, s: string, begin: nat, ps: seq<(string, string)>, number: Number)
    requires |s| < NPOS && PairsAt(s, begin, ps, number) && |ps| > 1
    requires m' == m.(diodes := m.diodes + [DiodeOf(ps[0], number)])
    ensures DiodesFrom(m, s, begin, PairEnd(ps, begin), number)
         == DiodesFrom(m', s, PairEnd(ps, begin) + 1, FirstOf(s, DIODE_END, PairEnd(ps, begin) + 1), number)
  {
    PairBounds(s, begin, ps, number);
    PairReadHere(s, begin, PairEnd(ps, begin), ps[0], number);
    PairNext(s, begin, ps, number);
    DiodesStep(m, s, begin, PairEnd(ps, begin), number, DiodeOf(ps[0], number));
  }

  /** Every pair readable, stated one pair at a time. */
  predicate EachPairReadable(ps: seq<(string, string)>, number: Number) {
    ps == [] || (PairReadable(ps[0], number) && EachPairReadable(ps[1..], number))
  }

  lemma {:induction false} EachPairReadableAll(ps: seq<(string, string)>, number: Number)
    requires forall i :: 0 <= i < |ps| ==> PairReadable(ps[i], number)
    ensures EachPairReadable(ps, number)
    decreases |ps|
  {
    if ps != [] {
      ReadableRest(ps, number);
      EachPairReadableAll(ps[1..], number);
    }
  }

  /** The pairs after the first are readable when all are. */
  lemma ReadableRest(ps: seq<(string, string)>, number: Number)
    requires ps != [] && forall i :: 0 <= i < |ps| ==> PairReadable(ps[i], number)
    ensures forall i :: 0 <= i < |ps[1..]| ==> PairReadable(ps[1..][i], number)
  {
    assert forall i :: 0 <= i < |ps[1..]| ==> ps[1..][i] == ps[i + 1];
  }

  /** Written lists the first pair's diode, then the rest's. */
  lemma WrittenStep(ps: seq<(string, string)>, number: Number)
    requires ps != [] && forall i :: 0 <= i < |ps| ==> PairReadable(ps[i], number)
    ensures forall i :: 0 <= i < |ps[1..]| ==> PairReadable(ps[1..][i], number)
    ensures Written(ps, number) == [DiodeOf(ps[0], number)] + Written(ps[1..], number)
  {
    ReadableRest(ps, number);
  }

  /** A pass before the last, once the passes after it are known to append the rest. */
  lemma DiodesFromNext(m: Model, m': Model, s: string, begin: nat, next: nat, ps: seq<(string, string)>, number: Number)
    requires |s| < NPOS && PairsAt(s, begin, ps, number) && |ps| > 1
    requires forall i :: 0 <= i < |ps| ==> PairReadable(ps[i], number)
    requires m' == m.(diodes := m.diodes + [DiodeOf(ps[0], number)])
    requires next == PairEnd(ps, begin) + 1 <= |s|
    requires forall i :: 0 <= i < |ps[1..]| ==> PairReadable(ps[1..][i], number)
    requires PairEnd(ps[1..], next) < |s| && s[PairEnd(ps[1..], next)] in DIODE_END
    requires DiodesFrom(m', s, next, PairEnd(ps[1..], next), number) == Ok(m'.(diodes := m'.diodes + Written(ps[1..], number)))
    ensures DiodesFrom(m, s, begin, PairEnd(ps, begin), number) == Ok(m.(diodes := m.diodes + Written(ps, number)))
  {
    PairsAtRest(s, begin, ps, number);
    PairBounds(s, next, ps[1..], number);
    PairStep(m, m', s, begin, ps, number);
    WrittenStep(ps, number);
    Assoc(m.diodes, [DiodeOf(ps[0], number)], Written(ps[1..], number));
  }

  /** SetDiodes' loop over the pairs appends their diodes, in order. */
  lemma {:induction false} DiodesFromPairs(m: Model, s: string, begin: nat, ps: seq<(string, string)>, number: Number)
    requires |s| < NPOS && PairsAt(s, begin, ps, number)
    requires forall i :: 0 <= i < |ps| ==> PairReadable(ps[i], number)
    ensures PairEnd(ps, begin) < |s| && s[PairEnd(ps, begin)] in DIODE_END
    ensures DiodesFrom(m, s, begin, PairEnd(ps, begin), number) == Ok(m.(diodes := m.diodes + Written(ps, number)))
    decreases |ps|
  {
    PairBounds(s, begin, ps, number);
    var m' := m.(diodes := m.diodes + [DiodeOf(ps[0], number)]);
    WrittenStep(ps, number);
    if |ps| == 1 {
      PairLast(m, m', s, begin, ps, number);
      assert Written(ps, number) == [DiodeOf(ps[0], number)];
    } else {
      var next := PairEnd(ps, begin) + 1;
      PairsAtRest(s, begin, ps, number);
      DiodesFromPairs(m', s, next, ps[1..], number);
      DiodesFromNext(m, m', s, begin, next, ps, number);
    }
  }

  lemma Assoc<T>(a: seq<T>, b: seq<T>, c: seq<T>)
    ensures a + b + c == a + (b + c)
  {
  }

  /** SetDiodes over pairs written from position 1 on appends them all, in order. */
  lemma WithDiodesAt(m: Model, s: string, ps: seq<(string, string)>, number: Number)
    requires |s| < NPOS && FirstNotOf(s, DIODE_OPEN, 0) == 1 && PairsAt(s, 1, ps, number)
    requires forall i :: 0 <= i < |ps| ==> PairReadable(ps[i], number)
    ensures WithDiodes(m, s, number) == Ok(m.(diodes := Written(ps, number)))
  {
    PairBounds(s, 1, ps, number);
    DiodesFromPairs(m.(diodes := []), s, 1, ps, number);
    assert [] + Written(ps, number) == Written(ps, number);
  }

  /** SetDiodes on "(a-c,...,a-c)" replaces the diode list by the written pairs, in order. */
  lemma WithDiodesWritten(m: Model, ps: seq<(string, string)>, number: Number)
    requires ps != [] && forall i :: 0 <= i < |ps| ==> PairReadable(ps[i], number)
    requires |"(" + PairsText(ps) + ")"| < NPOS
    ensures WithDiodes(m, "(" + PairsText(ps) + ")", number) == Ok(m.(diodes := Written(ps, number)))
  {
    var s := "(" + PairsText(ps) + ")";
    assert PairReadable(ps[0], number);
    ListText(s, PairsText(ps), DIODE_OPEN);
    EachPairReadableAll(ps, number);
    PairsTextAt(s, 1, ps, number);
    WithDiodesAt(m, s, ps, number);
  }

  /** A list "(" + body + ")" as the parsers scan it: the body starts at 1, after the '('. */
  lemma ListText(s: string, body: string, open: set<char>)
    requires s == "(" + body + ")" && body != [] && body[0] !in open && '(' in open && |s| < NPOS
    ensures s[1..] == body + ")" && FirstNotOf(s, open, 0) == 1
  {
    assert s[1] == body[0];
    FirstNotOfAt(s, open, 0, 1);
  }

  // ---- condition=(...) ----

  /** What may not occur inside a written parameter name or value. */
  const CONDITION_STOPS: set<char> := {'<', '=', '>', '(', ')', ',', ' ', '\t', '\n'}

  /** A written condition: a name, a run of relation characters and a value. */
  predicate ConditionReadable(c: Condition) {
    && Word(c.parameter, CONDITION_STOPS) && Word(c.value, CONDITION_STOPS)
    && c.relation != [] && forall i :: 0 <= i < |c.relation| ==> c.relation[i] in RELATION
  }

  /** Every condition but a `CELL=` filter has a value that converts to a number. */
  predicate ValuesConvert(cs: seq<Condition>) {
    forall i :: 0 <= i < |cs| ==> IsCellFilter(cs[i]) || NormalValueFailure(cs[i].value) == None
  }

  /** "name<rel>value name<rel>value ..." */
  function ConditionsText(cs: seq<Condition>): string
    requires cs != []
  {
    cs[0].parameter + cs[0].relation + cs[0].value + (if |cs| == 1 then "" else " " + ConditionsText(cs[1..]))
  }

  /** The condition as the parser stores it: its name upper-cased. */
  function Stored(c: Condition): (r: Condition)
    ensures r.relation == c.relation && r.value == c.value && r.parameter == ParameterMaps.ToUpper(c.parameter)
  {
    c.(parameter := ParameterMaps.ToUpper(c.parameter))
  }

  /** The model after routing the written conditions in order. */
  function RoutedAll(m: Model, cs: seq<Condition>): Model
    decreases |cs|
  {
    if cs == [] then m else RoutedAll(Routed(m, Stored(cs[0])), cs[1..])
  }

  /** A `CELL=` condition, after upper-casing. */
  predicate IsCellFilter(c: Condition) {
    Stored(c).parameter == "CELL" && c.relation == "="
  }

  /** The stored conditions that are not cell filters, in written order. */
  function Listed(cs: seq<Condition>): (r: seq<Condition>)
    ensures |r| <= |cs|
  {
    if cs == [] then []
    else (if IsCellFilter(cs[0]) then [] else [Stored(cs[0])]) + Listed(cs[1..])
  }

  /** The value of the last cell filter written, if any. */
  function LastFilter(cs: seq<Condition>, current: Option<string>): Option<string>
    decreases |cs|
  {
    if cs == [] then current
    else LastFilter(cs[1..], if IsCellFilter(cs[0]) then Some(cs[0].value) else current)
  }

  /**
   * Routing the written conditions appends exactly the non-filter ones, in
   * order and upper-cased, and leaves the last `CELL=` value as the filter;
   * nothing else of the model changes.
   */
  lemma {:induction false} RoutedAllMeaning(m: Model, cs: seq<Condition>)
    ensures RoutedAll(m, cs) == m.(conditions := m.conditions + Listed(cs), cellFilter := LastFilter(cs, m.cellFilter))
    decreases |cs|
  {
    if cs != [] {
      var c := cs[0];
      var m' := Routed(m, Stored(c));
      RoutedAllMeaning(m', cs[1..]);
      RoutedStored(m, c);
      if IsCellFilter(c) {
        assert Listed(cs) == Listed(cs[1..]);
      } else {
        assert Listed(cs) == [Stored(c)] + Listed(cs[1..]);
        Assoc(m.conditions, [Stored(c)], Listed(cs[1..]));
      }
    } else {
      assert m.conditions + [] == m.conditions;
    }
  }

  /** Routing one stored condition: a cell filter replaces the filter, any other is appended. */
  lemma RoutedStored(m: Model, c: Condition)
    ensures Routed(m, Stored(c))
         == if IsCellFilter(c) then m.(cellFilter := Some(c.value)) else m.(conditions := m.conditions + [Stored(c)])
  {
  }

  /** Where the first condition of `cs` ends when the conditions start at `begin`. */
  function ConditionEnd(cs: seq<Condition>, begin: nat): nat
    requires cs != []
  {
    begin + |cs[0].parameter| + |cs[0].relation| + |cs[0].value|
  }

  /** The condition `c` written from `begin` on: its name, relation and value, followed by more text. */
  predicate ConditionHere(s: string, begin: nat, c: Condition) {
    && ConditionReadable(c)
    && var r := begin + |c.parameter|;
    && var v := r + |c.relation|;
    && var e := v + |c.value|;
    && e < |s| && s[begin..r] == c.parameter && s[r..v] == c.relation && s[v..e] == c.value
  }

  /**
   * Where the conditions lie from `begin` on: each name, relation and value,
   * then ' ' and the next condition, or the closing ')' that ends the text.
   */
  predicate ConditionsAt(s: string, begin: nat, cs: seq<Condition>)
    decreases |cs|
  {
    && cs != [] && ConditionHere(s, begin, cs[0])
    && var e := ConditionEnd(cs, begin);
    && e < |s|
    && if |cs| == 1 then s[e] == ')' && e + 1 == |s|
       else s[e] == ' ' && ConditionsAt(s, e + 1, cs[1..])
  }

  /** A condition written at `begin` and followed by `ch` and `rest`. */
  lemma ConditionHereText(s: string, begin: nat, c: Condition, ch: char, rest: string)
    requires ConditionReadable(c)
    requires begin <= |s| && s[begin..] == c.parameter + c.relation + c.value + ([ch] + rest)
    ensures ConditionHere(s, begin, c)
    ensures var e := begin + |c.parameter| + |c.relation| + |c.value|;
      e < |s| && s[e] == ch && s[e + 1..] == rest
  {
    Cut(s, begin, c.parameter, c.relation, c.value, [ch] + rest);
    Past(s, begin + |c.parameter| + |c.relation| + |c.value|, ch, rest);
  }

  /** The last condition of a text "name<rel>value ... name<rel>value)", followed by the closing ')'. */
  lemma ConditionTextLast(s: string, begin: nat, cs: seq<Condition>)
    requires |cs| == 1 && ConditionReadable(cs[0])
    requires begin <= |s| && s[begin..] == ConditionsText(cs) + ")"
    ensures ConditionHere(s, begin, cs[0]) && ConditionEnd(cs, begin) < |s|
    ensures s[ConditionEnd(cs, begin)] == ')' && ConditionEnd(cs, begin) + 1 == |s|
  {
    var c := cs[0];
    assert ConditionsText(cs) + ")" == c.parameter + c.relation + c.value + ([')'] + []);
    ConditionHereText(s, begin, c, ')', []);
  }

  /** A condition of a text "name<rel>value ... name<rel>value)" before the last, followed by ' ' and the rest. */
  lemma ConditionTextMore(s: string, begin: nat, cs: seq<Condition>)
    requires |cs| > 1 && ConditionReadable(cs[0])
    requires begin <= |s| && s[begin..] == ConditionsText(cs) + ")"
    ensures ConditionHere(s, begin, cs[0]) && ConditionEnd(cs, begin) < |s|
    ensures s[ConditionEnd(cs, begin)] == ' ' && s[ConditionEnd(cs, begin) + 1..] == ConditionsText(cs[1..]) + ")"
  {
    ConditionsTextSplit(cs);
    ConditionHereText(s, begin, cs[0], ' ', ConditionsText(cs[1..]) + ")");
  }

  /** The closed text of several conditions is the first one, ' ', and the closed text of the rest. */
  lemma ConditionsTextSplit(cs: seq<Condition>)
    requires |cs| > 1
    ensures ConditionsText(cs) + ")"
            == cs[0].parameter + cs[0].relation + cs[0].value + ([' '] + (ConditionsText(cs[1..]) + ")"))
  {
    var head := cs[0].parameter + cs[0].relation + cs[0].value;
    assert ConditionsText(cs) == head + (" " + ConditionsText(cs[1..]));
    Regroup(head, " ", ConditionsText(cs[1..]), ")");
  }

  /** The text "name<rel>value ... name<rel>value)" from `begin` on holds the conditions there. */
  lemma {:induction false} ConditionsTextAt(s: string, begin: nat, cs: seq<Condition>)
    requires cs != [] && EachConditionReadable(cs)
    requires begin <= |s| && s[begin..] == ConditionsText(cs) + ")"
    ensures ConditionsAt(s, begin, cs)
    decreases |cs|
  {
    if |cs| == 1 {
      ConditionTextLastAt(s, begin, cs);
    } else {
      var next := ConditionTextRest(s, begin, cs);
      ConditionsTextAt(s, next, cs[1..]);
      ConditionTextMoreAt(s, begin, next, cs);
    }
  }

  /** The text of the last condition holds it. */
  lemma ConditionTextLastAt(s: string, begin: nat, cs: seq<Condition>)
    requires |cs| == 1 && EachConditionReadable(cs)
    requires begin <= |s| && s[begin..] == ConditionsText(cs) + ")"
    ensures ConditionsAt(s, begin, cs)
  {
    ConditionTextLast(s, begin, cs);
  }

  /** After a condition before the last, the text of the rest follows. */
  lemma ConditionTextRest(s: string, begin: nat, cs: seq<Condition>) returns (next: nat)
    requires |cs| > 1 && EachConditionReadable(cs)
    requires begin <= |s| && s[begin..] == ConditionsText(cs) + ")"
    ensures next == ConditionEnd(cs, begin) + 1 && next <= |s|
    ensures cs[1..] != [] && EachConditionReadable(cs[1..]) && s[next..] == ConditionsText(cs[1..]) + ")"
  {
    ConditionTextMore(s, begin, cs);
    next := ConditionEnd(cs, begin) + 1;
  }

  /** Every condition readable, stated one condition at a time. */
  predicate EachConditionReadable(cs: seq<Condition>) {
    cs == [] || (ConditionReadable(cs[0]) && EachConditionReadable(cs[1..]))
  }

  lemma {:induction false} EachConditionReadableAll(cs: seq<Condition>)
    requires forall i :: 0 <= i < |cs| ==> ConditionReadable(cs[i])
    ensures EachConditionReadable(cs)
    decreases |cs|
  {
    if cs != [] {
      assert forall i :: 0 <= i < |cs[1..]| ==> cs[1..][i] == cs[i + 1];
      EachConditionReadableAll(cs[1..]);
    }
  }

  /** The text of a condition before the last, once the rest is known to hold the rest of the conditions. */
  lemma ConditionTextMoreAt(s: string, begin: nat, next: nat, cs: seq<Condition>)
    requires |cs| > 1 && EachConditionReadable(cs)
    requires begin <= |s| && s[begin..] == ConditionsText(cs) + ")"
    requires next == ConditionEnd(cs, begin) + 1 && ConditionsAt(s, next, cs[1..])
    ensures ConditionsAt(s, begin, cs)
  {
    ConditionTextMore(s, begin, cs);
    ConditionsAtMore(s, begin, cs);
  }

  /** A condition before the last, followed by ' ' and the rest, starts the conditions. */
  lemma ConditionsAtMore(s: string, begin: nat, cs: seq<Condition>)
    requires |cs| > 1 && ConditionHere(s, begin, cs[0]) && ConditionEnd(cs, begin) < |s|
    requires s[ConditionEnd(cs, begin)] == ' ' && ConditionsAt(s, ConditionEnd(cs, begin) + 1, cs[1..])
    ensures ConditionsAt(s, begin, cs)
  {
  }

  /** The conditions after the first lie after its ' '. */
  lemma ConditionsAtRest(s: string, begin: nat, cs: seq<Condition>)
    requires ConditionsAt(s, begin, cs) && |cs| > 1
    ensures ConditionsAt(s, ConditionEnd(cs, begin) + 1, cs[1..])
  {
  }

  /** The characters of a written condition: the name and the value avoid the stops, the relation is relation characters. */
  lemma ConditionSpans(s: string, begin: nat, c: Condition)
    requires ConditionHere(s, begin, c)
    ensures var r := begin + |c.parameter|;
      var v := r + |c.relation|;
      var e := v + |c.value|;
      && (forall i :: begin <= i < r ==> s[i] !in CONDITION_STOPS)
      && (forall i :: r <= i < v ==> s[i] in RELATION)
      && (forall i :: v <= i < e ==> s[i] !in CONDITION_STOPS)
  {
    var r := begin + |c.parameter|;
    var v := r + |c.relation|;
    SliceWord(s, begin, r, c.parameter, CONDITION_STOPS);
    RelationSlice(s, r, v, c.relation);
    SliceWord(s, v, v + |c.value|, c.value, CONDITION_STOPS);
  }

  /** The condition the loop meets at `begin` ends at the ' ' or ')' after its value. */
  lemma ConditionBounds(s: string, begin: nat, cs: seq<Condition>)
    requires |s| < NPOS && ConditionsAt(s, begin, cs)
    ensures var e := ConditionEnd(cs, begin);
      e < |s| && s[e] in CONDITION_END && FirstOf(s, CONDITION_END, begin) == e
  {
    ConditionSpans(s, begin, cs[0]);
    FirstOfAt(s, CONDITION_END, begin, ConditionEnd(cs, begin));
  }

  /** The characters of a slice that equals a relation are relation characters. */
  lemma RelationSlice(s: string, from: nat, to: nat, relation: string)
    requires from <= to <= |s| && s[from..to] == relation
    requires forall i :: 0 <= i < |relation| ==> relation[i] in RELATION
    ensures forall i :: from <= i < to ==> s[i] in RELATION
  {
    forall i | from <= i < to
      ensures s[i] in RELATION
    {
      assert s[i] == relation[i - from];
    }
  }

  /** A condition whose name, relation and value texts are known words reads as them. */
  lemma ConditionOfWords(s: string, begin: nat, r: nat, v: nat, e: nat, c: Condition)
    requires begin <= r <= v <= e < |s| < NPOS
    requires FirstOf(s, RELATION, begin) == r && FirstNotOf(s, RELATION, r) == v
    requires s[begin..r] == c.parameter && s[r..v] == c.relation && s[v..e] == c.value
    requires ConditionReadable(c)
    ensures ConditionAt(s, begin, e) == Ok(Stored(c))
  {
    TrimWord(c.parameter, CONDITION_STOPS);
    TrimWord(c.value, CONDITION_STOPS);
    RelationTrims(c.relation);
    assert Span(s, begin, r) == c.parameter && Span(s, r, v) == c.relation && Span(s, v, e) == c.value;
  }

  /** Where the relation of a written condition starts and ends. */
  lemma ConditionScan(s: string, begin: nat, c: Condition)
    requires |s| < NPOS && ConditionHere(s, begin, c)
    ensures var r := begin + |c.parameter|;
      FirstOf(s, RELATION, begin) == r && FirstNotOf(s, RELATION, r) == r + |c.relation|
  {
    var r := begin + |c.parameter|;
    ConditionSpans(s, begin, c);
    FirstOfAt(s, RELATION, begin, r);
    FirstNotOfAt(s, RELATION, r, r + |c.relation|);
  }

  /** A written condition reads as the stored condition. */
  lemma ConditionReadHere(s: string, begin: nat, end: nat, c: Condition)
    requires |s| < NPOS && ConditionHere(s, begin, c) && end == begin + |c.parameter| + |c.relation| + |c.value|
    ensures end < |s| && ConditionAt(s, begin, end) == Ok(Stored(c))
  {
    var r := begin + |c.parameter|;
    var v := r + |c.relation|;
    ConditionScan(s, begin, c);
    ConditionOfWords(s, begin, r, v, end, c);
  }

  /** A run of relation characters trims to itself. */
  lemma RelationTrims(relation: string)
    requires relation != [] && |relation| < NPOS && forall i :: 0 <= i < |relation| ==> relation[i] in RELATION
    ensures CvcUtil.Trim(relation) == Ok(relation)
  {
    assert [] + relation + [] == relation;
    CvcUtil.TrimPadded([], relation, []);
  }

  /** After a condition the loop skips the separator: to the next condition, or past the end. */
  lemma ConditionNext(s: string, begin: nat, cs: seq<Condition>)
    requires |s| < NPOS && ConditionsAt(s, begin, cs)
    ensures var e := ConditionEnd(cs, begin);
      FirstNotOf(s, CONDITION_SKIP, e) == if |cs| == 1 then NPOS else e + 1
  {
    var e := ConditionEnd(cs, begin);
    if |cs| == 1 {
      FirstNotOfAt(s, CONDITION_SKIP, e, |s|);
    } else {
      var next := cs[1];
      assert cs[1..][0] == next;
      assert s[e + 1..e + 1 + |next.parameter|] == next.parameter;
      assert s[e + 1] == next.parameter[0];
      FirstNotOfAt(s, CONDITION_SKIP, e, e + 1);
    }
  }

  /** The last pass of CreateConditions' loop: the last condition routed, and the loop ends. */
  lemma ConditionLast(m: Model, m': Model, s: string, begin: nat, cs: seq<Condition>)
    requires |s| < NPOS && ConditionsAt(s, begin, cs) && |cs| == 1 && m' == Routed(m, Stored(cs[0]))
    requires IsCellFilter(cs[0]) || NormalValueFailure(cs[0].value) == None
    ensures ConditionsFrom(m, s, begin, ConditionEnd(cs, begin)) == Ok(m')
  {
    ConditionBounds(s, begin, cs);
    ConditionReadHere(s, begin, ConditionEnd(cs, begin), cs[0]);
    ConditionNext(s, begin, cs);
    assert ConditionFailure(Stored(cs[0])) == None;
    ConditionsStep(m, s, begin, ConditionEnd(cs, begin), Stored(cs[0]));
  }

  /** A pass of CreateConditions' loop before the last: the condition routed, and the loop moves past the ' '. */
  lemma ConditionStep(m: Model, m': Model, s: string, begin: nat, cs: seq<Condition>)
    requires |s| < NPOS && ConditionsAt(s, begin, cs) && |cs| > 1 && m' == Routed(m, Stored(cs[0]))
    requires IsCellFilter(cs[0]) || NormalValueFailure(cs[0].value) == None
    ensures ConditionsFrom(m, s, begin, ConditionEnd(cs, begin))
         == ConditionsFrom(m', s, ConditionEnd(cs, begin) + 1, FirstOf(s, CONDITION_END, ConditionEnd(cs, begin) + 1))
  {
    ConditionBounds(s, begin, cs);
    ConditionReadHere(s, begin, ConditionEnd(cs, begin), cs[0]);
    ConditionNext(s, begin, cs);
    assert ConditionFailure(Stored(cs[0])) == None;
    ConditionsStep(m, s, begin, ConditionEnd(cs, begin), Stored(cs[0]));
  }

  /** Routing the conditions is routing the first, then the rest. */
  lemma RoutedAllStep(m: Model, m': Model, cs: seq<Condition>)
    requires cs != [] && m' == Routed(m, Stored(cs[0]))
    ensures RoutedAll(m, cs) == RoutedAll(m', cs[1..])
  {
  }

  /** A pass before the last, once the passes after it are known to route the rest. */
  lemma ConditionsFromNext(m: Model, m': Model, s: string, begin: nat, next: nat, cs: seq<Condition>)
    requires |s| < NPOS && ConditionsAt(s, begin, cs) && |cs| > 1 && m' == Routed(m, Stored(cs[0]))
    requires IsCellFilter(cs[0]) || NormalValueFailure(cs[0].value) == None
    requires next == ConditionEnd(cs, begin) + 1 <= |s|
    requires ConditionEnd(cs[1..], next) < |s| && s[ConditionEnd(cs[1..], next)] in CONDITION_END
    requires ConditionsFrom(m', s, next, ConditionEnd(cs[1..], next)) == Ok(RoutedAll(m', cs[1..]))
    ensures ConditionEnd(cs, begin) < |s| && s[ConditionEnd(cs, begin)] in CONDITION_END
    ensures ConditionsFrom(m, s, begin, ConditionEnd(cs, begin)) == Ok(RoutedAll(m, cs))
  {
    ConditionBounds(s, begin, cs);
    ConditionsAtRest(s, begin, cs);
    ConditionBounds(s, next, cs[1..]);
    ConditionStep(m, m', s, begin, cs);
    RoutedAllStep(m, m', cs);
  }

  /** CreateConditions' loop from the condition at `begin` on routes the rest of the conditions, in order. */
  lemma {:induction false} ConditionsFromAt(m: Model, s: string, begin: nat, cs: seq<Condition>)
    requires |s| < NPOS && ConditionsAt(s, begin, cs) && ValuesConvert(cs)
    ensures ConditionEnd(cs, begin) < |s| && s[ConditionEnd(cs, begin)] in CONDITION_END
    ensures ConditionsFrom(m, s, begin, ConditionEnd(cs, begin)) == Ok(RoutedAll(m, cs))
    decreases |cs|
  {
    var m' := Routed(m, Stored(cs[0]));
    if |cs| == 1 {
      ConditionsFromLast(m, m', s, begin, cs);
    } else {
      var next := ConditionsNextAt(s, begin, cs);
      assert forall i :: 0 <= i < |cs| - 1 ==> cs[1..][i] == cs[i + 1];
      ConditionsFromAt(m', s, next, cs[1..]);
      ConditionsFromNext(m, m', s, begin, next, cs);
    }
  }

  /** The last pass of CreateConditions' loop routes the last condition. */
  lemma ConditionsFromLast(m: Model, m': Model, s: string, begin: nat, cs: seq<Condition>)
    requires |s| < NPOS && ConditionsAt(s, begin, cs) && |cs| == 1 && m' == Routed(m, Stored(cs[0]))
    requires IsCellFilter(cs[0]) || NormalValueFailure(cs[0].value) == None
    ensures ConditionEnd(cs, begin) < |s| && s[ConditionEnd(cs, begin)] in CONDITION_END
    ensures ConditionsFrom(m, s, begin, ConditionEnd(cs, begin)) == Ok(RoutedAll(m, cs))
  {
    ConditionBounds(s, begin, cs);
    ConditionLast(m, m', s, begin, cs);
    RoutedAllStep(m, m', cs);
  }

  /** Where the conditions after the first begin. */
  lemma ConditionsNextAt(s: string, begin: nat, cs: seq<Condition>) returns (next: nat)
    requires ConditionsAt(s, begin, cs) && |cs| > 1
    ensures next == ConditionEnd(cs, begin) + 1 && ConditionsAt(s, next, cs[1..])
  {
    ConditionsAtRest(s, begin, cs);
    next := ConditionEnd(cs, begin) + 1;
  }

  /** CreateConditions over conditions written from position 1 on routes them all, in order. */
  lemma WithConditionsAt(m: Model, s: string, cs: seq<Condition>)
    requires |s| < NPOS && FirstNotOf(s, CONDITION_OPEN, 0) == 1 && ConditionsAt(s, 1, cs) && ValuesConvert(cs)
    ensures WithConditions(m, s) == Ok(RoutedAll(m, cs))
  {
    ConditionBounds(s, 1, cs);
    ConditionsFromAt(m, s, 1, cs);
  }

  /**
   * CreateConditions on "(name<rel>value ...)", whose values all convert,
   * appends every written condition that is not `CELL=`, upper-cased and
   * in order, and sets the
   * cell filter to the last `CELL=` value written.
   */
  lemma WithConditionsWritten(m: Model, cs: seq<Condition>)
    requires cs != [] && forall i :: 0 <= i < |cs| ==> ConditionReadable(cs[i])
    requires ValuesConvert(cs)
    requires |"(" + ConditionsText(cs) + ")"| < NPOS
    ensures WithConditions(m, "(" + ConditionsText(cs) + ")")
            == Ok(m.(conditions := m.conditions + Listed(cs), cellFilter := LastFilter(cs, m.cellFilter)))
  {
    var s := "(" + ConditionsText(cs) + ")";
    assert ConditionReadable(cs[0]);
    ListText(s, ConditionsText(cs), CONDITION_OPEN);
    EachConditionReadableAll(cs);
    ConditionsTextAt(s, 1, cs);
    WithConditionsAt(m, s, cs);
    RoutedAllMeaning(m, cs);
  }
}
