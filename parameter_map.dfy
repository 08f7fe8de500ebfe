/**
 * The device parameter map of a netlist line: "W=1u L=0.1u $M=2" read into
 * a map from upper-cased parameter name to its value text.
 */
module ParameterMaps {
  import opened Outcomes
  import opened CppString

  /** `toupper` of the C locale: only 'a'..'z' change. */
  function UpperChar(c: char): (r: char)
    ensures 'a' <= c <= 'z' ==> r as int == c as int - 32
    ensures !('a' <= c <= 'z') ==> r == c
  {
    if 'a' <= c <= 'z' then (c as int - 32) as char else c
  }

  /** toupper_: every character upper-cased, the length kept. */
  function ToUpper(s: string): (r: string)
    ensures |r| == |s|
  {
    if s == [] then [] else [UpperChar(s[0])] + ToUpper(s[1..])
  }

  lemma {:induction false} ToUpperAt(s: string, i: nat)
    requires i < |s|
    ensures ToUpper(s)[i] == UpperChar(s[i])
  {
    if i > 0 {
      ToUpperAt(s[1..], i - 1);
    }
  }

  lemma UpperCharIdempotent(c: char)
    ensures UpperChar(UpperChar(c)) == UpperChar(c)
    ensures !('a' <= UpperChar(c) <= 'z')
  {
  }

  /** Upper-casing twice is upper-casing once. */
  lemma {:induction false} ToUpperIdempotent(s: string)
    ensures ToUpper(ToUpper(s)) == ToUpper(s)
  {
    if s != [] {
      UpperCharIdempotent(s[0]);
      ToUpperIdempotent(s[1..]);
      assert ToUpper(s)[1..] == ToUpper(s[1..]);
    }
  }

  /** The map key of a raw parameter name: a leading '$' dropped, then upper-cased. */
  function Key(name: string): (r: string)
    ensures |name| > 0 && name[0] == '$' ==> r == ToUpper(name[1..])
    ensures !(|name| > 0 && name[0] == '$') ==> r == ToUpper(name)
  {
    ToUpper(if |name| > 0 && name[0] == '$' then name[1..] else name)
  }

  /** The first `c` at or after `from`, or npos: `find` for a one-character pattern. */
  function FindChar(s: string, c: char, from: nat): (r: nat)
    requires |s| < NPOS
    ensures r == NPOS || (from <= r < |s| && s[r] == c)
    decreases |s| - from
  {
    if from >= |s| then NPOS
    else if s[from] == c then from
    else FindChar(s, c, from + 1)
  }

  /** No `c` lies between `from` and the position `FindChar` returns. */
  lemma {:induction false} FindCharFirst(s: string, c: char, from: nat)
    requires |s| < NPOS
    ensures forall i :: from <= i < FindChar(s, c, from) && i < |s| ==> s[i] != c
    decreases |s| - from
  {
    if from < |s| && s[from] != c {
      FindCharFirst(s, c, from + 1);
    }
  }

  lemma OccursChar(s: string, c: char, i: nat)
    ensures OccursAt(s, [c], i) <==> i < |s| && s[i] == c
  {
    if i < |s| {
      assert s[i..i + 1][0] == s[i];
    }
  }

  /** `FindChar` is `std::string::find` with a one-character pattern. */
  lemma FindCharIsFind(s: string, c: char, from: nat)
    requires |s| < NPOS
    ensures FindChar(s, c, from) == Find(s, [c], from)
  {
    var f := Find(s, [c], from);
    var g := FindChar(s, c, from);
    FindCharFirst(s, c, from);
    if f != NPOS {
      OccursChar(s, c, f);
    }
    if g != NPOS {
      OccursChar(s, c, g);
    }
  }

  /** What one pass of the parsing loop reads: the entry it stores and where the token ended. */
  datatype Step = Step(key: string, value: string, end: nat)

  /**
   * One pass starting at `begin`: the token ends at the next space (or npos)
   * and the name runs up to the next '=' (to the end of the text when there
   * is none). The value starts after that '=', or at 0 when there is none,
   * because `npos + 1` wraps; it runs to the token end, or to the end of the
   * text when the token has no end or ends before the value starts, because
   * the length `end - (equal + 1)` then wraps to a huge count.
   */
  function StepAt(s: string, begin: nat): (r: Step)
    requires begin <= |s| < NPOS
    ensures r.end == NPOS || begin <= r.end < |s|
  {
    var end := FindChar(s, ' ', begin);
    var equal := FindChar(s, '=', begin);
    var name := s[begin..if equal == NPOS then |s| else equal];
    var valueAt := if equal == NPOS then 0 else equal + 1;
    var value := s[valueAt..if end == NPOS || end < valueAt then |s| else end];
    Step(Key(name), value, end)
  }

  /** `StepAt` from its parts. */
  lemma StepAtParts(s: string, begin: nat, end: nat, equal: nat, raw: string, valueAt: nat, value: string)
    requires begin <= |s| < NPOS
    requires end == FindChar(s, ' ', begin) && equal == FindChar(s, '=', begin)
    requires raw == s[begin..if equal == NPOS then |s| else equal]
    requires valueAt == if equal == NPOS then 0 else equal + 1
    requires value == s[valueAt..if end == NPOS || end < valueAt then |s| else end]
    ensures StepAt(s, begin) == Step(Key(raw), value, end)
  {
  }

  /** The value's `substr`: up to the token end, or to the end of the text when the length wraps. */
  lemma ValueText(s: string, valueAt: nat, end: nat)
    requires valueAt <= |s| < NPOS
    requires end == NPOS || end < |s|
    ensures Substr(s, valueAt, SizeSub(end, valueAt))
      == Ok(s[valueAt..if end == NPOS || end < valueAt then |s| else end])
  {
  }

  /** The entries the loop stores from `begin` on, in order. */
  function Entries(s: string, begin: nat): (r: seq<(string, string)>)
    requires begin <= |s| < NPOS
    ensures r != []
    decreases |s| - begin
  {
    var step := StepAt(s, begin);
    [(step.key, step.value)] + (if step.end < |s| then Entries(s, step.end + 1) else [])
  }

  /** Entries stored into a map in order: a later entry overwrites an earlier one with the same key. */
  function Apply(m: map<string, string>, entries: seq<(string, string)>): map<string, string>
    decreases |entries|
  {
    if entries == [] then m else Apply(m[entries[0].0 := entries[0].1], entries[1..])
  }

  /** One step of `Entries`, given what the step reads. */
  lemma EntriesStep(s: string, begin: nat, key: string, value: string, end: nat)
    requires begin <= |s| < NPOS
    requires StepAt(s, begin) == Step(key, value, end)
    ensures end < |s| ==> Entries(s, begin) == [(key, value)] + Entries(s, end + 1)
    ensures end >= |s| ==> Entries(s, begin) == [(key, value)]
  {
    EntriesUnfold(s, begin);
    var step := StepAt(s, begin);
    assert step.key == key && step.value == value && step.end == end;
    assert (step.key, step.value) == (key, value);
  }

  lemma EntriesUnfold(s: string, begin: nat)
    requires begin <= |s| < NPOS
    ensures Entries(s, begin)
      == var step := StepAt(s, begin);
         [(step.key, step.value)] + (if step.end < |s| then Entries(s, step.end + 1) else [])
  {
  }

  lemma ApplyCons(m: map<string, string>, entry: (string, string), rest: seq<(string, string)>)
    ensures Apply(m, [entry] + rest) == Apply(m[entry.0 := entry.1], rest)
  {
    assert ([entry] + rest)[1..] == rest;
  }

  /** CreateParameterMap as a function of the text and the map before. */
  function Entered(m: map<string, string>, s: string): map<string, string>
    requires |s| < NPOS
  {
    if |s| > 0 then Apply(m, Entries(s, 0)) else m
  }

  /** A parameter as written in a netlist, "name=value". */
  datatype Assignment = Assignment(name: string, value: string)

  /** A name without spaces or '=', and a value without spaces. */
  predicate WellFormed(a: Assignment) {
    ' ' !in a.name && '=' !in a.name && ' ' !in a.value
  }

  function Token(a: Assignment): string {
    a.name + "=" + a.value
  }

  /** Assignments written one after another, separated by single spaces. */
  function Written(assignments: seq<Assignment>): string
    decreases |assignments|
  {
    if |assignments| == 0 then ""
    else if |assignments| == 1 then Token(assignments[0])
    else Token(assignments[0]) + " " + Written(assignments[1..])
  }

  /** The entries written assignments should store: upper-cased names without '$', in order. */
  function Stored(assignments: seq<Assignment>): (r: seq<(string, string)>)
    ensures |r| == |assignments|
    decreases |assignments|
  {
    if assignments == [] then []
    else [(Key(assignments[0].name), assignments[0].value)] + Stored(assignments[1..])
  }

  lemma {:induction false} StoredAppend(a: seq<Assignment>, b: seq<Assignment>)
    ensures Stored(a + b) == Stored(a) + Stored(b)
    decreases |a|
  {
    if a != [] {
      assert (a + b)[1..] == a[1..] + b;
      StoredAppend(a[1..], b);
    } else {
      assert a + b == b;
    }
  }

  lemma {:induction false} StoredAt(assignments: seq<Assignment>, i: nat)
    requires i < |assignments|
    ensures Stored(assignments)[i] == (Key(assignments[i].name), assignments[i].value)
    decreases i
  {
    if i > 0 {
      StoredAt(assignments[1..], i - 1);
    }
  }

  /** The first `c` at or after `from` is at `k`. */
  lemma FindCharAt(s: string, c: char, from: nat, k: nat)
    requires |s| < NPOS && from <= k < |s| && s[k] == c
    requires forall i :: from <= i < k ==> s[i] != c
    ensures FindChar(s, c, from) == k
  {
    FindCharFirst(s, c, from);
  }

  /** No `c` at or after `from`. */
  lemma FindCharNone(s: string, c: char, from: nat)
    requires |s| < NPOS
    requires forall i :: from <= i < |s| ==> s[i] != c
    ensures FindChar(s, c, from) == NPOS
  {
    FindCharFirst(s, c, from);
  }

  /** Reading the first token of `prefix + Token(a) + rest`, where `rest` is "" or starts with a space. */
  lemma StepOverToken(prefix: string, a: Assignment, rest: string)
    requires WellFormed(a)
    requires rest == [] || rest[0] == ' '
    requires |prefix + Token(a) + rest| < NPOS
    ensures StepAt(prefix + Token(a) + rest, |prefix|)
      == Step(Key(a.name), a.value, if rest == [] then NPOS else |prefix| + |Token(a)|)
  {
    var s := prefix + Token(a) + rest;
    Layout(prefix, a, rest);
    FindCharAt(s, '=', |prefix|, |prefix| + |a.name|);
    TokenEnd(prefix, a, rest);
  }

  /** The token ends at the space that follows it, or at npos when nothing follows. */
  lemma TokenEnd(prefix: string, a: Assignment, rest: string)
    requires WellFormed(a)
    requires rest == [] || rest[0] == ' '
    requires |prefix + Token(a) + rest| < NPOS
    ensures FindChar(prefix + Token(a) + rest, ' ', |prefix|)
      == if rest == [] then NPOS else |prefix| + |Token(a)|
  {
    var s := prefix + Token(a) + rest;
    Layout(prefix, a, rest);
    if rest == [] {
      FindCharNone(s, ' ', |prefix|);
    } else {
      FindCharAt(s, ' ', |prefix|, |prefix| + |Token(a)|);
    }
  }

  /** Where the name, the '=' and the value of a token sit in the text. */
  lemma Layout(prefix: string, a: Assignment, rest: string)
    requires WellFormed(a)
    ensures var s := prefix + Token(a) + rest;
      var equal := |prefix| + |a.name|;
      var stop := equal + 1 + |a.value|;
      && |s| == stop + |rest|
      && (forall i :: |prefix| <= i < equal ==> s[i] != '=')
      && s[equal] == '='
      && (forall i :: |prefix| <= i < stop ==> s[i] != ' ')
      && (rest != [] ==> s[stop] == rest[0])
      && s[|prefix|..equal] == a.name
      && s[equal + 1..stop] == a.value
  {
    var s := prefix + Token(a) + rest;
    var p1 := prefix + a.name;
    var p2 := p1 + "=";
    var p3 := p2 + a.value;
    assert s == p3 + rest;
    assert s[..|p3|] == p3;
    assert p3[..|p2|] == p2;
    assert p2[..|p1|] == p1;
    assert p3[|p2|..] == a.value;
    assert p1[|prefix|..] == a.name;
    assert forall i :: |prefix| <= i < |p1| ==> s[i] == a.name[i - |prefix|];
    assert forall i :: |p2| <= i < |p3| ==> s[i] == a.value[i - |p2|];
  }

  /** The loop reads written assignments back, whatever precedes them. */
  lemma {:induction false} EntriesWritten(prefix: string, assignments: seq<Assignment>)
    requires assignments != []
    requires forall i :: 0 <= i < |assignments| ==> WellFormed(assignments[i])
    requires |prefix + Written(assignments)| < NPOS
    ensures Entries(prefix + Written(assignments), |prefix|) == Stored(assignments)
    decreases |assignments|
  {
    if |assignments| == 1 {
      LastToken(prefix, assignments);
    } else {
      var prefix' := prefix + Token(assignments[0]) + " ";
      WrittenSplit(prefix, assignments);
      EntriesWritten(prefix', assignments[1..]);
      NextToken(prefix, assignments);
    }
  }

  /** The last token is read as one entry. */
  lemma LastToken(prefix: string, assignments: seq<Assignment>)
    requires |assignments| == 1 && WellFormed(assignments[0])
    requires |prefix + Written(assignments)| < NPOS
    ensures Entries(prefix + Written(assignments), |prefix|) == Stored(assignments)
  {
    var a := assignments[0];
    var s := prefix + Written(assignments);
    FirstStep(prefix, assignments);
    StoredCons(assignments);
    EntriesStep(s, |prefix|, Key(a.name), a.value, NPOS);
    ConsLast(Entries(s, |prefix|), (Key(a.name), a.value), Stored(assignments[1..]), Stored(assignments));
  }

  /** A token followed by others is read as one entry followed by theirs. */
  lemma NextToken(prefix: string, assignments: seq<Assignment>)
    requires |assignments| > 1
    requires forall i :: 0 <= i < |assignments| ==> WellFormed(assignments[i])
    requires |prefix + Written(assignments)| < NPOS
    requires |prefix + Token(assignments[0]) + " " + Written(assignments[1..])| < NPOS
    requires Entries(prefix + Token(assignments[0]) + " " + Written(assignments[1..]),
                     |prefix + Token(assignments[0]) + " "|) == Stored(assignments[1..])
    ensures Entries(prefix + Written(assignments), |prefix|) == Stored(assignments)
  {
    var a := assignments[0];
    var tail := assignments[1..];
    var s := prefix + Written(assignments);
    var prefix' := prefix + Token(a) + " ";
    var end := |prefix| + |Token(a)|;
    FirstStep(prefix, assignments);
    StoredCons(assignments);
    WrittenSplit(prefix, assignments);
    Combine(s, prefix' + Written(tail), |prefix|, Key(a.name), a.value, end, |prefix'|, Stored(tail), Stored(assignments));
  }

  /** Gluing one step of the loop to the entries that follow it. */
  lemma Combine(s: string, t: string, begin: nat, key: string, value: string, end: nat, next: nat,
                rest: seq<(string, string)>, stored: seq<(string, string)>)
    requires begin <= |s| < NPOS && s == t && end + 1 == next <= |t|
    requires StepAt(s, begin) == Step(key, value, end)
    requires Entries(t, next) == rest && stored == [(key, value)] + rest
    ensures Entries(s, begin) == stored
  {
    EntriesStep(s, begin, key, value, end);
  }

  /** The first pass reads the first assignment; its token ends at a space unless it is the last. */
  lemma FirstStep(prefix: string, assignments: seq<Assignment>)
    requires assignments != []
    requires forall i :: 0 <= i < |assignments| ==> WellFormed(assignments[i])
    requires |prefix + Written(assignments)| < NPOS
    ensures StepAt(prefix + Written(assignments), |prefix|)
      == Step(Key(assignments[0].name), assignments[0].value,
              if |assignments| == 1 then NPOS else |prefix| + |Token(assignments[0])|)
  {
    var a := assignments[0];
    if |assignments| == 1 {
      assert Written(assignments) == Token(a);
      Regroup(prefix, Token(a), "");
      StepOverToken(prefix, a, "");
    } else {
      assert Written(assignments) == Token(a) + " " + Written(assignments[1..]);
      Regroup(prefix, Token(a), Written(assignments[1..]));
      StepOverToken(prefix, a, " " + Written(assignments[1..]));
    }
  }

  /** After the first token and its space, the rest is the remaining assignments written out. */
  lemma WrittenSplit(prefix: string, assignments: seq<Assignment>)
    requires |assignments| > 1
    requires forall i :: 0 <= i < |assignments| ==> WellFormed(assignments[i])
    ensures prefix + Written(assignments) == prefix + Token(assignments[0]) + " " + Written(assignments[1..])
    ensures forall i :: 0 <= i < |assignments| - 1 ==> WellFormed(assignments[1..][i])
  {
    var a := assignments[0];
    assert Written(assignments) == Token(a) + " " + Written(assignments[1..]);
    Regroup(prefix, Token(a), Written(assignments[1..]));
  }

  lemma StoredCons(assignments: seq<Assignment>)
    requires assignments != []
    ensures Stored(assignments) == [(Key(assignments[0].name), assignments[0].value)] + Stored(assignments[1..])
  {
  }

  lemma ConsLast<T>(x: seq<T>, head: T, rest: seq<T>, v: seq<T>)
    requires x == [head] && rest == [] && v == [head] + rest
    ensures x == v
  {
  }

  lemma Regroup(prefix: string, token: string, text: string)
    ensures prefix + (token + " " + text) == prefix + token + (" " + text)
    ensures prefix + (token + " " + text) == (prefix + token + " ") + text
    ensures prefix + token == prefix + token + ""
  {
  }

  /** Each "NAME=value" token of a space-separated list stores upper(NAME) ↦ value, in order. */
  lemma EnteredWritten(assignments: seq<Assignment>, m: map<string, string>)
    requires forall i :: 0 <= i < |assignments| ==> WellFormed(assignments[i])
    requires |Written(assignments)| < NPOS
    ensures Entered(m, Written(assignments)) == Apply(m, Stored(assignments))
  {
    if assignments != [] {
      assert Written(assignments) == [] + Written(assignments);
      EntriesWritten([], assignments);
    }
  }

  /** The empty text leaves the map unchanged. */
  lemma EnteredNothing(m: map<string, string>)
    ensures Entered(m, "") == m
  {
  }

  /** Of several entries with one key, the last one is stored. */
  lemma {:induction false} LastEntryWins(m: map<string, string>, before: seq<(string, string)>, key: string, value: string, after: seq<(string, string)>)
    requires forall i :: 0 <= i < |after| ==> after[i].0 != key
    ensures key in Apply(m, before + [(key, value)] + after)
    ensures Apply(m, before + [(key, value)] + after)[key] == value
    decreases |before|
  {
    if before == [] {
      assert before + [(key, value)] + after == [(key, value)] + after;
      ApplyCons(m, (key, value), after);
      AfterLeavesKey(m[key := value], after, key);
    } else {
      assert (before + [(key, value)] + after)[1..] == before[1..] + [(key, value)] + after;
      LastEntryWins(m[before[0].0 := before[0].1], before[1..], key, value, after);
    }
  }

  lemma {:induction false} AfterLeavesKey(m: map<string, string>, after: seq<(string, string)>, key: string)
    requires key in m
    requires forall i :: 0 <= i < |after| ==> after[i].0 != key
    ensures key in Apply(m, after) && Apply(m, after)[key] == m[key]
    decreases |after|
  {
    if after != [] {
      AfterLeavesKey(m[after[0].0 := after[0].1], after[1..], key);
    }
  }

  /**
   * A later "NAME=value" overwrites an earlier one: the key of `a` maps to
   * `a`'s value when no later assignment has the same key.
   */
  lemma LastAssignmentWins(m: map<string, string>, before: seq<Assignment>, a: Assignment, after: seq<Assignment>)
    requires forall i :: 0 <= i < |before + [a] + after| ==> WellFormed((before + [a] + after)[i])
    requires forall i :: 0 <= i < |after| ==> Key(after[i].name) != Key(a.name)
    requires |Written(before + [a] + after)| < NPOS
    ensures Key(a.name) in Entered(m, Written(before + [a] + after))
    ensures Entered(m, Written(before + [a] + after))[Key(a.name)] == a.value
  {
    EnteredWritten(before + [a] + after, m);
    StoredAppend(before + [a], after);
    StoredAppend(before, [a]);
    assert Stored([a]) == [(Key(a.name), a.value)] + Stored([]);
    assert Stored(before + [a] + after) == Stored(before) + [(Key(a.name), a.value)] + Stored(after);
    forall i | 0 <= i < |after|
      ensures Stored(after)[i].0 != Key(a.name)
    {
      StoredAt(after, i);
    }
    LastEntryWins(m, Stored(before), Key(a.name), a.value, Stored(after));
  }

  /** Storing the entry of one step leaves the rest of the entries to store. */
  lemma ApplyStep(m: map<string, string>, s: string, begin: nat, key: string, value: string, end: nat,
                  goal: map<string, string>)
    requires begin <= |s| < NPOS
    requires StepAt(s, begin) == Step(key, value, end)
    requires Apply(m, Entries(s, begin)) == goal
    ensures end < |s| ==> Apply(m[key := value], Entries(s, end + 1)) == goal
    ensures end >= |s| ==> m[key := value] == goal
  {
    EntriesStep(s, begin, key, value, end);
    if end < |s| {
      ApplyCons(m, (key, value), Entries(s, end + 1));
    } else {
      ApplyCons(m, (key, value), []);
    }
  }

  /**
   * A trailing space starts one more, empty token: it has no '=' and no end,
   * so it stores the empty name with the whole text as its value.
   */
  lemma TrailingSpace()
    ensures Entered(map[], "W=1 ") == map["W" := "1", "" := "W=1 "]
  {
    var s := "W=1 ";
    FindCharAt(s, ' ', 0, 3);
    FindCharAt(s, '=', 0, 1);
    StepAtParts(s, 0, 3, 1, s[0..1], 2, s[2..3]);
    assert s[0..1] == "W" && s[2..3] == "1";
    FindCharNone(s, ' ', 4);
    FindCharNone(s, '=', 4);
    StepAtParts(s, 4, NPOS, NPOS, s[4..4], 0, s[0..4]);
    assert Key("") == "";
    assert Key("W") == [UpperChar('W')] + ToUpper("") == "W";
    EntriesStep(s, 0, "W", "1", 3);
    EntriesStep(s, 4, "", s, NPOS);
    assert Entries(s, 0) == [("W", "1")] + [("", s)];
    ApplyCons(map[], ("W", "1"), [("", s)]);
    ApplyCons(map["W" := "1"], ("", s), []);
  }

  /** CParameterMap: the parameter map of one device line. */
  class ParameterMap {
    var parameters: map<string, string>

    constructor()
      ensures parameters == map[]
    {
      parameters := map[];
    }

    /** One pass of the CreateParameterMap loop: the entry of the token at `begin` and its end. */
    static method ReadParameter(text: string, begin: nat) returns (name: string, value: string, end: nat)
      requires begin <= |text| < NPOS
      ensures Step(name, value, end) == StepAt(text, begin)
      ensures end == NPOS || begin <= end < |text|
    {
      end := Find(text, " ", begin);
      var equal := Find(text, "=", begin);
      FindCharIsFind(text, ' ', begin);
      FindCharIsFind(text, '=', begin);
      var raw := Substr(text, begin, SizeSub(equal, begin)).value;
      name := raw;
      if |name| > 0 && name[0] == '$' {
        name := Substr(name, 1, NPOS).value;
        assert name == raw[1..];
      }
      name := ToUpper(name);
      assert name == Key(raw);
      var valueAt := SizeAdd(equal, 1);
      assert valueAt == if equal == NPOS then 0 else equal + 1;
      ValueText(text, valueAt, end);
      value := Substr(text, valueAt, SizeSub(end, valueAt)).value;
      assert raw == text[begin..if equal == NPOS then |text| else equal];
      StepAtParts(text, begin, end, equal, raw, valueAt, value);
    }

    /**
     * CreateParameterMap: reads each space-separated token of `text` into
     * the map, as `Entered` says.
     */
    method CreateParameterMap(text: string)
      requires |text| < NPOS
      modifies this
      ensures parameters == Entered(old(parameters), text)
    {
      if |text| > 0 {
        var begin: nat := 0;
        ghost var goal := Entered(parameters, text);
        while true
          invariant begin <= |text|
          invariant Apply(parameters, Entries(text, begin)) == goal
          decreases |text| - begin
        {
          var name, value, end := ReadParameter(text, begin);
          ApplyStep(parameters, text, begin, name, value, end, goal);
          parameters := parameters[name := value];
          if end >= |text| {
            break;
          }
          begin := end + 1;
        }
      }
    }
  }
}
