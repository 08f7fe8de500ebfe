/**
 * Helpers of the CVC database that walk id arrays and cut up names:
 * event-key compression, the roots of equivalent-net chains, hierarchy
 * splitting, bus-name expansion, instance ancestry and the crossing test
 * of two virtual-net chains.
 */
module DbUtility {
  import opened Outcomes
  import opened CppString
  import opened CvcTypes
  import opened VirtualNets
  import Text

  // ---------------------------------------------------------------- SimKey

  /** EVENT_CUTOFF is 1 << 24; keys above it are compressed by LARGE_EVENT_SCALE = 8 bits. */
  const EVENT_CUTOFF: int := 0x100_0000
  const EVENT_SCALE: int := 0x100

  /**
   * SimKey: the event key `increment` after `currentKey`. Keys up to the
   * cutoff are plain resistance sums; above it every 256 units of
   * increment count one. The arithmetic is in 64 bits, so nothing wraps;
   * a key that reaches MAX_EVENT_TIME fails the final assert.
   */
  method SimKey(currentKey: int, increment: nat) returns (r: Result<int>)
    requires INT32_MIN <= currentKey <= INT32_MAX && increment < UINT32_RANGE
    ensures currentKey + increment <= EVENT_CUTOFF ==> r == Ok(currentKey + increment)
    ensures currentKey < EVENT_CUTOFF < currentKey + increment ==>
      r == Ok(EVENT_CUTOFF + (currentKey + increment - EVENT_CUTOFF) / EVENT_SCALE)
    ensures currentKey >= EVENT_CUTOFF && currentKey + increment / EVENT_SCALE < MAX_EVENT_TIME ==>
      r == Ok(currentKey + increment / EVENT_SCALE)
    ensures currentKey >= EVENT_CUTOFF && currentKey + increment / EVENT_SCALE >= MAX_EVENT_TIME ==>
      r == Fail(AssertAbort)
    ensures 0 <= currentKey < MAX_EVENT_TIME && increment == 0 ==> r == Ok(currentKey)
  {
    var key: int;
    if currentKey < EVENT_CUTOFF {
      key := currentKey;
    } else {
      key := EVENT_CUTOFF + (currentKey - EVENT_CUTOFF) * EVENT_SCALE;
    }
    key := key + increment;
    if key > EVENT_CUTOFF {
      if currentKey >= EVENT_CUTOFF {
        ScaledBack(currentKey - EVENT_CUTOFF, increment);
      }
      key := EVENT_CUTOFF + (key - EVENT_CUTOFF) / EVENT_SCALE;
    }
    if key >= MAX_EVENT_TIME {
      return Fail(AssertAbort);
    }
    return Ok(key);
  }

  /** Shifting a scaled-up key back down keeps the whole 256ths of the increment. */
  lemma ScaledBack(excess: nat, increment: nat)
    ensures (excess * EVENT_SCALE + increment) / EVENT_SCALE == excess + increment / EVENT_SCALE
  {
    var q := increment / EVENT_SCALE;
    var m := increment % EVENT_SCALE;
    assert increment == q * EVENT_SCALE + m;
    assert excess * EVENT_SCALE + increment == (excess + q) * EVENT_SCALE + m;
  }

  // ---------------------------------------------------- equivalent nets

  /** Every equivalence link points into the vector, and no net id reaches UNKNOWN_NET. */
  predicate Linked(equivalentNet: seq<nat>) {
    && |equivalentNet| <= UNKNOWN_NET
    && forall n :: 0 <= n < |equivalentNet| ==> equivalentNet[n] < |equivalentNet|
  }

  /** Where the walk down the equivalence links stops: the first net whose link is not smaller. */
  function Least(equivalentNet: seq<nat>, net: nat): (r: nat)
    requires Linked(equivalentNet) && net < |equivalentNet|
    ensures r <= net && equivalentNet[r] >= r
    decreases net
  {
    if equivalentNet[net] < net then Least(equivalentNet, equivalentNet[net]) else net
  }

  /** A net below its own link is where the walk stops; every net on the walk stops at the same net. */
  lemma {:induction false} LeastOfWalk(equivalentNet: seq<nat>, net: nat)
    requires Linked(equivalentNet) && net < |equivalentNet|
    ensures equivalentNet[net] >= net ==> Least(equivalentNet, net) == net
    ensures Least(equivalentNet, Least(equivalentNet, net)) == Least(equivalentNet, net)
    ensures equivalentNet[net] < net ==> Least(equivalentNet, equivalentNet[net]) == Least(equivalentNet, net)
    decreases net
  {
    if equivalentNet[net] < net {
      LeastOfWalk(equivalentNet, equivalentNet[net]);
    }
  }

  /** GetLeastEquivalentNet: UNKNOWN_NET maps to itself; other nets to where the walk stops. */
  method GetLeastEquivalentNet(equivalentNet: seq<nat>, netId: nat) returns (r: nat)
    requires Linked(equivalentNet) && (netId < |equivalentNet| || netId == UNKNOWN_NET)
    ensures netId == UNKNOWN_NET ==> r == UNKNOWN_NET
    ensures netId != UNKNOWN_NET ==> r == Least(equivalentNet, netId)
    ensures netId != UNKNOWN_NET ==> r <= netId && equivalentNet[r] >= r
  {
    if netId == UNKNOWN_NET {
      return UNKNOWN_NET;
    }
    r := netId;
    while equivalentNet[r] < r
      invariant r < |equivalentNet| && Least(equivalentNet, r) == Least(equivalentNet, netId)
      decreases r
    {
      r := equivalentNet[r];
    }
  }

  /** GetGreatestEquivalentNet: the link of the net the same walk stops at. */
  method GetGreatestEquivalentNet(equivalentNet: seq<nat>, netId: nat) returns (r: nat)
    requires Linked(equivalentNet) && (netId < |equivalentNet| || netId == UNKNOWN_NET)
    ensures netId == UNKNOWN_NET ==> r == UNKNOWN_NET
    ensures netId != UNKNOWN_NET ==> r == equivalentNet[Least(equivalentNet, netId)]
    ensures netId != UNKNOWN_NET ==> r < |equivalentNet| && r >= Least(equivalentNet, netId)
  {
    if netId == UNKNOWN_NET {
      return UNKNOWN_NET;
    }
    var net: nat := netId;
    while equivalentNet[net] < net
      invariant net < |equivalentNet| && Least(equivalentNet, net) == Least(equivalentNet, netId)
      decreases net
    {
      net := equivalentNet[net];
    }
    r := equivalentNet[net];
  }

  // ---------------------------------------------------- SplitHierarchy

  /**
   * The parts the splitting loop produces from position `start` on: the
   * text up to each occurrence of the delimiter (searched as a whole
   * string), resuming one character after it; then the rest. Resuming
   * past the end makes the final substr throw.
   */
  function Pieces(s: string, delimiter: string, start: nat): (r: Result<seq<string>>)
    requires |s| < NPOS
    ensures r.Ok? ==> r.value != []
    decreases |s| + 2 - start
  {
    var offset := Find(s, delimiter, start);
    if offset <= |s| then
      var rest := Pieces(s, delimiter, offset + 1);
      if rest.Fail? then rest else Ok([s[start..offset]] + rest.value)
    else if start <= |s| then Ok([s[start..]])
    else Fail(OutOfRange)
  }

  predicate StartsAtRoot(path: string) {
    |path| >= 1 && path[0] == '/'
  }

  /** The list SplitHierarchy returns: a leading "/" contributes an empty first part. */
  function Hierarchy(path: string, delimiter: string): (r: Result<seq<string>>)
    requires |path| < NPOS
    ensures r.Ok? && StartsAtRoot(path) ==> |r.value| >= 2 && r.value[0] == ""
  {
    if StartsAtRoot(path) then
      var rest := Pieces(path, delimiter, 1);
      if rest.Fail? then rest else Ok([""] + rest.value)
    else Pieces(path, delimiter, 0)
  }

  /**
   * With a one-character delimiter the parts join back to the text they
   * were cut from, and no part contains the delimiter.
   */
  /** Before the delimiter's first occurrence from `start`, no character is the delimiter. */
  lemma NoDelimiterBefore(s: string, delimiter: string, start: nat)
    requires |s| < NPOS && |delimiter| == 1
    ensures forall i :: start <= i < Find(s, delimiter, start) && i < |s| ==> s[i] != delimiter[0]
  {
    forall i | start <= i < Find(s, delimiter, start) && i < |s|
      ensures s[i] != delimiter[0]
    {
      assert !OccursAt(s, delimiter, i);
      assert s[i..i + 1] == [s[i]];
    }
  }

  /**
   * With a one-character delimiter the parts join back to the text they
   * were cut from, and no part contains the delimiter.
   */
  lemma {:induction false} PiecesJoin(s: string, delimiter: string, start: nat)
    requires |s| < NPOS && |delimiter| == 1 && start <= |s|
    ensures Pieces(s, delimiter, start).Ok?
    ensures Text.Join(delimiter, Pieces(s, delimiter, start).value) == s[start..]
    ensures forall p :: p in Pieces(s, delimiter, start).value ==> delimiter[0] !in p
    decreases |s| + 2 - start
  {
    var offset := Find(s, delimiter, start);
    NoDelimiterBefore(s, delimiter, start);
    if offset <= |s| {
      PiecesJoin(s, delimiter, offset + 1);
      var rest := Pieces(s, delimiter, offset + 1).value;
      assert Pieces(s, delimiter, start).value == [s[start..offset]] + rest;
      Text.JoinCons(s[start..offset], rest, delimiter);
      Cut(s, delimiter, start, offset);
    }
  }

  /** The text from `start` is the part before the delimiter, the delimiter and the rest. */
  lemma Cut(s: string, delimiter: string, start: nat, offset: nat)
    requires start <= offset && offset + |delimiter| <= |s| && s[offset..offset + |delimiter|] == delimiter && |delimiter| == 1
    ensures s[start..] == s[start..offset] + delimiter + s[offset + 1..]
  {
  }

  /**
   * Joining the hierarchy with a one-character delimiter gives back the
   * path, when the path does not start with "/" or "/" is the delimiter.
   */
  lemma HierarchyJoins(path: string, delimiter: string)
    requires |path| < NPOS && |delimiter| == 1
    requires !StartsAtRoot(path) || delimiter == "/"
    ensures Hierarchy(path, delimiter).Ok?
    ensures Text.Join(delimiter, Hierarchy(path, delimiter).value) == path
  {
    if StartsAtRoot(path) {
      PiecesJoin(path, delimiter, 1);
      Text.JoinCons("", Pieces(path, delimiter, 1).value, delimiter);
      assert path == "" + delimiter + path[1..];
    } else {
      PiecesJoin(path, delimiter, 0);
      assert path[0..] == path;
    }
  }

  /** An empty delimiter is found at every position, so the loop runs past the end and the last substr throws. */
  lemma {:induction false} EmptyDelimiterThrows(s: string, start: nat)
    requires |s| < NPOS && start <= |s| + 1
    ensures Pieces(s, "", start) == Fail(OutOfRange)
    decreases |s| + 2 - start
  {
    if start <= |s| {
      assert OccursAt(s, "", start);
      assert Find(s, "", start) == start;
      EmptyDelimiterThrows(s, start + 1);
    }
  }

  /** A part followed by the rest, regrouped. */
  lemma Regroup(done: seq<string>, part: string, rest: seq<string>)
    ensures (done + [part]) + rest == done + ([part] + rest)
  {
  }

  /** Tacks the parts already cut in front of the outcome of the rest. */
  function After(done: seq<string>, rest: Result<seq<string>>): Result<seq<string>> {
    if rest.Fail? then rest else Ok(done + rest.value)
  }

  /** One round of the loop: the part before the delimiter moves from the outcome to the parts cut. */
  lemma PiecesStep(s: string, delimiter: string, start: nat, done: seq<string>)
    requires |s| < NPOS && Find(s, delimiter, start) <= |s|
    ensures After(done, Pieces(s, delimiter, start))
         == After(done + [s[start..Find(s, delimiter, start)]], Pieces(s, delimiter, Find(s, delimiter, start) + 1))
  {
    var offset := Find(s, delimiter, start);
    var rest := Pieces(s, delimiter, offset + 1);
    if rest.Ok? {
      Regroup(done, s[start..offset], rest.value);
    }
  }

  /** Past the last delimiter: the rest of the text, or the throwing substr when nothing is left to start from. */
  lemma PiecesLast(s: string, delimiter: string, start: nat)
    requires |s| < NPOS && Find(s, delimiter, start) > |s|
    ensures start <= |s| ==> Pieces(s, delimiter, start) == Ok([s[start..]]) && Substr(s, start, NPOS) == Ok(s[start..])
    ensures start > |s| ==> Pieces(s, delimiter, start) == Fail(OutOfRange) && Substr(s, start, NPOS).Fail?
  {
  }

  lemma NothingBefore(rest: Result<seq<string>>)
    ensures After([], rest) == rest
  {
    if rest.Ok? {
      assert [] + rest.value == rest.value;
    }
  }

  /** One round of the splitting loop: cut the part before the delimiter and search again after it. */
  method NextPart(path: string, delimiter: string, parts: seq<string>, start: nat, offset: nat)
    returns (parts': seq<string>, start': nat, offset': nat)
    requires |path| < NPOS && offset == Find(path, delimiter, start) && offset <= |path|
    ensures parts' == parts + [path[start..offset]]
    ensures start' == offset + 1 <= |path| + 1 && offset' == Find(path, delimiter, start')
    ensures After(parts', Pieces(path, delimiter, start')) == After(parts, Pieces(path, delimiter, start))
  {
    PiecesStep(path, delimiter, start, parts);
    parts' := parts + [path[start..offset]];
    start' := offset + 1;
    offset' := Find(path, delimiter, start');
  }

  /** SplitHierarchy: the path cut at each occurrence of the delimiter string. */
  method SplitHierarchy(path: string, delimiter: string) returns (r: Result<seq<string>>)
    requires |path| < NPOS
    ensures r == Hierarchy(path, delimiter)
  {
    var parts: seq<string> := [];
    var start := 0;
    if StartsAtRoot(path) {
      parts := [""];
      start := 1;
    } else {
      NothingBefore(Pieces(path, delimiter, 0));
    }
    ghost var whole := Hierarchy(path, delimiter);
    var offset := Find(path, delimiter, start);
    while offset <= |path|
      invariant start <= |path| + 1
      invariant offset == Find(path, delimiter, start)
      invariant whole == After(parts, Pieces(path, delimiter, start))
      decreases |path| + 2 - start
    {
      parts, start, offset := NextPart(path, delimiter, parts, start, offset);
    }
    PiecesLast(path, delimiter, start);
    var last := Substr(path, start, NPOS);
    if last.Fail? {
      return Fail(last.failure);
    }
    return Ok(parts + [last.value]);
  }

  // ------------------------------------------------------- ExpandBusNet

  /** The decimal digits of a natural number, as `operator<<` writes them. */
  function NatText(n: nat): (r: string)
    ensures r != []
    decreases n
  {
    if n < 10 then ["0123456789"[n]]
    else NatText(n / 10) + ["0123456789"[n % 10]]
  }

  /** to_string<int>: an optional minus sign and the decimal digits. */
  function IntText(n: int): (r: string) {
    if n < 0 then "-" + NatText(-n) else NatText(n)
  }

  lemma {:induction false} NatTextInjective(a: nat, b: nat)
    requires NatText(a) == NatText(b)
    ensures a == b
    decreases a
  {
    var ta, tb := NatText(a), NatText(b);
    if a >= 10 && b >= 10 {
      assert ta[..|ta| - 1] == NatText(a / 10);
      assert tb[..|tb| - 1] == NatText(b / 10);
      NatTextInjective(a / 10, b / 10);
      assert "0123456789"[a % 10] == ta[|ta| - 1] == "0123456789"[b % 10];
    } else if a < 10 && b < 10 {
      assert "0123456789"[a] == "0123456789"[b];
    } else {
      assert false;
    }
  }

  /** Different indices are written differently. */
  lemma IntTextInjective(a: int, b: int)
    requires IntText(a) == IntText(b)
    ensures a == b
  {
    if a < 0 && b < 0 {
      assert IntText(a)[1..] == NatText(-a);
      assert IntText(b)[1..] == NatText(-b);
      NatTextInjective(-a, -b);
    } else if a < 0 {
      assert IntText(a)[0] == '-';
      assert NatText(b)[0] != '-' by { NatTextLeadsWithDigit(b); }
    } else if b < 0 {
      assert IntText(b)[0] == '-';
      assert NatText(a)[0] != '-' by { NatTextLeadsWithDigit(a); }
    } else {
      NatTextInjective(a, b);
    }
  }

  lemma {:induction false} NatTextLeadsWithDigit(n: nat)
    ensures NatText(n)[0] in "0123456789"
    decreases n
  {
    if n >= 10 {
      NatTextLeadsWithDigit(n / 10);
    }
  }

  /** The text pieces of a bus name: `base<first:last>tail`, with `<` kept in the base and `>` in the tail. */
  datatype Bus = Bus(base: string, first: string, last: string, tail: string)

  /** The opening bracket the expansion uses, tried in the order < [ ( {, and its terminator. */
  function Opening(name: string): (r: (nat, char))
    requires |name| < NPOS
    ensures r.0 == NPOS || (r.0 < |name| && name[r.0] in "<[({")
  {
    var angle := FindFirstOf(name, "<", 0);
    if angle <= |name| then (angle, '>')
    else
      var square := FindFirstOf(name, "[", 0);
      if square <= |name| then (square, ']')
      else
        var round := FindFirstOf(name, "(", 0);
        if round <= |name| then (round, ')')
        else (FindFirstOf(name, "{", 0), '}')
  }

  /**
   * The pieces ExpandBusNet cuts out of a name: None unless an opening
   * bracket, a ':' and the matching terminator are all present (each
   * searched from the start of the name).
   */
  function BusOf(name: string): (r: Option<Bus>)
    requires |name| < NPOS
  {
    var (begin, terminator) := Opening(name);
    var colon := FindFirstOf(name, ":", 0);
    var end := FindFirstOf(name, [terminator], 0);
    if begin < |name| && colon < |name| && end <= |name| then
      var first := Substr(name, begin + 1, SizeSub(SizeSub(colon, begin), 1));
      var last := Substr(name, colon + 1, SizeSub(SizeSub(end, colon), 1));
      Some(Bus(name[..begin + 1], first.value, last.value, name[end..]))
    else None
  }

  /** The first position of a character, when everything before it is different. */
  lemma FirstOf(s: string, c: char, i: nat)
    requires |s| < NPOS && i < |s| && s[i] == c
    requires forall j :: 0 <= j < i ==> s[j] != c
    ensures FindFirstOf(s, [c], 0) == i
  {
  }

  /**
   * A name with '<' at b, the first ':' at c and the first '>' at e, in
   * that order and none of them earlier, splits into the base up to '<',
   * the two index texts and the tail from '>'.
   */
  lemma BusOfAngle(name: string, b: nat, c: nat, e: nat)
    requires |name| < NPOS && b < c < e < |name|
    requires name[b] == '<' && name[c] == ':' && name[e] == '>'
    requires forall j :: 0 <= j < b ==> name[j] != '<'
    requires forall j :: 0 <= j < c ==> name[j] != ':'
    requires forall j :: 0 <= j < e ==> name[j] != '>'
    ensures BusOf(name) == Some(Bus(name[..b + 1], name[b + 1..c], name[c + 1..e], name[e..]))
  {
    FirstOf(name, '<', b);
    FirstOf(name, ':', c);
    FirstOf(name, '>', e);
  }

  /** A name without any bracket is no bus. */
  lemma NoBracketNoBus(name: string)
    requires |name| < NPOS
    requires forall i :: 0 <= i < |name| ==> name[i] !in "<[({"
    ensures BusOf(name) == None
  {
  }

  /** The index written at position m of the expansion: counting from the first index toward the last. */
  function BusIndex(first: int, last: int, m: nat): int {
    if first < last then first + m else first - m
  }

  /** The name of one bus bit: the base, the index and the tail. */
  function BusName(base: string, index: int, tail: string): string {
    base + IntText(index) + tail
  }

  /** Different indices give different names. */
  lemma BusNamesDiffer(base: string, i: int, j: int, tail: string)
    requires i != j
    ensures BusName(base, i, tail) != BusName(base, j, tail)
  {
    var x, y := IntText(i), IntText(j);
    if x == y {
      IntTextInjective(i, j);
    }
    if |x| == |y| {
      var k :| 0 <= k < |x| && x[k] != y[k];
      assert BusName(base, i, tail)[|base| + k] == x[k];
      assert BusName(base, j, tail)[|base| + k] == y[k];
    } else {
      assert |BusName(base, i, tail)| != |BusName(base, j, tail)|;
    }
  }

  /**
   * ExpandBusNet: one name per index from the first to the last, in that
   * order, each the base, the index and the tail; a name without a
   * complete bus comes back alone. `fromString` is the integer
   * conversion of the index texts.
   */
  method ExpandBusNet(name: string, fromString: string -> int) returns (r: seq<string>)
    requires |name| < NPOS
    ensures BusOf(name).None? ==> r == [name]
    ensures BusOf(name).Some? ==>
      var bus := BusOf(name).value;
      var first, last := fromString(bus.first), fromString(bus.last);
      && |r| == (if first < last then last - first else first - last) + 1
      && (forall m :: 0 <= m < |r| ==> r[m] == BusName(bus.base, BusIndex(first, last, m), bus.tail))
    ensures forall m, n :: 0 <= m < n < |r| ==> r[m] != r[n]
  {
    var bus := BusOf(name);
    if bus.None? {
      return [name];
    }
    var base, tail := bus.value.base, bus.value.tail;
    var first, last := fromString(bus.value.first), fromString(bus.value.last);
    var low := if first < last then first else last;
    var high := if first < last then last else first;
    var named := (i: int) => BusName(base, i, tail);
    r := [];
    var index := low;
    while index <= high
      invariant low <= index <= high + 1
      invariant first < last ==> r == Ascending(named, low, index)
      invariant first >= last ==> r == Descending(named, low, index)
    {
      if first < last {
        r := r + [named(index)];
      } else {
        r := [named(index)] + r;
      }
      index := index + 1;
    }
    if first < last {
      AscendingAt(named, low, index);
    } else {
      DescendingAt(named, low, index);
    }
    BusNamesInjective(base, tail);
    assert forall i, j :: i != j ==> named(i) != named(j);
    if first < last {
      AscendingDistinct(named, low, index);
    } else {
      DescendingDistinct(named, low, index);
    }
  }

  lemma BusNamesInjective(base: string, tail: string)
    ensures forall i, j :: i != j ==> BusName(base, i, tail) != BusName(base, j, tail)
  {
    forall i, j | i != j
      ensures BusName(base, i, tail) != BusName(base, j, tail)
    {
      BusNamesDiffer(base, i, j, tail);
    }
  }

  /** Names of different indices differ, so the expansion has no repeats. */
  lemma AscendingDistinct(name: int -> string, low: int, high: int)
    requires low <= high
    requires forall i, j :: i != j ==> name(i) != name(j)
    ensures forall m, n :: 0 <= m < n < |Ascending(name, low, high)| ==> Ascending(name, low, high)[m] != Ascending(name, low, high)[n]
  {
    AscendingAt(name, low, high);
  }

  lemma DescendingDistinct(name: int -> string, low: int, high: int)
    requires low <= high
    requires forall i, j :: i != j ==> name(i) != name(j)
    ensures forall m, n :: 0 <= m < n < |Descending(name, low, high)| ==> Descending(name, low, high)[m] != Descending(name, low, high)[n]
  {
    DescendingAt(name, low, high);
  }

  /** The names for the indices from `low` up to before `high`, in increasing order. */
  function Ascending(name: int -> string, low: int, high: int): seq<string>
    decreases high - low
  {
    if high <= low then [] else Ascending(name, low, high - 1) + [name(high - 1)]
  }

  /** The same names in decreasing order. */
  function Descending(name: int -> string, low: int, high: int): seq<string>
    decreases high - low
  {
    if high <= low then [] else [name(high - 1)] + Descending(name, low, high - 1)
  }

  lemma {:induction false} AscendingAt(name: int -> string, low: int, high: int)
    requires low <= high
    ensures |Ascending(name, low, high)| == high - low
    ensures forall m :: 0 <= m < high - low ==> Ascending(name, low, high)[m] == name(low + m)
    decreases high - low
  {
    if high > low {
      AscendingAt(name, low, high - 1);
    }
  }

  lemma {:induction false} DescendingAt(name: int -> string, low: int, high: int)
    requires low <= high
    ensures |Descending(name, low, high)| == high - low
    ensures forall m :: 0 <= m < high - low ==> Descending(name, low, high)[m] == name(high - 1 - m)
    decreases high - low
  {
    if high > low {
      DescendingAt(name, low, high - 1);
      var rest := Descending(name, low, high - 1);
      forall m | 1 <= m < high - low
        ensures Descending(name, low, high)[m] == name(high - 1 - m)
      {
        assert Descending(name, low, high)[m] == rest[m - 1];
        assert high - 1 - 1 - (m - 1) == high - 1 - m;
      }
    }
  }

  // ---------------------------------------------------------- instances

  /** Instances are numbered parents first: the root 0 is its own parent, every other parent has a smaller id. */
  predicate ParentsFirst(parent: seq<nat>) {
    && |parent| > 0 && parent[0] == 0
    && forall i :: 0 < i < |parent| ==> parent[i] < i
  }

  /** The number of parent steps from an instance to the root. */
  function Depth(parent: seq<nat>, instance: nat): nat
    requires ParentsFirst(parent) && instance < |parent|
    decreases instance
  {
    if instance == 0 then 0 else 1 + Depth(parent, parent[instance])
  }

  /** `ancestor` is the instance itself or lies on its chain of parents. */
  predicate Within(parent: seq<nat>, instance: nat, ancestor: nat)
    requires ParentsFirst(parent) && instance < |parent|
    decreases instance
  {
    instance == ancestor || (instance != 0 && Within(parent, parent[instance], ancestor))
  }

  /** Every instance lies within the root, and a strict ancestor is shallower. */
  lemma {:induction false} WithinFacts(parent: seq<nat>, instance: nat, ancestor: nat)
    requires ParentsFirst(parent) && instance < |parent|
    ensures Within(parent, instance, 0)
    ensures Within(parent, instance, ancestor) && ancestor != instance ==>
      ancestor < instance && Depth(parent, ancestor) < Depth(parent, instance)
    decreases instance
  {
    if instance != 0 {
      WithinFacts(parent, parent[instance], ancestor);
    }
  }

  /** Within is transitive. */
  lemma {:induction false} WithinTransitive(parent: seq<nat>, a: nat, b: nat, c: nat)
    requires ParentsFirst(parent) && a < |parent| && b < |parent|
    requires Within(parent, a, b) && Within(parent, b, c)
    ensures Within(parent, a, c)
    decreases a
  {
    if a != b {
      WithinTransitive(parent, parent[a], b, c);
    }
  }

  /** InstanceDepth: the parent steps to the root (the source's depth asserts hold for parents-first numbering). */
  method InstanceDepth(parent: seq<nat>, instance: nat) returns (depth: nat)
    requires ParentsFirst(parent) && instance < |parent|
    ensures depth == Depth(parent, instance)
    ensures depth <= instance && (depth == 0 <==> instance == 0)
  {
    depth := 0;
    var current: nat := instance;
    while current != 0
      invariant current < |parent|
      invariant depth + Depth(parent, current) == Depth(parent, instance)
      invariant depth + current <= instance
      decreases current
    {
      depth := depth + 1;
      current := parent[current];
    }
  }

  /** IsSubcircuitOf: everything is within the root; otherwise the instance itself or one of its ancestors. */
  method IsSubcircuitOf(parent: seq<nat>, instance: nat, ancestor: nat) returns (r: bool)
    requires ParentsFirst(parent) && instance < |parent|
    ensures r <==> Within(parent, instance, ancestor)
  {
    WithinFacts(parent, instance, ancestor);
    if ancestor == 0 || instance == ancestor || parent[instance] == ancestor {
      return true;
    }
    var current: nat := instance;
    while parent[current] != 0
      invariant current < |parent| && current != ancestor
      invariant Within(parent, current, ancestor) == Within(parent, instance, ancestor)
      decreases current
    {
      current := parent[current];
      if current == ancestor {
        return true;
      }
    }
    return false;
  }

  // -------------------------------------------------------- PathCrosses

  /** The chain from a terminal net stays there. */
  lemma {:induction false} TerminalFixed(nets: seq<VirtualNet>, net: nat, k: nat)
    requires WellFormed(nets) && net < |nets| && IsTerminal(nets, net)
    ensures Hop(nets, net, k) == net
    decreases k
  {
    if k > 0 {
      TerminalFixed(nets, net, k - 1);
    }
  }

  lemma {:induction false} HopAdd(nets: seq<VirtualNet>, net: nat, a: nat, b: nat)
    requires WellFormed(nets) && net < |nets|
    ensures Hop(nets, net, a + b) == Hop(nets, Hop(nets, net, a), b)
    decreases a
  {
    if a > 0 {
      HopAdd(nets, nets[net].nextNetId, a - 1, b);
    }
  }

  /** Once the chain reaches a terminal net it stays there. */
  lemma StaysAfter(nets: seq<VirtualNet>, net: nat, k: nat)
    requires WellFormed(nets) && net < |nets|
    requires IsTerminal(nets, Hop(nets, net, k))
    ensures forall m :: k <= m ==> Hop(nets, net, m) == Hop(nets, net, k)
  {
    forall m | k <= m
      ensures Hop(nets, net, m) == Hop(nets, net, k)
    {
      HopAdd(nets, net, k, m - k);
      TerminalFixed(nets, Hop(nets, net, k), m - k);
    }
  }

  /** The nets of the chain from `net` over its first k links. */
  ghost function Reach(nets: seq<VirtualNet>, net: nat, k: nat): set<nat>
    requires WellFormed(nets) && net < |nets|
  {
    set j | 0 <= j <= k :: Hop(nets, net, j)
  }

  /** Some link of the chain from `net` reaches `x`. */
  ghost predicate Reached(nets: seq<VirtualNet>, net: nat, x: nat)
    requires WellFormed(nets) && net < |nets|
  {
    exists k :: x == Hop(nets, net, k)
  }

  /** The target's chain, collected up to its terminal: every net the chain ever reaches. */
  method ChainSet(target: seq<VirtualNet>, targetNet: nat, ghost steps: nat) returns (nets: set<nat>)
    requires WellFormed(target) && targetNet < |target|
    requires IsTerminal(target, Hop(target, targetNet, steps))
    ensures forall k :: Hop(target, targetNet, k) in nets
    ensures forall x :: x in nets ==> Reached(target, targetNet, x)
  {
    StaysAfter(target, targetNet, steps);
    nets := {targetNet};
    var net := target[targetNet].nextNetId;
    ghost var i := 1;
    assert Hop(target, targetNet, 1) == net;
    nets := nets + {net};
    assert nets == Reach(target, targetNet, 1) by {
      assert Hop(target, targetNet, 0) == targetNet;
    }
    while !IsTerminal(target, net)
      invariant 1 <= i && net < |target| && net == Hop(target, targetNet, i)
      invariant nets == Reach(target, targetNet, i)
      decreases steps - i
    {
      HopAdd(target, targetNet, i, 1);
      net := target[net].nextNetId;
      i := i + 1;
      nets := nets + {net};
      assert nets == Reach(target, targetNet, i) by {
        assert forall j :: 0 <= j <= i - 1 ==> Hop(target, targetNet, j) in Reach(target, targetNet, i - 1);
      }
    }
    StaysAfter(target, targetNet, i);
    forall x | x in nets
      ensures Reached(target, targetNet, x)
    {
      var k :| 0 <= k <= i && x == Hop(target, targetNet, k);
      assert x == Hop(target, targetNet, k);
    }
  }

  /**
   * PathCrosses: the chain from the search net (the net itself included)
   * meets the chain from the target net (target and terminal included).
   * The ghost step counts witness that both chains end at a terminal.
   */
  method PathCrosses(search: seq<VirtualNet>, searchNet: nat, target: seq<VirtualNet>, targetNet: nat,
                     ghost searchSteps: nat, ghost targetSteps: nat) returns (r: bool)
    requires WellFormed(search) && searchNet < |search|
    requires WellFormed(target) && targetNet < |target|
    requires IsTerminal(search, Hop(search, searchNet, searchSteps))
    requires IsTerminal(target, Hop(target, targetNet, targetSteps))
    ensures r <==> exists j, k :: Hop(search, searchNet, j) == Hop(target, targetNet, k)
  {
    var targets := ChainSet(target, targetNet, targetSteps);
    if searchNet in targets {
      var k :| searchNet == Hop(target, targetNet, k);
      assert Hop(search, searchNet, 0) == Hop(target, targetNet, k);
      return true;
    }
    StaysAfter(search, searchNet, searchSteps);
    var net := searchNet;
    ghost var i := 0;
    while true
      invariant i <= searchSteps && net < |search| && net == Hop(search, searchNet, i)
      invariant forall j :: 0 <= j <= i ==> Hop(search, searchNet, j) !in targets
      decreases searchSteps - i
    {
      HopAdd(search, searchNet, i, 1);
      net := search[net].nextNetId;
      i := i + 1;
      if net in targets {
        var k :| net == Hop(target, targetNet, k);
        assert Hop(search, searchNet, i) == Hop(target, targetNet, k);
        return true;
      }
      if IsTerminal(search, net) {
        break;
      }
    }
    StaysAfter(search, searchNet, i);
    assert forall j :: Hop(search, searchNet, j) !in targets;
    return false;
  }
}
