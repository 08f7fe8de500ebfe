/**
 * The inverter chains of the database: inverterNet_v[n] names the net an
 * inverter drives n from (UNKNOWN_NET when n is not an inverter output),
 * highLow_v[n] whether n is the inverse of the net inverterNet_v[n] names.
 * SetInverterHighLow compresses every chain so that each output points at
 * the net at the far end of its chain, through the recursive
 * SetInverterInput. This module models both as the code writes them and
 * gives the corrected compression used to state what the polarity means.
 */
module Inverters {
  import opened Outcomes
  import opened CvcTypes

  /** Every input names a net of the vector or is UNKNOWN_NET; no net id reaches UNKNOWN_NET. */
  predicate InputsInRange(inverterNet: seq<nat>)
  {
    && |inverterNet| <= UNKNOWN_NET
    && forall n :: 0 <= n < |inverterNet| ==> inverterNet[n] == UNKNOWN_NET || inverterNet[n] < |inverterNet|
  }

  /** std::max on net ids. */
  function MaxNet(a: nat, b: nat): nat
  {
    if a < b then b else a
  }

  /** The state after one call of SetInverterInput and the net it returned. */
  datatype Inversion = Inversion(root: nat, inverterNet: seq<nat>, highLow: seq<bool>)

  /**
   * SetInverterInput(net, maxNet) as written: stop at a net with no input
   * or whose input is maxNet, otherwise compress the input's chain first,
   * point net at the chain's end and set its polarity to the opposite of
   * its input's. depth is the call stack the recursion may use; None means
   * it ran out.
   */
  function InverterInput(inverterNet: seq<nat>, highLow: seq<bool>, net: nat, maxNet: nat, depth: nat): (r: Option<Inversion>)
    requires InputsInRange(inverterNet) && |highLow| == |inverterNet| && net < |inverterNet|
    ensures r.Some? ==>
      && |r.value.inverterNet| == |inverterNet| && |r.value.highLow| == |inverterNet|
      && r.value.root < |inverterNet| && InputsInRange(r.value.inverterNet)
    decreases depth
  {
    if depth == 0 then None
    else if inverterNet[net] == UNKNOWN_NET then Some(Inversion(net, inverterNet, highLow))
    else if inverterNet[net] == maxNet then Some(Inversion(maxNet, inverterNet, highLow))
    else
      var input := inverterNet[net];
      match InverterInput(inverterNet, highLow, input, MaxNet(maxNet, input), depth - 1)
      case None => None
      case Some(d) => Some(Inversion(d.root, d.inverterNet[net := d.root], d.highLow[net := !d.highLow[input]]))
  }

  /**
   * SetInverterHighLow as written, from net `from` on: every net with an
   * input is pointed at the end of its input's chain and given the
   * opposite polarity of that input, read after the input's own chain was
   * compressed.
   */
  function InverterSweep(inverterNet: seq<nat>, highLow: seq<bool>, from: nat, depth: nat): (r: Option<(seq<nat>, seq<bool>)>)
    requires InputsInRange(inverterNet) && |highLow| == |inverterNet| && from <= |inverterNet|
    ensures r.Some? ==> |r.value.0| == |inverterNet| && |r.value.1| == |inverterNet| && InputsInRange(r.value.0)
    decreases |inverterNet| - from
  {
    if from == |inverterNet| then Some((inverterNet, highLow))
    else if inverterNet[from] == UNKNOWN_NET then InverterSweep(inverterNet, highLow, from + 1, depth)
    else
      var input := inverterNet[from];
      match InverterInput(inverterNet, highLow, input, MaxNet(from, input), depth)
      case None => None
      case Some(d) => InverterSweep(d.inverterNet[from := d.root], d.highLow[from := !d.highLow[input]], from + 1, depth)
  }

  /** The two vectors of CCvcDb that the inverter pass updates in place. */
  class InverterNets {
    var inverterNet: seq<nat>
    var highLow: seq<bool>

    /** SetInverterInput: a call that runs out of stack changes nothing. */
    method SetInverterInput(net: nat, maxNet: nat, depth: nat) returns (r: Option<nat>)
      requires InputsInRange(inverterNet) && |highLow| == |inverterNet| && net < |inverterNet|
      modifies this
      ensures var s := InverterInput(old(inverterNet), old(highLow), net, maxNet, depth);
        && (r.None? <==> s.None?)
        && (s.Some? ==> r == Some(s.value.root) && inverterNet == s.value.inverterNet && highLow == s.value.highLow)
      ensures r.None? ==> inverterNet == old(inverterNet) && highLow == old(highLow)
      decreases depth
    {
      if depth == 0 {
        return None;
      }
      if inverterNet[net] == UNKNOWN_NET {
        return Some(net);
      } else if inverterNet[net] == maxNet {
        return Some(maxNet);
      }
      var input := inverterNet[net];
      var root := SetInverterInput(input, MaxNet(maxNet, input), depth - 1);
      if root.None? {
        return None;
      }
      inverterNet := inverterNet[net := root.value];
      highLow := highLow[net := !highLow[input]];
      return Some(inverterNet[net]);
    }

    /** SetInverterHighLow: completed is false when some chain ran out of stack. */
    method SetInverterHighLow(depth: nat) returns (completed: bool)
      requires InputsInRange(inverterNet) && |highLow| == |inverterNet|
      modifies this
      ensures var s := InverterSweep(old(inverterNet), old(highLow), 0, depth);
        && (completed <==> s.Some?)
        && (completed ==> (inverterNet, highLow) == s.value)
    {
      var netCount := |inverterNet|;
      var netIt := 0;
      while netIt < netCount
        invariant netIt <= netCount == |inverterNet| == |highLow| && InputsInRange(inverterNet)
        invariant InverterSweep(inverterNet, highLow, netIt, depth) == InverterSweep(old(inverterNet), old(highLow), 0, depth)
      {
        if inverterNet[netIt] != UNKNOWN_NET {
          var input := inverterNet[netIt];
          var root := SetInverterInput(input, MaxNet(netIt, input), depth);
          if root.None? {
            return false;
          }
          inverterNet := inverterNet[netIt := root.value];
          highLow := highLow[netIt := !highLow[input]];
        }
        netIt := netIt + 1;
      }
      return true;
    }
  }

  // ------------------------------------------------------------ what one call keeps

  /**
   * One call only compresses: every net keeps its input or is pointed at
   * the returned net; a net without an input never gains one and keeps its
   * polarity; the returned net has no input or is at least maxNet.
   */
  lemma {:induction false} InverterInputOnlyCompresses(inverterNet: seq<nat>, highLow: seq<bool>, net: nat, maxNet: nat, depth: nat)
    requires InputsInRange(inverterNet) && |highLow| == |inverterNet| && net < |inverterNet|
    requires InverterInput(inverterNet, highLow, net, maxNet, depth).Some?
    ensures var d := InverterInput(inverterNet, highLow, net, maxNet, depth).value;
      && (forall x :: 0 <= x < |inverterNet| ==> d.inverterNet[x] == inverterNet[x] || d.inverterNet[x] == d.root)
      && (forall x :: 0 <= x < |inverterNet| && inverterNet[x] == UNKNOWN_NET ==>
            d.inverterNet[x] == UNKNOWN_NET && d.highLow[x] == highLow[x])
      && (inverterNet[d.root] == UNKNOWN_NET || maxNet <= d.root)
    decreases depth
  {
    if inverterNet[net] != UNKNOWN_NET && inverterNet[net] != maxNet {
      var input := inverterNet[net];
      InverterInputOnlyCompresses(inverterNet, highLow, input, MaxNet(maxNet, input), depth - 1);
    }
  }

  /** Every inverter input has a lower rank than its output: the chains are acyclic. */
  predicate Ranked(inverterNet: seq<nat>, rank: seq<nat>)
    requires InputsInRange(inverterNet)
  {
    && |rank| == |inverterNet|
    && forall n :: 0 <= n < |inverterNet| && inverterNet[n] != UNKNOWN_NET ==> rank[inverterNet[n]] < rank[n]
  }

  /**
   * On acyclic chains, a call whose maxNet ranks at least as high as net
   * and whose stack is deeper than net's rank completes, returns a net
   * without an input, and leaves the chains acyclic under the same ranks.
   */
  lemma {:induction false} InverterInputRanked(inverterNet: seq<nat>, highLow: seq<bool>, rank: seq<nat>, net: nat, maxNet: nat, depth: nat)
    requires InputsInRange(inverterNet) && |highLow| == |inverterNet| && net < |inverterNet|
    requires Ranked(inverterNet, rank) && maxNet < |inverterNet| && rank[net] <= rank[maxNet] && rank[net] < depth
    ensures var r := InverterInput(inverterNet, highLow, net, maxNet, depth);
      && r.Some?
      && inverterNet[r.value.root] == UNKNOWN_NET && r.value.inverterNet[r.value.root] == UNKNOWN_NET
      && rank[r.value.root] <= rank[net]
      && Ranked(r.value.inverterNet, rank)
    decreases depth
  {
    if inverterNet[net] != UNKNOWN_NET {
      var input := inverterNet[net];
      assert rank[input] < rank[net];
      var inner := MaxNet(maxNet, input);
      InverterInputRanked(inverterNet, highLow, rank, input, inner, depth - 1);
      var d := InverterInput(inverterNet, highLow, input, inner, depth - 1).value;
      InverterInputOnlyCompresses(inverterNet, highLow, input, inner, depth - 1);
      var after := d.inverterNet[net := d.root];
      forall n | 0 <= n < |after| && after[n] != UNKNOWN_NET
        ensures rank[after[n]] < rank[n]
      {
        if n != net {
          assert after[n] == d.inverterNet[n];
        }
      }
    }
  }

  /** Every net with an input points straight at a net without one, for the nets below `upTo`. */
  predicate FlatBelow(inverterNet: seq<nat>, upTo: nat)
    requires InputsInRange(inverterNet)
  {
    forall x :: 0 <= x < upTo && x < |inverterNet| && inverterNet[x] != UNKNOWN_NET ==>
      inverterNet[inverterNet[x]] == UNKNOWN_NET
  }

  /** One step of the sweep keeps the nets before it flat and flattens its own net. */
  lemma SweepStepFlat(inverterNet: seq<nat>, highLow: seq<bool>, rank: seq<nat>, from: nat, depth: nat)
    requires InputsInRange(inverterNet) && |highLow| == |inverterNet| && from < |inverterNet|
    requires Ranked(inverterNet, rank) && inverterNet[from] != UNKNOWN_NET && rank[from] <= depth
    requires FlatBelow(inverterNet, from)
    ensures var input := inverterNet[from];
      var r := InverterInput(inverterNet, highLow, input, MaxNet(from, input), depth);
      && r.Some?
      && var after := r.value.inverterNet[from := r.value.root];
      && InputsInRange(after) && Ranked(after, rank) && FlatBelow(after, from + 1)
  {
    var input := inverterNet[from];
    var maxNet := MaxNet(from, input);
    InverterInputRanked(inverterNet, highLow, rank, input, maxNet, depth);
    InverterInputOnlyCompresses(inverterNet, highLow, input, maxNet, depth);
    var d := InverterInput(inverterNet, highLow, input, maxNet, depth).value;
    var after := d.inverterNet[from := d.root];
    assert d.root != from;
    forall n | 0 <= n < |after| && after[n] != UNKNOWN_NET
      ensures rank[after[n]] < rank[n]
    {
      if n != from {
        assert after[n] == d.inverterNet[n];
      }
    }
    forall x | 0 <= x < from + 1 && x < |after| && after[x] != UNKNOWN_NET
      ensures after[after[x]] == UNKNOWN_NET
    {
      if x != from {
        var y := inverterNet[x];
        assert inverterNet[y] == UNKNOWN_NET;
        assert d.inverterNet[y] == UNKNOWN_NET;
        assert y != from;
      }
    }
  }

  /**
   * On acyclic chains and a stack deeper than every rank, SetInverterHighLow
   * completes and leaves every inverter output pointing at a net that is
   * not itself an inverter output.
   */
  lemma {:induction false} SweepFlattensRanked(inverterNet: seq<nat>, highLow: seq<bool>, rank: seq<nat>, from: nat, depth: nat)
    requires InputsInRange(inverterNet) && |highLow| == |inverterNet| && from <= |inverterNet|
    requires Ranked(inverterNet, rank) && (forall n :: 0 <= n < |rank| ==> rank[n] <= depth)
    requires FlatBelow(inverterNet, from)
    ensures var r := InverterSweep(inverterNet, highLow, from, depth);
      r.Some? && FlatBelow(r.value.0, |inverterNet|)
    decreases |inverterNet| - from
  {
    if from < |inverterNet| {
      if inverterNet[from] == UNKNOWN_NET {
        SweepFlattensRanked(inverterNet, highLow, rank, from + 1, depth);
      } else {
        var input := inverterNet[from];
        SweepStepFlat(inverterNet, highLow, rank, from, depth);
        var d := InverterInput(inverterNet, highLow, input, MaxNet(from, input), depth).value;
        SweepFlattensRanked(d.inverterNet[from := d.root], d.highLow[from := !d.highLow[input]], rank, from + 1, depth);
      }
    }
  }

  // ------------------------------------------------------------ what the polarity means

  /** Logic values that every inverter respects: an output is the inverse of its input. */
  predicate Consistent(inverterNet: seq<nat>, value: seq<bool>)
  {
    && |value| == |inverterNet|
    && forall n :: 0 <= n < |inverterNet| && inverterNet[n] != UNKNOWN_NET && inverterNet[n] < |inverterNet| ==>
         value[n] == !value[inverterNet[n]]
  }

  /**
   * Compressed links net and polarities predict the logic values: every
   * inverter output equals the net it now points at, inverted exactly when
   * its polarity is set.
   */
  predicate PolarityHolds(inverterNet: seq<nat>, net: seq<nat>, polarity: seq<bool>, value: seq<bool>)
  {
    && |net| == |inverterNet| && |polarity| == |inverterNet| && |value| == |inverterNet|
    && forall x :: 0 <= x < |inverterNet| && inverterNet[x] != UNKNOWN_NET && net[x] < |value| ==>
         value[x] == (value[net[x]] != polarity[x])
  }

  /** The nets of the vector. */
  function AllNets(count: nat): (r: set<nat>)
    ensures forall n: nat :: n in r <==> n < count
  {
    if count == 0 then {} else AllNets(count - 1) + {count - 1}
  }

  /**
   * The corrected chain walk: follow the inputs from net until a net with
   * no input or whose input was already visited, and count the inversions
   * passed (true when odd).
   */
  function ChainEnd(inverterNet: seq<nat>, net: nat, seen: set<nat>): (r: (nat, bool))
    requires InputsInRange(inverterNet) && net < |inverterNet| && net in seen && seen <= AllNets(|inverterNet|)
    ensures r.0 < |inverterNet|
    decreases AllNets(|inverterNet|) - seen
  {
    var input := inverterNet[net];
    if input == UNKNOWN_NET || input in seen then (net, false)
    else
      assert input in AllNets(|inverterNet|) - seen;
      var (root, inverted) := ChainEnd(inverterNet, input, seen + {input});
      (root, !inverted)
  }

  /**
   * The corrected SetInverterHighLow: every inverter output points at the
   * end of its own chain, with the parity of the inversions between them;
   * other nets keep their entries. It needs no stack bound.
   */
  function CompressedInverters(inverterNet: seq<nat>, highLow: seq<bool>): (r: (seq<nat>, seq<bool>))
    requires InputsInRange(inverterNet) && |highLow| == |inverterNet|
    ensures |r.0| == |inverterNet| && |r.1| == |inverterNet|
    ensures forall x :: 0 <= x < |inverterNet| ==> (r.0[x] == UNKNOWN_NET <==> inverterNet[x] == UNKNOWN_NET)
  {
    (seq(|inverterNet|, x requires 0 <= x < |inverterNet| =>
       if inverterNet[x] == UNKNOWN_NET then UNKNOWN_NET else ChainEnd(inverterNet, x, {x}).0),
     seq(|inverterNet|, x requires 0 <= x < |inverterNet| =>
       if inverterNet[x] == UNKNOWN_NET then highLow[x] else ChainEnd(inverterNet, x, {x}).1))
  }

  /** The walk's parity relates the logic values of its two ends. */
  lemma {:induction false} ChainEndPolarity(inverterNet: seq<nat>, value: seq<bool>, net: nat, seen: set<nat>)
    requires InputsInRange(inverterNet) && net < |inverterNet| && net in seen && seen <= AllNets(|inverterNet|)
    requires Consistent(inverterNet, value)
    ensures var (root, inverted) := ChainEnd(inverterNet, net, seen);
      value[net] == (value[root] != inverted)
    decreases AllNets(|inverterNet|) - seen
  {
    var input := inverterNet[net];
    if input != UNKNOWN_NET && input !in seen {
      assert input in AllNets(|inverterNet|) - seen;
      ChainEndPolarity(inverterNet, value, input, seen + {input});
    }
  }

  /**
   * What highLow_v is for: under any logic values the inverters respect,
   * the corrected compression predicts every inverter output from the net
   * it points at.
   */
  lemma CompressedPolarity(inverterNet: seq<nat>, highLow: seq<bool>, value: seq<bool>)
    requires InputsInRange(inverterNet) && |highLow| == |inverterNet| && Consistent(inverterNet, value)
    ensures var (net, polarity) := CompressedInverters(inverterNet, highLow);
      PolarityHolds(inverterNet, net, polarity, value)
  {
    var (net, polarity) := CompressedInverters(inverterNet, highLow);
    forall x | 0 <= x < |inverterNet| && inverterNet[x] != UNKNOWN_NET
      ensures value[x] == (value[net[x]] != polarity[x])
    {
      ChainEndPolarity(inverterNet, value, x, {x});
    }
    assert PolarityHolds(inverterNet, net, polarity, value);
  }

  /** On acyclic chains the corrected walk ends at a net that has no input. */
  lemma {:induction false} ChainEndRanked(inverterNet: seq<nat>, rank: seq<nat>, net: nat, seen: set<nat>)
    requires InputsInRange(inverterNet) && net < |inverterNet| && net in seen && seen <= AllNets(|inverterNet|)
    requires Ranked(inverterNet, rank) && forall s :: s in seen ==> rank[net] <= rank[s]
    ensures inverterNet[ChainEnd(inverterNet, net, seen).0] == UNKNOWN_NET
    decreases AllNets(|inverterNet|) - seen
  {
    var input := inverterNet[net];
    if input != UNKNOWN_NET {
      assert rank[input] < rank[net];
      assert input !in seen;
      assert input in AllNets(|inverterNet|) - seen;
      ChainEndRanked(inverterNet, rank, input, seen + {input});
    }
  }

  /** On acyclic chains the corrected compression is flat, as the code's is. */
  lemma CompressedRankedFlat(inverterNet: seq<nat>, highLow: seq<bool>, rank: seq<nat>)
    requires InputsInRange(inverterNet) && |highLow| == |inverterNet| && Ranked(inverterNet, rank)
    ensures var net := CompressedInverters(inverterNet, highLow).0;
      forall x :: 0 <= x < |inverterNet| && inverterNet[x] != UNKNOWN_NET ==> inverterNet[net[x]] == UNKNOWN_NET
  {
    var net := CompressedInverters(inverterNet, highLow).0;
    forall x | 0 <= x < |inverterNet| && inverterNet[x] != UNKNOWN_NET
      ensures inverterNet[net[x]] == UNKNOWN_NET
    {
      ChainEndRanked(inverterNet, rank, x, {x});
    }
  }

  // ------------------------------------------------------------ the code as written

  /**
   * Three inverters in a row, 2 -> 1 -> 0 and 0 -> 3: the sweep as written
   * marks net 0 as the inverse of net 2, two inversions away, and net 3 as
   * equal to it, three inversions away; the corrected compression gives
   * both the right parity.
   */
  lemma SweepLosesPolarity()
    ensures Consistent([1, 2, UNKNOWN_NET, 0], [true, false, true, false])
    ensures !PolarityHolds([1, 2, UNKNOWN_NET, 0], [2, 2, UNKNOWN_NET, 2], [true, true, false, false], [true, false, true, false])
    ensures InverterSweep([1, 2, UNKNOWN_NET, 0], [false, false, false, false], 0, 4)
      == Some(([2, 2, UNKNOWN_NET, 2], [true, true, false, false]))
  {
    var inv0, hl0 := [1, 2, UNKNOWN_NET, 0], [false, false, false, false];
    assert InputsInRange(inv0);
    // net 0: its input 1 is pointed at 2, net 0 gets the right parity
    assert InverterInput(inv0, hl0, 2, 2, 3) == Some(Inversion(2, inv0, hl0));
    assert MaxNet(1, 2) == 2 && inv0[1 := 2] == inv0 && hl0[1 := !hl0[2]] == [false, true, false, false];
    assert InverterInput(inv0, hl0, 1, 1, 4) == Some(Inversion(2, inv0, [false, true, false, false]));
    var inv1, hl1 := [2, 2, UNKNOWN_NET, 0], [false, true, false, false];
    assert InputsInRange(inv1);
    assert MaxNet(0, 1) == 1 && inv0[0 := 2] == inv1 && [false, true, false, false][0 := !true] == hl1;
    assert InverterSweep(inv0, hl0, 0, 4) == InverterSweep(inv1, hl1, 1, 4);
    // net 1 already points at 2; net 2 has no input
    assert InverterInput(inv1, hl1, 2, 2, 4) == Some(Inversion(2, inv1, hl1));
    assert hl1[1 := !hl1[2]] == hl1;
    assert MaxNet(1, 2) == 2 && inv1[1 := 2] == inv1;
    assert InverterSweep(inv1, hl1, 1, 4) == InverterSweep(inv1, hl1, 2, 4);
    assert InverterSweep(inv1, hl1, 2, 4) == InverterSweep(inv1, hl1, 3, 4);
    // net 3: the call for its input 0 takes the compressed link 0 -> 2 for one inversion
    assert InverterInput(inv1, hl1, 2, 3, 3) == Some(Inversion(2, inv1, hl1));
    assert MaxNet(3, 2) == 3 && inv1[0 := 2] == inv1 && hl1[0 := !hl1[2]] == [true, true, false, false];
    assert InverterInput(inv1, hl1, 0, 3, 4) == Some(Inversion(2, inv1, [true, true, false, false]));
    assert MaxNet(3, 0) == 3 && inv1[3 := 2] == [2, 2, UNKNOWN_NET, 2] && [true, true, false, false][3 := !true] == [true, true, false, false];
    assert InverterSweep(inv1, hl1, 3, 4) == InverterSweep([2, 2, UNKNOWN_NET, 2], [true, true, false, false], 4, 4);
    assert !PolarityHolds(inv0, [2, 2, UNKNOWN_NET, 2], [true, true, false, false], [true, false, true, false]) by {
      assert [true, false, true, false][0] != ([true, false, true, false][2] != true);
    }
  }

  /** The corrected compression of the same three inverters gives net 0 and net 3 their parities. */
  lemma ChainOfThreeCompressed()
    ensures CompressedInverters([1, 2, UNKNOWN_NET, 0], [false, false, false, false])
      == ([2, 2, UNKNOWN_NET, 2], [false, true, false, true])
  {
    var inv0 := [1, 2, UNKNOWN_NET, 0];
    assert InputsInRange(inv0);
    assert ChainEnd(inv0, 2, {0, 1, 2}) == (2, false);
    assert {0} + {1} == {0, 1} && {0, 1} + {2} == {0, 1, 2};
    assert ChainEnd(inv0, 1, {0, 1}) == (2, true);
    assert ChainEnd(inv0, 0, {0}) == (2, false);
    assert ChainEnd(inv0, 2, {1, 2}) == (2, false);
    assert {1} + {2} == {1, 2};
    assert ChainEnd(inv0, 1, {1}) == (2, true);
    assert ChainEnd(inv0, 2, {3, 0, 1, 2}) == (2, false);
    assert {3} + {0} == {3, 0} && {3, 0} + {1} == {3, 0, 1} && {3, 0, 1} + {2} == {3, 0, 1, 2};
    assert ChainEnd(inv0, 1, {3, 0, 1}) == (2, true);
    assert ChainEnd(inv0, 0, {3, 0}) == (2, false);
    assert ChainEnd(inv0, 3, {3}) == (2, true);
    var (net, polarity) := CompressedInverters(inv0, [false, false, false, false]);
    assert net[0] == 2 && net[1] == 2 && net[2] == UNKNOWN_NET && net[3] == 2;
    assert polarity[0] == false && polarity[1] == true && polarity[2] == false && polarity[3] == true;
    assert net == [2, 2, UNKNOWN_NET, 2] && polarity == [false, true, false, true];
  }

  /**
   * A latch (nets 0 and 1 driving each other) feeding an inverter to net 2:
   * after the first two nets are compressed net 1 is its own input, and the
   * call for net 2 never meets its guard, whatever stack it is given. The
   * corrected compression stops at the repeated net.
   */
  lemma LatchNeverSettles(depth: nat)
    ensures InverterSweep([1, 0, 0], [false, false, false], 0, depth) == None
  {
    var inv0, hl0 := [1, 0, 0], [false, false, false];
    assert InputsInRange(inv0);
    if depth == 0 {
      assert InverterInput(inv0, hl0, 1, 1, 0) == None;
    } else if depth == 1 {
      assert InverterInput(inv0, hl0, 0, 1, 0) == None;
      assert InverterInput(inv0, hl0, 1, 1, 1) == None;
    } else {
      // net 0: the call for its input 1 stops at 0, whose input is maxNet 1, and makes 1 its own input
      assert InverterInput(inv0, hl0, 0, 1, depth - 1) == Some(Inversion(1, inv0, hl0));
      var inv1 := [1, 1, 0];
      assert inv0[1 := 1] == inv1 && inv1[0 := 1] == inv1 && inv1[1 := 1] == inv1;
      assert InputsInRange(inv1);
      var hl1 := hl0[1 := !hl0[0]];
      assert InverterInput(inv0, hl0, 1, 1, depth) == Some(Inversion(1, inv1, hl1));
      var hl2 := hl1[0 := !hl1[1]];
      assert InverterSweep(inv0, hl0, 0, depth) == InverterSweep(inv1, hl2, 1, depth);
      // net 1: its input is maxNet 1
      assert InverterInput(inv1, hl2, 1, 1, depth) == Some(Inversion(1, inv1, hl2));
      var hl3 := hl2[1 := !hl2[1]];
      assert InverterSweep(inv1, hl2, 1, depth) == InverterSweep(inv1, hl3, 2, depth);
      // net 2: the call for its input 0 runs into the self loop at 1
      SelfLoopNeverReturns(inv1, hl3, depth);
    }
  }

  /** The corrected compression of the latch and its inverter stops at the repeated net. */
  lemma LatchCompressed()
    ensures CompressedInverters([1, 0, 0], [false, false, false]) == ([1, 0, 1], [true, true, false])
  {
    var inv0 := [1, 0, 0];
    assert InputsInRange(inv0);
    assert ChainEnd(inv0, 1, {0, 1}) == (1, false);
    assert {0} + {1} == {0, 1} && {1} + {0} == {0, 1} && {2} + {0} == {2, 0} && {2, 0} + {1} == {2, 0, 1};
    assert ChainEnd(inv0, 0, {0}) == (1, true);
    assert ChainEnd(inv0, 0, {0, 1}) == (0, false);
    assert ChainEnd(inv0, 1, {1}) == (0, true);
    assert ChainEnd(inv0, 1, {2, 0, 1}) == (1, false);
    assert ChainEnd(inv0, 0, {2, 0}) == (1, true);
    assert ChainEnd(inv0, 2, {2}) == (1, false);
    var (net, polarity) := CompressedInverters(inv0, [false, false, false]);
    assert net[0] == 1 && net[1] == 0 && net[2] == 1;
    assert polarity[0] == true && polarity[1] == true && polarity[2] == false;
    assert net == [1, 0, 1] && polarity == [true, true, false];
  }

  /** With net 1 its own input, the call for net 1 under maxNet 2 recurses until the stack is gone. */
  lemma {:induction false} SelfLoopNeverReturns(inverterNet: seq<nat>, highLow: seq<bool>, depth: nat)
    requires inverterNet == [1, 1, 0] && |highLow| == 3
    ensures InverterInput(inverterNet, highLow, 1, 2, depth) == None
    ensures InverterInput(inverterNet, highLow, 0, 2, depth) == None
    decreases depth
  {
    if depth > 0 {
      SelfLoopNeverReturns(inverterNet, highLow, depth - 1);
    }
  }
}
