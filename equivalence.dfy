/**
 * Net equivalence while the database is built: shorting two nets links
 * the greater root of their equivalence trees to the lesser one, settles
 * which power definition the merged net keeps, and splices the lists of
 * nets each root stands for. Also the device lists threaded per net
 * through first/next vectors, which connection merging walks and splices.
 */
module NetEquivalence {
  import opened Outcomes
  import opened CvcTypes
  import opened DbUtility
  import Power

  // ------------------------------------------------------ SetMasterPower

  /** SetMasterPower's answer: the power the merged net keeps (null for none) and theSamePowerFlag. */
  datatype Master = Master(power: Power.CPower?, samePower: bool)

  /**
   * SetMasterPower: an unpowered side yields the other side's power; two
   * identical definitions yield no power, flagged; a definition of which
   * the other is a valid subset is kept, flagged; anything else is an
   * EEquivalenceError.
   */
  function MasterPower(first: Power.CPower?, second: Power.CPower?, threshold: int): (r: Result<Master>)
    reads first, second
    ensures r.Ok? && r.value.power != null ==> r.value.power == first || r.value.power == second
    ensures r.Ok? && !r.value.samePower ==> (first == null || second == null)
                                            && r.value.power == (if first == null then second else first)
    ensures r == Ok(Master(null, true)) <==> first != null && second != null && first.IsSamePower(second)
    ensures r.Ok? && r.value.samePower && r.value.power == first && first != null && second != null ==> first.IsValidSubset(second, threshold)
    ensures r.Ok? && r.value.samePower && r.value.power == second && first != null && second != null ==> second.IsValidSubset(first, threshold)
    ensures r.Fail? <==> && first != null && second != null && !first.IsSamePower(second)
                         && !first.IsValidSubset(second, threshold) && !second.IsValidSubset(first, threshold)
    ensures r.Fail? ==> r.failure == EquivalenceError
  {
    if first == null then Ok(Master(second, false))
    else if second == null then Ok(Master(first, false))
    else if first.IsSamePower(second) then Ok(Master(null, true))
    else if first.IsValidSubset(second, threshold) then Ok(Master(first, true))
    else if second.IsValidSubset(first, threshold) then Ok(Master(second, true))
    else Fail(EquivalenceError)
  }

  // ------------------------------------------------- MakeEquivalentNets

  /** Every link of the equivalence vector points at a net no greater than itself. */
  predicate LinksDown(equivalentNet: seq<nat>) {
    forall n :: 0 <= n < |equivalentNet| ==> equivalentNet[n] <= n
  }

  /** `theNetMap[net]`: operator[] reads an absent list as empty. */
  function ListOf(netMap: map<nat, seq<nat>>, net: nat): seq<nat> {
    if net in netMap then netMap[net] else []
  }

  /** The nets of `nets`, each pointed at `master`. */
  function PointedAt(powers: seq<Power.CPower?>, nets: seq<nat>, master: Power.CPower?): (r: seq<Power.CPower?>)
    requires forall i :: 0 <= i < |nets| ==> nets[i] < |powers|
    ensures |r| == |powers|
    ensures forall n :: 0 <= n < |r| ==> r[n] == if n in nets then master else powers[n]
  {
    seq(|powers|, n requires 0 <= n < |powers| => if n in nets then master else powers[n])
  }

  /**
   * Linking root `greater` to root `lesser` moves every net that stopped
   * at `greater` to `lesser`; every other net keeps where it stops.
   */
  lemma {:induction false} LeastAfterLink(equivalentNet: seq<nat>, greater: nat, lesser: nat, x: nat)
    requires Linked(equivalentNet) && LinksDown(equivalentNet)
    requires lesser < greater < |equivalentNet| && x < |equivalentNet|
    requires equivalentNet[greater] == greater && equivalentNet[lesser] == lesser
    ensures Linked(equivalentNet[greater := lesser])
    ensures Least(equivalentNet[greater := lesser], x)
            == if Least(equivalentNet, x) == greater then lesser else Least(equivalentNet, x)
    decreases x
  {
    var linked := equivalentNet[greater := lesser];
    if x == greater {
      assert linked[lesser] == lesser;
    } else if equivalentNet[x] < x {
      LeastAfterLink(equivalentNet, greater, lesser, equivalentNet[x]);
    } else {
      assert linked[x] == equivalentNet[x];
    }
  }

  class EquivalenceDb {
    /** equivalentNet_v: the link of every net towards its equivalence root. */
    var equivalentNet: seq<nat>
    /** netVoltagePtr_v: the power definition of every net, null for none. */
    var netPower: seq<Power.CPower?>
    /** The nets each root stands for, the root itself excluded. */
    var netMap: map<nat, seq<nat>>

    predicate Valid()
      reads this
    {
      && Linked(equivalentNet) && LinksDown(equivalentNet)
      && |netPower| == |equivalentNet|
      && ListsIn(netMap, |equivalentNet|)
    }

    /** SetEquivalentNets' start: every net its own root, no lists yet. */
    constructor (powers: seq<Power.CPower?>)
      requires |powers| <= UNKNOWN_NET
      ensures Valid()
      ensures equivalentNet == seq(|powers|, n => n) && netPower == powers && netMap == map[]
    {
      equivalentNet := seq(|powers|, n => n);
      netPower := powers;
      netMap := map[];
    }

    /** The loop of MakeEquivalentNets that points every net of the minor list at the master power. */
    method PointAtMaster(nets: seq<nat>, master: Power.CPower?)
      requires forall i :: 0 <= i < |nets| ==> nets[i] < |netPower|
      modifies this`netPower
      ensures netPower == PointedAt(old(netPower), nets, master)
    {
      var k := 0;
      while k < |nets|
        invariant k <= |nets| && |netPower| == |old(netPower)|
        invariant forall n :: 0 <= n < |netPower| ==>
                    netPower[n] == if n in nets[..k] then master else old(netPower)[n]
      {
        netPower := netPower[nets[k] := master];
        k := k + 1;
        assert forall n :: n in nets[..k] <==> n in nets[..k - 1] || n == nets[k - 1];
      }
      assert nets[..k] == nets;
    }

    /** The splice of MakeEquivalentNets: `lesser` gains greater's list, then greater itself, then its own. */
    method Splice(lesser: nat, greater: nat)
      requires lesser != greater
      modifies this`netMap
      ensures netMap == if greater in old(netMap)
                        then old(netMap)[lesser := old(netMap)[greater] + ([greater] + ListOf(old(netMap), lesser))][greater := []]
                        else old(netMap)[lesser := [greater] + ListOf(old(netMap), lesser)]
    {
      var pushed := [greater] + ListOf(netMap, lesser);
      netMap := netMap[lesser := pushed];
      if greater in netMap {
        assert netMap[greater] == old(netMap)[greater];
        netMap := netMap[lesser := netMap[greater] + netMap[lesser]][greater := []];
      }
    }

    /**
     * The merge proper of MakeEquivalentNets, once the roots differ and a
     * short goes through: a kept power goes to the minor root and its list,
     * the lists are spliced and the greater root links to the lesser one.
     */
    method Link(lesser: nat, greater: nat, master: Power.CPower?, minor: nat)
      requires Valid() && lesser < greater < |equivalentNet| && minor < |equivalentNet|
      requires LinksDown(equivalentNet[greater := lesser])
      modifies this
      ensures Valid()
      ensures Shorting(None, equivalentNet, netPower, netMap)
              == Merged(old(equivalentNet), old(netPower), old(netMap), lesser, greater, master, minor)
    {
      if master != null {
        netMap := netMap[minor := ListOf(netMap, minor)];
        netPower := netPower[minor := master];
        PointAtMaster(netMap[minor], master);
        assert netPower == PointedAt(old(netPower), [minor] + ListOf(old(netMap), minor), master);
      }
      ghost var listed := netMap;
      Splice(lesser, greater);
      equivalentNet := equivalentNet[greater := lesser];
      ghost var r := Merged(old(equivalentNet), old(netPower), old(netMap), lesser, greater, master, minor);
      assert listed == if master == null then old(netMap) else old(netMap)[minor := ListOf(old(netMap), minor)];
      assert r.netMap == netMap;
      assert r.netPower == netPower;
    }

    /**
     * MakeEquivalentNets: both nets are replaced by their roots, and the
     * database becomes what Shorted describes for SetMasterPower's answer
     * on the roots' powers.
     */
    method MakeEquivalentNets(first: nat, second: nat, threshold: int) returns (failure: Option<Failure>)
      requires Valid() && first < |equivalentNet| && second < |equivalentNet|
      modifies this
      ensures Valid()
      ensures var a, b := Least(old(equivalentNet), first), Least(old(equivalentNet), second);
              Shorting(failure, equivalentNet, netPower, netMap)
              == Shorted(old(equivalentNet), old(netPower), old(netMap), a, b,
                         MasterPower(old(netPower)[a], old(netPower)[b], threshold))
    {
      var a := GetLeastEquivalentNet(equivalentNet, first);
      var b := GetLeastEquivalentNet(equivalentNet, second);
      if a == b {
        return None;
      }
      var lesser, greater := if a < b then a else b, if a < b then b else a;
      var m := MasterPower(netPower[a], netPower[b], threshold);
      if m.Fail? {
        return Some(m.failure);
      }
      var master := m.value.power;
      var minor := if netPower[greater] == master then lesser else greater;
      if m.value.samePower && master == null {
        return None;
      }
      RootsLink(equivalentNet, a, b);
      Link(lesser, greater, master, minor);
      failure := None;
    }
  }

  /** The outcome of MakeEquivalentNets: the exception it ends with, if any, and the three vectors. */
  datatype Shorting = Shorting(failure: Option<Failure>, equivalentNet: seq<nat>,
                               netPower: seq<Power.CPower?>, netMap: map<nat, seq<nat>>)

  /** Valid's condition on the lists: every listed net is a net of the vector. */
  predicate ListsIn(netMap: map<nat, seq<nat>>, size: nat) {
    forall n :: n in netMap ==> forall i :: 0 <= i < |netMap[n]| ==> netMap[n][i] < size
  }

  /**
   * The merge of roots `lesser` < `greater`: a kept power goes to the
   * minor root and every net of its list; the lesser root's list becomes
   * the greater root's list, the greater root, then its own list; the
   * greater root's list empties; and the greater root links to the
   * lesser one.
   */
  function Merged(equivalentNet: seq<nat>, netPower: seq<Power.CPower?>, netMap: map<nat, seq<nat>>,
                  lesser: nat, greater: nat, master: Power.CPower?, minor: nat): Shorting
    requires greater < |equivalentNet| && |netPower| == |equivalentNet| && minor < |netPower|
    requires ListsIn(netMap, |equivalentNet|)
  {
    var listed := if master == null then netMap else netMap[minor := ListOf(netMap, minor)];
    var pushed := [greater] + ListOf(listed, lesser);
    Shorting(None, equivalentNet[greater := lesser],
             if master == null then netPower else PointedAt(netPower, [minor] + ListOf(netMap, minor), master),
             if greater in listed then listed[lesser := listed[greater] + pushed][greater := []]
             else listed[lesser := pushed])
  }

  /**
   * What shorting two nets with roots `a` and `b` leaves, given
   * SetMasterPower's answer `m` for their powers: nothing changes when the
   * roots coincide, when SetMasterPower throws EEquivalenceError, or when
   * the two definitions are identical; otherwise the roots are merged, and
   * the minor root is the one whose power is not kept.
   */
  function Shorted(equivalentNet: seq<nat>, netPower: seq<Power.CPower?>, netMap: map<nat, seq<nat>>,
                   a: nat, b: nat, m: Result<Master>): Shorting
    requires |netPower| == |equivalentNet| && ListsIn(netMap, |equivalentNet|)
    requires a < |equivalentNet| && b < |equivalentNet|
  {
    if a == b then Shorting(None, equivalentNet, netPower, netMap)
    else if m.Fail? then Shorting(Some(m.failure), equivalentNet, netPower, netMap)
    else if m.value == Master(null, true) then Shorting(None, equivalentNet, netPower, netMap)
    else
      var lesser, greater := if a < b then a else b, if a < b then b else a;
      var minor := if netPower[greater] == m.value.power then lesser else greater;
      Merged(equivalentNet, netPower, netMap, lesser, greater, m.value.power, minor)
  }

  /** Two distinct roots are linked lesser-to-greater without breaking LinksDown. */
  lemma RootsLink(equivalentNet: seq<nat>, a: nat, b: nat)
    requires Linked(equivalentNet) && LinksDown(equivalentNet) && a < |equivalentNet| && b < |equivalentNet|
    requires equivalentNet[a] >= a && equivalentNet[b] >= b && a != b
    ensures var lesser, greater := if a < b then a else b, if a < b then b else a;
            LinksDown(equivalentNet[greater := lesser])
  {
  }

  /**
   * Linking the root of `first` and the root of `second` leaves both nets,
   * and every net that stopped at either root, stopping at the lesser root;
   * every other net keeps its root.
   */
  lemma ShortJoins(equivalentNet: seq<nat>, first: nat, second: nat)
    requires Linked(equivalentNet) && LinksDown(equivalentNet)
    requires first < |equivalentNet| && second < |equivalentNet|
    requires Least(equivalentNet, first) != Least(equivalentNet, second)
    ensures var a, b := Least(equivalentNet, first), Least(equivalentNet, second);
            var lesser, greater := if a < b then a else b, if a < b then b else a;
            var joined := equivalentNet[greater := lesser];
            && Linked(joined) && LinksDown(joined)
            && Least(joined, first) == lesser && Least(joined, second) == lesser
            && forall x :: 0 <= x < |equivalentNet| ==>
                 Least(joined, x) == if Least(equivalentNet, x) in {a, b} then lesser else Least(equivalentNet, x)
  {
    var a, b := Least(equivalentNet, first), Least(equivalentNet, second);
    var lesser, greater := if a < b then a else b, if a < b then b else a;
    LeastOfWalk(equivalentNet, a);
    LeastOfWalk(equivalentNet, b);
    forall x | 0 <= x < |equivalentNet|
      ensures Least(equivalentNet[greater := lesser], x)
              == if Least(equivalentNet, x) in {a, b} then lesser else Least(equivalentNet, x)
    {
      LeastAfterLink(equivalentNet, greater, lesser, x);
    }
  }

  /** A short that does not link two roots changes nothing but may report EEquivalenceError. */
  lemma ShortWithoutLink(equivalentNet: seq<nat>, netPower: seq<Power.CPower?>, netMap: map<nat, seq<nat>>,
                         a: nat, b: nat, m: Result<Master>)
    requires |netPower| == |equivalentNet| && ListsIn(netMap, |equivalentNet|)
    requires a < |equivalentNet| && b < |equivalentNet| && equivalentNet[a] == a && equivalentNet[b] == b
    ensures var r := Shorted(equivalentNet, netPower, netMap, a, b, m);
            (a == b || m.Fail? || m == Ok(Master(null, true)))
            <==> (r.equivalentNet == equivalentNet && r.netPower == netPower && r.netMap == netMap
                  && r.failure == (if a != b && m.Fail? then Some(m.failure) else None))
  {
    var r := Shorted(equivalentNet, netPower, netMap, a, b, m);
    if !(a == b || m.Fail? || m == Ok(Master(null, true))) {
      var greater := if a < b then b else a;
      var lesser := if a < b then a else b;
      assert r.equivalentNet[greater] == lesser != greater;
    }
  }

  // ------------------------------------------------- device lists per net

  /**
   * `xs` is the device list of `net` threaded through `first` (one head
   * per net) and `next` (one link per device): it starts at first[net],
   * each device links to the following one, the last links to
   * UNKNOWN_DEVICE, and no device repeats.
   */
  ghost predicate Threads(first: seq<nat>, next: seq<nat>, net: nat, xs: seq<nat>) {
    && net < |first| && |next| < UNKNOWN_DEVICE
    && (forall i :: 0 <= i < |xs| ==> xs[i] < |next|)
    && first[net] == (if xs == [] then UNKNOWN_DEVICE else xs[0])
    && (forall i :: 0 <= i < |xs| - 1 ==> next[xs[i]] == xs[i + 1])
    && (xs != [] ==> next[xs[|xs| - 1]] == UNKNOWN_DEVICE)
    && (forall i, j :: 0 <= i < j < |xs| ==> xs[i] != xs[j])
  }

  /** The device reached from the head of `net`'s list after k links; UNKNOWN_DEVICE once the list ends. */
  function At(first: seq<nat>, next: seq<nat>, net: nat, k: nat): nat
    requires net < |first|
  {
    if k == 0 then first[net]
    else
      var d := At(first, next, net, k - 1);
      if d < |next| then next[d] else UNKNOWN_DEVICE
  }

  lemma {:induction false} ThreadsAt(first: seq<nat>, next: seq<nat>, net: nat, xs: seq<nat>, k: nat)
    requires Threads(first, next, net, xs) && k <= |xs|
    ensures At(first, next, net, k) == if k < |xs| then xs[k] else UNKNOWN_DEVICE
    ensures k < |xs| ==> At(first, next, net, k) < UNKNOWN_DEVICE
  {
    if k > 0 {
      ThreadsAt(first, next, net, xs, k - 1);
    }
  }

  /** The vectors determine the list: a net has one device list. */
  lemma ThreadsUnique(first: seq<nat>, next: seq<nat>, net: nat, xs: seq<nat>, ys: seq<nat>)
    requires Threads(first, next, net, xs) && Threads(first, next, net, ys)
    ensures xs == ys
  {
    var shorter := if |xs| < |ys| then |xs| else |ys|;
    ThreadsAt(first, next, net, xs, shorter);
    ThreadsAt(first, next, net, ys, shorter);
    assert |xs| == |ys|;
    forall k | 0 <= k < |xs| ensures xs[k] == ys[k] {
      ThreadsAt(first, next, net, xs, k);
      ThreadsAt(first, next, net, ys, k);
    }
  }

  /** The devices of `xs` in reverse order. */
  function Reversed(xs: seq<nat>): (r: seq<nat>)
    ensures |r| == |xs|
  {
    if xs == [] then [] else [xs[|xs| - 1]] + Reversed(xs[..|xs| - 1])
  }

  /** Reversing reads the list from its end, and keeps its devices. */
  lemma {:induction false} ReversedReads(xs: seq<nat>)
    ensures forall i :: 0 <= i < |xs| ==> Reversed(xs)[i] == xs[|xs| - 1 - i]
    ensures forall x :: x in Reversed(xs) <==> x in xs
  {
    if xs != [] {
      ReversedReads(xs[..|xs| - 1]);
      forall x | x in xs ensures x in Reversed(xs) {
        var i :| 0 <= i < |xs| && xs[i] == x;
        if i < |xs| - 1 {
          assert xs[..|xs| - 1][i] == x;
        }
      }
    }
  }

  /** Pushing a device that is not on the list onto its front keeps it threaded. */
  lemma PushFront(first: seq<nat>, next: seq<nat>, net: nat, xs: seq<nat>, d: nat)
    requires Threads(first, next, net, xs) && d < |next| && d !in xs
    ensures Threads(first[net := d], next[d := first[net]], net, [d] + xs)
  {
    var ys := [d] + xs;
    forall i | 0 <= i < |ys| - 1
      ensures next[d := first[net]][ys[i]] == ys[i + 1]
    {
      if i > 0 {
        assert ys[i] == xs[i - 1] != d;
      }
    }
    if xs != [] {
      assert ys[|ys| - 1] == xs[|xs| - 1] != d;
    }
    forall i, j | 0 <= i < j < |ys|
      ensures ys[i] != ys[j]
    {
      if i == 0 {
        assert ys[j] == xs[j - 1];
      }
    }
  }

  /** A resistor that is not marked SIM_INACTIVE (a device outside the vectors is neither). */
  predicate IsActiveResistor(d: nat, deviceType: seq<ModelType>, simInactive: seq<bool>) {
    d < |deviceType| && d < |simInactive| && deviceType[d] == RESISTOR && !simInactive[d]
  }

  /** The active resistors of `ds`, in order. */
  function ActiveResistors(ds: seq<nat>, deviceType: seq<ModelType>, simInactive: seq<bool>): seq<nat> {
    if ds == [] then []
    else
      var last := ds[|ds| - 1];
      ActiveResistors(ds[..|ds| - 1], deviceType, simInactive)
        + (if IsActiveResistor(last, deviceType, simInactive) then [last] else [])
  }

  /** ActiveResistors keeps exactly the active resistors of the list. */
  lemma {:induction false} ActiveResistorsMeaning(ds: seq<nat>, deviceType: seq<ModelType>, simInactive: seq<bool>)
    ensures forall d :: d in ActiveResistors(ds, deviceType, simInactive)
                        <==> d in ds && IsActiveResistor(d, deviceType, simInactive)
  {
    if ds != [] {
      var front := ds[..|ds| - 1];
      ActiveResistorsMeaning(front, deviceType, simInactive);
      assert ds == front + [ds[|ds| - 1]];
    }
  }

  lemma ActiveResistorsSnoc(ds: seq<nat>, d: nat, deviceType: seq<ModelType>, simInactive: seq<bool>)
    ensures ActiveResistors(ds + [d], deviceType, simInactive)
            == ActiveResistors(ds, deviceType, simInactive)
               + (if IsActiveResistor(d, deviceType, simInactive) then [d] else [])
  {
    assert (ds + [d])[..|ds|] == ds;
  }

  /** A prefix has no more active resistors than the whole. */
  lemma {:induction false} ActiveResistorsGrow(prefix: seq<nat>, ds: seq<nat>, deviceType: seq<ModelType>, simInactive: seq<bool>)
    requires prefix <= ds
    ensures |ActiveResistors(prefix, deviceType, simInactive)| <= |ActiveResistors(ds, deviceType, simInactive)|
    decreases |ds|
  {
    if |prefix| < |ds| {
      assert prefix <= ds[..|ds| - 1];
      ActiveResistorsGrow(prefix, ds[..|ds| - 1], deviceType, simInactive);
    } else {
      assert prefix == ds;
    }
  }

  /**
   * One kind of connection list of the database (firstSource_v with
   * nextSource_v and sourceNet_v, say): the head device per net, the link
   * per device and the net each device's terminal is on.
   */
  class ConnectionList {
    var first: seq<nat>
    var next: seq<nat>
    var terminal: seq<nat>

    /**
     * RecountConnections: the number of devices on the net's list. (The
     * count is a 32-bit deviceId_t, which cannot wrap: there are fewer
     * devices than UNKNOWN_DEVICE.)
     */
    method RecountConnections(net: nat, ghost xs: seq<nat>) returns (count: nat)
      requires Threads(first, next, net, xs)
      ensures count == |xs|
    {
      count := 0;
      var device := first[net];
      while device != UNKNOWN_DEVICE
        invariant count <= |xs| && device == if count < |xs| then xs[count] else UNKNOWN_DEVICE
        decreases |xs| - count
      {
        device := next[device];
        count := count + 1;
      }
    }

    /**
     * MergeConnectionListByTerminals: each device of `fromNet`'s list is
     * pushed onto the front of `toNet`'s list, so they end up in reverse
     * order ahead of toNet's own devices, and its terminal is moved to
     * `toNet`; `fromNet`'s list is left empty. (theIgnoreDeviceId is not
     * used: its test is commented out in the source.)
     */
    method MergeConnectionListByTerminals(fromNet: nat, toNet: nat, ghost xs: seq<nat>, ghost ys: seq<nat>)
      requires fromNet != toNet && |terminal| == |next|
      requires Threads(first, next, fromNet, xs) && Threads(first, next, toNet, ys)
      requires forall i :: 0 <= i < |xs| ==> xs[i] !in ys
      modifies this
      ensures Threads(first, next, fromNet, []) && Threads(first, next, toNet, Reversed(xs) + ys)
      ensures |first| == |old(first)| && forall n :: 0 <= n < |first| && n != fromNet && n != toNet ==> first[n] == old(first)[n]
      ensures |next| == |old(next)| && forall d :: 0 <= d < |next| && d !in xs ==> next[d] == old(next)[d]
      ensures |terminal| == |old(terminal)|
      ensures forall d :: 0 <= d < |terminal| ==> terminal[d] == if d in xs then toNet else old(terminal)[d]
    {
      var k := 0;
      var device := first[fromNet];
      MovedNone(first, next, terminal, toNet, xs, ys);
      while device != UNKNOWN_DEVICE
        invariant k <= |xs| && device == if k < |xs| then xs[k] else UNKNOWN_DEVICE
        invariant Moved(old(first), old(next), old(terminal), first, next, terminal, toNet, xs, ys, k)
        decreases |xs| - k
      {
        MovedStep(old(first), old(next), old(terminal), first, next, terminal, fromNet, toNet, xs, ys, k);
        var following := next[device];
        next := next[device := first[toNet]];
        first := first[toNet := device];
        terminal := terminal[device := toNet];
        k := k + 1;
        device := following;
      }
      MovedAll(old(first), old(next), old(terminal), first, next, terminal, fromNet, toNet, xs, ys, k);
      first := first[fromNet := UNKNOWN_DEVICE];
    }
  }

  /**
   * The vectors (first, next, terminal) after the first k devices of `xs`
   * were moved from the vectors (f0, n0, t0) onto the front of toNet's
   * list `ys`.
   */
  ghost predicate Moved(f0: seq<nat>, n0: seq<nat>, t0: seq<nat>, first: seq<nat>, next: seq<nat>, terminal: seq<nat>,
                        toNet: nat, xs: seq<nat>, ys: seq<nat>, k: nat)
  {
    && k <= |xs| && toNet < |f0|
    && |first| == |f0| && |next| == |n0| && |terminal| == |t0|
    && Threads(first, next, toNet, Reversed(xs[..k]) + ys)
    && first == f0[toNet := first[toNet]]
    && (forall d :: 0 <= d < |next| && d !in xs[..k] ==> next[d] == n0[d])
    && (forall d :: 0 <= d < |terminal| ==> terminal[d] == if d in xs[..k] then toNet else t0[d])
  }

  lemma MovedNone(first: seq<nat>, next: seq<nat>, terminal: seq<nat>, toNet: nat, xs: seq<nat>, ys: seq<nat>)
    requires Threads(first, next, toNet, ys)
    ensures Moved(first, next, terminal, first, next, terminal, toNet, xs, ys, 0)
  {
    assert Reversed(xs[..0]) + ys == ys;
  }

  lemma MovedStep(f0: seq<nat>, n0: seq<nat>, t0: seq<nat>, first: seq<nat>, next: seq<nat>, terminal: seq<nat>,
                  fromNet: nat, toNet: nat, xs: seq<nat>, ys: seq<nat>, k: nat)
    requires Moved(f0, n0, t0, first, next, terminal, toNet, xs, ys, k) && k < |xs|
    requires fromNet != toNet && |t0| == |n0|
    requires Threads(f0, n0, fromNet, xs) && forall i :: 0 <= i < |xs| ==> xs[i] !in ys
    ensures xs[k] < |next| && next[xs[k]] == if k + 1 < |xs| then xs[k + 1] else UNKNOWN_DEVICE
    ensures Moved(f0, n0, t0, first[toNet := xs[k]], next[xs[k] := first[toNet]], terminal[xs[k] := toNet],
                  toNet, xs, ys, k + 1)
  {
    var d := xs[k];
    var list := Reversed(xs[..k]) + ys;
    NotYetMoved(f0, n0, fromNet, xs, k);
    NotOnTarget(xs, ys, k);
    MovedOneMore(xs, k);
    PushFront(first, next, toNet, list, d);
    assert Reversed(xs[..k + 1]) + ys == [d] + list;
    var first', next', terminal' := first[toNet := d], next[d := first[toNet]], terminal[d := toNet];
    assert first' == f0[toNet := first'[toNet]];
    assert forall e :: 0 <= e < |next'| && e !in xs[..k + 1] ==> next'[e] == n0[e];
    assert forall e :: 0 <= e < |terminal'| ==> terminal'[e] == if e in xs[..k + 1] then toNet else t0[e];
  }

  lemma NotOnTarget(xs: seq<nat>, ys: seq<nat>, k: nat)
    requires k < |xs| && xs[k] !in xs[..k] && forall i :: 0 <= i < |xs| ==> xs[i] !in ys
    ensures xs[k] !in Reversed(xs[..k]) + ys
  {
    ReversedReads(xs[..k]);
  }

  /** The k-th device of a threaded list is not among the ones before it. */
  lemma NotYetMoved(first: seq<nat>, next: seq<nat>, net: nat, xs: seq<nat>, k: nat)
    requires Threads(first, next, net, xs) && k < |xs|
    ensures xs[k] !in xs[..k]
  {
    forall i | 0 <= i < k ensures xs[..k][i] != xs[k] { }
  }

  lemma MovedOneMore(xs: seq<nat>, k: nat)
    requires k < |xs|
    ensures forall d :: d in xs[..k + 1] <==> d in xs[..k] || d == xs[k]
    ensures Reversed(xs[..k + 1]) == [xs[k]] + Reversed(xs[..k])
  {
    assert xs[..k + 1] == xs[..k] + [xs[k]];
    assert xs[..k + 1][..k] == xs[..k];
  }

  lemma MovedAll(f0: seq<nat>, n0: seq<nat>, t0: seq<nat>, first: seq<nat>, next: seq<nat>, terminal: seq<nat>,
                 fromNet: nat, toNet: nat, xs: seq<nat>, ys: seq<nat>, k: nat)
    requires Moved(f0, n0, t0, first, next, terminal, toNet, xs, ys, k) && k == |xs|
    requires fromNet != toNet && Threads(f0, n0, fromNet, xs)
    ensures Threads(first[fromNet := UNKNOWN_DEVICE], next, fromNet, [])
    ensures Threads(first[fromNet := UNKNOWN_DEVICE], next, toNet, Reversed(xs) + ys)
    ensures forall n :: 0 <= n < |first| && n != fromNet && n != toNet ==> first[n] == f0[n]
    ensures forall d :: 0 <= d < |next| && d !in xs ==> next[d] == n0[d]
    ensures forall d :: 0 <= d < |terminal| ==> terminal[d] == if d in xs then toNet else t0[d]
  {
    assert xs[..k] == xs;
    assert fromNet < |first|;
    OtherHead(first, next, toNet, Reversed(xs) + ys, fromNet, UNKNOWN_DEVICE);
  }

  /** Changing the head of another net leaves a net's list as it was. */
  lemma OtherHead(first: seq<nat>, next: seq<nat>, net: nat, xs: seq<nat>, other: nat, head: nat)
    requires Threads(first, next, net, xs) && other != net && other < |first|
    ensures Threads(first[other := head], next, net, xs)
  {
  }

  /** The loops of FindUniqueSourceDrainConnectedDevice: `result` is the active resistor among `before`, if any. */
  method ScanResistors(list: ConnectionList, deviceType: seq<ModelType>, simInactive: seq<bool>, net: nat,
                       ghost before: seq<nat>, ghost xs: seq<nat>, result: nat)
    returns (r: Result<nat>)
    requires Threads(list.first, list.next, net, xs) && |deviceType| <= UNKNOWN_DEVICE
    requires var found := ActiveResistors(before, deviceType, simInactive);
             |found| <= 1 && result == if found == [] then UNKNOWN_DEVICE else found[0]
    ensures var found := ActiveResistors(before + xs, deviceType, simInactive);
            && (|found| <= 1 ==> r == Ok(if found == [] then UNKNOWN_DEVICE else found[0]))
            && (|found| > 1 ==> r == Fail(DatabaseError))
  {
    var current := result;
    var k := 0;
    ghost var seen := before;
    assert before + xs[..0] == before;
    var device := list.first[net];
    while device != UNKNOWN_DEVICE
      invariant k <= |xs| && device == if k < |xs| then xs[k] else UNKNOWN_DEVICE
      invariant seen == before + xs[..k]
      invariant var found := ActiveResistors(seen, deviceType, simInactive);
                |found| <= 1 && current == if found == [] then UNKNOWN_DEVICE else found[0]
      decreases |xs| - k
    {
      ActiveResistorsSnoc(seen, device, deviceType, simInactive);
      ghost var found := ActiveResistors(seen, deviceType, simInactive);
      if found != [] {
        ActiveResistorsMeaning(seen, deviceType, simInactive);
        assert found[0] in found;
      }
      assert xs[..k + 1] == xs[..k] + [device];
      if device < |deviceType| && device < |simInactive| && deviceType[device] == RESISTOR && !simInactive[device] {
        if current != UNKNOWN_DEVICE {
          ScanPrefix(before, xs, k + 1);
          ActiveResistorsGrow(seen + [device], before + xs, deviceType, simInactive);
          return Fail(DatabaseError);
        }
        current := device;
      }
      seen := seen + [device];
      device := list.next[device];
      k := k + 1;
    }
    assert xs[..k] == xs;
    return Ok(current);
  }

  lemma ScanPrefix(before: seq<nat>, xs: seq<nat>, k: nat)
    requires k <= |xs|
    ensures before + xs[..k] <= before + xs
  {
    assert before + xs == (before + xs[..k]) + xs[k..];
  }

  /**
   * FindUniqueSourceDrainConnectedDevice: the one resistor not marked
   * SIM_INACTIVE among the devices on the net's source list and then its
   * drain list; UNKNOWN_DEVICE when there is none; an EDatabaseError as
   * soon as a second one turns up (a resistor with both ends on the net
   * turns up twice).
   */
  method FindUniqueSourceDrainConnectedDevice(sources: ConnectionList, drains: ConnectionList,
                                              deviceType: seq<ModelType>, simInactive: seq<bool>, net: nat,
                                              ghost xs: seq<nat>, ghost ys: seq<nat>)
    returns (r: Result<nat>)
    requires Threads(sources.first, sources.next, net, xs) && Threads(drains.first, drains.next, net, ys)
    requires |deviceType| <= UNKNOWN_DEVICE
    ensures var found := ActiveResistors(xs + ys, deviceType, simInactive);
            && (found == [] ==> r == Ok(UNKNOWN_DEVICE))
            && (|found| == 1 ==> r == Ok(found[0]))
            && (|found| > 1 ==> r == Fail(DatabaseError))
  {
    assert [] + xs == xs;
    ghost var onSources := ActiveResistors(xs, deviceType, simInactive);
    var first := ScanResistors(sources, deviceType, simInactive, net, [], xs, UNKNOWN_DEVICE);
    if first.Fail? {
      ActiveResistorsGrow(xs, xs + ys, deviceType, simInactive);
      return first;
    }
    assert |onSources| <= 1 && first.value == if onSources == [] then UNKNOWN_DEVICE else onSources[0];
    r := ScanResistors(drains, deviceType, simInactive, net, xs, ys, first.value);
  }

  // ------------------------------------------------ power and logic tests

  /** IsSCRCPower: a defined HiZ power whose minimum and maximum agree. */
  predicate IsSCRCPower(p: Power.CPower?)
    reads p
  {
    p != null && HIZ_BIT in p.powerType && p.minVoltage == p.maxVoltage
  }

  /** Two definitions IsSamePower accepts are both SCRC powers or neither is. */
  lemma SamePowerSameSCRC(p: Power.CPower, q: Power.CPower)
    requires p.IsSamePower(q)
    ensures IsSCRCPower(p) <==> IsSCRCPower(q)
  {
    assert p.Signature() == q.Signature();
    assert p.Signature().powerType == p.powerType;
  }

  /** IsOppositeLogic: either net is the other's inverter input. */
  predicate IsOppositeLogic(inverterNet: seq<nat>, first: nat, second: nat)
    requires first < |inverterNet| && second < |inverterNet|
  {
    inverterNet[first] == second || first == inverterNet[second]
  }

  /** IsOppositeLogic does not depend on the order of its arguments, and a net driven by an inverter from another is its opposite. */
  lemma OppositeLogicSymmetric(inverterNet: seq<nat>, first: nat, second: nat)
    requires first < |inverterNet| && second < |inverterNet|
    ensures IsOppositeLogic(inverterNet, first, second) <==> IsOppositeLogic(inverterNet, second, first)
    ensures inverterNet[first] == second ==> IsOppositeLogic(inverterNet, second, first)
  {
  }
}
