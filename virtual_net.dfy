/**
 * Virtual nets: each net links to a next net with a resistance, and
 * caches the final net its chain of links reaches together with the
 * saturating sum of the resistances on the way. The vector's own
 * `lastUpdate` is a clock; an entry whose cache is older than the clock
 * is recomputed on lookup.
 */
module VirtualNets {
  import opened Outcomes
  import opened CvcTypes
  import opened CvcUtil

  /** One CVirtualNet entry, with the per-entry update time the lookups use. */
  datatype VirtualNet = VirtualNet(
    nextNetId: nat, resistance: nat,
    finalNetId: nat, finalResistance: nat,
    backupNetId: nat, backupResistance: nat,
    lastUpdate: int)

  /** CVirtualNet::operator==: the same link with the same resistance. */
  predicate SameLink(a: VirtualNet, b: VirtualNet) {
    a.nextNetId == b.nextNetId && a.resistance == b.resistance
  }

  /** CVirtualNet::operator=: the link, the cached final net and its time are copied; the backup stays. */
  function Assigned(self: VirtualNet, other: VirtualNet): VirtualNet {
    self.(nextNetId := other.nextNetId, resistance := other.resistance,
          finalNetId := other.finalNetId, finalResistance := other.finalResistance,
          lastUpdate := other.lastUpdate)
  }

  /** After an assignment the two compare equal, the copy keeps its own backup, and assigning again changes nothing. */
  lemma AssignedCopies(self: VirtualNet, other: VirtualNet)
    ensures SameLink(Assigned(self, other), other)
    ensures Assigned(self, other) == other.(backupNetId := self.backupNetId, backupResistance := self.backupResistance)
    ensures Assigned(Assigned(self, other), other) == Assigned(self, other)
  {
  }

  /** The chain walks stop the program (a failed assert) when they reach this many links. */
  const LINK_LIMIT: nat := 5021

  /** Every link points into the vector and every resistance fits resistance_t. */
  predicate WellFormed(nets: seq<VirtualNet>) {
    && |nets| < UNKNOWN_NET
    && forall i :: 0 <= i < |nets| ==> nets[i].nextNetId < |nets| && nets[i].resistance < UINT32_RANGE
  }

  predicate IsTerminal(nets: seq<VirtualNet>, net: nat)
    requires net < |nets|
  {
    nets[net].nextNetId == net
  }

  /**
   * The walk of Set and operator() from `net`, having added `acc` over
   * `count` links: the first terminal net reached and the saturating sum
   * of the resistances, the terminal's own included; None when the walk
   * reaches LINK_LIMIT links.
   */
  function Walk(nets: seq<VirtualNet>, net: nat, acc: nat, count: nat): (r: Option<(nat, nat)>)
    requires WellFormed(nets) && net < |nets| && acc <= MAX_RESISTANCE && count < LINK_LIMIT
    ensures r.Some? ==> r.value.0 < |nets| && IsTerminal(nets, r.value.0) && r.value.1 <= MAX_RESISTANCE
    decreases LINK_LIMIT - count
  {
    if IsTerminal(nets, net) then Some((net, AddResistance(acc, nets[net].resistance)))
    else if count + 1 >= LINK_LIMIT then None
    else Walk(nets, nets[net].nextNetId, AddResistance(acc, nets[net].resistance), count + 1)
  }

  /** The net reached from `net` after k links. */
  function Hop(nets: seq<VirtualNet>, net: nat, k: nat): (r: nat)
    requires WellFormed(nets) && net < |nets|
    ensures r < |nets|
    decreases k
  {
    if k == 0 then net else Hop(nets, nets[net].nextNetId, k - 1)
  }

  /** The plain sum of the resistances of the first k nets of the chain from `net`. */
  function HopSum(nets: seq<VirtualNet>, net: nat, k: nat): nat
    requires WellFormed(nets) && net < |nets|
    decreases k
  {
    if k == 0 then 0 else nets[net].resistance + HopSum(nets, nets[net].nextNetId, k - 1)
  }

  function Cap(x: nat): nat {
    if x > MAX_RESISTANCE then MAX_RESISTANCE else x
  }

  lemma AddCapped(x: nat, y: nat)
    requires y < UINT32_RANGE
    ensures AddResistance(Cap(x), y) == Cap(x + y)
  {
  }

  /** The number of links the walk from `net` follows. */
  function Links(nets: seq<VirtualNet>, net: nat, count: nat): nat
    requires WellFormed(nets) && net < |nets| && count < LINK_LIMIT
    decreases LINK_LIMIT - count
  {
    if IsTerminal(nets, net) || count + 1 >= LINK_LIMIT then 0
    else 1 + Links(nets, nets[net].nextNetId, count + 1)
  }

  /**
   * What the walk finds: after its links, the first terminal net of the
   * chain, and the plain resistance sum of the nets it passed and the
   * terminal, capped at MAX_RESISTANCE.
   */
  lemma {:induction false} WalkFindsFirstTerminal(nets: seq<VirtualNet>, net: nat, acc: nat, count: nat)
    requires WellFormed(nets) && net < |nets| && acc <= MAX_RESISTANCE && count < LINK_LIMIT
    requires Walk(nets, net, acc, count).Some?
    ensures Hop(nets, net, Links(nets, net, count)) == Walk(nets, net, acc, count).value.0
    ensures forall j :: 0 <= j < Links(nets, net, count) ==> !IsTerminal(nets, Hop(nets, net, j))
    ensures Walk(nets, net, acc, count).value.1 == Cap(acc + HopSum(nets, net, Links(nets, net, count) + 1))
    decreases LINK_LIMIT - count
  {
    AddCapped(acc, nets[net].resistance);
    assert Cap(acc) == acc;
    if IsTerminal(nets, net) {
      assert HopSum(nets, net, 1) == nets[net].resistance + HopSum(nets, net, 0);
    } else {
      var next := nets[net].nextNetId;
      var acc' := AddResistance(acc, nets[net].resistance);
      var k := Links(nets, next, count + 1);
      assert Walk(nets, net, acc, count) == Walk(nets, next, acc', count + 1);
      assert Links(nets, net, count) == k + 1;
      WalkFindsFirstTerminal(nets, next, acc', count + 1);
      assert Hop(nets, net, k + 1) == Hop(nets, next, k);
      forall j | 0 <= j < k + 1
        ensures !IsTerminal(nets, Hop(nets, net, j))
      {
        if j > 0 {
          assert Hop(nets, net, j) == Hop(nets, next, j - 1);
        }
      }
      assert HopSum(nets, net, k + 2) == nets[net].resistance + HopSum(nets, next, k + 1);
      CapSum(acc, nets[net].resistance, HopSum(nets, next, k + 1));
    }
  }

  lemma CapSum(x: nat, y: nat, z: nat)
    ensures Cap(Cap(x + y) + z) == Cap(x + (y + z))
  {
  }

  /** No net links to a net that links straight back to it, unless it is terminal. */
  predicate NoTwoCycles(nets: seq<VirtualNet>)
    requires WellFormed(nets)
  {
    forall i :: 0 <= i < |nets| && nets[nets[i].nextNetId].nextNetId == i ==> nets[i].nextNetId == i
  }

  /** The entry Set writes when it goes ahead: the new link, before the final net is cached. */
  function Relinked(nets: seq<VirtualNet>, netId: nat, nextNet: nat, resistance: nat): (r: seq<VirtualNet>)
    requires netId < |nets|
    ensures |r| == |nets|
  {
    nets[netId := nets[netId].(nextNetId := nextNet, resistance := resistance)]
  }

  /** Set's guard: the next net already links back to this one. */
  predicate LinksBack(nets: seq<VirtualNet>, netId: nat, nextNet: nat)
    requires nextNet < |nets|
  {
    nets[nextNet].nextNetId == netId && nextNet != netId
  }

  /** The link Set writes keeps the vector well formed, and never closes a two-net loop. */
  lemma {:induction false} RelinkedKeeps(nets: seq<VirtualNet>, netId: nat, nextNet: nat, resistance: nat)
    requires WellFormed(nets) && netId < |nets| && nextNet < |nets| && resistance < UINT32_RANGE
    requires !LinksBack(nets, netId, nextNet)
    ensures WellFormed(Relinked(nets, netId, nextNet, resistance))
    ensures NoTwoCycles(nets) ==> NoTwoCycles(Relinked(nets, netId, nextNet, resistance))
  {
    var r := Relinked(nets, netId, nextNet, resistance);
    assert forall i :: 0 <= i < |r| ==> r[i].nextNetId < |r| && r[i].resistance < UINT32_RANGE;
    if NoTwoCycles(nets) {
      forall i | 0 <= i < |r|
        ensures r[r[i].nextNetId].nextNetId == i ==> r[i].nextNetId == i
      {
        var m := r[i].nextNetId;
        if i != netId && m == netId {
          assert nets[i].nextNetId == netId && r[m].nextNetId == nextNet;
        } else if i != netId {
          assert r[m] == nets[m] && nets[i].nextNetId == m;
        } else if nextNet != netId {
          assert r[nextNet] == nets[nextNet];
        }
      }
    }
  }

  /** Writing an entry's cache leaves its link, so the vector stays well formed and free of two-net loops. */
  lemma Recached(nets: seq<VirtualNet>, netId: nat, e: VirtualNet)
    requires WellFormed(nets) && netId < |nets| && SameLink(e, nets[netId])
    ensures WellFormed(nets[netId := e])
    ensures NoTwoCycles(nets) ==> NoTwoCycles(nets[netId := e])
  {
    var r := nets[netId := e];
    assert forall i :: 0 <= i < |r| ==> SameLink(r[i], nets[i]);
  }

  class VirtualNetVector {
    var nets: array<VirtualNet>
    /** The clock: the time of the latest Set. */
    var lastUpdate: int

    ghost predicate Valid()
      reads this, nets
    {
      WellFormed(nets[..])
    }

    /**
     * CVirtualNetVector::Set. When the next net already links back, nothing
     * changes. Otherwise the entry gets the new link and resistance, its
     * cached final net and resistance become the walk's result, and the
     * entry and the vector take the given time; a walk that reaches
     * LINK_LIMIT links stops the program after the link is written.
     */
    method Set(netId: nat, nextNet: nat, resistance: nat, time: int) returns (failure: Option<Failure>)
      requires Valid() && netId < nets.Length && nextNet < nets.Length && resistance < UINT32_RANGE
      modifies nets, `lastUpdate
      ensures Valid()
      ensures LinksBack(old(nets[..]), netId, nextNet) ==>
        failure == None && nets[..] == old(nets[..]) && lastUpdate == old(lastUpdate)
      ensures !LinksBack(old(nets[..]), netId, nextNet) ==>
        var linked := Relinked(old(nets[..]), netId, nextNet, resistance);
        match Walk(linked, netId, 0, 0)
        case None => failure == Some(AssertAbort) && nets[..] == linked && lastUpdate == old(lastUpdate)
        case Some(found) =>
          && failure == None && lastUpdate == time
          && nets[..] == linked[netId := linked[netId].(finalNetId := found.0, finalResistance := found.1, lastUpdate := time)]
      ensures old(NoTwoCycles(nets[..])) ==> NoTwoCycles(nets[..])
    {
      if nets[nextNet].nextNetId == netId && nextNet != netId {
        return None;
      }
      RelinkedKeeps(nets[..], netId, nextNet, resistance);
      nets[netId] := nets[netId].(nextNetId := nextNet, resistance := resistance);
      var found := WalkFrom(netId);
      if found == None {
        return Some(AssertAbort);
      }
      ghost var linked := nets[..];
      Recached(linked, netId, nets[netId].(finalNetId := found.value.0, finalResistance := found.value.1, lastUpdate := time));
      nets[netId] := nets[netId].(finalNetId := found.value.0, finalResistance := found.value.1);
      lastUpdate := time;
      nets[netId] := nets[netId].(lastUpdate := time);
      return None;
    }

    /**
     * The chain walk of Set and operator(): from `netId`, follow the links
     * to the first terminal net, adding the resistances with AddResistance.
     */
    method WalkFrom(netId: nat) returns (found: Option<(nat, nat)>)
      requires Valid() && netId < nets.Length
      ensures found == Walk(nets[..], netId, 0, 0)
    {
      var finalNet: nat := netId;
      var finalResistance: nat := 0;
      var linkCount: nat := 0;
      while finalNet != nets[finalNet].nextNetId
        invariant finalNet < nets.Length && finalResistance <= MAX_RESISTANCE && linkCount < LINK_LIMIT
        invariant Walk(nets[..], netId, 0, 0) == Walk(nets[..], finalNet, finalResistance, linkCount)
        decreases LINK_LIMIT - linkCount
      {
        finalResistance := AddResistance(finalResistance, nets[finalNet].resistance);
        finalNet := nets[finalNet].nextNetId;
        linkCount := linkCount + 1;
        if linkCount > 5000 && linkCount >= LINK_LIMIT {
          return None;
        }
      }
      finalResistance := AddResistance(finalResistance, nets[finalNet].resistance);
      return Some((finalNet, finalResistance));
    }

    /** The entry answers a lookup from its cache: it was cached at or after the clock. */
    predicate Current(netId: nat)
      requires netId < nets.Length
      reads this, nets
    {
      nets[netId].lastUpdate >= lastUpdate
    }

    /**
     * CVirtualNet::operator(): `self` takes the link of net `netId` and the
     * final net of its chain. UNKNOWN_NET gives the unknown net with
     * infinite resistance. A current entry answers from its cache; an
     * older one is walked again and the result is written back with the
     * clock's time. A walk that reaches LINK_LIMIT links, or a final
     * resistance that reached MAX_RESISTANCE, fails an assert.
     */
    method Resolve(self: VirtualNet, netId: nat) returns (r: VirtualNet, failure: Option<Failure>)
      requires Valid() && (netId == UNKNOWN_NET || netId < nets.Length)
      modifies nets
      ensures Valid() && lastUpdate == old(lastUpdate)
      ensures netId == UNKNOWN_NET ==>
        && failure == None && nets[..] == old(nets[..])
        && r == self.(nextNetId := UNKNOWN_NET, finalNetId := UNKNOWN_NET,
                      resistance := INFINITE_RESISTANCE, finalResistance := INFINITE_RESISTANCE)
      ensures netId != UNKNOWN_NET && old(Current(netId)) ==>
        && nets[..] == old(nets[..]) && r == Assigned(self, nets[netId])
        && failure == (if nets[netId].finalResistance < MAX_RESISTANCE then None else Some(AssertAbort))
      ensures netId != UNKNOWN_NET && !old(Current(netId)) ==>
        match Walk(old(nets[..]), netId, 0, 0)
        case None => failure == Some(AssertAbort) && nets[..] == old(nets[..])
        case Some(found) =>
          && nets[..] == old(nets[..])[netId := old(nets[netId]).(finalNetId := found.0, finalResistance := found.1, lastUpdate := lastUpdate)]
          && r == Assigned(self, nets[netId]) && Current(netId)
          && failure == (if found.1 < MAX_RESISTANCE then None else Some(AssertAbort))
    {
      if netId == UNKNOWN_NET {
        r := self.(nextNetId := UNKNOWN_NET, finalNetId := UNKNOWN_NET,
                   resistance := INFINITE_RESISTANCE, finalResistance := INFINITE_RESISTANCE);
        return r, None;
      }
      r := self.(nextNetId := nets[netId].nextNetId, resistance := nets[netId].resistance);
      if nets[netId].lastUpdate < lastUpdate {
        var found := WalkFrom(netId);
        if found == None {
          return r, Some(AssertAbort);
        }
        r := r.(finalNetId := found.value.0, finalResistance := found.value.1);
        nets[netId] := nets[netId].(finalNetId := found.value.0, finalResistance := found.value.1);
        r := r.(lastUpdate := lastUpdate);
        nets[netId] := nets[netId].(lastUpdate := lastUpdate);
      } else {
        r := r.(finalNetId := nets[netId].finalNetId, finalResistance := nets[netId].finalResistance,
                 lastUpdate := nets[netId].lastUpdate);
      }
      failure := if r.finalResistance < MAX_RESISTANCE then None else Some(AssertAbort);
    }
  }
}
