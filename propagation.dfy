/**
 * Decisions and small state updates of the voltage-propagation engine:
 * whether a short is rerouted, which devices a queue gives priority,
 * which MOS devices are off by their own wiring, whether a device is the
 * last pending one of its kind on a net, and the spreading of
 * source/drain connection types down virtual-net chains.
 */
module Propagation {
  import opened Outcomes
  import opened CvcTypes
  import opened VirtualNets
  import Power
  import NetEquivalence

  // ------------------------------------------------------------ rerouting

  /** shortDirection_t: which end of the device becomes the slave of the short. */
  datatype ShortDirection = SOURCE_TO_MASTER_DRAIN | DRAIN_TO_MASTER_SOURCE

  /** The fields of a CConnection the reroute decision looks at. */
  datatype ShortEnds = ShortEnds(
    sourceId: nat, drainId: nat, resistance: nat,
    masterSourceResistance: nat, masterDrainResistance: nat)

  /** The net past the slave end's next link, the power at the other end, and the slave side's final resistance. */
  function SlaveSide(direction: ShortDirection, ends: ShortEnds, nets: seq<VirtualNet>): (nat, nat, nat)
    requires ends.sourceId < |nets| && ends.drainId < |nets|
  {
    match direction
    case DRAIN_TO_MASTER_SOURCE => (nets[ends.drainId].nextNetId, ends.sourceId, ends.masterDrainResistance)
    case SOURCE_TO_MASTER_DRAIN => (nets[ends.sourceId].nextNetId, ends.drainId, ends.masterSourceResistance)
  }

  /** The two power definitions CheckConnectionReroute dereferences. */
  function RerouteReads(direction: ShortDirection, ends: ShortEnds, nets: seq<VirtualNet>, powers: seq<Power.CPower?>): set<object>
    requires ends.sourceId < |nets| && ends.drainId < |nets|
  {
    var (nextDrain, source, _) := SlaveSide(direction, ends, nets);
    (if nextDrain < |powers| && powers[nextDrain] != null then {powers[nextDrain]} else {})
      + (if source < |powers| && powers[source] != null then {powers[source]} else {})
  }

  /**
   * CheckConnectionReroute: whether the short through a device should go
   * the other way. The slave end's next net is looked up; if it is not
   * terminal the short is rerouted; between two terminal ends a power
   * beats a non-power, two powers compare resistances, and two non-powers
   * prefer the end already calculated in this queue.
   */
  function CheckConnectionReroute(direction: ShortDirection, ends: ShortEnds, nets: seq<VirtualNet>,
                                  powers: seq<Power.CPower?>, calculatedBit: PowerBit): (r: bool)
    requires WellFormed(nets) && ends.sourceId < |nets| && ends.drainId < |nets| && |powers| == |nets|
    requires var (nextDrain, source, _) := SlaveSide(direction, ends, nets);
             IsTerminal(nets, nextDrain) ==> powers[nextDrain] != null && powers[source] != null
    reads RerouteReads(direction, ends, nets, powers)
    ensures var (nextDrain, source, drainResistance) := SlaveSide(direction, ends, nets);
            && (!IsTerminal(nets, nextDrain) ==> r)
            && (IsTerminal(nets, nextDrain) ==>
                  var drainPowered := POWER_BIT in powers[nextDrain].powerType;
                  var sourcePowered := POWER_BIT in powers[source].powerType;
                  && (drainPowered && sourcePowered ==> (r <==> ends.resistance < drainResistance))
                  && (drainPowered && !sourcePowered ==> !r)
                  && (!drainPowered && sourcePowered ==> r)
                  && (!drainPowered && !sourcePowered
                      ==> (r <==> calculatedBit in powers[nextDrain].powerType && calculatedBit !in powers[source].powerType)))
  {
    var (nextDrain, source, drainResistance) := SlaveSide(direction, ends, nets);
    var nextDrainPower := powers[nextDrain];
    var sourcePower := powers[source];
    if !IsTerminal(nets, nextDrain) then true
    else if POWER_BIT in nextDrainPower.powerType then
      if POWER_BIT !in sourcePower.powerType then false
      else ends.resistance < drainResistance
    else if POWER_BIT in sourcePower.powerType then true
    else calculatedBit in nextDrainPower.powerType && calculatedBit !in sourcePower.powerType
  }

  /** The connection with source and drain exchanged, master resistances with them. */
  function Swapped(ends: ShortEnds): ShortEnds {
    ShortEnds(ends.drainId, ends.sourceId, ends.resistance, ends.masterDrainResistance, ends.masterSourceResistance)
  }

  /** The two directions are mirror images: shorting drain to master source is the other direction with the ends swapped. */
  lemma RerouteMirrors(ends: ShortEnds, nets: seq<VirtualNet>, powers: seq<Power.CPower?>, calculatedBit: PowerBit)
    requires WellFormed(nets) && ends.sourceId < |nets| && ends.drainId < |nets| && |powers| == |nets|
    requires var (nextDrain, source, _) := SlaveSide(DRAIN_TO_MASTER_SOURCE, ends, nets);
             IsTerminal(nets, nextDrain) ==> powers[nextDrain] != null && powers[source] != null
    ensures SlaveSide(SOURCE_TO_MASTER_DRAIN, Swapped(ends), nets) == SlaveSide(DRAIN_TO_MASTER_SOURCE, ends, nets)
    ensures CheckConnectionReroute(DRAIN_TO_MASTER_SOURCE, ends, nets, powers, calculatedBit)
            == CheckConnectionReroute(SOURCE_TO_MASTER_DRAIN, Swapped(ends), nets, powers, calculatedBit)
  {
  }

  /**
   * Between two terminal ends that are not both power, the two directions
   * never both reroute; when exactly one end is power, exactly one
   * direction reroutes.
   */
  lemma RerouteOneWay(ends: ShortEnds, nets: seq<VirtualNet>, powers: seq<Power.CPower?>, calculatedBit: PowerBit)
    requires WellFormed(nets) && ends.sourceId < |nets| && ends.drainId < |nets| && |powers| == |nets|
    requires IsTerminal(nets, ends.sourceId) && IsTerminal(nets, ends.drainId)
    requires powers[ends.sourceId] != null && powers[ends.drainId] != null
    requires !(POWER_BIT in powers[ends.sourceId].powerType && POWER_BIT in powers[ends.drainId].powerType)
    ensures !(CheckConnectionReroute(DRAIN_TO_MASTER_SOURCE, ends, nets, powers, calculatedBit)
              && CheckConnectionReroute(SOURCE_TO_MASTER_DRAIN, ends, nets, powers, calculatedBit))
    ensures (POWER_BIT in powers[ends.sourceId].powerType) != (POWER_BIT in powers[ends.drainId].powerType)
            ==> (CheckConnectionReroute(DRAIN_TO_MASTER_SOURCE, ends, nets, powers, calculatedBit)
                 || CheckConnectionReroute(SOURCE_TO_MASTER_DRAIN, ends, nets, powers, calculatedBit))
  {
  }

  // ------------------------------------------------------------ priorities

  /** IsPriorityDevice: the minimum queue favours NMOS devices, the maximum queue PMOS devices, the simulation queue all. */
  predicate IsPriorityDevice(queue: EventQueueType, model: ModelType) {
    !(queue == MIN_QUEUE && !IsNmos(model)) && !(queue == MAX_QUEUE && !IsPmos(model))
  }

  /** Which devices each queue favours; no device is favoured by both the minimum and the maximum queue. */
  lemma PriorityByQueue(model: ModelType)
    ensures IsPriorityDevice(SIM_QUEUE, model)
    ensures IsPriorityDevice(MIN_QUEUE, model) <==> model == NMOS || model == LDDN
    ensures IsPriorityDevice(MAX_QUEUE, model) <==> model == PMOS || model == LDDP
    ensures !(IsPriorityDevice(MIN_QUEUE, model) && IsPriorityDevice(MAX_QUEUE, model))
  {
  }

  // ----------------------------------------------------- off by topology

  /** The terminals and voltages of a CConnection TopologicallyOffMos looks at. */
  datatype MosEnds = MosEnds(gateId: nat, sourceId: nat, drainId: nat, sourceVoltage: int, drainVoltage: int)

  /**
   * TopologicallyOffMos: a MOS device is off by its wiring when the
   * queue pulls its unknown end the way the device cannot conduct: an
   * NMOS in the minimum queue (a PMOS in the maximum queue) whose gate is
   * tied to the known end, or an NMOS in the maximum queue (a PMOS in the
   * minimum queue) whose gate is tied to the unknown end. The drain is
   * looked at first.
   */
  predicate TopologicallyOffMos(queue: EventQueueType, model: ModelType, c: MosEnds) {
    if (queue == MAX_QUEUE && IsPmos(model)) || (queue == MIN_QUEUE && IsNmos(model)) then
      if c.drainVoltage == UNKNOWN_VOLTAGE then c.gateId == c.sourceId
      else if c.sourceVoltage == UNKNOWN_VOLTAGE then c.gateId == c.drainId
      else false
    else if (queue == MAX_QUEUE && IsNmos(model)) || (queue == MIN_QUEUE && IsPmos(model)) then
      if c.drainVoltage == UNKNOWN_VOLTAGE then c.gateId == c.drainId
      else if c.sourceVoltage == UNKNOWN_VOLTAGE then c.gateId == c.sourceId
      else false
    else false
  }

  /** The ends of a device read the other way round. */
  function Flipped(c: MosEnds): MosEnds {
    MosEnds(c.gateId, c.drainId, c.sourceId, c.drainVoltage, c.sourceVoltage)
  }

  /**
   * What TopologicallyOffMos decides: never with both ends known, never
   * in the simulation queue or for a non-MOS device, only with the gate
   * tied to an end; and with exactly one end unknown it does not matter
   * which end is called the source.
   */
  lemma OffMosMeaning(queue: EventQueueType, model: ModelType, c: MosEnds)
    ensures c.sourceVoltage != UNKNOWN_VOLTAGE && c.drainVoltage != UNKNOWN_VOLTAGE ==> !TopologicallyOffMos(queue, model, c)
    ensures queue == SIM_QUEUE || !IsMos(model) ==> !TopologicallyOffMos(queue, model, c)
    ensures TopologicallyOffMos(queue, model, c) ==> c.gateId == c.sourceId || c.gateId == c.drainId
    ensures (c.sourceVoltage == UNKNOWN_VOLTAGE) != (c.drainVoltage == UNKNOWN_VOLTAGE)
            ==> TopologicallyOffMos(queue, model, Flipped(c)) == TopologicallyOffMos(queue, model, c)
  {
  }

  /** With both ends unknown the drain decides: source and drain do not play symmetric roles then. */
  lemma OffMosDrainFirst()
    ensures var c := MosEnds(0, 0, 1, UNKNOWN_VOLTAGE, UNKNOWN_VOLTAGE);
            TopologicallyOffMos(MIN_QUEUE, NMOS, c) && !TopologicallyOffMos(MIN_QUEUE, NMOS, Flipped(c))
  {
  }

  // -------------------------------------------- last pending MOS on a net

  /** deviceStatus_t: the bits of a device's status word. */
  datatype DeviceStatusBit = MIN_INACTIVE | MIN_PENDING | MAX_INACTIVE | MAX_PENDING | SIM_INACTIVE | SIM_PENDING

  /** A device of the kind asked for (NMOS when `nmos`, else PMOS) with the pending bit set. */
  predicate IsPendingMos(d: nat, nmos: bool, deviceType: seq<ModelType>,
                         deviceStatus: seq<set<DeviceStatusBit>>, pendingBit: DeviceStatusBit) {
    && d < |deviceType| && d < |deviceStatus|
    && (if nmos then IsNmos(deviceType[d]) else IsPmos(deviceType[d]))
    && pendingBit in deviceStatus[d]
  }

  /** The pending devices of that kind among `ds`, in order. */
  function PendingMos(ds: seq<nat>, nmos: bool, deviceType: seq<ModelType>,
                      deviceStatus: seq<set<DeviceStatusBit>>, pendingBit: DeviceStatusBit): seq<nat> {
    if ds == [] then []
    else
      var last := ds[|ds| - 1];
      PendingMos(ds[..|ds| - 1], nmos, deviceType, deviceStatus, pendingBit)
        + (if IsPendingMos(last, nmos, deviceType, deviceStatus, pendingBit) then [last] else [])
  }

  /** PendingMos keeps exactly the pending devices of the kind, each as often as it is listed. */
  lemma {:induction false} PendingMosMeaning(ds: seq<nat>, nmos: bool, deviceType: seq<ModelType>,
                                             deviceStatus: seq<set<DeviceStatusBit>>, pendingBit: DeviceStatusBit)
    ensures forall d :: d in PendingMos(ds, nmos, deviceType, deviceStatus, pendingBit)
                        <==> d in ds && IsPendingMos(d, nmos, deviceType, deviceStatus, pendingBit)
    ensures |PendingMos(ds, nmos, deviceType, deviceStatus, pendingBit)| <= |ds|
  {
    if ds != [] {
      var front := ds[..|ds| - 1];
      PendingMosMeaning(front, nmos, deviceType, deviceStatus, pendingBit);
      assert ds == front + [ds[|ds| - 1]];
    }
  }

  lemma PendingMosSnoc(ds: seq<nat>, d: nat, nmos: bool, deviceType: seq<ModelType>,
                       deviceStatus: seq<set<DeviceStatusBit>>, pendingBit: DeviceStatusBit)
    ensures PendingMos(ds + [d], nmos, deviceType, deviceStatus, pendingBit)
            == PendingMos(ds, nmos, deviceType, deviceStatus, pendingBit)
               + (if IsPendingMos(d, nmos, deviceType, deviceStatus, pendingBit) then [d] else [])
  {
    assert (ds + [d])[..|ds|] == ds;
  }

  /** A prefix holds no more pending devices than the whole. */
  lemma {:induction false} PendingMosGrow(prefix: seq<nat>, ds: seq<nat>, nmos: bool, deviceType: seq<ModelType>,
                                          deviceStatus: seq<set<DeviceStatusBit>>, pendingBit: DeviceStatusBit)
    requires prefix <= ds
    ensures |PendingMos(prefix, nmos, deviceType, deviceStatus, pendingBit)|
            <= |PendingMos(ds, nmos, deviceType, deviceStatus, pendingBit)|
    decreases |ds|
  {
    if |prefix| < |ds| {
      assert prefix <= ds[..|ds| - 1];
      PendingMosGrow(prefix, ds[..|ds| - 1], nmos, deviceType, deviceStatus, pendingBit);
    } else {
      assert prefix == ds;
    }
  }

  /**
   * One loop of LastNmosConnection / LastPmosConnection: `count` pending
   * devices were found among `before`; walking the net's list `xs` the
   * count goes on, and the walk gives up (`last` false) at the second one.
   */
  method CountPending(list: NetEquivalence.ConnectionList, net: nat, nmos: bool, deviceType: seq<ModelType>,
                      deviceStatus: seq<set<DeviceStatusBit>>, pendingBit: DeviceStatusBit,
                      ghost before: seq<nat>, ghost xs: seq<nat>, count: nat)
    returns (last: bool, total: nat)
    requires NetEquivalence.Threads(list.first, list.next, net, xs)
    requires count == |PendingMos(before, nmos, deviceType, deviceStatus, pendingBit)| <= 1
    ensures last <==> |PendingMos(before + xs, nmos, deviceType, deviceStatus, pendingBit)| <= 1
    ensures last ==> total == |PendingMos(before + xs, nmos, deviceType, deviceStatus, pendingBit)|
  {
    total := count;
    var k := 0;
    ghost var seen := before;
    assert before + xs[..0] == before;
    var device := list.first[net];
    while device != UNKNOWN_DEVICE
      invariant k <= |xs| && device == if k < |xs| then xs[k] else UNKNOWN_DEVICE
      invariant seen == before + xs[..k]
      invariant total == |PendingMos(seen, nmos, deviceType, deviceStatus, pendingBit)| <= 1
      decreases |xs| - k
    {
      PendingMosSnoc(seen, device, nmos, deviceType, deviceStatus, pendingBit);
      assert xs[..k + 1] == xs[..k] + [device];
      if IsPendingMos(device, nmos, deviceType, deviceStatus, pendingBit) {
        total := total + 1;
        if total > 1 {
          assert before + xs == (before + xs[..k + 1]) + xs[k + 1..];
          PendingMosGrow(seen + [device], before + xs, nmos, deviceType, deviceStatus, pendingBit);
          return false, total;
        }
      }
      seen := seen + [device];
      device := list.next[device];
      k := k + 1;
    }
    assert xs[..k] == xs;
    return true, total;
  }

  /**
   * LastNmosConnection (nmos true) and LastPmosConnection (nmos false):
   * whether at most one device of the kind with the pending bit is on
   * the net's source list and drain list together. A device with both
   * ends on the net is counted twice.
   */
  method LastMosConnection(sources: NetEquivalence.ConnectionList, drains: NetEquivalence.ConnectionList,
                           nmos: bool, deviceType: seq<ModelType>, deviceStatus: seq<set<DeviceStatusBit>>,
                           pendingBit: DeviceStatusBit, net: nat, ghost xs: seq<nat>, ghost ys: seq<nat>)
    returns (r: bool)
    requires NetEquivalence.Threads(sources.first, sources.next, net, xs)
    requires NetEquivalence.Threads(drains.first, drains.next, net, ys)
    ensures r <==> |PendingMos(xs + ys, nmos, deviceType, deviceStatus, pendingBit)| <= 1
  {
    assert [] + xs == xs;
    var last, count := CountPending(sources, net, nmos, deviceType, deviceStatus, pendingBit, [], xs, 0);
    if !last {
      PendingMosGrow(xs, xs + ys, nmos, deviceType, deviceStatus, pendingBit);
      return false;
    }
    last, count := CountPending(drains, net, nmos, deviceType, deviceStatus, pendingBit, xs, ys, count);
    return last;
  }

  /** On a net with a single device on its lists, that device is always the last of its kind. */
  lemma LoneDeviceIsLast(d: nat, nmos: bool, deviceType: seq<ModelType>,
                         deviceStatus: seq<set<DeviceStatusBit>>, pendingBit: DeviceStatusBit)
    ensures |PendingMos([d], nmos, deviceType, deviceStatus, pendingBit)| <= 1
  {
    PendingMosMeaning([d], nmos, deviceType, deviceStatus, pendingBit);
  }

  // ------------------------------------------ connection types down chains

  /** The propagation stops the program (a failed assert) once its counter, checked after each update, passes this. */
  const PROPAGATION_LIMIT: nat := 10000

  /**
   * The walk of PropagateConnectionType from `net` after `count` updates:
   * the source/drain type bits (a CStatus word per net) and the failure,
   * if the counter check fires.
   */
  function Propagated(types: seq<bv8>, nets: seq<VirtualNet>, bits: bv8, net: nat, count: nat): (r: (seq<bv8>, Option<Failure>))
    requires WellFormed(nets) && net < |nets| && |types| == |nets| && count <= PROPAGATION_LIMIT + 1
    ensures |r.0| == |types|
    decreases PROPAGATION_LIMIT + 1 - count
  {
    if IsTerminal(nets, net) || types[net] | bits == types[net] then (types, None)
    else
      var updated := types[net := types[net] | bits];
      if count > PROPAGATION_LIMIT then (updated, Some(AssertAbort))
      else Propagated(updated, nets, bits, nets[net].nextNetId, count + 1)
  }

  /** The propagation only adds the bits: net `i` is either unchanged or gains exactly `bits`. */
  lemma {:induction false} PropagatedOnlyAdds(types: seq<bv8>, nets: seq<VirtualNet>, bits: bv8, net: nat, count: nat, i: nat)
    requires WellFormed(nets) && net < |nets| && |types| == |nets| && count <= PROPAGATION_LIMIT + 1 && i < |types|
    ensures var after := Propagated(types, nets, bits, net, count).0;
            after[i] == types[i] || after[i] == types[i] | bits
    decreases PROPAGATION_LIMIT + 1 - count
  {
    var moves := !(IsTerminal(nets, net) || types[net] | bits == types[net]);
    if moves && count <= PROPAGATION_LIMIT {
      var updated := types[net := types[net] | bits];
      PropagatedOnlyAdds(updated, nets, bits, nets[net].nextNetId, count + 1, i);
      if i == net {
        OrTwice(types[i], bits);
      }
    }
  }

  lemma OrTwice(t: bv8, bits: bv8)
    ensures (t | bits) | bits == t | bits
  {
  }

  /** Terminal nets are never changed. */
  lemma {:induction false} PropagatedKeepsTerminals(types: seq<bv8>, nets: seq<VirtualNet>, bits: bv8, net: nat, count: nat)
    requires WellFormed(nets) && net < |nets| && |types| == |nets| && count <= PROPAGATION_LIMIT + 1
    ensures var after := Propagated(types, nets, bits, net, count).0;
            forall i :: 0 <= i < |types| && IsTerminal(nets, i) ==> after[i] == types[i]
    decreases PROPAGATION_LIMIT + 1 - count
  {
    if !(IsTerminal(nets, net) || types[net] | bits == types[net]) && count <= PROPAGATION_LIMIT {
      var updated := types[net := types[net] | bits];
      PropagatedKeepsTerminals(updated, nets, bits, nets[net].nextNetId, count + 1);
    }
  }

  /** Every changed net lies on the chain of links from `net`, within the counter's remaining number of links. */
  lemma {:induction false} PropagatedAlongChain(types: seq<bv8>, nets: seq<VirtualNet>, bits: bv8, net: nat, count: nat)
    requires WellFormed(nets) && net < |nets| && |types| == |nets| && count <= PROPAGATION_LIMIT + 1
    ensures forall i :: 0 <= i < |types| && Propagated(types, nets, bits, net, count).0[i] != types[i]
              ==> exists k: int :: 0 <= k <= PROPAGATION_LIMIT + 1 - count && Hop(nets, net, k) == i
    decreases PROPAGATION_LIMIT + 1 - count
  {
    var after := Propagated(types, nets, bits, net, count).0;
    var next := nets[net].nextNetId;
    var moves := !(IsTerminal(nets, net) || types[net] | bits == types[net]);
    var updated := types[net := types[net] | bits];
    if moves && count <= PROPAGATION_LIMIT {
      PropagatedAlongChain(updated, nets, bits, next, count + 1);
    }
    forall i | 0 <= i < |types| && after[i] != types[i]
      ensures exists k: int :: 0 <= k <= PROPAGATION_LIMIT + 1 - count && Hop(nets, net, k) == i
    {
      if i == net {
        assert Hop(nets, net, 0) == i;
      } else {
        assert moves && count <= PROPAGATION_LIMIT && updated[i] == types[i];
        var k: nat :| k <= PROPAGATION_LIMIT - count && Hop(nets, next, k) == i;
        assert Hop(nets, net, k + 1) == i;
      }
    }
    assert forall i :: 0 <= i < |types| && Propagated(types, nets, bits, net, count).0[i] != types[i]
              ==> exists k: int :: 0 <= k <= PROPAGATION_LIMIT + 1 - count && Hop(nets, net, k) == i;
  }

  /** Unless the start net is terminal, it ends up holding the bits. */
  lemma PropagatedCoversStart(types: seq<bv8>, nets: seq<VirtualNet>, bits: bv8, net: nat, count: nat)
    requires WellFormed(nets) && net < |nets| && |types| == |nets| && count <= PROPAGATION_LIMIT + 1
    requires !IsTerminal(nets, net)
    ensures var after := Propagated(types, nets, bits, net, count).0;
            after[net] | bits == after[net]
  {
    if types[net] | bits != types[net] && count <= PROPAGATION_LIMIT {
      var updated := types[net := types[net] | bits];
      PropagatedOnlyAdds(updated, nets, bits, nets[net].nextNetId, count + 1, net);
      var after := Propagated(types, nets, bits, net, count).0;
      var t := types[net];
      assert (t | bits) | bits == t | bits;
      assert after[net] == t | bits;
    }
  }

  /** Propagating the same bits again from the same net changes nothing and does not fail. */
  lemma PropagatedIdempotent(types: seq<bv8>, nets: seq<VirtualNet>, bits: bv8, net: nat)
    requires WellFormed(nets) && net < |nets| && |types| == |nets|
    ensures var after := Propagated(types, nets, bits, net, 0).0;
            Propagated(after, nets, bits, net, 0) == (after, None)
  {
    if !IsTerminal(nets, net) {
      PropagatedCoversStart(types, nets, bits, net, 0);
    }
  }

  /** One CConnectionCount per net; only its source/drain type word is modelled. */
  class ConnectionCounts {
    var sourceDrainType: seq<bv8>

    /**
     * PropagateConnectionType: ORs the bits into each net's type word
     * along the chain of virtual-net links, stopping at a terminal net or
     * at the first net that already has them; the counter check ends the
     * program after 10002 updates (its report lines are output only).
     */
    method PropagateConnectionType(nets: seq<VirtualNet>, bits: bv8, net: nat) returns (failure: Option<Failure>)
      requires WellFormed(nets) && net < |nets| && |sourceDrainType| == |nets|
      modifies this
      ensures (sourceDrainType, failure) == Propagated(old(sourceDrainType), nets, bits, net, 0)
    {
      var count: nat := 0;
      var current: nat := net;
      while current != nets[current].nextNetId
        invariant current < |nets| && count <= PROPAGATION_LIMIT + 1 && |sourceDrainType| == |nets|
        invariant Propagated(sourceDrainType, nets, bits, current, count) == Propagated(old(sourceDrainType), nets, bits, net, 0)
        decreases PROPAGATION_LIMIT + 1 - count
      {
        var newStatus := sourceDrainType[current] | bits;
        if newStatus == sourceDrainType[current] {
          break;
        }
        sourceDrainType := sourceDrainType[current := newStatus];
        current := nets[current].nextNetId;
        if count > PROPAGATION_LIMIT {
          return Some(AssertAbort);
        }
        count := count + 1;
      }
      return None;
    }
  }
}
