/**
 * The voltages a device sees at its four terminals (CFullConnection):
 * per terminal a minimum, simulation and maximum voltage, the powers the
 * minimum and maximum came from, the leak range of the terminal's net and
 * the validity flags derived from them.
 */
module Connections {
  import opened CvcTypes
  import Power

  /** A terminal's minimum, simulation and maximum voltage (UNKNOWN_VOLTAGE when not known). */
  datatype Voltages = Voltages(min: int, sim: int, max: int)

  /** The powers the minimum and maximum voltage came from; null when none. */
  datatype Powers = Powers(min: Power.CPower?, max: Power.CPower?)

  /** A leak voltage range of the terminal's net. */
  datatype Range = Range(min: int, max: int)

  /** The validMin/Sim/Max and validMin/MaxLeak flags of one terminal. */
  datatype Validity = Validity(min: bool, sim: bool, max: bool, minLeak: bool, maxLeak: bool)

  predicate Known(v: int) {
    v != UNKNOWN_VOLTAGE
  }

  /** `power_p && power_p->type[HIZ_BIT]`. */
  predicate IsHiZ(p: Power.CPower?)
    reads p
  {
    p != null && HIZ_BIT in p.powerType
  }

  /** One terminal of CheckTerminalMinMaxVoltages. */
  predicate MinMaxUsable(v: Voltages, minHiZ: bool, maxHiZ: bool, checkHiZ: bool) {
    && Known(v.min) && Known(v.max)
    && v.min <= v.max
    && (checkHiZ || (!minHiZ && !maxHiZ))
  }

  /**
   * The first step of SetUnknownVoltageToSim and SetUnknownVoltage: a known
   * simulation voltage fills an unknown minimum and an unknown maximum.
   */
  function FilledFromSim(v: Voltages): (w: Voltages)
    ensures w.sim == v.sim
    ensures Known(v.min) ==> w.min == v.min
    ensures Known(v.max) ==> w.max == v.max
    ensures Known(v.sim) ==> Known(w.min) && Known(w.max)
    ensures Known(v.sim) && !Known(v.min) ==> w.min == v.sim
    ensures Known(v.sim) && !Known(v.max) ==> w.max == v.sim
    ensures !Known(v.sim) ==> w == v
  {
    if Known(v.sim) then
      Voltages(if Known(v.min) then v.min else v.sim, v.sim, if Known(v.max) then v.max else v.sim)
    else v
  }

  /**
   * What SetUnknownVoltage leaves at one terminal: filled from sim, then an
   * unknown maximum copies the minimum, then an unknown minimum copies the
   * maximum, then an unknown sim takes the minimum when minimum and maximum agree.
   */
  function Settled(v: Voltages): (w: Voltages)
  {
    var a := FilledFromSim(v);
    var b := if Known(a.min) && !Known(a.max) then a.(max := a.min) else a;
    var c := if Known(b.max) && !Known(b.min) then b.(min := b.max) else b;
    if !Known(c.sim) && c.min == c.max then c.(sim := c.min) else c
  }

  /** The promises of SetUnknownVoltage at one terminal. */
  lemma SettledFacts(v: Voltages)
    ensures var w := Settled(v);
      && (Known(w.min) <==> Known(w.max))
      && (Known(v.sim) ==> w.sim == v.sim)
      && (!Known(v.sim) && w.min == w.max ==> w.sim == w.min)
      && (Known(v.min) ==> w.min == v.min)
      && (Known(v.max) ==> w.max == v.max)
      && (Known(v.sim) || Known(v.min) || Known(v.max) <==> Known(w.min))
      && (!Known(v.sim) && !Known(v.min) && !Known(v.max) ==> w == v)
  {
  }

  /** The two one-sided fills: a lone known bound is copied to the other side. */
  lemma SettledOneSided(v: Voltages)
    requires !Known(v.sim)
    ensures Known(v.min) && !Known(v.max) ==> Settled(v) == Voltages(v.min, v.min, v.min)
    ensures Known(v.max) && !Known(v.min) ==> Settled(v) == Voltages(v.max, v.max, v.max)
  {
  }

  /** A settled terminal is settled again: SetUnknownVoltage changes nothing the second time. */
  lemma SettledIdempotent(v: Voltages)
    ensures Settled(Settled(v)) == Settled(v)
  {
  }

  /**
   * The validity flags SetMinMaxLeakVoltagesAndFlags derives for one
   * terminal, step by step as the source assigns them.
   */
  function Judged(v: Voltages, minHiZ: bool, maxHiZ: bool, leak: Range): (r: Validity)
  {
    var min0 := !(!Known(v.min) || minHiZ);
    var sim := Known(v.sim);
    var max0 := !(!Known(v.max) || maxHiZ);
    var minLeak0 := Known(leak.min);
    var maxLeak0 := Known(leak.max);
    var min1 := if min0 && max0 then v.min <= v.max else min0;
    var max1 := if min0 && max0 then v.min <= v.max else max0;
    var minLeak := if minLeak0 && maxLeak0 then leak.min <= leak.max else minLeak0;
    var maxLeak := if minLeak0 && maxLeak0 then leak.min <= leak.max else maxLeak0;
    var min := if min1 && minLeak then v.min >= leak.min else min1;
    var max := if max1 && maxLeak then v.max <= leak.max else max1;
    Validity(min, sim, max, minLeak, maxLeak)
  }

  /** Each flag of Judged, stated as the condition it stands for. */
  lemma JudgedMeaning(v: Voltages, minHiZ: bool, maxHiZ: bool, leak: Range)
    ensures var r := Judged(v, minHiZ, maxHiZ, leak);
      && (r.sim <==> Known(v.sim))
      && (r.minLeak <==> Known(leak.min) && (Known(leak.max) ==> leak.min <= leak.max))
      && (r.maxLeak <==> Known(leak.max) && (Known(leak.min) ==> leak.min <= leak.max))
      && (r.min <==>
            && Known(v.min) && !minHiZ
            && (Known(v.max) && !maxHiZ ==> v.min <= v.max)
            && (r.minLeak ==> v.min >= leak.min))
      && (r.max <==>
            && Known(v.max) && !maxHiZ
            && (Known(v.min) && !minHiZ ==> v.min <= v.max)
            && (r.maxLeak ==> v.max <= leak.max))
  {
  }

  /** An unknown or HiZ bound is never valid, and a crossed pair invalidates both. */
  lemma JudgedRejects(v: Voltages, minHiZ: bool, maxHiZ: bool, leak: Range)
    ensures var r := Judged(v, minHiZ, maxHiZ, leak);
      && (!Known(v.min) || minHiZ ==> !r.min)
      && (!Known(v.max) || maxHiZ ==> !r.max)
      && (Known(v.min) && Known(v.max) && !minHiZ && !maxHiZ && v.min > v.max ==> !r.min && !r.max)
  {
    JudgedMeaning(v, minHiZ, maxHiZ, leak);
  }

  /** Everything the connection records about one terminal. */
  datatype TerminalState = TerminalState(voltages: Voltages, powers: Powers, leak: Range, valid: Validity)

  class FullConnection {
    var modelType: ModelType
    var gate: TerminalState
    var source: TerminalState
    var drain: TerminalState
    var bulk: TerminalState

    function StateAt(t: Terminal): TerminalState
      reads this
    {
      match t
      case Gate => gate
      case Source => source
      case Drain => drain
      case Bulk => bulk
    }

    function At(t: Terminal): Voltages
      reads this
    {
      StateAt(t).voltages
    }

    /** The powers the connection points to. */
    function PowerRefs(): set<Power.CPower?>
      reads this
    {
      {gate.powers.min, gate.powers.max, source.powers.min, source.powers.max,
       drain.powers.min, drain.powers.max, bulk.powers.min, bulk.powers.max}
    }

    predicate Usable(t: Terminal, checkHiZ: bool)
      reads this, PowerRefs()
    {
      MinMaxUsable(At(t), IsHiZ(StateAt(t).powers.min), IsHiZ(StateAt(t).powers.max), checkHiZ)
    }

    /**
     * CheckTerminalMinMaxVoltages: every selected terminal has a known
     * minimum and maximum, the minimum is not above the maximum and,
     * unless HiZ powers are allowed, neither came from a HiZ power.
     */
    predicate CheckTerminalMinMaxVoltages(terminals: bv32, checkHiZ: bool)
      reads this, PowerRefs()
    {
      if Selects(terminals, Gate) && !Usable(Gate, checkHiZ) then false
      else if Selects(terminals, Source) && !Usable(Source, checkHiZ) then false
      else if Selects(terminals, Drain) && !Usable(Drain, checkHiZ) then false
      else if Selects(terminals, Bulk) && !Usable(Bulk, checkHiZ) then false
      else true
    }

    /** CheckTerminalMinVoltages: every selected terminal has a known minimum. */
    predicate CheckTerminalMinVoltages(terminals: bv32)
      reads this
    {
      if Selects(terminals, Gate) && !Known(gate.voltages.min) then false
      else if Selects(terminals, Source) && !Known(source.voltages.min) then false
      else if Selects(terminals, Drain) && !Known(drain.voltages.min) then false
      else if Selects(terminals, Bulk) && !Known(bulk.voltages.min) then false
      else true
    }

    /** CheckTerminalMaxVoltages: every selected terminal has a known maximum. */
    predicate CheckTerminalMaxVoltages(terminals: bv32)
      reads this
    {
      if Selects(terminals, Gate) && !Known(gate.voltages.max) then false
      else if Selects(terminals, Source) && !Known(source.voltages.max) then false
      else if Selects(terminals, Drain) && !Known(drain.voltages.max) then false
      else if Selects(terminals, Bulk) && !Known(bulk.voltages.max) then false
      else true
    }

    /** CheckTerminalSimVoltages: every selected terminal has a known simulation voltage. */
    predicate CheckTerminalSimVoltages(terminals: bv32)
      reads this
    {
      if Selects(terminals, Gate) && !Known(gate.voltages.sim) then false
      else if Selects(terminals, Source) && !Known(source.voltages.sim) then false
      else if Selects(terminals, Drain) && !Known(drain.voltages.sim) then false
      else if Selects(terminals, Bulk) && !Known(bulk.voltages.sim) then false
      else true
    }

    /**
     * IsPumpCapacitor: a capacitor whose source, or else drain, has one
     * power for minimum and maximum but different minimum and maximum voltages.
     */
    predicate IsPumpCapacitor()
      reads this
    {
      if modelType != CAPACITOR then false
      else if source.powers.min == source.powers.max && source.voltages.min != source.voltages.max then true
      else if drain.powers.min == drain.powers.max && drain.voltages.min != drain.voltages.max then true
      else false
    }

    /** SetUnknownVoltageToSim: a known sim fills an unknown minimum and maximum, nothing else changes. */
    method SetUnknownVoltageToSim()
      modifies this`gate, this`source, this`drain, this`bulk
      ensures gate == old(gate.(voltages := FilledFromSim(gate.voltages)))
      ensures source == old(source.(voltages := FilledFromSim(source.voltages)))
      ensures drain == old(drain.(voltages := FilledFromSim(drain.voltages)))
      ensures bulk == old(bulk.(voltages := FilledFromSim(bulk.voltages)))
    {
      var b := FillFromSim(bulk.voltages);
      var s := FillFromSim(source.voltages);
      var d := FillFromSim(drain.voltages);
      var g := FillFromSim(gate.voltages);
      bulk, source, drain, gate := bulk.(voltages := b), source.(voltages := s), drain.(voltages := d), gate.(voltages := g);
    }

    /** SetUnknownVoltage: every terminal's voltages become Settled, nothing else changes. */
    method SetUnknownVoltage()
      modifies this`gate, this`source, this`drain, this`bulk
      ensures gate == old(gate.(voltages := Settled(gate.voltages)))
      ensures source == old(source.(voltages := Settled(source.voltages)))
      ensures drain == old(drain.(voltages := Settled(drain.voltages)))
      ensures bulk == old(bulk.(voltages := Settled(bulk.voltages)))
    {
      var b := Settle(bulk.voltages);
      var s := Settle(source.voltages);
      var d := Settle(drain.voltages);
      var g := Settle(gate.voltages);
      bulk, source, drain, gate := bulk.(voltages := b), source.(voltages := s), drain.(voltages := d), gate.(voltages := g);
    }

    /**
     * SetMinMaxLeakVoltagesAndFlags: stores each terminal's leak range (the
     * database's MinLeakVoltage and MaxLeakVoltage of the terminal's net,
     * given here as parameters) and sets each terminal's flags to Judged.
     */
    method SetMinMaxLeakVoltagesAndFlags(gateLeak: Range, sourceLeak: Range, drainLeak: Range, bulkLeak: Range)
      modifies this`gate, this`source, this`drain, this`bulk
      ensures gate == old(gate.(leak := gateLeak, valid := Judged(gate.voltages, IsHiZ(gate.powers.min), IsHiZ(gate.powers.max), gateLeak)))
      ensures source == old(source.(leak := sourceLeak, valid := Judged(source.voltages, IsHiZ(source.powers.min), IsHiZ(source.powers.max), sourceLeak)))
      ensures drain == old(drain.(leak := drainLeak, valid := Judged(drain.voltages, IsHiZ(drain.powers.min), IsHiZ(drain.powers.max), drainLeak)))
      ensures bulk == old(bulk.(leak := bulkLeak, valid := Judged(bulk.voltages, IsHiZ(bulk.powers.min), IsHiZ(bulk.powers.max), bulkLeak)))
    {
      var g := JudgeTerminal(gate, gateLeak);
      var s := JudgeTerminal(source, sourceLeak);
      var d := JudgeTerminal(drain, drainLeak);
      var b := JudgeTerminal(bulk, bulkLeak);
      gate, source, drain, bulk := g, s, d, b;
    }
  }

  /** The per-terminal block of SetUnknownVoltageToSim. */
  method FillFromSim(v: Voltages) returns (w: Voltages)
    ensures w == FilledFromSim(v)
  {
    w := v;
    if w.sim != UNKNOWN_VOLTAGE {
      if w.min == UNKNOWN_VOLTAGE { w := w.(min := w.sim); }
      if w.max == UNKNOWN_VOLTAGE { w := w.(max := w.sim); }
    }
  }

  /**
   * The statements of SetUnknownVoltage that touch one terminal, in source
   * order. The source runs each step for all four terminals before the next
   * step; no step reads another terminal, so the order between terminals
   * does not matter.
   */
  method Settle(v: Voltages) returns (w: Voltages)
    ensures w == Settled(v)
  {
    w := FillFromSim(v);
    if w.min != UNKNOWN_VOLTAGE && w.max == UNKNOWN_VOLTAGE { w := w.(max := w.min); }
    if w.max != UNKNOWN_VOLTAGE && w.min == UNKNOWN_VOLTAGE { w := w.(min := w.max); }
    if w.sim == UNKNOWN_VOLTAGE && w.min == w.max { w := w.(sim := w.min); }
  }

  /** The flag assignments of SetMinMaxLeakVoltagesAndFlags for one terminal, in source order. */
  method JudgeTerminal(st: TerminalState, leak: Range) returns (r: TerminalState)
    ensures r == st.(leak := leak, valid := Judged(st.voltages, IsHiZ(st.powers.min), IsHiZ(st.powers.max), leak))
  {
    var v := st.voltages;
    var validMin := !(v.min == UNKNOWN_VOLTAGE || (st.powers.min != null && HIZ_BIT in st.powers.min.powerType));
    var validSim := v.sim != UNKNOWN_VOLTAGE;
    var validMax := !(v.max == UNKNOWN_VOLTAGE || (st.powers.max != null && HIZ_BIT in st.powers.max.powerType));
    var validMinLeak := leak.min != UNKNOWN_VOLTAGE;
    var validMaxLeak := leak.max != UNKNOWN_VOLTAGE;
    if validMin && validMax {
      validMin := v.min <= v.max;
      validMax := validMin;
    }
    if validMinLeak && validMaxLeak {
      validMinLeak := leak.min <= leak.max;
      validMaxLeak := validMinLeak;
    }
    if validMin && validMinLeak {
      validMin := v.min >= leak.min;
    }
    if validMax && validMaxLeak {
      validMax := v.max <= leak.max;
    }
    r := st.(leak := leak, valid := Validity(validMin, validSim, validMax, validMinLeak, validMaxLeak));
  }

  /** CheckTerminalMinMaxVoltages holds exactly when every selected terminal is usable. */
  lemma MinMaxMeaning(c: FullConnection, terminals: bv32, checkHiZ: bool)
    ensures c.CheckTerminalMinMaxVoltages(terminals, checkHiZ) <==>
      forall t :: Selects(terminals, t) ==> c.Usable(t, checkHiZ)
  {
    if c.CheckTerminalMinMaxVoltages(terminals, checkHiZ) {
      forall t | Selects(terminals, t) ensures c.Usable(t, checkHiZ) {
        match t
        case Gate =>
        case Source =>
        case Drain =>
        case Bulk =>
      }
    }
  }

  /** CheckTerminalMinVoltages holds exactly when every selected terminal has a known minimum. */
  lemma MinMeaning(c: FullConnection, terminals: bv32)
    ensures c.CheckTerminalMinVoltages(terminals) <==> forall t :: Selects(terminals, t) ==> Known(c.At(t).min)
  {
    if c.CheckTerminalMinVoltages(terminals) {
      forall t | Selects(terminals, t) ensures Known(c.At(t).min) {
        match t
        case Gate =>
        case Source =>
        case Drain =>
        case Bulk =>
      }
    }
  }

  /** CheckTerminalMaxVoltages holds exactly when every selected terminal has a known maximum. */
  lemma MaxMeaning(c: FullConnection, terminals: bv32)
    ensures c.CheckTerminalMaxVoltages(terminals) <==> forall t :: Selects(terminals, t) ==> Known(c.At(t).max)
  {
    if c.CheckTerminalMaxVoltages(terminals) {
      forall t | Selects(terminals, t) ensures Known(c.At(t).max) {
        match t
        case Gate =>
        case Source =>
        case Drain =>
        case Bulk =>
      }
    }
  }

  /** CheckTerminalSimVoltages holds exactly when every selected terminal has a known sim voltage. */
  lemma SimMeaning(c: FullConnection, terminals: bv32)
    ensures c.CheckTerminalSimVoltages(terminals) <==> forall t :: Selects(terminals, t) ==> Known(c.At(t).sim)
  {
    if c.CheckTerminalSimVoltages(terminals) {
      forall t | Selects(terminals, t) ensures Known(c.At(t).sim) {
        match t
        case Gate =>
        case Source =>
        case Drain =>
        case Bulk =>
      }
    }
  }

  /**
   * Once every terminal is settled (a known minimum exactly when a known
   * maximum), the minimum and the maximum checks agree on every selection.
   */
  lemma SettledChecksAgree(c: FullConnection, terminals: bv32)
    requires forall t :: Known(c.At(t).min) <==> Known(c.At(t).max)
    ensures c.CheckTerminalMinVoltages(terminals) <==> c.CheckTerminalMaxVoltages(terminals)
  {
    MinMeaning(c, terminals);
    MaxMeaning(c, terminals);
  }

  /** IsPumpCapacitor: a capacitor with one power but two voltages at its source or at its drain. */
  lemma PumpMeaning(c: FullConnection)
    ensures c.IsPumpCapacitor() <==>
      && c.modelType == CAPACITOR
      && exists t :: (t == Source || t == Drain) && c.StateAt(t).powers.min == c.StateAt(t).powers.max && c.At(t).min != c.At(t).max
  {
    if c.IsPumpCapacitor() {
      if c.source.powers.min == c.source.powers.max && c.source.voltages.min != c.source.voltages.max {
        assert c.StateAt(Source) == c.source;
      } else {
        assert c.StateAt(Drain) == c.drain;
      }
    }
  }

  /** Allowing HiZ powers only widens CheckTerminalMinMaxVoltages. */
  lemma HiZCheckWidens(c: FullConnection, terminals: bv32)
    requires c.CheckTerminalMinMaxVoltages(terminals, false)
    ensures c.CheckTerminalMinMaxVoltages(terminals, true)
  {
  }

  /** A passed min/max check implies the min check and the max check. */
  lemma MinMaxImpliesBoth(c: FullConnection, terminals: bv32, checkHiZ: bool)
    requires c.CheckTerminalMinMaxVoltages(terminals, checkHiZ)
    ensures c.CheckTerminalMinVoltages(terminals) && c.CheckTerminalMaxVoltages(terminals)
  {
  }

  /** Checking a union of terminal sets is checking each set. */
  lemma CheckUnion(c: FullConnection, a: bv32, b: bv32, checkHiZ: bool)
    ensures c.CheckTerminalMinMaxVoltages(a | b, checkHiZ) <==>
      c.CheckTerminalMinMaxVoltages(a, checkHiZ) && c.CheckTerminalMinMaxVoltages(b, checkHiZ)
  {
    assert forall t :: Selects(a | b, t) <==> Selects(a, t) || Selects(b, t);
  }
}
