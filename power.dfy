/**
 * Power definitions (CPower): the voltages and default nets of a power net,
 * its status bits and the extra data holding expected values, family and
 * relatives, signal name and alias; the rules that decide whether two
 * powers may be shorted or are related; the "family" lines and their
 * expansion into relative sets; the per-net voltage lookups of the
 * power-pointer vector; and the recording of a calculated voltage.
 */
module Power {
  import opened Outcomes
  import opened CppString
  import opened CvcTypes
  import Text

  /** activeType_t */
  datatype ActiveBit = MIN_ACTIVE | MAX_ACTIVE | MIN_IGNORE | MAX_IGNORE

  /** calculationType_t */
  datatype Calculation =
    | UNKNOWN_CALCULATION | NO_CALCULATION | UP_CALCULATION | DOWN_CALCULATION
    | RESISTOR_CALCULATION | ESTIMATED_CALCULATION

  /**
   * CExtraPowerData. It belongs to exactly one power (copying a power
   * duplicates it), so it is held by value; `None` is the null pointer.
   */
  datatype ExtraData = ExtraData(
    expectedSim: string,
    expectedMin: string,
    expectedMax: string,
    family: string,
    implicitFamily: string,
    relativeSet: set<string>,
    powerSignal: string,
    powerAlias: string)

  /** A freshly allocated CExtraPowerData. */
  const BLANK_EXTRA: ExtraData := ExtraData("", "", "", "", "", {}, "", "")

  /** Every field of a power, as one value. */
  datatype PowerState = PowerState(
    minVoltage: int,
    simVoltage: int,
    maxVoltage: int,
    netId: nat,
    defaultMinNet: nat,
    defaultSimNet: nat,
    defaultMaxNet: nat,
    definition: string,
    extraData: Option<ExtraData>,
    powerType: set<PowerBit>,
    active: set<ActiveBit>,
    minCalculation: Calculation,
    simCalculation: Calculation,
    maxCalculation: Calculation,
    relativeFriendly: bool,
    flagAllShorts: bool)

  /** The state CPower(netId) starts in. */
  function Blank(netId: nat): PowerState {
    PowerState(UNKNOWN_VOLTAGE, UNKNOWN_VOLTAGE, UNKNOWN_VOLTAGE, netId,
               UNKNOWN_NET, UNKNOWN_NET, UNKNOWN_NET, "", None, {}, {},
               UNKNOWN_CALCULATION, UNKNOWN_CALCULATION, UNKNOWN_CALCULATION, true, false)
  }

  /** The voltage a queue works on: min for MIN_QUEUE, max for MAX_QUEUE, sim for SIM_QUEUE. */
  function Level(s: PowerState, queue: EventQueueType): int {
    match queue
    case MIN_QUEUE => s.minVoltage
    case SIM_QUEUE => s.simVoltage
    case MAX_QUEUE => s.maxVoltage
  }

  function DefaultNet(s: PowerState, queue: EventQueueType): nat {
    match queue
    case MIN_QUEUE => s.defaultMinNet
    case SIM_QUEUE => s.defaultSimNet
    case MAX_QUEUE => s.defaultMaxNet
  }

  function CalculationOf(s: PowerState, queue: EventQueueType): Calculation {
    match queue
    case MIN_QUEUE => s.minCalculation
    case SIM_QUEUE => s.simCalculation
    case MAX_QUEUE => s.maxCalculation
  }

  function CalculatedBit(queue: EventQueueType): PowerBit {
    match queue
    case MIN_QUEUE => MIN_CALCULATED_BIT
    case SIM_QUEUE => SIM_CALCULATED_BIT
    case MAX_QUEUE => MAX_CALCULATED_BIT
  }

  /** The accessors of CPower: the extra data's field, or the default when there is none. */
  function AliasOfState(s: PowerState): string {
    if s.extraData.Some? then s.extraData.value.powerAlias else ""
  }

  // ------------------------------------------------- voltage arithmetic

  /** A 32-bit two's-complement result of an exact integer. */
  function Wrap32(x: int): int {
    (x - INT32_MIN) % UINT32_RANGE + INT32_MIN
  }

  /** `abs` of a 32-bit value: the most negative value is its own absolute value. */
  function Abs32(x: int): int {
    if x < 0 && x != INT32_MIN then -x else x
  }

  /** `abs(a - b) <= threshold` on voltage_t (int32_t) operands. */
  predicate Close(a: int, b: int, threshold: int) {
    Abs32(Wrap32(a - b)) <= threshold
  }

  /**
   * For two voltages whose difference fits in 32 bits, Close is the plain
   * distance test; otherwise the subtraction wraps, and only the two ends of
   * the 33-bit range can pass.
   */
  lemma CloseMeans(a: int, b: int, threshold: int)
    requires IsVoltage(a) && IsVoltage(b) && 0 <= threshold
    ensures INT32_MIN < a - b <= INT32_MAX ==> (Close(a, b, threshold) <==> -threshold <= a - b <= threshold)
    ensures Close(a, b, threshold) ==>
              -threshold <= a - b <= threshold || a - b == INT32_MIN || a - b == -INT32_MIN
              || a - b >= UINT32_RANGE - threshold || a - b <= threshold - UINT32_RANGE
  {
    var d := a - b;
    if INT32_MIN <= d <= INT32_MAX {
      assert Wrap32(d) == d;
    } else if d > INT32_MAX {
      assert Wrap32(d) == d - UINT32_RANGE;
    } else {
      assert Wrap32(d) == d + UINT32_RANGE;
    }
  }

  /** An unknown voltage (INT32_MAX) counts as within any threshold of -1 mV. */
  lemma UnknownCloseToMinusOne(threshold: int)
    requires 0 <= threshold
    ensures Close(UNKNOWN_VOLTAGE, -1, threshold)
  {
    assert Wrap32(UNKNOWN_VOLTAGE - -1) == INT32_MIN;
  }

  // ------------------------------------------------------------ CPower

  class CPower {
    var minVoltage: int
    var simVoltage: int
    var maxVoltage: int
    var netId: nat
    var defaultMinNet: nat
    var defaultSimNet: nat
    var defaultMaxNet: nat
    var definition: string
    var extraData: Option<ExtraData>
    var powerType: set<PowerBit>
    var active: set<ActiveBit>
    var minCalculation: Calculation
    var simCalculation: Calculation
    var maxCalculation: Calculation
    var relativeFriendly: bool
    var flagAllShorts: bool

    /** CPower(netId): nothing known, no status bits, no extra data. */
    constructor (id: nat)
      ensures State() == Blank(id)
    {
      minVoltage, simVoltage, maxVoltage := UNKNOWN_VOLTAGE, UNKNOWN_VOLTAGE, UNKNOWN_VOLTAGE;
      netId := id;
      defaultMinNet, defaultSimNet, defaultMaxNet := UNKNOWN_NET, UNKNOWN_NET, UNKNOWN_NET;
      definition := "";
      extraData := None;
      powerType, active := {}, {};
      minCalculation, simCalculation, maxCalculation := UNKNOWN_CALCULATION, UNKNOWN_CALCULATION, UNKNOWN_CALCULATION;
      relativeFriendly, flagAllShorts := true, false;
    }

    function State(): PowerState
      reads this
    {
      PowerState(minVoltage, simVoltage, maxVoltage, netId, defaultMinNet, defaultSimNet, defaultMaxNet,
                 definition, extraData, powerType, active, minCalculation, simCalculation, maxCalculation,
                 relativeFriendly, flagAllShorts)
    }

    function ExpectedSim(): string reads this { if extraData.Some? then extraData.value.expectedSim else "" }
    function ExpectedMin(): string reads this { if extraData.Some? then extraData.value.expectedMin else "" }
    function ExpectedMax(): string reads this { if extraData.Some? then extraData.value.expectedMax else "" }
    function Family(): string reads this { if extraData.Some? then extraData.value.family else "" }
    function RelativeSet(): set<string> reads this { if extraData.Some? then extraData.value.relativeSet else {} }
    function PowerSignal(): string reads this { if extraData.Some? then extraData.value.powerSignal else "" }
    function PowerAlias(): string reads this { AliasOfState(State()) }

    /** The fields IsSamePower compares. */
    function Signature(): PowerSignature
      reads this
    {
      PowerSignature(powerType, minVoltage, simVoltage, maxVoltage, ExpectedMin(), ExpectedSim(), ExpectedMax(),
                Family(), relativeFriendly)
    }

    /**
     * IsSamePower: the two definitions agree on type, the three voltages,
     * the three expected values, the family and whether it permits or
     * prohibits. It ignores the net, the defaults and the names.
     */
    function IsSamePower(other: CPower): (r: bool)
      reads this, other
      ensures r <==> Signature() == other.Signature()
    {
      powerType == other.powerType
      && minVoltage == other.minVoltage && simVoltage == other.simVoltage && maxVoltage == other.maxVoltage
      && ExpectedMin() == other.ExpectedMin() && ExpectedSim() == other.ExpectedSim()
      && ExpectedMax() == other.ExpectedMax()
      && Family() == other.Family() && relativeFriendly == other.relativeFriendly
    }

    /**
     * IsValidSubset: `other` adds nothing of its own (no type bits, no
     * expected values, no family) and each of its voltages is within
     * `threshold` of this power's, by 32-bit `abs(a - b)`.
     */
    function IsValidSubset(other: CPower, threshold: int): (r: bool)
      reads this, other
      ensures r ==> other.powerType == {} && other.Family() == ""
                    && other.ExpectedMin() == "" && other.ExpectedSim() == "" && other.ExpectedMax() == ""
      ensures r ==> forall q :: Close(Level(State(), q), Level(other.State(), q), threshold)
    {
      other.powerType == {}
      && Close(minVoltage, other.minVoltage, threshold)
      && Close(simVoltage, other.simVoltage, threshold)
      && Close(maxVoltage, other.maxVoltage, threshold)
      && other.ExpectedMin() == "" && other.ExpectedSim() == "" && other.ExpectedMax() == ""
      && other.Family() == ""
    }

    /**
     * IsRelative: whether this power and `test` belong together.
     * A missing test power, or two powers with no relatives at all, give
     * `byDefault`; with `hiZRelative` a HiZ power is related to everything.
     * Otherwise each side that declares a family takes a stance, permit or
     * prohibit, and Decide combines the two stances.
     */
    function IsRelative(test: CPower?, byDefault: bool, hiZRelative: bool): (r: bool)
      reads this, test
      ensures test == null ==> r == byDefault
      ensures test != null && hiZRelative && (HIZ_BIT in powerType || HIZ_BIT in test.powerType) ==> r
      ensures (test != null && !(hiZRelative && (HIZ_BIT in powerType || HIZ_BIT in test.powerType))
               && RelativeSet() == {} && test.RelativeSet() == {}) ==> r == byDefault
    {
      if test == null then byDefault
      else if hiZRelative && (HIZ_BIT in powerType || HIZ_BIT in test.powerType) then true
      else if RelativeSet() == {} && test.RelativeSet() == {} then byDefault
      else Decide(StanceOf(this, test), StanceOf(test, this), byDefault)
    }

    /**
     * SetPowerAlias: stores the alias AliasOf derives from the definition
     * line and this power's signal name. Only the definition-line
     * constructor calls it, after creating the extra data.
     */
    method SetPowerAlias(line: string, aliasStart: nat) returns (failure: Option<Failure>)
      requires |line| < NPOS && IsSize(aliasStart)
      requires extraData.Some? && |extraData.value.powerSignal| < NPOS
      modifies this`extraData
      ensures var alias := AliasOf(line, aliasStart, old(PowerSignal()));
              if alias.Ok? then failure.None? && extraData == Some(old(extraData.value).(powerAlias := alias.value))
              else failure == Some(alias.failure) && extraData == old(extraData)
    {
      var signal := extraData.value.powerSignal;
      var lastHierarchy := FindLastOf(signal, HIERARCHY_DELIMITER);
      var alias := "";
      if aliasStart < |line| {
        var aliasEnd := FindFirstOf(line, " \t", aliasStart);
        var cut := Substr(line, aliasStart + 2, SizeSub(SizeSub(aliasEnd, aliasStart), 2));
        if cut.Fail? {
          return Some(cut.failure);
        }
        alias := cut.value;
      } else if lastHierarchy < |signal| {
        if lastHierarchy == 0 {
          alias := signal[lastHierarchy + 1..];
        }
      } else {
        alias := signal;
      }
      var busStart := FindFirstOf(alias, BUS_OPENERS, 0);
      if busStart < |alias| {
        alias := alias[..busStart];
      }
      extraData := Some(extraData.value.(powerAlias := alias));
      failure := None;
    }

    /**
     * The first half of CalculatePower: from the default net's power
     * `source`, a HiZ bit, the families and relatives, and the
     * permit/prohibit flag.
     */
    method Inherit(source: CPower)
      requires source != this
      modifies this
      ensures State() == Inherited(old(State()), Some(source.State()))
    {
      if HIZ_BIT in source.powerType {
        powerType := powerType + {HIZ_BIT};
      }
      if source.extraData.Some? {
        var e := if extraData.Some? then extraData.value else BLANK_EXTRA;
        extraData := Some(e.(family := source.extraData.value.family,
                             implicitFamily := source.extraData.value.implicitFamily,
                             relativeSet := source.extraData.value.relativeSet));
      }
      relativeFriendly := source.relativeFriendly;
    }

    /**
     * The second half of CalculatePower: records the voltage for the queue,
     * compares it with the default net's voltage `reference`, and fills in
     * an empty alias and an empty definition. A voltage already known for
     * the queue is a database error.
     */
    method Settle(queue: EventQueueType, voltage: int, reference: int, defaultNet: nat, calculation: string,
                  minBaseAlias: string, simBaseAlias: string, maxBaseAlias: string)
      returns (failure: Option<Failure>)
      modifies this
      ensures var c := Settled(old(State()), queue, voltage, reference, defaultNet, calculation,
                               minBaseAlias, simBaseAlias, maxBaseAlias);
              State() == c.state && failure == c.failure
    {
      if Level(State(), queue) != UNKNOWN_VOLTAGE {
        return Some(DatabaseError);
      }
      match queue {
        case MIN_QUEUE => RecordMin(voltage, reference, defaultNet);
        case MAX_QUEUE => RecordMax(voltage, reference, defaultNet);
        case SIM_QUEUE => RecordSim(voltage, reference, defaultNet, minBaseAlias, simBaseAlias, maxBaseAlias);
      }
      if definition == "" {
        definition := calculation;
      }
      failure := None;
    }

    /** The MIN_QUEUE branch of CalculatePower. */
    method RecordMin(voltage: int, reference: int, defaultNet: nat)
      modifies this`minVoltage, this`defaultMinNet, this`powerType, this`active, this`minCalculation
      ensures State() == Recorded(old(State()), MIN_QUEUE, voltage, reference, defaultNet, "", "", "")
    {
      minVoltage, defaultMinNet, minCalculation := voltage, defaultNet, Direction(voltage, reference, minCalculation);
      powerType, active := powerType + {MIN_CALCULATED_BIT}, active + {MIN_ACTIVE};
    }

    /** The MAX_QUEUE branch of CalculatePower. */
    method RecordMax(voltage: int, reference: int, defaultNet: nat)
      modifies this`maxVoltage, this`defaultMaxNet, this`powerType, this`active, this`maxCalculation
      ensures State() == Recorded(old(State()), MAX_QUEUE, voltage, reference, defaultNet, "", "", "")
    {
      maxVoltage, defaultMaxNet, maxCalculation := voltage, defaultNet, Direction(voltage, reference, maxCalculation);
      powerType, active := powerType + {MAX_CALCULATED_BIT}, active + {MAX_ACTIVE};
    }

    /**
     * The SIM_QUEUE branch of CalculatePower: a power without an alias
     * takes that of the base power along the min net when its new sim
     * voltage equals its min voltage, else along the max net when it
     * equals the max voltage, else along the sim net.
     */
    method RecordSim(voltage: int, reference: int, defaultNet: nat,
                     minBaseAlias: string, simBaseAlias: string, maxBaseAlias: string)
      modifies this`simVoltage, this`defaultSimNet, this`powerType, this`extraData, this`simCalculation
      ensures State() == Recorded(old(State()), SIM_QUEUE, voltage, reference, defaultNet,
                                  minBaseAlias, simBaseAlias, maxBaseAlias)
    {
      extraData := WithBaseAlias(State(), voltage, minBaseAlias, simBaseAlias, maxBaseAlias);
      simVoltage, defaultSimNet, simCalculation := voltage, defaultNet, Direction(voltage, reference, simCalculation);
      powerType := powerType + {SIM_CALCULATED_BIT};
    }
  }

  /** The fields IsSamePower compares. */
  datatype PowerSignature = PowerSignature(
    powerType: set<PowerBit>,
    minVoltage: int,
    simVoltage: int,
    maxVoltage: int,
    expectedMin: string,
    expectedSim: string,
    expectedMax: string,
    family: string,
    relativeFriendly: bool)

  /** IsSamePower is an equivalence: reflexive, symmetric and transitive. */
  lemma SamePowerIsEquivalence(a: CPower, b: CPower, c: CPower)
    ensures a.IsSamePower(a)
    ensures a.IsSamePower(b) ==> b.IsSamePower(a)
    ensures a.IsSamePower(b) && b.IsSamePower(c) ==> a.IsSamePower(c)
  {
  }

  /**
   * A power with nothing of its own that agrees with another on every
   * compared field is a valid subset of it for any threshold >= 0: the
   * merge in SetMasterPower accepts it either way.
   */
  lemma SameBareIsSubset(a: CPower, b: CPower, threshold: int)
    requires a.IsSamePower(b) && 0 <= threshold
    requires b.powerType == {} && b.Family() == ""
    requires b.ExpectedMin() == "" && b.ExpectedSim() == "" && b.ExpectedMax() == ""
    ensures a.IsValidSubset(b, threshold)
  {
    forall q ensures Close(Level(a.State(), q), Level(b.State(), q), threshold) {
      assert Wrap32(0) == 0;
    }
  }

  // ---------------------------------------------------------- IsRelative

  /** How one power regards another: no family declared, or a permit/prohibit list that does or does not name it. */
  datatype Stance = Silent | Permits(listed: bool) | Prohibits(listed: bool)

  /**
   * Whether `mine`'s relative set names `test`: by signal, by alias, or
   * by sharing a relative with a non-empty relative set of `test`.
   */
  predicate Lists(mine: CPower, test: CPower)
    reads mine, test
  {
    test.PowerSignal() in mine.RelativeSet()
    || test.PowerAlias() in mine.RelativeSet()
    || (test.RelativeSet() != {} && mine.RelativeSet() * test.RelativeSet() != {})
  }

  function StanceOf(mine: CPower, test: CPower): Stance
    reads mine, test
  {
    if mine.Family() == "" then Silent
    else if mine.relativeFriendly then Permits(Lists(mine, test))
    else Prohibits(Lists(mine, test))
  }

  /**
   * The decision table of IsRelative. When neither side declares a family
   * (but some relative set is non-empty) the powers are related.
   */
  function Decide(mine: Stance, theirs: Stance, byDefault: bool): bool {
    match (mine, theirs)
    case (Permits(a), Permits(b)) => a || b
    case (Permits(a), Prohibits(b)) => if b then false else if a then true else byDefault
    case (Prohibits(a), Permits(b)) => if a then false else if b then true else byDefault
    case (Prohibits(a), Prohibits(b)) => !(a || b)
    case (Permits(a), Silent) => a
    case (Prohibits(a), Silent) => !a
    case (Silent, Permits(b)) => b
    case (Silent, Prohibits(b)) => !b
    case (Silent, Silent) => true
  }

  /** Two powers that both declare families and are not decided earlier by HiZ or empty relative sets. */
  predicate BothDeclare(a: CPower, b: CPower, hiZRelative: bool)
    reads a, b
  {
    a.Family() != "" && b.Family() != ""
    && !(hiZRelative && (HIZ_BIT in a.powerType || HIZ_BIT in b.powerType))
    && !(a.RelativeSet() == {} && b.RelativeSet() == {})
  }

  /**
   * The family rules: two permit lists relate the powers iff either names
   * the other; two prohibit lists iff neither does; and a prohibit list
   * naming the other side wins over a permit list.
   */
  lemma FamilyRules(a: CPower, b: CPower, byDefault: bool, hiZRelative: bool)
    requires BothDeclare(a, b, hiZRelative)
    ensures a.relativeFriendly && b.relativeFriendly ==>
              (a.IsRelative(b, byDefault, hiZRelative) <==> Lists(a, b) || Lists(b, a))
    ensures !a.relativeFriendly && !b.relativeFriendly ==>
              (a.IsRelative(b, byDefault, hiZRelative) <==> !Lists(a, b) && !Lists(b, a))
    ensures !a.relativeFriendly && Lists(a, b) ==> !a.IsRelative(b, byDefault, hiZRelative)
    ensures !b.relativeFriendly && Lists(b, a) ==> !a.IsRelative(b, byDefault, hiZRelative)
  {
  }

  /** Whether two powers are related does not depend on which one asks. */
  lemma RelativeIsSymmetric(a: CPower, b: CPower, byDefault: bool, hiZRelative: bool)
    ensures a.IsRelative(b, byDefault, hiZRelative) == b.IsRelative(a, byDefault, hiZRelative)
  {
  }

  // ------------------------------------------------------- SetPowerAlias

  const HIERARCHY_DELIMITER: string := "/"
  const ALIAS_DELIMITER: string := "~>"
  /** The characters that open a bus index. */
  const BUS_OPENERS: string := "{[(<"

  /** The alias with everything from the first bus opener on removed. */
  function CutAtBus(alias: string): (r: string)
    requires |alias| < NPOS
    ensures r <= alias
    ensures forall i :: 0 <= i < |r| ==> r[i] !in BUS_OPENERS
    ensures (forall i :: 0 <= i < |alias| ==> alias[i] !in BUS_OPENERS) ==> r == alias
  {
    var busStart := FindFirstOf(alias, BUS_OPENERS, 0);
    if busStart < |alias| then alias[..busStart] else alias
  }

  /**
   * The alias SetPowerAlias stores. With an alias marker at `aliasStart`
   * the alias is the word after "~>"; otherwise a top-level signal "/NAME"
   * gives NAME, a signal without hierarchy gives itself and a deeper
   * signal gives nothing. The result is cut at the first bus opener. The
   * only failure is `substr` past the end, when the marker is the last
   * character.
   */
  function AliasOf(line: string, aliasStart: nat, signal: string): (r: Result<string>)
    requires |line| < NPOS && |signal| < NPOS && IsSize(aliasStart)
    ensures r.Fail? <==> aliasStart < |line| && |line| < aliasStart + 2
    ensures r.Ok? ==> forall i :: 0 <= i < |r.value| ==> r.value[i] !in BUS_OPENERS
  {
    var lastHierarchy := FindLastOf(signal, HIERARCHY_DELIMITER);
    var alias :=
      if aliasStart < |line| then
        var aliasEnd := FindFirstOf(line, " \t", aliasStart);
        Substr(line, aliasStart + 2, SizeSub(SizeSub(aliasEnd, aliasStart), 2))
      else if lastHierarchy < |signal| then
        Ok(if lastHierarchy == 0 then signal[1..] else "")
      else Ok(signal);
    if alias.Fail? then alias else Ok(CutAtBus(alias.value))
  }

  /** A word without blanks. */
  predicate Unbroken(word: string) {
    forall i :: 0 <= i < |word| ==> word[i] != ' ' && word[i] != '\t'
  }

  /** An explicit "~>ALIAS" wins over the signal name. */
  lemma ExplicitAlias(before: string, alias: string, after: string, signal: string)
    requires |before + ALIAS_DELIMITER + alias + after| < NPOS && |signal| < NPOS
    requires Unbroken(alias) && (after == "" || after[0] == ' ' || after[0] == '\t')
    ensures AliasOf(before + ALIAS_DELIMITER + alias + after, |before|, signal) == Ok(CutAtBus(alias))
  {
    var line := before + ALIAS_DELIMITER + alias + after;
    var start := |before|;
    var aliasEnd := FindFirstOf(line, " \t", start);
    assert line[start] == '~' && line[start + 1] == '>';
    assert forall i :: 0 <= i < |alias| ==> line[start + 2 + i] == alias[i];
    if after == "" {
      assert aliasEnd == NPOS;
      assert line[start + 2..] == alias;
    } else {
      assert line[start + 2 + |alias|] == after[0];
      assert aliasEnd == start + 2 + |alias|;
      assert line[start + 2..start + 2 + |alias|] == alias;
    }
  }

  /** Without a marker, a top-level signal "/NAME" gives NAME. */
  lemma TopLevelAlias(line: string, aliasStart: nat, name: string)
    requires |line| < NPOS && |"/" + name| < NPOS && IsSize(aliasStart) && |line| <= aliasStart
    requires '/' !in name
    ensures AliasOf(line, aliasStart, "/" + name) == Ok(CutAtBus(name))
  {
    var signal := "/" + name;
    assert forall i :: 1 <= i < |signal| ==> signal[i] == name[i - 1];
    assert signal[0] in HIERARCHY_DELIMITER;
    assert forall i :: 1 <= i < |signal| ==> signal[i] !in HIERARCHY_DELIMITER;
    assert FindLastOf(signal, HIERARCHY_DELIMITER) == 0;
    assert signal[1..] == name;
  }

  /** Without a marker, a signal with no hierarchy gives itself. */
  lemma PlainAlias(line: string, aliasStart: nat, signal: string)
    requires |line| < NPOS && |signal| < NPOS && IsSize(aliasStart) && |line| <= aliasStart
    requires '/' !in signal
    ensures AliasOf(line, aliasStart, signal) == Ok(CutAtBus(signal))
  {
    assert FindLastOf(signal, HIERARCHY_DELIMITER) == NPOS;
  }

  /** Without a marker, a signal below the top level ("/X1/VDD", "X1/VDD") gives no alias. */
  lemma DeepAlias(line: string, aliasStart: nat, upper: string, name: string)
    requires |line| < NPOS && |upper + "/" + name| < NPOS && IsSize(aliasStart) && |line| <= aliasStart
    requires upper != "" && '/' !in name
    ensures AliasOf(line, aliasStart, upper + "/" + name) == Ok("")
  {
    var signal := upper + "/" + name;
    assert signal[|upper|] == '/';
    assert forall i :: |upper| < i < |signal| ==> signal[i] == name[i - |upper| - 1];
    assert FindLastOf(signal, HIERARCHY_DELIMITER) == |upper|;
  }

  // --------------------------------------------------------- family lines

  /**
   * The names a list yields: from `from` on, skip characters in `skip`,
   * take everything up to the next ',' (or the end), and repeat from that
   * comma. Every name is non-empty and free of commas.
   */
  function Tokens(s: string, skip: string, from: nat): (r: seq<string>)
    requires |s| < NPOS && ',' in skip
    ensures forall i :: 0 <= i < |r| ==> r[i] != "" && ',' !in r[i] && r[i][0] !in skip
    decreases |s| - from
  {
    var begin := FindFirstNotOf(s, skip, from);
    if begin >= |s| then []
    else
      var end := FindFirstOf(s, ",", begin);
      if end >= |s| then [s[begin..]]
      else [s[begin..end]] + Tokens(s, skip, end)
  }

  /**
   * One turn of the scanning loops: the next name runs from the first
   * unskipped character to the next comma (or the end), and scanning goes
   * on from that comma; with nothing left but skipped characters there
   * are no more names.
   */
  lemma TokensUnfold(s: string, skip: string, from: nat)
    requires |s| < NPOS && ',' in skip && IsSize(from)
    ensures var begin := FindFirstNotOf(s, skip, from);
            var end := FindFirstOf(s, ",", begin);
            (begin >= |s| ==> Tokens(s, skip, from) == [] && end == NPOS)
            && (begin < |s| ==>
                  begin < end && IsSize(end)
                  && Tokens(s, skip, from) == [if end < |s| then s[begin..end] else s[begin..]] + Tokens(s, skip, end))
  {
    var begin := FindFirstNotOf(s, skip, from);
    var end := FindFirstOf(s, ",", begin);
    if begin < |s| && end >= |s| {
      assert FindFirstNotOf(s, skip, end) == NPOS;
    }
  }

  /** The scan finds the first unskipped character. */
  lemma SkipTo(s: string, skip: string, from: nat, to: nat)
    requires |s| < NPOS && from <= to < |s| && s[to] !in skip
    requires forall i :: from <= i < to ==> s[i] in skip
    ensures FindFirstNotOf(s, skip, from) == to
  {
  }

  /** The scan finds the first comma at or after `from`, or npos without one. */
  lemma CommaAt(s: string, from: nat, to: nat)
    requires |s| < NPOS && from <= to <= |s|
    requires forall i :: from <= i < to ==> s[i] != ','
    requires to == |s| || s[to] == ','
    ensures FindFirstOf(s, ",", from) == if to == |s| then NPOS else to
  {
  }

  /** The set of a sequence's elements. */
  function Elements(names: seq<string>): set<string> {
    set i | 0 <= i < |names| :: names[i]
  }

  /** Elements of a sequence with one more name. */
  lemma ElementsSnoc(names: seq<string>, name: string)
    ensures Elements(names + [name]) == Elements(names) + {name}
  {
    var longer := names + [name];
    assert longer[|names|] == name;
    forall x | x in Elements(names) ensures x in Elements(longer) {
      var i :| 0 <= i < |names| && names[i] == x;
      assert longer[i] == x;
    }
  }

  /** Concatenation regrouped. */
  lemma Associative(a: seq<string>, b: seq<string>, c: seq<string>)
    ensures a + (b + c) == (a + b) + c
  {
  }

  /** A separator run: every character is skipped. */
  predicate Skipped(lead: string, skip: string) {
    forall i :: 0 <= i < |lead| ==> lead[i] in skip
  }

  /** A name the scan yields unchanged: non-empty, no comma, not starting with a skipped character. */
  predicate Scannable(name: string, skip: string) {
    name != [] && ',' !in name && name[0] !in skip
  }

  /**
   * Round trip: names written one after the other with "," between them,
   * after any run of skipped characters, are read back as exactly those
   * names, in order.
   */
  lemma {:induction false} TokensOfJoin(before: string, lead: string, names: seq<string>, skip: string)
    requires ',' in skip && Skipped(lead, skip)
    requires forall i :: 0 <= i < |names| ==> Scannable(names[i], skip)
    requires |before + lead + Text.Join(",", names)| < NPOS
    ensures Tokens(before + lead + Text.Join(",", names), skip, |before|) == names
    decreases |names|
  {
    var s := before + lead + Text.Join(",", names);
    var start := |before| + |lead|;
    assert forall i :: |before| <= i < start ==> s[i] == lead[i - |before|];
    if names == [] {
      assert s == before + lead;
      TokensNone(s, skip, |before|);
    } else if |names| == 1 {
      assert s == before + lead + names[0];
      LastName(before, lead, names[0], skip);
    } else {
      FirstName(before, lead, names, skip);
      TokensOfJoin(before + lead + names[0], ",", names[1..], skip);
    }
  }

  /** The first of several joined names is read back, and scanning goes on from the comma after it. */
  lemma FirstName(before: string, lead: string, names: seq<string>, skip: string)
    requires ',' in skip && Skipped(lead, skip) && |names| >= 2 && Scannable(names[0], skip)
    requires |before + lead + Text.Join(",", names)| < NPOS
    ensures var s := before + lead + Text.Join(",", names);
      var prefix := before + lead + names[0];
      && s == prefix + "," + Text.Join(",", names[1..])
      && Tokens(s, skip, |before|) == [names[0]] + Tokens(s, skip, |prefix|)
  {
    var s := before + lead + Text.Join(",", names);
    var start := |before| + |lead|;
    assert forall i :: |before| <= i < start ==> s[i] == lead[i - |before|];
    var name := names[0];
    assert [name] + names[1..] == names;
    NextName(before + lead, name, names[1..]);
    var stop := start + |name|;
    assert forall i :: start <= i < stop ==> s[i] == name[i - start];
    TokensHead(s, skip, |before|, start, stop);
    assert s[start..stop] == name;
  }

  /** The last name of a list is read back up to the end of the text. */
  lemma LastName(before: string, lead: string, name: string, skip: string)
    requires ',' in skip && Skipped(lead, skip) && Scannable(name, skip) && |before + lead + name| < NPOS
    ensures Tokens(before + lead + name, skip, |before|) == [name]
  {
    var s := before + lead + name;
    var start := |before| + |lead|;
    assert forall i :: |before| <= i < start ==> s[i] == lead[i - |before|];
    assert forall i :: start <= i < |s| ==> s[i] == name[i - start];
    TokensHead(s, skip, |before|, start, |s|);
    assert s[start..|s|] == name;
    TokensNone(s, skip, |s|);
  }

  /**
   * A run of skipped characters, then a name up to a comma or the end:
   * that name comes first, and scanning goes on from the comma.
   */
  lemma TokensHead(s: string, skip: string, from: nat, start: nat, stop: nat)
    requires |s| < NPOS && ',' in skip
    requires from <= start < stop <= |s|
    requires forall i :: from <= i < start ==> s[i] in skip
    requires s[start] !in skip
    requires forall i :: start <= i < stop ==> s[i] != ','
    requires stop == |s| || s[stop] == ','
    ensures Tokens(s, skip, from) == [s[start..stop]] + Tokens(s, skip, stop)
  {
    TokensUnfold(s, skip, from);
    SkipTo(s, skip, from, start);
    CommaAt(s, start, stop);
    if stop == |s| {
      TokensNone(s, skip, stop);
      assert s[start..] == s[start..stop];
    }
  }

  /** Nothing but skipped characters: no names. */
  lemma TokensNone(s: string, skip: string, from: nat)
    requires |s| < NPOS && ',' in skip && from <= |s|
    requires forall i :: from <= i < |s| ==> s[i] in skip
    ensures Tokens(s, skip, from) == []
  {
  }

  /** Splitting a join after its first name. */
  lemma NextName(before: string, name: string, rest: seq<string>)
    requires rest != []
    ensures before + Text.Join(",", [name] + rest) == (before + name) + "," + Text.Join(",", rest)
  {
    Text.JoinCons(name, rest, ",");
  }

  /** The parts of a "family NAME a,b,..." line: the name, the text after it and where that text starts. */
  datatype FamilyLine = FamilyLine(name: string, definition: string, listStart: nat)

  /**
   * Parses the keyword and name of a family line. A line without a name
   * or without a list makes `substr` throw; a first word other than
   * "family" fails the assertion.
   */
  function ParseFamilyLine(line: string): (r: Result<FamilyLine>)
    requires |line| < NPOS
    ensures r.Ok? ==> r.value.listStart < |line| && r.value.definition == line[r.value.listStart..]
    ensures r.Ok? ==> line[r.value.listStart] in " \t"
  {
    var keywordBegin := FindFirstNotOf(line, " \t", 0);
    var keywordEnd := FindFirstOf(line, " \t", keywordBegin);
    var keyword := Substr(line, keywordBegin, SizeSub(keywordEnd, keywordBegin));
    if keyword.Fail? then Fail(keyword.failure)
    else if keyword.value != "family" then Fail(AssertAbort)
    else
      var nameBegin := FindFirstNotOf(line, " \t", keywordEnd);
      var nameEnd := FindFirstOf(line, " \t", nameBegin);
      var name := Substr(line, nameBegin, SizeSub(nameEnd, nameBegin));
      if name.Fail? then Fail(name.failure)
      else if nameEnd > |line| then Fail(OutOfRange)
      else Ok(FamilyLine(name.value, line[nameEnd..], nameEnd))
  }

  /** The characters a family line's list skips before each name. */
  const FAMILY_SKIP: string := ", \t"

  /** The map after a new family's names are inserted; a family with no names is not created. */
  function FamilyAdded(families: map<string, set<string>>, name: string, names: seq<string>): (r: map<string, set<string>>)
    requires name !in families
    ensures names == [] ==> r == families
    ensures names != [] ==> r == families[name := Elements(names)]
  {
    if names == [] then families else families[name := Elements(names)]
  }

  /** CPowerFamilyMap: family name to the set of its relatives. */
  class PowerFamilyMap {
    var families: map<string, set<string>>
    /** The map's own `definition` string. Nothing assigns it, so it stays "". */
    var definition: string

    constructor ()
      ensures families == map[] && definition == ""
    {
      families := map[];
      definition := "";
    }

    /**
     * AddFamily, as written: a family already in the map is never
     * extended, and a repeated line is compared with the map's own
     * `definition` (always "") rather than with the family's first
     * definition, so any repeat fails the assertion.
     */
    method AddFamily(line: string) returns (failure: Option<Failure>)
      requires |line| < NPOS
      modifies this`families
      ensures var parsed := ParseFamilyLine(line);
              if parsed.Fail? then failure == Some(parsed.failure) && families == old(families)
              else if parsed.value.name in old(families) then
                families == old(families)
                && (failure.None? <==> definition == parsed.value.definition)
                && (failure.Some? ==> failure == Some(AssertAbort))
              else
                failure.None?
                && families == FamilyAdded(old(families), parsed.value.name,
                                           Tokens(line, FAMILY_SKIP, parsed.value.listStart))
    {
      var parsed := ParseFamilyLine(line);
      if parsed.Fail? {
        return Some(parsed.failure);
      }
      var name := parsed.value.name;
      if name in families {
        if definition != parsed.value.definition {
          return Some(AssertAbort);
        }
        return None;
      }
      var listEnd := parsed.value.listStart;
      ghost var added: seq<string> := [];
      while listEnd < |line|
        invariant IsSize(listEnd) && name !in old(families)
        invariant added + Tokens(line, FAMILY_SKIP, listEnd) == Tokens(line, FAMILY_SKIP, parsed.value.listStart)
        invariant families == FamilyAdded(old(families), name, added)
        decreases SIZE_RANGE - listEnd
      {
        listEnd, added := AddRelative(line, name, listEnd, old(families), added);
      }
      TokensUnfold(line, FAMILY_SKIP, listEnd);
      assert added + [] == added;
      failure := None;
    }

    /** One turn of AddFamily's loop: the next listed name, if any, joins the family. */
    method AddRelative(line: string, name: string, listEnd: nat,
                       ghost original: map<string, set<string>>, ghost added: seq<string>)
      returns (end: nat, ghost added': seq<string>)
      requires |line| < NPOS && IsSize(listEnd) && listEnd < |line|
      requires name !in original && families == FamilyAdded(original, name, added)
      modifies this`families
      ensures IsSize(end) && listEnd < end
      ensures added' + Tokens(line, FAMILY_SKIP, end) == added + Tokens(line, FAMILY_SKIP, listEnd)
      ensures families == FamilyAdded(original, name, added')
    {
      TokensUnfold(line, FAMILY_SKIP, listEnd);
      var begin := FindFirstNotOf(line, FAMILY_SKIP, listEnd);
      end := FindFirstOf(line, ",", begin);
      added' := added;
      if begin < end {
        var relative := if end < |line| then line[begin..end] else line[begin..];
        var relatives := if name in families then families[name] else {};
        assert relatives == Elements(added);
        families := families[name := relatives + {relative}];
        ElementsSnoc(added, relative);
        Associative(added, [relative], Tokens(line, FAMILY_SKIP, end));
        added' := added + [relative];
      }
    }
  }

  /**
   * A family line "family NAME a,b,c" defines NAME with exactly the
   * listed relatives.
   */
  lemma FamilyLineLists(name: string, names: seq<string>)
    requires name != "" && Unbroken(name)
    requires forall i :: 0 <= i < |names| ==> Scannable(names[i], FAMILY_SKIP)
    requires |"family " + name + " " + Text.Join(",", names)| < NPOS
    ensures var line := "family " + name + " " + Text.Join(",", names);
            ParseFamilyLine(line) == Ok(FamilyLine(name, " " + Text.Join(",", names), 7 + |name|))
            && Tokens(line, FAMILY_SKIP, 7 + |name|) == names
  {
    var line := "family " + name + " " + Text.Join(",", names);
    assert forall i :: 0 <= i < 6 ==> line[i] == "family"[i];
    assert line[6] == ' ';
    assert forall i :: 7 <= i < 7 + |name| ==> line[i] == name[i - 7];
    assert line[7 + |name|] == ' ';
    assert FindFirstNotOf(line, " \t", 0) == 0;
    assert FindFirstOf(line, " \t", 0) == 6;
    assert line[0..6] == "family";
    assert FindFirstNotOf(line, " \t", 6) == 7;
    assert FindFirstOf(line, " \t", 7) == 7 + |name|;
    assert line[7..7 + |name|] == name;
    assert line[7 + |name|..] == " " + Text.Join(",", names);
    assert line == ("family " + name) + " " + Text.Join(",", names);
    TokensOfJoin("family " + name, " ", names, FAMILY_SKIP);
  }

  // ---------------------------------------------------------- SetFamilies

  /** `x` is one of the relatives `name` stands for: a member of the family `name`, or `name` itself. */
  predicate Expands(name: string, families: map<string, set<string>>, x: string) {
    x in Relatives(name, families)
  }

  /** The relatives a list of names stands for. */
  function Expansion(names: seq<string>, families: map<string, set<string>>): (r: set<string>)
    decreases |names|
  {
    if names == [] then {}
    else Relatives(names[0], families) + Expansion(names[1..], families)
  }

  /** What one name stands for: the members of its family, or else the name itself. */
  function Relatives(name: string, families: map<string, set<string>>): set<string> {
    if name in families then families[name] else {name}
  }

  /** A relative is in the expansion exactly when one of the names stands for it. */
  lemma {:induction false} ExpansionMeans(names: seq<string>, families: map<string, set<string>>, x: string)
    ensures x in Expansion(names, families) <==> exists i :: 0 <= i < |names| && Expands(names[i], families, x)
    decreases |names|
  {
    if names != [] {
      ExpansionMeans(names[1..], families, x);
      if Expands(names[0], families, x) {
        assert 0 <= 0 < |names| && Expands(names[0], families, x);
      }
      if exists i :: 0 <= i < |names| && Expands(names[i], families, x) {
        var i :| 0 <= i < |names| && Expands(names[i], families, x);
        if i > 0 {
          assert Expands(names[1..][i - 1], families, x);
        }
      }
      if exists i :: 0 <= i < |names[1..]| && Expands(names[1..][i], families, x) {
        var i :| 0 <= i < |names[1..]| && Expands(names[1..][i], families, x);
        assert Expands(names[i + 1], families, x);
      }
    }
  }

  /** Expansion of a list with one more name. */
  lemma {:induction false} ExpansionSnoc(names: seq<string>, name: string, families: map<string, set<string>>)
    ensures Expansion(names + [name], families)
            == Expansion(names, families) + Relatives(name, families)
    decreases |names|
  {
    if names != [] {
      assert (names + [name])[1..] == names[1..] + [name];
      ExpansionSnoc(names[1..], name, families);
    }
  }

  /** The list SetFamilies expands: the explicit family list, or else the implicit one. */
  function FamilyList(e: ExtraData): string {
    if e.family != "" then e.family else e.implicitFamily
  }

  /** The extra data after SetFamilies: the chosen list's expansion joins the relative set. */
  function Expanded(e: Option<ExtraData>, families: map<string, set<string>>): (r: Option<ExtraData>)
    requires e.Some? ==> |FamilyList(e.value)| < NPOS
    ensures r.Some? <==> e.Some?
    ensures e.Some? ==> r.value == e.value.(relativeSet := r.value.relativeSet)
    ensures e.Some? ==> e.value.relativeSet <= r.value.relativeSet
  {
    if e.None? then e
    else Some(e.value.(relativeSet := e.value.relativeSet + Expansion(Tokens(FamilyList(e.value), ",", 0), families)))
  }

  /** Expanding twice adds nothing more. */
  lemma ExpandedTwice(e: Option<ExtraData>, families: map<string, set<string>>)
    requires e.Some? ==> |FamilyList(e.value)| < NPOS
    ensures Expanded(Expanded(e, families), families) == Expanded(e, families)
  {
  }

  /**
   * An explicit family list "A,B", with A a family of the map and B not:
   * the relatives gain A's members and the name B, and the implicit list
   * is not consulted.
   */
  lemma ExplicitFamilyWins(e: ExtraData, a: string, b: string, families: map<string, set<string>>)
    requires Scannable(a, ",") && Scannable(b, ",") && |a + "," + b| < NPOS
    requires e.family == a + "," + b
    requires a in families && b !in families
    ensures Expanded(Some(e), families).value.relativeSet == e.relativeSet + families[a] + {b}
  {
    assert Text.Join(",", [a, b]) == a + "," + b by {
      assert [a, b][1..] == [b];
    }
    assert "" + "" + (a + "," + b) == a + "," + b;
    TokensOfJoin("", "", [a, b], ",");
    assert [a, b][1..] == [b];
    assert Expansion([b], families) == {b} + Expansion([], families);
  }

  /**
   * CPowerPtrList::SetFamilies: every power with a family list (explicit,
   * or else implicit) adds that list's expansion to its relative set.
   */
  method SetFamilies(powers: seq<CPower>, familyMap: PowerFamilyMap)
    requires forall p :: p in powers && p.extraData.Some? ==> |FamilyList(p.extraData.value)| < NPOS
    modifies (set p | p in powers)`extraData
    ensures forall p :: p in powers ==> p.extraData == Expanded(old(p.extraData), familyMap.families)
  {
    var k := 0;
    while k < |powers|
      invariant k <= |powers|
      invariant forall p :: p in powers ==>
                  p.extraData == (if p in powers[..k] then Expanded(old(p.extraData), familyMap.families) else old(p.extraData))
    {
      var power := powers[k];
      ExpandedTwice(old(power.extraData), familyMap.families);
      if power.extraData.Some? && FamilyList(power.extraData.value) != "" {
        AddRelatives(power, FamilyList(power.extraData.value), familyMap.families);
      } else if power.extraData.Some? {
        assert Tokens("", ",", 0) == [];
        assert power.extraData.value.relativeSet + {} == power.extraData.value.relativeSet;
      }
      assert powers[..k + 1] == powers[..k] + [power];
      k := k + 1;
    }
    assert powers[..k] == powers;
  }

  /** The loop of SetFamilies over one list: each name in turn adds its expansion. */
  method AddRelatives(power: CPower, list: string, families: map<string, set<string>>)
    requires |list| < NPOS && power.extraData.Some?
    modifies power`extraData
    ensures power.extraData ==
              Some(old(power.extraData.value).(relativeSet := old(power.extraData.value.relativeSet)
                                                 + Expansion(Tokens(list, ",", 0), families)))
  {
    ghost var base := power.extraData.value;
    var begin := FindFirstNotOf(list, ",", 0);
    var end := FindFirstOf(list, ",", begin);
    ghost var done: seq<string> := [];
    ghost var from: nat := 0;
    assert base.relativeSet + {} == base.relativeSet;
    while begin < |list|
      invariant IsSize(from) && begin == FindFirstNotOf(list, ",", from) && end == FindFirstOf(list, ",", begin)
      invariant done + Tokens(list, ",", from) == Tokens(list, ",", 0)
      invariant power.extraData == Some(base.(relativeSet := base.relativeSet + Expansion(done, families)))
      decreases SIZE_RANGE - from
    {
      TokensUnfold(list, ",", from);
      var relative := if end < |list| then list[begin..end] else list[begin..];
      AddRelated(power, relative, families);
      ExpansionSnoc(done, relative, families);
      assert base.relativeSet + Expansion(done, families) + Relatives(relative, families)
          == base.relativeSet + Expansion(done + [relative], families);
      Associative(done, [relative], Tokens(list, ",", end));
      done := done + [relative];
      from := end;
      begin := FindFirstNotOf(list, ",", end);
      end := FindFirstOf(list, ",", begin);
    }
    TokensUnfold(list, ",", from);
    assert done + [] == done;
  }

  /** One name of a family list: a family of the map adds its members, any other name adds itself. */
  method AddRelated(power: CPower, relative: string, families: map<string, set<string>>)
    requires power.extraData.Some?
    modifies power`extraData
    ensures power.extraData ==
              Some(old(power.extraData.value).(relativeSet := old(power.extraData.value.relativeSet)
                                                 + Relatives(relative, families)))
  {
    var e := power.extraData.value;
    if relative in families {
      power.extraData := Some(e.(relativeSet := e.relativeSet + families[relative]));
    } else {
      power.extraData := Some(e.(relativeSet := e.relativeSet + {relative}));
    }
  }


  /**
   * CPowerPtrVector::MinVoltage / SimVoltage / MaxVoltage: the voltage the
   * queue works on of the net's power, unknown for UNKNOWN_NET or a net
   * without a power.
   */
  function NetVoltage(powers: array<CPower?>, netId: nat, queue: EventQueueType): (r: int)
    requires netId == UNKNOWN_NET || netId < powers.Length
    reads powers, set i | 0 <= i < powers.Length :: powers[i]
    ensures netId == UNKNOWN_NET ==> r == UNKNOWN_VOLTAGE
    ensures r != UNKNOWN_VOLTAGE ==> netId < powers.Length && powers[netId] != null
    ensures netId != UNKNOWN_NET && powers[netId] != null ==> r == Level(powers[netId].State(), queue)
  {
    if netId == UNKNOWN_NET then UNKNOWN_VOLTAGE
    else if powers[netId] == null then UNKNOWN_VOLTAGE
    else Level(powers[netId].State(), queue)
  }

  // ------------------------------------------------------ CalculatePower

  /** The power after copying HiZ, the families and the permit/prohibit flag from its default net's power. */
  function Inherited(p: PowerState, d: Option<PowerState>): (r: PowerState)
    ensures d.None? ==> r == p
    ensures d.Some? ==> (HIZ_BIT in r.powerType <==> HIZ_BIT in p.powerType || HIZ_BIT in d.value.powerType)
    ensures d.Some? ==> r.relativeFriendly == d.value.relativeFriendly
    ensures d.Some? && d.value.extraData.Some? ==>
              r.extraData.Some? && r.extraData.value.family == d.value.extraData.value.family
              && r.extraData.value.relativeSet == d.value.extraData.value.relativeSet
    ensures forall q :: Level(r, q) == Level(p, q)
  {
    if d.None? then p
    else
      var source := d.value;
      var extra :=
        if source.extraData.None? then p.extraData
        else
          var e := if p.extraData.Some? then p.extraData.value else BLANK_EXTRA;
          Some(e.(family := source.extraData.value.family,
                  implicitFamily := source.extraData.value.implicitFamily,
                  relativeSet := source.extraData.value.relativeSet));
      p.(powerType := if HIZ_BIT in source.powerType then p.powerType + {HIZ_BIT} else p.powerType,
         extraData := extra,
         relativeFriendly := source.relativeFriendly)
  }

  /** DOWN when the new voltage is below the default net's, UP when above, else unchanged. */
  function Direction(voltage: int, reference: int, previous: Calculation): Calculation {
    if reference == UNKNOWN_VOLTAGE then previous
    else if voltage < reference then DOWN_CALCULATION
    else if voltage > reference then UP_CALCULATION
    else previous
  }

  /** A calculated power's outcome: the new state, and the failure when the voltage was already set. */
  datatype Calculated = Calculated(state: PowerState, failure: Option<Failure>)

  /**
   * Recording the calculated voltage on a power that has already inherited
   * from its default net: `reference` is the default net's voltage for the
   * queue, and the three aliases are those of the base powers along the
   * min, sim and max nets ("" if none).
   */
  function Settled(p: PowerState, queue: EventQueueType, voltage: int, reference: int, defaultNet: nat,
                   calculation: string, minBaseAlias: string, simBaseAlias: string, maxBaseAlias: string): Calculated
  {
    if Level(p, queue) != UNKNOWN_VOLTAGE then Calculated(p, Some(DatabaseError))
    else
      var updated := Recorded(p, queue, voltage, reference, defaultNet, minBaseAlias, simBaseAlias, maxBaseAlias);
      Calculated(updated.(definition := if updated.definition == "" then calculation else updated.definition), None)
  }

  /** The queue's voltage, default net, status bits and calculation type after a calculation. */
  function Recorded(p: PowerState, queue: EventQueueType, voltage: int, reference: int, defaultNet: nat,
                    minBaseAlias: string, simBaseAlias: string, maxBaseAlias: string): PowerState
  {
    match queue
    case MIN_QUEUE =>
      p.(minVoltage := voltage, defaultMinNet := defaultNet,
         powerType := p.powerType + {MIN_CALCULATED_BIT},
         active := p.active + {MIN_ACTIVE},
         minCalculation := Direction(voltage, reference, p.minCalculation))
    case MAX_QUEUE =>
      p.(maxVoltage := voltage, defaultMaxNet := defaultNet,
         powerType := p.powerType + {MAX_CALCULATED_BIT},
         active := p.active + {MAX_ACTIVE},
         maxCalculation := Direction(voltage, reference, p.maxCalculation))
    case SIM_QUEUE =>
      p.(simVoltage := voltage, defaultSimNet := defaultNet,
         powerType := p.powerType + {SIM_CALCULATED_BIT},
         extraData := WithBaseAlias(p, voltage, minBaseAlias, simBaseAlias, maxBaseAlias),
         simCalculation := Direction(voltage, reference, p.simCalculation))
  }

  /**
   * The extra data after a sim voltage is calculated: a power without an
   * alias takes its base power's, found along the min net when the new sim
   * voltage equals the min voltage, else along the max net when it equals
   * the max voltage, else along the sim net ("" when there is none).
   */
  function WithBaseAlias(p: PowerState, voltage: int, minBaseAlias: string, simBaseAlias: string, maxBaseAlias: string)
    : (r: Option<ExtraData>)
    ensures AliasOfState(p) != "" ==> r == p.extraData
    ensures var baseAlias := if p.minVoltage == voltage then minBaseAlias
                             else if p.maxVoltage == voltage then maxBaseAlias
                             else simBaseAlias;
            AliasOfState(p) == "" ==>
              (baseAlias == "" ==> r == p.extraData)
              && (baseAlias != "" ==> r.Some? && r.value.powerAlias == baseAlias
                                      && (p.extraData.Some? ==> r.value == p.extraData.value.(powerAlias := baseAlias)))
  {
    var baseAlias :=
      if p.minVoltage == voltage then minBaseAlias
      else if p.maxVoltage == voltage then maxBaseAlias
      else simBaseAlias;
    if AliasOfState(p) == "" && baseAlias != "" then
      Some((if p.extraData.Some? then p.extraData.value else BLANK_EXTRA).(powerAlias := baseAlias))
    else p.extraData
  }

  /**
   * The effect of CalculatePower on the net's power `p`, whose default net
   * holds the power `d` (None when there is none or it is `p` itself).
   */
  function Calculate(p: PowerState, d: Option<PowerState>, queue: EventQueueType, voltage: int,
                     defaultNet: nat, calculation: string,
                     minBaseAlias: string, simBaseAlias: string, maxBaseAlias: string): Calculated
  {
    var reference := if d.None? then UNKNOWN_VOLTAGE else Level(d.value, queue);
    Settled(Inherited(p, d), queue, voltage, reference, defaultNet, calculation, minBaseAlias, simBaseAlias, maxBaseAlias)
  }

  /**
   * What CalculatePower promises: it fails exactly when the queue's voltage
   * is already known; otherwise that voltage becomes the calculated one,
   * its default net is recorded, its calculated bit is set, the other two
   * voltages are kept, and the calculation is marked DOWN or UP against the
   * default net's voltage.
   */
  lemma CalculateSets(p: PowerState, d: Option<PowerState>, queue: EventQueueType, voltage: int,
                      defaultNet: nat, calculation: string, minAlias: string, simAlias: string, maxAlias: string)
    ensures var c := Calculate(p, d, queue, voltage, defaultNet, calculation, minAlias, simAlias, maxAlias);
            (c.failure.Some? <==> Level(p, queue) != UNKNOWN_VOLTAGE)
            && (c.failure.None? ==>
                  Level(c.state, queue) == voltage
                  && DefaultNet(c.state, queue) == defaultNet
                  && CalculatedBit(queue) in c.state.powerType
                  && (forall q :: q != queue ==> Level(c.state, q) == Level(p, q))
                  && c.state.netId == p.netId
                  && (c.state.definition != "" || calculation == ""))
            && (c.failure.None? && d.Some? && Level(d.value, queue) != UNKNOWN_VOLTAGE ==>
                  (voltage < Level(d.value, queue) ==> CalculationOf(c.state, queue) == DOWN_CALCULATION)
                  && (voltage > Level(d.value, queue) ==> CalculationOf(c.state, queue) == UP_CALCULATION))
  {
  }

  /**
   * CPowerPtrVector::CalculatePower: records `voltage` as the calculated
   * voltage of `netId` for the queue, creating the net's power when it has
   * none. `minBaseAlias`, `simBaseAlias` and `maxBaseAlias` stand for the
   * aliases of the base powers GetBasePower finds.
   */
  method CalculatePower(powers: array<CPower?>, queue: EventQueueType, voltage: int, netId: nat, defaultNetId: nat,
                        calculation: string, minBaseAlias: string, simBaseAlias: string, maxBaseAlias: string)
    returns (failure: Option<Failure>)
    requires netId < powers.Length && defaultNetId < powers.Length
    modifies powers, powers[netId]
    ensures powers[netId] != null
    ensures old(powers[netId]) == null ==> fresh(powers[netId])
    ensures old(powers[netId]) != null ==> powers[netId] == old(powers[netId])
    ensures forall i :: 0 <= i < powers.Length && i != netId ==> powers[i] == old(powers[i])
    ensures var before := if old(powers[netId]) == null then Blank(netId) else old(powers[netId].State());
            var source := if defaultNetId == netId || old(powers[defaultNetId]) == null
                             || old(powers[defaultNetId]) == old(powers[netId])
                          then None else Some(old(powers[defaultNetId].State()));
            var c := Calculate(before, source, queue, voltage, defaultNetId, calculation,
                               minBaseAlias, simBaseAlias, maxBaseAlias);
            powers[netId].State() == c.state && failure == c.failure
  {
    if powers[netId] == null {
      var created := new CPower(netId);
      powers[netId] := created;
    }
    var power := powers[netId];
    var source := powers[defaultNetId];
    var reference := UNKNOWN_VOLTAGE;
    if source != null && source != power {
      power.Inherit(source);
      reference := Level(source.State(), queue);
    }
    failure := power.Settle(queue, voltage, reference, defaultNetId, calculation,
                            minBaseAlias, simBaseAlias, maxBaseAlias);
  }
}
