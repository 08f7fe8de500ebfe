/** Identifier widths, sentinels and enumerations shared by the CVC database. */
module CvcTypes {

  const UINT32_RANGE: nat := 0x1_0000_0000
  const UINT32_MAX: nat := 0xFFFF_FFFF
  const INT32_MAX: int := 0x7FFF_FFFF
  const INT32_MIN: int := -0x8000_0000

  /** netId_t, deviceId_t and instanceId_t are 32-bit unsigned. */
  predicate IsId(n: int) {
    0 <= n < UINT32_RANGE
  }

  const UNKNOWN_NET: nat := UINT32_MAX
  const UNKNOWN_DEVICE: nat := UINT32_MAX
  const UNKNOWN_INSTANCE: nat := UINT32_MAX

  /** voltage_t is a 32-bit signed value in millivolts; INT32_MAX means unknown. */
  predicate IsVoltage(v: int) {
    INT32_MIN <= v <= INT32_MAX
  }
  const UNKNOWN_VOLTAGE: int := INT32_MAX

  /** resistance_t is 32-bit unsigned; sums saturate at MAX_RESISTANCE. */
  const INFINITE_RESISTANCE: nat := UINT32_MAX
  const MAX_RESISTANCE: nat := UINT32_MAX / 4 - 1

  /** eventKey_t is 32-bit signed. */
  const MAX_EVENT_TIME: int := INT32_MAX

  datatype ModelType =
    | NMOS | PMOS | RESISTOR | CAPACITOR | DIODE | BIPOLAR | FUSE_ON | FUSE_OFF
    | SWITCH_ON | SWITCH_OFF | MOSFET | LDDN | LDDP | BOX | UNKNOWN

  predicate IsMos(t: ModelType) {
    t == NMOS || t == PMOS || t == LDDN || t == LDDP
  }

  predicate IsNmos(t: ModelType) {
    t == NMOS || t == LDDN
  }

  predicate IsPmos(t: ModelType) {
    t == PMOS || t == LDDP
  }

  datatype EventQueueType = SIM_QUEUE | MAX_QUEUE | MIN_QUEUE

  /** The bits of a CPower `type` status word. */
  datatype PowerBit =
    | POWER_BIT | INPUT_BIT | HIZ_BIT | RESISTOR_BIT | ANALOG_BIT
    | MIN_CALCULATED_BIT | SIM_CALCULATED_BIT | MAX_CALCULATED_BIT

  /** terminal_t: GATE = 1, SOURCE = 2, DRAIN = 4, BULK = 8, combined by bitwise or. */
  datatype Terminal = Gate | Source | Drain | Bulk

  function TerminalBit(t: Terminal): bv32 {
    match t
    case Gate => 1
    case Source => 2
    case Drain => 4
    case Bulk => 8
  }

  /** `theCheckTerminals & bit` for a terminal selection word. */
  predicate Selects(terminals: bv32, t: Terminal) {
    terminals & TerminalBit(t) != 0
  }
}
