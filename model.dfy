/**
 * Device models: a model line such as
 * "NMOS nch Vth=0.500 Vgs=0.3 condition=(L<0.4u w>=1.2u)" parsed into a
 * model, the models kept per "baseType name" key in insertion order, and
 * the lookup of the first model whose conditions a device's parameters meet.
 *
 * A CModel is copied by value into its list, so a model is a datatype here;
 * the constructor, CreateConditions and SetDiodes are methods that build it.
 */
module Models {
  import opened Outcomes
  import opened CppString
  import opened CvcTypes
  import opened Scan
  import CvcUtil
  import ParameterMaps

  /** gModelTypeStringMap: the type a model line's first token (or a `model=` value) names. */
  function TypeNamed(text: string): (r: Option<ModelType>)
    ensures r.Some? ==> r.value != UNKNOWN
    ensures r == Some(MOSFET) <==> text == "M"
    ensures r == Some(BOX) <==> text == "BOX"
  {
    if text == "M" then Some(MOSFET)
    else if text == "MN" then Some(NMOS)
    else if text == "LDDN" then Some(LDDN)
    else if text == "MP" then Some(PMOS)
    else if text == "LDDP" then Some(LDDP)
    else if text == "R" || text == "RESISTOR" then Some(RESISTOR)
    else if text == "C" || text == "CAPACITOR" then Some(CAPACITOR)
    else if text == "D" || text == "DIODE" then Some(DIODE)
    else if text == "switch_on" then Some(SWITCH_ON)
    else if text == "switch_off" then Some(SWITCH_OFF)
    else if text == "fuse_on" then Some(FUSE_ON)
    else if text == "fuse_off" then Some(FUSE_OFF)
    else if text == "Q" || text == "BIPOLAR" then Some(BIPOLAR)
    else if text == "BOX" then Some(BOX)
    else None
  }

  /** gBaseModelTypePrefixMap: the netlist prefix a model type belongs to. */
  function BasePrefix(t: ModelType): (r: string)
    requires t != UNKNOWN
    ensures r == "M" <==> t == MOSFET || IsMos(t)
    ensures r == "" <==> t in {SWITCH_ON, SWITCH_OFF, FUSE_ON, FUSE_OFF}
  {
    match t
    case MOSFET => "M"
    case NMOS => "M"
    case PMOS => "M"
    case LDDN => "M"
    case LDDP => "M"
    case RESISTOR => "R"
    case CAPACITOR => "C"
    case DIODE => "D"
    case SWITCH_ON => ""
    case SWITCH_OFF => ""
    case FUSE_ON => ""
    case FUSE_OFF => ""
    case BIPOLAR => "Q"
    case BOX => "X"
  }

  const DEFAULT_MOS_RESISTANCE: string := "L/W*7000"
  const DEFAULT_RESISTANCE: string := "R"

  /** A CCondition: an upper-cased parameter name, a relation and a value text. */
  datatype Condition = Condition(parameter: string, relation: string, value: string)

  /** An anode-cathode terminal pair. */
  datatype Diode = Diode(anode: int, cathode: int)

  /**
   * The fields of a CModel the parser sets. The voltage and resistance
   * definitions stay text (their conversion is floating point), and
   * `cellFilter` is Some exactly when the cell-filter regex is set.
   */
  datatype Model = Model(
    name: string,
    modelType: ModelType,
    baseType: string,
    definition: string,
    vth: string,
    maxVgs: string,
    maxVds: string,
    maxVbs: string,
    maxVbg: string,
    resistance: string,
    conditions: seq<Condition>,
    cellFilter: Option<string>,
    diodes: seq<Diode>)

  /** from_string<int>: a number parser, which may throw on an unknown suffix. */
  type Number = string -> Result<int>

  const BLANK: set<char> := {' ', '\t'}

  /** A model before its parameters: its type, base type, name and default resistance. */
  function Initial(t: ModelType, typeText: string, name: string): (r: Model)
    requires t != UNKNOWN
    ensures r.modelType == t && r.baseType == BasePrefix(t) && r.name == name
    ensures r.conditions == [] && r.cellFilter == None && r.diodes == []
  {
    Model(name, t, BasePrefix(t), typeText + " " + name, "", "", "", "", "",
          if IsMos(t) then DEFAULT_MOS_RESISTANCE else if t == RESISTOR then DEFAULT_RESISTANCE else "",
          [], None, [])
  }

  /** The first two tokens read, and where the parameters start. */
  datatype Header = Header(model: Model, next: nat)

  /**
   * The type token and the name token. A line without a type token or
   * without a name token makes `substr(npos)` throw; an unknown type makes
   * the map lookup throw. Both are std::out_of_range.
   */
  function HeaderOf(s: string): (r: Result<Header>)
    requires |s| < NPOS
    ensures r.Fail? ==> r.failure == OutOfRange
  {
    var typeAt := FirstNotOf(s, BLANK, 0);
    var typeEnd := FirstOf(s, BLANK, typeAt);
    if typeAt > |s| then Fail(OutOfRange)
    else
      var typeText := Span(s, typeAt, typeEnd);
      match TypeNamed(typeText)
      case None => Fail(OutOfRange)
      case Some(t) =>
        var nameAt := FirstNotOf(s, BLANK, typeEnd);
        var nameEnd := FirstOf(s, BLANK, nameAt);
        if nameAt > |s| then Fail(OutOfRange)
        else Ok(Header(Initial(t, typeText, Span(s, nameAt, nameEnd)), FirstNotOf(s, BLANK, nameEnd)))
  }

  /** One parameter token: its text, the name before '=', the value after it, and the next token's start. */
  datatype Item = Item(token: string, name: string, value: string, next: nat)

  /**
   * The token at `begin`. The '=' is searched in the rest of the line, not
   * only in the token; without one the name runs to the end of the line and
   * the value starts at 0 (npos + 1 wraps). The value ends at the token end,
   * or at the end of the line when the length wraps.
   */
  function ItemAt(s: string, begin: nat): (r: Item)
    requires begin < |s| < NPOS
    ensures r.next == NPOS || begin < r.next < |s|
  {
    var end := FirstOf(s, BLANK, begin);
    var equal := ParameterMaps.FindChar(s, '=', begin);
    var valueAt := if equal == NPOS then 0 else equal + 1;
    Item(Span(s, begin, end), Span(s, begin, equal), Span(s, valueAt, end), FirstNotOf(s, BLANK, end))
  }

  const OVERRIDE_BASES: set<string> := {"M", "R", "C", "X"}
  const FUSES: set<string> := {"fuse_on", "fuse_off"}
  const SWITCHES_AND_FUSES: set<string> := {"switch_on", "switch_off", "fuse_on", "fuse_off"}

  /** The three `model=` guards: only M, R, C and X override; MOS only to a fuse; all but X only to a switch or fuse. */
  predicate Overridable(baseType: string, value: string) {
    && baseType in OVERRIDE_BASES
    && (baseType == "M" ==> value in FUSES)
    && (baseType != "X" ==> value in SWITCHES_AND_FUSES)
  }

  /** `model=value`: an EModelError when a guard fails, else the named type (an unknown name makes `at` throw). */
  function Override(m: Model, value: string): (r: Result<Model>)
    ensures !Overridable(m.baseType, value) ==> r == Fail(ModelError)
    ensures r.Ok? <==> Overridable(m.baseType, value) && TypeNamed(value).Some?
    ensures r.Ok? ==> r.value == m.(modelType := r.value.modelType) && Some(r.value.modelType) == TypeNamed(value)
  {
    if !Overridable(m.baseType, value) then Fail(ModelError)
    else match TypeNamed(value)
      case None => Fail(OutOfRange)
      case Some(t) => Ok(m.(modelType := t))
  }
  /** A successful override turns a MOS model only into a fuse, and anything but a subcircuit only into a switch or fuse. */
  lemma OverrideKinds(m: Model, value: string)
    requires Override(m, value).Ok?
    ensures m.baseType == "M" ==> Override(m, value).value.modelType in {FUSE_ON, FUSE_OFF}
    ensures m.baseType != "X" ==> Override(m, value).value.modelType in {SWITCH_ON, SWITCH_OFF, FUSE_ON, FUSE_OFF}
    ensures m.baseType in OVERRIDE_BASES
  {
    assert value in SWITCHES_AND_FUSES || m.baseType == "X";
  }


  const PARAMETER_NAMES: set<string> := {"Vth", "Vgs", "Vds", "Vbs", "Vbg", "R", "model", "condition", "diode"}

  /** One `name=value` parameter applied to the model. */
  function WithParameter(m: Model, name: string, value: string, number: Number): (r: Result<Model>)
    requires |value| < NPOS
    ensures name !in PARAMETER_NAMES ==> r == Fail(ModelError)
    ensures name == "Vth" ==> r == Ok(m.(vth := value))
    ensures name == "R" ==> r == Ok(m.(resistance := value))
    ensures r.Ok? && name != "model" ==> r.value.modelType == m.modelType
    ensures r.Ok? ==> r.value.name == m.name && r.value.baseType == m.baseType && r.value.definition == m.definition
  {
    if name == "Vth" then Ok(m.(vth := value))
    else if name == "Vgs" then Ok(m.(maxVgs := value))
    else if name == "Vds" then Ok(m.(maxVds := value))
    else if name == "Vbs" then Ok(m.(maxVbs := value))
    else if name == "Vbg" then Ok(m.(maxVbg := value))
    else if name == "R" then Ok(m.(resistance := value))
    else if name == "model" then Override(m, value)
    else if name == "condition" then WithConditions(m, value)
    else if name == "diode" then WithDiodes(m, value, number)
    else Fail(ModelError)
  }

  /** The parameter tokens from `begin` on, each appended to the definition and then applied. */
  function ParametersFrom(m: Model, s: string, begin: nat, number: Number): (r: Result<Model>)
    requires |s| < NPOS
    decreases |s| - begin
  {
    if begin >= |s| then Ok(m)
    else
      var item := ItemAt(s, begin);
      var defined := m.(definition := m.definition + " " + item.token);
      match WithParameter(defined, item.name, item.value, number)
      case Fail(f) => Fail(f)
      case Ok(next) => ParametersFrom(next, s, item.next, number)
  }

  /** With no `diode=`: NMOS {(4,1),(4,3)}, PMOS {(1,4),(3,4)}, DIODE {(1,2)}, otherwise none. */
  function DefaultDiodes(m: Model): (r: Model)
    ensures m.diodes != [] ==> r == m
    ensures r == m.(diodes := r.diodes)
    ensures m.diodes == [] && IsNmos(m.modelType) ==> r.diodes == [Diode(4, 1), Diode(4, 3)]
    ensures m.diodes == [] && IsPmos(m.modelType) ==> r.diodes == [Diode(1, 4), Diode(3, 4)]
    ensures m.diodes == [] && m.modelType == DIODE ==> r.diodes == [Diode(1, 2)]
    ensures m.diodes == [] && !IsMos(m.modelType) && m.modelType != DIODE ==> r.diodes == []
  {
    if m.diodes != [] then m
    else if IsNmos(m.modelType) then m.(diodes := [Diode(4, 1), Diode(4, 3)])
    else if IsPmos(m.modelType) then m.(diodes := [Diode(1, 4), Diode(3, 4)])
    else if m.modelType == DIODE then m.(diodes := [Diode(1, 2)])
    else m
  }

  /** The CModel constructor as a function of the model line. */
  function Parse(s: string, number: Number): (r: Result<Model>)
    requires |s| < NPOS
  {
    match HeaderOf(s)
    case Fail(f) => Fail(f)
    case Ok(h) =>
      match ParametersFrom(h.model, s, h.next, number)
      case Fail(f) => Fail(f)
      case Ok(m) => Ok(DefaultDiodes(m))
  }

  // ---- condition=(...) ----

  const CONDITION_OPEN: set<char> := {'(', ' ', '\t'}
  // ---- CNormalValue: which value texts convert ----

  /** The characters of the number before a unit suffix. */
  const NUMERIC: set<char> := {'-', '+', '0', '1', '2', '3', '4', '5', '6', '7', '8', '9', '.', 'e', 'E'}
  /** The unit suffixes a normal value accepts (giga down to femto). */
  const SI_SUFFIXES: set<char> := {'G', 'M', 'K', 'm', 'u', 'n', 'p', 'f'}

  /** The number of leading blanks. */
  function LeadingBlanks(s: string): (k: nat)
    ensures k <= |s| && (forall i :: 0 <= i < k ==> s[i] in CvcUtil.BLANKS)
    ensures k < |s| ==> s[k] !in CvcUtil.BLANKS
  {
    if s != [] && s[0] in CvcUtil.BLANKS then 1 + LeadingBlanks(s[1..]) else 0
  }

  /** The length of the text without its trailing blanks. */
  function Unpadded(s: string): (k: nat)
    ensures k <= |s| && (forall i :: k <= i < |s| ==> s[i] in CvcUtil.BLANKS)
    ensures k > 0 ==> s[k - 1] !in CvcUtil.BLANKS
  {
    if s != [] && s[|s| - 1] in CvcUtil.BLANKS then Unpadded(s[..|s| - 1]) else |s|
  }

  /** The text `trim_` leaves, or None where it throws: a text of blanks only. */
  function Trimmed(s: string): (r: Option<string>)
    ensures r.None? <==> forall i :: 0 <= i < |s| ==> s[i] in CvcUtil.BLANKS
    ensures r.Some? ==> r.value != [] && r.value[0] !in CvcUtil.BLANKS && r.value[|r.value| - 1] !in CvcUtil.BLANKS
  {
    var t := s[LeadingBlanks(s)..];
    if t == [] then None
    else
      assert t[0] !in CvcUtil.BLANKS;
      Some(t[..Unpadded(t)])
  }

  /** A text that starts and ends with a non-blank trims to itself. */
  lemma TrimmedItself(s: string)
    requires s != [] && s[0] !in CvcUtil.BLANKS && s[|s| - 1] !in CvcUtil.BLANKS
    ensures Trimmed(s) == Some(s)
  {
    assert LeadingBlanks(s) == 0 && s[0..] == s;
    assert Unpadded(s) == |s| && s[..|s|] == s;
  }

  /** Where the unit suffix starts: the first character that cannot be part of the number. */
  function UnitOffset(t: string): (k: nat)
    ensures k <= |t| && (forall i :: 0 <= i < k ==> t[i] in NUMERIC)
    ensures k < |t| ==> t[k] !in NUMERIC
  {
    if t != [] && t[0] in NUMERIC then 1 + UnitOffset(t[1..]) else 0
  }

  /**
   * The exception converting a value text to a CNormalValue throws, if
   * any: a text of blanks only throws std::out_of_range from trim_, and a
   * unit character after the number other than G, M, K, m, u, n, p, f (or
   * the terminating NUL) throws EFatalError. The floating-point value
   * itself is not part of this model.
   */
  function NormalValueFailure(text: string): (r: Option<Failure>)
    ensures r.Some? ==> r.value == OutOfRange || r.value == FatalError
    ensures r == Some(OutOfRange) <==> Trimmed(text).None?
  {
    match Trimmed(text)
    case None => Some(OutOfRange)
    case Some(t) =>
      var k := UnitOffset(t);
      if k < |t| && t[k] !in SI_SUFFIXES && t[k] != '\0' then Some(FatalError) else None
  }

  /** A number with a known suffix converts: "0.4u". */
  lemma SuffixConverts()
    ensures NormalValueFailure("0.4u") == None
  {
    TrimmedItself("0.4u");
    assert "0.4u"[1..] == ".4u" && ".4u"[1..] == "4u" && "4u"[1..] == "u";
    assert UnitOffset("u") == 0;
  }

  /** An unknown suffix throws EFatalError: "1x". */
  lemma UnknownSuffixFails()
    ensures NormalValueFailure("1x") == Some(FatalError)
  {
    TrimmedItself("1x");
    assert "1x"[1..] == "x";
    assert UnitOffset("x") == 0;
  }

  /** A blank value throws out_of_range from trim_. */
  lemma BlankValueFails()
    ensures NormalValueFailure("  ") == Some(OutOfRange)
  {
    assert "  "[0] in CvcUtil.BLANKS && "  "[1] in CvcUtil.BLANKS;
  }

  /** A condition other than a `CELL=` filter becomes a CCondition, whose value must convert. */
  predicate IsFilter(c: Condition) {
    c.parameter == "CELL" && c.relation == "="
  }

  /** The exception creating the condition throws, if any. */
  function ConditionFailure(c: Condition): (r: Option<Failure>)
    ensures IsFilter(c) ==> r == None
    ensures r.Some? ==> r.value == OutOfRange || r.value == FatalError
    ensures r == Some(OutOfRange) <==> !IsFilter(c) && Trimmed(c.value).None?
  {
    if IsFilter(c) then None else NormalValueFailure(c.value)
  }

  const CONDITION_END: set<char> := {',', ' ', ')'}
  const CONDITION_SKIP: set<char> := {')', ',', ' ', '\t'}
  const RELATION: set<char> := {'<', '=', '>'}

  /**
   * The condition between `begin` and `end`: the name before the first
   * relation character, the run of relation characters, and the value up
   * to `end`, each trimmed, the name upper-cased. A missing relation or
   * value, or a part that trims to nothing, throws std::out_of_range.
   */
  function ConditionAt(s: string, begin: nat, end: nat): (r: Result<Condition>)
    requires begin <= end < |s| < NPOS
    ensures r.Fail? ==> r.failure == OutOfRange
    ensures r.Ok? ==> r.value.parameter == ParameterMaps.ToUpper(r.value.parameter)
  {
    var relationAt := FirstOf(s, RELATION, begin);
    var valueAt := FirstNotOf(s, RELATION, relationAt);
    var name := CvcUtil.Trim(Span(s, begin, relationAt));
    if name.Fail? then Fail(OutOfRange)
    else if relationAt > |s| then Fail(OutOfRange)
    else
      var relation := CvcUtil.Trim(Span(s, relationAt, valueAt));
      if relation.Fail? then Fail(OutOfRange)
      else if valueAt > |s| then Fail(OutOfRange)
      else
        var value := CvcUtil.Trim(Span(s, valueAt, end));
        if value.Fail? then Fail(OutOfRange)
        else
          ParameterMaps.ToUpperIdempotent(name.value);
          Ok(Condition(ParameterMaps.ToUpper(name.value), relation.value, value.value))
  }

  /** `after` extends `before` by upper-cased conditions, none of them a `CELL=` filter. */
  predicate Appended(before: seq<Condition>, after: seq<Condition>) {
    && |before| <= |after|
    && after[..|before|] == before
    && forall i :: |before| <= i < |after| ==>
         && after[i].parameter == ParameterMaps.ToUpper(after[i].parameter)
         && !(after[i].parameter == "CELL" && after[i].relation == "=")
  }

  /** `CELL=` sets the cell filter; any other condition is appended. */
  function Routed(m: Model, c: Condition): (r: Model)
    ensures c.parameter == "CELL" && c.relation == "=" ==> r == m.(cellFilter := Some(c.value))
    ensures !(c.parameter == "CELL" && c.relation == "=") ==> r == m.(conditions := m.conditions + [c])
  {
    if c.parameter == "CELL" && c.relation == "=" then m.(cellFilter := Some(c.value))
    else m.(conditions := m.conditions + [c])
  }

  /** The conditions from the one ending at `end` on (the loop runs while `end` is inside the text). */
  function ConditionsFrom(m: Model, s: string, begin: nat, end: nat): (r: Result<Model>)
    requires |s| < NPOS
    requires end < |s| ==> begin <= end && s[end] in CONDITION_END
    ensures r.Fail? ==> r.failure == OutOfRange || r.failure == FatalError
    ensures r.Ok? ==> r.value == m.(conditions := r.value.conditions, cellFilter := r.value.cellFilter)
    ensures r.Ok? && r.value.cellFilter != m.cellFilter ==> r.value.cellFilter.Some?
    decreases |s| - end
  {
    if end >= |s| then Ok(m)
    else match ConditionAt(s, begin, end)
      case Fail(f) => Fail(f)
      case Ok(c) =>
        if ConditionFailure(c).Some? then Fail(ConditionFailure(c).value)
        else
          var begin' := FirstNotOf(s, CONDITION_SKIP, end);
          ConditionsFrom(Routed(m, c), s, begin', FirstOf(s, CONDITION_END, begin'))
  }

  /** CreateConditions as a function of the model and the condition text. */
  function WithConditions(m: Model, s: string): (r: Result<Model>)
    requires |s| < NPOS
    ensures r.Fail? ==> r.failure == OutOfRange || r.failure == FatalError
    ensures r.Ok? ==> r.value == m.(conditions := r.value.conditions, cellFilter := r.value.cellFilter)
  {
    var begin := FirstNotOf(s, CONDITION_OPEN, 0);
    ConditionsFrom(m, s, begin, FirstOf(s, CONDITION_END, begin))
  }

  lemma AppendedTrans(a: seq<Condition>, b: seq<Condition>, c: seq<Condition>)
    requires Appended(a, b) && Appended(b, c)
    ensures Appended(a, c)
  {
    assert c[..|a|] == c[..|b|][..|a|];
  }

  lemma AppendedRouted(m: Model, c: Condition)
    requires c.parameter == ParameterMaps.ToUpper(c.parameter)
    ensures Appended(m.conditions, Routed(m, c).conditions)
  {
    var after := Routed(m, c).conditions;
    assert after[..|m.conditions|] == m.conditions;
  }

  /**
   * CreateConditions only appends: the conditions already there stay first,
   * and every added one has an upper-cased name and is not a `CELL=` filter.
   */
  lemma {:induction false} ConditionsAppend(m: Model, s: string, begin: nat, end: nat)
    requires |s| < NPOS
    requires end < |s| ==> begin <= end && s[end] in CONDITION_END
    ensures ConditionsFrom(m, s, begin, end).Ok? ==> Appended(m.conditions, ConditionsFrom(m, s, begin, end).value.conditions)
    decreases |s| - end
  {
    var r := ConditionsFrom(m, s, begin, end);
    if end >= |s| {
      assert m.conditions[..|m.conditions|] == m.conditions;
    } else if ConditionAt(s, begin, end).Ok? && ConditionFailure(ConditionAt(s, begin, end).value).None? {
      var c := ConditionAt(s, begin, end).value;
      var begin' := FirstNotOf(s, CONDITION_SKIP, end);
      var end' := FirstOf(s, CONDITION_END, begin');
      ConditionsAppend(Routed(m, c), s, begin', end');
      if r.Ok? {
        AppendedRouted(m, c);
        AppendedTrans(m.conditions, Routed(m, c).conditions, r.value.conditions);
      }
    }
  }

  /** The conditions CreateConditions adds follow the ones already there. */
  lemma WithConditionsAppend(m: Model, s: string)
    requires |s| < NPOS
    ensures WithConditions(m, s).Ok? ==> Appended(m.conditions, WithConditions(m, s).value.conditions)
  {
    var begin := FirstNotOf(s, CONDITION_OPEN, 0);
    ConditionsAppend(m, s, begin, FirstOf(s, CONDITION_END, begin));
  }

  // ---- diode=(...) ----

  const DIODE_OPEN: set<char> := {'(', ',', ' ', '\t'}
  const DIODE_END: set<char> := {')', ',', ' ', '\t'}
  const DASH: set<char> := {'-'}

  /**
   * The pair between `begin` and `end`: the anode before the first '-' after
   * `begin`, the cathode after it up to `end`, each trimmed and converted.
   * Without a '-' the anode runs to the end of the text and the cathode is
   * the text before `end` (npos + 1 wraps to 0).
   */
  function DiodeAt(s: string, begin: nat, end: nat, number: Number): (r: Result<Diode>)
    requires begin <= end < |s| < NPOS
  {
    var dash := FirstOf(s, DASH, begin);
    var anodeText := CvcUtil.Trim(Span(s, begin, dash));
    if anodeText.Fail? then Fail(OutOfRange)
    else match number(anodeText.value)
      case Fail(f) => Fail(f)
      case Ok(anode) =>
        var cathodeText := CvcUtil.Trim(Span(s, if dash == NPOS then 0 else dash + 1, end));
        if cathodeText.Fail? then Fail(OutOfRange)
        else match number(cathodeText.value)
          case Fail(f) => Fail(f)
          case Ok(cathode) => Ok(Diode(anode, cathode))
  }

  /** The pairs from the one ending at `end` on, appended in written order. */
  function DiodesFrom(m: Model, s: string, begin: nat, end: nat, number: Number): (r: Result<Model>)
    requires |s| < NPOS
    requires end < |s| ==> begin <= end && s[end] in DIODE_END
    ensures r.Ok? ==> r.value == m.(diodes := r.value.diodes)
    decreases |s| - end
  {
    if end >= |s| then Ok(m)
    else match DiodeAt(s, begin, end, number)
      case Fail(f) => Fail(f)
      case Ok(d) =>
        var begin' := FirstNotOf(s, DIODE_END, end);
        DiodesFrom(m.(diodes := m.diodes + [d]), s, begin', FirstOf(s, DIODE_END, begin'), number)
  }

  /** SetDiodes as a function of the model and the diode text: the old list is dropped first. */
  function WithDiodes(m: Model, s: string, number: Number): (r: Result<Model>)
    requires |s| < NPOS
    ensures r.Ok? ==> r.value == m.(diodes := r.value.diodes)
  {
    var begin := FirstNotOf(s, DIODE_OPEN, 0);
    DiodesFrom(m.(diodes := []), s, begin, FirstOf(s, DIODE_END, begin), number)
  }

  // ---- the constructor, CreateConditions and SetDiodes as code ----

  /** One parameter token, read as the constructor's loop body reads it. */
  method ReadItem(text: string, begin: nat) returns (item: Item)
    requires begin < |text| < NPOS
    ensures item == ItemAt(text, begin)
  {
    var end := FirstOf(text, BLANK, begin);
    SpanIsSubstr(text, begin, end);
    var token := Substr(text, begin, SizeSub(end, begin)).value;
    var equal := Find(text, "=", begin);
    ParameterMaps.FindCharIsFind(text, '=', begin);
    SpanIsSubstr(text, begin, equal);
    var name := Substr(text, begin, SizeSub(equal, begin)).value;
    var valueAt := SizeAdd(equal, 1);
    assert valueAt == if equal == NPOS then 0 else equal + 1;
    SpanIsSubstr(text, valueAt, end);
    var value := Substr(text, valueAt, SizeSub(end, valueAt)).value;
    item := Item(token, name, value, FirstNotOf(text, BLANK, end));
  }

  /** The constructor's dispatch on a parameter name. */
  method SetParameter(m: Model, name: string, value: string, number: Number) returns (r: Result<Model>)
    requires |value| < NPOS
    ensures r == WithParameter(m, name, value, number)
  {
    if name == "Vth" {
      r := Ok(m.(vth := value));
    } else if name == "Vgs" {
      r := Ok(m.(maxVgs := value));
    } else if name == "Vds" {
      r := Ok(m.(maxVds := value));
    } else if name == "Vbs" {
      r := Ok(m.(maxVbs := value));
    } else if name == "Vbg" {
      r := Ok(m.(maxVbg := value));
    } else if name == "R" {
      r := Ok(m.(resistance := value));
    } else if name == "model" {
      var base := m.baseType;
      if base != "M" && base != "R" && base != "C" && base != "X" {
        return Fail(ModelError);
      }
      if base == "M" && value != "fuse_on" && value != "fuse_off" {
        return Fail(ModelError);
      }
      if base != "X" && value != "switch_on" && value != "switch_off" && value != "fuse_on" && value != "fuse_off" {
        return Fail(ModelError);
      }
      var t := TypeNamed(value);
      if t.None? {
        return Fail(OutOfRange);
      }
      r := Ok(m.(modelType := t.value));
    } else if name == "condition" {
      r := CreateConditions(m, value);
    } else if name == "diode" {
      r := SetDiodes(m, value, number);
    } else {
      r := Fail(ModelError);
    }
  }

  /** The CModel constructor: the type and name tokens, then each parameter token, then the default diodes. */
  method NewModel(text: string, number: Number) returns (r: Result<Model>)
    requires |text| < NPOS
    ensures r == Parse(text, number)
  {
    var typeAt := FirstNotOf(text, BLANK, 0);
    var typeEnd := FirstOf(text, BLANK, typeAt);
    if typeAt > |text| {
      return Fail(OutOfRange);
    }
    SpanIsSubstr(text, typeAt, typeEnd);
    var typeText := Substr(text, typeAt, SizeSub(typeEnd, typeAt)).value;
    var t := TypeNamed(typeText);
    if t.None? {
      return Fail(OutOfRange);
    }
    var nameAt := FirstNotOf(text, BLANK, typeEnd);
    var nameEnd := FirstOf(text, BLANK, nameAt);
    if nameAt > |text| {
      return Fail(OutOfRange);
    }
    SpanIsSubstr(text, nameAt, nameEnd);
    var name := Substr(text, nameAt, SizeSub(nameEnd, nameAt)).value;
    var m := Initial(t.value, typeText, name);
    var begin := FirstNotOf(text, BLANK, nameEnd);
    ghost var goal := ParametersFrom(m, text, begin, number);
    assert HeaderOf(text) == Ok(Header(m, begin));
    while begin < |text|
      invariant ParametersFrom(m, text, begin, number) == goal
      decreases |text| - begin
    {
      var item := ReadItem(text, begin);
      m := m.(definition := m.definition + " " + item.token);
      var next := SetParameter(m, item.name, item.value, number);
      if next.Fail? {
        return Fail(next.failure);
      }
      m := next.value;
      begin := item.next;
    }
    if m.diodes == [] {
      if IsNmos(m.modelType) {
        m := m.(diodes := [Diode(4, 1), Diode(4, 3)]);
      } else if IsPmos(m.modelType) {
        m := m.(diodes := [Diode(1, 4), Diode(3, 4)]);
      } else if m.modelType == DIODE {
        m := m.(diodes := [Diode(1, 2)]);
      }
    }
    r := Ok(m);
  }

  /** The condition between `begin` and `end`, read as CreateConditions' loop body reads it. */
  method ReadCondition(text: string, begin: nat, end: nat) returns (r: Result<Condition>)
    requires begin <= end < |text| < NPOS
    ensures r == ConditionAt(text, begin, end)
  {
    var relationAt := FirstOf(text, RELATION, begin);
    var valueAt := FirstNotOf(text, RELATION, relationAt);
    SpanIsSubstr(text, begin, relationAt);
    var name := CvcUtil.Trim(Substr(text, begin, SizeSub(relationAt, begin)).value);
    if name.Fail? {
      return Fail(OutOfRange);
    }
    if relationAt > |text| {
      return Fail(OutOfRange);
    }
    SpanIsSubstr(text, relationAt, valueAt);
    var relation := CvcUtil.Trim(Substr(text, relationAt, SizeSub(valueAt, relationAt)).value);
    if relation.Fail? {
      return Fail(OutOfRange);
    }
    if valueAt > |text| {
      return Fail(OutOfRange);
    }
    SpanIsSubstr(text, valueAt, end);
    var value := CvcUtil.Trim(Substr(text, valueAt, SizeSub(end, valueAt)).value);
    if value.Fail? {
      return Fail(OutOfRange);
    }
    r := Ok(Condition(ParameterMaps.ToUpper(name.value), relation.value, value.value));
  }

  /** One pass of CreateConditions' loop. */
  lemma ConditionsStep(m: Model, s: string, begin: nat, end: nat, c: Condition)
    requires begin <= end < |s| < NPOS && s[end] in CONDITION_END
    requires ConditionAt(s, begin, end) == Ok(c) && ConditionFailure(c) == None
    ensures var begin' := FirstNotOf(s, CONDITION_SKIP, end);
      ConditionsFrom(m, s, begin, end) == ConditionsFrom(Routed(m, c), s, begin', FirstOf(s, CONDITION_END, begin'))
  {
  }

  /** CreateConditions: each condition of "(L<0.4u w>=1.2u)" appended, or stored as the cell filter. */
  method CreateConditions(m: Model, text: string) returns (r: Result<Model>)
    requires |text| < NPOS
    ensures r == WithConditions(m, text)
  {
    var begin: nat := FirstNotOf(text, CONDITION_OPEN, 0);
    var end: nat := FirstOf(text, CONDITION_END, begin);
    var model := m;
    while end < |text|
      invariant end < |text| ==> begin <= end && text[end] in CONDITION_END
      invariant ConditionsFrom(model, text, begin, end) == WithConditions(m, text)
      decreases |text| - end
    {
      var c := ReadCondition(text, begin, end);
      if c.Fail? {
        return Fail(c.failure);
      }
      if c.value.parameter == "CELL" && c.value.relation == "=" {
        ConditionsStep(model, text, begin, end, c.value);
        model := model.(cellFilter := Some(c.value.value));
      } else {
        var failure := NormalValueFailure(c.value.value);
        if failure.Some? {
          return Fail(failure.value);
        }
        ConditionsStep(model, text, begin, end, c.value);
        model := model.(conditions := model.conditions + [c.value]);
      }
      begin := FirstNotOf(text, CONDITION_SKIP, end);
      end := FirstOf(text, CONDITION_END, begin);
    }
    r := Ok(model);
  }

  /** The pair between `begin` and `end`, read as SetDiodes' loop body reads it. */
  method ReadDiode(text: string, begin: nat, end: nat, number: Number) returns (r: Result<Diode>)
    requires begin <= end < |text| < NPOS
    ensures r == DiodeAt(text, begin, end, number)
  {
    var dash := FirstOf(text, DASH, begin);
    SpanIsSubstr(text, begin, dash);
    var anodeText := CvcUtil.Trim(Substr(text, begin, SizeSub(dash, begin)).value);
    if anodeText.Fail? {
      return Fail(OutOfRange);
    }
    var anode := number(anodeText.value);
    if anode.Fail? {
      return Fail(anode.failure);
    }
    var cathodeAt := SizeAdd(dash, 1);
    assert cathodeAt == if dash == NPOS then 0 else dash + 1;
    assert SizeSub(SizeSub(end, dash), 1) == SizeSub(end, cathodeAt);
    SpanIsSubstr(text, cathodeAt, end);
    var cathodeText := CvcUtil.Trim(Substr(text, cathodeAt, SizeSub(SizeSub(end, dash), 1)).value);
    if cathodeText.Fail? {
      return Fail(OutOfRange);
    }
    var cathode := number(cathodeText.value);
    if cathode.Fail? {
      return Fail(cathode.failure);
    }
    r := Ok(Diode(anode.value, cathode.value));
  }

  /** One pass of SetDiodes' loop. */
  lemma DiodesStep(m: Model, s: string, begin: nat, end: nat, number: Number, d: Diode)
    requires begin <= end < |s| < NPOS && s[end] in DIODE_END
    requires DiodeAt(s, begin, end, number) == Ok(d)
    ensures var begin' := FirstNotOf(s, DIODE_END, end);
      DiodesFrom(m, s, begin, end, number)
        == DiodesFrom(m.(diodes := m.diodes + [d]), s, begin', FirstOf(s, DIODE_END, begin'), number)
  {
  }

  /** SetDiodes: the list cleared, then each "anode-cathode" pair of "(1-3,2-3)" appended. */
  method SetDiodes(m: Model, text: string, number: Number) returns (r: Result<Model>)
    requires |text| < NPOS
    ensures r == WithDiodes(m, text, number)
  {
    var model := m.(diodes := []);
    var begin: nat := FirstNotOf(text, DIODE_OPEN, 0);
    var end: nat := FirstOf(text, DIODE_END, begin);
    while end < |text|
      invariant end < |text| ==> begin <= end && text[end] in DIODE_END
      invariant DiodesFrom(model, text, begin, end, number) == WithDiodes(m, text, number)
      decreases |text| - end
    {
      var d := ReadDiode(text, begin, end, number);
      if d.Fail? {
        return Fail(d.failure);
      }
      DiodesStep(model, text, begin, end, number, d.value);
      model := model.(diodes := model.diodes + [d.value]);
      begin := FirstNotOf(text, DIODE_END, end);
      end := FirstOf(text, DIODE_END, begin);
    }
    r := Ok(model);
  }

  // ---- matching ----

  /** CCondition::CheckCondition on a parameter's value text that converts (the comparison of normal values is not part of this model). */
  type Check = (Condition, string) -> bool

  /** regex_match of a cell name against the regex built from a cell filter (std::regex is not part of this model). */
  type CellMatch = (string, string) -> bool

  /**
   * The conditions in order: a missing parameter, or a value that does not
   * convert, throws EFatalError (an out_of_range from the lookup or from
   * trim_ is rethrown as one); the first failed check gives false.
   */
  function ConditionsHold(conditions: seq<Condition>, parameters: map<string, string>, check: Check): (r: Result<bool>)
    ensures r.Fail? ==> r.failure == FatalError
    decreases |conditions|
  {
    if conditions == [] then Ok(true)
    else
      var c := conditions[0];
      if c.parameter !in parameters || NormalValueFailure(parameters[c.parameter]).Some? then Fail(FatalError)
      else if !check(c, parameters[c.parameter]) then Ok(false)
      else ConditionsHold(conditions[1..], parameters, check)
  }

  /** Condition `i` names a parameter that is present and whose value converts. */
  predicate Readable(conditions: seq<Condition>, i: nat, parameters: map<string, string>)
    requires i < |conditions|
  {
    conditions[i].parameter in parameters && NormalValueFailure(parameters[conditions[i].parameter]).None?
  }

  /** Condition `i` names a parameter that is present, whose value converts, and that passes its check. */
  predicate Passes(conditions: seq<Condition>, i: nat, parameters: map<string, string>, check: Check)
    requires i < |conditions|
  {
    Readable(conditions, i, parameters) && check(conditions[i], parameters[conditions[i].parameter])
  }

  /** The result is true exactly when every condition names a present parameter that passes its check. */
  lemma {:induction false} ConditionsHoldTrue(conditions: seq<Condition>, parameters: map<string, string>, check: Check)
    ensures ConditionsHold(conditions, parameters, check) == Ok(true)
      <==> forall i :: 0 <= i < |conditions| ==> Passes(conditions, i, parameters, check)
    decreases |conditions|
  {
    if conditions != [] {
      var rest := conditions[1..];
      ConditionsHoldTrue(rest, parameters, check);
      if Passes(conditions, 0, parameters, check) {
        assert ConditionsHold(conditions, parameters, check) == ConditionsHold(rest, parameters, check);
        if forall i :: 0 <= i < |rest| ==> Passes(rest, i, parameters, check) {
          forall i | 0 <= i < |conditions|
            ensures Passes(conditions, i, parameters, check)
          {
            if i > 0 {
              assert Passes(rest, i - 1, parameters, check);
            }
          }
        } else {
          var k :| 0 <= k < |rest| && !Passes(rest, k, parameters, check);
          assert !Passes(conditions, k + 1, parameters, check);
        }
      } else {
        assert ConditionsHold(conditions, parameters, check) != Ok(true);
      }
    }
  }

  /**
   * The result is an exception exactly when some condition names a missing
   * parameter, or one whose value does not convert, and every condition
   * before it passes.
   */
  lemma {:induction false} ConditionsHoldFail(conditions: seq<Condition>, parameters: map<string, string>, check: Check)
    ensures ConditionsHold(conditions, parameters, check).Fail?
      <==> exists i :: 0 <= i < |conditions| && !Readable(conditions, i, parameters)
             && forall j :: 0 <= j < i ==> Passes(conditions, j, parameters, check)
    decreases |conditions|
  {
    if conditions != [] {
      var rest := conditions[1..];
      ConditionsHoldFail(rest, parameters, check);
      assert forall i :: 0 <= i < |rest| ==> rest[i] == conditions[i + 1];
      if ConditionsHold(conditions, parameters, check).Fail? && Readable(conditions, 0, parameters) {
        var k :| 0 <= k < |rest| && !Readable(rest, k, parameters)
                 && forall j :: 0 <= j < k ==> Passes(rest, j, parameters, check);
        assert forall j :: 0 <= j < k + 1 ==> Passes(conditions, j, parameters, check) by {
          forall j | 0 <= j < k + 1
            ensures Passes(conditions, j, parameters, check)
          {
            if j > 0 {
              assert Passes(rest, j - 1, parameters, check);
            }
          }
        }
        assert !Readable(conditions, k + 1, parameters);
      }
      if exists i :: 0 <= i < |conditions| && !Readable(conditions, i, parameters)
           && forall j :: 0 <= j < i ==> Passes(conditions, j, parameters, check) {
        var k :| 0 <= k < |conditions| && !Readable(conditions, k, parameters)
                 && forall j :: 0 <= j < k ==> Passes(conditions, j, parameters, check);
        if k > 0 {
          assert forall j :: 0 <= j < k - 1 ==> Passes(rest, j, parameters, check) by {
            forall j | 0 <= j < k - 1
              ensures Passes(rest, j, parameters, check)
            {
              assert Passes(conditions, j + 1, parameters, check);
            }
          }
          assert !Readable(rest, k - 1, parameters);
          assert Passes(conditions, 0, parameters, check);
        }
      }
    }
  }

  /** ParameterMatch as a function: the conditions, then the cell filter when one is set. */
  function Matched(m: Model, parameters: map<string, string>, cellName: string, check: Check, cellMatches: CellMatch): (r: Result<bool>)
    ensures r.Fail? <==> ConditionsHold(m.conditions, parameters, check).Fail?
    ensures r == Ok(true) <==> (ConditionsHold(m.conditions, parameters, check) == Ok(true)
                                && (m.cellFilter.Some? ==> cellMatches(m.cellFilter.value, cellName)))
  {
    match ConditionsHold(m.conditions, parameters, check)
    case Fail(f) => Fail(f)
    case Ok(pass) => Ok(pass && (m.cellFilter.None? || cellMatches(m.cellFilter.value, cellName)))
  }

  /** CModel::ParameterMatch. */
  method ParameterMatch(m: Model, parameters: map<string, string>, cellName: string, check: Check, cellMatches: CellMatch)
    returns (r: Result<bool>)
    ensures r == Matched(m, parameters, cellName, check, cellMatches)
  {
    var i := 0;
    while i < |m.conditions|
      invariant i <= |m.conditions|
      invariant ConditionsHold(m.conditions[i..], parameters, check) == ConditionsHold(m.conditions, parameters, check)
    {
      var c := m.conditions[i];
      assert m.conditions[i..][1..] == m.conditions[i + 1..];
      if c.parameter !in parameters {
        return Fail(FatalError);
      }
      if NormalValueFailure(parameters[c.parameter]).Some? {
        return Fail(FatalError);
      }
      if !check(c, parameters[c.parameter]) {
        return Ok(false);
      }
      i := i + 1;
    }
    if m.cellFilter.Some? && !cellMatches(m.cellFilter.value, cellName) {
      return Ok(false);
    }
    return Ok(true);
  }

  /** No model before `i` matches, and none throws. */
  predicate NoneBefore(models: seq<Model>, i: nat, parameters: map<string, string>, cellName: string, check: Check, cellMatches: CellMatch)
    requires i <= |models|
  {
    forall j :: 0 <= j < i ==> Matched(models[j], parameters, cellName, check, cellMatches) == Ok(false)
  }

  /** `r` is what scanning `models` in order gives: the first match, an exception on the way, or nothing. */
  predicate IsFirstMatch(models: seq<Model>, parameters: map<string, string>, cellName: string, check: Check, cellMatches: CellMatch,
                         r: Result<Option<Model>>)
  {
    match r
    case Ok(None) => NoneBefore(models, |models|, parameters, cellName, check, cellMatches)
    case Ok(Some(m)) =>
      exists i :: 0 <= i < |models| && models[i] == m
        && Matched(models[i], parameters, cellName, check, cellMatches) == Ok(true)
        && NoneBefore(models, i, parameters, cellName, check, cellMatches)
    case Fail(f) =>
      exists i :: 0 <= i < |models| && Matched(models[i], parameters, cellName, check, cellMatches) == Fail(f)
        && NoneBefore(models, i, parameters, cellName, check, cellMatches)
  }

  /** At most one result is the first match: the scan's result is determined. */
  lemma FirstMatchUnique(models: seq<Model>, parameters: map<string, string>, cellName: string, check: Check, cellMatches: CellMatch,
                         r1: Result<Option<Model>>, r2: Result<Option<Model>>)
    requires IsFirstMatch(models, parameters, cellName, check, cellMatches, r1)
    requires IsFirstMatch(models, parameters, cellName, check, cellMatches, r2)
    ensures r1 == r2
  {
    var i1 := Stop(models, parameters, cellName, check, cellMatches, r1);
    var i2 := Stop(models, parameters, cellName, check, cellMatches, r2);
  }

  /** Where a scan with result `r` stopped: the matching or throwing model, or the end. */
  lemma Stop(models: seq<Model>, parameters: map<string, string>, cellName: string, check: Check, cellMatches: CellMatch,
             r: Result<Option<Model>>) returns (i: nat)
    requires IsFirstMatch(models, parameters, cellName, check, cellMatches, r)
    ensures i <= |models| && NoneBefore(models, i, parameters, cellName, check, cellMatches)
    ensures r == Ok(None) <==> i == |models|
    ensures i < |models| ==> Matched(models[i], parameters, cellName, check, cellMatches) != Ok(false)
    ensures i < |models| && r.Ok? ==> r == Ok(Some(models[i])) && Matched(models[i], parameters, cellName, check, cellMatches) == Ok(true)
    ensures i < |models| && r.Fail? ==> Matched(models[i], parameters, cellName, check, cellMatches) == Fail(r.failure)
  {
    match r {
      case Ok(None) =>
        i := |models|;
      case Ok(Some(m)) =>
        i :| 0 <= i < |models| && models[i] == m
          && Matched(models[i], parameters, cellName, check, cellMatches) == Ok(true)
          && NoneBefore(models, i, parameters, cellName, check, cellMatches);
      case Fail(f) =>
        i :| 0 <= i < |models| && Matched(models[i], parameters, cellName, check, cellMatches) == Fail(f)
          && NoneBefore(models, i, parameters, cellName, check, cellMatches);
    }
  }

  /** The loop of FindModel over one key's models: the first that matches, stopping at an exception. */
  method FirstMatch(models: seq<Model>, parameters: map<string, string>, cellName: string, check: Check, cellMatches: CellMatch)
    returns (r: Result<Option<Model>>)
    ensures IsFirstMatch(models, parameters, cellName, check, cellMatches, r)
  {
    var i := 0;
    while i < |models|
      invariant i <= |models|
      invariant NoneBefore(models, i, parameters, cellName, check, cellMatches)
    {
      var matched := ParameterMatch(models[i], parameters, cellName, check, cellMatches);
      if matched.Fail? {
        return Fail(matched.failure);
      }
      if matched.value {
        return Ok(Some(models[i]));
      }
      i := i + 1;
    }
    return Ok(None);
  }

  /** The models of one key (CModelList) and the Vth definition of the first one added. */
  datatype ModelList = ModelList(models: seq<Model>, vthDefinition: string)

  /** FindModel's key: the trimmed parameter text up to the first space at or after position 2. */
  function LookupKey(trimmed: string): (r: string)
    requires |trimmed| < NPOS
    ensures r <= trimmed
  {
    trimmed[..if ParameterMaps.FindChar(trimmed, ' ', 2) == NPOS then |trimmed| else ParameterMaps.FindChar(trimmed, ' ', 2)]
  }

  /** The device parameters after the key (none when the text is the key alone). */
  function LookupParameters(trimmed: string): map<string, string>
    requires |trimmed| < NPOS
  {
    var key := LookupKey(trimmed);
    if |trimmed| > |key| then ParameterMaps.Entered(map[], trimmed[|key| + 1..]) else map[]
  }

  /** CModelListMap: the model lists by "baseType name" key, and whether a model line was rejected. */
  class ModelListMap {
    var lists: map<string, ModelList>
    var hasError: bool

    constructor()
      ensures lists == map[] && !hasError
    {
      lists := map[];
      hasError := false;
    }

    /**
     * AddModel: a line that does not parse sets hasError and adds nothing;
     * otherwise the model is appended under "baseType name", and a new
     * list takes the model's Vth definition.
     */
    method AddModel(text: string, number: Number)
      requires |text| < NPOS
      modifies this
      ensures Parse(text, number).Fail? ==> hasError && lists == old(lists)
      ensures Parse(text, number).Ok? ==>
        var m := Parse(text, number).value;
        var key := m.baseType + " " + m.name;
        && hasError == old(hasError)
        && lists == old(lists)[key := if key in old(lists) then old(lists)[key].(models := old(lists)[key].models + [m])
                                      else ModelList([m], m.vth)]
    {
      var parsed := NewModel(text, number);
      if parsed.Fail? {
        hasError := true;
        return;
      }
      var m := parsed.value;
      var key := m.baseType + " " + m.name;
      if key in lists {
        lists := lists[key := lists[key].(models := lists[key].models + [m])];
      } else {
        lists := lists[key := ModelList([m], m.vth)];
      }
    }

    /**
     * FindModel: the first model under the text's key whose conditions the
     * text's parameters meet; None when the key is unknown or nothing
     * matches. A blank text makes trim_ throw; a missing parameter throws.
     */
    method FindModel(cellName: string, text: string, check: Check, cellMatches: CellMatch) returns (r: Result<Option<Model>>)
      requires |text| < NPOS
      ensures CvcUtil.Trim(text).Fail? ==> r == Fail(OutOfRange)
      ensures CvcUtil.Trim(text).Ok? && LookupKey(CvcUtil.Trim(text).value) !in lists ==> r == Ok(None)
      ensures CvcUtil.Trim(text).Ok? && LookupKey(CvcUtil.Trim(text).value) in lists ==>
        IsFirstMatch(lists[LookupKey(CvcUtil.Trim(text).value)].models,
                     LookupParameters(CvcUtil.Trim(text).value), cellName, check, cellMatches, r)
    {
      var trimmed := CvcUtil.Trim(text);
      if trimmed.Fail? {
        return Fail(OutOfRange);
      }
      var p := trimmed.value;
      var space := Find(p, " ", 2);
      ParameterMaps.FindCharIsFind(p, ' ', 2);
      var key := Substr(p, 0, space).value;
      assert key == LookupKey(p);
      var parameterMap := new ParameterMaps.ParameterMap();
      if |p| > |key| {
        var rest := Substr(p, |key| + 1, NPOS).value;
        assert rest == p[|key| + 1..];
        parameterMap.CreateParameterMap(rest);
      }
      var parameters := parameterMap.parameters;
      assert parameters == LookupParameters(p);
      if key !in lists {
        return Ok(None);
      }
      r := FirstMatch(lists[key].models, parameters, cellName, check, cellMatches);
    }
  }
}
