/** Request parameters: accepted shapes, and what parsing a JSON value through
    one means (param/shape.go, enum.go, parameter.go, object.go,
    discriminator.go). Where the code walks a Go map and stops at the first
    error, the error depends on the walk; a failed parse therefore stands for
    the set of errors that some walk reports. */
module ParamShapes {
  import opened Wrappers
  import opened CallerSets
  import opened Text
  import opened Decimals
  import opened JsonTrees
  import Rules = PresenceRules

  /** What parsing yields. `Domain` stands for whatever a parser makes. */
  datatype Value =
    | Wire(json: Json)
    | Number(n: int)
    | List(items: seq<Value>)
    | Dict(entries: map<string, Value>)
    | Domain(id: int)

  datatype WireType = AnyType | StringType | IntegerType | BoolType | ArrayType | ObjectType

  datatype NullPolicy = AsAbsent | Rejected | Accepted

  /** A parser's error is one of this package's, or some other. */
  datatype Fault = Own(path: string, code: string, message: string) | Foreign

  datatype Unit = Bytes | Magnitude | Items | Fields | Contained

  datatype SizeFault = Below(bound: int, unit: Unit) | Above(bound: int, unit: Unit)

  datatype Error =
    | Missing(path: string)
    | Unexpected(path: string)
    | NullRejected(path: string)
    | TypeMismatch(path: string, expected: WireType)
    | NotAllowed(path: string, value: string, allowed: seq<string>)
    | BadSize(path: string, fault: SizeFault)
    | BrokenRule(path: string, violation: Rules.RuleError)
    | ParseFailed(path: string)
    | Custom(path: string, code: string, message: string)

  /** The available parameters of an object, each with its value if present. */
  datatype Values = Values(path: string, params: map<string, Option<Value>>)

  datatype Shape =
    | AnyValue
    | StringValue
    | IntegerValue
    | BooleanValue
    | EnumValue(values: seq<string>, trims: bool)
    | PlainArray
    | ArrayOf(item: Shape)
    | MapOf(value: Shape)
    | ObjectOf(def: ObjectDef)
    | Discriminated(key: string, variants: seq<Variant>, zero: Value)

  datatype Variant = Variant(value: string, shape: Shape)

  /** `zero` is the zero value of the object's Go type. */
  datatype ObjectDef = ObjectDef(
    params: seq<Parameter>,
    rules: seq<Rules.PresenceRule>,
    parser: Values -> Result<Value, Fault>,
    zero: Value)

  datatype Parameter = Parameter(
    name: string,
    required: bool,
    shape: Shape,
    nulls: NullPolicy,
    availability: CallerSet,
    parser: Option<(string, Value) -> Result<Value, Fault>>,
    minSize: Option<int>,
    maxSize: Option<int>,
    minItems: Option<int>,
    maxItems: Option<int>)

  // -------------------------------------------------------------- details

  function WireTypeOf(shape: Shape): WireType {
    match shape
    case AnyValue => AnyType
    case StringValue => StringType
    case IntegerValue => IntegerType
    case BooleanValue => BoolType
    case EnumValue(_, _) => StringType
    case PlainArray => ArrayType
    case ArrayOf(_) => ArrayType
    case MapOf(_) => ObjectType
    case ObjectOf(_) => ObjectType
    case Discriminated(_, _, _) => ObjectType
  }

  function ZeroOf(shape: Shape): Value {
    match shape
    case AnyValue => Wire(JNull)
    case StringValue => Wire(JString(""))
    case IntegerValue => Number(0)
    case BooleanValue => Wire(JBool(false))
    case EnumValue(_, _) => Wire(JString(""))
    case PlainArray => List([])
    case ArrayOf(_) => List([])
    case MapOf(_) => Dict(map[])
    case ObjectOf(def) => def.zero
    case Discriminated(_, _, zero) => zero
  }

  function JoinPath(parent: string, name: string): string {
    var p, n := TrimSpace(parent), TrimSpace(name);
    if p == "" then n else if n == "" then p else p + "." + n
  }

  function ItemPath(path: string, i: nat): string {
    path + "[" + FormatNat(i) + "]"
  }

  function PathOrBody(path: string): string {
    if TrimSpace(path) == "" then "request_body" else path
  }

  function Measured(typ: WireType, raw: Json): Option<(int, Unit)> {
    match typ
    case StringType => if raw.JString? then Some((ByteLength(raw.s), Bytes)) else None
    case IntegerType =>
      if raw.JNumber? && ParseInt64(raw.literal).Some? then Some((ParseInt64(raw.literal).value, Magnitude)) else None
    case ArrayType => if raw.JArray? then Some((|raw.items|, Items)) else None
    case ObjectType => if raw.JObject? then Some((|raw.fields|, Fields)) else None
    case AnyType =>
      (match raw
       case JString(s) => Some((ByteLength(s), Bytes))
       case JArray(items) => Some((|items|, Items))
       case JObject(fields) => Some((|fields|, Fields))
       case _ => None)
    case BoolType => None
  }

  function Bounded(size: int, unit: Unit, low: Option<int>, high: Option<int>): Option<SizeFault> {
    if low.Some? && size < low.value then Some(Below(low.value, unit))
    else if high.Some? && size > high.value then Some(Above(high.value, unit))
    else None
  }

  /** `enforceSize`. */
  function SizeFaultOf(p: Parameter, raw: Json): Option<SizeFault> {
    var size := Measured(WireTypeOf(p.shape), raw);
    var fault := if size.Some? then Bounded(size.value.0, size.value.1, p.minSize, p.maxSize) else None;
    if fault.Some? then fault
    else if raw.JArray? then Bounded(|raw.items|, Contained, p.minItems, p.maxItems)
    else None
  }

  predicate Available(p: Parameter, caller: Caller) {
    Allows(p.availability, caller)
  }

  /** A null counts as present unless the policy treats it as absent. */
  predicate Present(p: Parameter, raw: Json) {
    !raw.JNull? || p.nulls != AsAbsent
  }

  /** The parameter that declares `name`. */
  function Declared(params: seq<Parameter>, name: string): (r: Option<nat>)
    ensures r.Some? ==> r.value < |params| && params[r.value].name == name
    ensures r.None? ==> forall i :: 0 <= i < |params| ==> params[i].name != name
  {
    if params == [] then None
    else
      var n := |params| - 1;
      if params[n].name == name then Some(n) else Declared(params[..n], name)
  }

  /** No parameter declares the key, or one that the caller may not use and that is present. */
  predicate OffendingKey(params: seq<Parameter>, caller: Caller, name: string, raw: Json) {
    match Declared(params, name)
    case None => true
    case Some(i) => !Available(params[i], caller) && Present(params[i], raw)
  }

  function Offending(params: seq<Parameter>, caller: Caller, fields: map<string, Json>): set<string> {
    set k | k in fields && OffendingKey(params, caller, k, fields[k])
  }

  function ErrorOf(path: string, fault: Fault): Error {
    match fault
    case Own(own, code, message) => Custom(own, code, message)
    case Foreign => ParseFailed(path)
  }

  function Presence(params: map<string, Option<Value>>): map<string, bool> {
    map name | name in params :: params[name].Some?
  }

  function FirstViolation(rules: seq<Rules.PresenceRule>, presence: map<string, bool>): Option<Rules.RuleError> {
    if rules == [] then None
    else
      var n := |rules| - 1;
      var earlier := FirstViolation(rules[..n], presence);
      if earlier.Some? then earlier else Rules.Judge(rules[n], presence)
  }

  function VariantFor(variants: seq<Variant>, value: string): (r: Option<nat>)
    ensures r.Some? ==> r.value < |variants| && variants[r.value].value == value
    ensures r.None? ==> forall i :: 0 <= i < |variants| ==> variants[i].value != value
  {
    if variants == [] then None
    else
      var n := |variants| - 1;
      if variants[n].value == value then Some(n) else VariantFor(variants[..n], value)
  }

  function VariantValues(variants: seq<Variant>): (r: seq<string>)
    ensures |r| == |variants| && forall i :: 0 <= i < |r| ==> r[i] == variants[i].value
  {
    seq(|variants|, i requires 0 <= i < |variants| => variants[i].value)
  }

  // -------------------------------------------------------------- parsing

  datatype Outcome = Parsed(value: Value) | Failed(errors: set<Error>)

  datatype ParamOutcome = Got(value: Option<Value>) | Bad(errors: set<Error>)

  datatype ParamsOutcome = All(params: map<string, Option<Value>>) | Stopped(errors: set<Error>)

  function Parse(shape: Shape, caller: Caller, path: string, raw: Json): Outcome
    decreases shape, 0
  {
    match shape
    case AnyValue => Parsed(Wire(raw))
    case StringValue => if raw.JString? then Parsed(Wire(raw)) else Failed({TypeMismatch(path, StringType)})
    case IntegerValue =>
      if raw.JNumber? && ParseInt64(raw.literal).Some? then Parsed(Number(ParseInt64(raw.literal).value))
      else Failed({TypeMismatch(path, IntegerType)})
    case BooleanValue => if raw.JBool? then Parsed(Wire(raw)) else Failed({TypeMismatch(path, BoolType)})
    case EnumValue(values, trims) =>
      if !raw.JString? then Failed({TypeMismatch(path, StringType)})
      else
        var value := if trims then TrimSpace(raw.s) else raw.s;
        if value in values then Parsed(Wire(JString(value))) else Failed({NotAllowed(path, value, values)})
    case PlainArray =>
      if raw.JArray? then Parsed(List(seq(|raw.items|, i requires 0 <= i < |raw.items| => Wire(raw.items[i]))))
      else Failed({TypeMismatch(path, ArrayType)})
    case ArrayOf(item) =>
      if raw.JArray? then ParseItems(item, caller, path, raw.items) else Failed({TypeMismatch(path, ArrayType)})
    case MapOf(value) =>
      if raw.JObject? then
        Gathered(Entries(value, caller, path, raw.fields))
      else Failed({TypeMismatch(path, ObjectType)})
    case ObjectOf(def) =>
      if raw.JObject? then ParseObject(def, caller, path, raw.fields) else Failed({TypeMismatch(path, ObjectType)})
    case Discriminated(key, variants, _) =>
      if !raw.JObject? then Failed({TypeMismatch(path, ObjectType)})
      else
        var keyPath := JoinPath(path, key);
        if key !in raw.fields || raw.fields[key].JNull? then Failed({Missing(keyPath)})
        else if !raw.fields[key].JString? then Failed({TypeMismatch(keyPath, StringType)})
        else
          var value := raw.fields[key].s;
          match VariantFor(variants, value)
          case None => Failed({NotAllowed(keyPath, value, VariantValues(variants))})
          case Some(i) => Parse(variants[i].shape, caller, path, JObject(raw.fields - {key}))
  }

  /** Items are parsed in order, up to the first failure. */
  function ParseItems(item: Shape, caller: Caller, path: string, items: seq<Json>): (r: Outcome)
    ensures r.Parsed? ==> r.value.List? && |r.value.items| == |items|
    decreases item, 1, |items|
  {
    if items == [] then Parsed(List([]))
    else
      var n := |items| - 1;
      match ParseItems(item, caller, path, items[..n])
      case Failed(errors) => Failed(errors)
      case Parsed(before) =>
        match Parse(item, caller, ItemPath(path, n), items[n])
        case Failed(errors) => Failed(errors)
        case Parsed(value) => Parsed(List(before.items + [value]))
  }

  function Entries(value: Shape, caller: Caller, path: string, fields: map<string, Json>): map<string, Outcome>
    decreases value, 1, 0
  {
    map k | k in fields :: Parse(value, caller, JoinPath(path, k), fields[k])
  }

  /** Entries are parsed in any order: any failing entry may be the one reported. */
  function Gathered(outcomes: map<string, Outcome>): Outcome {
    if exists k | k in outcomes :: outcomes[k].Failed?
    then Failed(set k, e | k in outcomes && outcomes[k].Failed? && e in outcomes[k].errors :: e)
    else Parsed(Dict(map k | k in outcomes :: outcomes[k].value))
  }

  function ParseObject(def: ObjectDef, caller: Caller, path: string, fields: map<string, Json>): Outcome
    decreases def, 0
  {
    var offending := Offending(def.params, caller, fields);
    if offending != {} then Failed(set k | k in offending :: Unexpected(JoinPath(path, k)))
    else
      match ParseParams(def.params, caller, path, fields)
      case Stopped(errors) => Failed(errors)
      case All(params) => Finish(def, path, params)
  }

  /** The rules in order, then the object's own parser. */
  function Finish(def: ObjectDef, path: string, params: map<string, Option<Value>>): Outcome {
    match FirstViolation(def.rules, Presence(params))
    case Some(violation) => Failed({BrokenRule(path, violation)})
    case None =>
      match def.parser(Values(path, params))
      case Ok(value) => Parsed(value)
      case Err(fault) => Failed({ErrorOf(PathOrBody(path), fault)})
  }

  function ParseParams(params: seq<Parameter>, caller: Caller, path: string, fields: map<string, Json>): ParamsOutcome
    decreases params, 1
  {
    if params == [] then All(map[])
    else
      var n := |params| - 1;
      match ParseParams(params[..n], caller, path, fields)
      case Stopped(errors) => Stopped(errors)
      case All(before) =>
        if !Available(params[n], caller) then All(before)
        else
          match ParseParameter(params[n], caller, path, fields)
          case Bad(errors) => Stopped(errors)
          case Got(value) => All(before[params[n].name := value])
  }

  function ParseParameter(p: Parameter, caller: Caller, parent: string, fields: map<string, Json>): ParamOutcome
    decreases p, 1
  {
    var path := JoinPath(parent, p.name);
    var absent := if p.required then Bad({Missing(path)}) else Got(None);
    if p.name !in fields then absent
    else
      var raw := fields[p.name];
      if raw.JNull? then
        match p.nulls
        case AsAbsent => absent
        case Rejected => Bad({NullRejected(path)})
        case Accepted => Applied(p, path, ZeroOf(p.shape))
      else if Blank(p, raw) then Bad({Missing(path)})
      else
        var fault := SizeFaultOf(p, raw);
        if fault.Some? then Bad({BadSize(path, fault.value)})
        else
          match Parse(p.shape, caller, path, raw)
          case Failed(errors) => Bad(errors)
          case Parsed(value) => Applied(p, path, value)
  }

  /** A required string of nothing but whitespace is missing. */
  predicate Blank(p: Parameter, raw: Json) {
    p.required && WireTypeOf(p.shape) == StringType && raw.JString? && TrimSpace(raw.s) == ""
  }

  function Applied(p: Parameter, path: string, value: Value): ParamOutcome {
    if p.parser.None? then Got(Some(value))
    else
      match p.parser.value(path, value)
      case Ok(parsed) => Got(Some(parsed))
      case Err(fault) => Bad({ErrorOf(path, fault)})
  }
}
