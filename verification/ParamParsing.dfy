/** The parser itself (param/object.go, parameter.go, discriminator.go,
    shape.go): its loops, against what parsing means, and what success promises
    to an object's own parser. */
module ParamParsing {
  import opened Wrappers
  import opened CallerSets
  import opened Text
  import opened Decimals
  import opened JsonTrees
  import opened ParamShapes
  import opened ParamRestriction
  import opened ParamMeaning
  import Rules = PresenceRules

  /** One run of the parser: the value, or one of the possible errors. */
  ghost predicate Meets(r: Result<Value, Error>, outcome: Outcome) {
    match outcome
    case Parsed(value) => r == Ok(value)
    case Failed(errors) => r.Err? && r.error in errors
  }

  ghost predicate MeetsParam(r: Result<Option<Value>, Error>, outcome: ParamOutcome) {
    match outcome
    case Got(value) => r == Ok(value)
    case Bad(errors) => r.Err? && r.error in errors
  }

  // ------------------------------------------------------------- definition

  datatype Panic = DuplicateParameter(name: string) | UnknownParameter(name: string) | ParserRequired

  ghost predicate DistinctParams(params: seq<Parameter>) {
    forall i, j :: 0 <= i < j < |params| ==> params[i].name != params[j].name
  }

  ghost predicate RuleNamesDeclared(rules: seq<Rules.PresenceRule>, params: seq<Parameter>) {
    forall i, j :: 0 <= i < |rules| && 0 <= j < |rules[i].names| ==> Declared(params, rules[i].names[j]).Some?
  }

  /** `names` answers as the parameter list does. */
  ghost predicate Indexes(names: map<string, Parameter>, params: seq<Parameter>) {
    forall name ::
      (name in names <==> Declared(params, name).Some?) &&
      (name in names ==> names[name] == params[Declared(params, name).value])
  }

  /** An object definition under construction. */
  class Definition {
    var params: seq<Parameter>
    var rules: seq<Rules.PresenceRule>
    var parser: Option<Values -> Result<Value, Fault>>
    var names: map<string, Parameter>

    constructor ()
      ensures params == [] && rules == [] && parser == None && names == map[]
    {
      params, rules, parser, names := [], [], None, map[];
    }

    method AddAcceptedParam(p: Parameter)
      modifies this`params
      ensures params == old(params) + [p]
    {
      params := params + [p];
    }

    method AddRule(rule: Rules.PresenceRule)
      requires Rules.Normal(rule)
      modifies this`rules
      ensures rules == old(rules) + [rule]
    {
      rules := rules + [rule];
    }

    /** A group adds its parameters and then its rule. */
    method AddGroup(group: seq<Parameter>, rule: Rules.PresenceRule)
      requires Rules.Normal(rule)
      modifies this`params, this`rules
      ensures params == old(params) + group && rules == old(rules) + [rule]
    {
      for i := 0 to |group|
        invariant params == old(params) + group[..i] && rules == old(rules)
      {
        AddAcceptedParam(group[i]);
        assert group[..i + 1] == group[..i] + [group[i]];
      }
      assert group[..|group|] == group;
      AddRule(rule);
    }

    /** Rebuilds the name index, or panics on a definition that does not make
        sense: on the first repeated name, then on the first unknown name in a
        rule, then on a missing parser. */
    method Normalize() returns (panic: Option<Panic>)
      modifies this`names
      ensures panic.None? <==>
        DistinctParams(params) && RuleNamesDeclared(rules, params) && (params != [] ==> parser.Some?)
      ensures panic.None? ==> Indexes(names, params)
      ensures panic.Some? ==> DefinitionRefused(params, rules, panic.value)
    {
      hide DistinctParams, Indexes, RuleNamesDeclared, DefinitionRefused, Rules.Normal, FirstRepeated, FirstUnknown;
      IndexNone(params);
      names := map[];
      for i := 0 to |params|
        invariant DistinctParams(params[..i]) && Indexes(names, params[..i])
      {
        IndexOne(names, params, i);
        if params[i].name in names {
          RefusedRepeated(params, rules, params[i].name);
          return Some(DuplicateParameter(params[i].name));
        }
        names := names[params[i].name := params[i]];
      }
      assert params[..|params|] == params;
      for i := 0 to |rules|
        invariant Indexes(names, params) && RuleNamesDeclared(rules[..i], params)
      {
        var unknown := FindUnknown(names, params, rules[i].names);
        RuleDeclared(rules, i, params, unknown);
        if unknown.Some? {
          RefusedUnknown(params, rules, unknown.value);
          return Some(UnknownParameter(unknown.value));
        }
      }
      assert rules[..|rules|] == rules;
      if |params| > 0 && parser.None? {
        RefusedParser(params, rules);
        return Some(ParserRequired);
      }
      return None;
    }
  }

  /** The first parameter that repeats a name repeats this one. */
  ghost predicate FirstRepeated(params: seq<Parameter>, name: string) {
    exists i :: 0 <= i < |params| && params[i].name == name && DistinctParams(params[..i]) && Declared(params[..i], name).Some?
  }

  /** The first rule that names an unknown parameter names this one first. */
  ghost predicate FirstUnknown(rules: seq<Rules.PresenceRule>, params: seq<Parameter>, name: string) {
    exists i :: 0 <= i < |rules| && RuleNamesDeclared(rules[..i], params) && FirstUndeclared(rules[i].names, params, name)
  }

  ghost predicate FirstUndeclared(names: seq<string>, params: seq<Parameter>, name: string) {
    exists j :: 0 <= j < |names| && names[j] == name && Declared(params, name).None? &&
      forall k :: 0 <= k < j ==> Declared(params, names[k]).Some?
  }

  ghost predicate DefinitionRefused(params: seq<Parameter>, rules: seq<Rules.PresenceRule>, panic: Panic) {
    if !DistinctParams(params) then panic.DuplicateParameter? && FirstRepeated(params, panic.name)
    else if !RuleNamesDeclared(rules, params) then panic.UnknownParameter? && FirstUnknown(rules, params, panic.name)
    else panic == ParserRequired
  }

  lemma RefusedRepeated(params: seq<Parameter>, rules: seq<Rules.PresenceRule>, name: string)
    requires FirstRepeated(params, name)
    ensures !DistinctParams(params) && DefinitionRefused(params, rules, DuplicateParameter(name))
  {
    var i :| 0 <= i < |params| && params[i].name == name && DistinctParams(params[..i]) && Declared(params[..i], name).Some?;
    var j := Declared(params[..i], name).value;
    assert params[j].name == params[i].name;
  }

  lemma RefusedUnknown(params: seq<Parameter>, rules: seq<Rules.PresenceRule>, name: string)
    requires DistinctParams(params) && FirstUnknown(rules, params, name)
    ensures !RuleNamesDeclared(rules, params) && DefinitionRefused(params, rules, UnknownParameter(name))
  {
    hide DistinctParams, Declared;
  }

  lemma RefusedParser(params: seq<Parameter>, rules: seq<Rules.PresenceRule>)
    requires DistinctParams(params) && RuleNamesDeclared(rules, params)
    ensures DefinitionRefused(params, rules, ParserRequired)
  {
    hide DistinctParams, RuleNamesDeclared;
  }

  lemma IndexNone(params: seq<Parameter>)
    ensures DistinctParams([]) && Indexes(map[], []) && RuleNamesDeclared([], params)
  {
  }

  /** One more parameter: it repeats a name, or the index grows by it. */
  lemma IndexOne(names: map<string, Parameter>, params: seq<Parameter>, i: nat)
    requires i < |params| && DistinctParams(params[..i]) && Indexes(names, params[..i])
    ensures var p := params[i];
            if p.name in names then FirstRepeated(params, p.name)
            else DistinctParams(params[..i + 1]) && Indexes(names[p.name := p], params[..i + 1])
  {
    var p, head, more := params[i], params[..i], params[..i + 1];
    assert more[..i] == head;
    forall j | 0 <= j < i ensures p.name !in names ==> params[j].name != p.name { assert head[j] == params[j]; }
  }

  /** The first name that the index does not know. */
  method FindUnknown(names: map<string, Parameter>, params: seq<Parameter>, ruleNames: seq<string>)
    returns (unknown: Option<string>)
    requires Indexes(names, params)
    ensures unknown.None? ==> forall k :: 0 <= k < |ruleNames| ==> Declared(params, ruleNames[k]).Some?
    ensures unknown.Some? ==> FirstUndeclared(ruleNames, params, unknown.value)
  {
    hide Declared;
    for j := 0 to |ruleNames|
      invariant forall k :: 0 <= k < j ==> Declared(params, ruleNames[k]).Some?
    {
      if ruleNames[j] !in names { return Some(ruleNames[j]); }
    }
    return None;
  }

  lemma RuleDeclared(rules: seq<Rules.PresenceRule>, i: nat, params: seq<Parameter>, unknown: Option<string>)
    requires i < |rules| && RuleNamesDeclared(rules[..i], params)
    requires unknown.None? ==> forall k :: 0 <= k < |rules[i].names| ==> Declared(params, rules[i].names[k]).Some?
    requires unknown.Some? ==> FirstUndeclared(rules[i].names, params, unknown.value)
    ensures if unknown.None? then RuleNamesDeclared(rules[..i + 1], params) else FirstUnknown(rules, params, unknown.value)
  {
    hide Declared, FirstUndeclared;
    assert rules[..i + 1] == rules[..i] + [rules[i]];
  }

  // ----------------------------------------------------------------- parser

  /** The index over the parameters that `normalize` leaves behind. */
  method IndexParams(params: seq<Parameter>) returns (names: map<string, Parameter>)
    ensures Indexes(names, params)
  {
    names := map[];
    for i := 0 to |params|
      invariant Indexes(names, params[..i])
    {
      assert params[..i + 1][..i] == params[..i];
      names := names[params[i].name := params[i]];
    }
    assert params[..|params|] == params;
  }

  /** Looks at the keys in any order and stops at the first that offends. */
  method CheckKeys(params: seq<Parameter>, caller: Caller, path: string, fields: map<string, Json>)
    returns (err: Option<Error>)
    ensures err.None? <==> Offending(params, caller, fields) == {}
    ensures err.Some? ==> exists k :: k in Offending(params, caller, fields) && err.value == Unexpected(JoinPath(path, k))
  {
    hide JoinPath, Declared, Available;
    var names := IndexParams(params);
    var left := fields.Keys;
    while left != {}
      invariant left <= fields.Keys
      invariant forall k :: k in fields.Keys - left ==> k !in Offending(params, caller, fields)
      decreases |left|
    {
      var name :| name in left;
      left := left - {name};
      if name !in names || (!Available(names[name], caller) && Present(names[name], fields[name])) {
        assert name in Offending(params, caller, fields);
        return Some(Unexpected(JoinPath(path, name)));
      }
    }
    assert Offending(params, caller, fields) == {};
    return None;
  }

  method ParseShape(shape: Shape, caller: Caller, path: string, raw: Json) returns (r: Result<Value, Error>)
    ensures Meets(r, Parse(shape, caller, path, raw))
    ensures Normal(shape) ==> Explains(r, shape, caller, path, raw)
    decreases shape, 1, 0
  {
    hide ParseItems, ParseObject, JoinPath, ItemPath, Gathered, Normal, Reads, Blames, ItemsRead, ItemsBlame, IntegerText;
    if Normal(shape) { ParseMeans(shape, caller, path, raw); }
    match shape
    case AnyValue => return Ok(Wire(raw));
    case StringValue => return if raw.JString? then Ok(Wire(raw)) else Err(TypeMismatch(path, StringType));
    case IntegerValue =>
      if raw.JNumber? {
        var n := ParseInt64(raw.literal);
        if n.Some? { return Ok(Number(n.value)); }
      }
      return Err(TypeMismatch(path, IntegerType));
    case BooleanValue => return if raw.JBool? then Ok(Wire(raw)) else Err(TypeMismatch(path, BoolType));
    case EnumValue(values, trims) =>
      if !raw.JString? { return Err(TypeMismatch(path, StringType)); }
      var value := raw.s;
      if trims { value := TrimSpace(value); }
      if value !in values { return Err(NotAllowed(path, value, values)); }
      return Ok(Wire(JString(value)));
    case PlainArray =>
      if !raw.JArray? { return Err(TypeMismatch(path, ArrayType)); }
      return Ok(List(seq(|raw.items|, i requires 0 <= i < |raw.items| => Wire(raw.items[i]))));
    case ArrayOf(item) =>
      if !raw.JArray? { return Err(TypeMismatch(path, ArrayType)); }
      r := ParseArray(item, caller, path, raw.items);
    case MapOf(value) =>
      if !raw.JObject? { return Err(TypeMismatch(path, ObjectType)); }
      r := ParseMap(value, caller, path, raw.fields);
    case ObjectOf(def) =>
      if !raw.JObject? { return Err(TypeMismatch(path, ObjectType)); }
      r := ParseFields(def, caller, path, raw.fields);
    case Discriminated(key, variants, _) =>
      if !raw.JObject? { return Err(TypeMismatch(path, ObjectType)); }
      var keyPath := JoinPath(path, key);
      if key !in raw.fields || raw.fields[key].JNull? { return Err(Missing(keyPath)); }
      if !raw.fields[key].JString? { return Err(TypeMismatch(keyPath, StringType)); }
      var value := raw.fields[key].s;
      var i := VariantFor(variants, value);
      if i.None? { return Err(NotAllowed(keyPath, value, VariantValues(variants))); }
      var rest := ObjectWithoutKey(raw.fields, key);
      r := ParseShape(variants[i.value].shape, caller, path, JObject(rest));
  }

  method ObjectWithoutKey(fields: map<string, Json>, key: string) returns (rest: map<string, Json>)
    ensures rest == fields - {key}
  {
    rest := map[];
    var left := fields.Keys;
    while left != {}
      invariant left <= fields.Keys
      invariant rest == map k | k in fields && k !in left && k != key :: fields[k]
      decreases |left|
    {
      var name :| name in left;
      left := left - {name};
      if name != key { rest := rest[name := fields[name]]; }
    }
  }

  method ParseArray(item: Shape, caller: Caller, path: string, items: seq<Json>) returns (r: Result<Value, Error>)
    ensures Meets(r, ParseItems(item, caller, path, items))
    ensures Normal(item) ==> ExplainsItems(r, item, caller, path, items)
    decreases item, 2, 0
  {
    hide Parse, ItemPath, Normal, Reads, Blames, ItemsRead, ItemsBlame;
    if Normal(item) { ItemsMean(item, caller, path, items); }
    var values := [];
    for i := 0 to |items|
      invariant ParseItems(item, caller, path, items[..i]) == Parsed(List(values))
    {
      assert items[..i + 1][..i] == items[..i];
      var value := ParseShape(item, caller, ItemPath(path, i), items[i]);
      if value.Err? {
        StoppedItems(item, caller, path, items, i + 1);
        return value;
      }
      values := values + [value.value];
    }
    assert items[..|items|] == items;
    return Ok(List(values));
  }

  /** A failure among the first items is the failure of them all. */
  lemma {:induction false} StoppedItems(item: Shape, caller: Caller, path: string, items: seq<Json>, i: nat)
    requires i <= |items| && ParseItems(item, caller, path, items[..i]).Failed?
    ensures ParseItems(item, caller, path, items) == ParseItems(item, caller, path, items[..i])
    decreases |items|
  {
    hide Parse, ItemPath;
    if i == |items| {
      assert items[..i] == items;
    } else {
      var n := |items| - 1;
      assert items[..n][..i] == items[..i];
      StoppedItems(item, caller, path, items[..n], i);
    }
  }

  /** Entries in any order, up to the first that fails. */
  method ParseMap(value: Shape, caller: Caller, path: string, fields: map<string, Json>) returns (r: Result<Value, Error>)
    ensures Meets(r, Gathered(Entries(value, caller, path, fields)))
    decreases value, 2, 0
  {
    hide Parse, JoinPath, Gathered;
    ghost var outcomes := Entries(value, caller, path, fields);
    var parsed: map<string, Value> := map[];
    var left := fields.Keys;
    while left != {}
      invariant left <= fields.Keys
      invariant parsed.Keys == fields.Keys - left
      invariant forall k :: k in parsed ==> outcomes[k] == Parsed(parsed[k])
      decreases |left|
    {
      var name :| name in left;
      left := left - {name};
      var one := ParseShape(value, caller, JoinPath(path, name), fields[name]);
      if one.Err? {
        GatheredFailure(outcomes, name, one.error);
        return one;
      }
      parsed := parsed[name := one.value];
    }
    GatheredSuccess(outcomes, parsed);
    return Ok(Dict(parsed));
  }

  lemma GatheredFailure(outcomes: map<string, Outcome>, k: string, e: Error)
    requires k in outcomes && outcomes[k].Failed? && e in outcomes[k].errors
    ensures Gathered(outcomes).Failed? && e in Gathered(outcomes).errors
  {
  }

  lemma GatheredSuccess(outcomes: map<string, Outcome>, parsed: map<string, Value>)
    requires parsed.Keys == outcomes.Keys && forall k :: k in parsed ==> outcomes[k] == Parsed(parsed[k])
    ensures Gathered(outcomes) == Parsed(Dict(parsed))
  {
    assert (map k | k in outcomes :: outcomes[k].value) == parsed;
  }

  /** `parseObject`: keys, then parameters, then rules, then the object's parser. */
  method ParseFields(def: ObjectDef, caller: Caller, path: string, fields: map<string, Json>)
    returns (r: Result<Value, Error>)
    ensures Meets(r, ParseObject(def, caller, path, fields))
    decreases def, 1, 0
  {
    hide JoinPath, Offending, ParseParams, FirstViolation, PathOrBody;
    var unexpected := CheckKeys(def.params, caller, path, fields);
    if unexpected.Some? { return Err(unexpected.value); }
    var params: map<string, Option<Value>> := map[];
    NoParams(caller, path, fields);
    for i := 0 to |def.params|
      invariant ParseParams(def.params[..i], caller, path, fields) == All(params)
    {
      var p := def.params[i];
      assert def.params[..i + 1] == def.params[..i] + [p];
      LastParam(def.params[..i], p, caller, path, fields);
      if Available(p, caller) {
        var value := ParseMember(p, caller, path, fields);
        if value.Err? {
          StoppedParams(def.params, caller, path, fields, i + 1);
          return Err(value.error);
        }
        params := params[p.name := value.value];
      }
    }
    assert def.params[..|def.params|] == def.params;
    var violation := CheckRules(def.rules, Presence(params));
    if violation.Some? { return Err(BrokenRule(path, violation.value)); }
    var value := def.parser(Values(path, params));
    match value
    case Ok(parsed) => return Ok(parsed);
    case Err(fault) => return Err(ErrorOf(PathOrBody(path), fault));
  }

  lemma {:induction false} StoppedParams(
    params: seq<Parameter>, caller: Caller, path: string, fields: map<string, Json>, i: nat)
    requires i <= |params| && ParseParams(params[..i], caller, path, fields).Stopped?
    ensures ParseParams(params, caller, path, fields) == ParseParams(params[..i], caller, path, fields)
    decreases |params|
  {
    hide ParseParameter, Available;
    if i == |params| {
      assert params[..i] == params;
    } else {
      var n := |params| - 1;
      assert params[..n][..i] == params[..i];
      StoppedParams(params[..n], caller, path, fields, i);
    }
  }

  method CheckRules(rules: seq<Rules.PresenceRule>, presence: map<string, bool>) returns (violation: Option<Rules.RuleError>)
    ensures violation == FirstViolation(rules, presence)
  {
    hide Rules.Judge;
    for i := 0 to |rules|
      invariant FirstViolation(rules[..i], presence) == None
    {
      assert rules[..i + 1][..i] == rules[..i];
      violation := Rules.Apply(rules[i], presence);
      if violation.Some? {
        StoppedRules(rules, presence, i + 1);
        return;
      }
    }
    assert rules[..|rules|] == rules;
    return None;
  }

  lemma {:induction false} StoppedRules(rules: seq<Rules.PresenceRule>, presence: map<string, bool>, i: nat)
    requires i <= |rules| && FirstViolation(rules[..i], presence).Some?
    ensures FirstViolation(rules, presence) == FirstViolation(rules[..i], presence)
    decreases |rules|
  {
    hide Rules.Judge;
    if i == |rules| {
      assert rules[..i] == rules;
    } else {
      var n := |rules| - 1;
      assert rules[..n][..i] == rules[..i];
      StoppedRules(rules[..n], presence, i);
    }
  }

  /** `parseParameter`. */
  method ParseMember(p: Parameter, caller: Caller, parent: string, fields: map<string, Json>)
    returns (r: Result<Option<Value>, Error>)
    ensures MeetsParam(r, ParseParameter(p, caller, parent, fields))
    ensures Normal(p.shape) ==> ExplainsMember(r, p, caller, parent, fields)
    decreases p, 0, 0
  {
    hide Parse, JoinPath, TrimSpace, SizeFaultOf, Normal, Reads, Blames, MemberReads, MemberBlames;
    if Normal(p.shape) { MemberMeans(p, caller, parent, fields); }
    var path := JoinPath(parent, p.name);
    if p.name !in fields { return if p.required then Err(Missing(path)) else Ok(None); }
    var raw := fields[p.name];
    if raw.JNull? {
      match p.nulls {
        case AsAbsent => return if p.required then Err(Missing(path)) else Ok(None);
        case Rejected => return Err(NullRejected(path));
        case Accepted =>
          r := ApplyParser(p, path, ZeroOf(p.shape));
          return;
      }
    }
    if p.required && WireTypeOf(p.shape) == StringType {
      if raw.JString? && TrimSpace(raw.s) == "" { return Err(Missing(path)); }
    }
    var fault := SizeFaultOf(p, raw);
    if fault.Some? { return Err(BadSize(path, fault.value)); }
    var value := ParseShape(p.shape, caller, path, raw);
    if value.Err? { return Err(value.error); }
    r := ApplyParser(p, path, value.value);
  }

  method ApplyParser(p: Parameter, path: string, value: Value) returns (r: Result<Option<Value>, Error>)
    ensures MeetsParam(r, Applied(p, path, value))
  {
    if p.parser.Some? {
      var parsed := p.parser.value(path, value);
      match parsed
      case Ok(made) => return Ok(Some(made));
      case Err(fault) => return Err(ErrorOf(path, fault));
    } else {
      return Ok(Some(value));
    }
  }

  // --------------------------------------------------------------- promises

  /** What the parsed parameters say of the input, parameter by parameter. */
  ghost predicate Faithful(
    params: seq<Parameter>, caller: Caller, fields: map<string, Json>, parsed: map<string, Option<Value>>)
  {
    forall i :: 0 <= i < |params| && Available(params[i], caller) ==>
      var p := params[i];
      p.name in parsed &&
      (parsed[p.name].Some? <==> p.name in fields && Present(p, fields[p.name])) &&
      (p.required ==> parsed[p.name].Some?)
  }

  lemma {:induction false} ParsedFaithfully(params: seq<Parameter>, caller: Caller, path: string, fields: map<string, Json>)
    requires DistinctParams(params) && ParseParams(params, caller, path, fields).All?
    ensures Faithful(params, caller, fields, ParseParams(params, caller, path, fields).params)
  {
    hide ParseParams, ParseParameter, Available;
    if params != [] {
      var n := |params| - 1;
      assert params == params[..n] + [params[n]];
      LastParam(params[..n], params[n], caller, path, fields);
      ParsedFaithfully(params[..n], caller, path, fields);
      MemberFaithful(params[n], caller, path, fields);
      var all := ParseParams(params, caller, path, fields).params;
      forall i | 0 <= i < n && Available(params[i], caller)
        ensures var p := params[i];
                p.name in all &&
                (all[p.name].Some? <==> p.name in fields && Present(p, fields[p.name])) &&
                (p.required ==> all[p.name].Some?)
      {
        assert params[..n][i] == params[i] && params[i].name != params[n].name;
      }
    }
  }

  lemma MemberFaithful(p: Parameter, caller: Caller, path: string, fields: map<string, Json>)
    ensures var r := ParseParameter(p, caller, path, fields);
            r.Got? ==>
              (r.value.Some? <==> p.name in fields && Present(p, fields[p.name])) && (p.required ==> r.value.Some?)
  {
    hide Parse, JoinPath, TrimSpace, SizeFaultOf;
  }

  /** When an object parses, its own parser is handed exactly the available
      parameters: every required one is there, one is present exactly when the
      input has it, every rule holds of the visible names, and no key was sent
      that is not declared, or that is present and not available. */
  lemma ParsedObjectKeepsItsPromises(def: ObjectDef, caller: Caller, path: string, fields: map<string, Json>)
    returns (parsed: map<string, Option<Value>>)
    requires DistinctParams(def.params) && ParseObject(def, caller, path, fields).Parsed?
    ensures def.parser(Values(path, parsed)) == Ok(ParseObject(def, caller, path, fields).value)
    ensures parsed.Keys == Visible(def.params, caller)
    ensures Faithful(def.params, caller, fields, parsed)
    ensures forall i :: 0 <= i < |def.rules| ==> RuleHolds(def.rules[i], Presence(parsed))
    ensures forall k :: k in fields ==>
      exists i :: 0 <= i < |def.params| && def.params[i].name == k &&
        (Available(def.params[i], caller) || !Present(def.params[i], fields[k]))
  {
    hide ParseParams, Available, Visible, Faithful, FirstViolation, JoinPath, PathOrBody, Declared;
    parsed := ParseParams(def.params, caller, path, fields).params;
    ParsedNames(def.params, caller, path, fields);
    ParsedFaithfully(def.params, caller, path, fields);
    NoViolation(def.rules, Presence(parsed));
    assert forall k :: k in fields ==> k !in Offending(def.params, caller, fields);
  }

  /** Enough of the visible names are present, and not too many. */
  ghost predicate RuleHolds(rule: Rules.PresenceRule, presence: map<string, bool>) {
    Rules.Distinct(rule.names) ==>
      var visible, present := |set x | x in rule.names && x in presence|,
                              |set x | x in rule.names && x in presence && presence[x]|;
      Rules.Least(rule.minPresent, visible) <= present && (rule.maxPresent == 0 || present <= rule.maxPresent)
  }

  lemma {:induction false} NoViolation(rules: seq<Rules.PresenceRule>, presence: map<string, bool>)
    requires FirstViolation(rules, presence).None?
    ensures forall i :: 0 <= i < |rules| ==> RuleHolds(rules[i], presence)
  {
    hide Rules.Judge, RuleHolds, Rules.Distinct;
    if rules != [] {
      var n := |rules| - 1;
      NoViolation(rules[..n], presence);
      RulePassed(rules[n], presence);
      forall i | 0 <= i < n ensures RuleHolds(rules[i], presence) { assert rules[..n][i] == rules[i]; }
    }
  }

  lemma RulePassed(rule: Rules.PresenceRule, presence: map<string, bool>)
    requires Rules.Judge(rule, presence).None?
    ensures RuleHolds(rule, presence)
  {
    hide Rules.Judge, Rules.Distinct;
    if Rules.Distinct(rule.names) { Rules.JudgeCounts(rule, presence); }
  }
}
