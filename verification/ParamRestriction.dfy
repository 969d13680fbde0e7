/** What a caller cannot use might as well not be declared: parsing for a caller
    is parsing with the caller's unavailable parameters deleted. */
module ParamRestriction {
  import opened Wrappers
  import opened CallerSets
  import opened Text
  import opened JsonTrees
  import opened ParamShapes
  import Rules = PresenceRules

  // ------------------------------------------------------------ restricting

  /** The names of the parameters the caller may use. */
  function Visible(params: seq<Parameter>, caller: Caller): set<string> {
    if params == [] then {}
    else
      var n := |params| - 1;
      Visible(params[..n], caller) + if Available(params[n], caller) then {params[n].name} else {}
  }

  /** Deletes the parameters the caller may not use, at every depth, their names
      from the rules, and caps each rule's minimum at the names that remain. */
  function Without(shape: Shape, caller: Caller): Shape
    decreases shape, 0
  {
    match shape
    case ArrayOf(item) => ArrayOf(Without(item, caller))
    case MapOf(value) => MapOf(Without(value, caller))
    case ObjectOf(def) => ObjectOf(RestrictedDef(def, caller))
    case Discriminated(key, variants, zero) =>
      Discriminated(key, seq(|variants|, i requires 0 <= i < |variants| =>
        Variant(variants[i].value, Without(variants[i].shape, caller))), zero)
    case _ => shape
  }

  function RestrictedDef(def: ObjectDef, caller: Caller): ObjectDef
    decreases def, 0
  {
    ObjectDef(RestrictedParams(def.params, caller),
              RestrictedRules(def.rules, Visible(def.params, caller)),
              def.parser, def.zero)
  }

  function RestrictedRules(rules: seq<Rules.PresenceRule>, visible: set<string>): (r: seq<Rules.PresenceRule>)
    ensures |r| == |rules| && forall i :: 0 <= i < |r| ==> r[i] == Rules.VisibleRule(rules[i], visible)
  {
    seq(|rules|, i requires 0 <= i < |rules| => Rules.VisibleRule(rules[i], visible))
  }

  function RestrictedParams(params: seq<Parameter>, caller: Caller): seq<Parameter>
    decreases params, 0
  {
    if params == [] then []
    else
      var n := |params| - 1;
      var p := params[n];
      RestrictedParams(params[..n], caller) +
      if Available(p, caller) then [p.(shape := Without(p.shape, caller))] else []
  }

  /** Removes, at every depth, the nulls that a parameter the caller may not use treats as absent. */
  function Pruned(shape: Shape, caller: Caller, raw: Json): (r: Json)
    ensures raw.JObject? ==> r.JObject? && r.fields.Keys <= raw.fields.Keys
    ensures !raw.JObject? && !raw.JArray? ==> r == raw
    ensures raw.JArray? ==> r.JArray? && |r.items| == |raw.items|
    decreases shape
  {
    match shape
    case ArrayOf(item) =>
      if raw.JArray? then JArray(seq(|raw.items|, i requires 0 <= i < |raw.items| => Pruned(item, caller, raw.items[i]))) else raw
    case MapOf(value) =>
      if raw.JObject? then JObject(map k | k in raw.fields :: Pruned(value, caller, raw.fields[k])) else raw
    case ObjectOf(def) =>
      if raw.JObject? then
        JObject(map k | k in raw.fields && !Ignored(def.params, caller, k, raw.fields[k]) ::
          match Declared(def.params, k)
          case None => raw.fields[k]
          case Some(i) => Pruned(def.params[i].shape, caller, raw.fields[k]))
      else raw
    case Discriminated(key, variants, _) =>
      if raw.JObject? && key in raw.fields && raw.fields[key].JString? && VariantFor(variants, raw.fields[key].s).Some? then
        var i := VariantFor(variants, raw.fields[key].s).value;
        JObject(Pruned(variants[i].shape, caller, JObject(raw.fields - {key})).fields[key := raw.fields[key]])
      else raw
    case _ => raw
  }

  /** A null for a parameter the caller may not use, and which treats null as absent. */
  predicate Ignored(params: seq<Parameter>, caller: Caller, name: string, raw: Json) {
    match Declared(params, name)
    case None => false
    case Some(i) => !Available(params[i], caller) && !Present(params[i], raw)
  }

  /** What `normalize` checks: parameter names are unique within an object. */
  ghost predicate Normal(shape: Shape)
    decreases shape, 0
  {
    match shape
    case ArrayOf(item) => Normal(item)
    case MapOf(value) => Normal(value)
    case ObjectOf(def) => NormalParams(def.params)
    case Discriminated(_, variants, _) => forall i :: 0 <= i < |variants| ==> Normal(variants[i].shape)
    case _ => true
  }

  ghost predicate NormalParams(params: seq<Parameter>)
    decreases params, 1
  {
    && (forall i, j :: 0 <= i < j < |params| ==> params[i].name != params[j].name)
    && (forall i :: 0 <= i < |params| ==> Normal(params[i].shape))
  }

  /** Wherever parsing comes to an available parameter's size bounds, they judge
      the value and the pruned value alike. Only the selected variant of a
      discriminated object is parsed, and nothing after the first failure in a
      list of items or parameters. */
  ghost predicate SizesAgree(shape: Shape, caller: Caller, path: string, raw: Json)
    decreases shape, 0, 0
  {
    match shape
    case ArrayOf(item) => raw.JArray? ==> ItemSizesAgree(item, caller, path, raw.items)
    case MapOf(value) =>
      raw.JObject? ==> forall k :: k in raw.fields ==> SizesAgree(value, caller, JoinPath(path, k), raw.fields[k])
    case ObjectOf(def) =>
      raw.JObject? && Offending(def.params, caller, raw.fields) == {} ==>
        MemberSizesAgree(def.params, caller, path, raw.fields)
    case Discriminated(key, variants, _) =>
      raw.JObject? && key in raw.fields && raw.fields[key].JString? && VariantFor(variants, raw.fields[key].s).Some? ==>
        SizesAgree(variants[VariantFor(variants, raw.fields[key].s).value].shape, caller, path, JObject(raw.fields - {key}))
    case _ => true
  }

  ghost predicate ItemSizesAgree(item: Shape, caller: Caller, path: string, items: seq<Json>)
    decreases item, 1, |items|
  {
    items == [] ||
    (var n := |items| - 1;
     && ItemSizesAgree(item, caller, path, items[..n])
     && (ParseItems(item, caller, path, items[..n]).Parsed? ==> SizesAgree(item, caller, ItemPath(path, n), items[n])))
  }

  ghost predicate MemberSizesAgree(params: seq<Parameter>, caller: Caller, path: string, fields: map<string, Json>)
    decreases params, 1, 0
  {
    params == [] ||
    (var n := |params| - 1;
     && MemberSizesAgree(params[..n], caller, path, fields)
     && (ParseParams(params[..n], caller, path, fields).All? && Available(params[n], caller) ==>
           MemberSizeAgrees(params[n], caller, path, fields)))
  }

  /** Of one available parameter: its own bounds, and, if they accept the value, those below. */
  ghost predicate MemberSizeAgrees(p: Parameter, caller: Caller, path: string, fields: map<string, Json>)
    decreases p, 1, 0
  {
    p.name in fields && !fields[p.name].JNull? && !Blank(p, fields[p.name]) ==>
      var raw := fields[p.name];
      && SizeFaultOf(p, raw) == SizeFaultOf(p, Pruned(p.shape, caller, raw))
      && (SizeFaultOf(p, raw) == None ==> SizesAgree(p.shape, caller, JoinPath(path, p.name), raw))
  }

  /** The caller may use every parameter there is, at every depth. */
  ghost predicate AllAvailable(shape: Shape, caller: Caller)
    decreases shape, 0
  {
    match shape
    case ArrayOf(item) => AllAvailable(item, caller)
    case MapOf(value) => AllAvailable(value, caller)
    case ObjectOf(def) => ParamsAvailable(def.params, caller)
    case Discriminated(_, variants, _) => forall i :: 0 <= i < |variants| ==> AllAvailable(variants[i].shape, caller)
    case _ => true
  }

  ghost predicate ParamsAvailable(params: seq<Parameter>, caller: Caller)
    decreases params, 1
  {
    forall i :: 0 <= i < |params| ==> Allows(params[i].availability, caller) && AllAvailable(params[i].shape, caller)
  }

  /** Deletion leaves no parameter that the caller may not use. */
  lemma {:induction false} WithoutLeavesAvailable(shape: Shape, caller: Caller)
    ensures AllAvailable(Without(shape, caller), caller)
    decreases shape, 0
  {
    match shape
    case ArrayOf(item) => WithoutLeavesAvailable(item, caller);
    case MapOf(value) => WithoutLeavesAvailable(value, caller);
    case ObjectOf(def) => RestrictedAllAvailable(def.params, caller);
    case Discriminated(_, variants, _) =>
      forall i | 0 <= i < |variants| ensures AllAvailable(Without(variants[i].shape, caller), caller) {
        WithoutLeavesAvailable(variants[i].shape, caller);
      }
    case _ =>
  }

  lemma {:induction false} RestrictedAllAvailable(params: seq<Parameter>, caller: Caller)
    ensures ParamsAvailable(RestrictedParams(params, caller), caller)
    ensures ParamsAvailable(params, caller) ==> |RestrictedParams(params, caller)| == |params|
    decreases params, 1
  {
    hide AllAvailable, Without, Allows;
    if params != [] {
      var n := |params| - 1;
      RestrictedAllAvailable(params[..n], caller);
      WithoutLeavesAvailable(params[n].shape, caller);
    }
  }

  // ---------------------------------------------------------------- lemmas

  lemma RestrictedType(shape: Shape, caller: Caller)
    ensures WireTypeOf(Without(shape, caller)) == WireTypeOf(shape)
    ensures ZeroOf(Without(shape, caller)) == ZeroOf(shape)
  {
  }

  /** A name found among the parameters is found at its only place. */
  lemma {:induction false} DeclaredAt(params: seq<Parameter>, i: nat)
    requires i < |params| && forall j, k :: 0 <= j < k < |params| ==> params[j].name != params[k].name
    ensures Declared(params, params[i].name) == Some(i)
  {
    if i < |params| - 1 { DeclaredAt(params[..|params| - 1], i); }
  }

  /** The restricted parameters are the available ones. */
  lemma {:induction false} DeclaredRestricted(params: seq<Parameter>, caller: Caller, name: string)
    requires forall j, k :: 0 <= j < k < |params| ==> params[j].name != params[k].name
    ensures var d, r := Declared(params, name), Declared(RestrictedParams(params, caller), name);
            if d.Some? && Available(params[d.value], caller)
            then r.Some? &&
                 RestrictedParams(params, caller)[r.value] ==
                 params[d.value].(shape := Without(params[d.value].shape, caller))
            else r.None?
  {
    hide Without, Available;
    if params != [] {
      var n := |params| - 1;
      var p := params[n];
      var rest := RestrictedParams(params[..n], caller);
      DeclaredRestricted(params[..n], caller, name);
      if Available(p, caller) {
        var last := p.(shape := Without(p.shape, caller));
        assert RestrictedParams(params, caller) == rest + [last];
        assert (rest + [last])[..|rest|] == rest;
      } else {
        assert RestrictedParams(params, caller) == rest;
      }
      if p.name == name { NotDeclared(params[..n], name); }
    }
  }

  lemma NotDeclared(params: seq<Parameter>, name: string)
    requires forall i :: 0 <= i < |params| ==> params[i].name != name
    ensures Declared(params, name) == None
  {
  }

  lemma VariantRestricted(variants: seq<Variant>, caller: Caller, zero: Value, key: string, value: string)
    ensures var restricted := Without(Discriminated(key, variants, zero), caller).variants;
            |restricted| == |variants| && VariantFor(restricted, value) == VariantFor(variants, value) &&
            VariantValues(restricted) == VariantValues(variants)
  {
    var restricted := Without(Discriminated(key, variants, zero), caller).variants;
    forall i | 0 <= i < |variants| ensures restricted[i].value == variants[i].value {}
    VariantForSame(variants, restricted, value);
  }

  lemma {:induction false} VariantForSame(a: seq<Variant>, b: seq<Variant>, value: string)
    requires |a| == |b| && forall i :: 0 <= i < |a| ==> a[i].value == b[i].value
    ensures VariantFor(a, value) == VariantFor(b, value)
  {
    if a != [] { VariantForSame(a[..|a| - 1], b[..|b| - 1], value); }
  }

  lemma SameKeyOffends(params: seq<Parameter>, caller: Caller, name: string, raw: Json, pruned: Json)
    requires forall j, k :: 0 <= j < k < |params| ==> params[j].name != params[k].name
    ensures OffendingKey(RestrictedParams(params, caller), caller, name, pruned) <==>
            OffendingKey(params, caller, name, raw) || Ignored(params, caller, name, raw)
    ensures Ignored(params, caller, name, raw) ==> !OffendingKey(params, caller, name, raw)
  {
    hide Without, Available, Declared, RestrictedParams;
    DeclaredRestricted(params, caller, name);
    match Declared(params, name)
    case None =>
    case Some(i) => RestrictedAvailable(params[i], caller);
  }

  /** The same keys offend, before and after. */
  lemma SameOffending(def: ObjectDef, caller: Caller, fields: map<string, Json>)
    requires NormalParams(def.params)
    ensures Offending(RestrictedDef(def, caller).params, caller, Pruned(ObjectOf(def), caller, JObject(fields)).fields) ==
            Offending(def.params, caller, fields)
  {
    hide Without, NormalParams, Available, Declared, OffendingKey, Ignored;
    var restricted, pruned := RestrictedDef(def, caller).params, Pruned(ObjectOf(def), caller, JObject(fields)).fields;
    DistinctNames(def.params);
    forall k | k in fields
      ensures k in Offending(restricted, caller, pruned) <==> k in Offending(def.params, caller, fields)
    {
      SameKeyOffends(def.params, caller, k, fields[k], if k in pruned then pruned[k] else JNull);
    }
  }

  lemma DistinctNames(params: seq<Parameter>)
    requires NormalParams(params)
    ensures forall j, k :: 0 <= j < k < |params| ==> params[j].name != params[k].name
  {
  }

  /** A rule names what it names: invisible names make no difference to it. */
  lemma {:induction false} SameViolation(rules: seq<Rules.PresenceRule>, presence: map<string, bool>)
    ensures FirstViolation(RestrictedRules(rules, presence.Keys), presence) == FirstViolation(rules, presence)
  {
    hide Rules.Judge, Rules.VisibleRule;
    if rules != [] {
      var n := |rules| - 1;
      assert RestrictedRules(rules, presence.Keys)[..n] == RestrictedRules(rules[..n], presence.Keys);
      SameViolation(rules[..n], presence);
      Rules.VisibleRuleJudges(rules[n], presence);
    }
  }

  /** Parsed parameters are the available ones. */
  lemma {:induction false} ParsedNames(params: seq<Parameter>, caller: Caller, path: string, fields: map<string, Json>)
    requires ParseParams(params, caller, path, fields).All?
    ensures ParseParams(params, caller, path, fields).params.Keys == Visible(params, caller)
  {
    hide ParseParameter, Available;
    if params != [] {
      var n := |params| - 1;
      ParsedNames(params[..n], caller, path, fields);
    }
  }

  ghost predicate MembersPruned(
    params: seq<Parameter>, caller: Caller, fields: map<string, Json>, pruned: map<string, Json>)
  {
    forall i :: 0 <= i < |params| && Available(params[i], caller) ==> MemberPruned(params[i], caller, fields, pruned)
  }

  lemma ObjectMembersPruned(def: ObjectDef, caller: Caller, fields: map<string, Json>)
    requires NormalParams(def.params)
    ensures MembersPruned(def.params, caller, fields, Pruned(ObjectOf(def), caller, JObject(fields)).fields)
  {
    hide NormalParams, Available, Declared;
    DistinctNames(def.params);
    var pruned := Pruned(ObjectOf(def), caller, JObject(fields)).fields;
    forall i | 0 <= i < |def.params| && Available(def.params[i], caller)
      ensures MemberPruned(def.params[i], caller, fields, pruned)
    {
      DeclaredAt(def.params, i);
    }
  }

  // ------------------------------------------------------------- induction

  lemma {:induction false} RestrictedParses(shape: Shape, caller: Caller, path: string, raw: Json)
    requires Normal(shape) && SizesAgree(shape, caller, path, raw)
    ensures Parse(Without(shape, caller), caller, path, Pruned(shape, caller, raw)) == Parse(shape, caller, path, raw)
    decreases shape, 0, 0
  {
    hide NormalParams, MemberSizesAgree, ItemSizesAgree, ParseItems, ParseObject, Offending, JoinPath, Gathered, Ignored, Declared;
    match shape
    case ArrayOf(item) =>
      if raw.JArray? {
        RestrictedItems(item, caller, path, raw.items, Pruned(shape, caller, raw).items);
      }
    case MapOf(value) =>
      if raw.JObject? {
        var pruned := Pruned(shape, caller, raw).fields;
        forall k | k in raw.fields
          ensures Parse(Without(value, caller), caller, JoinPath(path, k), pruned[k]) ==
                  Parse(value, caller, JoinPath(path, k), raw.fields[k])
        {
          RestrictedParses(value, caller, JoinPath(path, k), raw.fields[k]);
        }
        assert Entries(Without(value, caller), caller, path, pruned) == Entries(value, caller, path, raw.fields);
      }
    case ObjectOf(def) =>
      if raw.JObject? { RestrictedObject(def, caller, path, raw.fields); }
    case Discriminated(key, variants, zero) =>
      if raw.JObject? && key in raw.fields && raw.fields[key].JString? {
        RestrictedVariant(key, variants, zero, caller, path, raw.fields);
      }
    case _ =>
  }

  lemma {:induction false} RestrictedVariant(
    key: string, variants: seq<Variant>, zero: Value, caller: Caller, path: string, fields: map<string, Json>)
    requires key in fields && fields[key].JString?
    requires forall i :: 0 <= i < |variants| ==> Normal(variants[i].shape)
    requires VariantFor(variants, fields[key].s).Some? ==>
      SizesAgree(variants[VariantFor(variants, fields[key].s).value].shape, caller, path, JObject(fields - {key}))
    ensures var shape, raw := Discriminated(key, variants, zero), JObject(fields);
            Parse(Without(shape, caller), caller, path, Pruned(shape, caller, raw)) == Parse(shape, caller, path, raw)
    decreases variants, 1, 0
  {
    hide Normal, SizesAgree, VariantFor;
    var shape, raw := Discriminated(key, variants, zero), JObject(fields);
    var value := fields[key].s;
    VariantRestricted(variants, caller, zero, key, value);
    match VariantFor(variants, value)
    case None => assert Pruned(shape, caller, raw) == raw;
    case Some(i) =>
      var inner := JObject(fields - {key});
      var below := Pruned(variants[i].shape, caller, inner);
      RestrictedParses(variants[i].shape, caller, path, inner);
      assert Pruned(shape, caller, raw) == JObject(below.fields[key := fields[key]]);
      assert below.fields[key := fields[key]] - {key} == below.fields;
  }

  lemma {:induction false} RestrictedItems(item: Shape, caller: Caller, path: string, items: seq<Json>, pruned: seq<Json>)
    requires Normal(item) && |pruned| == |items| && ItemSizesAgree(item, caller, path, items)
    requires forall i :: 0 <= i < |items| ==> pruned[i] == Pruned(item, caller, items[i])
    ensures ParseItems(Without(item, caller), caller, path, pruned) == ParseItems(item, caller, path, items)
    decreases item, 1, |items|
  {
    hide Normal, SizesAgree, Without, Pruned, Parse;
    if items != [] {
      var n := |items| - 1;
      RestrictedItems(item, caller, path, items[..n], pruned[..n]);
      if ParseItems(item, caller, path, items[..n]).Parsed? {
        RestrictedParses(item, caller, ItemPath(path, n), items[n]);
      }
    }
  }

  lemma {:induction false} RestrictedObject(def: ObjectDef, caller: Caller, path: string, fields: map<string, Json>)
    requires NormalParams(def.params)
    requires Offending(def.params, caller, fields) == {} ==> MemberSizesAgree(def.params, caller, path, fields)
    ensures ParseObject(RestrictedDef(def, caller), caller, path, Pruned(ObjectOf(def), caller, JObject(fields)).fields) ==
            ParseObject(def, caller, path, fields)
    decreases def, 1, 0
  {
    hide NormalParams, MemberSizesAgree, Pruned, Offending, ParseParams, FirstViolation, Visible;
    var pruned := Pruned(ObjectOf(def), caller, JObject(fields)).fields;
    SameOffending(def, caller, fields);
    if Offending(def.params, caller, fields) == {} {
      ObjectMembersPruned(def, caller, fields);
      RestrictedParamsParse(def.params, caller, path, fields, pruned);
      SameFinish(def, caller, path, fields);
    }
  }

  /** Rules and parser judge the same parameters alike. */
  lemma SameFinish(def: ObjectDef, caller: Caller, path: string, fields: map<string, Json>)
    ensures var parsed := ParseParams(def.params, caller, path, fields);
            parsed.All? ==> Finish(RestrictedDef(def, caller), path, parsed.params) == Finish(def, path, parsed.params)
  {
    hide ParseParams, FirstViolation, Visible, RestrictedParams;
    var parsed := ParseParams(def.params, caller, path, fields);
    if parsed.All? {
      ParsedNames(def.params, caller, path, fields);
      assert Presence(parsed.params).Keys == Visible(def.params, caller);
      SameViolation(def.rules, Presence(parsed.params));
    }
  }

  lemma {:induction false} RestrictedParamsParse(
    params: seq<Parameter>, caller: Caller, path: string, fields: map<string, Json>, pruned: map<string, Json>)
    requires NormalParams(params) && MemberSizesAgree(params, caller, path, fields)
    requires MembersPruned(params, caller, fields, pruned)
    ensures ParseParams(RestrictedParams(params, caller), caller, path, pruned) == ParseParams(params, caller, path, fields)
    decreases params, 2, 0
  {
    hide NormalParams, MemberSizesAgree, MemberSizeAgrees, MembersPruned, Without, Pruned, ParseParams, ParseParameter,
      Available, Normal;
    if params == [] {
      NoParams(caller, path, fields);
      NoParams(caller, path, pruned);
    } else {
      var n := |params| - 1;
      var p := params[n];
      var rest := RestrictedParams(params[..n], caller);
      PrefixFacts(params, caller, path, fields, pruned);
      RestrictedParamsParse(params[..n], caller, path, fields, pruned);
      assert params == params[..n] + [p];
      LastParam(params[..n], p, caller, path, fields);
      if Available(p, caller) {
        var last := p.(shape := Without(p.shape, caller));
        if ParseParams(params[..n], caller, path, fields).All? { RestrictedParameter(p, caller, path, fields, pruned); }
        RestrictedAvailable(p, caller);
        LastParam(rest, last, caller, path, pruned);
        assert RestrictedParams(params, caller) == rest + [last];
      } else {
        assert RestrictedParams(params, caller) == rest;
      }
    }
  }

  lemma NoParams(caller: Caller, path: string, fields: map<string, Json>)
    ensures ParseParams([], caller, path, fields) == All(map[])
  {
  }

  /** One more parameter. */
  lemma LastParam(params: seq<Parameter>, p: Parameter, caller: Caller, path: string, fields: map<string, Json>)
    ensures ParseParams(params + [p], caller, path, fields) ==
            match ParseParams(params, caller, path, fields)
            case Stopped(errors) => Stopped(errors)
            case All(before) =>
              if !Available(p, caller) then All(before)
              else
                match ParseParameter(p, caller, path, fields)
                case Bad(errors) => Stopped(errors)
                case Got(value) => All(before[p.name := value])
  {
    hide ParseParameter, Available;
    assert (params + [p])[..|params|] == params;
  }

  lemma PrefixFacts(
    params: seq<Parameter>, caller: Caller, path: string, fields: map<string, Json>, pruned: map<string, Json>)
    requires params != [] && NormalParams(params) && MemberSizesAgree(params, caller, path, fields)
    requires MembersPruned(params, caller, fields, pruned)
    ensures var n := |params| - 1; var p := params[n];
            NormalParams(params[..n]) && MemberSizesAgree(params[..n], caller, path, fields) &&
            MembersPruned(params[..n], caller, fields, pruned) && Normal(p.shape) &&
            (Available(p, caller) ==> MemberPruned(p, caller, fields, pruned)) &&
            (Available(p, caller) && ParseParams(params[..n], caller, path, fields).All? ==>
               MemberSizeAgrees(p, caller, path, fields))
  {
    hide Normal, MemberSizeAgrees, Pruned, ParseParams, Available;
  }

  /** The member of the parameter survives, pruned by its shape. */
  ghost predicate MemberPruned(p: Parameter, caller: Caller, fields: map<string, Json>, pruned: map<string, Json>) {
    (p.name in pruned <==> p.name in fields) &&
    (p.name in fields ==> pruned[p.name] == Pruned(p.shape, caller, fields[p.name]))
  }

  lemma RestrictedAvailable(p: Parameter, caller: Caller)
    ensures Available(p.(shape := Without(p.shape, caller)), caller) == Available(p, caller)
  {
  }

  lemma {:induction false} RestrictedParameter(
    p: Parameter, caller: Caller, path: string, fields: map<string, Json>, pruned: map<string, Json>)
    requires Normal(p.shape) && MemberPruned(p, caller, fields, pruned) && MemberSizeAgrees(p, caller, path, fields)
    ensures ParseParameter(p.(shape := Without(p.shape, caller)), caller, path, pruned) ==
            ParseParameter(p, caller, path, fields)
    decreases p, 0, 0
  {
    hide Normal, SizesAgree, Without, Pruned, Parse, TrimSpace, SizeFaultOf;
    if p.name in fields {
      RestrictedType(p.shape, caller);
      PrunedKind(p.shape, caller, fields[p.name]);
      SizeFaultWithout(p, caller, pruned[p.name]);
      if !fields[p.name].JNull? && !Blank(p, fields[p.name]) && SizeFaultOf(p, fields[p.name]) == None {
        RestrictedParses(p.shape, caller, JoinPath(path, p.name), fields[p.name]);
      }
    }
  }

  /** Pruning leaves everything but objects and arrays as it is. */
  lemma PrunedKind(shape: Shape, caller: Caller, raw: Json)
    ensures Pruned(shape, caller, raw).JNull? <==> raw.JNull?
    ensures raw.JString? || Pruned(shape, caller, raw).JString? ==> Pruned(shape, caller, raw) == raw
  {
  }

  lemma SizeFaultWithout(p: Parameter, caller: Caller, raw: Json)
    ensures SizeFaultOf(p.(shape := Without(p.shape, caller)), raw) == SizeFaultOf(p, raw)
  {
    hide Without;
    RestrictedType(p.shape, caller);
  }
}
