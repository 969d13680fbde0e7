/** Size bounds on object parameters count members as sent, nulls for parameters
    the caller may not use included. That is the one place where an unavailable
    parameter shows; this module says exactly when. */
module ParamSizes {
  import opened Wrappers
  import opened CallerSets
  import opened Text
  import opened JsonTrees
  import opened ParamShapes
  import opened ParamRestriction

  // ------------------------------------------------------- never in the way

  /** No parameter of object type has a size bound, at any depth. */
  ghost predicate ObjectsUnbounded(shape: Shape)
    decreases shape, 0
  {
    match shape
    case ArrayOf(item) => ObjectsUnbounded(item)
    case MapOf(value) => ObjectsUnbounded(value)
    case ObjectOf(def) => UnboundedParams(def.params)
    case Discriminated(_, variants, _) => forall i :: 0 <= i < |variants| ==> ObjectsUnbounded(variants[i].shape)
    case _ => true
  }

  ghost predicate UnboundedParams(params: seq<Parameter>)
    decreases params, 1
  {
    forall i :: 0 <= i < |params| ==>
      ObjectsUnbounded(params[i].shape) &&
      (WireTypeOf(params[i].shape) == ObjectType ==> params[i].minSize == None && params[i].maxSize == None)
  }

  lemma SizeFaultKept(p: Parameter, caller: Caller, raw: Json)
    requires WireTypeOf(p.shape) == ObjectType ==> p.minSize == None && p.maxSize == None
    ensures SizeFaultOf(p, raw) == SizeFaultOf(p, Pruned(p.shape, caller, raw))
  {
    if raw.JObject? && WireTypeOf(p.shape) != ObjectType { assert Pruned(p.shape, caller, raw) == raw; }
  }

  lemma {:induction false} UnboundedSizesAgree(shape: Shape, caller: Caller, path: string, raw: Json)
    requires ObjectsUnbounded(shape)
    ensures SizesAgree(shape, caller, path, raw)
    decreases shape, 0, 0
  {
    hide JoinPath, Offending;
    match shape
    case ArrayOf(item) => if raw.JArray? { UnboundedItemsAgree(item, caller, path, raw.items); }
    case MapOf(value) =>
      if raw.JObject? {
        forall k | k in raw.fields ensures SizesAgree(value, caller, JoinPath(path, k), raw.fields[k]) {
          UnboundedSizesAgree(value, caller, JoinPath(path, k), raw.fields[k]);
        }
      }
    case ObjectOf(def) => if raw.JObject? { UnboundedMembersAgree(def.params, caller, path, raw.fields); }
    case Discriminated(key, variants, _) =>
      if raw.JObject? && key in raw.fields && raw.fields[key].JString? && VariantFor(variants, raw.fields[key].s).Some? {
        var i := VariantFor(variants, raw.fields[key].s).value;
        UnboundedSizesAgree(variants[i].shape, caller, path, JObject(raw.fields - {key}));
      }
    case _ =>
  }

  lemma {:induction false} UnboundedItemsAgree(item: Shape, caller: Caller, path: string, items: seq<Json>)
    requires ObjectsUnbounded(item)
    ensures ItemSizesAgree(item, caller, path, items)
    decreases item, 1, |items|
  {
    hide ObjectsUnbounded, ParseItems, ItemPath, SizesAgree;
    if items != [] {
      var n := |items| - 1;
      UnboundedItemsAgree(item, caller, path, items[..n]);
      UnboundedSizesAgree(item, caller, ItemPath(path, n), items[n]);
    }
  }

  lemma {:induction false} UnboundedMembersAgree(params: seq<Parameter>, caller: Caller, path: string, fields: map<string, Json>)
    requires UnboundedParams(params)
    ensures MemberSizesAgree(params, caller, path, fields)
    decreases params, 1, 0
  {
    hide SizesAgree, SizeFaultOf, Pruned, ParseParams, ObjectsUnbounded, Available, JoinPath, Blank;
    if params != [] {
      var p := params[|params| - 1];
      UnboundedMembersAgree(params[..|params| - 1], caller, path, fields);
      if p.name in fields {
        SizeFaultKept(p, caller, fields[p.name]);
        UnboundedSizesAgree(p.shape, caller, JoinPath(path, p.name), fields[p.name]);
      }
    }
  }

  /** For a caller, a definition without size bounds on objects and the same
      definition without the caller's unavailable parameters parse alike, on
      every input. */
  lemma UnavailableMightAsWellNotExist(shape: Shape, caller: Caller, path: string, raw: Json)
    requires Normal(shape) && ObjectsUnbounded(shape)
    ensures Parse(Without(shape, caller), caller, path, Pruned(shape, caller, raw)) == Parse(shape, caller, path, raw)
  {
    hide Normal, ObjectsUnbounded, SizesAgree, Without, Pruned, Parse;
    UnboundedSizesAgree(shape, caller, path, raw);
    RestrictedParses(shape, caller, path, raw);
  }

  // ------------------------------------------------------ one parameter, exactly

  /** Parameter names as the constructors leave them. */
  ghost predicate Named(shape: Shape)
    decreases shape, 0
  {
    match shape
    case ArrayOf(item) => Named(item)
    case MapOf(value) => Named(value)
    case ObjectOf(def) => NamedParams(def.params)
    case Discriminated(_, variants, _) => forall i :: 0 <= i < |variants| ==> Named(variants[i].shape)
    case _ => true
  }

  ghost predicate NamedParams(params: seq<Parameter>)
    decreases params, 1
  {
    forall i :: 0 <= i < |params| ==> params[i].name != "" && Trimmed(params[i].name) && Named(params[i].shape)
  }

  /** `at` is a path somewhere below `path`. */
  predicate Under(at: string, path: string) {
    if path == "" then at != "" else path < at && (at[|path|] == '.' || at[|path|] == '[')
  }

  /** Every size error is about something below `path`. */
  ghost predicate AllUnder(errors: set<Error>, path: string) {
    forall e :: e in errors && e.BadSize? ==> Under(e.path, path)
  }

  /** Every size error is about `path` or something below it. */
  ghost predicate AllFrom(errors: set<Error>, path: string) {
    forall e :: e in errors && e.BadSize? ==> e.path == path || Under(e.path, path)
  }

  lemma JoinedPath(path: string, name: string)
    requires Trimmed(path)
    ensures Trimmed(JoinPath(path, name))
    ensures JoinPath(path, name) == path || Under(JoinPath(path, name), path)
    ensures name != "" && Trimmed(name) ==> JoinPath(path, name) == if path == "" then name else path + "." + name
  {
    hide TrimSpace;
    TrimmedIsFixed(path);
    TrimTrims(name);
    if Trimmed(name) { TrimmedIsFixed(name); }
  }

  lemma ItemPathUnder(path: string, i: nat)
    requires Trimmed(path)
    ensures Trimmed(ItemPath(path, i)) && Under(ItemPath(path, i), path)
  {
    var p := ItemPath(path, i);
    assert p[0] == if path == "" then '[' else path[0];
    assert p[|p| - 1] == ']';
  }

  lemma UnderBelow(errors: set<Error>, at: string, path: string)
    requires AllUnder(errors, at) && (at == path || Under(at, path))
    ensures AllUnder(errors, path)
  {
  }

  lemma FromBelow(errors: set<Error>, at: string, path: string)
    requires AllFrom(errors, at) && Under(at, path)
    ensures AllUnder(errors, path)
  {
  }

  lemma {:induction false} SizeErrorsUnder(shape: Shape, caller: Caller, path: string, raw: Json)
    requires Named(shape) && Trimmed(path) && Parse(shape, caller, path, raw).Failed?
    ensures AllUnder(Parse(shape, caller, path, raw).errors, path)
    decreases shape, 0, 0
  {
    hide NamedParams, ParseObject, JoinPath, ItemPath, TrimSpace, Under;
    match shape
    case ArrayOf(item) => if raw.JArray? { ItemErrorsUnder(item, caller, path, raw.items); }
    case MapOf(value) =>
      if raw.JObject? {
        forall k | k in raw.fields && Parse(value, caller, JoinPath(path, k), raw.fields[k]).Failed?
          ensures AllUnder(Parse(value, caller, JoinPath(path, k), raw.fields[k]).errors, path)
        {
          JoinedPath(path, k);
          SizeErrorsUnder(value, caller, JoinPath(path, k), raw.fields[k]);
          UnderBelow(Parse(value, caller, JoinPath(path, k), raw.fields[k]).errors, JoinPath(path, k), path);
        }
      }
    case ObjectOf(def) => if raw.JObject? { ObjectErrorsUnder(def, caller, path, raw.fields); }
    case Discriminated(key, variants, _) =>
      if raw.JObject? && key in raw.fields && raw.fields[key].JString? && VariantFor(variants, raw.fields[key].s).Some? {
        var i := VariantFor(variants, raw.fields[key].s).value;
        SizeErrorsUnder(variants[i].shape, caller, path, JObject(raw.fields - {key}));
      }
    case _ =>
  }

  lemma {:induction false} ItemErrorsUnder(item: Shape, caller: Caller, path: string, items: seq<Json>)
    requires Named(item) && Trimmed(path) && ParseItems(item, caller, path, items).Failed?
    ensures AllUnder(ParseItems(item, caller, path, items).errors, path)
    decreases item, 1, |items|
  {
    hide Named, Parse, ItemPath, AllUnder, Under;
    var n := |items| - 1;
    if ParseItems(item, caller, path, items[..n]).Failed? {
      ItemErrorsUnder(item, caller, path, items[..n]);
    } else {
      ItemPathUnder(path, n);
      SizeErrorsUnder(item, caller, ItemPath(path, n), items[n]);
      UnderBelow(Parse(item, caller, ItemPath(path, n), items[n]).errors, ItemPath(path, n), path);
    }
  }

  lemma {:induction false} ObjectErrorsUnder(def: ObjectDef, caller: Caller, path: string, fields: map<string, Json>)
    requires NamedParams(def.params) && Trimmed(path) && ParseObject(def, caller, path, fields).Failed?
    ensures AllUnder(ParseObject(def, caller, path, fields).errors, path)
    decreases def, 1, 0
  {
    hide NamedParams, JoinPath, ParseParams, Offending, FirstViolation, Under;
    if ParseParams(def.params, caller, path, fields).Stopped? { ParamErrorsUnder(def.params, caller, path, fields); }
  }

  lemma {:induction false} ParamErrorsUnder(params: seq<Parameter>, caller: Caller, path: string, fields: map<string, Json>)
    requires NamedParams(params) && Trimmed(path) && ParseParams(params, caller, path, fields).Stopped?
    ensures AllUnder(ParseParams(params, caller, path, fields).errors, path)
    decreases params, 2, 0
  {
    hide Named, ParseParameter, Available, AllUnder, AllFrom, JoinPath;
    var n := |params| - 1;
    if ParseParams(params[..n], caller, path, fields).Stopped? {
      ParamErrorsUnder(params[..n], caller, path, fields);
    } else {
      ParameterErrorsFrom(params[n], caller, path, fields);
      JoinedPath(path, params[n].name);
      FromBelow(ParseParameter(params[n], caller, path, fields).errors, JoinPath(path, params[n].name), path);
    }
  }

  lemma {:induction false} ParameterErrorsFrom(p: Parameter, caller: Caller, parent: string, fields: map<string, Json>)
    requires p.name != "" && Trimmed(p.name) && Named(p.shape) && Trimmed(parent)
    requires ParseParameter(p, caller, parent, fields).Bad?
    ensures AllFrom(ParseParameter(p, caller, parent, fields).errors, JoinPath(parent, p.name))
    decreases p, 0, 0
  {
    hide Named, Parse, JoinPath, TrimSpace, SizeFaultOf, Under;
    var path := JoinPath(parent, p.name);
    JoinedPath(parent, p.name);
    if p.name in fields && Parse(p.shape, caller, path, fields[p.name]).Failed? {
      SizeErrorsUnder(p.shape, caller, path, fields[p.name]);
    }
  }

  /** A bound separates the two counts. */
  ghost predicate Separates(p: Parameter, kept: int, sent: int) {
    (p.minSize.Some? && kept < p.minSize.value <= sent) || (p.maxSize.Some? && kept <= p.maxSize.value < sent)
  }

  /** `ensureBounds`. */
  predicate BoundsInOrder(p: Parameter) {
    p.minSize.Some? && p.maxSize.Some? ==> p.minSize.value <= p.maxSize.value
  }

  lemma CountsJudged(p: Parameter, caller: Caller, fields: map<string, Json>)
    requires WireTypeOf(p.shape) == ObjectType && BoundsInOrder(p)
    ensures var pruned := Pruned(p.shape, caller, JObject(fields));
            (SizeFaultOf(p, JObject(fields)) == SizeFaultOf(p, pruned) <==> !Separates(p, |pruned.fields|, |fields|))
  {
    hide Pruned;
    KeysCount(Pruned(p.shape, caller, JObject(fields)).fields, fields);
  }

  lemma KeysCount(a: map<string, Json>, b: map<string, Json>)
    requires a.Keys <= b.Keys
    ensures |a| <= |b|
  {
    SubsetSize(a.Keys, b.Keys);
    assert |a| == |a.Keys| && |b| == |b.Keys|;
  }

  /** An object parameter that the caller may use parses alike with and without
      the caller's unavailable parameters below it if and only if no size bound
      of its own separates the members sent from the members kept. */
  lemma ParameterAgreesExactly(
    p: Parameter, caller: Caller, parent: string, fields: map<string, Json>, pruned: map<string, Json>)
    requires p.name != "" && Trimmed(p.name) && Trimmed(parent) && Normal(p.shape) && Named(p.shape)
    requires WireTypeOf(p.shape) == ObjectType && BoundsInOrder(p)
    requires p.name in fields && fields[p.name].JObject?
    requires SizesAgree(p.shape, caller, JoinPath(parent, p.name), fields[p.name])
    requires p.name in pruned && pruned[p.name] == Pruned(p.shape, caller, fields[p.name])
    ensures ParseParameter(p.(shape := Without(p.shape, caller)), caller, parent, pruned) ==
            ParseParameter(p, caller, parent, fields)
            <==> !Separates(p, |pruned[p.name].fields|, |fields[p.name].fields|)
  {
    hide Normal, Named, SizesAgree, Without, Pruned, Parse, JoinPath, TrimSpace, SizeFaultOf, Separates;
    var path, raw, kept := JoinPath(parent, p.name), fields[p.name], pruned[p.name];
    CountsJudged(p, caller, raw.fields);
    JoinedPath(parent, p.name);
    SizeFaultWithout(p, caller, kept);
    PastSize(p, caller, path, raw);
    NeverBlank(p, raw);
    NeverBlank(p, kept);
    FaultOrNot(p, caller, parent, fields);
    RestrictedType(p.shape, caller);
    FaultOrNot(p.(shape := Without(p.shape, caller)), caller, parent, pruned);
    PastSizeSame(p, caller, path, raw);
    assert forall fault :: BadSize(path, fault) in {BadSize(path, fault)};
  }

  lemma NeverBlank(p: Parameter, raw: Json)
    requires !raw.JString?
    ensures !Blank(p, raw)
  {
  }

  /** What parsing an object member comes to once its size is accepted. */
  ghost function Beyond(p: Parameter, caller: Caller, path: string, raw: Json): ParamOutcome {
    match Parse(p.shape, caller, path, raw)
    case Failed(errors) => Bad(errors)
    case Parsed(value) => Applied(p, path, value)
  }

  lemma FaultOrNot(p: Parameter, caller: Caller, parent: string, fields: map<string, Json>)
    requires p.name in fields && !fields[p.name].JNull? && !Blank(p, fields[p.name])
    ensures var path, raw := JoinPath(parent, p.name), fields[p.name];
            ParseParameter(p, caller, parent, fields) ==
            match SizeFaultOf(p, raw)
            case Some(fault) => Bad({BadSize(path, fault)})
            case None => Beyond(p, caller, path, raw)
  {
    hide Parse, JoinPath, TrimSpace, SizeFaultOf;
  }

  /** ... which never has an error about this member's own size. */
  lemma PastSize(p: Parameter, caller: Caller, path: string, raw: Json)
    requires Named(p.shape) && Trimmed(path)
    ensures Beyond(p, caller, path, raw).Bad? ==>
      forall fault :: BadSize(path, fault) !in Beyond(p, caller, path, raw).errors
  {
    hide Named, Parse;
    if Parse(p.shape, caller, path, raw).Failed? { SizeErrorsUnder(p.shape, caller, path, raw); }
  }

  lemma PastSizeSame(p: Parameter, caller: Caller, path: string, raw: Json)
    requires Normal(p.shape) && SizesAgree(p.shape, caller, path, raw)
    ensures Beyond(p.(shape := Without(p.shape, caller)), caller, path, Pruned(p.shape, caller, raw)) ==
            Beyond(p, caller, path, raw)
  {
    hide Normal, SizesAgree, Without, Pruned, Parse;
    RestrictedParses(p.shape, caller, path, raw);
  }

  // ---------------------------------------------------------- the difference

  const GUEST := Caller("guest")

  function OnlyAdmin(): CallerSet {
    CallerSets.Restricted([Caller("admin")])
  }

  function Secret(): Parameter {
    Parameter("secret", false, StringValue, AsAbsent, OnlyAdmin(), None, None, None, None, None)
  }

  function Account(): ObjectDef {
    ObjectDef([Secret()], [], (v: Values) => Ok(Domain(0)), Domain(0))
  }

  /** A parameter that must have at least one member. */
  function Profile(): Parameter {
    Parameter("profile", false, ObjectOf(Account()), AsAbsent, UNRESTRICTED, None, Some(1), None, None, None)
  }

  const WITH_NULL: map<string, Json> := map["profile" := JObject(map["secret" := JNull])]
  const WITH_NOTHING: map<string, Json> := map["profile" := JObject(map[])]

  /** The deletion can be seen: the profile is satisfied by a null for a parameter
      the guest may not use. */
  lemma BoundsCountUnavailableNulls(parent: string)
    ensures Available(Profile(), GUEST) && Normal(Profile().shape) && Named(Profile().shape)
    ensures Pruned(Profile().shape, GUEST, WITH_NULL["profile"]) == WITH_NOTHING["profile"]
    ensures ParseParameter(Profile(), GUEST, parent, WITH_NULL).Got?
    ensures ParseParameter(Profile().(shape := Without(Profile().shape, GUEST)), GUEST, parent, WITH_NOTHING) ==
            Bad({BadSize(JoinPath(parent, "profile"), Below(1, Fields))})
    ensures ParseParameter(Profile(), GUEST, parent, WITH_NOTHING) ==
            Bad({BadSize(JoinPath(parent, "profile"), Below(1, Fields))})
  {
    hide Parse, ParseParameter, Pruned, Without, SizeFaultOf, JoinPath, Normal, Named, Allows;
    RestrictedAllows(OnlyAdmin(), GUEST);
    AllAllowed(GUEST);
    SoleUnavailable(Account(), Secret(), GUEST, JoinPath(parent, "profile"));
    SoleNormal(Account(), Secret());
    SizeOne(Profile());
    OnlyWithSecret(Profile(), GUEST, parent, WITH_NULL);
    TooSmall(Profile(), GUEST, parent, WITH_NOTHING);
  }

  lemma AllAllowed(caller: Caller)
    ensures Allows(UNRESTRICTED, caller)
  {
  }

  lemma OnlyWithSecret(p: Parameter, caller: Caller, parent: string, fields: map<string, Json>)
    requires p.name in fields && fields[p.name].JObject? && p.parser == None && SizeFaultOf(p, fields[p.name]) == None
    requires Parse(p.shape, caller, JoinPath(parent, p.name), fields[p.name]).Parsed?
    ensures ParseParameter(p, caller, parent, fields).Got?
  {
    hide Parse, ParseParameter, SizeFaultOf, JoinPath;
    NeverBlank(p, fields[p.name]);
    FaultOrNot(p, caller, parent, fields);
  }

  lemma TooSmall(p: Parameter, caller: Caller, parent: string, pruned: map<string, Json>)
    requires p.name in pruned && pruned[p.name] == JObject(map[]) && SizeFaultOf(p, pruned[p.name]) == Some(Below(1, Fields))
    ensures ParseParameter(p, caller, parent, pruned) == Bad({BadSize(JoinPath(parent, p.name), Below(1, Fields))})
    ensures ParseParameter(p.(shape := Without(p.shape, caller)), caller, parent, pruned) ==
            Bad({BadSize(JoinPath(parent, p.name), Below(1, Fields))})
  {
    hide Parse, ParseParameter, SizeFaultOf, JoinPath, Without;
    var last := p.(shape := Without(p.shape, caller));
    NeverBlank(p, pruned[p.name]);
    NeverBlank(last, pruned[p.name]);
    FaultOrNot(p, caller, parent, pruned);
    FaultOrNot(last, caller, parent, pruned);
    SizeFaultWithout(p, caller, pruned[p.name]);
  }

  lemma SizeOne(p: Parameter)
    requires WireTypeOf(p.shape) == ObjectType && p.minSize == Some(1) && p.maxSize == None
    ensures SizeFaultOf(p, JObject(map["secret" := JNull])) == None
    ensures SizeFaultOf(p, JObject(map[])) == Some(Below(1, Fields))
  {
    assert |map["secret" := JNull]| == 1;
  }

  lemma SoleNormal(inner: ObjectDef, secret: Parameter)
    requires inner.params == [secret] && secret.shape == StringValue
    requires secret.name == "secret"
    ensures Normal(ObjectOf(inner)) && Named(ObjectOf(inner))
  {
    assert NormalParams([secret]) && NamedParams([secret]);
  }

  lemma SoleUnavailable(inner: ObjectDef, secret: Parameter, caller: Caller, path: string)
    requires inner.params == [secret] && inner.rules == [] && forall v :: inner.parser(v) == Ok(Domain(0))
    requires secret.name == "secret" && secret.nulls == AsAbsent && !Available(secret, caller)
    ensures Parse(ObjectOf(inner), caller, path, JObject(map["secret" := JNull])) == Parsed(Domain(0))
    ensures Pruned(ObjectOf(inner), caller, JObject(map["secret" := JNull])) == JObject(map[])
  {
    var fields: map<string, Json> := map["secret" := JNull];
    assert Declared([secret], "secret") == Some(0);
    assert Offending([secret], caller, fields) == {};
    NoParams(caller, path, fields);
    LastParam([], secret, caller, path, fields);
    assert [] + [secret] == [secret];
    assert Pruned(ObjectOf(inner), caller, JObject(fields)).fields == map[];
  }
}
