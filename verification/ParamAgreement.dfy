/** Exactly when an unavailable parameter cannot be noticed. On inputs in which no
    two members of an object have overlapping paths, parsing with and without the
    caller's unavailable parameters comes to the same if and only if every size
    bound that parsing reaches judges both inputs alike: where one does not, one
    side reports a size error that the other cannot report. Overlapping paths can
    hide the difference. */
module ParamAgreement {
  import opened Wrappers
  import opened CallerSets
  import opened Text
  import opened Decimals
  import opened JsonTrees
  import opened ParamShapes
  import opened ParamRestriction
  import opened ParamSizes
  import opened ParamMeaning

  /** One path is the other, or lies below it. */
  predicate Overlap(a: string, b: string) {
    a == b || Under(a, b) || Under(b, a)
  }

  /** No two members have overlapping paths. */
  ghost predicate KeysApart(path: string, keys: set<string>) {
    forall j, k :: j in keys && k in keys && j != k ==> !Overlap(JoinPath(path, j), JoinPath(path, k))
  }

  /** The members of every object that the shape looks into have paths of their own. */
  ghost predicate Apart(shape: Shape, path: string, raw: Json)
    decreases shape, 0
  {
    match shape
    case ArrayOf(item) => raw.JArray? ==> ItemsApart(item, path, raw.items)
    case MapOf(value) =>
      raw.JObject? ==>
        KeysApart(path, raw.fields.Keys) &&
        forall k :: k in raw.fields ==> Apart(value, JoinPath(path, k), raw.fields[k])
    case ObjectOf(def) =>
      raw.JObject? ==> KeysApart(path, raw.fields.Keys) && MembersApart(def.params, path, raw.fields)
    case Discriminated(key, variants, _) =>
      raw.JObject? && key in raw.fields && raw.fields[key].JString? && VariantFor(variants, raw.fields[key].s).Some? ==>
        Apart(variants[VariantFor(variants, raw.fields[key].s).value].shape, path, JObject(raw.fields - {key}))
    case _ => true
  }

  ghost predicate ItemsApart(item: Shape, path: string, items: seq<Json>)
    decreases item, 1
  {
    forall i :: 0 <= i < |items| ==> Apart(item, ItemPath(path, i), items[i])
  }

  ghost predicate MembersApart(params: seq<Parameter>, path: string, fields: map<string, Json>)
    decreases params, 1
  {
    forall i :: 0 <= i < |params| && params[i].name in fields ==>
      Apart(params[i].shape, JoinPath(path, params[i].name), fields[params[i].name])
  }

  lemma {:induction false} NamedWithout(shape: Shape, caller: Caller)
    requires Named(shape)
    ensures Named(Without(shape, caller))
    decreases shape, 0
  {
    match shape
    case ArrayOf(item) => NamedWithout(item, caller);
    case MapOf(value) => NamedWithout(value, caller);
    case ObjectOf(def) => NamedParamsWithout(def.params, caller);
    case Discriminated(_, variants, _) =>
      forall i | 0 <= i < |variants| ensures Named(Without(variants[i].shape, caller)) {
        NamedWithout(variants[i].shape, caller);
      }
    case _ =>
  }

  lemma {:induction false} NamedParamsWithout(params: seq<Parameter>, caller: Caller)
    requires NamedParams(params)
    ensures NamedParams(RestrictedParams(params, caller))
    decreases params, 1
  {
    hide Named, Without, Available;
    if params != [] {
      var n := |params| - 1;
      NamedParamsWithout(params[..n], caller);
      NamedWithout(params[n].shape, caller);
    }
  }

  // ----------------------------------------------------------- paths apart

  ghost predicate From(e: Error, at: string) {
    e.BadSize? && (e.path == at || Under(e.path, at))
  }

  /** Of two beginnings of a text the one that a stop follows is the longer, if
      the other holds no stop. */
  lemma StoppedIsLonger(t: string, a: string, b: string, stops: set<char>)
    requires a <= t && b <= t && (|a| < |t| ==> t[|a|] in stops) && forall i :: 0 <= i < |b| ==> b[i] !in stops
    ensures |b| <= |a|
  {
    assert forall i :: 0 <= i < |b| ==> t[i] == b[i];
  }

  /** Different items have different paths, and so has everything below them. */
  lemma ItemPathsApart(path: string, i: nat, j: nat, at: string)
    requires Under(at, ItemPath(path, i)) && Under(at, ItemPath(path, j))
    ensures i == j
  {
    hide FormatNat, ValueOf, Under, ItemPath;
    var a, b := FormatNat(i), FormatNat(j);
    var rest := if |path| + 1 <= |at| then at[|path| + 1..] else "";
    FormatNatValue(i);
    FormatNatValue(j);
    DigitsStart(path, i, at);
    DigitsStart(path, j, at);
    StoppedIsLonger(rest, a, b, {']'});
    StoppedIsLonger(rest, b, a, {']'});
    assert a == rest[..|a|] && b == rest[..|b|];
  }

  lemma DigitsStart(path: string, i: nat, at: string)
    requires Under(at, ItemPath(path, i))
    ensures |path| + 1 <= |at|
    ensures var rest, d := at[|path| + 1..], FormatNat(i);
            d <= rest && |d| < |rest| && rest[|d|] == ']' && forall k :: 0 <= k < |d| ==> d[k] != ']'
  {
    hide FormatNat;
    var p, d := ItemPath(path, i), FormatNat(i);
    assert p <= at && p[|path| + 1..] == d + "]";
    assert at[..|p|] == p;
    assert at[|path| + 1..][..|d| + 1] == d + "]";
    assert forall k :: 0 <= k < |d| ==> IsDigit(d[k]);
  }

  /** Two paths with something below or at both overlap. */
  lemma FromBoth(at: string, a: string, b: string)
    requires (at == a || Under(at, a)) && (at == b || Under(at, b))
    ensures Overlap(a, b)
  {
    if a != "" && b != "" {
      assert a == at[..|a|] && b == at[..|b|];
      if |a| < |b| { assert b[..|a|] == a; } else if |b| < |a| { assert a[..|b|] == b; }
    }
  }

  // ---------------------------------------------------------- one side reports

  lemma {:induction false} Differs(shape: Shape, caller: Caller, path: string, raw: Json) returns (e: Error)
    requires Normal(shape) && Named(shape) && Trimmed(path) && Apart(shape, path, raw)
    requires !SizesAgree(shape, caller, path, raw)
    ensures e.BadSize? && Under(e.path, path)
    ensures Reports(Parse(shape, caller, path, raw), e) <==>
            !Reports(Parse(Without(shape, caller), caller, path, Pruned(shape, caller, raw)), e)
    decreases shape, 0, 0
  {
    hide NormalParams, NamedParams, KeysApart, ItemsApart, MembersApart, ItemSizesAgree, MemberSizesAgree, ParseItems,
      ParseObject, Entries, Gathered, Offending, ItemPath, JoinPath, Under;
    match shape
    case ArrayOf(item) =>
      var m;
      e, m := ItemsDiffer(item, caller, path, raw.items, Pruned(shape, caller, raw).items);
      ItemPathUnder(path, m);
      UnderUnder(e.path, ItemPath(path, m), path);
    case ObjectOf(def) => e := ObjectDiffers(def, caller, path, raw.fields);
    case Discriminated(key, variants, zero) => e := VariantDiffers(key, variants, zero, caller, path, raw.fields);
    case MapOf(value) => e := MapDiffers(value, caller, path, raw.fields);
    case _ =>
  }

  lemma UnderUnder(at: string, middle: string, path: string)
    requires (at == middle || Under(at, middle)) && Under(middle, path)
    ensures Under(at, path)
  {
  }

  lemma {:induction false} VariantDiffers(
    key: string, variants: seq<Variant>, zero: Value, caller: Caller, path: string, fields: map<string, Json>)
    returns (e: Error)
    requires forall i :: 0 <= i < |variants| ==> Normal(variants[i].shape) && Named(variants[i].shape)
    requires Trimmed(path) && Apart(Discriminated(key, variants, zero), path, JObject(fields))
    requires !SizesAgree(Discriminated(key, variants, zero), caller, path, JObject(fields))
    ensures e.BadSize? && Under(e.path, path)
    ensures var shape, raw := Discriminated(key, variants, zero), JObject(fields);
            Reports(Parse(shape, caller, path, raw), e) <==>
            !Reports(Parse(Without(shape, caller), caller, path, Pruned(shape, caller, raw)), e)
    decreases variants, 1, 0
  {
    hide Normal, Named, VariantFor, Under;
    var shape, raw := Discriminated(key, variants, zero), JObject(fields);
    var value := fields[key].s;
    VariantRestricted(variants, caller, zero, key, value);
    var i := VariantFor(variants, value).value;
    var inner := JObject(fields - {key});
    var below := Pruned(variants[i].shape, caller, inner);
    e := Differs(variants[i].shape, caller, path, inner);
    assert Pruned(shape, caller, raw) == JObject(below.fields[key := fields[key]]);
    assert below.fields[key := fields[key]] - {key} == below.fields;
  }

  lemma {:induction false} MapDiffers(value: Shape, caller: Caller, path: string, fields: map<string, Json>)
    returns (e: Error)
    requires Normal(value) && Named(value) && Trimmed(path) && KeysApart(path, fields.Keys)
    requires forall k :: k in fields ==> Apart(value, JoinPath(path, k), fields[k])
    requires exists k :: k in fields && !SizesAgree(value, caller, JoinPath(path, k), fields[k])
    ensures e.BadSize? && Under(e.path, path)
    ensures Reports(Gathered(Entries(value, caller, path, fields)), e) <==>
            !Reports(Gathered(Entries(Without(value, caller), caller, path, PrunedEntries(value, caller, fields))), e)
    decreases value, 1, 0
  {
    hide Normal, Named, KeysApart, Apart, SizesAgree, Without, Pruned, Parse, Entries, Gathered, JoinPath, Under;
    var k :| k in fields && !SizesAgree(value, caller, JoinPath(path, k), fields[k]);
    var at := JoinPath(path, k);
    JoinedPath(path, k);
    NamedWithout(value, caller);
    e := Differs(value, caller, at, fields[k]);
    if at != path { UnderUnder(e.path, at, path); }
    assert PrunedEntries(value, caller, fields).Keys == fields.Keys;
    OnlyEntry(value, caller, path, fields, k, e);
    OnlyEntry(Without(value, caller), caller, path, PrunedEntries(value, caller, fields), k, e);
  }

  ghost function PrunedEntries(value: Shape, caller: Caller, fields: map<string, Json>): map<string, Json> {
    map k | k in fields :: Pruned(value, caller, fields[k])
  }

  /** Of all entries only the one above the error can report it. */
  lemma OnlyEntry(value: Shape, caller: Caller, path: string, fields: map<string, Json>, k: string, e: Error)
    requires Named(value) && Trimmed(path) && KeysApart(path, fields.Keys) && k in fields
    requires e.BadSize? && Under(e.path, JoinPath(path, k))
    ensures Reports(Gathered(Entries(value, caller, path, fields)), e) <==>
            Reports(Parse(value, caller, JoinPath(path, k), fields[k]), e)
  {
    hide Named, Parse, JoinPath, Under, Gathered, Reports;
    var outcomes := Entries(value, caller, path, fields);
    GatheredReports(outcomes, e);
    forall j | j in fields && Reports(outcomes[j], e) ensures j == k {
      JoinedPath(path, j);
      ReportedUnder(value, caller, JoinPath(path, j), fields[j], e);
      FromBoth(e.path, JoinPath(path, j), JoinPath(path, k));
    }
    assert k in outcomes;
  }

  lemma ReportedUnder(shape: Shape, caller: Caller, path: string, raw: Json, e: Error)
    requires Named(shape) && Trimmed(path) && e.BadSize? && Reports(Parse(shape, caller, path, raw), e)
    ensures Under(e.path, path)
  {
    hide Named, Parse, Under;
    SizeErrorsUnder(shape, caller, path, raw);
  }

  /** The gathered entries report what some entry reports. */
  lemma GatheredReports(outcomes: map<string, Outcome>, e: Error)
    ensures Reports(Gathered(outcomes), e) <==> exists k :: k in outcomes && Reports(outcomes[k], e)
  {
    if Reports(Gathered(outcomes), e) {
      var k :| k in outcomes && outcomes[k].Failed? && e in outcomes[k].errors;
      assert Reports(outcomes[k], e);
    }
  }

  lemma {:induction false} ItemsDiffer(item: Shape, caller: Caller, path: string, items: seq<Json>, pruned: seq<Json>)
    returns (e: Error, m: nat)
    requires Normal(item) && Named(item) && Trimmed(path) && |pruned| == |items|
    requires ItemsApart(item, path, items) && !ItemSizesAgree(item, caller, path, items)
    requires forall i :: 0 <= i < |items| ==> pruned[i] == Pruned(item, caller, items[i])
    ensures m < |items| && e.BadSize? && Under(e.path, ItemPath(path, m))
    ensures Reports(ParseItems(item, caller, path, items), e) <==>
            !Reports(ParseItems(Without(item, caller), caller, path, pruned), e)
    decreases item, 1, |items|
  {
    hide Normal, Named, Apart, SizesAgree, Without, Pruned, Parse, ItemPath, Under;
    var n := |items| - 1;
    NamedWithout(item, caller);
    if !ItemSizesAgree(item, caller, path, items[..n]) {
      e, m := ItemsDiffer(item, caller, path, items[..n], pruned[..n]);
      LaterItem(item, caller, path, items, e, m);
      LaterItem(Without(item, caller), caller, path, pruned, e, m);
    } else {
      RestrictedItems(item, caller, path, items[..n], pruned[..n]);
      ItemPathUnder(path, n);
      m := n;
      e := Differs(item, caller, ItemPath(path, n), items[n]);
    }
  }

  /** A later item neither adds nor hides an error of an earlier one. */
  lemma LaterItem(item: Shape, caller: Caller, path: string, items: seq<Json>, e: Error, m: nat)
    requires Named(item) && Trimmed(path) && items != [] && m < |items| - 1
    requires e.BadSize? && Under(e.path, ItemPath(path, m))
    ensures Reports(ParseItems(item, caller, path, items), e) <==>
            Reports(ParseItems(item, caller, path, items[..|items| - 1]), e)
  {
    hide Named, Parse, ItemPath, Under;
    var n := |items| - 1;
    if Parse(item, caller, ItemPath(path, n), items[n]).Failed? {
      ItemPathUnder(path, n);
      SizeErrorsUnder(item, caller, ItemPath(path, n), items[n]);
      if Under(e.path, ItemPath(path, n)) { ItemPathsApart(path, m, n, e.path); }
    }
  }

  lemma {:induction false} ObjectDiffers(def: ObjectDef, caller: Caller, path: string, fields: map<string, Json>)
    returns (e: Error)
    requires NormalParams(def.params) && NamedParams(def.params) && Trimmed(path)
    requires KeysApart(path, fields.Keys) && MembersApart(def.params, path, fields)
    requires Offending(def.params, caller, fields) == {} && !MemberSizesAgree(def.params, caller, path, fields)
    ensures e.BadSize? && Under(e.path, path)
    ensures Reports(ParseObject(def, caller, path, fields), e) <==>
            !Reports(ParseObject(RestrictedDef(def, caller), caller, path,
                                 Pruned(ObjectOf(def), caller, JObject(fields)).fields), e)
    decreases def, 1, 0
  {
    hide NormalParams, NamedParams, KeysApart, MembersApart, MemberSizesAgree, Pruned, Offending, ParseParams,
      FirstViolation, Under, JoinPath;
    var pruned := Pruned(ObjectOf(def), caller, JObject(fields)).fields;
    SameOffending(def, caller, fields);
    ObjectMembersPruned(def, caller, fields);
    var m;
    e, m := MembersDiffer(def.params, caller, path, fields, pruned);
    NamedAt(def.params, m);
    JoinedPath(path, def.params[m].name);
    NameUnder(path, def.params[m].name, JoinPath(path, def.params[m].name));
    UnderUnder(e.path, JoinPath(path, def.params[m].name), path);
  }

  lemma NamedAt(params: seq<Parameter>, m: nat)
    requires NamedParams(params) && m < |params|
    ensures params[m].name != "" && Trimmed(params[m].name) && Named(params[m].shape)
  {
    hide Named;
  }

  lemma NameUnder(path: string, name: string, at: string)
    requires name != "" && at == if path == "" then name else path + "." + name
    ensures Under(at, path)
  {
  }

  lemma {:induction false} MembersDiffer(
    params: seq<Parameter>, caller: Caller, path: string, fields: map<string, Json>, pruned: map<string, Json>)
    returns (e: Error, m: nat)
    requires NormalParams(params) && NamedParams(params) && Trimmed(path)
    requires KeysApart(path, fields.Keys) && MembersApart(params, path, fields)
    requires MembersPruned(params, caller, fields, pruned) && !MemberSizesAgree(params, caller, path, fields)
    ensures m < |params| && params[m].name in fields && From(e, JoinPath(path, params[m].name))
    ensures StopsWith(ParseParams(params, caller, path, fields), e) <==>
            !StopsWith(ParseParams(RestrictedParams(params, caller), caller, path, pruned), e)
    decreases params, 2, 0
  {
    hide NormalParams, NamedParams, KeysApart, MembersApart, Apart, MemberSizeAgrees, MembersPruned, Without, ParseParams,
      ParseParameter, Available, Normal, Named, From, JoinPath, MemberPruned;
    var n := |params| - 1;
    var head, p := params[..n], params[n];
    var rest := RestrictedParams(head, caller);
    var last := p.(shape := Without(p.shape, caller));
    SplitFacts(params, caller, path, fields, pruned);
    NamedAt(params, n);
    assert params == head + [p];
    RestrictedAvailable(p, caller);
    assert RestrictedParams(params, caller) == rest + if Available(p, caller) then [last] else [];
    LastParam(head, p, caller, path, fields);
    if !MemberSizesAgree(head, caller, path, fields) {
      e, m := MembersDiffer(head, caller, path, fields, pruned);
      NamesDiffer(params, m);
      NamedWithout(p.shape, caller);
      LaterParam(head, p, caller, path, fields, e, params[m].name, fields.Keys);
      if Available(p, caller) { LaterParam(rest, last, caller, path, pruned, e, params[m].name, fields.Keys); }
      assert rest + [] == rest;
    } else {
      RestrictedParamsParse(head, caller, path, fields, pruned);
      LastParam(rest, last, caller, path, pruned);
      m := n;
      e := MemberDiffers(p, caller, path, fields, pruned);
    }
  }

  lemma SplitFacts(
    params: seq<Parameter>, caller: Caller, path: string, fields: map<string, Json>, pruned: map<string, Json>)
    requires params != [] && NormalParams(params) && NamedParams(params) && MembersPruned(params, caller, fields, pruned)
    requires MembersApart(params, path, fields)
    ensures var n := |params| - 1; var p := params[n];
            NormalParams(params[..n]) && NamedParams(params[..n]) && MembersPruned(params[..n], caller, fields, pruned) &&
            MembersApart(params[..n], path, fields) && Normal(p.shape) &&
            (p.name in fields ==> Apart(p.shape, JoinPath(path, p.name), fields[p.name])) &&
            (Available(p, caller) ==> MemberPruned(p, caller, fields, pruned) && (p.name in pruned ==> p.name in fields))
  {
    hide Normal, Named, Available, Apart, JoinPath, Pruned;
  }

  lemma NamesDiffer(params: seq<Parameter>, m: nat)
    requires NormalParams(params) && m < |params| - 1
    ensures params[m].name != params[|params| - 1].name
  {
    hide Normal;
  }

  /** A later parameter neither adds nor hides an error of an earlier one. */
  lemma LaterParam(
    params: seq<Parameter>, p: Parameter, caller: Caller, path: string, fields: map<string, Json>, e: Error, name: string,
    keys: set<string>)
    requires Trimmed(path) && p.name != "" && Trimmed(p.name) && Named(p.shape) && name != p.name
    requires KeysApart(path, keys) && name in keys && (p.name in fields ==> p.name in keys)
    requires From(e, JoinPath(path, name))
    ensures StopsWith(ParseParams(params + [p], caller, path, fields), e) <==>
            StopsWith(ParseParams(params, caller, path, fields), e)
  {
    hide ParseParams, ParseParameter, Available, Named, JoinPath, Under;
    LastParam(params, p, caller, path, fields);
    if BadWith(ParseParameter(p, caller, path, fields), e) {
      ParameterErrorsFrom(p, caller, path, fields);
      SizedIsSent(p, caller, path, fields, e);
      FromBoth(e.path, JoinPath(path, name), JoinPath(path, p.name));
    }
  }

  /** A size error of a parameter is about something sent. */
  lemma SizedIsSent(p: Parameter, caller: Caller, path: string, fields: map<string, Json>, e: Error)
    requires e.BadSize? && BadWith(ParseParameter(p, caller, path, fields), e)
    ensures p.name in fields
  {
    hide Parse, JoinPath, SizeFaultOf;
  }

  lemma {:induction false} MemberDiffers(
    p: Parameter, caller: Caller, path: string, fields: map<string, Json>, pruned: map<string, Json>) returns (e: Error)
    requires Normal(p.shape) && Named(p.shape) && p.name != "" && Trimmed(p.name) && Trimmed(path)
    requires p.name in fields ==> Apart(p.shape, JoinPath(path, p.name), fields[p.name])
    requires MemberPruned(p, caller, fields, pruned) && !MemberSizeAgrees(p, caller, path, fields)
    ensures p.name in fields && From(e, JoinPath(path, p.name))
    ensures BadWith(ParseParameter(p, caller, path, fields), e) <==>
            !BadWith(ParseParameter(p.(shape := Without(p.shape, caller)), caller, path, pruned), e)
    decreases p, 0, 0
  {
    hide Normal, Named, Apart, SizesAgree, Without, Pruned, Parse, ParseParameter, JoinPath, TrimSpace, SizeFaultOf, Under;
    var at, raw, kept := JoinPath(path, p.name), fields[p.name], pruned[p.name];
    var last := p.(shape := Without(p.shape, caller));
    NamedWithout(p.shape, caller);
    JoinedPath(path, p.name);
    RestrictedType(p.shape, caller);
    PrunedKind(p.shape, caller, raw);
    SizeFaultWithout(p, caller, kept);
    FaultOrNot(p, caller, path, fields);
    FaultOrNot(last, caller, path, pruned);
    PastSize(p, caller, at, raw);
    PastSize(last, caller, at, kept);
    if SizeFaultOf(p, raw) != SizeFaultOf(p, kept) {
      e := BadSize(at, if SizeFaultOf(p, raw).Some? then SizeFaultOf(p, raw).value else SizeFaultOf(p, kept).value);
    } else {
      e := Differs(p.shape, caller, at, raw);
    }
  }

  // -------------------------------------------------------------- theorem

  /** With and without the caller's unavailable parameters, the input parses alike
      if and only if every size bound that is reached judges both alike. The way
      back holds on every input whose members have paths of their own. */
  lemma ParsesAlikeExactly(shape: Shape, caller: Caller, path: string, raw: Json)
    requires Normal(shape) && Named(shape) && Trimmed(path) && Apart(shape, path, raw)
    ensures Parse(Without(shape, caller), caller, path, Pruned(shape, caller, raw)) == Parse(shape, caller, path, raw)
            <==> SizesAgree(shape, caller, path, raw)
  {
    hide Normal, Named, Apart, SizesAgree, Without, Pruned, Parse;
    if SizesAgree(shape, caller, path, raw) {
      RestrictedParses(shape, caller, path, raw);
    } else {
      var e := Differs(shape, caller, path, raw);
    }
  }

  function Holder(): ObjectDef {
    ObjectDef([Profile()], [], (v: Values) => Ok(Domain(0)), Domain(0))
  }

  function TwinShape(): Shape {
    MapOf(ObjectOf(Holder()))
  }

  const TWINS := JObject(map["x" := JObject(WITH_NULL), " x" := JObject(WITH_NOTHING)])

  /** A path shared by two members can hide the difference: one entry of a map has
      a size error only without the unavailable parameters, and another, whose key
      trims to the same, has it either way. */
  lemma OverlapHides()
    ensures Normal(TwinShape()) && Named(TwinShape())
    ensures Parse(Without(TwinShape(), GUEST), GUEST, "", Pruned(TwinShape(), GUEST, TWINS)) ==
            Parse(TwinShape(), GUEST, "", TWINS)
    ensures !SizesAgree(TwinShape(), GUEST, "", TWINS)
  {
    hide Normal, Named, Without, Pruned, Parse, ParseParameter, JoinPath, SizesAgree, Profile;
    SamePath();
    var path, def, profile := JoinPath("", "x"), Holder(), Profile();
    var value, last := ObjectOf(def), profile.(shape := Without(profile.shape, GUEST));
    BoundsCountUnavailableNulls(path);
    ProfileName();
    SoleDefined(def, profile);
    SoleRestricted(def, profile, GUEST, WITH_NULL, WITH_NOTHING);
    SoleParameter(def, profile, GUEST, path, WITH_NULL);
    SoleParameter(def, profile, GUEST, path, WITH_NOTHING);
    SoleParameter(RestrictedDef(def, GUEST), last, GUEST, path, WITH_NOTHING);
    var e := BadSize(JoinPath(path, "profile"), Below(1, Fields));
    Twins(value, GUEST, path, JObject(WITH_NULL), JObject(WITH_NOTHING), e);
    if SizesAgree(TwinShape(), GUEST, "", TWINS) {
      EntryAgrees(value, GUEST, TWINS, "x");
      RestrictedParses(value, GUEST, path, JObject(WITH_NULL));
    }
  }

  lemma ProfileName()
    ensures Profile().name == "profile"
  {
  }

  lemma SamePath()
    ensures Trimmed(JoinPath("", "x")) && JoinPath("", " x") == JoinPath("", "x")
  {
    TrimmedIsFixed("");
    TrimTrims("x");
    TrimmedIsFixed("x");
    assert TrimSpace(" x") == "x" by { assert " x"[1..] == "x"; }
  }

  lemma EntryAgrees(value: Shape, caller: Caller, raw: Json, k: string)
    requires raw.JObject? && k in raw.fields && SizesAgree(MapOf(value), caller, "", raw)
    ensures SizesAgree(value, caller, JoinPath("", k), raw.fields[k])
  {
    hide JoinPath;
  }

  lemma SoleDefined(def: ObjectDef, p: Parameter)
    requires def.params == [p] && Normal(p.shape) && Named(p.shape) && p.name == "profile"
    ensures Normal(MapOf(ObjectOf(def))) && Named(MapOf(ObjectOf(def)))
    ensures Normal(ObjectOf(def))
  {
    assert NormalParams([p]) && NamedParams([p]) && Normal(ObjectOf(def)) && Named(ObjectOf(def));
  }

  lemma SoleRestricted(def: ObjectDef, p: Parameter, caller: Caller, fields: map<string, Json>, pruned: map<string, Json>)
    requires def.params == [p] && def.rules == [] && Available(p, caller) && fields.Keys == pruned.Keys == {p.name}
    requires pruned[p.name] == Pruned(p.shape, caller, fields[p.name]) == JObject(map[])
    ensures Without(ObjectOf(def), caller) == ObjectOf(RestrictedDef(def, caller))
    ensures RestrictedDef(def, caller) == ObjectDef([p.(shape := Without(p.shape, caller))], [], def.parser, def.zero)
    ensures Pruned(ObjectOf(def), caller, JObject(fields)) == JObject(pruned)
    ensures Pruned(ObjectOf(def), caller, JObject(pruned)) == JObject(pruned)
  {
    assert Declared([p], p.name) == Some(0);
    assert RestrictedParams([p], caller) == [] + [p.(shape := Without(p.shape, caller))] by {
      assert [p][..0] == [] && RestrictedParams([], caller) == [];
    }
    assert Pruned(p.shape, caller, JObject(map[])).fields == map[];
    assert Pruned(ObjectOf(def), caller, JObject(fields)).fields == pruned;
    assert Pruned(ObjectOf(def), caller, JObject(pruned)).fields == pruned;
  }

  /** An object of one available parameter, sent alone. */
  lemma SoleParameter(def: ObjectDef, p: Parameter, caller: Caller, path: string, fields: map<string, Json>)
    requires def.params == [p] && def.rules == [] && (forall v :: def.parser(v) == Ok(Domain(0)))
    requires Available(p, caller) && fields.Keys == {p.name}
    ensures Parse(ObjectOf(def), caller, path, JObject(fields)) ==
            match ParseParameter(p, caller, path, fields)
            case Bad(errors) => Failed(errors)
            case Got(_) => Parsed(Domain(0))
  {
    hide ParseParameter, Available;
    assert Declared([p], p.name) == Some(0);
    assert Offending([p], caller, fields) == {};
    NoParams(caller, path, fields);
    LastParam([], p, caller, path, fields);
    assert [] + [p] == [p];
  }

  /** Two entries at one path: the error of the second is all that is reported. */
  lemma Twins(value: Shape, caller: Caller, path: string, a: Json, b: Json, e: Error)
    requires JoinPath("", "x") == JoinPath("", " x") == path
    requires Parse(value, caller, path, a).Parsed? && Parse(value, caller, path, b) == Failed({e})
    requires Pruned(value, caller, a) == b == Pruned(value, caller, b)
    requires Parse(Without(value, caller), caller, path, b) == Failed({e})
    ensures var raw := JObject(map["x" := a, " x" := b]);
            Parse(MapOf(value), caller, "", raw) == Failed({e}) &&
            Parse(Without(MapOf(value), caller), caller, "", Pruned(MapOf(value), caller, raw)) == Failed({e})
  {
    hide JoinPath, Parse, Pruned, Without, Gathered, Entries;
    var fields, pruned := map["x" := a, " x" := b], map["x" := b, " x" := b];
    MapMeans(value, caller, fields);
    MapMeans(Without(value, caller), caller, pruned);
    assert PrunedEntries(value, caller, fields) == pruned;
    TwinEntries(value, caller, path, a, b, e);
    TwinEntries(Without(value, caller), caller, path, b, b, e);
  }

  lemma TwinEntries(value: Shape, caller: Caller, path: string, a: Json, b: Json, e: Error)
    requires JoinPath("", "x") == JoinPath("", " x") == path
    requires Parse(value, caller, path, a).Failed? ==> Parse(value, caller, path, a) == Failed({e})
    requires Parse(value, caller, path, b) == Failed({e})
    ensures Gathered(Entries(value, caller, "", map["x" := a, " x" := b])) == Failed({e})
  {
    hide JoinPath, Parse, Gathered;
    GatheredSole(Entries(value, caller, "", map["x" := a, " x" := b]), " x", e);
  }

  lemma MapMeans(value: Shape, caller: Caller, fields: map<string, Json>)
    ensures Parse(MapOf(value), caller, "", JObject(fields)) == Gathered(Entries(value, caller, "", fields))
    ensures Without(MapOf(value), caller) == MapOf(Without(value, caller))
    ensures Pruned(MapOf(value), caller, JObject(fields)) == JObject(PrunedEntries(value, caller, fields))
  {
    hide JoinPath, ParseItems, ParseObject, VariantFor, Gathered, RestrictedDef, Ignored, Declared;
  }

  lemma GatheredSole(outcomes: map<string, Outcome>, k: string, e: Error)
    requires k in outcomes && outcomes[k] == Failed({e})
    requires forall j :: j in outcomes && outcomes[j].Failed? ==> outcomes[j].errors == {e}
    ensures Gathered(outcomes) == Failed({e})
  {
    assert outcomes[k].Failed? && e in outcomes[k].errors;
    assert Gathered(outcomes).errors == {e};
  }
}
