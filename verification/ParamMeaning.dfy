/** What parsing says of the input (param/shape.go, parameter.go, object.go,
    discriminator.go, rule.go), without parsing: when a value is what a JSON text
    reads as in a shape, and when an error is to blame on it. Parsing yields
    exactly those values and exactly those errors. */
module ParamMeaning {
  import opened Wrappers
  import opened CallerSets
  import opened Text
  import opened Decimals
  import opened JsonTrees
  import opened ParamShapes
  import opened ParamRestriction
  import Rules = PresenceRules

  // -------------------------------------------------------------- success

  /** `value` is what `raw` reads as in the shape. */
  ghost predicate Reads(shape: Shape, caller: Caller, path: string, raw: Json, value: Value)
    decreases shape, 0
  {
    match shape
    case AnyValue => value == Wire(raw)
    case StringValue => raw.JString? && value == Wire(raw)
    case IntegerValue => raw.JNumber? && value.Number? && IntegerText(raw.literal, value.n)
    case BooleanValue => raw.JBool? && value == Wire(raw)
    case EnumValue(values, trims) => raw.JString? && Chosen(raw.s, trims) in values && value == Wire(JString(Chosen(raw.s, trims)))
    case PlainArray =>
      raw.JArray? && value.List? && |value.items| == |raw.items| &&
      forall i :: 0 <= i < |raw.items| ==> value.items[i] == Wire(raw.items[i])
    case ArrayOf(item) => raw.JArray? && value.List? && ItemsRead(item, caller, path, raw.items, value.items)
    case MapOf(entry) => raw.JObject? && value.Dict? && EntriesRead(entry, caller, path, raw.fields, value.entries)
    case ObjectOf(def) =>
      raw.JObject? && exists parsed ::
        ObjectReads(def, caller, path, raw.fields, parsed) && def.parser(Values(path, parsed)) == Ok(value)
    case Discriminated(key, variants, _) =>
      raw.JObject? && Selects(raw.fields, key, variants) &&
      Reads(variants[Selected(raw.fields, key, variants)].shape, caller, path, JObject(raw.fields - {key}), value)
  }

  /** The text an enum looks up. */
  function Chosen(s: string, trims: bool): string {
    if trims then TrimSpace(s) else s
  }

  /** Item for item, in order. */
  ghost predicate ItemsRead(item: Shape, caller: Caller, path: string, items: seq<Json>, values: seq<Value>)
    decreases item, 1
  {
    && |values| == |items|
    && forall i :: 0 <= i < |items| ==> Reads(item, caller, ItemPath(path, i), items[i], values[i])
  }

  /** Key for key. */
  ghost predicate EntriesRead(
    entry: Shape, caller: Caller, path: string, fields: map<string, Json>, entries: map<string, Value>)
    decreases entry, 1
  {
    && entries.Keys == fields.Keys
    && forall k :: k in fields ==> Reads(entry, caller, JoinPath(path, k), fields[k], entries[k])
  }

  /** The discriminator names a variant. */
  predicate Selects(fields: map<string, Json>, key: string, variants: seq<Variant>) {
    key in fields && fields[key].JString? && VariantFor(variants, fields[key].s).Some?
  }

  function Selected(fields: map<string, Json>, key: string, variants: seq<Variant>): (i: nat)
    requires Selects(fields, key, variants)
    ensures i < |variants| && variants[i].value == fields[key].s
  {
    VariantFor(variants, fields[key].s).value
  }

  /** No stray key, every available parameter read, every rule kept. */
  ghost predicate ObjectReads(
    def: ObjectDef, caller: Caller, path: string, fields: map<string, Json>, parsed: map<string, Option<Value>>)
    decreases def, 1
  {
    && (forall k :: k in fields ==> !Stray(def.params, caller, k, fields[k]))
    && ParamsRead(def.params, caller, path, fields, parsed)
    && forall i :: 0 <= i < |def.rules| ==> Rules.Kept(def.rules[i], Presence(parsed))
  }

  /** A key that no parameter declares, or one that the caller may not use; a null
      that counts as absent does no harm. */
  ghost predicate Stray(params: seq<Parameter>, caller: Caller, name: string, raw: Json) {
    forall i :: 0 <= i < |params| && params[i].name == name ==>
      !Allows(params[i].availability, caller) && !(raw.JNull? && params[i].nulls == AsAbsent)
  }

  /** The name is that of a parameter the caller may use. */
  ghost predicate Offered(params: seq<Parameter>, caller: Caller, name: string) {
    exists i: nat :: i < |params| && OfferedAt(params[i], caller, name)
  }

  predicate OfferedAt(p: Parameter, caller: Caller, name: string) {
    p.name == name && Allows(p.availability, caller)
  }

  /** Each available parameter holds what its own member reads as. */
  ghost predicate ParamsRead(
    params: seq<Parameter>, caller: Caller, path: string, fields: map<string, Json>, parsed: map<string, Option<Value>>)
    decreases params, 1
  {
    && (forall name :: name in parsed ==> Offered(params, caller, name))
    && (forall i :: 0 <= i < |params| && Allows(params[i].availability, caller) ==>
          params[i].name in parsed && MemberReads(params[i], caller, path, fields, parsed[params[i].name]))
  }

  /** Nothing was sent, or a null that counts as nothing. */
  predicate Absent(p: Parameter, fields: map<string, Json>) {
    p.name in fields ==> fields[p.name].JNull? && p.nulls == AsAbsent
  }

  ghost predicate MemberReads(p: Parameter, caller: Caller, parent: string, fields: map<string, Json>, value: Option<Value>)
    decreases p, 1
  {
    var path := JoinPath(parent, p.name);
    if Absent(p, fields) then !p.required && value == None
    else if fields[p.name].JNull? then p.nulls == Accepted && exists zero :: IsZero(p.shape, zero) && Makes(p, path, zero, value)
    else
      && !OnlySpace(p, fields[p.name]) && WithinBounds(p, fields[p.name])
      && exists inner :: Reads(p.shape, caller, path, fields[p.name], inner) && Makes(p, path, inner, value)
  }

  /** The zero value of the shape's type: empty, zero, false, or the object's own. */
  predicate IsZero(shape: Shape, value: Value) {
    match value
    case Wire(JNull) => shape.AnyValue? || Own(shape, value)
    case Wire(JString(s)) => ((shape.StringValue? || shape.EnumValue?) && s == "") || Own(shape, value)
    case Wire(JBool(b)) => (shape.BooleanValue? && !b) || Own(shape, value)
    case Number(n) => (shape.IntegerValue? && n == 0) || Own(shape, value)
    case List(items) => ((shape.PlainArray? || shape.ArrayOf?) && items == []) || Own(shape, value)
    case Dict(entries) => (shape.MapOf? && entries == map[]) || Own(shape, value)
    case _ => Own(shape, value)
  }

  predicate Own(shape: Shape, value: Value) {
    (shape.ObjectOf? && value == shape.def.zero) || (shape.Discriminated? && value == shape.zero)
  }

  lemma ZeroOfIsZero(shape: Shape, value: Value)
    ensures value == ZeroOf(shape) <==> IsZero(shape, value)
  {
  }

  /** An item's path is its array's path and its index in brackets. */
  lemma ItemPathShowsIndex(path: string, i: nat)
    ensures exists digits :: ItemPath(path, i) == path + "[" + digits + "]" && AllDigits(digits) && ValueOf(digits) == i
  {
    FormatNatValue(i);
    assert ItemPath(path, i) == path + "[" + FormatNat(i) + "]";
  }

  /** A required text of nothing but whitespace. */
  ghost predicate OnlySpace(p: Parameter, raw: Json) {
    p.required && WireTypeOf(p.shape) == StringType && raw.JString? && AllSpace(raw.s)
  }

  /** The value passes through the parameter's own parser, if it has one. */
  ghost predicate Makes(p: Parameter, path: string, inner: Value, value: Option<Value>) {
    value.Some? && if p.parser.None? then value.value == inner else p.parser.value(path, inner) == Ok(value.value)
  }

  /** The size of a value: bytes of a text, the number itself, items, members. */
  ghost predicate Weighs(typ: WireType, raw: Json, n: int, unit: Unit) {
    || (raw.JString? && typ in {StringType, AnyType} && n == ByteLength(raw.s) && unit == Bytes)
    || (raw.JNumber? && typ == IntegerType && IntegerText(raw.literal, n) && unit == Magnitude)
    || (raw.JArray? && typ in {ArrayType, AnyType} && n == |raw.items| && unit == Items)
    || (raw.JObject? && typ in {ObjectType, AnyType} && n == |raw.fields| && unit == Fields)
  }

  predicate InRange(n: int, low: Option<int>, high: Option<int>) {
    (low.Some? ==> low.value <= n) && (high.Some? ==> n <= high.value)
  }

  ghost predicate WithinBounds(p: Parameter, raw: Json) {
    && (forall n, unit :: Weighs(WireTypeOf(p.shape), raw, n, unit) ==> InRange(n, p.minSize, p.maxSize))
    && (raw.JArray? ==> InRange(|raw.items|, p.minItems, p.maxItems))
  }

  /** Something reads. */
  ghost predicate Readable(shape: Shape, caller: Caller, path: string, raw: Json) {
    exists value :: Reads(shape, caller, path, raw, value)
  }

  ghost predicate MemberReadable(p: Parameter, caller: Caller, parent: string, fields: map<string, Json>) {
    exists value :: MemberReads(p, caller, parent, fields, value)
  }

  // -------------------------------------------------------------- failure

  /** `e` says what is wrong with `raw`. */
  ghost predicate Blames(shape: Shape, caller: Caller, path: string, raw: Json, e: Error)
    decreases shape, 0
  {
    match shape
    case AnyValue => false
    case StringValue => !raw.JString? && e == TypeMismatch(path, StringType)
    case IntegerValue => (raw.JNumber? ==> forall n :: !IntegerText(raw.literal, n)) && e == TypeMismatch(path, IntegerType)
    case BooleanValue => !raw.JBool? && e == TypeMismatch(path, BoolType)
    case EnumValue(values, trims) =>
      if raw.JString? then Chosen(raw.s, trims) !in values && e == NotAllowed(path, Chosen(raw.s, trims), values)
      else e == TypeMismatch(path, StringType)
    case PlainArray => !raw.JArray? && e == TypeMismatch(path, ArrayType)
    case ArrayOf(item) =>
      if raw.JArray? then ItemsBlame(item, caller, path, raw.items, e) else e == TypeMismatch(path, ArrayType)
    case MapOf(entry) =>
      if raw.JObject? then exists k :: k in raw.fields && Blames(entry, caller, JoinPath(path, k), raw.fields[k], e)
      else e == TypeMismatch(path, ObjectType)
    case ObjectOf(def) =>
      if raw.JObject? then ObjectBlames(def, caller, path, raw.fields, e) else e == TypeMismatch(path, ObjectType)
    case Discriminated(key, variants, _) =>
      if !raw.JObject? then e == TypeMismatch(path, ObjectType)
      else if key !in raw.fields || raw.fields[key].JNull? then e == Missing(JoinPath(path, key))
      else if !raw.fields[key].JString? then e == TypeMismatch(JoinPath(path, key), StringType)
      else if !Selects(raw.fields, key, variants)
        then e == NotAllowed(JoinPath(path, key), raw.fields[key].s, VariantValues(variants))
      else Blames(variants[Selected(raw.fields, key, variants)].shape, caller, path, JObject(raw.fields - {key}), e)
  }

  /** The first item that does not read is to blame. */
  ghost predicate ItemsBlame(item: Shape, caller: Caller, path: string, items: seq<Json>, e: Error)
    decreases item, 2
  {
    exists i: nat :: i < |items| && ItemBlamed(item, caller, path, items, i, e)
  }

  ghost predicate ItemBlamed(item: Shape, caller: Caller, path: string, items: seq<Json>, i: nat, e: Error)
    requires i < |items|
    decreases item, 1
  {
    ItemsReadable(item, caller, path, items, i) && Blames(item, caller, ItemPath(path, i), items[i], e)
  }

  /** The first `n` items read. */
  ghost predicate ItemsReadable(item: Shape, caller: Caller, path: string, items: seq<Json>, n: nat)
    requires n <= |items|
  {
    forall j :: 0 <= j < n ==> Readable(item, caller, ItemPath(path, j), items[j])
  }

  /** A stray key; or else the first parameter that does not read; or else the
      first rule that is broken; or else what the object's own parser objects to. */
  ghost predicate ObjectBlames(def: ObjectDef, caller: Caller, path: string, fields: map<string, Json>, e: Error)
    decreases def, 1
  {
    if exists k :: k in fields && Stray(def.params, caller, k, fields[k])
    then exists k :: k in fields && Stray(def.params, caller, k, fields[k]) && e == Unexpected(JoinPath(path, k))
    else
      || ParamsBlame(def.params, caller, path, fields, e)
      || exists parsed :: ParamsRead(def.params, caller, path, fields, parsed) && FinishBlames(def, path, parsed, e)
  }

  ghost predicate ParamsBlame(params: seq<Parameter>, caller: Caller, path: string, fields: map<string, Json>, e: Error)
    decreases params, 2
  {
    exists i: nat :: i < |params| && ParamBlamed(params, caller, path, fields, i, e)
  }

  /** The parameter is the first that does not read. */
  ghost predicate ParamBlamed(
    params: seq<Parameter>, caller: Caller, path: string, fields: map<string, Json>, i: nat, e: Error)
    requires i < |params|
    decreases params, 1
  {
    Allows(params[i].availability, caller) && ParamsReadable(params, caller, path, fields, i) &&
    MemberBlames(params[i], caller, path, fields, e)
  }

  /** The first `n` parameters read, as far as they are available. */
  ghost predicate ParamsReadable(params: seq<Parameter>, caller: Caller, path: string, fields: map<string, Json>, n: nat)
    requires n <= |params|
  {
    forall j :: 0 <= j < n && Allows(params[j].availability, caller) ==> MemberReadable(params[j], caller, path, fields)
  }

  ghost predicate FinishBlames(def: ObjectDef, path: string, parsed: map<string, Option<Value>>, e: Error) {
    if forall i :: 0 <= i < |def.rules| ==> Rules.Kept(def.rules[i], Presence(parsed))
    then
      def.parser(Values(path, parsed)).Err? &&
      Relays(if TrimSpace(path) == "" then "request_body" else path, def.parser(Values(path, parsed)).error, e)
    else RulesBlame(def.rules, path, Presence(parsed), e)
  }

  /** The first broken rule is to blame. */
  ghost predicate RulesBlame(rules: seq<Rules.PresenceRule>, path: string, presence: map<string, bool>, e: Error) {
    exists i :: 0 <= i < |rules| && (forall j :: 0 <= j < i ==> Rules.Kept(rules[j], presence)) &&
      e.BrokenRule? && e.path == path && Rules.Breaks(rules[i], presence, e.violation)
  }

  /** This package's own errors are kept, any other is one of parsing here. */
  predicate Relays(path: string, fault: Fault, e: Error) {
    match fault
    case Own(own, code, message) => e == Custom(own, code, message)
    case Foreign => e == ParseFailed(path)
  }

  ghost predicate MemberBlames(p: Parameter, caller: Caller, parent: string, fields: map<string, Json>, e: Error)
    decreases p, 1
  {
    var path := JoinPath(parent, p.name);
    if Absent(p, fields) then p.required && e == Missing(path)
    else if fields[p.name].JNull? then
      if p.nulls == Rejected then e == NullRejected(path) else exists zero :: IsZero(p.shape, zero) && Refuses(p, path, zero, e)
    else if OnlySpace(p, fields[p.name]) then e == Missing(path)
    else if !WithinBounds(p, fields[p.name]) then e.BadSize? && e.path == path && Oversteps(p, fields[p.name], e.fault)
    else
      || Blames(p.shape, caller, path, fields[p.name], e)
      || exists inner :: Reads(p.shape, caller, path, fields[p.name], inner) && Refuses(p, path, inner, e)
  }

  ghost predicate Refuses(p: Parameter, path: string, inner: Value, e: Error) {
    p.parser.Some? && p.parser.value(path, inner).Err? && Relays(path, p.parser.value(path, inner).error, e)
  }

  /** Which bound is broken: the size comes before the item count, below before above. */
  ghost predicate Oversteps(p: Parameter, raw: Json, fault: SizeFault) {
    || (exists n, unit :: Weighs(WireTypeOf(p.shape), raw, n, unit) && OutOf(n, unit, p.minSize, p.maxSize, fault))
    || (raw.JArray? && (forall n, unit :: Weighs(WireTypeOf(p.shape), raw, n, unit) ==> InRange(n, p.minSize, p.maxSize)) &&
        OutOf(|raw.items|, Contained, p.minItems, p.maxItems, fault))
  }

  predicate OutOf(n: int, unit: Unit, low: Option<int>, high: Option<int>, fault: SizeFault) {
    if low.Some? && n < low.value then fault == Below(low.value, unit)
    else high.Some? && n > high.value && fault == Above(high.value, unit)
  }

  // ------------------------------------------------------- details agree

  predicate Reports(o: Outcome, e: Error) {
    o.Failed? && e in o.errors
  }

  predicate StopsWith(o: ParamsOutcome, e: Error) {
    o.Stopped? && e in o.errors
  }

  predicate BadWith(o: ParamOutcome, e: Error) {
    o.Bad? && e in o.errors
  }

  lemma BlankMeans(p: Parameter, raw: Json)
    ensures Blank(p, raw) <==> OnlySpace(p, raw)
  {
    hide TrimSpace;
    if raw.JString? { BlankIsSpace(raw.s); }
  }

  lemma MeasuredWeighs(typ: WireType, raw: Json, n: int, unit: Unit)
    ensures Measured(typ, raw) == Some((n, unit)) <==> Weighs(typ, raw, n, unit)
  {
    hide ParseInt64, IntegerText, ByteLength;
    if raw.JNumber? { ParseInt64Reads(raw.literal, n); }
  }

  /** The size verdict is that of the bounds. */
  lemma SizeFaultMeans(p: Parameter, raw: Json)
    ensures SizeFaultOf(p, raw) == None <==> WithinBounds(p, raw)
    ensures forall fault :: SizeFaultOf(p, raw) == Some(fault) <==> Oversteps(p, raw, fault)
  {
    hide Measured, Weighs;
    var typ := WireTypeOf(p.shape);
    forall n, unit ensures Measured(typ, raw) == Some((n, unit)) <==> Weighs(typ, raw, n, unit) {
      MeasuredWeighs(typ, raw, n, unit);
    }
    if Measured(typ, raw).Some? {
      var size := Measured(typ, raw).value;
      assert Weighs(typ, raw, size.0, size.1);
    }
  }

  lemma StrayMeans(params: seq<Parameter>, caller: Caller, name: string, raw: Json)
    requires NormalParams(params)
    ensures OffendingKey(params, caller, name, raw) <==> Stray(params, caller, name, raw)
  {
    hide Normal, Allows;
    forall i | 0 <= i < |params| && params[i].name == name ensures Declared(params, name) == Some(i) {
      DeclaredAt(params, i);
    }
  }

  lemma OffendingMeans(params: seq<Parameter>, caller: Caller, fields: map<string, Json>)
    requires NormalParams(params)
    ensures forall k :: k in Offending(params, caller, fields) <==> k in fields && Stray(params, caller, k, fields[k])
  {
    hide NormalParams, Stray, OffendingKey;
    forall k | k in fields ensures OffendingKey(params, caller, k, fields[k]) <==> Stray(params, caller, k, fields[k]) {
      StrayMeans(params, caller, k, fields[k]);
    }
  }

  lemma AppliedMeans(p: Parameter, path: string, inner: Value)
    ensures forall value :: Applied(p, path, inner) == Got(value) <==> Makes(p, path, inner, value)
    ensures forall e :: BadWith(Applied(p, path, inner), e) <==> Refuses(p, path, inner, e)
  {
  }

  /** What an accepted null comes to. */
  lemma NullMakes(p: Parameter, path: string)
    ensures forall value :: Applied(p, path, ZeroOf(p.shape)) == Got(value) <==>
      exists zero :: IsZero(p.shape, zero) && Makes(p, path, zero, value)
    ensures forall e :: BadWith(Applied(p, path, ZeroOf(p.shape)), e) <==>
      exists zero :: IsZero(p.shape, zero) && Refuses(p, path, zero, e)
  {
    hide ZeroOf, IsZero, Makes, Refuses, Applied;
    forall zero ensures zero == ZeroOf(p.shape) <==> IsZero(p.shape, zero) { ZeroOfIsZero(p.shape, zero); }
    AppliedMeans(p, path, ZeroOf(p.shape));
    assert IsZero(p.shape, ZeroOf(p.shape));
  }

  lemma {:induction false} FirstViolationMeans(rules: seq<Rules.PresenceRule>, presence: map<string, bool>)
    ensures FirstViolation(rules, presence) == None <==> forall i :: 0 <= i < |rules| ==> Rules.Kept(rules[i], presence)
    ensures forall path, violation ::
      FirstViolation(rules, presence) == Some(violation) <==> RulesBlame(rules, path, presence, BrokenRule(path, violation))
  {
    hide Rules.Kept, Rules.Breaks, Rules.Judge;
    if rules != [] {
      var n := |rules| - 1;
      FirstViolationMeans(rules[..n], presence);
      Rules.JudgeMeans(rules[n], presence);
      assert forall i :: 0 <= i < n ==> rules[..n][i] == rules[i];
      if FirstViolation(rules[..n], presence) == None {
        assert forall i :: 0 <= i < n ==> Rules.Kept(rules[i], presence);
      }
    }
  }

  // ------------------------------------------------- success is reading

  lemma {:induction false} ParseReads(shape: Shape, caller: Caller, path: string, raw: Json, value: Value)
    requires Normal(shape)
    ensures Parse(shape, caller, path, raw) == Parsed(value) <==> Reads(shape, caller, path, raw, value)
    decreases shape, 0
  {
    hide NormalParams, ItemsRead, EntriesRead, ObjectReads, ParseItems, ParseObject, Entries, Gathered, ParseInt64, IntegerText,
      TrimSpace, VariantFor;
    match shape
    case IntegerValue => if raw.JNumber? && value.Number? { ParseInt64Reads(raw.literal, value.n); }
    case ArrayOf(item) => if raw.JArray? { ArrayReads(item, caller, path, raw.items, value); }
    case MapOf(entry) => if raw.JObject? { MapReads(entry, caller, path, raw.fields, value); }
    case ObjectOf(def) => if raw.JObject? { ObjectParses(def, caller, path, raw.fields, value); }
    case Discriminated(key, variants, _) =>
      if raw.JObject? && Selects(raw.fields, key, variants) {
        ParseReads(variants[Selected(raw.fields, key, variants)].shape, caller, path, JObject(raw.fields - {key}), value);
      }
    case _ =>
  }

  lemma {:induction false} ArrayReads(item: Shape, caller: Caller, path: string, items: seq<Json>, value: Value)
    requires Normal(item)
    ensures ParseItems(item, caller, path, items) == Parsed(value) <==>
            value.List? && ItemsRead(item, caller, path, items, value.items)
    decreases item, 2
  {
    hide Normal, ItemsRead, ParseItems;
    if value.List? { ItemsParse(item, caller, path, items, value.items); } else { ItemsGiveLists(item, caller, path, items); }
  }

  lemma ItemsGiveLists(item: Shape, caller: Caller, path: string, items: seq<Json>)
    ensures ParseItems(item, caller, path, items).Parsed? ==> ParseItems(item, caller, path, items).value.List?
  {
    hide Parse;
  }

  lemma {:induction false} ItemsParse(item: Shape, caller: Caller, path: string, items: seq<Json>, values: seq<Value>)
    requires Normal(item)
    ensures ParseItems(item, caller, path, items) == Parsed(List(values)) <==> ItemsRead(item, caller, path, items, values)
    decreases item, 1, |items|
  {
    hide Normal, Parse, Reads, ItemPath;
    if items != [] && |values| == |items| {
      var n := |items| - 1;
      ItemsParse(item, caller, path, items[..n], values[..n]);
      ParseReads(item, caller, ItemPath(path, n), items[n], values[n]);
      assert values == values[..n] + [values[n]];
    }
  }

  lemma {:induction false} MapReads(entry: Shape, caller: Caller, path: string, fields: map<string, Json>, value: Value)
    requires Normal(entry)
    ensures Gathered(Entries(entry, caller, path, fields)) == Parsed(value) <==>
            value.Dict? && EntriesRead(entry, caller, path, fields, value.entries)
    decreases entry, 1
  {
    hide Normal, Parse, Reads, Gathered, JoinPath;
    var outcomes := Entries(entry, caller, path, fields);
    GatheredMeans(outcomes, value, Missing(path));
    if value.Dict? && value.entries.Keys == fields.Keys {
      forall k | k in fields
        ensures outcomes[k] == Parsed(value.entries[k]) <==>
                Reads(entry, caller, JoinPath(path, k), fields[k], value.entries[k])
      {
        ParseReads(entry, caller, JoinPath(path, k), fields[k], value.entries[k]);
      }
    }
  }

  lemma GatheredMeans(outcomes: map<string, Outcome>, value: Value, e: Error)
    ensures Gathered(outcomes) == Parsed(value) <==>
            value.Dict? && value.entries.Keys == outcomes.Keys &&
            forall k :: k in outcomes ==> outcomes[k] == Parsed(value.entries[k])
    ensures Reports(Gathered(outcomes), e) <==> exists k :: k in outcomes && Reports(outcomes[k], e)
  {
    if forall k :: k in outcomes ==> outcomes[k].Parsed? {
      var all := map k | k in outcomes :: outcomes[k].value;
      assert Gathered(outcomes) == Parsed(Dict(all));
      if value.Dict? && value.entries.Keys == outcomes.Keys && forall k :: k in outcomes ==> outcomes[k] == Parsed(value.entries[k]) {
        assert all == value.entries;
      }
    }
    if Reports(Gathered(outcomes), e) {
      var k :| k in outcomes && outcomes[k].Failed? && e in outcomes[k].errors;
      assert Reports(outcomes[k], e);
    }
  }

  lemma {:induction false} ObjectParses(def: ObjectDef, caller: Caller, path: string, fields: map<string, Json>, value: Value)
    requires NormalParams(def.params)
    ensures ParseObject(def, caller, path, fields) == Parsed(value) <==>
            exists parsed :: ObjectReads(def, caller, path, fields, parsed) && def.parser(Values(path, parsed)) == Ok(value)
    decreases def, 1
  {
    hide NormalParams, ParamsRead, ParseParams, Offending, Stray, FirstViolation, Rules.Kept, JoinPath, PathOrBody;
    OffendingMeans(def.params, caller, fields);
    forall parsed
      ensures ParseParams(def.params, caller, path, fields) == All(parsed) <==>
              ParamsRead(def.params, caller, path, fields, parsed)
    {
      ParamsParse(def.params, caller, path, fields, parsed);
    }
    if ParseParams(def.params, caller, path, fields).All? {
      var parsed := ParseParams(def.params, caller, path, fields).params;
      FirstViolationMeans(def.rules, Presence(parsed));
      assert ObjectReads(def, caller, path, fields, parsed) <==>
             Offending(def.params, caller, fields) == {} && FirstViolation(def.rules, Presence(parsed)) == None;
    }
  }

  lemma {:induction false} ParamsParse(
    params: seq<Parameter>, caller: Caller, path: string, fields: map<string, Json>, parsed: map<string, Option<Value>>)
    requires NormalParams(params)
    ensures ParseParams(params, caller, path, fields) == All(parsed) <==> ParamsRead(params, caller, path, fields, parsed)
    decreases params, 1
  {
    if params == [] {
      if ParamsRead(params, caller, path, fields, parsed) { assert parsed == map[]; }
    } else {
      hide ParseParams, ParseParameter, MemberReads, Normal, ParamsRead, NormalParams, Allows;
      var n := |params| - 1;
      var head, p := params[..n], params[n];
      assert params == head + [p];
      LastParam(head, p, caller, path, fields);
      HeadNormal(params);
      if !Allows(p.availability, caller) {
        ParamsParse(head, caller, path, fields, parsed);
        LastSkipped(params, caller, path, fields, parsed);
      } else {
        if ParseParams(head, caller, path, fields).All? {
          var before := ParseParams(head, caller, path, fields).params;
          ParamsParse(head, caller, path, fields, before);
          LastUnread(params, caller, path, fields, before);
          if ParseParameter(p, caller, path, fields).Got? {
            assert before[p.name := ParseParameter(p, caller, path, fields).value] - {p.name} == before;
          }
        }
        LastRead(params, caller, path, fields, parsed);
        if p.name in parsed {
          ParamsParse(head, caller, path, fields, parsed - {p.name});
          MemberParses(p, caller, path, fields, parsed[p.name]);
          assert (parsed - {p.name})[p.name := parsed[p.name]] == parsed;
        }
      }
    }
  }

  lemma HeadNormal(params: seq<Parameter>)
    requires params != [] && NormalParams(params)
    ensures NormalParams(params[..|params| - 1]) && Normal(params[|params| - 1].shape)
  {
    hide Normal;
  }

  lemma OfferedLast(params: seq<Parameter>, caller: Caller, name: string)
    requires params != []
    ensures Offered(params, caller, name) <==>
            Offered(params[..|params| - 1], caller, name) || OfferedAt(params[|params| - 1], caller, name)
  {
    hide OfferedAt;
    var n := |params| - 1;
    var head := params[..n];
    if Offered(params, caller, name) {
      var i: nat :| i < |params| && OfferedAt(params[i], caller, name);
      if i < n { assert OfferedAt(head[i], caller, name); }
    }
    if Offered(head, caller, name) {
      var i: nat :| i < n && OfferedAt(head[i], caller, name);
      assert OfferedAt(params[i], caller, name);
    }
  }

  lemma LastSkipped(
    params: seq<Parameter>, caller: Caller, path: string, fields: map<string, Json>, parsed: map<string, Option<Value>>)
    requires params != [] && !Allows(params[|params| - 1].availability, caller)
    ensures ParamsRead(params, caller, path, fields, parsed) <==>
            ParamsRead(params[..|params| - 1], caller, path, fields, parsed)
  {
    hide MemberReads, Allows, Offered;
    var head := params[..|params| - 1];
    forall name ensures Offered(params, caller, name) <==> Offered(head, caller, name) { OfferedLast(params, caller, name); }
    if ParamsRead(head, caller, path, fields, parsed) {
      forall i | 0 <= i < |params| && Allows(params[i].availability, caller)
        ensures params[i].name in parsed && MemberReads(params[i], caller, path, fields, parsed[params[i].name])
      {
        assert head[i] == params[i];
      }
    } else if ParamsRead(params, caller, path, fields, parsed) {
      HeadRead(params, caller, path, fields, parsed);
    }
  }

  lemma HeadRead(
    params: seq<Parameter>, caller: Caller, path: string, fields: map<string, Json>, parsed: map<string, Option<Value>>)
    requires params != [] && ParamsRead(params, caller, path, fields, parsed)
    requires forall name :: name in parsed ==> Offered(params[..|params| - 1], caller, name)
    ensures ParamsRead(params[..|params| - 1], caller, path, fields, parsed)
  {
    hide MemberReads, Allows, Offered;
    var head := params[..|params| - 1];
    forall i | 0 <= i < |head| && Allows(head[i].availability, caller)
      ensures head[i].name in parsed && MemberReads(head[i], caller, path, fields, parsed[head[i].name])
    {
      assert head[i] == params[i];
    }
  }

  lemma LastUnread(
    params: seq<Parameter>, caller: Caller, path: string, fields: map<string, Json>, before: map<string, Option<Value>>)
    requires params != [] && NormalParams(params) && ParamsRead(params[..|params| - 1], caller, path, fields, before)
    ensures params[|params| - 1].name !in before
  {
    hide MemberReads, Allows, Normal;
  }

  lemma LastRead(
    params: seq<Parameter>, caller: Caller, path: string, fields: map<string, Json>, parsed: map<string, Option<Value>>)
    requires params != [] && NormalParams(params) && Allows(params[|params| - 1].availability, caller)
    ensures var p := params[|params| - 1];
            ParamsRead(params, caller, path, fields, parsed) <==>
            p.name in parsed && MemberReads(p, caller, path, fields, parsed[p.name]) &&
            ParamsRead(params[..|params| - 1], caller, path, fields, parsed - {p.name})
  {
    hide MemberReads, Allows, Normal, Offered;
    var n := |params| - 1;
    var head, p := params[..n], params[n];
    forall name ensures Offered(params, caller, name) <==> Offered(head, caller, name) || name == p.name {
      OfferedLast(params, caller, name);
    }
    forall i | 0 <= i < n ensures head[i] == params[i] && params[i].name != p.name {}
    if p.name in parsed && MemberReads(p, caller, path, fields, parsed[p.name]) &&
       ParamsRead(head, caller, path, fields, parsed - {p.name})
    {
      forall i | 0 <= i < |params| && Allows(params[i].availability, caller)
        ensures params[i].name in parsed && MemberReads(params[i], caller, path, fields, parsed[params[i].name])
      {
        if i < n { assert head[i] == params[i] && (parsed - {p.name})[params[i].name] == parsed[params[i].name]; }
      }
    }
  }

  lemma {:induction false} MemberParses(
    p: Parameter, caller: Caller, parent: string, fields: map<string, Json>, value: Option<Value>)
    requires Normal(p.shape)
    ensures ParseParameter(p, caller, parent, fields) == Got(value) <==> MemberReads(p, caller, parent, fields, value)
    decreases p, 1
  {
    hide Normal, Parse, Reads, JoinPath, SizeFaultOf, WithinBounds, Blank, OnlySpace, Makes, Applied, IsZero, ZeroOf;
    var path := JoinPath(parent, p.name);
    if p.name in fields {
      var raw := fields[p.name];
      NullMakes(p, path);
      BlankMeans(p, raw);
      SizeFaultMeans(p, raw);
      forall inner
        ensures Parse(p.shape, caller, path, raw) == Parsed(inner) <==> Reads(p.shape, caller, path, raw, inner)
        ensures Applied(p, path, inner) == Got(value) <==> Makes(p, path, inner, value)
      {
        ParseReads(p.shape, caller, path, raw, inner);
        AppliedMeans(p, path, inner);
      }
    }
  }

  // -------------------------------------------- failure is being to blame

  lemma ParsesReadable(shape: Shape, caller: Caller, path: string, raw: Json)
    requires Normal(shape)
    ensures Parse(shape, caller, path, raw).Parsed? <==> Readable(shape, caller, path, raw)
  {
    hide Normal, Parse, Reads;
    forall value ensures Parse(shape, caller, path, raw) == Parsed(value) <==> Reads(shape, caller, path, raw, value) {
      ParseReads(shape, caller, path, raw, value);
    }
    if Parse(shape, caller, path, raw).Parsed? {
      assert Reads(shape, caller, path, raw, Parse(shape, caller, path, raw).value);
    }
  }

  lemma MemberParsesReadable(p: Parameter, caller: Caller, parent: string, fields: map<string, Json>)
    requires Normal(p.shape)
    ensures ParseParameter(p, caller, parent, fields).Got? <==> MemberReadable(p, caller, parent, fields)
  {
    hide Normal, ParseParameter, MemberReads;
    forall value
      ensures ParseParameter(p, caller, parent, fields) == Got(value) <==> MemberReads(p, caller, parent, fields, value)
    {
      MemberParses(p, caller, parent, fields, value);
    }
    if ParseParameter(p, caller, parent, fields).Got? {
      assert MemberReads(p, caller, parent, fields, ParseParameter(p, caller, parent, fields).value);
    }
  }

  lemma {:induction false} ParseBlames(shape: Shape, caller: Caller, path: string, raw: Json, e: Error)
    requires Normal(shape)
    ensures Reports(Parse(shape, caller, path, raw), e) <==> Blames(shape, caller, path, raw, e)
    decreases shape, 0
  {
    hide NormalParams, ItemsBlame, ObjectBlames, ParseItems, ParseObject, Entries, Gathered, VariantFor, JoinPath;
    match shape
    case ArrayOf(item) => if raw.JArray? { ItemsParseBlame(item, caller, path, raw.items, e); }
    case MapOf(entry) => if raw.JObject? { MapBlames(entry, caller, path, raw.fields, e); }
    case ObjectOf(def) => if raw.JObject? { ObjectParseBlames(def, caller, path, raw.fields, e); }
    case Discriminated(key, variants, zero) => if raw.JObject? { VariantBlames(key, variants, zero, caller, path, raw.fields, e); }
    case _ => ScalarBlames(shape, caller, path, raw, e);
  }

  lemma {:induction false} VariantBlames(
    key: string, variants: seq<Variant>, zero: Value, caller: Caller, path: string, fields: map<string, Json>, e: Error)
    requires forall i :: 0 <= i < |variants| ==> Normal(variants[i].shape)
    ensures var shape, raw := Discriminated(key, variants, zero), JObject(fields);
            Reports(Parse(shape, caller, path, raw), e) <==> Blames(shape, caller, path, raw, e)
    decreases variants, 1
  {
    hide Normal, VariantFor, JoinPath;
    if Selects(fields, key, variants) {
      ParseBlames(variants[Selected(fields, key, variants)].shape, caller, path, JObject(fields - {key}), e);
    }
  }

  lemma ScalarBlames(shape: Shape, caller: Caller, path: string, raw: Json, e: Error)
    requires !shape.ArrayOf? && !shape.MapOf? && !shape.ObjectOf? && !shape.Discriminated?
    ensures Reports(Parse(shape, caller, path, raw), e) <==> Blames(shape, caller, path, raw, e)
  {
    hide ParseInt64, IntegerText, TrimSpace;
    if raw.JNumber? { NotAnInteger(raw.literal); }
  }

  lemma NotAnInteger(literal: string)
    ensures ParseInt64(literal) == None <==> forall n :: !IntegerText(literal, n)
  {
    hide ParseInt64, IntegerText;
    forall n ensures ParseInt64(literal) == Some(n) <==> IntegerText(literal, n) { ParseInt64Reads(literal, n); }
    if ParseInt64(literal).Some? { assert IntegerText(literal, ParseInt64(literal).value); }
  }

  lemma {:induction false} ItemsParseReadable(item: Shape, caller: Caller, path: string, items: seq<Json>)
    requires Normal(item)
    ensures ParseItems(item, caller, path, items).Parsed? <==> ItemsReadable(item, caller, path, items, |items|)
    decreases |items|
  {
    if items != [] {
      hide Normal, Parse, ParseItems, Readable, ItemPath, ItemsReadable;
      var n := |items| - 1;
      ItemsParseReadable(item, caller, path, items[..n]);
      ParsesReadable(item, caller, ItemPath(path, n), items[n]);
      LastItem(item, caller, path, items);
      LastItemReads(item, caller, path, items, n);
    }
  }

  lemma {:induction false} ItemsParseBlame(item: Shape, caller: Caller, path: string, items: seq<Json>, e: Error)
    requires Normal(item)
    ensures Reports(ParseItems(item, caller, path, items), e) <==> ItemsBlame(item, caller, path, items, e)
    decreases item, 1, |items|
  {
    if items != [] {
      hide Normal, Parse, ParseItems, Blames, ItemPath, ItemsBlame, ItemsReadable, ItemBlamed, Reports;
      var n := |items| - 1;
      ItemsParseBlame(item, caller, path, items[..n], e);
      ItemsParseReadable(item, caller, path, items[..n]);
      ParseBlames(item, caller, ItemPath(path, n), items[n], e);
      ItemsBlameStep(item, caller, path, items, e);
    }
  }

  lemma ItemsBlameStep(item: Shape, caller: Caller, path: string, items: seq<Json>, e: Error)
    requires items != []
    requires var head := items[..|items| - 1];
             (Reports(ParseItems(item, caller, path, head), e) <==> ItemsBlame(item, caller, path, head, e)) &&
             (ParseItems(item, caller, path, head).Parsed? <==> ItemsReadable(item, caller, path, head, |head|))
    requires var n := |items| - 1;
             Reports(Parse(item, caller, ItemPath(path, n), items[n]), e) <==> Blames(item, caller, ItemPath(path, n), items[n], e)
    ensures Reports(ParseItems(item, caller, path, items), e) <==> ItemsBlame(item, caller, path, items, e)
  {
    hide Parse, ParseItems, Blames, ItemPath, ItemsBlame, ItemsReadable;
    LastItem(item, caller, path, items);
    LastItemReads(item, caller, path, items, |items| - 1);
    LastItemBlames(item, caller, path, items, e);
  }

  lemma LastItem(item: Shape, caller: Caller, path: string, items: seq<Json>)
    requires items != []
    ensures var n := |items| - 1;
            ParseItems(item, caller, path, items) ==
            match ParseItems(item, caller, path, items[..n])
            case Failed(errors) => Failed(errors)
            case Parsed(before) =>
              match Parse(item, caller, ItemPath(path, n), items[n])
              case Failed(errors) => Failed(errors)
              case Parsed(value) => Parsed(List(before.items + [value]))
  {
    hide Parse, ItemPath;
  }

  lemma LastItemReads(item: Shape, caller: Caller, path: string, items: seq<Json>, i: nat)
    requires i < |items|
    ensures ItemsReadable(item, caller, path, items, i) <==> ItemsReadable(item, caller, path, items[..|items| - 1], i)
    ensures ItemsReadable(item, caller, path, items, i + 1) <==>
            ItemsReadable(item, caller, path, items, i) && Readable(item, caller, ItemPath(path, i), items[i])
  {
    hide Readable, ItemPath;
    var head := items[..|items| - 1];
    assert forall j :: 0 <= j < i ==> head[j] == items[j];
  }

  lemma LastItemBlames(item: Shape, caller: Caller, path: string, items: seq<Json>, e: Error)
    requires items != []
    ensures ItemsBlame(item, caller, path, items, e) <==>
            ItemsBlame(item, caller, path, items[..|items| - 1], e) ||
            ItemBlamed(item, caller, path, items, |items| - 1, e)
  {
    hide ItemBlamed;
    var head := items[..|items| - 1];
    forall i: nat | i < |head|
      ensures ItemBlamed(item, caller, path, items, i, e) <==> ItemBlamed(item, caller, path, head, i, e)
    {
      EarlierBlamed(item, caller, path, items, i, e);
    }
  }

  lemma EarlierBlamed(item: Shape, caller: Caller, path: string, items: seq<Json>, i: nat, e: Error)
    requires i < |items| - 1
    ensures ItemBlamed(item, caller, path, items, i, e) <==> ItemBlamed(item, caller, path, items[..|items| - 1], i, e)
  {
    hide ItemsReadable, Blames;
    LastItemReads(item, caller, path, items, i);
  }

  lemma {:induction false} MapBlames(entry: Shape, caller: Caller, path: string, fields: map<string, Json>, e: Error)
    requires Normal(entry)
    ensures Reports(Gathered(Entries(entry, caller, path, fields)), e) <==>
            exists k :: k in fields && Blames(entry, caller, JoinPath(path, k), fields[k], e)
    decreases entry, 1
  {
    hide Normal, Parse, Blames, Gathered, JoinPath, Reports;
    var outcomes := Entries(entry, caller, path, fields);
    GatheredMeans(outcomes, Wire(JNull), e);
    forall k | k in fields ensures Reports(outcomes[k], e) <==> Blames(entry, caller, JoinPath(path, k), fields[k], e) {
      ParseBlames(entry, caller, JoinPath(path, k), fields[k], e);
    }
  }

  lemma {:induction false} ObjectParseBlames(def: ObjectDef, caller: Caller, path: string, fields: map<string, Json>, e: Error)
    requires NormalParams(def.params)
    ensures Reports(ParseObject(def, caller, path, fields), e) <==> ObjectBlames(def, caller, path, fields, e)
    decreases def, 1
  {
    hide NormalParams, ParamsRead, ParseParams, Offending, Stray, ParamsBlame, FinishBlames, Finish, JoinPath;
    OffendingMeans(def.params, caller, fields);
    ParamsParseBlame(def.params, caller, path, fields, e);
    forall parsed
      ensures ParseParams(def.params, caller, path, fields) == All(parsed) <==>
              ParamsRead(def.params, caller, path, fields, parsed)
      ensures Reports(Finish(def, path, parsed), e) <==> FinishBlames(def, path, parsed, e)
    {
      ParamsParse(def.params, caller, path, fields, parsed);
      FinishMeans(def, path, parsed, e);
    }
    if ParseParams(def.params, caller, path, fields).All? {
      assert ParamsRead(def.params, caller, path, fields, ParseParams(def.params, caller, path, fields).params);
    }
  }

  lemma FinishMeans(def: ObjectDef, path: string, parsed: map<string, Option<Value>>, e: Error)
    ensures Reports(Finish(def, path, parsed), e) <==> FinishBlames(def, path, parsed, e)
  {
    hide Rules.Kept, FirstViolation, RulesBlame, TrimSpace;
    FirstViolationMeans(def.rules, Presence(parsed));
    if RulesBlame(def.rules, path, Presence(parsed), e) { BlamedRule(def.rules, path, Presence(parsed), e); }
    if FirstViolation(def.rules, Presence(parsed)).Some? {
      assert RulesBlame(def.rules, path, Presence(parsed), BrokenRule(path, FirstViolation(def.rules, Presence(parsed)).value));
    }
  }

  lemma BlamedRule(rules: seq<Rules.PresenceRule>, path: string, presence: map<string, bool>, e: Error)
    requires RulesBlame(rules, path, presence, e)
    ensures e.BrokenRule? && e == BrokenRule(path, e.violation)
  {
  }

  lemma {:induction false} ParamsParseReadable(params: seq<Parameter>, caller: Caller, path: string, fields: map<string, Json>)
    requires NormalParams(params)
    ensures ParseParams(params, caller, path, fields).All? <==> ParamsReadable(params, caller, path, fields, |params|)
  {
    if params != [] {
      hide ParseParams, ParseParameter, MemberReadable, NormalParams, Normal, Allows, ParamsReadable;
      var n := |params| - 1;
      var head, p := params[..n], params[n];
      assert params == head + [p];
      HeadNormal(params);
      ParamsParseReadable(head, caller, path, fields);
      LastParam(head, p, caller, path, fields);
      LastParamReads(params, caller, path, fields, n);
      MemberParsesReadable(p, caller, path, fields);
    }
  }

  lemma {:induction false} ParamsParseBlame(
    params: seq<Parameter>, caller: Caller, path: string, fields: map<string, Json>, e: Error)
    requires NormalParams(params)
    ensures StopsWith(ParseParams(params, caller, path, fields), e) <==> ParamsBlame(params, caller, path, fields, e)
    decreases params, 1
  {
    if params != [] {
      hide ParseParams, ParseParameter, MemberBlames, NormalParams, Normal, ParamsReadable, ParamsBlame, ParamBlamed, StopsWith,
        BadWith;
      var n := |params| - 1;
      HeadNormal(params);
      ParamsParseBlame(params[..n], caller, path, fields, e);
      ParamsParseReadable(params[..n], caller, path, fields);
      MemberParseBlames(params[n], caller, path, fields, e);
      ParamsBlameStep(params, caller, path, fields, e);
    }
  }

  lemma ParamsBlameStep(params: seq<Parameter>, caller: Caller, path: string, fields: map<string, Json>, e: Error)
    requires params != []
    requires var head := params[..|params| - 1];
             (StopsWith(ParseParams(head, caller, path, fields), e) <==> ParamsBlame(head, caller, path, fields, e)) &&
             (ParseParams(head, caller, path, fields).All? <==> ParamsReadable(head, caller, path, fields, |head|))
    requires var p := params[|params| - 1];
             BadWith(ParseParameter(p, caller, path, fields), e) <==> MemberBlames(p, caller, path, fields, e)
    ensures StopsWith(ParseParams(params, caller, path, fields), e) <==> ParamsBlame(params, caller, path, fields, e)
  {
    hide ParseParams, ParseParameter, MemberBlames, ParamsReadable, ParamsBlame, Allows;
    var n := |params| - 1;
    assert params == params[..n] + [params[n]];
    LastParam(params[..n], params[n], caller, path, fields);
    LastParamReads(params, caller, path, fields, n);
    LastParamBlames(params, caller, path, fields, e);
  }

  lemma LastParamReads(params: seq<Parameter>, caller: Caller, path: string, fields: map<string, Json>, i: nat)
    requires i < |params|
    ensures ParamsReadable(params, caller, path, fields, i) <==>
            ParamsReadable(params[..|params| - 1], caller, path, fields, i)
    ensures ParamsReadable(params, caller, path, fields, i + 1) <==>
            ParamsReadable(params, caller, path, fields, i) &&
            (Allows(params[i].availability, caller) ==> MemberReadable(params[i], caller, path, fields))
  {
    hide MemberReadable, Allows;
    var head := params[..|params| - 1];
    assert forall j :: 0 <= j < i ==> head[j] == params[j];
  }

  lemma LastParamBlames(params: seq<Parameter>, caller: Caller, path: string, fields: map<string, Json>, e: Error)
    requires params != []
    ensures ParamsBlame(params, caller, path, fields, e) <==>
            ParamsBlame(params[..|params| - 1], caller, path, fields, e) ||
            ParamBlamed(params, caller, path, fields, |params| - 1, e)
  {
    hide ParamBlamed;
    var head := params[..|params| - 1];
    forall i: nat | i < |head|
      ensures ParamBlamed(params, caller, path, fields, i, e) <==> ParamBlamed(head, caller, path, fields, i, e)
    {
      EarlierParamBlamed(params, caller, path, fields, i, e);
    }
  }

  lemma EarlierParamBlamed(
    params: seq<Parameter>, caller: Caller, path: string, fields: map<string, Json>, i: nat, e: Error)
    requires i < |params| - 1
    ensures ParamBlamed(params, caller, path, fields, i, e) <==>
            ParamBlamed(params[..|params| - 1], caller, path, fields, i, e)
  {
    hide ParamsReadable, MemberBlames, Allows;
    LastParamReads(params, caller, path, fields, i);
  }

  lemma {:induction false} MemberParseBlames(
    p: Parameter, caller: Caller, parent: string, fields: map<string, Json>, e: Error)
    requires Normal(p.shape)
    ensures BadWith(ParseParameter(p, caller, parent, fields), e) <==> MemberBlames(p, caller, parent, fields, e)
    decreases p, 1
  {
    hide Normal, Parse, Reads, Blames, JoinPath, SizeFaultOf, WithinBounds, Oversteps, Blank, OnlySpace, Refuses, Applied, IsZero, ZeroOf;
    var path := JoinPath(parent, p.name);
    if p.name in fields {
      var raw := fields[p.name];
      NullMakes(p, path);
      BlankMeans(p, raw);
      SizeFaultMeans(p, raw);
      ParseBlames(p.shape, caller, path, raw, e);
      forall inner
        ensures Parse(p.shape, caller, path, raw) == Parsed(inner) <==> Reads(p.shape, caller, path, raw, inner)
        ensures BadWith(Applied(p, path, inner), e) <==> Refuses(p, path, inner, e)
      {
        ParseReads(p.shape, caller, path, raw, inner);
        AppliedMeans(p, path, inner);
      }
      if Parse(p.shape, caller, path, raw).Parsed? {
        assert Reads(p.shape, caller, path, raw, Parse(p.shape, caller, path, raw).value);
      }
    }
  }

  // ------------------------------------------------------------ theorems

  /** Parsing yields exactly what reads, and every error it reports is to blame. */
  lemma ParseMeans(shape: Shape, caller: Caller, path: string, raw: Json)
    requires Normal(shape)
    ensures forall value :: Parse(shape, caller, path, raw) == Parsed(value) <==> Reads(shape, caller, path, raw, value)
    ensures forall e :: Reports(Parse(shape, caller, path, raw), e) <==> Blames(shape, caller, path, raw, e)
  {
    hide Normal, Parse, Reads, Blames;
    forall value ensures Parse(shape, caller, path, raw) == Parsed(value) <==> Reads(shape, caller, path, raw, value) {
      ParseReads(shape, caller, path, raw, value);
    }
    forall e ensures Reports(Parse(shape, caller, path, raw), e) <==> Blames(shape, caller, path, raw, e) {
      ParseBlames(shape, caller, path, raw, e);
    }
  }

  lemma ItemsMean(item: Shape, caller: Caller, path: string, items: seq<Json>)
    requires Normal(item)
    ensures forall value :: ParseItems(item, caller, path, items) == Parsed(value) <==>
      value.List? && ItemsRead(item, caller, path, items, value.items)
    ensures forall e :: Reports(ParseItems(item, caller, path, items), e) <==> ItemsBlame(item, caller, path, items, e)
  {
    hide Normal, ParseItems, ItemsRead, ItemsBlame;
    forall value
      ensures ParseItems(item, caller, path, items) == Parsed(value) <==>
              value.List? && ItemsRead(item, caller, path, items, value.items)
    {
      ArrayReads(item, caller, path, items, value);
    }
    forall e ensures Reports(ParseItems(item, caller, path, items), e) <==> ItemsBlame(item, caller, path, items, e) {
      ItemsParseBlame(item, caller, path, items, e);
    }
  }

  lemma MemberMeans(p: Parameter, caller: Caller, parent: string, fields: map<string, Json>)
    requires Normal(p.shape)
    ensures forall value :: ParseParameter(p, caller, parent, fields) == Got(value) <==>
      MemberReads(p, caller, parent, fields, value)
    ensures forall e :: BadWith(ParseParameter(p, caller, parent, fields), e) <==> MemberBlames(p, caller, parent, fields, e)
  {
    hide Normal, ParseParameter, MemberReads, MemberBlames;
    forall value
      ensures ParseParameter(p, caller, parent, fields) == Got(value) <==> MemberReads(p, caller, parent, fields, value)
    {
      MemberParses(p, caller, parent, fields, value);
    }
    forall e ensures BadWith(ParseParameter(p, caller, parent, fields), e) <==> MemberBlames(p, caller, parent, fields, e) {
      MemberParseBlames(p, caller, parent, fields, e);
    }
  }

  /** What one run of a parser says, with a value or an error. */
  ghost predicate Explains(r: Result<Value, Error>, shape: Shape, caller: Caller, path: string, raw: Json) {
    match r
    case Ok(value) => Reads(shape, caller, path, raw, value)
    case Err(e) => Blames(shape, caller, path, raw, e)
  }

  ghost predicate ExplainsItems(r: Result<Value, Error>, item: Shape, caller: Caller, path: string, items: seq<Json>) {
    match r
    case Ok(value) => value.List? && ItemsRead(item, caller, path, items, value.items)
    case Err(e) => ItemsBlame(item, caller, path, items, e)
  }

  ghost predicate ExplainsMember(
    r: Result<Option<Value>, Error>, p: Parameter, caller: Caller, parent: string, fields: map<string, Json>)
  {
    match r
    case Ok(value) => MemberReads(p, caller, parent, fields, value)
    case Err(e) => MemberBlames(p, caller, parent, fields, e)
  }
}
