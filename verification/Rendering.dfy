/** Rendering a response under a pick-or-omit projection
    (response/property_projection.go, attribute.go, object.go, shape.go).
    Attributes are filtered before they are extracted; the theorem is that this
    equals rendering everything and pruning the result. */
module Rendering {
  import opened Wrappers
  import opened CallerSets
  import opened Text
  import opened JsonTrees
  import opened PropertyPaths

  /** A Go value handed to a shape. `Nil` stands for a nil of any kind. */
  datatype Source =
    | Nil
    | Plain(json: Json)
    | Items(items: seq<Source>)
    | Entries(entries: map<string, Source>)

  /** What the JSON encoder writes for a value that no shape narrows. */
  function AsJson(v: Source): Json {
    match v
    case Nil => JNull
    case Plain(json) => json
    case Items(items) => JArray(seq(|items|, i requires 0 <= i < |items| => AsJson(items[i])))
    case Entries(entries) => JObject(map k | k in entries :: AsJson(entries[k]))
  }

  /** Shape types keep element views total: a nil collection has no elements. */
  function ItemsOf(v: Source): seq<Source> {
    if v.Items? then v.items else []
  }

  function EntriesOf(v: Source): map<string, Source> {
    if v.Entries? then v.entries else map[]
  }

  datatype ScalarKind = AnyKind | StringKind | IntegerKind | NumberKind | BoolKind

  datatype Shape =
    | Scalar(kind: ScalarKind)
    | PlainArray
    | ArrayOf(item: Shape)
    | MapOf(value: Shape)
    | Object(attributes: seq<Attribute>)

  /** A getter is a pure function that may report absence. */
  datatype Attribute = Attribute(
    name: string,
    required: bool,
    shape: Shape,
    availability: CallerSet,
    getter: Source -> Option<Source>)

  /** What the constructors enforce: trimmed, non-empty attribute names, distinct within an object. */
  ghost predicate WellFormed(shape: Shape) {
    match shape
    case Scalar(_) => true
    case PlainArray => true
    case ArrayOf(item) => WellFormed(item)
    case MapOf(value) => WellFormed(value)
    case Object(attributes) => WellFormedAttributes(attributes)
  }

  ghost predicate WellFormedAttributes(attributes: seq<Attribute>) {
    && (forall i, j :: 0 <= i < j < |attributes| ==> attributes[i].name != attributes[j].name)
    && (forall i :: 0 <= i < |attributes| ==>
          attributes[i].name != "" && Trimmed(attributes[i].name) && WellFormed(attributes[i].shape))
  }

  // --------------------------------------------------------- scope stack

  datatype Scope = Scope(name: string, path: string)

  /** `projectionContext`: the caller, the projection if one is in force, and
      every enclosing resource with the path walked since. */
  datatype Context = Context(caller: Caller, projection: Option<ResponseProjection>, scopes: seq<Scope>)

  function NewContext(caller: Caller, projection: ResponseProjection): Context {
    Context(caller, if projection.Defined() then Some(projection) else None, [])
  }

  function JoinPropertyPath(parent: string, child: string): string {
    var p, c := TrimSpace(parent), TrimSpace(child);
    if p == "" then c else if c == "" then p else p + "." + c
  }

  predicate IncludesAttribute(context: Context, name: string) {
    context.projection.Some? ==>
      forall i :: 0 <= i < |context.scopes| ==>
        Includes(Selection(context.projection.value, context.scopes[i].name),
                 JoinPropertyPath(context.scopes[i].path, name))
  }

  /** The loop of `includesAttribute`. */
  method IncludesAttributeLoop(context: Context, name: string) returns (included: bool)
    ensures included == IncludesAttribute(context, name)
  {
    if context.projection.None? { return true; }
    for i := 0 to |context.scopes|
      invariant forall j :: 0 <= j < i ==>
        Includes(Selection(context.projection.value, context.scopes[j].name),
                 JoinPropertyPath(context.scopes[j].path, name))
    {
      var scope := context.scopes[i];
      var ok := IncludesPath(Selection(context.projection.value, scope.name), JoinPropertyPath(scope.path, name));
      if !ok { return false; }
    }
    return true;
  }

  function Lengthened(scopes: seq<Scope>, name: string): (r: seq<Scope>)
    ensures |r| == |scopes|
    ensures forall i :: 0 <= i < |scopes| ==>
      r[i] == Scope(scopes[i].name, JoinPropertyPath(scopes[i].path, name))
  {
    seq(|scopes|, i requires 0 <= i < |scopes| => Scope(scopes[i].name, JoinPropertyPath(scopes[i].path, name)))
  }

  /** Every enclosing path grows by the attribute, and the attribute opens its own scope. */
  function Descended(context: Context, name: string): Context {
    if context.projection.None? then context
    else context.(scopes := Lengthened(context.scopes, name) + [Scope(name, "")])
  }

  /** The append loop of `descend`. */
  method Descend(context: Context, name: string) returns (r: Context)
    ensures r == Descended(context, name)
  {
    if context.projection.None? { return context; }
    var scopes := [];
    for i := 0 to |context.scopes|
      invariant scopes == Lengthened(context.scopes, name)[..i]
    {
      var scope := context.scopes[i];
      scopes := scopes + [Scope(scope.name, JoinPropertyPath(scope.path, name))];
    }
    scopes := scopes + [Scope(name, "")];
    return context.(scopes := scopes);
  }

  // ------------------------------------------------------------- rendering

  /** The attribute is available, selected, and present in the source. */
  predicate Emits(attribute: Attribute, context: Context, source: Source) {
    Allows(attribute.availability, context.caller) && IncludesAttribute(context, attribute.name) &&
    attribute.getter(source).Some?
  }

  function Rendered(shape: Shape, context: Context, v: Source): Json
    decreases shape, 0
  {
    match shape
    case Scalar(_) => AsJson(v)
    case PlainArray => AsJson(v)
    case ArrayOf(item) =>
      JArray(seq(|ItemsOf(v)|, i requires 0 <= i < |ItemsOf(v)| => Rendered(item, context, ItemsOf(v)[i])))
    case MapOf(value) => JObject(map k | k in EntriesOf(v) :: Rendered(value, context, EntriesOf(v)[k]))
    case Object(attributes) => JObject(RenderedAttributes(attributes, context, v))
  }

  function RenderedAttributes(attributes: seq<Attribute>, context: Context, v: Source): map<string, Json>
    decreases attributes, 1
  {
    if attributes == [] then map[]
    else
      var n := |attributes| - 1;
      var a := attributes[n];
      var before := RenderedAttributes(attributes[..n], context, v);
      if Emits(a, context, v)
      then before[a.name := Rendered(a.shape, Descended(context, a.name), a.getter(v).value)]
      else before
  }

  // ------------------------------------------------------- what is shown

  /** `j` is the encoding of the value: its own JSON, null, or element by element. */
  ghost predicate Encodes(v: Source, j: Json) {
    match v
    case Nil => j == JNull
    case Plain(json) => j == json
    case Items(items) => j.JArray? && |j.items| == |items| && forall i :: 0 <= i < |items| ==> Encodes(items[i], j.items[i])
    case Entries(entries) =>
      j.JObject? && j.fields.Keys == entries.Keys && forall k :: k in entries ==> Encodes(entries[k], j.fields[k])
  }

  lemma {:induction false} AsJsonEncodes(v: Source, j: Json)
    ensures j == AsJson(v) <==> Encodes(v, j)
  {
    match v
    case Nil =>
    case Plain(_) =>
    case Items(items) =>
      if j.JArray? && |j.items| == |items| {
        forall i | 0 <= i < |items| ensures j.items[i] == AsJson(items[i]) <==> Encodes(items[i], j.items[i]) {
          AsJsonEncodes(items[i], j.items[i]);
        }
        if Encodes(v, j) { assert j.items == AsJson(v).items; }
      }
    case Entries(entries) =>
      if j.JObject? && j.fields.Keys == entries.Keys {
        forall k | k in entries ensures j.fields[k] == AsJson(entries[k]) <==> Encodes(entries[k], j.fields[k]) {
          AsJsonEncodes(entries[k], j.fields[k]);
        }
        if Encodes(v, j) { assert j.fields == AsJson(v).fields; }
      }
  }

  /** `j` shows the value in the shape: a scalar its encoding, an array its items
      in order, a map its entries under their keys, and an object exactly the
      attributes that are available, included and there, each under its own name. */
  ghost predicate Displays(shape: Shape, context: Context, v: Source, j: Json)
    decreases shape, 0
  {
    match shape
    case Scalar(_) => Encodes(v, j)
    case PlainArray => Encodes(v, j)
    case ArrayOf(item) =>
      j.JArray? && |j.items| == |ItemsOf(v)| &&
      forall i :: 0 <= i < |j.items| ==> Displays(item, context, ItemsOf(v)[i], j.items[i])
    case MapOf(value) =>
      j.JObject? && j.fields.Keys == EntriesOf(v).Keys &&
      forall k :: k in j.fields ==> Displays(value, context, EntriesOf(v)[k], j.fields[k])
    case Object(attributes) => j.JObject? && DisplaysFields(attributes, context, v, j.fields)
  }

  ghost predicate DisplaysFields(attributes: seq<Attribute>, context: Context, v: Source, fields: map<string, Json>)
    decreases attributes, 1
  {
    && (forall name :: name in fields ==> Delivered(attributes, context, v, name))
    && (forall i :: 0 <= i < |attributes| && Emits(attributes[i], context, v) ==>
          var a := attributes[i];
          a.name in fields && Displays(a.shape, Descended(context, a.name), a.getter(v).value, fields[a.name]))
  }

  ghost predicate Delivered(attributes: seq<Attribute>, context: Context, v: Source, name: string) {
    exists i :: 0 <= i < |attributes| && attributes[i].name == name && Emits(attributes[i], context, v)
  }

  /** Rendering shows the value, and nothing else does. */
  lemma {:induction false} RenderedDisplays(shape: Shape, context: Context, v: Source, j: Json)
    requires WellFormed(shape)
    ensures j == Rendered(shape, context, v) <==> Displays(shape, context, v, j)
    decreases shape, 0
  {
    hide AsJson, Encodes, DisplaysFields, RenderedAttributes, WellFormedAttributes;
    match shape
    case Scalar(_) => AsJsonEncodes(v, j);
    case PlainArray => AsJsonEncodes(v, j);
    case ArrayOf(item) =>
      if j.JArray? && |j.items| == |ItemsOf(v)| {
        forall i | 0 <= i < |j.items|
          ensures j.items[i] == Rendered(item, context, ItemsOf(v)[i]) <==> Displays(item, context, ItemsOf(v)[i], j.items[i])
        {
          RenderedDisplays(item, context, ItemsOf(v)[i], j.items[i]);
        }
        if Displays(shape, context, v, j) { assert j.items == Rendered(shape, context, v).items; }
      }
    case MapOf(value) =>
      if j.JObject? && j.fields.Keys == EntriesOf(v).Keys {
        forall k | k in j.fields
          ensures j.fields[k] == Rendered(value, context, EntriesOf(v)[k]) <==>
                  Displays(value, context, EntriesOf(v)[k], j.fields[k])
        {
          RenderedDisplays(value, context, EntriesOf(v)[k], j.fields[k]);
        }
        if Displays(shape, context, v, j) { assert j.fields == Rendered(shape, context, v).fields; }
      }
    case Object(attributes) => if j.JObject? { AttributesDisplay(attributes, context, v, j.fields); }
  }

  lemma {:induction false} AttributesDisplay(
    attributes: seq<Attribute>, context: Context, v: Source, fields: map<string, Json>)
    requires WellFormedAttributes(attributes)
    ensures fields == RenderedAttributes(attributes, context, v) <==> DisplaysFields(attributes, context, v, fields)
    decreases attributes, 1
  {
    if attributes == [] {
      if DisplaysFields(attributes, context, v, fields) { assert fields == map[]; }
    } else {
      hide Rendered, Displays, Emits, IncludesAttribute, Allows, WellFormed, DisplaysFields, RenderedAttributes, Descended;
      var n := |attributes| - 1;
      var head, a := attributes[..n], attributes[n];
      LastRendered(attributes, context, v);
      HeadWellFormed(attributes);
      if Emits(a, context, v) {
        var before := RenderedAttributes(head, context, v);
        AttributesDisplay(head, context, v, before);
        LastUndelivered(attributes, context, v, before);
        LastDisplays(attributes, context, v, fields);
        if a.name in fields {
          AttributesDisplay(head, context, v, fields - {a.name});
          RenderedDisplays(a.shape, Descended(context, a.name), a.getter(v).value, fields[a.name]);
          assert fields == (fields - {a.name})[a.name := fields[a.name]];
        }
        assert before[a.name := Rendered(a.shape, Descended(context, a.name), a.getter(v).value)] - {a.name} == before;
      } else {
        AttributesDisplay(head, context, v, fields);
        LastHidden(attributes, context, v, fields);
      }
    }
  }

  lemma LastRendered(attributes: seq<Attribute>, context: Context, v: Source)
    requires attributes != []
    ensures var a := attributes[|attributes| - 1];
            var before := RenderedAttributes(attributes[..|attributes| - 1], context, v);
            (Emits(a, context, v) ==> a.getter(v).Some?) &&
            RenderedAttributes(attributes, context, v) ==
            if Emits(a, context, v)
            then before[a.name := Rendered(a.shape, Descended(context, a.name), a.getter(v).value)] else before
  {
    hide Rendered, IncludesAttribute, Allows;
  }

  lemma HeadWellFormed(attributes: seq<Attribute>)
    requires attributes != [] && WellFormedAttributes(attributes)
    ensures WellFormedAttributes(attributes[..|attributes| - 1]) && WellFormed(attributes[|attributes| - 1].shape)
  {
    hide WellFormed, Trimmed;
  }

  lemma DeliveredLast(attributes: seq<Attribute>, context: Context, v: Source, name: string)
    requires attributes != []
    ensures var a := attributes[|attributes| - 1];
            Delivered(attributes, context, v, name) <==>
            Delivered(attributes[..|attributes| - 1], context, v, name) || (a.name == name && Emits(a, context, v))
  {
    hide Emits;
    var n := |attributes| - 1;
    var head := attributes[..n];
    if i :| 0 <= i < n && head[i].name == name && Emits(head[i], context, v) { assert attributes[i] == head[i]; }
    if i :| 0 <= i < |attributes| && attributes[i].name == name && Emits(attributes[i], context, v) {
      if i < n { assert head[i] == attributes[i]; }
    }
  }

  lemma LastUndelivered(attributes: seq<Attribute>, context: Context, v: Source, fields: map<string, Json>)
    requires attributes != [] && WellFormedAttributes(attributes)
    requires DisplaysFields(attributes[..|attributes| - 1], context, v, fields)
    ensures attributes[|attributes| - 1].name !in fields
  {
    hide Displays, Emits, WellFormed, Trimmed;
  }

  lemma LastHidden(attributes: seq<Attribute>, context: Context, v: Source, fields: map<string, Json>)
    requires attributes != [] && !Emits(attributes[|attributes| - 1], context, v)
    ensures DisplaysFields(attributes, context, v, fields) <==> DisplaysFields(attributes[..|attributes| - 1], context, v, fields)
  {
    hide Displays, Delivered, IncludesAttribute, Allows, Descended;
    var n := |attributes| - 1;
    var head := attributes[..n];
    forall name ensures Delivered(attributes, context, v, name) <==> Delivered(head, context, v, name) {
      DeliveredLast(attributes, context, v, name);
    }
    forall i | 0 <= i < n ensures head[i] == attributes[i] {}
  }

  lemma LastDisplays(attributes: seq<Attribute>, context: Context, v: Source, fields: map<string, Json>)
    requires attributes != [] && WellFormedAttributes(attributes) && Emits(attributes[|attributes| - 1], context, v)
    ensures var a := attributes[|attributes| - 1];
            DisplaysFields(attributes, context, v, fields) <==>
            a.name in fields && Displays(a.shape, Descended(context, a.name), a.getter(v).value, fields[a.name]) &&
            DisplaysFields(attributes[..|attributes| - 1], context, v, fields - {a.name})
  {
    hide Displays, Delivered, IncludesAttribute, Allows, WellFormed, Trimmed, Descended;
    var n := |attributes| - 1;
    var head, a := attributes[..n], attributes[n];
    forall name ensures Delivered(attributes, context, v, name) <==> Delivered(head, context, v, name) || name == a.name {
      DeliveredLast(attributes, context, v, name);
    }
    forall i | 0 <= i < n ensures head[i] == attributes[i] && attributes[i].name != a.name {}
  }

  /** `projectShape`, with the loops of the array, map and object shapes. */
  method ProjectShape(shape: Shape, context: Context, v: Source) returns (json: Json)
    ensures json == Rendered(shape, context, v)
    ensures WellFormed(shape) ==> Displays(shape, context, v, json)
    decreases shape, 2
  {
    hide Displays, WellFormed, AsJson;
    if WellFormed(shape) { RenderedDisplays(shape, context, v, Rendered(shape, context, v)); }
    match shape
    case Scalar(_) => json := AsJson(v);
    case PlainArray => json := AsJson(v);
    case ArrayOf(item) =>
      var projected := ProjectItems(item, context, ItemsOf(v));
      json := JArray(projected);
    case MapOf(value) =>
      var projected := ProjectEntries(value, context, EntriesOf(v));
      json := JObject(projected);
    case Object(attributes) =>
      var fields := ProjectObject(attributes, context, v);
      json := JObject(fields);
  }

  /** The loop over the items of an array. */
  method ProjectItems(item: Shape, context: Context, items: seq<Source>) returns (projected: seq<Json>)
    ensures |projected| == |items|
    ensures forall j :: 0 <= j < |items| ==> projected[j] == Rendered(item, context, items[j])
    decreases item, 3
  {
    hide Rendered;
    projected := [];
    for i := 0 to |items|
      invariant |projected| == i
      invariant forall j :: 0 <= j < i ==> projected[j] == Rendered(item, context, items[j])
    {
      var one := ProjectShape(item, context, items[i]);
      projected := projected + [one];
    }
  }

  /** The loop over the entries of a map, in any order. */
  method ProjectEntries(value: Shape, context: Context, entries: map<string, Source>) returns (projected: map<string, Json>)
    ensures projected.Keys == entries.Keys
    ensures forall k :: k in projected ==> projected[k] == Rendered(value, context, entries[k])
    decreases value, 3
  {
    hide Rendered;
    projected := map[];
    var left := entries.Keys;
    while left != {}
      invariant left <= entries.Keys && projected.Keys == entries.Keys - left
      invariant forall k :: k in projected ==> projected[k] == Rendered(value, context, entries[k])
      decreases |left|
    {
      var k :| k in left;
      left := left - {k};
      var one := ProjectShape(value, context, entries[k]);
      projected := projected[k := one];
    }
  }

  /** The loop of `ObjectShape.project`. */
  method ProjectObject(attributes: seq<Attribute>, context: Context, v: Source) returns (fields: map<string, Json>)
    ensures fields == RenderedAttributes(attributes, context, v)
    decreases attributes, 3
  {
    fields := map[];
    for i := 0 to |attributes|
      invariant fields == RenderedAttributes(attributes[..i], context, v)
    {
      assert attributes[..i + 1][..i] == attributes[..i];
      var a := attributes[i];
      var projected := ProjectAttribute(a.name, a.availability, a.shape, a.getter, context, v);
      if projected.Some? { fields := fields[attributes[i].name := projected.value]; }
    }
    assert attributes[..|attributes|] == attributes;
  }

  /** `projectAttribute`. The getter is called only for an attribute that is
      available and included: for any other it need not be callable. */
  method ProjectAttribute(name: string, availability: CallerSet, shape: Shape, getter: Source --> Option<Source>,
                          context: Context, source: Source) returns (r: Option<Json>)
    requires Allows(availability, context.caller) && IncludesAttribute(context, name) ==> getter.requires(source)
    ensures r == if Allows(availability, context.caller) && IncludesAttribute(context, name) && getter(source).Some?
                 then Some(Rendered(shape, Descended(context, name), getter(source).value)) else None
    decreases shape, 3
  {
    if !Allows(availability, context.caller) { return None; }
    var included := IncludesAttributeLoop(context, name);
    if !included { return None; }
    var value := getter(source);
    if value.None? { return None; }
    var below := Descend(context, name);
    var json := ProjectShape(shape, below, value.value);
    return Some(json);
  }

  // ------------------------------------------------------ render, then prune

  /** The dotted segments of a list of attribute names. */
  ghost function SegmentsOf(names: seq<string>): seq<string> {
    if names == [] then [] else SegmentsOf(names[..|names| - 1]) + Segments(names[|names| - 1])
  }

  /** `trail` is the chain of attribute names from the top down to an object,
      `name` one of the object's attributes. Each name on the trail is a
      resource, and its selection judges the path from there on. */
  ghost predicate Excluded(projection: ResponseProjection, trail: seq<string>, name: string) {
    exists j :: 0 <= j < |trail| &&
      LeavesOut(Selection(projection, trail[j]), SegmentsOf(trail[j + 1..] + [name]))
  }

  /** Removes from a finished rendering every attribute that some enclosing
      resource excludes. The shape tells attributes from map keys. */
  ghost function Prune(shape: Shape, projection: ResponseProjection, trail: seq<string>, json: Json): Json
    decreases shape, 0
  {
    match shape
    case Scalar(_) => json
    case PlainArray => json
    case ArrayOf(item) =>
      if !json.JArray? then json
      else JArray(seq(|json.items|, i requires 0 <= i < |json.items| => Prune(item, projection, trail, json.items[i])))
    case MapOf(value) =>
      if !json.JObject? then json
      else JObject(map k | k in json.fields :: Prune(value, projection, trail, json.fields[k]))
    case Object(attributes) =>
      if !json.JObject? then json else JObject(PruneFields(attributes, projection, trail, json.fields))
  }

  ghost function PruneFields(
    attributes: seq<Attribute>, projection: ResponseProjection, trail: seq<string>, fields: map<string, Json>): map<string, Json>
    decreases attributes, 1
  {
    if attributes == [] then map[]
    else
      var n := |attributes| - 1;
      var name := attributes[n].name;
      var before := PruneFields(attributes[..n], projection, trail, fields);
      if name in fields && !Excluded(projection, trail, name)
      then before[name := Prune(attributes[n].shape, projection, trail + [name], fields[name])]
      else before
  }

  /** The rendering that no projection narrows. */
  function Full(shape: Shape, caller: Caller, v: Source): Json {
    Rendered(shape, Context(caller, None, []), v)
  }

  ghost predicate PlainNames(names: seq<string>) {
    forall i :: 0 <= i < |names| ==> names[i] != "" && Trimmed(names[i])
  }

  /** The context the renderer holds below a chain of attribute names. */
  ghost predicate ContextFor(context: Context, caller: Caller, projection: ResponseProjection, trail: seq<string>) {
    && context.caller == caller
    && PlainNames(trail)
    && if !projection.Defined() then context.projection == None
       else
         && context.projection == Some(projection)
         && |context.scopes| == |trail|
         && forall j :: 0 <= j < |trail| ==> context.scopes[j] == Scope(trail[j], JoinedFrom(trail, j + 1))
  }

  ghost function JoinedFrom(trail: seq<string>, j: nat): string
    requires j <= |trail|
  {
    if j == |trail| then "" else Join(trail[j..])
  }

  lemma {:induction false} JoinPlain(names: seq<string>)
    requires names != [] && PlainNames(names)
    ensures Join(names) != "" && Trimmed(Join(names))
    ensures Join(names)[0] == names[0][0]
  {
    if |names| > 1 { JoinPlain(names[1..]); }
  }

  lemma {:induction false} JoinSnoc(names: seq<string>, name: string)
    requires names != []
    ensures Join(names + [name]) == Join(names) + "." + name
  {
    JoinOfConcat(names, [name]);
  }

  lemma {:induction false} JoinSegments(names: seq<string>)
    requires names != []
    ensures Segments(Join(names)) == SegmentsOf(names)
  {
    var n := |names| - 1;
    if n == 0 {
      assert SegmentsOf(names) == SegmentsOf([]) + Segments(names[0]);
    } else {
      assert names == names[..n] + [names[n]];
      JoinSnoc(names[..n], names[n]);
      SegmentsOfDotted(Join(names[..n]), names[n]);
      JoinSegments(names[..n]);
    }
  }

  /** Joining a scope's path with the next attribute, as the renderer does. */
  lemma JoinStep(trail: seq<string>, j: nat, name: string)
    requires j <= |trail| && PlainNames(trail) && name != "" && Trimmed(name)
    ensures JoinPropertyPath(JoinedFrom(trail, j), name) == Join(trail[j..] + [name])
    ensures JoinedFrom(trail + [name], j) == Join(trail[j..] + [name])
  {
    hide TrimSpace, Join, PlainNames;
    TrimmedIsFixed(name);
    assert (trail + [name])[j..] == trail[j..] + [name];
    if j == |trail| {
      TrimmedIsFixed("");
      assert trail[j..] + [name] == [name];
      JoinOne(name);
    } else {
      PlainSuffix(trail, j);
      JoinPlain(trail[j..]);
      TrimmedIsFixed(Join(trail[j..]));
      JoinSnoc(trail[j..], name);
    }
  }

  lemma JoinOne(name: string)
    ensures Join([name]) == name
  {
  }

  lemma PlainSuffix(trail: seq<string>, j: nat)
    requires j <= |trail| && PlainNames(trail)
    ensures PlainNames(trail[j..])
  {
  }

  /** The scope stack decides exactly as the segment-wise definition does. */
  lemma IncludesIsNotExcluded(context: Context, caller: Caller, projection: ResponseProjection, trail: seq<string>, name: string)
    requires ContextFor(context, caller, projection, trail) && name != "" && Trimmed(name)
    ensures IncludesAttribute(context, name) <==> !Excluded(projection, trail, name)
  {
    hide Includes, LeavesOut, Join, Segments, JoinPropertyPath, SegmentsOf;
    if projection.Defined() {
      forall j | 0 <= j < |trail|
        ensures Includes(Selection(projection, trail[j]), JoinPropertyPath(context.scopes[j].path, name)) <==>
                !LeavesOut(Selection(projection, trail[j]), SegmentsOf(trail[j + 1..] + [name]))
      {
        var names := trail[j + 1..] + [name];
        JoinStep(trail, j + 1, name);
        JoinPlain(names);
        JoinSegments(names);
        IncludesBySegments(Selection(projection, trail[j]), Join(names));
      }
    } else {
      assert projection.resources == map[];
      forall j | 0 <= j < |trail| ensures !LeavesOut(Selection(projection, trail[j]), SegmentsOf(trail[j + 1..] + [name])) {
        NothingLeftOut(SegmentsOf(trail[j + 1..] + [name]));
      }
    }
  }

  lemma NothingLeftOut(segments: seq<string>)
    ensures !LeavesOut(UNDEFINED_SELECTION, segments)
  {
  }

  /** Descending keeps the stack in step with the chain of names. */
  lemma DescendedFor(context: Context, caller: Caller, projection: ResponseProjection, trail: seq<string>, name: string)
    requires ContextFor(context, caller, projection, trail) && name != "" && Trimmed(name)
    ensures ContextFor(Descended(context, name), caller, projection, trail + [name])
  {
    hide Join, JoinPropertyPath;
    if projection.Defined() {
      var below, longer := Descended(context, name), trail + [name];
      forall j | 0 <= j < |longer| ensures below.scopes[j] == Scope(longer[j], JoinedFrom(longer, j + 1)) {
        if j < |trail| { JoinStep(trail, j + 1, name); }
      }
    }
  }

  /** Rendering under a projection is rendering in full and pruning, below any
      chain of enclosing attributes. */
  lemma {:induction false} RenderPrunesBelow(
    shape: Shape, context: Context, caller: Caller, projection: ResponseProjection, trail: seq<string>, v: Source)
    requires WellFormed(shape) && ContextFor(context, caller, projection, trail)
    ensures Rendered(shape, context, v) == Prune(shape, projection, trail, Full(shape, caller, v))
    decreases shape, 0
  {
    hide ContextFor, AsJson, Excluded;
    match shape
    case Scalar(_) =>
    case PlainArray =>
    case ArrayOf(item) =>
      var items := ItemsOf(v);
      forall i | 0 <= i < |items|
        ensures Rendered(item, context, items[i]) == Prune(item, projection, trail, Full(item, caller, items[i]))
      {
        RenderPrunesBelow(item, context, caller, projection, trail, items[i]);
      }
      assert Rendered(shape, context, v).items == Prune(shape, projection, trail, Full(shape, caller, v)).items;
    case MapOf(value) =>
      var entries := EntriesOf(v);
      forall k | k in entries
        ensures Rendered(value, context, entries[k]) == Prune(value, projection, trail, Full(value, caller, entries[k]))
      {
        RenderPrunesBelow(value, context, caller, projection, trail, entries[k]);
      }
      assert Rendered(shape, context, v).fields == Prune(shape, projection, trail, Full(shape, caller, v)).fields;
    case Object(attributes) =>
      RenderPrunesFields(attributes, context, caller, projection, trail, v);
  }

  lemma {:induction false} RenderPrunesFields(
    attributes: seq<Attribute>, context: Context, caller: Caller, projection: ResponseProjection, trail: seq<string>, v: Source)
    requires WellFormedAttributes(attributes) && ContextFor(context, caller, projection, trail)
    ensures RenderedAttributes(attributes, context, v) ==
            PruneFields(attributes, projection, trail, RenderedAttributes(attributes, Context(caller, None, []), v))
    decreases attributes, 1
  {
    hide ContextFor, Excluded, IncludesAttribute;
    if attributes != [] {
      var n := |attributes| - 1;
      var a := attributes[n];
      var plain := Context(caller, None, []);
      var full := RenderedAttributes(attributes, plain, v);
      var head := RenderedAttributes(attributes[..n], plain, v);
      RenderPrunesFields(attributes[..n], context, caller, projection, trail, v);
      FieldsNamed(attributes[..n], plain, v);
      PruneFieldsSame(attributes[..n], projection, trail, head, full);
      IncludesIsNotExcluded(context, caller, projection, trail, a.name);
      EmitsPlainly(a, context, caller, projection, trail, v);
      if a.getter(v).Some? {
        DescendedFor(context, caller, projection, trail, a.name);
        RenderPrunesBelow(a.shape, Descended(context, a.name), caller, projection, trail + [a.name], a.getter(v).value);
      }
    }
  }

  /** Without a projection an attribute is emitted when available and present;
      with one it must be included as well. */
  lemma EmitsPlainly(a: Attribute, context: Context, caller: Caller, projection: ResponseProjection, trail: seq<string>, v: Source)
    requires ContextFor(context, caller, projection, trail)
    ensures Emits(a, context, v) <==> Emits(a, Context(caller, None, []), v) && IncludesAttribute(context, a.name)
    ensures Descended(Context(caller, None, []), a.name) == Context(caller, None, [])
  {
  }

  /** Only attribute names become keys. */
  lemma {:induction false} FieldsNamed(attributes: seq<Attribute>, context: Context, v: Source)
    ensures forall k :: k in RenderedAttributes(attributes, context, v) ==>
              exists i :: 0 <= i < |attributes| && attributes[i].name == k && Emits(attributes[i], context, v)
  {
    if attributes != [] {
      var n := |attributes| - 1;
      FieldsNamed(attributes[..n], context, v);
      forall k | k in RenderedAttributes(attributes, context, v)
        ensures exists i :: 0 <= i < |attributes| && attributes[i].name == k && Emits(attributes[i], context, v)
      {
        if k in RenderedAttributes(attributes[..n], context, v) {
          var i :| 0 <= i < n && attributes[..n][i].name == k && Emits(attributes[..n][i], context, v);
          assert attributes[i].name == k && Emits(attributes[i], context, v);
        } else {
          assert attributes[n].name == k && Emits(attributes[n], context, v);
        }
      }
    }
  }

  /** Pruning looks only at the attributes' own fields. */
  lemma {:induction false} PruneFieldsSame(
    attributes: seq<Attribute>, projection: ResponseProjection, trail: seq<string>,
    a: map<string, Json>, b: map<string, Json>)
    requires forall i :: 0 <= i < |attributes| ==>
      (attributes[i].name in a <==> attributes[i].name in b) &&
      (attributes[i].name in a ==> a[attributes[i].name] == b[attributes[i].name])
    ensures PruneFields(attributes, projection, trail, a) == PruneFields(attributes, projection, trail, b)
  {
    hide Excluded;
    if attributes != [] { PruneFieldsSame(attributes[..|attributes| - 1], projection, trail, a, b); }
  }

  /** Rendering for a caller under a projection equals rendering in full for
      that caller and pruning what some enclosing resource excludes, for every
      nesting of objects, arrays and maps. */
  lemma RenderIsFullThenPruned(shape: Shape, caller: Caller, projection: ResponseProjection, v: Source)
    requires WellFormed(shape)
    ensures Rendered(shape, NewContext(caller, projection), v) == Prune(shape, projection, [], Full(shape, caller, v))
  {
    RenderPrunesBelow(shape, NewContext(caller, projection), caller, projection, [], v);
  }
}
