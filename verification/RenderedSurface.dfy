/** The described surface of a response and the rendered one are the same: the
    paths a described shape declares for a caller are the paths the renderer
    emits for that caller (response/attribute.go, object.go, shape.go). */
module RenderedSurface {
  import opened Wrappers
  import opened CallerSets
  import opened JsonTrees
  import opened PropertyPaths
  import opened Rendering
  import Specs = ResponseShapes

  // ---------------------------------------------------------- describing

  function TypeOf(kind: ScalarKind): Specs.ShapeType {
    match kind
    case AnyKind => Specs.AnyType
    case StringKind => Specs.StringType
    case IntegerKind => Specs.IntegerType
    case NumberKind => Specs.NumberType
    case BoolKind => Specs.BoolType
  }

  /** `describeShape`. */
  function Described(shape: Shape): Specs.ShapeSpec {
    match shape
    case Scalar(kind) => Specs.ShapeSpec(TypeOf(kind), [], None, None, [])
    case PlainArray =>
      Specs.ShapeSpec(Specs.ArrayType, [], Some(Specs.ShapeSpec(Specs.AnyType, [], None, None, [])), None, [])
    case ArrayOf(item) => Specs.ShapeSpec(Specs.ArrayType, [], Some(Described(item)), None, [])
    case MapOf(value) => Specs.ShapeSpec(Specs.ObjectType, [], None, Some(Described(value)), [])
    case Object(attributes) =>
      Specs.ShapeSpec(Specs.ObjectType,
                      seq(|attributes|, i requires 0 <= i < |attributes| =>
                        Specs.AttributeSpec(attributes[i].name, attributes[i].required,
                                            Clone(attributes[i].availability), Described(attributes[i].shape))),
                      None, None, [])
  }

  /** `attributeSpec`. */
  function SpecOf(a: Attribute): Specs.AttributeSpec {
    Specs.AttributeSpec(a.name, a.required, Clone(a.availability), Described(a.shape))
  }

  function SpecsOf(attributes: seq<Attribute>): (r: seq<Specs.AttributeSpec>)
    ensures |r| == |attributes| && forall i :: 0 <= i < |r| ==> r[i] == SpecOf(attributes[i])
  {
    seq(|attributes|, i requires 0 <= i < |attributes| => SpecOf(attributes[i]))
  }

  /** `AvailableTo` refuses an empty caller list, so no attribute is restricted to nobody. */
  ghost predicate Published(shape: Shape) {
    match shape
    case Scalar(_) => true
    case PlainArray => true
    case ArrayOf(item) => Published(item)
    case MapOf(value) => Published(value)
    case Object(attributes) =>
      forall i :: 0 <= i < |attributes| ==>
        !(attributes[i].availability.restricted && attributes[i].availability.callers == []) &&
        Published(attributes[i].shape)
  }

  /** The attributes of the object behind any arrays and maps. */
  function ObjectAttributes(shape: Shape): seq<Attribute> {
    match shape
    case Scalar(_) => []
    case PlainArray => []
    case ArrayOf(item) => ObjectAttributes(item)
    case MapOf(value) => ObjectAttributes(value)
    case Object(attributes) => attributes
  }

  predicate HoldsObjects(shape: Shape) {
    match shape
    case Scalar(_) => false
    case PlainArray => false
    case ArrayOf(item) => HoldsObjects(item)
    case MapOf(value) => HoldsObjects(value)
    case Object(_) => true
  }

  lemma {:induction false} DescribedUnwraps(shape: Shape)
    ensures Specs.Unwrapped(Described(shape)).typ.ObjectType? <==> HoldsObjects(shape)
    ensures HoldsObjects(shape) ==> Specs.Unwrapped(Described(shape)).attributes == SpecsOf(ObjectAttributes(shape))
    ensures !HoldsObjects(shape) ==> ObjectAttributes(shape) == []
  {
    hide Described, SpecsOf, TypeOf;
    DescribedParts(shape);
    match shape
    case ArrayOf(item) =>
      DescribedUnwraps(item);
      UnwrapsOnce(Described(shape));
    case MapOf(value) =>
      DescribedUnwraps(value);
      UnwrapsOnce(Described(shape));
    case Object(_) => UnwrapsOnce(Described(shape));
    case Scalar(_) => UnwrapsOnce(Described(shape));
    case PlainArray =>
      UnwrapsOnce(Described(shape));
      UnwrapsOnce(Specs.ShapeSpec(Specs.AnyType, [], None, None, []));
  }

  /** The description's top level. */
  lemma DescribedParts(shape: Shape)
    ensures var d := Described(shape);
            match shape
            case Scalar(_) => !d.typ.ArrayType? && !d.typ.ObjectType?
            case PlainArray => d.typ.ArrayType? && d.item == Some(Specs.ShapeSpec(Specs.AnyType, [], None, None, []))
            case ArrayOf(item) => d.typ.ArrayType? && d.item == Some(Described(item))
            case MapOf(value) => d.typ.ObjectType? && d.attributes == [] && d.mapValue == Some(Described(value))
            case Object(attributes) => d.typ.ObjectType? && d.mapValue == None && d.attributes == SpecsOf(attributes)
  {
    hide Clone;
    if shape.Object? { assert Described(shape).attributes == SpecsOf(shape.attributes); }
  }

  lemma UnwrapsOnce(shape: Specs.ShapeSpec)
    ensures Specs.Unwrapped(shape) ==
            if shape.typ.ArrayType? then
              if shape.item == None then Specs.EMPTY_SHAPE else Specs.Unwrapped(shape.item.value)
            else if shape.typ.ObjectType? && shape.attributes == [] && shape.mapValue != None then
              Specs.Unwrapped(shape.mapValue.value)
            else shape
  {
  }

  lemma NestedSpecs(a: Attribute)
    ensures Specs.IsObject(SpecOf(a)) <==> HoldsObjects(a.shape)
    ensures Specs.Nested(SpecOf(a)) == SpecsOf(ObjectAttributes(a.shape))
  {
    DescribedUnwraps(a.shape);
  }

  // ------------------------------------------------------------- emitting

  /** The rendered value holds an object from which `segments` leads down. The
      shape tells attributes from map keys. */
  ghost predicate EmitsPath(shape: Shape, json: Json, segments: seq<string>) {
    match shape
    case Scalar(_) => false
    case PlainArray => false
    case ArrayOf(item) => json.JArray? && exists i :: 0 <= i < |json.items| && EmitsPath(item, json.items[i], segments)
    case MapOf(value) => json.JObject? && exists k :: k in json.fields && EmitsPath(value, json.fields[k], segments)
    case Object(attributes) =>
      json.JObject? &&
      (segments == [] ||
       (segments[0] in json.fields &&
        exists i :: 0 <= i < |attributes| && attributes[i].name == segments[0] &&
          (|segments| == 1 || EmitsPath(attributes[i].shape, json.fields[segments[0]], segments[1..]))))
  }

  /** Somewhere in the rendered value an attribute named `resource` holds an
      object from which `segments` leads down. */
  ghost predicate EmitsResourcePath(shape: Shape, json: Json, resource: string, segments: seq<string>) {
    match shape
    case Scalar(_) => false
    case PlainArray => false
    case ArrayOf(item) =>
      json.JArray? && exists i :: 0 <= i < |json.items| && EmitsResourcePath(item, json.items[i], resource, segments)
    case MapOf(value) =>
      json.JObject? && exists k :: k in json.fields && EmitsResourcePath(value, json.fields[k], resource, segments)
    case Object(attributes) =>
      json.JObject? &&
      exists i :: 0 <= i < |attributes| && attributes[i].name in json.fields &&
        var below := json.fields[attributes[i].name];
        ((attributes[i].name == resource && EmitsPath(attributes[i].shape, below, segments))
         || EmitsResourcePath(attributes[i].shape, below, resource, segments))
  }

  /** Nothing is missing below `v`: collections hold a full element, and every
      getter the caller may use delivers. */
  ghost predicate Complete(shape: Shape, caller: Caller, v: Source) {
    match shape
    case Scalar(_) => true
    case PlainArray => true
    case ArrayOf(item) => exists i :: 0 <= i < |ItemsOf(v)| && Complete(item, caller, ItemsOf(v)[i])
    case MapOf(value) => exists k :: k in EntriesOf(v) && Complete(value, caller, EntriesOf(v)[k])
    case Object(attributes) =>
      forall i :: 0 <= i < |attributes| && Allows(attributes[i].availability, caller) ==>
        attributes[i].getter(v).Some? && Complete(attributes[i].shape, caller, attributes[i].getter(v).value)
  }

  lemma LastField(attributes: seq<Attribute>, caller: Caller, v: Source)
    requires attributes != []
    ensures var n, plain := |attributes| - 1, Context(caller, None, []);
            var head, a := RenderedAttributes(attributes[..n], plain, v), attributes[n];
            RenderedAttributes(attributes, plain, v) ==
            if Allows(a.availability, caller) && a.getter(v).Some?
            then head[a.name := Full(a.shape, caller, a.getter(v).value)] else head
  {
    hide Allows;
    var a := attributes[|attributes| - 1];
    assert Descended(Context(caller, None, []), a.name) == Context(caller, None, []);
  }

  lemma NotAField(attributes: seq<Attribute>, caller: Caller, v: Source, name: string)
    requires forall i :: 0 <= i < |attributes| ==> attributes[i].name != name
    ensures name !in RenderedAttributes(attributes, Context(caller, None, []), v)
  {
    FieldsNamed(attributes, Context(caller, None, []), v);
  }

  /** One field of a full rendering. */
  lemma {:induction false} FieldOf(attributes: seq<Attribute>, caller: Caller, v: Source, i: nat)
    requires i < |attributes|
    requires forall j, k :: 0 <= j < k < |attributes| ==> attributes[j].name != attributes[k].name
    ensures var fields, a := RenderedAttributes(attributes, Context(caller, None, []), v), attributes[i];
            (a.name in fields <==> Allows(a.availability, caller) && a.getter(v).Some?) &&
            (a.name in fields ==> fields[a.name] == Full(a.shape, caller, a.getter(v).value))
  {
    hide Full, Allows, RenderedAttributes;
    var plain, n := Context(caller, None, []), |attributes| - 1;
    var head, last := attributes[..n], attributes[n];
    LastField(attributes, caller, v);
    if i < n {
      FieldOf(head, caller, v, i);
      assert head[i] == attributes[i];
    } else {
      NotAField(head, caller, v, last.name);
    }
  }

  lemma SpecNamed(a: Attribute)
    ensures SpecOf(a).name == a.name
  {
  }

  /** With distinct names the last bearer of a name is the only one. */
  lemma {:induction false} LastIsOnly(attributes: seq<Attribute>, name: string)
    requires forall j, k :: 0 <= j < k < |attributes| ==> attributes[j].name != attributes[k].name
    ensures forall i :: 0 <= i < |attributes| && attributes[i].name == name ==>
              Specs.LastNamed(SpecsOf(attributes), name) == Some(SpecOf(attributes[i]))
    ensures (forall i :: 0 <= i < |attributes| ==> attributes[i].name != name) ==>
              Specs.LastNamed(SpecsOf(attributes), name) == None
  {
    hide Described, Clone, SpecOf;
    if attributes != [] {
      var n := |attributes| - 1;
      SpecNamed(attributes[n]);
      assert SpecsOf(attributes)[..n] == SpecsOf(attributes[..n]);
      LastIsOnly(attributes[..n], name);
      forall i | 0 <= i < n && attributes[i].name == name
        ensures Specs.LastNamed(SpecsOf(attributes), name) == Some(SpecOf(attributes[i]))
      {
        assert attributes[..n][i] == attributes[i];
      }
    }
  }

  lemma CloneAllows(shape: Shape, i: nat, caller: Caller)
    requires Published(shape) && shape.Object? && i < |shape.attributes|
    ensures Allows(Clone(shape.attributes[i].availability), caller) == Allows(shape.attributes[i].availability, caller)
  {
    ClonePreservesAllows(shape.attributes[i].availability);
  }

  /** A path under an object, one attribute at a time. */
  lemma PathBelow(shape: Shape, i: nat, segments: seq<string>, caller: Caller)
    requires WellFormed(shape) && Published(shape) && shape.Object? && i < |shape.attributes|
    requires segments != [] && shape.attributes[i].name == segments[0]
    ensures Specs.HasPath(SpecsOf(shape.attributes), segments, caller) <==>
            Allows(shape.attributes[i].availability, caller) &&
            Specs.HasPath(SpecsOf(ObjectAttributes(shape.attributes[i].shape)), segments[1..], caller)
  {
    hide Described, Clone, Specs.IsObject, Specs.Nested, Allows;
    LastIsOnly(shape.attributes, segments[0]);
    NestedSpecs(shape.attributes[i]);
    CloneAllows(shape, i, caller);
  }

  /** A nested path needs an object to lead through. */
  lemma NoPathWithoutObject(shape: Shape, segments: seq<string>, caller: Caller)
    requires segments != [] && Specs.HasPath(SpecsOf(ObjectAttributes(shape)), segments, caller)
    ensures HoldsObjects(shape)
  {
    DescribedUnwraps(shape);
  }

  /** What is emitted is declared. */
  lemma {:induction false} EmittedPathDeclared(shape: Shape, caller: Caller, v: Source, segments: seq<string>)
    requires WellFormed(shape) && Published(shape)
    requires EmitsPath(shape, Full(shape, caller, v), segments)
    ensures HoldsObjects(shape) && Specs.HasPath(SpecsOf(ObjectAttributes(shape)), segments, caller)
    decreases shape, 1
  {
    hide Described, Clone, Allows, AsJson;
    var json := Full(shape, caller, v);
    match shape
    case ArrayOf(item) =>
      var i :| 0 <= i < |json.items| && EmitsPath(item, json.items[i], segments);
      EmittedPathDeclared(item, caller, ItemsOf(v)[i], segments);
    case MapOf(value) =>
      var k :| k in json.fields && EmitsPath(value, json.fields[k], segments);
      EmittedPathDeclared(value, caller, EntriesOf(v)[k], segments);
    case Object(attributes) =>
      if segments != [] { EmittedFieldDeclared(shape, caller, v, segments); }
    case Scalar(_) =>
    case PlainArray =>
  }

  lemma EmittedField(shape: Shape, json: Json, segments: seq<string>) returns (i: nat)
    requires shape.Object? && segments != [] && EmitsPath(shape, json, segments)
    ensures i < |shape.attributes| && shape.attributes[i].name == segments[0]
    ensures json.JObject? && segments[0] in json.fields
    ensures |segments| == 1 || EmitsPath(shape.attributes[i].shape, json.fields[segments[0]], segments[1..])
  {
    i :| 0 <= i < |shape.attributes| && shape.attributes[i].name == segments[0] &&
         (|segments| == 1 || EmitsPath(shape.attributes[i].shape, json.fields[segments[0]], segments[1..]));
  }

  lemma SoundBelow(shape: Shape, i: nat)
    requires WellFormed(shape) && Published(shape) && shape.Object? && i < |shape.attributes|
    ensures WellFormed(shape.attributes[i].shape) && Published(shape.attributes[i].shape)
    ensures forall j, k :: 0 <= j < k < |shape.attributes| ==> shape.attributes[j].name != shape.attributes[k].name
  {
  }

  lemma {:induction false} EmittedFieldDeclared(shape: Shape, caller: Caller, v: Source, segments: seq<string>)
    requires WellFormed(shape) && Published(shape) && shape.Object? && segments != []
    requires EmitsPath(shape, Full(shape, caller, v), segments)
    ensures Specs.HasPath(SpecsOf(shape.attributes), segments, caller)
    decreases shape, 0
  {
    hide Described, Clone, Allows, Specs.HasPath, EmitsPath, Published, WellFormed;
    var attributes := shape.attributes;
    var i := EmittedField(shape, Full(shape, caller, v), segments);
    SoundBelow(shape, i);
    FieldOf(attributes, caller, v, i);
    PathBelow(shape, i, segments, caller);
    if |segments| > 1 {
      EmittedPathDeclared(attributes[i].shape, caller, attributes[i].getter(v).value, segments[1..]);
    } else {
      assert segments[1..] == [];
      NoSegments(SpecsOf(ObjectAttributes(attributes[i].shape)), caller);
    }
  }

  lemma NoSegments(attributes: seq<Specs.AttributeSpec>, caller: Caller)
    ensures Specs.HasPath(attributes, [], caller)
  {
  }

  /** What is declared is emitted, when nothing is missing. */
  lemma {:induction false} DeclaredPathEmitted(shape: Shape, caller: Caller, v: Source, segments: seq<string>)
    requires WellFormed(shape) && Published(shape) && Complete(shape, caller, v)
    requires HoldsObjects(shape) && Specs.HasPath(SpecsOf(ObjectAttributes(shape)), segments, caller)
    ensures EmitsPath(shape, Full(shape, caller, v), segments)
    decreases shape, 1
  {
    hide Described, Clone, Allows, AsJson, Specs.HasPath, WellFormedAttributes;
    var json := Full(shape, caller, v);
    match shape
    case ArrayOf(item) =>
      var i :| 0 <= i < |ItemsOf(v)| && Complete(item, caller, ItemsOf(v)[i]);
      DeclaredPathEmitted(item, caller, ItemsOf(v)[i], segments);
      assert EmitsPath(item, json.items[i], segments);
    case MapOf(value) =>
      var k :| k in EntriesOf(v) && Complete(value, caller, EntriesOf(v)[k]);
      DeclaredPathEmitted(value, caller, EntriesOf(v)[k], segments);
      assert k in json.fields && EmitsPath(value, json.fields[k], segments);
    case Object(attributes) =>
      if segments != [] { DeclaredFieldEmitted(shape, caller, v, segments); }
  }

  lemma {:induction false} DeclaredFieldEmitted(shape: Shape, caller: Caller, v: Source, segments: seq<string>)
    requires WellFormed(shape) && Published(shape) && Complete(shape, caller, v) && shape.Object? && segments != []
    requires Specs.HasPath(SpecsOf(shape.attributes), segments, caller)
    ensures EmitsPath(shape, Full(shape, caller, v), segments)
    decreases shape, 0
  {
    hide Described, Clone, Allows, Specs.HasPath, EmitsPath, Published, WellFormed, Complete;
    var attributes := shape.attributes;
    var i := DeclaredField(attributes, segments, caller);
    var a := attributes[i];
    SoundBelow(shape, i);
    PathBelow(shape, i, segments, caller);
    CompleteBelow(shape, caller, v, i);
    FieldOf(attributes, caller, v, i);
    if |segments| > 1 {
      NoPathWithoutObject(a.shape, segments[1..], caller);
      DeclaredPathEmitted(a.shape, caller, a.getter(v).value, segments[1..]);
    }
    FieldEmitted(shape, Full(shape, caller, v), segments, i);
  }

  /** A declared path names an attribute first. */
  lemma DeclaredField(attributes: seq<Attribute>, segments: seq<string>, caller: Caller) returns (i: nat)
    requires segments != [] && Specs.HasPath(SpecsOf(attributes), segments, caller)
    ensures i < |attributes| && attributes[i].name == segments[0]
  {
    hide Described, Clone;
    var spec := Specs.LastNamed(SpecsOf(attributes), segments[0]).value;
    i :| 0 <= i < |attributes| && SpecsOf(attributes)[i] == spec;
  }

  lemma CompleteBelow(shape: Shape, caller: Caller, v: Source, i: nat)
    requires shape.Object? && Complete(shape, caller, v) && i < |shape.attributes|
    ensures var a := shape.attributes[i];
            Allows(a.availability, caller) ==> a.getter(v).Some? && Complete(a.shape, caller, a.getter(v).value)
  {
    hide Allows;
  }

  lemma FieldEmitted(shape: Shape, json: Json, segments: seq<string>, i: nat)
    requires shape.Object? && segments != [] && i < |shape.attributes| && shape.attributes[i].name == segments[0]
    requires json.JObject? && segments[0] in json.fields
    requires |segments| == 1 || EmitsPath(shape.attributes[i].shape, json.fields[segments[0]], segments[1..])
    ensures EmitsPath(shape, json, segments)
  {
  }

  /** An object's resource paths, one attribute at a time. */
  lemma LeadsBelow(shape: Shape, i: nat, resource: string, segments: seq<string>, caller: Caller)
    requires Published(shape) && shape.Object? && i < |shape.attributes|
    ensures var a := shape.attributes[i];
            var nested := SpecsOf(ObjectAttributes(a.shape));
            Specs.LeadsToResourcePath(SpecOf(a), resource, segments, caller) <==>
            Allows(a.availability, caller) && HoldsObjects(a.shape) &&
            ((a.name == resource && Specs.HasPath(nested, segments, caller))
             || Specs.HasResourcePath(nested, resource, segments, caller))
  {
    hide Described, Clone, Allows, Specs.HasPath, Specs.HasResourcePath, Specs.IsObject, Specs.Nested;
    NestedSpecs(shape.attributes[i]);
    CloneAllows(shape, i, caller);
  }

  lemma {:induction false} EmittedResourceDeclared(
    shape: Shape, caller: Caller, v: Source, resource: string, segments: seq<string>)
    requires WellFormed(shape) && Published(shape)
    requires EmitsResourcePath(shape, Full(shape, caller, v), resource, segments)
    ensures HoldsObjects(shape) && Specs.HasResourcePath(SpecsOf(ObjectAttributes(shape)), resource, segments, caller)
  {
    hide Described, Clone, Allows, AsJson, Specs.HasPath, EmitsPath, Specs.LeadsToResourcePath;
    var json := Full(shape, caller, v);
    match shape
    case ArrayOf(item) =>
      var i :| 0 <= i < |json.items| && EmitsResourcePath(item, json.items[i], resource, segments);
      EmittedResourceDeclared(item, caller, ItemsOf(v)[i], resource, segments);
    case MapOf(value) =>
      var k :| k in json.fields && EmitsResourcePath(value, json.fields[k], resource, segments);
      EmittedResourceDeclared(value, caller, EntriesOf(v)[k], resource, segments);
    case Object(attributes) =>
      var i :| 0 <= i < |attributes| && attributes[i].name in json.fields &&
               var below := json.fields[attributes[i].name];
               ((attributes[i].name == resource && EmitsPath(attributes[i].shape, below, segments))
                || EmitsResourcePath(attributes[i].shape, below, resource, segments));
      var a := attributes[i];
      FieldOf(attributes, caller, v, i);
      LeadsBelow(shape, i, resource, segments, caller);
      if a.name == resource && EmitsPath(a.shape, json.fields[a.name], segments) {
        EmittedPathDeclared(a.shape, caller, a.getter(v).value, segments);
      } else {
        EmittedResourceDeclared(a.shape, caller, a.getter(v).value, resource, segments);
      }
      assert Specs.LeadsToResourcePath(SpecsOf(attributes)[i], resource, segments, caller);
    case Scalar(_) =>
    case PlainArray =>
  }

  lemma {:induction false} DeclaredResourceEmitted(
    shape: Shape, caller: Caller, v: Source, resource: string, segments: seq<string>)
    requires WellFormed(shape) && Published(shape) && Complete(shape, caller, v)
    requires Specs.HasResourcePath(SpecsOf(ObjectAttributes(shape)), resource, segments, caller)
    ensures EmitsResourcePath(shape, Full(shape, caller, v), resource, segments)
    decreases shape, 1
  {
    hide Described, Clone, Allows, AsJson, Specs.HasPath, EmitsPath, Specs.LeadsToResourcePath, WellFormedAttributes;
    var json := Full(shape, caller, v);
    match shape
    case ArrayOf(item) =>
      var i :| 0 <= i < |ItemsOf(v)| && Complete(item, caller, ItemsOf(v)[i]);
      DeclaredResourceEmitted(item, caller, ItemsOf(v)[i], resource, segments);
      assert EmitsResourcePath(item, json.items[i], resource, segments);
    case MapOf(value) =>
      var k :| k in EntriesOf(v) && Complete(value, caller, EntriesOf(v)[k]);
      DeclaredResourceEmitted(value, caller, EntriesOf(v)[k], resource, segments);
      assert k in json.fields && EmitsResourcePath(value, json.fields[k], resource, segments);
    case Object(attributes) =>
      var i :| 0 <= i < |attributes| && Specs.LeadsToResourcePath(SpecsOf(attributes)[i], resource, segments, caller);
      LeadingFieldEmitted(shape, caller, v, resource, segments, i);
    case Scalar(_) =>
    case PlainArray =>
  }

  lemma {:induction false} LeadingFieldEmitted(
    shape: Shape, caller: Caller, v: Source, resource: string, segments: seq<string>, i: nat)
    requires WellFormed(shape) && Published(shape) && Complete(shape, caller, v) && shape.Object? && i < |shape.attributes|
    requires Specs.LeadsToResourcePath(SpecsOf(shape.attributes)[i], resource, segments, caller)
    ensures EmitsResourcePath(shape, Full(shape, caller, v), resource, segments)
    decreases shape, 0
  {
    hide Described, Clone, Allows, Specs.HasPath, EmitsPath, Specs.LeadsToResourcePath, Published, WellFormed, Complete;
    var attributes := shape.attributes;
    var a := attributes[i];
    SoundBelow(shape, i);
    LeadsBelow(shape, i, resource, segments, caller);
    CompleteBelow(shape, caller, v, i);
    FieldOf(attributes, caller, v, i);
    if a.name == resource && Specs.HasPath(SpecsOf(ObjectAttributes(a.shape)), segments, caller) {
      DeclaredPathEmitted(a.shape, caller, a.getter(v).value, segments);
    } else {
      DeclaredResourceEmitted(a.shape, caller, a.getter(v).value, resource, segments);
    }
    assert a.name in Full(shape, caller, v).fields;
  }

  // ------------------------------------------------------------- theorems

  function DescribedAll(shapes: seq<Shape>): (r: seq<Specs.ShapeSpec>)
    ensures |r| == |shapes| && forall i :: 0 <= i < |r| ==> r[i] == Described(shapes[i])
  {
    seq(|shapes|, i requires 0 <= i < |shapes| => Described(shapes[i]))
  }

  /** Whatever the source holds, every path in a rendered response is one the
      described shape declares for the caller. */
  lemma RenderedWithinDescribed(shape: Shape, caller: Caller, v: Source, resource: string, segments: seq<string>)
    requires WellFormed(shape) && Published(shape)
    requires EmitsResourcePath(shape, Full(shape, caller, v), resource, segments)
    ensures Specs.HasResourcePath(Specs.Top(Described(shape)), resource, segments, caller)
  {
    hide Described, EmitsResourcePath, Specs.HasResourcePath;
    EmittedResourceDeclared(shape, caller, v, resource, segments);
    DescribedUnwraps(shape);
  }

  /** The paths that a list of response shapes declares for a caller are exactly
      those the renderer emits for that caller without a projection, when no
      getter reports absence and no collection is empty. */
  lemma DescribedIsRendered(
    shapes: seq<Shape>, sources: seq<Source>, caller: Caller, resource: string, segments: seq<string>)
    requires |sources| == |shapes|
    requires forall i :: 0 <= i < |shapes| ==>
      WellFormed(shapes[i]) && Published(shapes[i]) && Complete(shapes[i], caller, sources[i])
    ensures Specs.ShapesHavePath(DescribedAll(shapes), resource, segments, caller) <==>
            exists i :: 0 <= i < |shapes| &&
              EmitsResourcePath(shapes[i], Rendered(shapes[i], NewContext(caller, ResponseProjection(map[])), sources[i]),
                                resource, segments)
  {
    hide WellFormed, Published, Complete, Described, EmitsResourcePath, Specs.HasResourcePath, Rendered, ObjectAttributes;
    forall i | 0 <= i < |shapes|
      ensures Specs.HasResourcePath(Specs.Top(Described(shapes[i])), resource, segments, caller) <==>
              EmitsResourcePath(shapes[i], Full(shapes[i], caller, sources[i]), resource, segments)
    {
      SurfaceOf(shapes[i], caller, sources[i], resource, segments);
    }
    if Specs.ShapesHavePath(DescribedAll(shapes), resource, segments, caller) {
      var s :| s in DescribedAll(shapes) && Specs.HasResourcePath(Specs.Top(s), resource, segments, caller);
      var i :| 0 <= i < |shapes| && DescribedAll(shapes)[i] == s;
    }
    if i :| 0 <= i < |shapes| && EmitsResourcePath(shapes[i], Full(shapes[i], caller, sources[i]), resource, segments) {
      assert DescribedAll(shapes)[i] in DescribedAll(shapes);
    }
  }

  lemma SurfaceOf(shape: Shape, caller: Caller, v: Source, resource: string, segments: seq<string>)
    requires WellFormed(shape) && Published(shape) && Complete(shape, caller, v)
    ensures Specs.HasResourcePath(Specs.Top(Described(shape)), resource, segments, caller) <==>
            EmitsResourcePath(shape, Full(shape, caller, v), resource, segments)
  {
    hide WellFormed, Published, Complete, Described, EmitsResourcePath;
    DescribedUnwraps(shape);
    if Specs.HasResourcePath(Specs.Top(Described(shape)), resource, segments, caller) {
      DeclaredResourceEmitted(shape, caller, v, resource, segments);
    }
    if EmitsResourcePath(shape, Full(shape, caller, v), resource, segments) {
      EmittedResourceDeclared(shape, caller, v, resource, segments);
    }
  }
}
