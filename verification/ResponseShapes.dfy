/** Described response shapes (response/shape.go, response/attribute.go) and the
    attribute paths they declare: the plain tree that the compiled index stands
    for. */
module ResponseShapes {
  import opened Wrappers
  import opened CallerSets

  /** The JSON types; `NoType` is the zero value. */
  datatype ShapeType =
    NoType | AnyType | ArrayType | BoolType | NumberType | IntegerType | ObjectType | StringType

  datatype RuleSpec = RuleSpec(names: seq<string>, minPresent: nat, maxPresent: nat)

  datatype ShapeSpec = ShapeSpec(
    typ: ShapeType,
    attributes: seq<AttributeSpec>,
    item: Option<ShapeSpec>,
    mapValue: Option<ShapeSpec>,
    rules: seq<RuleSpec>)

  datatype AttributeSpec = AttributeSpec(
    name: string,
    required: bool,
    availability: CallerSet,
    shape: ShapeSpec)

  const EMPTY_SHAPE := ShapeSpec(NoType, [], None, None, [])

  function Max(a: nat, b: nat): nat {
    if a < b then b else a
  }

  function Depth(shape: ShapeSpec): nat {
    1 + Max(DepthAll(shape.attributes),
            Max(if shape.item.Some? then Depth(shape.item.value) else 0,
                if shape.mapValue.Some? then Depth(shape.mapValue.value) else 0))
  }

  function DepthAll(attributes: seq<AttributeSpec>): nat {
    if attributes == [] then 0
    else
      var n := |attributes| - 1;
      Max(DepthAll(attributes[..n]), Depth(attributes[n].shape))
  }

  lemma {:induction false} DepthOfMember(attributes: seq<AttributeSpec>, i: nat)
    requires i < |attributes|
    ensures Depth(attributes[i].shape) <= DepthAll(attributes)
  {
    var n := |attributes| - 1;
    if i < n { DepthOfMember(attributes[..n], i); }
  }

  /** The object (or other) shape behind any arrays and maps: a projection names
      resources, not containers. */
  function Unwrapped(shape: ShapeSpec): (r: ShapeSpec)
    ensures Depth(r) <= Depth(shape) || r == EMPTY_SHAPE
    ensures !r.typ.ArrayType?
    ensures r.typ.ObjectType? ==> r.attributes != [] || r.mapValue == None
    decreases Depth(shape)
  {
    match shape.typ
    case ArrayType => if shape.item == None then EMPTY_SHAPE else Unwrapped(shape.item.value)
    case ObjectType =>
      if |shape.attributes| > 0 || shape.mapValue == None then shape else Unwrapped(shape.mapValue.value)
    case _ => shape
  }

  /** The loop of `projectionObjectShape`. */
  method ProjectionObjectShape(shape: ShapeSpec) returns (r: ShapeSpec)
    ensures r == Unwrapped(shape)
  {
    r := shape;
    while true
      invariant Unwrapped(r) == Unwrapped(shape)
      decreases Depth(r)
    {
      match r.typ
      case ArrayType =>
        if r.item == None { return EMPTY_SHAPE; }
        r := r.item.value;
      case ObjectType =>
        if |r.attributes| > 0 || r.mapValue == None { return r; }
        r := r.mapValue.value;
      case _ => return r;
    }
  }

  predicate IsObject(attribute: AttributeSpec) {
    Unwrapped(attribute.shape).typ.ObjectType?
  }

  /** The attributes nested below an attribute; only objects have any. */
  function Nested(attribute: AttributeSpec): (r: seq<AttributeSpec>)
    ensures DepthAll(r) < Depth(attribute.shape)
  {
    var shape := Unwrapped(attribute.shape);
    if shape.typ.ObjectType? then shape.attributes else []
  }

  /** With a repeated name the last declaration counts. */
  function LastNamed(attributes: seq<AttributeSpec>, name: string): (r: Option<AttributeSpec>)
    ensures r.Some? ==> r.value in attributes && r.value.name == name
    ensures r.Some? ==> Depth(r.value.shape) <= DepthAll(attributes)
    ensures r.None? ==> forall a :: a in attributes ==> a.name != name
  {
    if attributes == [] then None
    else
      var n := |attributes| - 1;
      if attributes[n].name == name then Some(attributes[n]) else LastNamed(attributes[..n], name)
  }

  // ------------------------------------------------------ the naive walk

  /** `segments` leads down from `attributes`, and every attribute on the way
      is available to the caller. */
  ghost predicate HasPath(attributes: seq<AttributeSpec>, segments: seq<string>, caller: Caller)
    decreases |segments|
  {
    segments == [] ||
    (var a := LastNamed(attributes, segments[0]);
     a.Some? && Allows(a.value.availability, caller) && HasPath(Nested(a.value), segments[1..], caller))
  }

  /** Somewhere at or below `attributes` there is an object attribute named
      `resource` from which `segments` leads down, and every attribute on the
      way there and on is available to the caller. */
  ghost predicate HasResourcePath(
    attributes: seq<AttributeSpec>, resource: string, segments: seq<string>, caller: Caller)
    decreases DepthAll(attributes), 1
  {
    exists i :: 0 <= i < |attributes| &&
      (DepthOfMember(attributes, i); LeadsToResourcePath(attributes[i], resource, segments, caller))
  }

  ghost predicate LeadsToResourcePath(a: AttributeSpec, resource: string, segments: seq<string>, caller: Caller)
    decreases Depth(a.shape), 0
  {
    && Allows(a.availability, caller)
    && IsObject(a)
    && ((a.name == resource && HasPath(Nested(a), segments, caller))
        || HasResourcePath(Nested(a), resource, segments, caller))
  }

  /** The attributes of a response body shape; a body that is not an object has none. */
  function Top(shape: ShapeSpec): seq<AttributeSpec> {
    var body := Unwrapped(shape);
    if body.typ.ObjectType? then body.attributes else []
  }

  ghost predicate ShapesHavePath(
    shapes: seq<ShapeSpec>, resource: string, segments: seq<string>, caller: Caller)
  {
    exists s :: s in shapes && HasResourcePath(Top(s), resource, segments, caller)
  }
}
