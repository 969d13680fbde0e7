/** Which value stands where in a response: walking a response and the source it
    was rendered from together, along attribute names, array indices and map keys,
    each value found is the rendering of the source found. */
module RenderedValues {
  import opened Wrappers
  import opened CallerSets
  import opened JsonTrees
  import opened Rendering

  datatype Step = Field(name: string) | Index(i: nat) | Key(k: string)

  /** A place in a rendering: the shape there, the context it is rendered in, and the source. */
  datatype Place = Place(shape: Shape, context: Context, v: Source)

  /** The attribute with the name, if there is one. */
  function AttributeNamed(attributes: seq<Attribute>, name: string): (r: Option<nat>)
    ensures r.Some? ==> r.value < |attributes| && attributes[r.value].name == name
    ensures r.None? ==> forall i :: 0 <= i < |attributes| ==> attributes[i].name != name
  {
    if attributes == [] then None
    else
      var n := |attributes| - 1;
      if attributes[n].name == name then Some(n) else AttributeNamed(attributes[..n], name)
  }

  /** One step into the source: the getter's value of an attribute the caller may
      see and the projection keeps, the item at an index, the entry under a key. */
  function Into(p: Place, step: Step): Option<Place> {
    match (p.shape, step)
    case (Object(attributes), Field(name)) =>
      var i := AttributeNamed(attributes, name);
      if i.Some? && Allows(attributes[i.value].availability, p.context.caller) && IncludesAttribute(p.context, name)
         && attributes[i.value].getter(p.v).Some?
      then Some(Place(attributes[i.value].shape, Descended(p.context, name), attributes[i.value].getter(p.v).value))
      else None
    case (ArrayOf(item), Index(i)) => if i < |ItemsOf(p.v)| then Some(Place(item, p.context, ItemsOf(p.v)[i])) else None
    case (MapOf(value), Key(k)) => if k in EntriesOf(p.v) then Some(Place(value, p.context, EntriesOf(p.v)[k])) else None
    case _ => None
  }

  /** One step into the response. */
  function IntoJson(j: Json, step: Step): Option<Json> {
    match (j, step)
    case (JObject(fields), Field(name)) => if name in fields then Some(fields[name]) else None
    case (JArray(items), Index(i)) => if i < |items| then Some(items[i]) else None
    case (JObject(fields), Key(k)) => if k in fields then Some(fields[k]) else None
    case _ => None
  }

  /** A step of the kind the shape takes. */
  predicate Suits(shape: Shape, step: Step) {
    match step
    case Field(_) => shape.Object?
    case Index(_) => shape.ArrayOf?
    case Key(_) => shape.MapOf?
  }

  function Along(p: Place, path: seq<Step>): Option<Place>
    decreases |path|
  {
    if path == [] then Some(p)
    else
      match Into(p, path[0])
      case None => None
      case Some(next) => Along(next, path[1..])
  }

  function AlongJson(j: Json, path: seq<Step>): Option<Json>
    decreases |path|
  {
    if path == [] then Some(j)
    else
      match IntoJson(j, path[0])
      case None => None
      case Some(next) => AlongJson(next, path[1..])
  }

  /** Every step along the path suits the shape it is taken from. */
  predicate Follows(p: Place, path: seq<Step>)
    decreases |path|
  {
    path == [] ||
    (Suits(p.shape, path[0]) && (Into(p, path[0]).Some? ==> Follows(Into(p, path[0]).value, path[1..])))
  }

  lemma StepShows(p: Place, j: Json, step: Step)
    requires WellFormed(p.shape) && Displays(p.shape, p.context, p.v, j) && Suits(p.shape, step)
    ensures Into(p, step).Some? <==> IntoJson(j, step).Some?
    ensures Into(p, step).Some? ==>
      var next := Into(p, step).value;
      WellFormed(next.shape) && Displays(next.shape, next.context, next.v, IntoJson(j, step).value)
  {
    hide IncludesAttribute, Allows, Descended, Encodes;
    if step.Field? { FieldShows(p.shape.attributes, p.context, p.v, j.fields, step.name); }
  }

  lemma FieldShows(attributes: seq<Attribute>, context: Context, v: Source, fields: map<string, Json>, name: string)
    requires WellFormedAttributes(attributes) && DisplaysFields(attributes, context, v, fields)
    ensures var i := AttributeNamed(attributes, name);
            name in fields <==> i.Some? && Emits(attributes[i.value], context, v)
    ensures var i := AttributeNamed(attributes, name);
            i.Some? && Emits(attributes[i.value], context, v) ==>
              var a := attributes[i.value];
              a.getter(v).Some? && WellFormed(a.shape) && name in fields &&
              Displays(a.shape, Descended(context, name), a.getter(v).value, fields[name])
  {
    hide WellFormed, Displays, IncludesAttribute, Allows, Descended;
    if name in fields {
      var i :| 0 <= i < |attributes| && attributes[i].name == name && Emits(attributes[i], context, v);
      assert AttributeNamed(attributes, name) == Some(i);
    }
  }

  /** Along every path that suits the shapes, the response has a value exactly when
      the source has one, and it shows that one: a scalar is its encoding. */
  lemma {:induction false} ValueAlong(p: Place, j: Json, path: seq<Step>)
    requires WellFormed(p.shape) && Displays(p.shape, p.context, p.v, j) && Follows(p, path)
    ensures Along(p, path).Some? <==> AlongJson(j, path).Some?
    ensures Along(p, path).Some? ==>
      var there := Along(p, path).value;
      Displays(there.shape, there.context, there.v, AlongJson(j, path).value) &&
      (there.shape.Scalar? ==> Encodes(there.v, AlongJson(j, path).value))
    decreases |path|
  {
    hide WellFormed, Into, IntoJson, Encodes;
    if path != [] {
      StepShows(p, j, path[0]);
      if Into(p, path[0]).Some? { ValueAlong(Into(p, path[0]).value, IntoJson(j, path[0]).value, path[1..]); }
    }
  }
}
