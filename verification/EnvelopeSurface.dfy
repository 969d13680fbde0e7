/** What an envelope describes and what it can emit (response/envelope.go). A
    described path is emitted for some values exactly when the attribute it leads
    through can appear: the caller sees it, and some choice of fields with it
    satisfies every required field and every exactly-one rule. */
module EnvelopeSurface {
  import opened Wrappers
  import opened CallerSets
  import opened Text
  import opened JsonTrees
  import opened PropertyPaths
  import opened Rendering
  import opened RenderedSurface
  import opened Envelope
  import Specs = ResponseShapes
  import Schemas = PresenceSchemas
  import ProjectionIndex
  import ProjectionSchema
  import Index = ProjectionRefinement

  /** An envelope attribute as an attribute of a described object. */
  function AsAttribute(a: EnvelopeAttribute): Attribute {
    Attribute(a.name, a.required, a.shape, a.availability, (v: Source) => None)
  }

  function AsAttributes(attributes: seq<EnvelopeAttribute>): (r: seq<Attribute>)
    ensures |r| == |attributes| && forall i :: 0 <= i < |r| ==> r[i] == AsAttribute(attributes[i])
  {
    seq(|attributes|, i requires 0 <= i < |attributes| => AsAttribute(attributes[i]))
  }

  /** `describeShape`. */
  function DescribedEnvelope(attributes: seq<EnvelopeAttribute>, rules: seq<Specs.RuleSpec>): Specs.ShapeSpec {
    Specs.ShapeSpec(Specs.ObjectType, SpecsOf(AsAttributes(attributes)), None, None, rules)
  }

  ghost predicate Publishable(attributes: seq<EnvelopeAttribute>) {
    && SoundAttributes(attributes)
    && forall i :: 0 <= i < |attributes| ==>
         WellFormed(attributes[i].shape) && Published(attributes[i].shape) &&
         !(attributes[i].availability.restricted && attributes[i].availability.callers == [])
  }

  /** The attribute is visible to the caller, and the path leads through it. */
  ghost predicate Leads(a: EnvelopeAttribute, caller: Caller, resource: string, segments: seq<string>) {
    Specs.LeadsToResourcePath(SpecOf(AsAttribute(a)), resource, segments, caller)
  }

  ghost predicate SomeLeads(attributes: seq<EnvelopeAttribute>, caller: Caller, resource: string, segments: seq<string>) {
    exists i :: 0 <= i < |attributes| && Leads(attributes[i], caller, resource, segments)
  }

  /** The fields hold the path below an object named `resource`. */
  ghost predicate FieldsEmit(
    attributes: seq<EnvelopeAttribute>, fields: map<string, Json>, resource: string, segments: seq<string>)
  {
    exists i :: 0 <= i < |attributes| && FieldEmits(attributes[i], fields, resource, segments)
  }

  ghost predicate FieldEmits(a: EnvelopeAttribute, fields: map<string, Json>, resource: string, segments: seq<string>) {
    a.name in fields &&
    ((a.name == resource && EmitsPath(a.shape, fields[a.name], segments))
     || EmitsResourcePath(a.shape, fields[a.name], resource, segments))
  }

  /** The envelope accepts the values and emits the fields, without a projection. */
  ghost predicate Emission(
    attributes: seq<EnvelopeAttribute>, rules: seq<Specs.RuleSpec>, caller: Caller, values: map<string, FieldValue>,
    fields: map<string, Json>)
  {
    && Renderable(attributes, rules, Unprojected(caller), values, fields.Keys)
    && HoldsShown(fields, attributes, Unprojected(caller), values)
  }

  /** Some values make the envelope emit the path. */
  ghost predicate CanEmit(
    attributes: seq<EnvelopeAttribute>, rules: seq<Specs.RuleSpec>, caller: Caller, resource: string, segments: seq<string>)
  {
    exists values, fields ::
      Emission(attributes, rules, caller, values, fields) && FieldsEmit(attributes, fields, resource, segments)
  }

  /** A choice of fields the envelope can emit for the caller: visible ones, all
      the required ones among those, and one from every rule. */
  ghost predicate Admissible(
    attributes: seq<EnvelopeAttribute>, rules: seq<Specs.RuleSpec>, caller: Caller, keys: set<string>)
  {
    && (forall name :: name in keys ==>
          exists i :: 0 <= i < |attributes| && attributes[i].name == name && Allows(attributes[i].availability, caller))
    && (forall i :: 0 <= i < |attributes| && attributes[i].required && Allows(attributes[i].availability, caller) ==>
          attributes[i].name in keys)
    && OneFromEach(rules, keys)
  }

  ghost predicate CanAppear(
    attributes: seq<EnvelopeAttribute>, rules: seq<Specs.RuleSpec>, caller: Caller, name: string)
  {
    exists keys :: Admissible(attributes, rules, caller, keys) && name in keys
  }

  /** There is a complete value for every attribute. */
  ghost predicate Supplies(supply: map<string, FieldValue>, attributes: seq<EnvelopeAttribute>, caller: Caller) {
    forall i :: 0 <= i < |attributes| ==>
      var a := attributes[i];
      a.name in supply && !supply[a.name].source.Nil? && supply[a.name].goType == a.goType &&
      Complete(a.shape, caller, supply[a.name].source)
  }

  lemma UnprojectedReaches(a: EnvelopeAttribute, caller: Caller)
    ensures Reaches(a, Unprojected(caller)) <==> Allows(a.availability, caller)
    ensures Descended(Unprojected(caller), a.name) == Context(caller, None, [])
  {
  }

  /** The envelope describes a path exactly when an attribute leads along it. */
  lemma DescribedLeads(
    attributes: seq<EnvelopeAttribute>, rules: seq<Specs.RuleSpec>, caller: Caller, resource: string, segments: seq<string>)
    ensures Specs.HasResourcePath(Specs.Top(DescribedEnvelope(attributes, rules)), resource, segments, caller) <==>
            SomeLeads(attributes, caller, resource, segments)
  {
    hide Specs.LeadsToResourcePath, SpecOf;
    var specs := SpecsOf(AsAttributes(attributes));
    assert Specs.Top(DescribedEnvelope(attributes, rules)) == specs;
    forall i | 0 <= i < |attributes| ensures specs[i] == SpecOf(AsAttribute(attributes[i])) {}
  }

  /** Only fields the envelope can emit are ever emitted. */
  lemma EmittedAdmissible(
    attributes: seq<EnvelopeAttribute>, rules: seq<Specs.RuleSpec>, caller: Caller, values: map<string, FieldValue>,
    fields: map<string, Json>)
    requires Emission(attributes, rules, caller, values, fields)
    ensures Admissible(attributes, rules, caller, fields.Keys)
  {
    hide Reaches, HoldsShown, OneFromEach, Supplied;
    var context := Unprojected(caller);
    forall name | name in fields.Keys
      ensures exists i :: 0 <= i < |attributes| && attributes[i].name == name && Allows(attributes[i].availability, caller)
    {
      var i :| 0 <= i < |attributes| && attributes[i].name == name && Shows(attributes[i], context, values);
      UnprojectedReaches(attributes[i], caller);
    }
    forall i | 0 <= i < |attributes| && attributes[i].required && Allows(attributes[i].availability, caller)
      ensures attributes[i].name in fields.Keys
    {
      UnprojectedReaches(attributes[i], caller);
      assert !Faulty(attributes[i], context, values);
      assert Shows(attributes[i], context, values);
    }
  }

  /** One field: it emits a path exactly when its attribute leads along it. */
  lemma FieldLeads(
    a: EnvelopeAttribute, caller: Caller, v: Source, fields: map<string, Json>, resource: string, segments: seq<string>)
    requires WellFormed(a.shape) && Published(a.shape) && Allows(a.availability, caller)
    requires !(a.availability.restricted && a.availability.callers == [])
    requires a.name in fields && fields[a.name] == Full(a.shape, caller, v)
    ensures FieldEmits(a, fields, resource, segments) ==> Leads(a, caller, resource, segments)
    ensures Complete(a.shape, caller, v) && Leads(a, caller, resource, segments) ==>
      FieldEmits(a, fields, resource, segments)
  {
    hide WellFormed, Published, Complete, Full, Described, Allows, EmitsPath, EmitsResourcePath,
      Specs.HasPath, Specs.HasResourcePath, Specs.IsObject, Specs.Nested;
    var nested := SpecsOf(ObjectAttributes(a.shape));
    NestedSpecs(AsAttribute(a));
    ClonePreservesAllows(a.availability);
    if EmitsPath(a.shape, fields[a.name], segments) { EmittedPathDeclared(a.shape, caller, v, segments); }
    if EmitsResourcePath(a.shape, fields[a.name], resource, segments) {
      EmittedResourceDeclared(a.shape, caller, v, resource, segments);
    }
    if Complete(a.shape, caller, v) && HoldsObjects(a.shape) {
      if Specs.HasPath(nested, segments, caller) { DeclaredPathEmitted(a.shape, caller, v, segments); }
      if Specs.HasResourcePath(nested, resource, segments, caller) {
        DeclaredResourceEmitted(a.shape, caller, v, resource, segments);
      }
    }
  }

  lemma LeadsVisibly(a: EnvelopeAttribute, caller: Caller, resource: string, segments: seq<string>)
    requires Leads(a, caller, resource, segments) && !(a.availability.restricted && a.availability.callers == [])
    ensures Allows(a.availability, caller)
  {
    hide Specs.HasPath, Specs.HasResourcePath, Described;
    ClonePreservesAllows(a.availability);
  }

  /** A chosen attribute is visible. */
  lemma KeyVisible(
    attributes: seq<EnvelopeAttribute>, rules: seq<Specs.RuleSpec>, caller: Caller, keys: set<string>, i: nat)
    requires SoundAttributes(attributes) && Admissible(attributes, rules, caller, keys)
    requires i < |attributes| && attributes[i].name in keys
    ensures Allows(attributes[i].availability, caller)
  {
    hide OneFromEach, Allows, PlainName;
    var j :| 0 <= j < |attributes| && attributes[j].name == attributes[i].name && Allows(attributes[j].availability, caller);
    assert i == j;
  }

  /** The attribute that bears a name. */
  ghost function BearerOf(attributes: seq<EnvelopeAttribute>, name: string): (i: nat)
    ensures Named(attributes, name) ==> i < |attributes| && attributes[i].name == name
  {
    if Named(attributes, name) then var i: nat :| i < |attributes| && attributes[i].name == name; i else 0
  }

  /** The supply cut down to a choice of names. */
  ghost function Chosen(supply: map<string, FieldValue>, keys: set<string>): map<string, FieldValue> {
    map name | name in keys && name in supply :: supply[name]
  }

  lemma KeysSupplied(
    attributes: seq<EnvelopeAttribute>, rules: seq<Specs.RuleSpec>, caller: Caller, supply: map<string, FieldValue>,
    keys: set<string>)
    requires Supplies(supply, attributes, caller) && Admissible(attributes, rules, caller, keys)
    ensures forall name :: name in keys ==> name in supply && Named(attributes, name)
  {
    hide OneFromEach, Allows, Complete;
    forall name | name in keys ensures name in supply && Named(attributes, name) {
      var i :| 0 <= i < |attributes| && attributes[i].name == name && Allows(attributes[i].availability, caller);
    }
  }

  /** Under a choice exactly the chosen attributes are shown, and none panics. */
  lemma ChosenShows(
    attributes: seq<EnvelopeAttribute>, rules: seq<Specs.RuleSpec>, caller: Caller, supply: map<string, FieldValue>,
    keys: set<string>, i: nat)
    requires SoundAttributes(attributes) && Supplies(supply, attributes, caller)
    requires Admissible(attributes, rules, caller, keys) && i < |attributes|
    ensures Shows(attributes[i], Unprojected(caller), Chosen(supply, keys)) <==> attributes[i].name in keys
    ensures !Faulty(attributes[i], Unprojected(caller), Chosen(supply, keys))
  {
    hide OneFromEach, Allows, Complete, SoundAttributes, Reaches;
    UnprojectedReaches(attributes[i], caller);
    assert attributes[i].name in supply;
    if attributes[i].name in keys { KeyVisible(attributes, rules, caller, keys, i); }
  }

  /** The chosen fields, each rendered in full. */
  ghost function Produced(
    attributes: seq<EnvelopeAttribute>, caller: Caller, supply: map<string, FieldValue>, keys: set<string>): map<string, Json>
  {
    map name | name in keys && name in supply && Named(attributes, name) ::
      Full(attributes[BearerOf(attributes, name)].shape, caller, supply[name].source)
  }

  lemma ProducedField(
    attributes: seq<EnvelopeAttribute>, caller: Caller, supply: map<string, FieldValue>, keys: set<string>, i: nat)
    requires SoundAttributes(attributes) && i < |attributes| && attributes[i].name in keys && attributes[i].name in supply
    ensures attributes[i].name in Produced(attributes, caller, supply, keys)
    ensures Produced(attributes, caller, supply, keys)[attributes[i].name] ==
            Full(attributes[i].shape, caller, supply[attributes[i].name].source)
  {
    hide Full, PlainName;
    assert Named(attributes, attributes[i].name);
    assert BearerOf(attributes, attributes[i].name) == i;
  }

  /** An admissible choice is accepted, and exactly it is emitted. */
  lemma ChoiceRendered(
    attributes: seq<EnvelopeAttribute>, rules: seq<Specs.RuleSpec>, caller: Caller, supply: map<string, FieldValue>,
    keys: set<string>)
    requires attributes != [] && SoundAttributes(attributes) && Supplies(supply, attributes, caller)
    requires Admissible(attributes, rules, caller, keys) && keys != {}
    ensures Emission(attributes, rules, caller, Chosen(supply, keys), Produced(attributes, caller, supply, keys))
  {
    hide Complete, Rendered, OneFromEach, Allows, SoundAttributes, Shows, Faulty, Supplies, Descended, Chosen, Produced,
      Unprojected, ShownName, Named;
    KeysSupplied(attributes, rules, caller, supply, keys);
    ProducedKeys(attributes, caller, supply, keys);
    ChosenShown(attributes, rules, caller, supply, keys);
    assert Renderable(attributes, rules, Unprojected(caller), Chosen(supply, keys), keys);
    ChosenHeld(attributes, rules, caller, supply, keys);
  }

  lemma ChosenShown(
    attributes: seq<EnvelopeAttribute>, rules: seq<Specs.RuleSpec>, caller: Caller, supply: map<string, FieldValue>,
    keys: set<string>)
    requires SoundAttributes(attributes) && Supplies(supply, attributes, caller)
    requires Admissible(attributes, rules, caller, keys)
    ensures forall i :: 0 <= i < |attributes| ==> !Faulty(attributes[i], Unprojected(caller), Chosen(supply, keys))
    ensures forall name :: name in keys <==> ShownName(attributes, Unprojected(caller), Chosen(supply, keys), name)
  {
    hide SoundAttributes, Shows, Faulty, Supplies, Chosen, Unprojected, Admissible, Named;
    var context, values := Unprojected(caller), Chosen(supply, keys);
    KeysSupplied(attributes, rules, caller, supply, keys);
    forall i | 0 <= i < |attributes|
      ensures Shows(attributes[i], context, values) <==> attributes[i].name in keys
      ensures !Faulty(attributes[i], context, values)
    {
      ChosenShows(attributes, rules, caller, supply, keys, i);
    }
    forall name ensures name in keys <==> ShownName(attributes, context, values, name) {
      if name in keys { var i := BearerOf(attributes, name); }
    }
  }

  lemma ChosenHeld(
    attributes: seq<EnvelopeAttribute>, rules: seq<Specs.RuleSpec>, caller: Caller, supply: map<string, FieldValue>,
    keys: set<string>)
    requires SoundAttributes(attributes) && Supplies(supply, attributes, caller)
    requires Admissible(attributes, rules, caller, keys)
    ensures HoldsShown(Produced(attributes, caller, supply, keys), attributes, Unprojected(caller), Chosen(supply, keys))
  {
    hide SoundAttributes, Shows, Supplies, Chosen, Produced, Unprojected, Admissible, ShownName, Named, Rendered, Descended;
    var context, values, fields := Unprojected(caller), Chosen(supply, keys), Produced(attributes, caller, supply, keys);
    KeysSupplied(attributes, rules, caller, supply, keys);
    ProducedKeys(attributes, caller, supply, keys);
    ChosenShown(attributes, rules, caller, supply, keys);
    forall i | 0 <= i < |attributes| && Shows(attributes[i], context, values)
      ensures attributes[i].name in fields
      ensures fields[attributes[i].name] ==
              Rendered(attributes[i].shape, Descended(context, attributes[i].name), values[attributes[i].name].source)
    {
      ChosenShows(attributes, rules, caller, supply, keys, i);
      ProducedField(attributes, caller, supply, keys, i);
      UnprojectedReaches(attributes[i], caller);
      FullMeans(attributes[i].shape, caller, supply[attributes[i].name].source);
    }
  }

  lemma FullMeans(shape: Shape, caller: Caller, v: Source)
    ensures Full(shape, caller, v) == Rendered(shape, Context(caller, None, []), v)
  {
  }

  lemma ProducedKeys(
    attributes: seq<EnvelopeAttribute>, caller: Caller, supply: map<string, FieldValue>, keys: set<string>)
    requires forall name :: name in keys ==> name in supply && Named(attributes, name)
    ensures Produced(attributes, caller, supply, keys).Keys == keys
    ensures Chosen(supply, keys).Keys == keys && forall name :: name in keys ==> Chosen(supply, keys)[name] == supply[name]
  {
    hide Named, Full;
  }

  // ------------------------------------------------------------- theorems

  /** An envelope can emit a path for a caller if and only if an attribute that
      leads along it can appear. */
  lemma EmitsExactly(
    attributes: seq<EnvelopeAttribute>, rules: seq<Specs.RuleSpec>, caller: Caller, supply: map<string, FieldValue>,
    resource: string, segments: seq<string>)
    requires attributes != [] && Publishable(attributes) && Supplies(supply, attributes, caller)
    ensures CanEmit(attributes, rules, caller, resource, segments) <==>
            exists i :: 0 <= i < |attributes| && Leads(attributes[i], caller, resource, segments) &&
                        CanAppear(attributes, rules, caller, attributes[i].name)
  {
    hide Leads, CanAppear, Publishable, Supplies, Emission, FieldsEmit;
    if CanEmit(attributes, rules, caller, resource, segments) {
      var values, fields :|
        Emission(attributes, rules, caller, values, fields) && FieldsEmit(attributes, fields, resource, segments);
      var i := EmittedLeads(attributes, rules, caller, values, fields, resource, segments);
    }
    if i :| 0 <= i < |attributes| && Leads(attributes[i], caller, resource, segments) &&
            CanAppear(attributes, rules, caller, attributes[i].name) {
      LeadingEmitted(attributes, rules, caller, supply, i, resource, segments);
    }
  }

  /** Whatever an envelope emits leads through an attribute that can appear. */
  lemma EmittedLeads(
    attributes: seq<EnvelopeAttribute>, rules: seq<Specs.RuleSpec>, caller: Caller, values: map<string, FieldValue>,
    fields: map<string, Json>, resource: string, segments: seq<string>) returns (i: nat)
    requires Publishable(attributes) && Emission(attributes, rules, caller, values, fields)
    requires FieldsEmit(attributes, fields, resource, segments)
    ensures i < |attributes| && Leads(attributes[i], caller, resource, segments)
    ensures CanAppear(attributes, rules, caller, attributes[i].name)
  {
    hide Leads, FieldEmits, Admissible, Renderable, ShownName, Rendered, WellFormed, Published;
    i :| 0 <= i < |attributes| && FieldEmits(attributes[i], fields, resource, segments);
    var a := attributes[i];
    FieldHeld(a, fields, resource, segments);
    EmittedAdmissible(attributes, rules, caller, values, fields);
    BearerShows(attributes, i, Unprojected(caller), values);
    UnprojectedReaches(a, caller);
    FieldLeads(a, caller, values[a.name].source, fields, resource, segments);
  }

  lemma FieldHeld(a: EnvelopeAttribute, fields: map<string, Json>, resource: string, segments: seq<string>)
    requires FieldEmits(a, fields, resource, segments)
    ensures a.name in fields
  {
  }

  lemma LeadingEmitted(
    attributes: seq<EnvelopeAttribute>, rules: seq<Specs.RuleSpec>, caller: Caller, supply: map<string, FieldValue>,
    i: nat, resource: string, segments: seq<string>)
    requires attributes != [] && Publishable(attributes) && Supplies(supply, attributes, caller) && i < |attributes|
    requires Leads(attributes[i], caller, resource, segments) && CanAppear(attributes, rules, caller, attributes[i].name)
    ensures CanEmit(attributes, rules, caller, resource, segments)
  {
    hide Leads, FieldEmits, Admissible, Emission, WellFormed, Published, Complete, Full;
    var a := attributes[i];
    var keys :| Admissible(attributes, rules, caller, keys) && a.name in keys;
    var fields := Produced(attributes, caller, supply, keys);
    ChoiceRendered(attributes, rules, caller, supply, keys);
    KeysSupplied(attributes, rules, caller, supply, keys);
    ProducedField(attributes, caller, supply, keys, i);
    LeadsVisibly(a, caller, resource, segments);
    FieldLeads(a, caller, supply[a.name].source, fields, resource, segments);
    assert FieldsEmit(attributes, fields, resource, segments);
  }

  /** Every visible attribute can appear. */
  ghost predicate NothingBlocked(attributes: seq<EnvelopeAttribute>, rules: seq<Specs.RuleSpec>, caller: Caller) {
    forall i :: 0 <= i < |attributes| && Allows(attributes[i].availability, caller) ==>
      CanAppear(attributes, rules, caller, attributes[i].name)
  }

  /** Compiles the index of an envelope and asks it for a path. Whatever the
      envelope can emit is offered; when every visible attribute can appear,
      nothing else is. */
  method OffersEnvelope(
    attributes: seq<EnvelopeAttribute>, rules: seq<Specs.RuleSpec>, ghost supply: map<string, FieldValue>,
    caller: Caller, resource: string, path: string) returns (offered: bool)
    requires attributes != [] && Publishable(attributes) && Supplies(supply, attributes, caller)
    requires Index.TotalSize([DescribedEnvelope(attributes, rules)]) < ProjectionIndex.WIDTH
    ensures ProjectionSchema.ProperPath(path) && CanEmit(attributes, rules, caller, resource, Segments(path)) ==> offered
    ensures NothingBlocked(attributes, rules, caller) ==>
      (offered <==> ProjectionSchema.ProperPath(path) && CanEmit(attributes, rules, caller, resource, Segments(path)))
  {
    hide Segments, Specs.ShapesHavePath, ProjectionSchema.RootsAccept, ProjectionSchema.Searchable, CanEmit, SomeLeads,
      Publishable, Supplies, NothingBlocked, DescribedEnvelope, ProjectionSchema.IsRootList, ProjectionIndex.Compiled,
      ProjectionIndex.RootsGrounded, ProjectionIndex.Universe;
    ghost var trees, names, state;
    var schema;
    schema, trees, names, state := Index.DeriveResponseProjectionSchema([DescribedEnvelope(attributes, rules)]);
    var roots := ProjectionSchema.ResourceRoots(schema, resource);
    offered := ProjectionSchema.PathAvailable(schema, roots, path, caller);
    OneShape(DescribedEnvelope(attributes, rules), resource, Segments(path), caller);
    DescribedLeads(attributes, rules, caller, resource, Segments(path));
    LeadingExactly(attributes, rules, caller, supply, resource, Segments(path));
  }

  lemma OneShape(shape: Specs.ShapeSpec, resource: string, segments: seq<string>, caller: Caller)
    ensures Specs.ShapesHavePath([shape], resource, segments, caller) <==>
            Specs.HasResourcePath(Specs.Top(shape), resource, segments, caller)
  {
    hide Specs.HasResourcePath;
    assert shape in [shape];
  }

  /** What can be emitted is described, and conversely when nothing is blocked. */
  lemma LeadingExactly(
    attributes: seq<EnvelopeAttribute>, rules: seq<Specs.RuleSpec>, caller: Caller, supply: map<string, FieldValue>,
    resource: string, segments: seq<string>)
    requires attributes != [] && Publishable(attributes) && Supplies(supply, attributes, caller)
    ensures CanEmit(attributes, rules, caller, resource, segments) ==> SomeLeads(attributes, caller, resource, segments)
    ensures NothingBlocked(attributes, rules, caller) ==>
      (CanEmit(attributes, rules, caller, resource, segments) <==> SomeLeads(attributes, caller, resource, segments))
  {
    hide Leads, CanAppear, CanEmit, Supplies, WellFormed, Published, Allows;
    EmitsExactly(attributes, rules, caller, supply, resource, segments);
    if i :| 0 <= i < |attributes| && Leads(attributes[i], caller, resource, segments) {
      LeadsVisibly(attributes[i], caller, resource, segments);
    }
  }

  /** A required field shuts out its alternatives: in an exactly-one rule with a
      required attribute the caller sees, no other attribute can ever appear,
      although the envelope describes it. */
  lemma RequiredBlocksAlternatives(
    attributes: seq<EnvelopeAttribute>, rules: seq<Specs.RuleSpec>, caller: Caller, k: nat, i: nat, other: string)
    requires k < |rules| && i < |attributes| && attributes[i].required && Allows(attributes[i].availability, caller)
    requires attributes[i].name in rules[k].names && other in rules[k].names && other != attributes[i].name
    ensures !CanAppear(attributes, rules, caller, other)
  {
    hide Allows;
    forall keys | Admissible(attributes, rules, caller, keys) ensures other !in keys {
      assert Schemas.OneName(rules[k].names, keys, 0);
      assert attributes[i].name in keys;
    }
  }
}
