/** Response envelopes and their exactly-one rules (response/envelope.go), and
    the schemas transcribed from the rules (openapi/internal/schema/schema.go). */
module Envelope {
  import opened Wrappers
  import opened CallerSets
  import opened Text
  import opened JsonTrees
  import opened PropertyPaths
  import opened Rendering
  import opened ResponseShapes
  import opened PresenceSchemas

  datatype EnvelopeAttribute = EnvelopeAttribute(
    name: string, goType: string, required: bool, shape: Shape, availability: CallerSet)

  /** A field value with its dynamic Go type. */
  datatype FieldValue = FieldValue(goType: string, source: Source)

  datatype Panic =
    | NoAttributes | DuplicateName(name: string) | SharedType(goType: string)
    | TooFewNames | EmptyName | UnknownName(name: string) | RepeatedName(name: string)
    | UnexpectedField(name: string) | MissingField(name: string) | NilField(name: string) | WrongType(name: string)
    | NotExactlyOne(names: seq<string>, present: nat) | NoFields

  ghost predicate Named(attributes: seq<EnvelopeAttribute>, name: string) {
    exists i :: 0 <= i < |attributes| && attributes[i].name == name
  }

  /** Names and Go types are unique, and names are as the constructors trim them. */
  ghost predicate SoundAttributes(attributes: seq<EnvelopeAttribute>) {
    && (forall i, j :: 0 <= i < j < |attributes| ==>
          attributes[i].name != attributes[j].name && attributes[i].goType != attributes[j].goType)
    && (forall i :: 0 <= i < |attributes| ==> PlainName(attributes[i].name))
  }

  predicate PlainName(name: string) {
    name != "" && Trimmed(name)
  }

  /** An exactly-one rule over at least two different attributes. */
  ghost predicate SoundRule(rule: RuleSpec, attributes: seq<EnvelopeAttribute>) {
    && rule.minPresent == 1 && rule.maxPresent == 1 && |rule.names| >= 2
    && DistinctStrings(rule.names)
    && forall i :: 0 <= i < |rule.names| ==> Named(attributes, rule.names[i])
  }

  ghost predicate ValidAlternatives(names: seq<string>, attributes: seq<EnvelopeAttribute>) {
    && |names| >= 2
    && DistinctStrings(TrimAll(names))
    && forall i :: 0 <= i < |names| ==> TrimSpace(names[i]) != "" && Named(attributes, TrimSpace(names[i]))
  }

  /** The first attribute that shares the name or the type of `a`. */
  ghost predicate FirstClash(attributes: seq<EnvelopeAttribute>, a: EnvelopeAttribute, panic: Panic) {
    exists i :: 0 <= i < |attributes| && ClashAt(attributes, i, a, panic)
  }

  ghost predicate ClashAt(attributes: seq<EnvelopeAttribute>, i: nat, a: EnvelopeAttribute, panic: Panic)
    requires i < |attributes|
  {
    && (forall j :: 0 <= j < i ==> attributes[j].name != a.name && attributes[j].goType != a.goType)
    && if attributes[i].name == a.name then panic == DuplicateName(a.name)
       else attributes[i].goType == a.goType && panic == SharedType(a.goType)
  }

  /** Why alternatives are refused: no attributes, fewer than two names, or the
      first name that is blank, unknown or repeated. */
  ghost predicate AlternativesRefused(names: seq<string>, attributes: seq<EnvelopeAttribute>, panic: Panic) {
    if attributes == [] then panic == NoAttributes
    else if |names| < 2 then panic == TooFewNames
    else exists i :: 0 <= i < |names| && GoodSoFar(names[..i], attributes) && BadNameAt(names, i, attributes, panic)
  }

  ghost predicate GoodSoFar(names: seq<string>, attributes: seq<EnvelopeAttribute>) {
    && DistinctStrings(TrimAll(names))
    && forall i :: 0 <= i < |names| ==> TrimSpace(names[i]) != "" && Named(attributes, TrimSpace(names[i]))
  }

  ghost predicate BadNameAt(names: seq<string>, i: nat, attributes: seq<EnvelopeAttribute>, panic: Panic)
    requires i < |names|
  {
    var name := TrimSpace(names[i]);
    if name == "" then panic == EmptyName
    else if !Named(attributes, name) then panic == UnknownName(name)
    else name in TrimAll(names[..i]) && panic == RepeatedName(name)
  }

  // ---------------------------------------------------------- projecting

  /** The caller may see the attribute and the projection keeps it. */
  predicate Reaches(a: EnvelopeAttribute, context: Context) {
    Allows(a.availability, context.caller) && IncludesAttribute(context, a.name)
  }

  predicate Supplied(a: EnvelopeAttribute, values: map<string, FieldValue>) {
    a.name in values && !values[a.name].source.Nil?
  }

  /** The attribute is emitted. */
  predicate Shows(a: EnvelopeAttribute, context: Context, values: map<string, FieldValue>) {
    Reaches(a, context) && Supplied(a, values) && values[a.name].goType == a.goType
  }

  /** The attribute panics: required but not supplied, or of another type. */
  predicate Faulty(a: EnvelopeAttribute, context: Context, values: map<string, FieldValue>) {
    Reaches(a, context) && if Supplied(a, values) then values[a.name].goType != a.goType else a.required
  }

  ghost predicate ShownName(
    attributes: seq<EnvelopeAttribute>, context: Context, values: map<string, FieldValue>, name: string)
  {
    exists i :: 0 <= i < |attributes| && attributes[i].name == name && Shows(attributes[i], context, values)
  }

  /** The object holds the shown attributes, each rendered through its shape below its own scope. */
  ghost predicate HoldsShown(
    fields: map<string, Json>, attributes: seq<EnvelopeAttribute>, context: Context, values: map<string, FieldValue>)
  {
    && (forall name :: name in fields <==> ShownName(attributes, context, values, name))
    && (forall i :: 0 <= i < |attributes| && Shows(attributes[i], context, values) ==>
          var a := attributes[i];
          a.name in fields &&
          fields[a.name] == Rendered(a.shape, Descended(context, a.name), values[a.name].source))
  }

  ghost predicate OneFromEach(rules: seq<RuleSpec>, keys: set<string>) {
    forall i :: 0 <= i < |rules| ==> OneName(rules[i].names, keys, 0)
  }

  /** The values an envelope can render without a panic. */
  ghost predicate Renderable(
    attributes: seq<EnvelopeAttribute>, rules: seq<RuleSpec>, context: Context, values: map<string, FieldValue>,
    keys: set<string>)
  {
    && attributes != []
    && (forall name :: name in values ==> Named(attributes, name))
    && (forall i :: 0 <= i < |attributes| ==> !Faulty(attributes[i], context, values))
    && (forall name :: name in keys <==> ShownName(attributes, context, values, name))
    && OneFromEach(rules, keys)
    && keys != {}
  }

  /** The panic a faulty attribute causes. */
  predicate FaultIs(a: EnvelopeAttribute, values: map<string, FieldValue>, panic: Panic) {
    panic == if a.name !in values then MissingField(a.name)
             else if values[a.name].source.Nil? then NilField(a.name)
             else WrongType(a.name)
  }

  /** Why rendering panics: the first of the checks, in the order they are made,
      that fails. Of several unexpected fields any may be named. */
  ghost predicate Explains(
    panic: Panic, attributes: seq<EnvelopeAttribute>, rules: seq<RuleSpec>, context: Context,
    values: map<string, FieldValue>)
  {
    if attributes == [] then panic == NoAttributes
    else if exists name :: name in values && !Named(attributes, name) then
      exists name :: name in values && !Named(attributes, name) && panic == UnexpectedField(name)
    else if exists i :: 0 <= i < |attributes| && Faulty(attributes[i], context, values) then
      exists i :: 0 <= i < |attributes| && FirstFault(attributes, i, context, values) && FaultIs(attributes[i], values, panic)
    else
      exists keys: set<string> ::
        (forall name :: name in keys <==> ShownName(attributes, context, values, name)) &&
        RulesPanic(panic, rules, keys)
  }

  ghost predicate FirstFault(attributes: seq<EnvelopeAttribute>, i: nat, context: Context, values: map<string, FieldValue>)
    requires i < |attributes|
  {
    Faulty(attributes[i], context, values) && forall j :: 0 <= j < i ==> !Faulty(attributes[j], context, values)
  }

  /** The first rule that the keys break, with their count, or that there are no keys. */
  ghost predicate RulesPanic(panic: Panic, rules: seq<RuleSpec>, keys: set<string>) {
    if OneFromEach(rules, keys) then keys == {} && panic == NoFields
    else
      exists i :: 0 <= i < |rules| && OneFromEach(rules[..i], keys) && !OneName(rules[i].names, keys, 0) &&
        panic == NotExactlyOne(rules[i].names, CountFrom(rules[i].names, keys, 0))
  }

  class EnvelopeShape {
    var attributes: seq<EnvelopeAttribute>
    var rules: seq<RuleSpec>

    ghost predicate Valid()
      reads this
    {
      SoundAttributes(attributes) && forall i :: 0 <= i < |rules| ==> SoundRule(rules[i], attributes)
    }

    constructor ()
      ensures Valid() && attributes == [] && rules == []
    {
      attributes, rules := [], [];
    }

    method Attribute(a: EnvelopeAttribute) returns (panic: Option<Panic>)
      requires Valid() && PlainName(a.name)
      modifies this`attributes
      ensures Valid()
      ensures panic.None? <==>
        forall i :: 0 <= i < |old(attributes)| ==> old(attributes)[i].name != a.name && old(attributes)[i].goType != a.goType
      ensures panic.Some? ==> FirstClash(old(attributes), a, panic.value)
      ensures attributes == if panic.None? then old(attributes) + [a] else old(attributes)
    {
      for i := 0 to |attributes|
        invariant forall j :: 0 <= j < i ==> attributes[j].name != a.name && attributes[j].goType != a.goType
      {
        if attributes[i].name == a.name {
          assert ClashAt(attributes, i, a, DuplicateName(a.name));
          return Some(DuplicateName(a.name));
        }
        if attributes[i].goType == a.goType {
          assert ClashAt(attributes, i, a, SharedType(a.goType));
          return Some(SharedType(a.goType));
        }
      }
      ghost var before := attributes;
      attributes := attributes + [a];
      forall name | Named(before, name) ensures Named(attributes, name) {
        var j :| 0 <= j < |before| && before[j].name == name;
        assert attributes[j].name == name;
      }
      return None;
    }

    /** Adds an exactly-one rule over the trimmed names, or nothing at all. */
    method ExactlyOneOf(names: seq<string>) returns (panic: Option<Panic>)
      requires Valid()
      modifies this`rules
      ensures Valid()
      ensures panic.None? <==> ValidAlternatives(names, attributes)
      ensures panic.Some? ==> AlternativesRefused(names, attributes, panic.value)
      ensures rules == if panic.None? then old(rules) + [RuleSpec(TrimAll(names), 1, 1)] else old(rules)
    {
      hide TrimSpace, PlainName;
      if |attributes| == 0 {
        assert |names| >= 2 ==> !Named(attributes, TrimSpace(names[0]));
        return Some(NoAttributes);
      }
      if |names| < 2 { return Some(TooFewNames); }
      var index := AttributeNames(attributes);
      var normalized: seq<string> := [];
      var seen: set<string> := {};
      for i := 0 to |names|
        invariant normalized == TrimAll(names)[..i] == TrimAll(names[..i])
        invariant forall x :: x in seen <==> x in normalized
        invariant DistinctStrings(normalized)
        invariant forall j :: 0 <= j < i ==> TrimSpace(names[j]) != "" && Named(attributes, TrimSpace(names[j]))
      {
        var name := TrimSpace(names[i]);
        assert GoodSoFar(names[..i], attributes);
        if name == "" {
          assert BadNameAt(names, i, attributes, EmptyName);
          return Some(EmptyName);
        }
        if name !in index {
          assert BadNameAt(names, i, attributes, UnknownName(name));
          return Some(UnknownName(name));
        }
        if name in seen {
          var j :| 0 <= j < i && normalized[j] == name;
          assert TrimAll(names)[j] == TrimAll(names)[i];
          assert BadNameAt(names, i, attributes, RepeatedName(name));
          return Some(RepeatedName(name));
        }
        assert name !in normalized;
        seen := seen + {name};
        normalized := normalized + [name];
      }
      assert TrimAll(names)[..|names|] == TrimAll(names);
      rules := rules + [RuleSpec(normalized, 1, 1)];
      return None;
    }

    /** An envelope that does not panic emits exactly the supplied fields the
        caller may see, one from every rule, and at least one in all; the object
        satisfies the schemas transcribed from the rules. */
    method Project(values: map<string, FieldValue>, context: Context) returns (r: Result<map<string, Json>, Panic>)
      requires Valid()
      ensures r.Ok? ==> HoldsShown(r.value, attributes, context, values)
      ensures r.Ok? ==> Renderable(attributes, rules, context, values, r.value.Keys)
      ensures r.Ok? ==> AcceptsAll(RuleList(rules), r.value.Keys)
      ensures r.Err? ==> Explains(r.error, attributes, rules, context, values)
      ensures r.Err? ==> forall keys :: !Renderable(attributes, rules, context, values, keys)
    {
      hide RulesPanic, FaultIs, RuleList, AcceptsAll, Rendered, Descended, PlainName, HoldsShown, ShownName, Faulty, Shows,
        OneFromEach, Named, SoundRule;
      if |attributes| == 0 { return Err(NoAttributes); }
      var unexpected := FindUnexpected(attributes, values);
      if unexpected.Some? {
        assert unexpected.value in values && !Named(attributes, unexpected.value);
        return Err(UnexpectedField(unexpected.value));
      }
      var fields: map<string, Json> := map[];
      HoldsNone(context, values);
      for i := 0 to |attributes|
        invariant HoldsShown(fields, attributes[..i], context, values)
        invariant forall j :: 0 <= j < i ==> !Faulty(attributes[j], context, values)
      {
        var a := attributes[i];
        var projected := ProjectEnvelopeAttribute(a, context, values);
        if projected.Err? {
          assert FirstFault(attributes, i, context, values);
          return Err(projected.error);
        }
        HoldsMore(fields, attributes, i, context, values);
        if projected.value.Some? { fields := fields[a.name := projected.value.value]; }
      }
      assert attributes[..|attributes|] == attributes;
      SoundRulesCount(rules, attributes);
      var broken := CheckRules(rules, fields.Keys);
      if broken.Some? {
        NotRenderable(fields, attributes, rules, context, values);
        RulesExplain(broken.value, fields, attributes, rules, context, values);
        return Err(broken.value);
      }
      if |fields| == 0 {
        NotRenderable(fields, attributes, rules, context, values);
        NoFieldsPanic(rules, fields.Keys);
        RulesExplain(NoFields, fields, attributes, rules, context, values);
        return Err(NoFields);
      }
      IsRenderable(fields, attributes, rules, context, values);
      SchemasMeanRules(rules, fields.Keys);
      return Ok(fields);
    }
  }

  method AttributeNames(attributes: seq<EnvelopeAttribute>) returns (names: set<string>)
    ensures forall name :: name in names <==> Named(attributes, name)
  {
    names := {};
    for i := 0 to |attributes|
      invariant forall name :: name in names <==> Named(attributes[..i], name)
    {
      var before := attributes[..i];
      forall name ensures Named(attributes[..i + 1], name) <==> Named(before, name) || name == attributes[i].name {
        NamedSnoc(attributes, i, name);
      }
      names := names + {attributes[i].name};
    }
    assert attributes[..|attributes|] == attributes;
  }

  lemma NamedSnoc(attributes: seq<EnvelopeAttribute>, i: nat, name: string)
    requires i < |attributes|
    ensures Named(attributes[..i + 1], name) <==> Named(attributes[..i], name) || name == attributes[i].name
  {
    if Named(attributes[..i], name) {
      var j :| 0 <= j < i && attributes[..i][j].name == name;
      assert attributes[..i + 1][j].name == name;
    }
    if name == attributes[i].name { assert attributes[..i + 1][i].name == name; }
  }

  /** A supplied name that no attribute bears; which one depends on map order. */
  method FindUnexpected(attributes: seq<EnvelopeAttribute>, values: map<string, FieldValue>) returns (r: Option<string>)
    ensures r.Some? ==> r.value in values && !Named(attributes, r.value)
    ensures r.None? ==> forall name :: name in values ==> Named(attributes, name)
  {
    var names := AttributeNames(attributes);
    var left := values.Keys;
    while left != {}
      invariant left <= values.Keys
      invariant forall name :: name in values.Keys - left ==> Named(attributes, name)
      decreases |left|
    {
      var name :| name in left;
      left := left - {name};
      if name !in names { return Some(name); }
    }
    return None;
  }

  method ProjectEnvelopeAttribute(a: EnvelopeAttribute, context: Context, values: map<string, FieldValue>)
    returns (r: Result<Option<Json>, Panic>)
    ensures r.Err? <==> Faulty(a, context, values)
    ensures r.Err? ==> FaultIs(a, values, r.error)
    ensures r.Ok? ==> (r.value.Some? <==> Shows(a, context, values))
    ensures r.Ok? && r.value.Some? ==>
      r.value.value == Rendered(a.shape, Descended(context, a.name), values[a.name].source)
  {
    if !Allows(a.availability, context.caller) { return Ok(None); }
    var included := IncludesAttributeLoop(context, a.name);
    if !included { return Ok(None); }
    if a.name !in values { return if a.required then Err(MissingField(a.name)) else Ok(None); }
    var value := values[a.name];
    if value.source.Nil? { return if a.required then Err(NilField(a.name)) else Ok(None); }
    if value.goType != a.goType { return Err(WrongType(a.name)); }
    var below := Descend(context, a.name);
    var json := ProjectShape(a.shape, below, value.source);
    return Ok(Some(json));
  }

  lemma HoldsNone(context: Context, values: map<string, FieldValue>)
    ensures HoldsShown(map[], [], context, values)
  {
  }

  lemma SoundRulesCount(rules: seq<RuleSpec>, attributes: seq<EnvelopeAttribute>)
    requires forall i :: 0 <= i < |rules| ==> SoundRule(rules[i], attributes)
    ensures forall i :: 0 <= i < |rules| ==>
      rules[i].minPresent == 1 && rules[i].maxPresent == 1 && rules[i].names != []
  {
    hide Named;
  }

  /** One attribute more shows one name more at most. */
  lemma ShownSnoc(attributes: seq<EnvelopeAttribute>, i: nat, context: Context, values: map<string, FieldValue>)
    requires i < |attributes|
    ensures forall name :: ShownName(attributes[..i + 1], context, values, name) <==>
      ShownName(attributes[..i], context, values, name)
      || (name == attributes[i].name && Shows(attributes[i], context, values))
  {
    hide Shows;
    var a, head, more := attributes[i], attributes[..i], attributes[..i + 1];
    forall name
      ensures ShownName(more, context, values, name) <==>
              ShownName(head, context, values, name) || (name == a.name && Shows(a, context, values))
    {
      if ShownName(head, context, values, name) {
        var j :| 0 <= j < i && head[j].name == name && Shows(head[j], context, values);
        assert more[j].name == name && Shows(more[j], context, values);
      }
      if name == a.name && Shows(a, context, values) { assert more[i].name == name; }
      if ShownName(more, context, values, name) {
        var j :| 0 <= j < |more| && more[j].name == name && Shows(more[j], context, values);
        if j < i { assert head[j].name == name && Shows(head[j], context, values); } else { assert more[j] == a; }
      }
    }
  }

  lemma HoldsMore(
    fields: map<string, Json>, attributes: seq<EnvelopeAttribute>, i: nat, context: Context, values: map<string, FieldValue>)
    requires i < |attributes| && SoundAttributes(attributes) && HoldsShown(fields, attributes[..i], context, values)
    ensures var a := attributes[i];
            HoldsShown(if Shows(a, context, values)
                       then fields[a.name := Rendered(a.shape, Descended(context, a.name), values[a.name].source)]
                       else fields, attributes[..i + 1], context, values)
  {
    hide Rendered, Descended, Shows, PlainName, ShownName;
    var a, head, more := attributes[i], attributes[..i], attributes[..i + 1];
    ShownSnoc(attributes, i, context, values);
    assert more[i] == a;
    forall j | 0 <= j < i ensures more[j] == head[j] && more[j].name != a.name {
      assert attributes[j].name != attributes[i].name;
    }
  }

  /** Only one key set can be the emitted one. */
  lemma KeysDetermined(
    fields: map<string, Json>, attributes: seq<EnvelopeAttribute>, rules: seq<RuleSpec>,
    context: Context, values: map<string, FieldValue>, keys: set<string>)
    requires HoldsShown(fields, attributes, context, values)
    ensures Renderable(attributes, rules, context, values, keys) ==> keys == fields.Keys
  {
    hide ShownName, OneFromEach, Shows, Rendered, Descended, Faulty;
  }

  lemma NotRenderable(
    fields: map<string, Json>, attributes: seq<EnvelopeAttribute>, rules: seq<RuleSpec>,
    context: Context, values: map<string, FieldValue>)
    requires HoldsShown(fields, attributes, context, values)
    requires !OneFromEach(rules, fields.Keys) || fields == map[]
    ensures forall keys :: !Renderable(attributes, rules, context, values, keys)
  {
    hide HoldsShown, ShownName, OneFromEach, Shows, Faulty;
    forall keys ensures !Renderable(attributes, rules, context, values, keys) {
      KeysDetermined(fields, attributes, rules, context, values, keys);
    }
  }

  lemma NoFieldsPanic(rules: seq<RuleSpec>, keys: set<string>)
    requires OneFromEach(rules, keys) && keys == {}
    ensures RulesPanic(NoFields, rules, keys)
  {
  }

  lemma RulesExplain(
    panic: Panic, fields: map<string, Json>, attributes: seq<EnvelopeAttribute>, rules: seq<RuleSpec>,
    context: Context, values: map<string, FieldValue>)
    requires attributes != [] && HoldsShown(fields, attributes, context, values)
    requires forall name :: name in values ==> Named(attributes, name)
    requires forall i :: 0 <= i < |attributes| ==> !Faulty(attributes[i], context, values)
    requires RulesPanic(panic, rules, fields.Keys)
    ensures Explains(panic, attributes, rules, context, values)
  {
    hide ShownName, RulesPanic, Shows, Rendered, Descended, Faulty, Named;
    var keys := fields.Keys;
    assert forall name :: name in keys <==> ShownName(attributes, context, values, name);
  }

  lemma IsRenderable(
    fields: map<string, Json>, attributes: seq<EnvelopeAttribute>, rules: seq<RuleSpec>,
    context: Context, values: map<string, FieldValue>)
    requires attributes != [] && fields != map[]
    requires forall name :: name in values ==> Named(attributes, name)
    requires forall i :: 0 <= i < |attributes| ==> !Faulty(attributes[i], context, values)
    requires HoldsShown(fields, attributes, context, values) && OneFromEach(rules, fields.Keys)
    ensures Renderable(attributes, rules, context, values, fields.Keys)
  {
    hide ShownName, OneFromEach, Shows, Rendered, Descended, Faulty, Named;
    var name :| name in fields;
  }

  /** The counting loops over the rules. */
  method CheckRules(rules: seq<RuleSpec>, keys: set<string>) returns (broken: Option<Panic>)
    requires forall i :: 0 <= i < |rules| ==> rules[i].minPresent == 1 && rules[i].maxPresent == 1
    ensures broken.None? <==> OneFromEach(rules, keys)
    ensures broken.Some? ==> RulesPanic(broken.value, rules, keys)
  {
    hide CountFrom, OneName;
    for i := 0 to |rules|
      invariant OneFromEach(rules[..i], keys)
    {
      var names, present := rules[i].names, 0;
      for j := 0 to |names|
        invariant present + CountFrom(names, keys, j) == CountFrom(names, keys, 0)
      {
        CountStep(names, keys, j);
        if names[j] in keys { present := present + 1; }
      }
      CountNone(names, keys);
      CountIsOne(names, keys, 0);
      if present < rules[i].minPresent || present > rules[i].maxPresent {
        return Some(NotExactlyOne(names, present));
      }
      assert rules[..i + 1] == rules[..i] + [rules[i]];
    }
    assert rules[..|rules|] == rules;
    return None;
  }

  lemma CountStep(names: seq<string>, keys: set<string>, j: nat)
    requires j < |names|
    ensures CountFrom(names, keys, j) == (if names[j] in keys then 1 else 0) + CountFrom(names, keys, j + 1)
  {
  }

  lemma CountNone(names: seq<string>, keys: set<string>)
    ensures CountFrom(names, keys, |names|) == 0
  {
  }

  // ------------------------------------------------------------- schemas

  /** The schemas of a list of rules: one `oneOf` for every exactly-one rule. */
  ghost function RuleList(rules: seq<RuleSpec>): seq<Schema> {
    if rules == [] then []
    else
      var n := |rules| - 1;
      RuleList(rules[..n]) +
      if rules[n].minPresent == 1 && rules[n].maxPresent == 1
      then [Schema(RequiredEach(Combinations(rules[n].names, 1)), [], None, [])] else []
  }

  /** The loop of `responseRules`. */
  method ResponseRules(rules: seq<RuleSpec>) returns (allOf: seq<Schema>)
    ensures allOf == RuleList(rules)
  {
    allOf := [];
    for i := 0 to |rules|
      invariant allOf == RuleList(rules[..i])
    {
      assert rules[..i + 1][..i] == rules[..i];
      if rules[i].minPresent == 1 && rules[i].maxPresent == 1 {
        var each := RequiredNameSchemas(rules[i].names, 1);
        allOf := allOf + [Schema(each, [], None, [])];
      }
    }
    assert rules[..|rules|] == rules;
  }

  /** The transcribed schemas accept exactly the key sets that pass every rule. */
  lemma {:induction false} SchemasMeanRules(rules: seq<RuleSpec>, keys: set<string>)
    requires forall i :: 0 <= i < |rules| ==> rules[i].minPresent == 1 && rules[i].maxPresent == 1 && rules[i].names != []
    ensures AcceptsAll(RuleList(rules), keys) <==> OneFromEach(rules, keys)
  {
    hide Accepts, OneName, Combinations, CountFrom;
    if rules != [] {
      var n := |rules| - 1;
      var last := Schema(RequiredEach(Combinations(rules[n].names, 1)), [], None, []);
      SchemasMeanRules(rules[..n], keys);
      ExactlyOneSingle(rules[n].names, keys);
      CountIsOne(rules[n].names, keys, 0);
      AcceptsBoth(RuleList(rules[..n]), [last], keys);
      assert AcceptsAll([last], keys) <==> Accepts([last][0], keys);
      assert rules == rules[..n] + [rules[n]];
    }
  }

  // --------------------------------------------------------- projections

  /** The context without a projection. */
  function Unprojected(caller: Caller): Context {
    Context(caller, None, [])
  }

  /** A projection narrows what lies below the fields of a top-level envelope,
      never which fields there are: the same key set is emitted, and the same
      values are rejected, whatever the projection. */
  lemma FieldsIgnoreProjection(
    attributes: seq<EnvelopeAttribute>, rules: seq<RuleSpec>, caller: Caller,
    first: ResponseProjection, second: ResponseProjection, values: map<string, FieldValue>, keys: set<string>)
    ensures Renderable(attributes, rules, NewContext(caller, first), values, keys) <==>
            Renderable(attributes, rules, NewContext(caller, second), values, keys)
  {
    hide OneFromEach, Shows, Faulty, ShownName;
    SameNamesShown(attributes, caller, first, values);
    SameNamesShown(attributes, caller, second, values);
  }

  /** Each emitted field is its full rendering, pruned below the field's own name. */
  lemma FieldsArePruned(
    attributes: seq<EnvelopeAttribute>, caller: Caller, projection: ResponseProjection, values: map<string, FieldValue>,
    fields: map<string, Json>, i: nat)
    requires SoundAttributes(attributes) && i < |attributes| && WellFormed(attributes[i].shape)
    requires HoldsShown(fields, attributes, NewContext(caller, projection), values)
    requires Shows(attributes[i], NewContext(caller, projection), values)
    ensures var a := attributes[i];
            a.name in fields &&
            fields[a.name] == Prune(a.shape, projection, [a.name], Full(a.shape, caller, values[a.name].source))
  {
    hide Rendered, Prune, WellFormed, Descended;
    var a, context := attributes[i], NewContext(caller, projection);
    DescendedFor(context, caller, projection, [], a.name);
    assert [] + [a.name] == [a.name];
    RenderPrunesBelow(a.shape, Descended(context, a.name), caller, projection, [a.name], values[a.name].source);
  }

  /** An envelope rendered under a projection is the envelope rendered in full
      with every field pruned below its own name: it succeeds with the same
      fields, each pruned, or not at all. */
  lemma EnvelopeIsFullThenPruned(
    attributes: seq<EnvelopeAttribute>, rules: seq<RuleSpec>, caller: Caller, projection: ResponseProjection,
    values: map<string, FieldValue>, fields: map<string, Json>, full: map<string, Json>)
    requires SoundAttributes(attributes) && forall i :: 0 <= i < |attributes| ==> WellFormed(attributes[i].shape)
    requires HoldsShown(fields, attributes, NewContext(caller, projection), values)
    requires HoldsShown(full, attributes, NewContext(caller, ResponseProjection(map[])), values)
    ensures Renderable(attributes, rules, NewContext(caller, projection), values, fields.Keys) <==>
            Renderable(attributes, rules, NewContext(caller, ResponseProjection(map[])), values, full.Keys)
    ensures fields.Keys == full.Keys
    ensures forall i :: 0 <= i < |attributes| && attributes[i].name in fields ==>
      fields[attributes[i].name] ==
      Prune(attributes[i].shape, projection, [attributes[i].name], full[attributes[i].name])
  {
    hide Rendered, Prune, WellFormed, Descended, Shows, ShownName, Renderable;
    var some, none := NewContext(caller, projection), NewContext(caller, ResponseProjection(map[]));
    SameNamesShown(attributes, caller, projection, values);
    FieldsIgnoreProjection(attributes, rules, caller, projection, ResponseProjection(map[]), values, fields.Keys);
    assert fields.Keys == full.Keys;
    forall i | 0 <= i < |attributes| && attributes[i].name in fields
      ensures fields[attributes[i].name] ==
              Prune(attributes[i].shape, projection, [attributes[i].name], full[attributes[i].name])
    {
      BearerShows(attributes, i, some, values);
      FieldsArePruned(attributes, caller, projection, values, fields, i);
      FullField(attributes[i], caller);
    }
  }

  lemma SameNamesShown(
    attributes: seq<EnvelopeAttribute>, caller: Caller, projection: ResponseProjection, values: map<string, FieldValue>)
    ensures var some, none := NewContext(caller, projection), NewContext(caller, ResponseProjection(map[]));
            (forall i :: 0 <= i < |attributes| ==>
               (Shows(attributes[i], some, values) <==> Shows(attributes[i], none, values)) &&
               (Faulty(attributes[i], some, values) <==> Faulty(attributes[i], none, values))) &&
            forall name :: ShownName(attributes, some, values, name) <==> ShownName(attributes, none, values, name)
  {
  }

  /** With distinct names the attribute that bears a shown name is shown. */
  lemma BearerShows(attributes: seq<EnvelopeAttribute>, i: nat, context: Context, values: map<string, FieldValue>)
    requires SoundAttributes(attributes) && i < |attributes| && ShownName(attributes, context, values, attributes[i].name)
    ensures Shows(attributes[i], context, values)
  {
    hide Shows;
    var j :| 0 <= j < |attributes| && attributes[j].name == attributes[i].name && Shows(attributes[j], context, values);
    assert i == j;
  }

  lemma FullField(a: EnvelopeAttribute, caller: Caller)
    ensures Descended(NewContext(caller, ResponseProjection(map[])), a.name) == Context(caller, None, [])
  {
  }
}
