/** Envelopes below other attributes (response/envelope.go). There every enclosing
    selection also judges the envelope's fields, so a projection can take the one
    field that an exactly-one rule needs, and rendering panics. */
module NestedEnvelopes {
  import opened CallerSets
  import opened Text
  import opened JsonTrees
  import opened PropertyPaths
  import opened Rendering
  import opened ResponseShapes
  import opened PresenceSchemas
  import opened Envelope

  /** The names that no enclosing selection excludes. */
  ghost function KeptNames(projection: ResponseProjection, trail: seq<string>, names: set<string>): set<string> {
    set name | name in names && !Excluded(projection, trail, name)
  }

  /** No rule loses the field it has. */
  ghost predicate RulesKeep(rules: seq<RuleSpec>, projection: ResponseProjection, trail: seq<string>, shown: set<string>) {
    forall i :: 0 <= i < |rules| ==> RuleKeeps(rules[i].names, projection, trail, shown)
  }

  ghost predicate RuleKeeps(names: seq<string>, projection: ResponseProjection, trail: seq<string>, shown: set<string>) {
    forall name :: name in names && name in shown ==> !Excluded(projection, trail, name)
  }

  /** Below any chain of enclosing attributes a projection can do more than prune:
      an envelope that renders in full still renders if and only if no rule loses
      its field and some field remains. Its fields are then the full ones that
      are not excluded, each pruned. */
  lemma EnvelopeBelowScopes(
    attributes: seq<EnvelopeAttribute>, rules: seq<RuleSpec>, context: Context, caller: Caller,
    projection: ResponseProjection, trail: seq<string>, values: map<string, FieldValue>,
    fields: map<string, Json>, full: map<string, Json>)
    requires SoundAttributes(attributes) && forall i :: 0 <= i < |attributes| ==> WellFormed(attributes[i].shape)
    requires ContextFor(context, caller, projection, trail)
    requires HoldsShown(fields, attributes, context, values)
    requires HoldsShown(full, attributes, Unprojected(caller), values)
    requires Renderable(attributes, rules, Unprojected(caller), values, full.Keys)
    ensures fields.Keys == KeptNames(projection, trail, full.Keys)
    ensures Renderable(attributes, rules, context, values, fields.Keys) <==>
            RulesKeep(rules, projection, trail, full.Keys) && fields.Keys != {}
    ensures forall i :: 0 <= i < |attributes| && attributes[i].name in fields ==>
      fields[attributes[i].name] ==
      Prune(attributes[i].shape, projection, trail + [attributes[i].name], full[attributes[i].name])
  {
    hide Rendered, Prune, WellFormed, Descended, Shows, ShownName, Faulty, Excluded, ContextFor, OneFromEach, RulesKeep,
      SoundAttributes;
    ShownBelow(attributes, context, caller, projection, trail, values);
    assert fields.Keys == KeptNames(projection, trail, full.Keys);
    RulesBelow(rules, projection, trail, full.Keys);
    forall i | 0 <= i < |attributes| && attributes[i].name in fields
      ensures fields[attributes[i].name] ==
              Prune(attributes[i].shape, projection, trail + [attributes[i].name], full[attributes[i].name])
    {
      FieldBelow(attributes, context, caller, projection, trail, values, fields, full, i);
    }
  }

  /** An enclosing selection hides a field, and with it whatever is wrong with it. */
  lemma ShowsBelow(
    a: EnvelopeAttribute, context: Context, caller: Caller, projection: ResponseProjection, trail: seq<string>,
    values: map<string, FieldValue>)
    requires PlainName(a.name) && ContextFor(context, caller, projection, trail)
    ensures Shows(a, context, values) <==> Shows(a, Unprojected(caller), values) && !Excluded(projection, trail, a.name)
    ensures Faulty(a, context, values) <==> Faulty(a, Unprojected(caller), values) && !Excluded(projection, trail, a.name)
  {
    hide Excluded, IncludesAttribute, Supplied;
    IncludesIsNotExcluded(context, caller, projection, trail, a.name);
    AlwaysIncluded(caller, a.name);
  }

  lemma AlwaysIncluded(caller: Caller, name: string)
    ensures IncludesAttribute(Unprojected(caller), name)
  {
  }

  lemma ShownBelow(
    attributes: seq<EnvelopeAttribute>, context: Context, caller: Caller, projection: ResponseProjection,
    trail: seq<string>, values: map<string, FieldValue>)
    requires SoundAttributes(attributes) && ContextFor(context, caller, projection, trail)
    ensures forall i :: 0 <= i < |attributes| ==>
      (Faulty(attributes[i], context, values) ==> Faulty(attributes[i], Unprojected(caller), values))
    ensures forall name :: ShownName(attributes, context, values, name) <==>
      ShownName(attributes, Unprojected(caller), values, name) && !Excluded(projection, trail, name)
  {
    hide Shows, Faulty, Excluded, ContextFor, PlainName;
    forall i | 0 <= i < |attributes|
      ensures Shows(attributes[i], context, values) <==>
              Shows(attributes[i], Unprojected(caller), values) && !Excluded(projection, trail, attributes[i].name)
      ensures Faulty(attributes[i], context, values) ==> Faulty(attributes[i], Unprojected(caller), values)
    {
      ShowsBelow(attributes[i], context, caller, projection, trail, values);
    }
  }

  /** The rules hold of the kept names exactly when each keeps its own. */
  lemma RulesBelow(rules: seq<RuleSpec>, projection: ResponseProjection, trail: seq<string>, shown: set<string>)
    requires OneFromEach(rules, shown)
    ensures OneFromEach(rules, KeptNames(projection, trail, shown)) <==> RulesKeep(rules, projection, trail, shown)
  {
    hide OneName, Excluded, RuleKeeps;
    forall i | 0 <= i < |rules|
      ensures OneName(rules[i].names, KeptNames(projection, trail, shown), 0) <==>
              RuleKeeps(rules[i].names, projection, trail, shown)
    {
      RuleBelow(rules[i].names, projection, trail, shown);
    }
  }

  lemma RuleBelow(names: seq<string>, projection: ResponseProjection, trail: seq<string>, shown: set<string>)
    requires OneName(names, shown, 0)
    ensures OneName(names, KeptNames(projection, trail, shown), 0) <==> RuleKeeps(names, projection, trail, shown)
  {
    hide OneName, Excluded;
    var kept := KeptNames(projection, trail, shown);
    var i := TheName(names, shown);
    if OneName(names, kept, 0) {
      var j := TheName(names, kept);
      assert names[j] in kept;
    }
    if names[i] in kept { ThisName(names, kept, i); }
  }

  lemma ThisName(names: seq<string>, keys: set<string>, i: nat)
    requires i < |names| && forall j :: 0 <= j < |names| ==> (names[j] in keys <==> j == i)
    ensures OneName(names, keys, 0)
  {
    assert names[i] in keys;
  }

  lemma FieldBelow(
    attributes: seq<EnvelopeAttribute>, context: Context, caller: Caller, projection: ResponseProjection,
    trail: seq<string>, values: map<string, FieldValue>, fields: map<string, Json>, full: map<string, Json>, i: nat)
    requires SoundAttributes(attributes) && i < |attributes| && WellFormed(attributes[i].shape)
    requires ContextFor(context, caller, projection, trail) && attributes[i].name in fields
    requires HoldsShown(fields, attributes, context, values)
    requires HoldsShown(full, attributes, Unprojected(caller), values)
    ensures attributes[i].name in full
    ensures fields[attributes[i].name] ==
            Prune(attributes[i].shape, projection, trail + [attributes[i].name], full[attributes[i].name])
  {
    hide Rendered, Prune, WellFormed, Descended, ShownName, Excluded, ContextFor, Reaches;
    var a := attributes[i];
    BearerShows(attributes, i, context, values);
    ShowsBelow(a, context, caller, projection, trail, values);
    DescendedFor(context, caller, projection, trail, a.name);
    FullField(a, caller);
    RenderPrunesBelow(a.shape, Descended(context, a.name), caller, projection, trail + [a.name], values[a.name].source);
  }

  /** It happens: a payment by card or in cash, below an attribute whose selection
      omits the card, renders in full and panics under the projection. */
  lemma ProjectionBreaksRule(caller: Caller) returns (
    attributes: seq<EnvelopeAttribute>, rules: seq<RuleSpec>, projection: ResponseProjection, context: Context,
    values: map<string, FieldValue>)
    ensures SoundAttributes(attributes) && |rules| == 1 && SoundRule(rules[0], attributes)
    ensures ContextFor(context, caller, projection, ["payment"])
    ensures Renderable(attributes, rules, Unprojected(caller), values, {"card"})
    ensures forall keys :: !Renderable(attributes, rules, context, values, keys)
  {
    hide ContextFor, Excluded, Renderable, SoundAttributes, SoundRule, Descended;
    var card := EnvelopeAttribute("card", "Card", false, Scalar(StringKind), UNRESTRICTED);
    var cash := EnvelopeAttribute("cash", "Cash", false, Scalar(StringKind), UNRESTRICTED);
    attributes, rules := [card, cash], [RuleSpec(["card", "cash"], 1, 1)];
    projection := ResponseProjection(map["payment" := PropertyProjection(Omit, ["card"])]);
    context := Descended(NewContext(caller, projection), "payment");
    values := map["card" := FieldValue("Card", Plain(JString("4242")))];
    ContextAtTop(caller, projection);
    DescendedFor(NewContext(caller, projection), caller, projection, [], "payment");
    assert [] + ["payment"] == ["payment"];
    PaymentSound(attributes, rules, card, cash);
    PaymentShown(attributes, rules, card, cash, caller, values);
    CardOmitted(projection);
    forall keys ensures !Renderable(attributes, rules, context, values, keys) {
      PaymentStops(attributes, rules, context, caller, projection, values, keys);
    }
  }

  lemma ContextAtTop(caller: Caller, projection: ResponseProjection)
    ensures ContextFor(NewContext(caller, projection), caller, projection, [])
  {
  }

  lemma PaymentSound(
    attributes: seq<EnvelopeAttribute>, rules: seq<RuleSpec>, card: EnvelopeAttribute, cash: EnvelopeAttribute)
    requires attributes == [card, cash] && rules == [RuleSpec(["card", "cash"], 1, 1)]
    requires card.name == "card" && cash.name == "cash" && card.goType == "Card" && cash.goType == "Cash"
    ensures SoundAttributes(attributes) && |rules| == 1 && SoundRule(rules[0], attributes)
    ensures Named(attributes, "card")
  {
    assert "card"[1] != "cash"[2];
    assert "card" != "cash" && "Card" != "Cash" by { assert "card"[2] != "cash"[2] && "Card"[2] != "Cash"[2]; }
    assert attributes[0].name == "card" && attributes[1].name == "cash";
    assert Named(attributes, "card") && Named(attributes, "cash");
    var names := ["card", "cash"];
    assert names[0] == "card" && names[1] == "cash";
  }

  lemma PaymentShown(
    attributes: seq<EnvelopeAttribute>, rules: seq<RuleSpec>, card: EnvelopeAttribute, cash: EnvelopeAttribute,
    caller: Caller, values: map<string, FieldValue>)
    requires attributes == [card, cash] && rules == [RuleSpec(["card", "cash"], 1, 1)]
    requires card == EnvelopeAttribute("card", "Card", false, card.shape, UNRESTRICTED)
    requires cash == EnvelopeAttribute("cash", "Cash", false, cash.shape, UNRESTRICTED)
    requires values == map["card" := FieldValue("Card", Plain(JString("4242")))] && Named(attributes, "card")
    ensures Renderable(attributes, rules, Unprojected(caller), values, {"card"})
  {
    hide Named;
    assert "card"[2] != "cash"[2];
    var context := Unprojected(caller);
    assert Shows(attributes[0], context, values) && !Shows(attributes[1], context, values);
    var names := ["card", "cash"];
    assert names[0] == "card" && names[1] == "cash";
    assert OneName(names, {"card"}, 0) by { ThisName(names, {"card"}, 0); }
  }

  lemma PaymentTrimmed()
    ensures TrimSpace("payment") == "payment"
  {
    var name := "payment";
    assert name[0] == 'p' && name[|name| - 1] == 't';
    TrimmedIsFixed(name);
  }

  lemma CardSegment()
    ensures Segments("card") == ["card"]
  {
    var name := "card";
    assert name[0] == 'c' && name[1] == 'a' && name[2] == 'r' && name[3] == 'd';
    CutNoDot(name);
  }

  /** The path of a name right below its resource is the name's own. */
  lemma PathBelow(resource: string, name: string)
    requires Segments(name) == [name]
    ensures SegmentsOf([resource][1..] + [name]) == [name]
  {
    hide Segments;
    assert [resource][1..] + [name] == [name] && [name][..0] == [];
    assert SegmentsOf([]) == [];
  }

  lemma OmittedLeft(selection: PropertyProjection, name: string)
    requires selection.mode == Omit && selection.paths == [name]
    ensures LeavesOut(selection, Segments(name))
  {
    hide Segments;
    assert selection.paths[0] == name;
  }

  lemma CardOmitted(projection: ResponseProjection)
    requires projection == ResponseProjection(map["payment" := PropertyProjection(Omit, ["card"])])
    ensures Excluded(projection, ["payment"], "card")
  {
    PaymentTrimmed();
    CardSegment();
    hide Segments, TrimSpace, SegmentsOf, LeavesOut;
    PathBelow("payment", "card");
    OmittedLeft(Selection(projection, "payment"), "card");
    assert LeavesOut(Selection(projection, ["payment"][0]), SegmentsOf(["payment"][0 + 1..] + ["card"]));
  }

  lemma PaymentStops(
    attributes: seq<EnvelopeAttribute>, rules: seq<RuleSpec>, context: Context, caller: Caller,
    projection: ResponseProjection, values: map<string, FieldValue>, keys: set<string>)
    requires rules == [RuleSpec(["card", "cash"], 1, 1)] && "cash" !in values && SoundAttributes(attributes)
    requires ContextFor(context, caller, projection, ["payment"]) && Excluded(projection, ["payment"], "card")
    ensures !Renderable(attributes, rules, context, values, keys)
  {
    hide ContextFor, Excluded, SoundAttributes, ShownName, Faulty;
    ShownBelow(attributes, context, caller, projection, ["payment"], values);
    CashMissing(attributes, context, values);
    if "card" !in keys && "cash" !in keys { NoNameIsOne(["card", "cash"], keys); }
    assert rules[0].names == ["card", "cash"];
  }

  lemma CashMissing(attributes: seq<EnvelopeAttribute>, context: Context, values: map<string, FieldValue>)
    requires "cash" !in values
    ensures !ShownName(attributes, context, values, "cash")
  {
    hide Reaches;
  }

  lemma NoNameIsOne(names: seq<string>, keys: set<string>)
    requires forall j :: 0 <= j < |names| ==> names[j] !in keys
    ensures !OneName(names, keys, 0)
  {
  }
}
