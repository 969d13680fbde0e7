/** From presence rules to JSON Schema (openapi/internal/schema/schema.go).
    Acceptance follows sections 10.2.1 (allOf, anyOf, oneOf, not) of JSON Schema
    Core 2020-12 and 6.5.3 (required) of JSON Schema Validation 2020-12. */
module PresenceSchemas {
  import opened Wrappers
  import opened NameCombinations
  import Rules = PresenceRules

  /** The keywords presence rules use. An empty list is left out of the document. */
  datatype Schema = Schema(oneOf: seq<Schema>, anyOf: seq<Schema>, not: Option<Schema>, required: seq<string>)

  function RequiredSchema(names: seq<string>): Schema {
    Schema([], [], None, names)
  }

  ghost predicate Accepts(schema: Schema, keys: set<string>)
    decreases schema
  {
    && (schema.oneOf != [] ==> OneAccepts(schema.oneOf, keys))
    && (schema.anyOf != [] ==> exists i :: 0 <= i < |schema.anyOf| && Accepts(schema.anyOf[i], keys))
    && (schema.not.Some? ==> !Accepts(schema.not.value, keys))
    && (forall i :: 0 <= i < |schema.required| ==> schema.required[i] in keys)
  }

  /** Exactly one of the schemas accepts. */
  ghost predicate OneAccepts(schemas: seq<Schema>, keys: set<string>)
    decreases schemas
  {
    exists i :: 0 <= i < |schemas| && Accepts(schemas[i], keys) &&
                (forall j :: 0 <= j < |schemas| && j != i ==> !Accepts(schemas[j], keys))
  }

  /** `allOf`. */
  ghost predicate AcceptsAll(schemas: seq<Schema>, keys: set<string>) {
    forall i :: 0 <= i < |schemas| ==> Accepts(schemas[i], keys)
  }

  function RequiredEach(combinations: seq<seq<string>>): (r: seq<Schema>)
    ensures |r| == |combinations| && forall i :: 0 <= i < |r| ==> r[i] == RequiredSchema(combinations[i])
  {
    seq(|combinations|, i requires 0 <= i < |combinations| => RequiredSchema(combinations[i]))
  }

  function ForbiddenEach(combinations: seq<seq<string>>): (r: seq<Schema>)
    ensures |r| == |combinations|
    ensures forall i :: 0 <= i < |r| ==> r[i] == Schema([], [], Some(RequiredSchema(combinations[i])), [])
  {
    seq(|combinations|, i requires 0 <= i < |combinations| =>
      Schema([], [], Some(RequiredSchema(combinations[i])), []))
  }

  /** The combinations `nameCombinations` finds. */
  ghost function Combinations(names: seq<string>, count: nat): seq<seq<string>> {
    if count == 0 || count > |names| then []
    else
      TuplesWithin(|names|, 0, count);
      Combos(names, [], Tuples(|names|, 0, count))
  }

  ghost function RuleSchemas(names: seq<string>, minPresent: nat, maxPresent: nat): seq<Schema> {
    if names == [] then []
    else if minPresent == 1 && maxPresent == 1 then
      [Schema(RequiredEach(Combinations(names, 1)), [], None, [])]
    else
      (if minPresent > 0 then [Schema([], RequiredEach(Combinations(names, minPresent)), None, [])] else [])
      + (if 0 < maxPresent < |names| then ForbiddenEach(Combinations(names, maxPresent + 1)) else [])
  }

  method RequiredNameSchemas(names: seq<string>, count: nat) returns (schemas: seq<Schema>)
    ensures schemas == RequiredEach(Combinations(names, count))
  {
    var combinations := ListCombinations(names, count);
    schemas := [];
    for i := 0 to |combinations|
      invariant schemas == RequiredEach(combinations)[..i]
    {
      schemas := schemas + [RequiredSchema(combinations[i])];
    }
  }

  method ParamRuleSchemas(names: seq<string>, minPresent: nat, maxPresent: nat) returns (schemas: seq<Schema>)
    ensures schemas == RuleSchemas(names, minPresent, maxPresent)
  {
    hide RequiredEach, ForbiddenEach, Combos, Tuples;
    if |names| == 0 { return []; }
    if minPresent == 1 && maxPresent == 1 {
      var each := RequiredNameSchemas(names, 1);
      return [Schema(each, [], None, [])];
    }
    schemas := [];
    if minPresent > 0 {
      var each := RequiredNameSchemas(names, minPresent);
      schemas := [Schema([], each, None, [])];
    }
    ghost var before := schemas;
    if 0 < maxPresent < |names| {
      var combinations := ListCombinations(names, maxPresent + 1);
      for i := 0 to |combinations|
        invariant schemas == before + ForbiddenEach(combinations)[..i]
      {
        assert ForbiddenEach(combinations)[..i + 1] == ForbiddenEach(combinations)[..i] + [ForbiddenEach(combinations)[i]];
        schemas := schemas + [Schema([], [], Some(RequiredSchema(combinations[i])), [])];
      }
      assert ForbiddenEach(combinations)[..|combinations|] == ForbiddenEach(combinations);
    }
  }

  // ------------------------------------------------------------ counting

  /** How many of the names from `start` on are keys. */
  ghost function CountFrom(names: seq<string>, keys: set<string>, start: nat): nat
    requires start <= |names|
    decreases |names| - start
  {
    if start == |names| then 0
    else (if names[start] in keys then 1 else 0) + CountFrom(names, keys, start + 1)
  }

  /** Every name the tuple picks is a key. */
  ghost predicate AllIn(names: seq<string>, t: seq<nat>, keys: set<string>) {
    forall i :: 0 <= i < |t| ==> t[i] < |names| && names[t[i]] in keys
  }

  ghost predicate SomeAllIn(names: seq<string>, tuples: seq<seq<nat>>, keys: set<string>) {
    exists p :: 0 <= p < |tuples| && AllIn(names, tuples[p], keys)
  }

  lemma {:induction false} CountBounded(names: seq<string>, keys: set<string>, start: nat)
    requires start <= |names|
    ensures CountFrom(names, keys, start) <= |names| - start
    decreases |names| - start
  {
    if start < |names| { CountBounded(names, keys, start + 1); }
  }

  lemma PrefixedAllIn(names: seq<string>, start: nat, tuples: seq<seq<nat>>, rest: seq<seq<nat>>, keys: set<string>)
    requires start < |names|
    ensures SomeAllIn(names, Prefixed(start, tuples) + rest, keys) <==>
            (names[start] in keys && SomeAllIn(names, tuples, keys)) || SomeAllIn(names, rest, keys)
  {
    var all := Prefixed(start, tuples) + rest;
    if p :| 0 <= p < |all| && AllIn(names, all[p], keys) {
      if p < |tuples| {
        assert all[p] == [start] + tuples[p];
        assert all[p][0] == start;
        forall i | 0 <= i < |tuples[p]| ensures tuples[p][i] < |names| && names[tuples[p][i]] in keys {
          assert all[p][i + 1] == tuples[p][i];
        }
        assert AllIn(names, tuples[p], keys);
      } else {
        assert all[p] == rest[p - |tuples|];
      }
    }
    if p :| 0 <= p < |tuples| && AllIn(names, tuples[p], keys) && names[start] in keys {
      assert all[p] == [start] + tuples[p];
      assert AllIn(names, all[p], keys);
    }
    if p :| 0 <= p < |rest| && AllIn(names, rest[p], keys) {
      assert all[|tuples| + p] == rest[p];
    }
  }

  /** Some `k`-combination is contained in the keys exactly when at least `k` names are. */
  lemma {:induction false} CombinationExists(names: seq<string>, keys: set<string>, start: nat, k: nat)
    requires start <= |names|
    ensures SomeAllIn(names, Tuples(|names|, start, k), keys) <==> CountFrom(names, keys, start) >= k
    decreases |names| - start
  {
    hide SomeAllIn;
    CountBounded(names, keys, start);
    if k == 0 {
      EmptyTuple(names, keys);
    } else if start + k > |names| {
      NoTuple(names, keys);
    } else {
      CombinationExists(names, keys, start + 1, k - 1);
      CombinationExists(names, keys, start + 1, k);
      PrefixedAllIn(names, start, Tuples(|names|, start + 1, k - 1), Tuples(|names|, start + 1, k), keys);
    }
  }

  lemma EmptyTuple(names: seq<string>, keys: set<string>)
    ensures SomeAllIn(names, [[]], keys)
  {
    assert AllIn(names, [[]][0], keys);
  }

  lemma NoTuple(names: seq<string>, keys: set<string>)
    ensures !SomeAllIn(names, [], keys)
  {
  }

  /** `required` of a combination is containment of its tuple. */
  lemma CombinationAccepted(names: seq<string>, count: nat, p: nat, keys: set<string>)
    requires 0 < count <= |names| && p < |Tuples(|names|, 0, count)|
    ensures p < |Combinations(names, count)|
    ensures Accepts(RequiredSchema(Combinations(names, count)[p]), keys) <==>
            AllIn(names, Tuples(|names|, 0, count)[p], keys)
  {
    TuplesWithin(|names|, 0, count);
    var t, c := Tuples(|names|, 0, count)[p], Combinations(names, count)[p];
    assert c == [] + Picked(names, t) == Picked(names, t);
    forall i | 0 <= i < |t| ensures t[i] < |names| && c[i] == names[t[i]] {}
  }

  lemma SomeCombinationAccepted(names: seq<string>, count: nat, keys: set<string>)
    requires 0 < count <= |names|
    ensures |Combinations(names, count)| > 0
    ensures (exists p :: 0 <= p < |Combinations(names, count)| && Accepts(RequiredSchema(Combinations(names, count)[p]), keys))
            <==> CountFrom(names, keys, 0) >= count
  {
    hide Accepts, CountFrom;
    var tuples, all := Tuples(|names|, 0, count), Combinations(names, count);
    CombinationExists(names, keys, 0, count);
    forall p | 0 <= p < |tuples|
      ensures Accepts(RequiredSchema(all[p]), keys) <==> AllIn(names, tuples[p], keys)
    {
      CombinationAccepted(names, count, p, keys);
    }
    FirstTuple(|names|, count);
  }

  lemma {:induction false} FirstTuple(n: nat, k: nat)
    requires k <= n
    ensures |Tuples(n, 0, k)| > 0
  {
    var p := TuplesComplete(n, 0, seq(k, i requires 0 <= i < k => i));
  }

  /** Exactly one single name is accepted exactly when one name is a key. */
  lemma ExactlyOneSingle(names: seq<string>, keys: set<string>)
    requires names != []
    ensures Accepts(Schema(RequiredEach(Combinations(names, 1)), [], None, []), keys) <==> CountFrom(names, keys, 0) == 1
  {
    hide Combinations, CountFrom, Accepts, OneAccepts, OneName;
    var singles := Combinations(names, 1);
    var each := RequiredEach(singles);
    SinglesListed(names);
    forall i | 0 <= i < |names| ensures Accepts(each[i], keys) <==> names[i] in keys {
      assert singles[i] == [names[i]];
      RequiredOne(names[i], keys);
    }
    CountIsOne(names, keys, 0);
    OneOfMeans(each, keys);
    OneAcceptsOneName(each, names, keys);
  }

  ghost predicate OneName(names: seq<string>, keys: set<string>, start: nat) {
    exists i :: start <= i < |names| && names[i] in keys &&
                (forall j :: start <= j < |names| && j != i ==> names[j] !in keys)
  }

  lemma OneAcceptsOneName(each: seq<Schema>, names: seq<string>, keys: set<string>)
    requires |each| == |names| && forall i :: 0 <= i < |names| ==> (Accepts(each[i], keys) <==> names[i] in keys)
    ensures OneAccepts(each, keys) <==> OneName(names, keys, 0)
  {
    if OneAccepts(each, keys) { OneNameAccepted(each, names, keys); }
    if OneName(names, keys, 0) { OneAcceptedName(each, names, keys); }
  }

  lemma OneNameAccepted(each: seq<Schema>, names: seq<string>, keys: set<string>)
    requires |each| == |names| && forall i :: 0 <= i < |names| ==> (Accepts(each[i], keys) <==> names[i] in keys)
    requires OneAccepts(each, keys)
    ensures OneName(names, keys, 0)
  {
    hide Accepts;
    var i :| 0 <= i < |each| && Accepts(each[i], keys) &&
             (forall j :: 0 <= j < |each| && j != i ==> !Accepts(each[j], keys));
    forall j | 0 <= j < |names| && j != i ensures names[j] !in keys {
      assert !Accepts(each[j], keys);
    }
  }

  lemma OneAcceptedName(each: seq<Schema>, names: seq<string>, keys: set<string>)
    requires |each| == |names| && forall i :: 0 <= i < |names| ==> (Accepts(each[i], keys) <==> names[i] in keys)
    requires OneName(names, keys, 0)
    ensures OneAccepts(each, keys)
  {
    hide Accepts, OneName;
    var i := TheName(names, keys);
    assert Accepts(each[i], keys);
    forall j | 0 <= j < |each| && j != i ensures !Accepts(each[j], keys) {
      assert names[j] !in keys;
    }
  }

  lemma TheName(names: seq<string>, keys: set<string>) returns (i: nat)
    requires OneName(names, keys, 0)
    ensures i < |names| && forall j :: 0 <= j < |names| ==> (names[j] in keys <==> j == i)
  {
    i :| 0 <= i < |names| && names[i] in keys && (forall j :: 0 <= j < |names| && j != i ==> names[j] !in keys);
  }

  lemma OneOfMeans(schemas: seq<Schema>, keys: set<string>)
    requires schemas != []
    ensures Accepts(Schema(schemas, [], None, []), keys) <==> OneAccepts(schemas, keys)
  {
    hide OneAccepts;
  }

  lemma RequiredOne(name: string, keys: set<string>)
    ensures Accepts(RequiredSchema([name]), keys) <==> name in keys
  {
    assert [name][0] == name;
  }

  lemma {:induction false} SinglesListed(names: seq<string>)
    requires names != []
    ensures |Combinations(names, 1)| == |names|
    ensures forall i :: 0 <= i < |names| ==> Combinations(names, 1)[i] == [names[i]]
  {
    TuplesWithin(|names|, 0, 1);
    SingleTuples(|names|, 0);
    var tuples := Tuples(|names|, 0, 1);
    forall i | 0 <= i < |names| ensures Combinations(names, 1)[i] == [names[i]] {
      assert tuples[i] == [i];
      assert [] + Picked(names, tuples[i]) == [names[i]];
    }
  }

  lemma NoIndices(n: nat, start: nat)
    requires start <= n
    ensures Tuples(n, start, 0) == [[]]
  {
  }

  lemma {:induction false} SingleTuples(n: nat, start: nat)
    requires start <= n
    ensures |Tuples(n, start, 1)| == n - start
    ensures forall i :: 0 <= i < n - start ==> Tuples(n, start, 1)[i] == [start + i]
    decreases n - start
  {
    if start < n {
      NoIndices(n, start + 1);
      hide Tuples;
      SingleTuples(n, start + 1);
      TuplesSplit(n, start, 1);
      assert [start] + [] == [start];
    }
  }

  ghost predicate NoName(names: seq<string>, keys: set<string>, start: nat) {
    forall j :: start <= j < |names| ==> names[j] !in keys
  }

  lemma {:induction false} CountIsZero(names: seq<string>, keys: set<string>, start: nat)
    requires start <= |names|
    ensures CountFrom(names, keys, start) == 0 <==> NoName(names, keys, start)
    decreases |names| - start
  {
    if start < |names| { CountIsZero(names, keys, start + 1); }
  }

  lemma {:induction false} CountIsOne(names: seq<string>, keys: set<string>, start: nat)
    requires start <= |names|
    ensures CountFrom(names, keys, start) == 1 <==> OneName(names, keys, start)
    decreases |names| - start
  {
    hide OneName, NoName;
    if start < |names| {
      CountIsZero(names, keys, start + 1);
      CountIsOne(names, keys, start + 1);
    }
    OneNameStep(names, keys, start);
  }

  lemma OneNameStep(names: seq<string>, keys: set<string>, start: nat)
    requires start <= |names|
    ensures OneName(names, keys, start) <==>
            start < |names| &&
            if names[start] in keys then NoName(names, keys, start + 1) else OneName(names, keys, start + 1)
  {
    if i :| start <= i < |names| && names[i] in keys && (forall j :: start <= j < |names| && j != i ==> names[j] !in keys) {
      assert i == start || names[start] !in keys;
    }
  }

  // ------------------------------------------------------------- theorems

  /** What a presence rule means for a set of keys, all names visible. */
  ghost predicate Satisfies(names: seq<string>, minPresent: nat, maxPresent: nat, keys: set<string>) {
    minPresent <= CountFrom(names, keys, 0) && (maxPresent == 0 || CountFrom(names, keys, 0) <= maxPresent)
  }

  /** The emitted schemas accept exactly the key sets the rule allows, whenever
      the minimum does not exceed the number of names. */
  lemma SchemasMeanRule(names: seq<string>, minPresent: nat, maxPresent: nat, keys: set<string>)
    requires minPresent <= |names|
    ensures AcceptsAll(RuleSchemas(names, minPresent, maxPresent), keys) <==> Satisfies(names, minPresent, maxPresent, keys)
  {
    hide CountFrom, Combinations;
    var schemas := RuleSchemas(names, minPresent, maxPresent);
    CountBounded(names, keys, 0);
    if names != [] {
      if minPresent == 1 && maxPresent == 1 {
        ExactlyOneSingle(names, keys);
        assert AcceptsAll(schemas, keys) <==> Accepts(schemas[0], keys);
      } else {
        var low := if minPresent > 0 then [Schema([], RequiredEach(Combinations(names, minPresent)), None, [])] else [];
        var high := if 0 < maxPresent < |names| then ForbiddenEach(Combinations(names, maxPresent + 1)) else [];
        assert schemas == low + high;
        LowerBound(names, minPresent, keys);
        UpperBound(names, maxPresent, keys);
        AcceptsBoth(low, high, keys);
      }
    }
  }

  lemma LowerBound(names: seq<string>, minPresent: nat, keys: set<string>)
    requires minPresent <= |names|
    ensures AcceptsAll(if minPresent > 0 then [Schema([], RequiredEach(Combinations(names, minPresent)), None, [])] else [], keys)
            <==> minPresent <= CountFrom(names, keys, 0)
  {
    hide CountFrom, Combinations;
    if minPresent > 0 {
      SomeCombinationAccepted(names, minPresent, keys);
      var any := Schema([], RequiredEach(Combinations(names, minPresent)), None, []);
      assert Accepts(any, keys) <==> exists i :: 0 <= i < |any.anyOf| && Accepts(any.anyOf[i], keys);
      assert AcceptsAll([any], keys) <==> Accepts([any][0], keys);
    }
  }

  lemma UpperBound(names: seq<string>, maxPresent: nat, keys: set<string>)
    ensures AcceptsAll(if 0 < maxPresent < |names| then ForbiddenEach(Combinations(names, maxPresent + 1)) else [], keys)
            <==> (maxPresent == 0 || CountFrom(names, keys, 0) <= maxPresent)
  {
    hide CountFrom, Combinations;
    CountBounded(names, keys, 0);
    if 0 < maxPresent < |names| {
      SomeCombinationAccepted(names, maxPresent + 1, keys);
      var all := Combinations(names, maxPresent + 1);
      var none := ForbiddenEach(all);
      forall i | 0 <= i < |all| ensures Accepts(none[i], keys) <==> !Accepts(RequiredSchema(all[i]), keys) {}
    }
  }

  lemma AcceptsBoth(a: seq<Schema>, b: seq<Schema>, keys: set<string>)
    ensures AcceptsAll(a + b, keys) <==> AcceptsAll(a, keys) && AcceptsAll(b, keys)
  {
    if AcceptsAll(a + b, keys) {
      forall i | 0 <= i < |a| ensures Accepts(a[i], keys) { assert (a + b)[i] == a[i]; }
      forall i | 0 <= i < |b| ensures Accepts(b[i], keys) { assert (a + b)[|a| + i] == b[i]; }
    }
  }

  /** With a larger minimum no combination exists, the emitted `anyOf` is
      empty, and the schema accepts what the rule rejects: the schemas mean the
      rule for every key set exactly when the minimum fits the names. */
  lemma SchemasMeanRuleExactly(names: seq<string>, minPresent: nat, maxPresent: nat)
    ensures (forall keys :: AcceptsAll(RuleSchemas(names, minPresent, maxPresent), keys) <==>
                            Satisfies(names, minPresent, maxPresent, keys))
            <==> minPresent <= |names|
  {
    if minPresent <= |names| {
      forall keys { SchemasMeanRule(names, minPresent, maxPresent, keys); }
    } else {
      CountBounded(names, {}, 0);
      assert Combinations(names, minPresent) == [];
      UpperBound(names, maxPresent, {});
      CountEmpty(names, 0);
      var low := [Schema([], [], None, [])];
      var high := if 0 < maxPresent < |names| then ForbiddenEach(Combinations(names, maxPresent + 1)) else [];
      if names != [] {
        assert RequiredEach([]) == [];
        assert RuleSchemas(names, minPresent, maxPresent) == low + high;
        AcceptsBoth(low, high, {});
      }
      assert AcceptsAll(RuleSchemas(names, minPresent, maxPresent), {});
      assert !Satisfies(names, minPresent, maxPresent, {});
    }
  }

  lemma {:induction false} CountEmpty(names: seq<string>, start: nat)
    requires start <= |names|
    ensures CountFrom(names, {}, start) == 0
    decreases |names| - start
  {
    if start < |names| { CountEmpty(names, start + 1); }
  }

  /** The schemas of all of an object's rules, in order. */
  ghost function AllRuleSchemas(rules: seq<Rules.PresenceRule>): seq<Schema> {
    if rules == [] then []
    else
      var n := |rules| - 1;
      AllRuleSchemas(rules[..n]) + RuleSchemas(rules[n].names, rules[n].minPresent, rules[n].maxPresent)
  }

  /** The loop of `paramRules`; what it returns is the object's `allOf`. */
  method ParamRules(rules: seq<Rules.PresenceRule>) returns (allOf: seq<Schema>)
    ensures allOf == AllRuleSchemas(rules)
  {
    hide RuleSchemas;
    allOf := [];
    for i := 0 to |rules|
      invariant allOf == AllRuleSchemas(rules[..i])
    {
      assert rules[..i + 1][..i] == rules[..i];
      var schemas := ParamRuleSchemas(rules[i].names, rules[i].minPresent, rules[i].maxPresent);
      allOf := allOf + schemas;
    }
    assert rules[..|rules|] == rules;
  }

  /** Together the schemas accept exactly the key sets that keep every rule. */
  lemma {:induction false} ObjectSchemasMeanRules(rules: seq<Rules.PresenceRule>, keys: set<string>)
    requires forall i :: 0 <= i < |rules| ==> rules[i].minPresent <= |rules[i].names|
    ensures AcceptsAll(AllRuleSchemas(rules), keys) <==>
            forall i :: 0 <= i < |rules| ==> Satisfies(rules[i].names, rules[i].minPresent, rules[i].maxPresent, keys)
  {
    hide RuleSchemas, Satisfies, Accepts;
    if rules != [] {
      var n := |rules| - 1;
      var last := rules[n];
      ObjectSchemasMeanRules(rules[..n], keys);
      SchemasMeanRule(last.names, last.minPresent, last.maxPresent, keys);
      AcceptsBoth(AllRuleSchemas(rules[..n]), RuleSchemas(last.names, last.minPresent, last.maxPresent), keys);
      assert rules == rules[..n] + [last];
    }
  }

  /** Counting by position is counting the set, for distinct names. */
  lemma {:induction false} CountIsSetSize(names: seq<string>, keys: set<string>, start: nat)
    requires start <= |names| && Rules.Distinct(names)
    ensures CountFrom(names, keys, start) == |set x | x in names[start..] && x in keys|
    decreases |names| - start
  {
    if start < |names| {
      CountIsSetSize(names, keys, start + 1);
      assert names[start..] == [names[start]] + names[start + 1..];
      var rest := set x | x in names[start + 1..] && x in keys;
      var all := set x | x in names[start..] && x in keys;
      assert names[start] !in names[start + 1..];
      assert all == if names[start] in keys then rest + {names[start]} else rest;
    }
  }

  /** Schema and runtime agree: when every name of a normalised rule is visible,
      the emitted schemas accept the present names exactly when the rule passes. */
  lemma SchemaAgreesWithRule(rule: Rules.PresenceRule, params: map<string, bool>)
    requires Rules.Normal(rule)
    requires forall i :: 0 <= i < |rule.names| ==> rule.names[i] in params
    ensures AcceptsAll(RuleSchemas(rule.names, rule.minPresent, rule.maxPresent), Rules.PresentNames(params))
            <==> Rules.Judge(rule, params).None?
  {
    hide AcceptsAll, RuleSchemas, CountFrom, Rules.Judge, Rules.Distinct;
    var keys := Rules.PresentNames(params);
    SchemasMeanRule(rule.names, rule.minPresent, rule.maxPresent, keys);
    Rules.JudgeCounts(rule, params);
    CountIsSetSize(rule.names, keys, 0);
    Rules.DistinctSize(rule.names);
    assert rule.names[0..] == rule.names;
    assert (set x | x in rule.names && x in params) == (set x | x in rule.names);
    assert (set x | x in rule.names[0..] && x in keys) == (set x | x in rule.names && x in params && params[x]);
  }
}
