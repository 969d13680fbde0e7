/** Presence rules over parameters (param/rule.go). */
module PresenceRules {
  import opened Wrappers
  import opened Text

  /** At least `minPresent` and, unless zero, at most `maxPresent` of the names. */
  datatype PresenceRule = PresenceRule(names: seq<string>, minPresent: nat, maxPresent: nat)

  /** What the normaliser lets through: it panics on every other rule. */
  ghost predicate Normal(rule: PresenceRule) {
    && rule.names != []
    && Distinct(rule.names)
    && (rule.minPresent > 0 || rule.maxPresent > 0)
    && (rule.minPresent > 0 && rule.maxPresent > 0 ==> rule.minPresent <= rule.maxPresent)
    && rule.minPresent <= |rule.names|
  }

  ghost predicate Distinct(names: seq<string>) {
    forall i, j :: 0 <= i < j < |names| ==> names[i] != names[j]
  }

  datatype RulePanic =
    | NoNames | EmptyName | DuplicateName(name: string)
    | NegativeMinimum | NegativeMaximum | NoBound | MinimumOverMaximum | MinimumOverNames

  /** The trimmed names in lower case, as they are compared; `lower` is the library's. */
  function Lowered(names: seq<string>, lower: string -> string): (r: seq<string>)
    ensures |r| == |names| && forall i :: 0 <= i < |names| ==> r[i] == lower(TrimSpace(names[i]))
  {
    seq(|names|, i requires 0 <= i < |names| => lower(TrimSpace(names[i])))
  }

  ghost predicate NoBlanks(names: seq<string>) {
    forall i :: 0 <= i < |names| ==> TrimSpace(names[i]) != ""
  }

  /** Non-blank names that stay distinct in lower case, at least one. */
  ghost predicate GoodNames(names: seq<string>, lower: string -> string) {
    names != [] && NoBlanks(names) && Distinct(Lowered(names, lower))
  }

  /** Why the names are refused: there are none, or the first bad one is blank or
      a repetition. */
  ghost predicate NamesPanic(names: seq<string>, lower: string -> string, panic: RulePanic) {
    if names == [] then panic == NoNames
    else
      exists i :: 0 <= i < |names| && NoBlanks(names[..i]) && Distinct(Lowered(names[..i], lower)) &&
        if TrimSpace(names[i]) == "" then panic == EmptyName
        else lower(TrimSpace(names[i])) in Lowered(names[..i], lower) && panic == DuplicateName(TrimSpace(names[i]))
  }

  /** `normalizeNames`. */
  method NormalizeNames(names: seq<string>, lower: string -> string) returns (r: Result<seq<string>, RulePanic>)
    ensures r.Ok? <==> GoodNames(names, lower)
    ensures r.Ok? ==> r.value == TrimAll(names)
    ensures r.Err? ==> NamesPanic(names, lower, r.error)
  {
    hide TrimSpace;
    var normalized := [];
    var seen: set<string> := {};
    for i := 0 to |names|
      invariant normalized == TrimAll(names[..i])
      invariant NoBlanks(names[..i]) && Distinct(Lowered(names[..i], lower))
      invariant forall x :: x in seen <==> x in Lowered(names[..i], lower)
    {
      var name := TrimSpace(names[i]);
      assert names[..i + 1] == names[..i] + [names[i]];
      if name == "" { return Err(EmptyName); }
      var key := lower(name);
      if key in seen {
        RepeatedName(names, i, lower);
        return Err(DuplicateName(name));
      }
      LoweredSnoc(names, i, lower);
      seen := seen + {key};
      normalized := normalized + [name];
    }
    assert names[..|names|] == names;
    if |normalized| == 0 { return Err(NoNames); }
    return Ok(normalized);
  }

  lemma LoweredSnoc(names: seq<string>, i: nat, lower: string -> string)
    requires i < |names|
    ensures Lowered(names[..i + 1], lower) == Lowered(names[..i], lower) + [lower(TrimSpace(names[i]))]
  {
    hide TrimSpace;
  }

  lemma RepeatedName(names: seq<string>, i: nat, lower: string -> string)
    requires i < |names| && lower(TrimSpace(names[i])) in Lowered(names[..i], lower)
    ensures !Distinct(Lowered(names, lower))
  {
    hide TrimSpace;
    var head, all := Lowered(names[..i], lower), Lowered(names, lower);
    var j :| 0 <= j < |head| && head[j] == lower(TrimSpace(names[i]));
    assert all[j] == all[i];
  }

  /** Bounds that fit each other and the number of names. */
  predicate GoodBounds(count: nat, minPresent: int, maxPresent: int) {
    && minPresent >= 0 && maxPresent >= 0 && !(minPresent == 0 && maxPresent == 0)
    && (minPresent > 0 && maxPresent > 0 ==> minPresent <= maxPresent)
    && minPresent <= count
  }

  /** `normalizePresenceRule`: the rule over the trimmed names, or a panic. */
  method NormalizePresenceRule(names: seq<string>, minPresent: int, maxPresent: int, lower: string -> string)
    returns (r: Result<PresenceRule, RulePanic>)
    ensures r.Ok? <==> GoodNames(names, lower) && GoodBounds(|names|, minPresent, maxPresent)
    ensures r.Ok? ==> Normal(r.value) && r.value == PresenceRule(TrimAll(names), minPresent, maxPresent)
    ensures r.Err? && !GoodNames(names, lower) ==> NamesPanic(names, lower, r.error)
    ensures r.Err? && GoodNames(names, lower) ==>
      r.error == if minPresent < 0 then NegativeMinimum else if maxPresent < 0 then NegativeMaximum
                 else if minPresent == 0 && maxPresent == 0 then NoBound
                 else if maxPresent > 0 && minPresent > maxPresent then MinimumOverMaximum else MinimumOverNames
  {
    hide TrimSpace, NamesPanic;
    var normalized := NormalizeNames(names, lower);
    if normalized.Err? { return Err(normalized.error); }
    DistinctWhenLowered(names, lower);
    if minPresent < 0 { return Err(NegativeMinimum); }
    if maxPresent < 0 { return Err(NegativeMaximum); }
    if minPresent == 0 && maxPresent == 0 { return Err(NoBound); }
    if minPresent > 0 && maxPresent > 0 && minPresent > maxPresent { return Err(MinimumOverMaximum); }
    if minPresent > |normalized.value| { return Err(MinimumOverNames); }
    return Ok(PresenceRule(normalized.value, minPresent, maxPresent));
  }

  lemma DistinctWhenLowered(names: seq<string>, lower: string -> string)
    requires Distinct(Lowered(names, lower))
    ensures Distinct(TrimAll(names))
  {
    hide TrimSpace;
    var trimmed, all := TrimAll(names), Lowered(names, lower);
    forall i, j | 0 <= i < j < |names| ensures trimmed[i] != trimmed[j] {
      assert all[i] == lower(trimmed[i]) && all[j] == lower(trimmed[j]);
    }
  }

  /** The names accepted by a test, in order. */
  function Filter(names: seq<string>, keep: set<string>): (r: seq<string>)
    ensures forall x :: x in r <==> x in names && x in keep
    ensures |r| <= |names|
    ensures Distinct(names) ==> Distinct(r)
  {
    if names == [] then []
    else
      var n := |names| - 1;
      var rest := Filter(names[..n], keep);
      assert names == names[..n] + [names[n]];
      if names[n] in keep then rest + [names[n]] else rest
  }

  datatype RuleError = RequiredChoice(visible: seq<string>, minimum: nat) | MutuallyExclusive(visible: seq<string>, present: seq<string>)

  function Least(a: nat, b: nat): nat {
    if a < b then a else b
  }

  /** `params` holds the parameters the caller may supply and whether each is
      present; names outside it are invisible to the rule. */
  function Visible(rule: PresenceRule, params: map<string, bool>): seq<string> {
    Filter(rule.names, params.Keys)
  }

  function PresentNames(params: map<string, bool>): (r: set<string>)
    ensures forall name :: name in r <==> name in params && params[name]
  {
    set name | name in params && params[name]
  }

  function Present(rule: PresenceRule, params: map<string, bool>): seq<string> {
    Filter(Visible(rule, params), PresentNames(params))
  }

  function Judge(rule: PresenceRule, params: map<string, bool>): Option<RuleError> {
    var visible := Visible(rule, params);
    var present := Present(rule, params);
    var minimum := Least(rule.minPresent, |visible|);
    if visible == [] then None
    else if minimum > 0 && |present| < minimum then Some(RequiredChoice(visible, minimum))
    else if rule.maxPresent > 0 && |present| > rule.maxPresent then Some(MutuallyExclusive(visible, present))
    else None
  }

  /** `apply`, with the loops that collect visible and present names. */
  method Apply(rule: PresenceRule, params: map<string, bool>) returns (err: Option<RuleError>)
    ensures err == Judge(rule, params)
    ensures err.None? ==> Kept(rule, params)
    ensures err.Some? ==> Breaks(rule, params, err.value)
  {
    JudgeMeans(rule, params);
    hide Filter, Kept, Breaks;
    FilterNone(params.Keys);
    FilterNone(PresentNames(params));
    var visible := [];
    for i := 0 to |rule.names|
      invariant visible == Filter(rule.names[..i], params.Keys)
    {
      FilterSnoc(rule.names, i, params.Keys);
      if rule.names[i] in params { visible := visible + [rule.names[i]]; }
    }
    assert rule.names[..|rule.names|] == rule.names;
    if |visible| == 0 { return None; }
    var minimum := Least(rule.minPresent, |visible|);
    var present := [];
    for i := 0 to |visible|
      invariant present == Filter(visible[..i], PresentNames(params))
    {
      FilterSnoc(visible, i, PresentNames(params));
      assert visible[i] in visible;
      if params[visible[i]] { present := present + [visible[i]]; }
    }
    assert visible[..|visible|] == visible;
    if minimum > 0 && |present| < minimum { return Some(RequiredChoice(visible, minimum)); }
    if rule.maxPresent > 0 && |present| > rule.maxPresent { return Some(MutuallyExclusive(visible, present)); }
    return None;
  }

  lemma FilterNone(keep: set<string>)
    ensures Filter([], keep) == []
  {
  }

  lemma FilterSnoc(names: seq<string>, i: nat, keep: set<string>)
    requires i < |names|
    ensures Filter(names[..i + 1], keep) == Filter(names[..i], keep) + if names[i] in keep then [names[i]] else []
  {
    assert names[..i + 1][..i] == names[..i];
  }

  // ------------------------------------------------------ what rules mean

  /** `picked` lists the names that are kept, in their order. */
  ghost predicate Picks(names: seq<string>, keep: set<string>, picked: seq<string>) {
    if names == [] then picked == []
    else
      var n, last := |names| - 1, |picked| - 1;
      if names[n] in keep then picked != [] && picked[last] == names[n] && Picks(names[..n], keep, picked[..last])
      else Picks(names[..n], keep, picked)
  }

  lemma {:induction false} FilterPicks(names: seq<string>, keep: set<string>, picked: seq<string>)
    ensures Picks(names, keep, picked) <==> picked == Filter(names, keep)
  {
    if names != [] {
      var n := |names| - 1;
      if names[n] in keep {
        if picked != [] {
          FilterPicks(names[..n], keep, picked[..|picked| - 1]);
          assert picked == picked[..|picked| - 1] + [picked[|picked| - 1]];
        }
      } else {
        FilterPicks(names[..n], keep, picked);
      }
    }
  }

  /** The rule's names among the caller's parameters, and those of them that are present. */
  ghost predicate Counts(rule: PresenceRule, params: map<string, bool>, visible: seq<string>, present: seq<string>) {
    && Picks(rule.names, params.Keys, visible)
    && Picks(visible, (set name | name in params && params[name]), present)
  }

  /** Enough of the visible names are present, as far as there are any, and not too many. */
  ghost predicate Kept(rule: PresenceRule, params: map<string, bool>) {
    exists visible, present ::
      Counts(rule, params, visible, present) &&
      |present| >= (if |visible| < rule.minPresent then |visible| else rule.minPresent) &&
      (rule.maxPresent > 0 ==> |present| <= rule.maxPresent)
  }

  /** Too few present names are a required choice, too many are exclusive. */
  ghost predicate Breaks(rule: PresenceRule, params: map<string, bool>, error: RuleError) {
    exists visible, present ::
      Counts(rule, params, visible, present) &&
      var minimum := if |visible| < rule.minPresent then |visible| else rule.minPresent;
      if |present| < minimum then error == RequiredChoice(visible, minimum)
      else rule.maxPresent > 0 && |present| > rule.maxPresent && error == MutuallyExclusive(visible, present)
  }

  lemma JudgeMeans(rule: PresenceRule, params: map<string, bool>)
    ensures Judge(rule, params).None? <==> Kept(rule, params)
    ensures forall error :: Judge(rule, params) == Some(error) <==> Breaks(rule, params, error)
  {
    hide Picks, Filter;
    assert PresentNames(params) == (set name | name in params && params[name]);
    forall visible, present
      ensures Counts(rule, params, visible, present) <==> visible == Visible(rule, params) && present == Present(rule, params)
    {
      FilterPicks(rule.names, params.Keys, visible);
      FilterPicks(visible, PresentNames(params), present);
    }
    assert Counts(rule, params, Visible(rule, params), Present(rule, params));
  }

  /** A distinct list has as many elements as its set. */
  lemma {:induction false} DistinctSize(names: seq<string>)
    requires Distinct(names)
    ensures |set x | x in names| == |names|
  {
    if names != [] {
      var n := |names| - 1;
      DistinctSize(names[..n]);
      assert names == names[..n] + [names[n]];
      assert (set x | x in names) == (set x | x in names[..n]) + {names[n]};
    }
  }

  /** The rule counts names of the rule among the visible and the present ones. */
  lemma JudgeCounts(rule: PresenceRule, params: map<string, bool>)
    requires Distinct(rule.names)
    ensures var visible, present := |set x | x in rule.names && x in params|, |set x | x in rule.names && x in params && params[x]|;
            Judge(rule, params).None? <==>
              Least(rule.minPresent, visible) <= present && (rule.maxPresent == 0 || present <= rule.maxPresent)
  {
    var visible, present := Visible(rule, params), Present(rule, params);
    DistinctSize(visible);
    DistinctSize(present);
    assert (set x | x in visible) == (set x | x in rule.names && x in params);
    assert (set x | x in present) == (set x | x in rule.names && x in params && params[x]);
  }

  /** Dropping a caller's invisible names and capping the minimum gives a rule
      that judges the same. */
  function VisibleRule(rule: PresenceRule, visible: set<string>): PresenceRule {
    var names := Filter(rule.names, visible);
    PresenceRule(names, Least(rule.minPresent, |names|), rule.maxPresent)
  }

  lemma {:induction false} FilterFilter(names: seq<string>, keep: set<string>)
    ensures Filter(Filter(names, keep), keep) == Filter(names, keep)
  {
    if names != [] {
      var n := |names| - 1;
      FilterFilter(names[..n], keep);
      var rest := Filter(names[..n], keep);
      if names[n] in keep { assert (rest + [names[n]])[..|rest|] == rest; }
    }
  }

  lemma VisibleRuleJudges(rule: PresenceRule, params: map<string, bool>)
    ensures Judge(VisibleRule(rule, params.Keys), params) == Judge(rule, params)
  {
    FilterFilter(rule.names, params.Keys);
  }
}
