/** Caller labels and caller allow-lists (caller/caller.go). */
module CallerSets {
  import opened Wrappers

  /** The zero caller has the empty name. */
  datatype Caller = Caller(name: string) {
    predicate Defined() { name != "" }
  }

  const UNDEFINED := Caller("")

  /** The fields of a set. `callers` keeps definition order, `index` answers membership. */
  datatype RawSet = RawSet(restricted: bool, callers: seq<Caller>, index: map<string, Caller>) {
    ghost predicate Valid() {
      && (!restricted ==> callers == [] && index == map[])
      && (forall i :: 0 <= i < |callers| ==>
            callers[i].Defined() && callers[i].name in index && index[callers[i].name] == callers[i])
      && (forall i, j :: 0 <= i < j < |callers| ==> callers[i] != callers[j])
      && (forall name :: name in index ==> Caller(name) in callers)
    }
  }

  /** Every set the package hands out keeps list and index in step. */
  type CallerSet = s: RawSet | s.Valid() witness RawSet(false, [], map[])

  const UNRESTRICTED: CallerSet := RawSet(false, [], map[])

  /** An unrestricted set allows every caller, the zero caller included. */
  predicate Allows(s: CallerSet, c: Caller) {
    !s.restricted || (c.Defined() && c.name in s.index)
  }

  /** On a restricted set, membership is membership in the list. */
  lemma RestrictedAllows(s: CallerSet, c: Caller)
    requires s.restricted
    ensures Allows(s, c) <==> c in s.callers
  {
    if Allows(s, c) { assert Caller(c.name) in s.callers; }
  }

  ghost predicate Distinct(callers: seq<Caller>) {
    forall i, j :: 0 <= i < j < |callers| ==> callers[i] != callers[j]
  }

  ghost predicate AllDefined(callers: seq<Caller>) {
    forall i :: 0 <= i < |callers| ==> callers[i].Defined()
  }

  function IndexOf(callers: seq<Caller>): (r: map<string, Caller>)
    ensures forall name :: name in r <==> Caller(name) in callers
    ensures forall name :: name in r ==> r[name] == Caller(name)
  {
    map i | 0 <= i < |callers| :: callers[i].name := callers[i]
  }

  /** The restricted set over `callers`; it may be empty, and then allows nobody. */
  function Restricted(callers: seq<Caller>): (r: CallerSet)
    requires Distinct(callers) && AllDefined(callers)
  {
    RawSet(true, callers, IndexOf(callers))
  }

  lemma IndexOfSnoc(callers: seq<Caller>, c: Caller)
    ensures IndexOf(callers + [c]) == IndexOf(callers)[c.name := c]
  {
    var before, after := IndexOf(callers), IndexOf(callers + [c]);
    forall name ensures name in after <==> name in before || name == c.name {
      assert Caller(name) in callers + [c] <==> Caller(name) in callers || Caller(name) == c;
    }
  }

  lemma DistinctSnoc(callers: seq<Caller>, i: nat)
    requires i < |callers| && Distinct(callers[..i]) && AllDefined(callers[..i])
    requires callers[i].Defined() && callers[i] !in callers[..i]
    ensures Distinct(callers[..i + 1]) && AllDefined(callers[..i + 1])
    ensures callers[..i + 1] == callers[..i] + [callers[i]]
  {
    var head := callers[..i];
    assert callers[..i + 1] == head + [callers[i]];
    forall j | 0 <= j < i ensures callers[j] != callers[i] { assert head[j] == callers[j]; }
  }

  lemma RepeatedIsNotDistinct(callers: seq<Caller>, i: nat)
    requires i < |callers| && callers[i] in callers[..i]
    ensures !Distinct(callers)
  {
    var j :| 0 <= j < i && callers[..i][j] == callers[i];
    assert callers[j] == callers[i];
  }

  datatype SetError = UndefinedCaller | DuplicateCaller(caller: Caller)

  /** The error is that of the first caller that is undefined or repeated. */
  ghost predicate FirstBad(callers: seq<Caller>, error: SetError) {
    exists i :: 0 <= i < |callers| && Distinct(callers[..i]) && AllDefined(callers[..i]) &&
      if !callers[i].Defined() then error == UndefinedCaller
      else callers[i] in callers[..i] && error == DuplicateCaller(callers[i])
  }

  /** Builds a set; with no callers the result is unrestricted, not empty. */
  method SetOf(callers: seq<Caller>) returns (r: Result<CallerSet, SetError>)
    ensures r.Ok? <==> AllDefined(callers) && Distinct(callers)
    ensures r.Ok? ==> r.value == if callers == [] then UNRESTRICTED else Restricted(callers)
    ensures r.Err? ==> FirstBad(callers, r.error)
  {
    if callers == [] { return Ok(UNRESTRICTED); }
    var index: map<string, Caller> := map[];
    for i := 0 to |callers|
      invariant Distinct(callers[..i]) && AllDefined(callers[..i])
      invariant index == IndexOf(callers[..i])
    {
      var c := callers[i];
      if !c.Defined() { return Err(UndefinedCaller); }
      if c.name in index {
        RepeatedIsNotDistinct(callers, i);
        assert callers[i] in callers[..i];
        return Err(DuplicateCaller(c));
      }
      DistinctSnoc(callers, i);
      IndexOfSnoc(callers[..i], c);
      index := index[c.name := c];
    }
    assert callers[..|callers|] == callers;
    assert RawSet(true, callers, index) == Restricted(callers);
    var s: CallerSet := RawSet(true, callers, index);
    return Ok(s);
  }

  function AllowedBy(callers: seq<Caller>, other: CallerSet): (r: seq<Caller>)
    ensures forall c :: c in r <==> c in callers && Allows(other, c)
    ensures Distinct(callers) ==> Distinct(r)
    ensures AllDefined(callers) ==> AllDefined(r)
  {
    if callers == [] then []
    else
      var n := |callers| - 1;
      var rest := AllowedBy(callers[..n], other);
      assert callers == callers[..n] + [callers[n]];
      if Allows(other, callers[n]) then rest + [callers[n]] else rest
  }

  lemma AllowedByNone(other: CallerSet)
    ensures AllowedBy([], other) == []
  {
  }

  lemma AllowedBySnoc(callers: seq<Caller>, i: nat, other: CallerSet)
    requires i < |callers|
    ensures AllowedBy(callers[..i + 1], other) ==
            AllowedBy(callers[..i], other) + if Allows(other, callers[i]) then [callers[i]] else []
  {
    hide Allows;
    assert callers[..i + 1][..i] == callers[..i];
  }

  /** The value `Intersect` computes. */
  function Meet(a: CallerSet, b: CallerSet): CallerSet {
    if !a.restricted then b
    else if !b.restricted then a
    else Restricted(AllowedBy(a.callers, b))
  }

  method Intersect(a: CallerSet, b: CallerSet) returns (r: CallerSet)
    ensures r == Meet(a, b)
    ensures forall c :: Allows(r, c) <==> Allows(a, c) && Allows(b, c)
  {
    hide Allows, AllowedBy, IndexOf;
    MeetAllowsAll(a, b);
    if !a.restricted { return b; }
    if !b.restricted { return a; }
    var callers := AllowedByLoop(a.callers, b);
    r := Restricted(callers);
  }

  method AllowedByLoop(callers: seq<Caller>, other: CallerSet) returns (r: seq<Caller>)
    ensures r == AllowedBy(callers, other)
  {
    hide Allows, AllowedBy, Distinct, AllDefined;
    r := [];
    AllowedByNone(other);
    for i := 0 to |callers|
      invariant r == AllowedBy(callers[..i], other)
    {
      AllowedBySnoc(callers, i, other);
      if Allows(other, callers[i]) { r := r + [callers[i]]; }
    }
    assert callers[..|callers|] == callers;
  }

  /** Intersecting two sets allows exactly the callers both allow. */
  lemma MeetAllows(a: CallerSet, b: CallerSet, c: Caller)
    ensures Allows(Meet(a, b), c) <==> Allows(a, c) && Allows(b, c)
  {
    if a.restricted && b.restricted {
      RestrictedAllows(Meet(a, b), c);
      RestrictedAllows(a, c);
    }
  }

  lemma MeetAllowsAll(a: CallerSet, b: CallerSet)
    ensures forall c :: Allows(Meet(a, b), c) <==> Allows(a, c) && Allows(b, c)
  {
    forall c ensures Allows(Meet(a, b), c) <==> Allows(a, c) && Allows(b, c) { MeetAllows(a, b, c); }
  }

  /** response/attribute.go and endpoint/contract.go clone a set by rebuilding it
      from its caller list. */
  function Clone(s: CallerSet): CallerSet {
    if !s.restricted || s.callers == [] then UNRESTRICTED else Restricted(s.callers)
  }

  /** The clone allows the same callers unless the set is restricted to nobody:
      that one turns into the set that allows everybody. */
  lemma ClonePreservesAllows(s: CallerSet)
    ensures (forall c :: Allows(Clone(s), c) == Allows(s, c)) <==> !(s.restricted && s.callers == [])
  {
    if s.restricted && s.callers == [] {
      assert Allows(Clone(s), Caller("worker")) && !Allows(s, Caller("worker"));
    } else if s.restricted {
      forall c ensures Allows(Clone(s), c) == Allows(s, c) {
        RestrictedAllows(Clone(s), c);
        RestrictedAllows(s, c);
      }
    }
  }
}
