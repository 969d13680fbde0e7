/** The caller projection policy (caller/projection.go): directional rules, a
    depth-first search that refuses cycles, and the closure `Resolve` reads. */
module CallerProjection {
  import opened Wrappers
  import opened CallerSets
  import opened RuleGraphs

  // --------------------------------------------------------- cycle search

  datatype Mark = Unvisited | Visiting | Visited

  type Marks = map<Caller, Mark>

  function MarkOf(state: Marks, c: Caller): Mark {
    if c in state then state[c] else Unvisited
  }

  /** Finished callers are ranked in the order they were finished, so every edge
      out of one leads to a finished caller of lower rank. */
  ghost predicate Ranked(edges: Graph, state: Marks, rank: map<Caller, nat>) {
    && (forall c :: c in rank <==> MarkOf(state, c) == Visited)
    && (forall c, n :: c in rank && n in Next(edges, c) ==> n in rank && rank[n] < rank[c])
    && (forall c :: c in rank ==> rank[c] < |rank|)
  }

  /** The state of the search with `stack` the chain of callers being visited, oldest first. */
  ghost predicate Searching(edges: Graph, state: Marks, rank: map<Caller, nat>, stack: seq<Caller>) {
    && state.Keys <= Callers(edges)
    && (forall c :: c in state ==> state[c] != Unvisited)
    && Ranked(edges, state, rank)
    && Walk(edges, stack)
    && (forall c :: MarkOf(state, c) == Visiting <==> c in stack)
  }

  /** What the mark of a caller says. */
  lemma MarksSay(edges: Graph, state: Marks, rank: map<Caller, nat>, stack: seq<Caller>, c: Caller)
    requires Searching(edges, state, rank, stack)
    ensures MarkOf(state, c) == Unvisited <==> c !in state.Keys
    ensures MarkOf(state, c) == Visiting <==> c in stack
    ensures MarkOf(state, c) == Visited <==> c in rank
    ensures Walk(edges, stack)
  {
  }

  lemma RankedUntouched(edges: Graph, state: Marks, rank: map<Caller, nat>, c: Caller)
    requires Ranked(edges, state, rank) && MarkOf(state, c) == Unvisited
    ensures Ranked(edges, state[c := Visiting], rank)
  {
    forall x ensures x in rank <==> MarkOf(state[c := Visiting], x) == Visited {}
  }

  lemma Begins(edges: Graph, state: Marks, rank: map<Caller, nat>, stack: seq<Caller>, c: Caller)
    requires Searching(edges, state, rank, stack)
    requires MarkOf(state, c) == Unvisited && c in Callers(edges)
    requires stack != [] ==> c in Next(edges, stack[|stack| - 1])
    ensures Searching(edges, state[c := Visiting], rank, stack + [c]) && c !in stack
  {
    hide Ranked, Walk, Next, Callers;
    RankedUntouched(edges, state, rank, c);
    ChainExtends(edges, stack, c);
  }

  lemma Finishes(edges: Graph, state: Marks, rank: map<Caller, nat>, stack: seq<Caller>, c: Caller)
    requires Searching(edges, state, rank, stack + [c]) && c !in stack
    requires Next(edges, c) <= rank.Keys
    ensures c !in rank
    ensures Searching(edges, state[c := Visited], rank[c := |rank|], stack)
  {
    hide Ranked, Walk, Next, Callers;
    var chain := stack + [c];
    assert chain[|stack|] == c;
    RankedGrows(edges, state, rank, c);
    ChainShortens(edges, stack, c);
    forall x ensures MarkOf(state[c := Visited], x) == Visiting <==> x in stack {
      assert x in chain <==> x in stack || x == c;
    }
  }

  lemma RankedGrows(edges: Graph, state: Marks, rank: map<Caller, nat>, c: Caller)
    requires Ranked(edges, state, rank) && MarkOf(state, c) == Visiting && Next(edges, c) <= rank.Keys
    ensures c !in rank && Ranked(edges, state[c := Visited], rank[c := |rank|])
  {
    hide Next;
    var ranked := rank[c := |rank|];
    assert |ranked| == |rank| + 1 by { assert ranked.Keys == rank.Keys + {c}; }
  }

  lemma ChainShortens(edges: Graph, stack: seq<Caller>, c: Caller)
    requires Walk(edges, stack + [c])
    ensures Walk(edges, stack)
  {
    hide Next;
    var chain := stack + [c];
    forall i | 0 <= i < |stack| - 1 ensures stack[i + 1] in Next(edges, stack[i]) {
      assert chain[i] == stack[i] && chain[i + 1] == stack[i + 1];
    }
  }

  /** `projectionCycleFinder`. Go map iteration is an arbitrary choice of the
      next successor. */
  class CycleFinder {
    const edges: Graph
    var state: Marks
    var cycle: Caller
    ghost var rank: map<Caller, nat>

    constructor (g: Graph)
      ensures edges == g && cycle == UNDEFINED && Searching(edges, state, rank, [])
    {
      edges, state, cycle, rank := g, map[], UNDEFINED, map[];
    }

    /** Either a caller on a cycle is reported, or `current` and everything
        behind it is finished and the chain is as before. Each call visits a
        caller that was unvisited, so the search ends. */
    method Visit(current: Caller, ghost stack: seq<Caller>)
      requires forall c, n :: n in Next(edges, c) ==> n.Defined()
      requires !cycle.Defined() && Searching(edges, state, rank, stack)
      requires MarkOf(state, current) == Unvisited && current in Callers(edges)
      requires stack != [] ==> current in Next(edges, stack[|stack| - 1])
      modifies this
      ensures cycle.Defined() ==> Reaches(edges, cycle, cycle)
      ensures !cycle.Defined() ==> Searching(edges, state, rank, stack) && current in rank
      ensures old(rank.Keys) <= rank.Keys && old(state.Keys) <= state.Keys
      decreases |Callers(edges) - state.Keys|
    {
      hide Searching, Ranked, Walk, Reaches, Callers, Next, MarkOf;
      if cycle.Defined() { return; }
      ghost var chain := stack + [current];
      MarksSay(edges, state, rank, stack, current);
      Begins(edges, state, rank, stack, current);
      state := state[current := Visiting];
      var left := Next(edges, current);
      while left != {}
        invariant !cycle.Defined() && Searching(edges, state, rank, chain)
        invariant left <= Next(edges, current)
        invariant Next(edges, current) - left <= rank.Keys
        invariant old(rank.Keys) <= rank.Keys && old(state.Keys) + {current} <= state.Keys
        decreases |left|
      {
        var next :| next in left;
        assert next in Next(edges, current) && chain[|stack|] == current;
        MarksSay(edges, state, rank, chain, next);
        left := left - {next};
        if MarkOf(state, next) == Visiting {
          cycle := next;
          ChainCloses(edges, chain, next);
          return;
        } else if MarkOf(state, next) == Unvisited {
          Smaller(Callers(edges), old(state.Keys), state.Keys, current);
          Visit(next, chain);
          if cycle.Defined() { return; }
        }
      }
      Finishes(edges, state, rank, stack, current);
      state := state[current := Visited];
      rank := rank[current := |rank|];
    }

    method VisitRoots()
      requires forall c, n :: n in Next(edges, c) ==> n.Defined()
      requires !cycle.Defined() && Searching(edges, state, rank, [])
      modifies this
      ensures cycle.Defined() <==> Cyclic(edges)
      ensures cycle.Defined() ==> Reaches(edges, cycle, cycle)
    {
      hide Searching, Ranked, Walk, Reaches, Cyclic;
      var left := edges.Keys;
      while left != {}
        invariant left <= edges.Keys
        invariant if cycle.Defined() then Reaches(edges, cycle, cycle)
                  else Searching(edges, state, rank, []) && edges.Keys - left <= rank.Keys
        decreases |left|
      {
        var c :| c in left;
        if cycle.Defined() {
          ReachesItself(edges, cycle);
          return;
        }
        left := left - {c};
        MarksSay(edges, state, rank, [], c);
        KeyIsCaller(edges, c);
        if MarkOf(state, c) == Unvisited { Visit(c, []); }
      }
      if cycle.Defined() { ReachesItself(edges, cycle); } else { SearchedAcyclic(edges, state, rank); }
    }
  }

  lemma ReachesItself(g: Graph, c: Caller)
    requires Reaches(g, c, c)
    ensures Cyclic(g)
  {
    hide Reaches;
  }

  lemma KeyIsCaller(g: Graph, c: Caller)
    requires c in g
    ensures c in Callers(g)
  {
  }

  lemma SearchedAcyclic(g: Graph, state: Marks, rank: map<Caller, nat>)
    requires Searching(g, state, rank, []) && g.Keys <= rank.Keys
    ensures !Cyclic(g)
  {
    hide Walk;
    RankedIsAcyclic(g, rank);
  }

  lemma ChainExtends(g: Graph, chain: seq<Caller>, next: Caller)
    requires Walk(g, chain) && (chain != [] ==> next in Next(g, chain[|chain| - 1]))
    ensures Walk(g, chain + [next])
    ensures forall c :: c in chain + [next] <==> c in chain || c == next
  {
  }

  lemma Smaller(all: set<Caller>, before: set<Caller>, after: set<Caller>, c: Caller)
    requires c in all && c !in before && before + {c} <= after
    ensures |all - after| < |all - before|
  {
    SubsetSize(all - after, all - before - {c});
    assert |all - before - {c}| == |all - before| - 1;
  }

  /** An edge back into the chain being visited closes a cycle. */
  lemma ChainCloses(g: Graph, chain: seq<Caller>, next: Caller)
    requires chain != [] && Walk(g, chain) && next in chain
    requires next in Next(g, chain[|chain| - 1])
    ensures Reaches(g, next, next)
  {
    var i :| 0 <= i < |chain| && chain[i] == next;
    var p := chain[i..] + [next];
    forall k | 0 <= k < |p| - 1 ensures p[k + 1] in Next(g, p[k]) {
      assert p[k] == chain[i + k];
      if k + 1 < |p| - 1 { assert p[k + 1] == chain[i + k + 1]; }
    }
    assert WalkBetween(g, p, next, next);
  }

  /** The zero caller when the graph has no cycle, otherwise a caller on one.
      The verdict does not depend on the order in which maps are walked. */
  method FindProjectionCycle(edges: Graph) returns (cycle: Caller)
    requires forall c, n :: n in Next(edges, c) ==> n.Defined()
    ensures cycle.Defined() <==> Cyclic(edges)
    ensures cycle.Defined() ==> Reaches(edges, cycle, cycle)
  {
    var finder := new CycleFinder(edges);
    finder.VisitRoots();
    cycle := finder.cycle;
  }

  // -------------------------------------------------------------- closure

  /** The map that `collectDescendants` fills, shared by all its calls. */
  class Reachable {
    var seen: set<Caller>

    constructor ()
      ensures seen == {}
    {
      seen := {};
    }
  }

  ghost predicate Follows(edges: Graph, done: set<Caller>, seen: set<Caller>) {
    forall c, n :: c in done && n in Next(edges, c) ==> n in seen
  }

  /** Adds to the shared map only callers that `current` reaches, and leaves
      every caller it adds, and `current` itself, with all successors added. */
  method CollectDescendants(current: Caller, edges: Graph, reachable: Reachable)
    requires reachable.seen <= Callers(edges)
    modifies reachable
    ensures old(reachable.seen) <= reachable.seen <= Callers(edges)
    ensures forall c :: c in reachable.seen - old(reachable.seen) ==> Reaches(edges, current, c)
    ensures Follows(edges, reachable.seen - old(reachable.seen) + {current}, reachable.seen)
    decreases |Callers(edges) - reachable.seen|
  {
    ghost var before := reachable.seen;
    var left := Next(edges, current);
    while left != {}
      invariant left <= Next(edges, current)
      invariant before <= reachable.seen <= Callers(edges)
      invariant Next(edges, current) - left <= reachable.seen
      invariant forall c :: c in reachable.seen - before ==> Reaches(edges, current, c)
      invariant Follows(edges, reachable.seen - before, reachable.seen)
      decreases |left|
    {
      var next :| next in left;
      left := left - {next};
      if next in reachable.seen { continue; }
      ghost var outer := reachable.seen;
      reachable.seen := reachable.seen + {next};
      Smaller(Callers(edges), before, reachable.seen, next);
      EdgeReaches(edges, current, next);
      CollectDescendants(next, edges, reachable);
      forall c | c in reachable.seen - outer ensures Reaches(edges, current, c) {
        if c != next { ReachesTransitive(edges, current, next, c); }
      }
    }
  }

  /** What a policy must hold: for each caller with a rule, exactly the callers
      that it reaches. */
  ghost predicate IsClosure(descendants: Graph, edges: Graph) {
    && descendants.Keys == edges.Keys
    && forall a, b :: a in edges ==> (b in descendants[a] <==> Reaches(edges, a, b))
  }

  method DescendantsOf(from: Caller, edges: Graph) returns (r: set<Caller>)
    ensures forall c :: c in r <==> Reaches(edges, from, c)
  {
    var reachable := new Reachable();
    CollectDescendants(from, edges, reachable);
    r := reachable.seen;
    forall c | Reaches(edges, from, c) ensures c in r {
      var p :| WalkBetween(edges, p, from, c);
      ClosedHoldsReached(edges, r + {from}, p);
      if c == from && c !in r {
        assert p[1..][0] in Next(edges, from);
        ClosedHoldsReached(edges, r, p[1..]);
      }
    }
  }

  // --------------------------------------------------------------- policy

  /** A rule's fields are unexported, so the zero rule is the only undefined one. */
  datatype ProjectionRule = ProjectionRule(from: Caller, to: Caller)

  datatype PolicyError =
    | RuleUndefined
    | RuleSelf(caller: Caller)
    | RuleDuplicate(rule: ProjectionRule)
    | RuleCycle(at: Caller)

  datatype ProjectionPolicy = ProjectionPolicy(descendants: Graph)

  function AddRule(g: Graph, rule: ProjectionRule): Graph {
    g[rule.from := Next(g, rule.from) + {rule.to}]
  }

  function RuleGraph(rules: seq<ProjectionRule>): Graph {
    if rules == [] then map[] else AddRule(RuleGraph(rules[..|rules| - 1]), rules[|rules| - 1])
  }

  /** An edge of the graph is a declared rule, and a key has at least one. */
  lemma {:induction false} RuleGraphEdges(rules: seq<ProjectionRule>)
    ensures forall a, b :: b in Next(RuleGraph(rules), a) <==> ProjectionRule(a, b) in rules
    ensures forall a :: a in RuleGraph(rules) ==> Next(RuleGraph(rules), a) != {}
  {
    if rules != [] {
      var n := |rules| - 1;
      RuleGraphEdges(rules[..n]);
      assert rules == rules[..n] + [rules[n]];
    }
  }

  /** A chain of declared rules leads from `a` to `b`. */
  ghost predicate RuleChain(rules: seq<ProjectionRule>, p: seq<Caller>, a: Caller, b: Caller) {
    && |p| >= 2 && p[0] == a && p[|p| - 1] == b
    && forall i :: 0 <= i < |p| - 1 ==> ProjectionRule(p[i], p[i + 1]) in rules
  }

  ghost predicate RulePath(rules: seq<ProjectionRule>, a: Caller, b: Caller) {
    exists p :: RuleChain(rules, p, a, b)
  }

  lemma RulePathIsReach(rules: seq<ProjectionRule>, a: Caller, b: Caller)
    ensures RulePath(rules, a, b) <==> Reaches(RuleGraph(rules), a, b)
  {
    RuleGraphEdges(rules);
    var g := RuleGraph(rules);
    if RulePath(rules, a, b) {
      var p :| RuleChain(rules, p, a, b);
      assert WalkBetween(g, p, a, b);
    }
    if Reaches(g, a, b) {
      var p :| WalkBetween(g, p, a, b);
      assert RuleChain(rules, p, a, b);
    }
  }

  ghost predicate RulesDistinct(rules: seq<ProjectionRule>) {
    && (forall i :: 0 <= i < |rules| ==>
          rules[i].from.Defined() && rules[i].to.Defined() && rules[i].from != rules[i].to)
    && (forall i, j :: 0 <= i < j < |rules| ==> rules[i] != rules[j])
  }

  /** One more rule keeps the list distinct exactly when it is well-formed and new. */
  lemma RulesDistinctStep(rules: seq<ProjectionRule>, i: nat)
    requires i < |rules| && RulesDistinct(rules[..i])
    ensures var rule := rules[i];
            var isNew := rule.to !in Next(RuleGraph(rules[..i]), rule.from);
            if rule.from.Defined() && rule.to.Defined() && rule.from != rule.to && isNew
            then RulesDistinct(rules[..i + 1])
            else !RulesDistinct(rules)
    ensures RuleGraph(rules[..i + 1]) == AddRule(RuleGraph(rules[..i]), rules[i])
  {
    hide RuleGraph, AddRule, Next, RulesDistinct;
    RuleGraphSnoc(rules, i);
    RuleGraphEdges(rules[..i]);
    RuleIsNew(rules, i);
  }

  lemma RuleGraphSnoc(rules: seq<ProjectionRule>, i: nat)
    requires i < |rules|
    ensures RuleGraph(rules[..i + 1]) == AddRule(RuleGraph(rules[..i]), rules[i])
  {
    assert rules[..i + 1][..i] == rules[..i];
  }

  lemma RuleIsNew(rules: seq<ProjectionRule>, i: nat)
    requires i < |rules| && RulesDistinct(rules[..i])
    ensures var rule := rules[i];
            if rule.from.Defined() && rule.to.Defined() && rule.from != rule.to &&
               ProjectionRule(rule.from, rule.to) !in rules[..i]
            then RulesDistinct(rules[..i + 1])
            else !RulesDistinct(rules)
  {
    var rule, head := rules[i], rules[..i];
    assert rules[..i + 1] == head + [rule];
    assert rule == ProjectionRule(rule.from, rule.to);
    if rule in head {
      var j :| 0 <= j < i && head[j] == rule;
      assert rules[j] == rules[i];
    }
  }

  ghost predicate Admissible(rules: seq<ProjectionRule>) {
    RulesDistinct(rules) && forall c :: !RulePath(rules, c, c)
  }

  /** `projectionPolicyCtor`: each step is skipped once `err` is set. */
  class PolicyCtor {
    const rules: seq<ProjectionRule>
    var edges: Graph
    var descendants: Graph
    var err: Option<PolicyError>

    constructor (rules: seq<ProjectionRule>)
      ensures this.rules == rules && err == None && edges == map[] && descendants == map[]
    {
      this.rules, edges, descendants, err := rules, map[], map[], None;
    }

    method IndexRule(rule: ProjectionRule)
      requires err == None
      modifies this`edges, this`err
      ensures if rule.to in Next(old(edges), rule.from)
              then err == Some(RuleDuplicate(rule)) && edges == old(edges)
              else err == None && edges == AddRule(old(edges), rule)
    {
      if rule.from !in edges { edges := edges[rule.from := {}]; }
      if rule.to in edges[rule.from] {
        err := Some(RuleDuplicate(rule));
        return;
      }
      edges := edges[rule.from := edges[rule.from] + {rule.to}];
    }

    method IndexRules()
      requires err == None && edges == map[]
      modifies this`edges, this`err
      ensures err == None <==> RulesDistinct(rules)
      ensures err == None ==> edges == RuleGraph(rules)
      ensures err.Some? ==> !err.value.RuleCycle?
    {
      for i := 0 to |rules|
        invariant err == None && edges == RuleGraph(rules[..i])
        invariant RulesDistinct(rules[..i])
      {
        var rule := rules[i];
        RulesDistinctStep(rules, i);
        if !rule.from.Defined() || !rule.to.Defined() {
          err := Some(RuleUndefined);
          return;
        }
        if rule.from == rule.to {
          err := Some(RuleSelf(rule.from));
          return;
        }
        IndexRule(rule);
        if err.Some? { return; }
      }
      assert rules[..|rules|] == rules;
    }

    method EnsureAcyclic()
      requires err == None ==> forall c, n :: n in Next(edges, c) ==> n.Defined()
      modifies this`err
      ensures old(err).Some? ==> err == old(err)
      ensures old(err) == None ==> (err == None <==> !Cyclic(edges))
      ensures old(err) == None && err.Some? ==>
                err.value.RuleCycle? && Reaches(edges, err.value.at, err.value.at)
    {
      if err.Some? { return; }
      var cycle := FindProjectionCycle(edges);
      if cycle.Defined() { err := Some(RuleCycle(cycle)); }
    }

    method IndexDescendants()
      requires descendants == map[]
      modifies this`descendants
      ensures err == None ==> IsClosure(descendants, edges)
    {
      if err.Some? { return; }
      var left := edges.Keys;
      while left != {}
        invariant left <= edges.Keys
        invariant descendants.Keys == edges.Keys - left
        invariant forall a, b :: a in descendants ==> (b in descendants[a] <==> Reaches(edges, a, b))
        decreases |left|
      {
        var from :| from in left;
        left := left - {from};
        var reachable := DescendantsOf(from, edges);
        descendants := descendants[from := reachable];
      }
    }
  }

  /** Start-up check and closure; the panic is the `Err`. */
  method DefineProjectionPolicy(rules: seq<ProjectionRule>)
    returns (r: Result<ProjectionPolicy, PolicyError>)
    ensures r.Ok? <==> Admissible(rules)
    ensures r.Ok? ==> IsClosure(r.value.descendants, RuleGraph(rules))
    ensures r.Err? && r.error.RuleCycle? <==> RulesDistinct(rules) && !Admissible(rules)
    ensures r.Err? && r.error.RuleCycle? ==> RulePath(rules, r.error.at, r.error.at)
  {
    var ctor := new PolicyCtor(rules);
    ctor.IndexRules();
    RuleGraphEdges(rules);
    forall c ensures RulePath(rules, c, c) <==> Reaches(RuleGraph(rules), c, c) {
      RulePathIsReach(rules, c, c);
    }
    ctor.EnsureAcyclic();
    ctor.IndexDescendants();
    if ctor.err.Some? { return Err(ctor.err.value); }
    return Ok(ProjectionPolicy(ctor.descendants));
  }

  // -------------------------------------------------------------- resolve

  datatype ResolveError = CallerUndefined | Elevation(granted: Caller, requested: Caller)

  /** `projectionResolver`. */
  class Resolver {
    const policy: ProjectionPolicy
    const granted: Caller
    var requested: Caller
    var resolved: Caller
    var err: Option<ResolveError>

    constructor (policy: ProjectionPolicy, granted: Caller, requested: Caller)
      ensures this.policy == policy && this.granted == granted && this.requested == requested
      ensures resolved == UNDEFINED && err == None
    {
      this.policy, this.granted, this.requested := policy, granted, requested;
      resolved, err := UNDEFINED, None;
    }

    method EnsureGrantedCaller()
      modifies this`err
      ensures err == if old(err) == None && !granted.Defined() then Some(CallerUndefined) else old(err)
    {
      if err.Some? { return; }
      if !granted.Defined() { err := Some(CallerUndefined); }
    }

    method DefaultRequestedCaller()
      modifies this`requested
      ensures requested == if err == None && !old(requested).Defined() then granted else old(requested)
    {
      if err.Some? { return; }
      if !requested.Defined() { requested := granted; }
    }

    method EnsureProjectionAllowed()
      modifies this`resolved, this`err
      ensures old(err).Some? ==> err == old(err) && resolved == old(resolved)
      ensures old(err) == None && (requested == granted || requested in Next(policy.descendants, granted)) ==>
                err == None && resolved == requested
      ensures old(err) == None && requested != granted && requested !in Next(policy.descendants, granted) ==>
                err == Some(Elevation(granted, requested)) && resolved == old(resolved)
    {
      if err.Some? { return; }
      if requested == granted {
        resolved := granted;
        return;
      }
      if granted in policy.descendants && requested in policy.descendants[granted] {
        resolved := requested;
        return;
      }
      err := Some(Elevation(granted, requested));
    }
  }

  function Resolution(policy: ProjectionPolicy, granted: Caller, requested: Caller): Result<Caller, ResolveError> {
    var target := if requested.Defined() then requested else granted;
    if !granted.Defined() then Err(CallerUndefined)
    else if target == granted || target in Next(policy.descendants, granted) then Ok(target)
    else Err(Elevation(granted, target))
  }

  /** For a policy of these rules: an undefined granted caller is refused, no
      request or the own label keeps it, and any other target needs a chain of rules. */
  method Resolve(policy: ProjectionPolicy, granted: Caller, requested: Caller, ghost rules: seq<ProjectionRule>)
    returns (r: Result<Caller, ResolveError>)
    requires PolicyFor(policy, rules)
    ensures r == Resolution(policy, granted, requested)
    ensures r == Err(CallerUndefined) <==> !granted.Defined()
    ensures granted.Defined() && (!requested.Defined() || requested == granted) ==> r == Ok(granted)
    ensures granted.Defined() && requested.Defined() && requested != granted ==>
      r == if RulePath(rules, granted, requested) then Ok(requested) else Err(Elevation(granted, requested))
  {
    if granted.Defined() && requested.Defined() && requested != granted {
      ResolvePermitsRulePaths(policy, rules, granted, requested);
    }
    var resolver := new Resolver(policy, granted, requested);
    resolver.EnsureGrantedCaller();
    resolver.DefaultRequestedCaller();
    resolver.EnsureProjectionAllowed();
    r := if resolver.err.Some? then Err(resolver.err.value) else Ok(resolver.resolved);
  }

  /** A policy built from `rules`. */
  ghost predicate PolicyFor(policy: ProjectionPolicy, rules: seq<ProjectionRule>) {
    Admissible(rules) && IsClosure(policy.descendants, RuleGraph(rules))
  }

  /** A distinct target is permitted exactly along a chain of declared rules. */
  lemma ResolvePermitsRulePaths(policy: ProjectionPolicy, rules: seq<ProjectionRule>, granted: Caller, requested: Caller)
    requires PolicyFor(policy, rules)
    requires granted.Defined() && requested.Defined() && granted != requested
    ensures Resolution(policy, granted, requested) == Ok(requested) <==> RulePath(rules, granted, requested)
    ensures Resolution(policy, granted, requested).Ok? <==> RulePath(rules, granted, requested)
  {
    RulePathIsReach(rules, granted, requested);
    if Reaches(RuleGraph(rules), granted, requested) {
      ReachesLeavesKey(RuleGraph(rules), granted, requested);
    }
  }

  /** Permitted projections compose. */
  lemma ResolveComposes(policy: ProjectionPolicy, rules: seq<ProjectionRule>, a: Caller, b: Caller, c: Caller)
    requires PolicyFor(policy, rules) && b.Defined() && c.Defined()
    requires Resolution(policy, a, b).Ok? && Resolution(policy, b, c).Ok?
    ensures Resolution(policy, a, c) == Ok(c)
  {
    if a != b && b != c {
      ResolvePermitsRulePaths(policy, rules, a, b);
      ResolvePermitsRulePaths(policy, rules, b, c);
      RulePathIsReach(rules, a, b);
      RulePathIsReach(rules, b, c);
      RulePathIsReach(rules, a, c);
      ReachesTransitive(RuleGraph(rules), a, b, c);
      if a != c { ResolvePermitsRulePaths(policy, rules, a, c); }
    }
  }

  /** No two distinct callers can project to each other. */
  lemma ResolveNeverElevates(policy: ProjectionPolicy, rules: seq<ProjectionRule>, a: Caller, b: Caller)
    requires PolicyFor(policy, rules) && a.Defined() && b.Defined() && a != b
    requires Resolution(policy, a, b).Ok?
    ensures Resolution(policy, b, a) == Err(Elevation(b, a))
  {
    if Resolution(policy, b, a).Ok? {
      ResolvePermitsRulePaths(policy, rules, a, b);
      ResolvePermitsRulePaths(policy, rules, b, a);
      RulePathIsReach(rules, a, b);
      RulePathIsReach(rules, b, a);
      ReachesTransitive(RuleGraph(rules), a, b, a);
      RulePathIsReach(rules, a, a);
    }
  }
}
