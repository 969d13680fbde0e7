/** Directed graphs of callers and the walks in them. */
module RuleGraphs {
  import opened CallerSets

  type Graph = map<Caller, set<Caller>>

  function Next(g: Graph, c: Caller): set<Caller> {
    if c in g then g[c] else {}
  }

  /** Every caller the graph mentions. */
  function Callers(g: Graph): (r: set<Caller>)
    ensures forall c :: c in g ==> c in r
    ensures forall c, n :: n in Next(g, c) ==> n in r
  {
    g.Keys + set c, n | c in g && n in g[c] :: n
  }

  ghost predicate Walk(g: Graph, p: seq<Caller>) {
    forall i :: 0 <= i < |p| - 1 ==> p[i + 1] in Next(g, p[i])
  }

  ghost predicate WalkBetween(g: Graph, p: seq<Caller>, a: Caller, b: Caller) {
    |p| >= 2 && p[0] == a && p[|p| - 1] == b && Walk(g, p)
  }

  /** A walk of at least one edge leads from `a` to `b`. */
  ghost predicate Reaches(g: Graph, a: Caller, b: Caller) {
    exists p :: WalkBetween(g, p, a, b)
  }

  ghost predicate Cyclic(g: Graph) {
    exists c :: Reaches(g, c, c)
  }

  lemma EdgeReaches(g: Graph, a: Caller, b: Caller)
    requires b in Next(g, a)
    ensures Reaches(g, a, b)
  {
    assert WalkBetween(g, [a, b], a, b);
  }

  lemma ReachesLeavesKey(g: Graph, a: Caller, b: Caller)
    requires Reaches(g, a, b)
    ensures a in g
  {
    var p :| WalkBetween(g, p, a, b);
    assert p[1] in Next(g, p[0]);
  }

  lemma ReachesTransitive(g: Graph, a: Caller, b: Caller, c: Caller)
    requires Reaches(g, a, b) && Reaches(g, b, c)
    ensures Reaches(g, a, c)
  {
    var p :| WalkBetween(g, p, a, b);
    var q :| WalkBetween(g, q, b, c);
    var w := p + q[1..];
    assert w[|p| - 1] == q[0];
    forall i | 0 <= i < |w| - 1 ensures w[i + 1] in Next(g, w[i]) {
      if i >= |p| - 1 { assert w[i] == q[i - |p| + 1] && w[i + 1] == q[i - |p| + 2]; }
    }
    assert WalkBetween(g, w, a, c);
  }

  /** A set closed under edges holds everything that can be reached from it. */
  lemma {:induction false} ClosedHoldsReached(g: Graph, closed: set<Caller>, p: seq<Caller>)
    requires forall c :: c in closed ==> Next(g, c) <= closed
    requires |p| >= 1 && p[0] in closed && Walk(g, p)
    ensures p[|p| - 1] in closed
  {
    if |p| > 1 {
      assert p[1] in Next(g, p[0]);
      ClosedHoldsReached(g, closed, p[1..]);
    }
  }

  /** Where every edge lowers a rank, no walk comes back. */
  lemma {:induction false} RankFalls(g: Graph, rank: map<Caller, nat>, p: seq<Caller>)
    requires forall c, n :: c in rank && n in Next(g, c) ==> n in rank && rank[n] < rank[c]
    requires |p| >= 2 && p[0] in rank && Walk(g, p)
    ensures p[|p| - 1] in rank && rank[p[|p| - 1]] < rank[p[0]]
  {
    assert p[1] in Next(g, p[0]);
    if |p| > 2 { RankFalls(g, rank, p[1..]); }
  }

  lemma RankedIsAcyclic(g: Graph, rank: map<Caller, nat>)
    requires forall c, n :: c in rank && n in Next(g, c) ==> n in rank && rank[n] < rank[c]
    requires g.Keys <= rank.Keys
    ensures !Cyclic(g)
  {
    if c :| Reaches(g, c, c) {
      var p :| WalkBetween(g, p, c, c);
      assert p[1] in Next(g, p[0]);
      RankFalls(g, rank, p);
    }
  }
}
