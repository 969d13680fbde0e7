/** Queries on the flat index by binary search (request/projection_schema.go). */
module ProjectionSchema {
  import opened Wrappers
  import opened CallerSets
  import opened Text
  import opened ProjectionIndex
  import opened PropertyPaths

  // --------------------------------------------------------------- queries

  predicate AtOrAfter(name: string, key: string) {
    !StringLess(name, key)
  }

  /** `sort.Search`. */
  method SortSearch(n: nat, f: nat --> bool) returns (i: nat)
    requires forall k :: 0 <= k < n ==> f.requires(k)
    requires forall j, k :: 0 <= j <= k < n && f(j) ==> f(k)
    ensures i <= n
    ensures i < n ==> f(i)
    ensures forall k :: 0 <= k < i ==> !f(k)
  {
    var hi := n;
    i := 0;
    while i < hi
      invariant i <= hi <= n
      invariant forall k :: 0 <= k < i ==> !f(k)
      invariant forall k :: hi <= k < n ==> f(k)
    {
      var mid := (i + hi) / 2;
      if f(mid) { hi := mid; } else { i := mid + 1; }
    }
  }

  ghost predicate SortedEntries(entries: seq<ResourceEntry>) {
    forall i, j :: 0 <= i < j < |entries| ==> StringLess(entries[i].name, entries[j].name)
  }

  predicate EdgesInBounds(schema: Schema, n: nat) {
    n < |schema.nodes| && schema.nodes[n].firstEdge + schema.nodes[n].edgeCount <= |schema.edges|
  }

  function EdgeSlice(schema: Schema, n: nat): seq<Edge>
    requires EdgesInBounds(schema, n)
  {
    schema.edges[schema.nodes[n].firstEdge..schema.nodes[n].firstEdge + schema.nodes[n].edgeCount]
  }

  /** What binary search needs of an index. */
  ghost predicate Searchable(schema: Schema) {
    && SortedEntries(schema.resources)
    && forall n: nat :: EdgesInBounds(schema, n) ==> SortedEdges(EdgeSlice(schema, n))
  }

  predicate NodeVisibleTo(schema: Schema, n: nat, caller: Caller) {
    n < |schema.nodes| && Allows(schema.nodes[n].availability, caller)
  }

  ghost predicate HasEdge(schema: Schema, n: nat, segment: string, child: nat) {
    EdgesInBounds(schema, n) && Edge(segment, child) in EdgeSlice(schema, n)
  }

  /** The child along `segment`, by binary search in the node's edge range. */
  method Child(schema: Schema, n: nat, segment: string) returns (child: Option<nat>)
    requires Searchable(schema)
    ensures child.Some? ==> HasEdge(schema, n, segment, child.value)
    ensures child.None? ==> forall c: nat :: !HasEdge(schema, n, segment, c)
    ensures forall c: nat :: HasEdge(schema, n, segment, c) ==> child == Some(c)
  {
    if !EdgesInBounds(schema, n) { return None; }
    var edges := EdgeSlice(schema, n);
    forall j, k | 0 <= j <= k < |edges| && AtOrAfter(edges[j].segment, segment)
      ensures AtOrAfter(edges[k].segment, segment)
    {
      if j < k && StringLess(edges[k].segment, segment) {
        StringLessTransitive(edges[j].segment, edges[k].segment, segment);
      }
    }
    var reached := (k: nat) requires k < |edges| => AtOrAfter(edges[k].segment, segment);
    var index := SortSearch(|edges|, reached);
    StringLessIrreflexive(segment);
    assert SortedEdges(edges);
    forall k | 0 <= k < |edges| && edges[k].segment == segment ensures k == index {
      assert reached(k);
    }
    if index >= |edges| || edges[index].segment != segment { return None; }
    assert edges[index] == Edge(segment, edges[index].child);
    return Some(edges[index].child);
  }

  /** The roots the index lists for a resource. */
  ghost predicate IsRootList(schema: Schema, resource: string, roots: seq<nat>) {
    && (forall i :: 0 <= i < |schema.resources| && schema.resources[i].name == resource ==>
          var e := schema.resources[i];
          roots == if e.firstRoot + e.rootCount <= |schema.roots|
                   then schema.roots[e.firstRoot..e.firstRoot + e.rootCount] else [])
    && ((forall i :: 0 <= i < |schema.resources| ==> schema.resources[i].name != resource) ==> roots == [])
  }

  /** The roots of a resource, by binary search on its name. */
  method ResourceRoots(schema: Schema, resource: string) returns (roots: seq<nat>)
    requires Searchable(schema)
    ensures IsRootList(schema, resource, roots)
  {
    var entries := schema.resources;
    forall j, k | 0 <= j <= k < |entries| && AtOrAfter(entries[j].name, resource)
      ensures AtOrAfter(entries[k].name, resource)
    {
      if j < k && StringLess(entries[k].name, resource) {
        StringLessTransitive(entries[j].name, entries[k].name, resource);
      }
    }
    var reached := (k: nat) requires k < |entries| => AtOrAfter(entries[k].name, resource);
    var index := SortSearch(|entries|, reached);
    StringLessIrreflexive(resource);
    assert SortedEntries(entries);
    forall k | 0 <= k < |entries| && entries[k].name == resource ensures k == index {
      assert reached(k);
    }
    if index >= |entries| || entries[index].name != resource { return []; }
    var start := entries[index].firstRoot;
    var end := start + entries[index].rootCount;
    if end > |schema.roots| { return []; }
    return schema.roots[start..end];
  }

  /** `segments` leads down from node `n`, visible all the way. */
  ghost predicate FlatPath(schema: Schema, n: nat, segments: seq<string>, caller: Caller)
    decreases |segments|
  {
    NodeVisibleTo(schema, n, caller) &&
    (segments == [] ||
     exists c: nat :: HasEdge(schema, n, segments[0], c) && FlatPath(schema, c, segments[1..], caller))
  }

  /** Some root in the list accepts. */
  ghost predicate RootsAccept(schema: Schema, roots: seq<nat>, segments: seq<string>, caller: Caller) {
    exists j :: 0 <= j < |roots| && FlatPath(schema, roots[j], segments, caller)
  }

  method HasVisibleRoot(schema: Schema, roots: seq<nat>, caller: Caller) returns (visible: bool)
    ensures visible <==> RootsAccept(schema, roots, [], caller)
  {
    for j := 0 to |roots|
      invariant !RootsAccept(schema, roots[..j], [], caller)
    {
      if NodeVisibleTo(schema, roots[j], caller) {
        assert FlatPath(schema, roots[j], [], caller);
        return true;
      }
    }
    assert roots[..|roots|] == roots;
    return false;
  }

  /** A path is usable when its last segment is not empty. */
  predicate ProperPath(path: string) {
    var segments := Segments(path);
    segments[|segments| - 1] != ""
  }

  /** The definitions let no path end in a dot. */
  lemma ValidIsProper(path: string)
    requires ValidPath(path)
    ensures ProperPath(path)
  {
    var last := |Segments(path)| - 1;
    assert ValidName(Segments(path)[last]);
  }

  /** One step down: along the only edge for the segment, to a visible child. */
  lemma FlatStep(schema: Schema, n: nat, segments: seq<string>, child: Option<nat>, caller: Caller)
    requires NodeVisibleTo(schema, n, caller) && segments != []
    requires forall c: nat :: HasEdge(schema, n, segments[0], c) <==> child == Some(c)
    ensures FlatPath(schema, n, segments, caller) <==>
            child.Some? && FlatPath(schema, child.value, segments[1..], caller)
    ensures FlatPath(schema, n, segments, caller) ==> NodeVisibleTo(schema, child.value, caller)
  {
    hide HasEdge, NodeVisibleTo;
  }

  lemma RootHidden(schema: Schema, n: nat, segments: seq<string>, caller: Caller)
    ensures FlatPath(schema, n, segments, caller) ==> NodeVisibleTo(schema, n, caller)
  {
  }

  lemma PathEnds(schema: Schema, n: nat, caller: Caller)
    ensures FlatPath(schema, n, [], caller) <==> NodeVisibleTo(schema, n, caller)
  {
  }

  lemma CutSegments(s: string)
    ensures Segments(s) == [Cut(s).0] + if Cut(s).2 then Segments(Cut(s).1) else []
  {
  }

  /** Walks the dotted path one cut at a time. */
  method PathAvailableTo(schema: Schema, root: nat, path: string, caller: Caller) returns (available: bool)
    requires Searchable(schema)
    ensures available <==> ProperPath(path) && FlatPath(schema, root, Segments(path), caller)
  {
    hide FlatPath, HasEdge, Searchable, NodeVisibleTo, Segments;
    if !NodeVisibleTo(schema, root, caller) {
      RootHidden(schema, root, Segments(path), caller);
      return false;
    }
    var node := root;
    var remaining := path;
    while remaining != ""
      invariant NodeVisibleTo(schema, node, caller)
      invariant ProperPath(path) <==> ProperPath(remaining)
      invariant FlatPath(schema, root, Segments(path), caller) <==> FlatPath(schema, node, Segments(remaining), caller)
      decreases |remaining|
    {
      var (segment, rest, found) := Cut(remaining);
      var child := Child(schema, node, segment);
      CutSegments(remaining);
      FlatStep(schema, node, Segments(remaining), child, caller);
      if child.None? || !NodeVisibleTo(schema, child.value, caller) { return false; }
      node := child.value;
      if !found {
        PathEnds(schema, node, caller);
        return true;
      }
      assert Segments(remaining)[1..] == Segments(rest);
      remaining := rest;
    }
    CutSegments(remaining);
    return false;
  }

  method PathAvailable(schema: Schema, roots: seq<nat>, path: string, caller: Caller) returns (available: bool)
    requires Searchable(schema)
    ensures available <==> ProperPath(path) && RootsAccept(schema, roots, Segments(path), caller)
  {
    hide FlatPath, Searchable, Segments;
    for j := 0 to |roots|
      invariant ProperPath(path) ==> !RootsAccept(schema, roots[..j], Segments(path), caller)
    {
      var here := PathAvailableTo(schema, roots[j], path, caller);
      if here { return true; }
    }
    assert roots[..|roots|] == roots;
    return false;
  }
}
