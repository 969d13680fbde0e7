/** The whole pipeline: response shapes, tree of shared nodes, flat index, binary
    search. The index accepts exactly the paths the shapes declare for the
    caller (request/projection_shape.go, request/projection_schema.go). */
module ProjectionRefinement {
  import opened Wrappers
  import opened CallerSets
  import opened Text
  import opened ResponseShapes
  import opened ProjectionTree
  import opened ProjectionIndex
  import opened ProjectionSchema
  import opened PropertyPaths

  // ------------------------------------------------- flat index to tree of shared nodes

  /** The number of a tree node accepts what the tree node accepts. */
  lemma {:induction false} FlatPathIsTreePath(
    schema: Schema, s: State, universe: set<TreeNode>, node: TreeNode, segments: seq<string>, caller: Caller)
    requires schema.nodes == s.nodes && schema.edges == s.edges
    requires Coherent(s, universe) && FilledFrom(s, 0) && Universe(universe) && node in s.indexes
    ensures FlatPath(schema, s.indexes[node], segments, caller) <==> TreePath(node, segments, caller)
    decreases |segments|
  {
    hide Universe, EdgeTotal, Base, FilledFrom;
    var k := s.indexes[node];
    if segments != [] {
      EdgeIsChild(schema, s, universe, node, segments[0], 0);
      forall c: nat
        ensures HasEdge(schema, k, segments[0], c) <==>
                segments[0] in node.children && node.children[segments[0]] in s.indexes
                && c == s.indexes[node.children[segments[0]]]
      {
        EdgeIsChild(schema, s, universe, node, segments[0], c);
      }
      if segments[0] in node.children {
        FlatPathIsTreePath(schema, s, universe, node.children[segments[0]], segments[1..], caller);
      }
    }
  }

  lemma EdgeIsChild(schema: Schema, s: State, universe: set<TreeNode>, node: TreeNode, segment: string, c: nat)
    requires schema.nodes == s.nodes && schema.edges == s.edges
    requires Coherent(s, universe) && FilledFrom(s, 0) && Universe(universe) && node in s.indexes
    ensures segment in node.children ==> node.children[segment] in s.indexes
    ensures HasEdge(schema, s.indexes[node], segment, c) <==>
            segment in node.children && node.children[segment] in s.indexes && c == s.indexes[node.children[segment]]
  {
    hide Universe, EdgeTotal, Base, FilledFrom, Edges;
    var k := s.indexes[node];
    CompiledRange(s, universe, k);
    assert EdgeSlice(schema, k) == s.edges[Base(s.order, k)..Base(s.order, k + 1)];
    EdgesLead(EdgeSlice(schema, k), node.children, s.indexes, segment, c);
  }

  /** A node's edges hold exactly its children's numbers. */
  lemma EdgesLead(slice: seq<Edge>, children: map<string, TreeNode>, indexes: map<TreeNode, nat>, segment: string, c: nat)
    requires Edges(slice, children, indexes)
    ensures segment in children ==> children[segment] in indexes
    ensures Edge(segment, c) in slice <==>
            segment in children && children[segment] in indexes && c == indexes[children[segment]]
  {
    hide SortedEdges;
    if segment in children {
      var e :| 0 <= e < |slice| && slice[e].segment == segment;
      assert EdgeOf(slice[e], children, indexes);
      assert slice[e] == Edge(segment, indexes[children[segment]]);
    }
    if Edge(segment, c) in slice {
      var e :| 0 <= e < |slice| && slice[e] == Edge(segment, c);
      assert EdgeOf(slice[e], children, indexes);
    }
  }

  /** Some root registered for the resource accepts. */
  ghost predicate TreesAccept(
    resources: map<string, seq<TreeNode>>, resource: string, segments: seq<string>, caller: Caller)
  {
    resource in resources && exists j :: 0 <= j < |resources[resource]| && TreePath(resources[resource][j], segments, caller)
  }

  lemma RootListAccepts(
    schema: Schema, resources: map<string, seq<TreeNode>>, names: seq<string>, s: State,
    resource: string, roots: seq<nat>, segments: seq<string>, caller: Caller)
    requires RootsGrounded(resources) && Compiled(schema, resources, names, s)
    requires Universe(TreeNodes(resources)) && |schema.roots| < WIDTH
    requires IsRootList(schema, resource, roots)
    ensures RootsAccept(schema, roots, segments, caller) <==> TreesAccept(resources, resource, segments, caller)
  {
    hide Universe, FilledFrom, Coherent, TreeNodes, FlatPath, TreePath, RootsGrounded, IsRootList;
    if resource in resources {
      KnownRoots(schema, resources, names, s, resource, roots);
      var mine := resources[resource];
      forall j | 0 <= j < |mine|
        ensures FlatPath(schema, roots[j], segments, caller) <==> TreePath(mine[j], segments, caller)
      {
        RootRegistered(resources, resource, j);
        FlatPathIsTreePath(schema, s, TreeNodes(resources), mine[j], segments, caller);
      }
    } else {
      UnknownRoots(schema, resources, names, s, resource, roots);
    }
  }

  lemma RootRegistered(resources: map<string, seq<TreeNode>>, resource: string, j: nat)
    requires RootsGrounded(resources) && resource in resources && j < |resources[resource]|
    ensures resources[resource][j] in TreeNodes(resources) && Grounded(resources[resource][j])
  {
    hide Grounded;
    assert resources[resource][j] in Subtree(resources[resource][j]);
  }

  /** A registered resource's list holds the indexes of its roots. */
  lemma KnownRoots(
    schema: Schema, resources: map<string, seq<TreeNode>>, names: seq<string>, s: State, resource: string, roots: seq<nat>)
    requires RootsGrounded(resources) && Compiled(schema, resources, names, s) && |schema.roots| < WIDTH
    requires IsRootList(schema, resource, roots) && resource in resources
    ensures |roots| == |resources[resource]|
    ensures forall j :: 0 <= j < |roots| ==>
      resources[resource][j] in s.indexes && roots[j] == s.indexes[resources[resource][j]]
  {
    hide Universe, FilledFrom, Coherent, TreeNodes, RootsGrounded, IsRootList, Ascending, Rooted, RootBase;
    assert resource in names;
    var i :| 0 <= i < |names| && names[i] == resource;
    RootedRange(schema, resources, names, s, i);
    ListedRoots(schema, resource, roots, i);
  }

  /** The list holds the range recorded for the resource. */
  lemma ListedRoots(schema: Schema, resource: string, roots: seq<nat>, i: nat)
    requires IsRootList(schema, resource, roots) && i < |schema.resources| && schema.resources[i].name == resource
    requires schema.resources[i].firstRoot + schema.resources[i].rootCount <= |schema.roots|
    ensures roots == schema.roots[schema.resources[i].firstRoot..schema.resources[i].firstRoot + schema.resources[i].rootCount]
  {
  }

  /** An unregistered resource has no roots. */
  lemma UnknownRoots(
    schema: Schema, resources: map<string, seq<TreeNode>>, names: seq<string>, s: State, resource: string, roots: seq<nat>)
    requires RootsGrounded(resources) && Compiled(schema, resources, names, s)
    requires IsRootList(schema, resource, roots) && resource !in resources
    ensures roots == []
  {
    hide Universe, FilledFrom, Coherent, TreeNodes, RootsGrounded;
    forall i | 0 <= i < |schema.resources| ensures schema.resources[i].name != resource {
      assert RootedAt(resources, names, i, schema.resources, schema.roots, s.indexes);
      assert names[i] in names;
    }
  }

  /** The recorded root range of resource `i`, without any wrap-around. */
  lemma RootedRange(schema: Schema, resources: map<string, seq<TreeNode>>, names: seq<string>, s: State, i: nat)
    requires RootsGrounded(resources) && Compiled(schema, resources, names, s) && |schema.roots| < WIDTH
    requires i < |names|
    ensures names[i] in resources && |schema.resources| == |names|
    ensures var first, mine := RootBase(resources, names, i), resources[names[i]];
            && first + |mine| == RootBase(resources, names, i + 1) <= |schema.roots|
            && schema.resources[i] == ResourceEntry(names[i], first, |mine|)
            && RootNumbers(schema.roots[first..first + |mine|], mine, s.indexes)
  {
    hide RootNumbers, FilledFrom, Coherent, Ascending, TreeNodes, RootsGrounded, RootBase;
    RootBaseSnoc(resources, names, i);
    assert names[i] in names;
    assert RootedAt(resources, names, i, schema.resources, schema.roots, s.indexes);
    RootBaseGrows(resources, names, i + 1, |names|);
  }

  lemma RootBaseSnoc(resources: map<string, seq<TreeNode>>, names: seq<string>, i: nat)
    requires i < |names| && forall k :: 0 <= k < |names| ==> names[k] in resources
    ensures RootBase(resources, names, i + 1) == RootBase(resources, names, i) + |resources[names[i]]|
  {
  }

  /** Root ranges follow one another and cover the root array, resources strictly sorted. */
  lemma CompiledRoots(schema: Schema, resources: map<string, seq<TreeNode>>, names: seq<string>, s: State)
    requires RootsGrounded(resources) && Compiled(schema, resources, names, s) && |schema.roots| < WIDTH
    ensures SortedEntries(schema.resources)
    ensures forall i :: 0 < i < |schema.resources| ==>
      schema.resources[i].firstRoot == schema.resources[i - 1].firstRoot + schema.resources[i - 1].rootCount
    ensures if schema.resources == [] then schema.roots == []
            else schema.resources[0].firstRoot == 0
                 && var last := schema.resources[|schema.resources| - 1]; last.firstRoot + last.rootCount == |schema.roots|
  {
    hide RootNumbers, FilledFrom, Coherent, StringLess, RootedAt;
    forall i | 0 <= i < |names|
      ensures schema.resources[i].name == names[i]
      ensures schema.resources[i].firstRoot == RootBase(resources, names, i)
      ensures schema.resources[i].firstRoot + schema.resources[i].rootCount == RootBase(resources, names, i + 1)
    {
      RootedRange(schema, resources, names, s, i);
    }
  }

  lemma CompiledSearchable(schema: Schema, resources: map<string, seq<TreeNode>>, names: seq<string>, s: State)
    requires RootsGrounded(resources) && Compiled(schema, resources, names, s)
    requires Universe(TreeNodes(resources)) && |schema.roots| < WIDTH
    ensures Searchable(schema)
  {
    hide Compiled, Universe, SortedEdges, SortedEntries;
    CompiledRoots(schema, resources, names, s);
    CompiledSharing(schema, resources, names, s);
  }

  // ------------------------------------------------- tree of shared nodes to shapes

  ghost function AllOccurrences(shapes: seq<ShapeSpec>): seq<Occurrence> {
    if shapes == [] then []
    else
      var n := |shapes| - 1;
      AllOccurrences(shapes[..n]) + Occurrences(Top(shapes[n]), UNRESTRICTED)
  }

  /** One more than the attributes declared anywhere in the shapes, per shape. */
  function TotalSize(shapes: seq<ShapeSpec>): nat {
    if shapes == [] then 0
    else
      var n := |shapes| - 1;
      TotalSize(shapes[..n]) + TreeSize(Top(shapes[n]))
  }

  lemma {:induction false} AllOccurrencesAccept(shapes: seq<ShapeSpec>, resource: string, segments: seq<string>, caller: Caller)
    ensures SomeAccepts(AllOccurrences(shapes), resource, segments, caller) <==>
            ShapesHavePath(shapes, resource, segments, caller)
  {
    hide SomeAccepts, HasResourcePath, Top, Occurrences;
    if shapes == [] {
      NobodyAccepts(resource, segments, caller);
    } else {
      var n := |shapes| - 1;
      AllOccurrencesAccept(shapes[..n], resource, segments, caller);
      OccurrencesAccept(Top(shapes[n]), UNRESTRICTED, resource, segments, caller);
      SomeAcceptsConcat(AllOccurrences(shapes[..n]), Occurrences(Top(shapes[n]), UNRESTRICTED), resource, segments, caller);
      assert shapes == shapes[..n] + [shapes[n]];
    }
  }

  lemma NobodyAccepts(resource: string, segments: seq<string>, caller: Caller)
    ensures !SomeAccepts([], resource, segments, caller)
  {
  }

  lemma {:induction false} OccurrencesCount(attributes: seq<AttributeSpec>, availability: CallerSet)
    ensures |Occurrences(attributes, availability)| + 1 <= TreeSize(attributes)
    decreases DepthAll(attributes), |attributes|
  {
    if attributes != [] {
      var n := |attributes| - 1;
      DepthOfMember(attributes, n);
      DepthOfPrefix(attributes, n);
      OccurrencesCount(attributes[..n], availability);
      TreeSizePositive(Nested(attributes[n]));
      OccurrencesCount(Nested(attributes[n]), Meet(availability, attributes[n].availability));
    }
  }

  /** The registry accepts what the occurrences behind it accept. */
  lemma RegistryAccepts(
    resources: map<string, seq<TreeNode>>, log: seq<Root>, os: seq<Occurrence>,
    resource: string, segments: seq<string>, caller: Caller)
    requires Registry(resources, log) && Matches(log, os)
    ensures TreesAccept(resources, resource, segments, caller) <==> SomeAccepts(os, resource, segments, caller)
  {
    hide TreePath, HasPath, Represents;
    var nodes := NodesNamed(log, resource);
    if TreesAccept(resources, resource, segments, caller) {
      var j :| 0 <= j < |nodes| && TreePath(nodes[j], segments, caller);
      assert Root(resource, nodes[j]) in log;
      var k :| 0 <= k < |log| && log[k] == Root(resource, nodes[j]);
      RepresentsPath(log[k].node, os[k].attributes, os[k].availability, segments, caller);
      assert Accepts(os[k], resource, segments, caller);
    }
    if SomeAccepts(os, resource, segments, caller) {
      var k :| 0 <= k < |os| && Accepts(os[k], resource, segments, caller);
      RepresentsPath(log[k].node, os[k].attributes, os[k].availability, segments, caller);
      assert log[k].node in nodes;
      var j :| 0 <= j < |nodes| && nodes[j] == log[k].node;
    }
  }

  // ------------------------------------------------------ number of roots

  /** How many registrations carry one of the names. */
  ghost function Among(log: seq<Root>, names: set<string>): nat {
    if log == [] then 0
    else Among(log[..|log| - 1], names) + if log[|log| - 1].name in names then 1 else 0
  }

  lemma {:induction false} AmongAdd(log: seq<Root>, names: set<string>, name: string)
    requires name !in names
    ensures Among(log, names + {name}) == Among(log, names) + |NodesNamed(log, name)|
  {
    if log != [] { AmongAdd(log[..|log| - 1], names, name); }
  }

  lemma {:induction false} AmongBounded(log: seq<Root>, names: set<string>)
    ensures Among(log, names) <= |log|
  {
    if log != [] { AmongBounded(log[..|log| - 1], names); }
  }

  ghost function Firsts(names: seq<string>, k: nat): (r: set<string>)
    requires k <= |names|
    ensures forall x :: x in r <==> x in names[..k]
  {
    if k == 0 then {} else Firsts(names, k - 1) + {names[k - 1]}
  }

  lemma FirstsAreNew(names: seq<string>, k: nat)
    requires Ascending(names) && k < |names|
    ensures names[k] !in Firsts(names, k)
  {
    if names[k] in names[..k] {
      var i :| 0 <= i < k && names[..k][i] == names[k];
      StringLessIrreflexive(names[i]);
    }
  }

  lemma {:induction false} RootBaseCounts(resources: map<string, seq<TreeNode>>, log: seq<Root>, names: seq<string>, k: nat)
    requires Registry(resources, log) && Ascending(names) && k <= |names|
    requires forall i :: 0 <= i < |names| ==> names[i] in resources
    ensures RootBase(resources, names, k) == Among(log, Firsts(names, k)) <= |log|
  {
    hide Ascending, Among, NodesNamed;
    if k == 0 {
      AmongNone(log);
      AmongBounded(log, {});
    } else {
      var name := names[k - 1];
      RootBaseCounts(resources, log, names, k - 1);
      FirstsAreNew(names, k - 1);
      AmongAdd(log, Firsts(names, k - 1), name);
      assert resources[name] == NodesNamed(log, name);
      assert Firsts(names, k) == Firsts(names, k - 1) + {name};
      AmongBounded(log, Firsts(names, k));
    }
  }

  lemma {:induction false} AmongNone(log: seq<Root>)
    ensures Among(log, {}) == 0
  {
    if log != [] { AmongNone(log[..|log| - 1]); }
  }

  // --------------------------------------------------------- the pipeline

  /** The index answers as the shapes do: a resource's roots accept a path for
      a caller exactly when some object attribute of that name in the shapes
      has the path, with every availability on the way allowing the caller. */
  ghost predicate IndexFor(schema: Schema, shapes: seq<ShapeSpec>) {
    && Searchable(schema)
    && forall resource, roots, segments, caller ::
         IsRootList(schema, resource, roots) ==>
           (RootsAccept(schema, roots, segments, caller) <==> ShapesHavePath(shapes, resource, segments, caller))
  }

  lemma TreeNodesBuilt(resources: map<string, seq<TreeNode>>, log: seq<Root>, built: set<TreeNode>)
    requires Sound(resources, log, built)
    ensures RootsGrounded(resources) && TreeNodes(resources) <= built
    ensures ClosedUnderChildren(TreeNodes(resources))
  {
    forall name, k | name in resources && 0 <= k < |resources[name]|
      ensures Grounded(resources[name][k]) && Subtree(resources[name][k]) <= built
    {
      assert Root(name, resources[name][k]) in log;
      ClosedHoldsSubtree(built, resources[name][k]);
    }
    TreeNodesClosed(resources);
  }

  lemma PipelineCorrect(
    shapes: seq<ShapeSpec>, log: seq<Root>, resources: map<string, seq<TreeNode>>,
    schema: Schema, names: seq<string>, s: State)
    requires Registry(resources, log) && Matches(log, AllOccurrences(shapes)) && |log| < WIDTH
    requires RootsGrounded(resources) && Compiled(schema, resources, names, s) && Universe(TreeNodes(resources))
    ensures |schema.roots| < WIDTH && IndexFor(schema, shapes)
  {
    hide Universe, RootsAccept, ShapesHavePath, TreesAccept, Searchable, Matches, IsRootList, FilledFrom;
    assert forall i :: 0 <= i < |names| ==> names[i] in names;
    RootBaseCounts(resources, log, names, |names|);
    CompiledSearchable(schema, resources, names, s);
    forall resource, roots, segments, caller | IsRootList(schema, resource, roots)
      ensures RootsAccept(schema, roots, segments, caller) <==> ShapesHavePath(shapes, resource, segments, caller)
    {
      RootListAccepts(schema, resources, names, s, resource, roots, segments, caller);
      RegistryAccepts(resources, log, AllOccurrences(shapes), resource, segments, caller);
      AllOccurrencesAccept(shapes, resource, segments, caller);
    }
  }

  lemma AllOccurrencesSnoc(shapes: seq<ShapeSpec>, i: nat)
    requires i < |shapes|
    ensures AllOccurrences(shapes[..i + 1]) == AllOccurrences(shapes[..i]) + Occurrences(Top(shapes[i]), UNRESTRICTED)
    ensures TotalSize(shapes[..i + 1]) == TotalSize(shapes[..i]) + TreeSize(Top(shapes[i]))
  {
    assert shapes[..i + 1][..i] == shapes[..i];
  }

  lemma {:induction false} AllOccurrencesCount(shapes: seq<ShapeSpec>)
    ensures |AllOccurrences(shapes)| <= TotalSize(shapes)
  {
    if shapes != [] {
      var n := |shapes| - 1;
      AllOccurrencesCount(shapes[..n]);
      OccurrencesCount(Top(shapes[n]), UNRESTRICTED);
    }
  }

  /** Compiles response shapes into the flat index. The shapes must declare
      fewer attributes than 32-bit indexes can number. The ghost results expose
      the registered trees for `CompiledSharing` and `CompiledRoots`. */
  method DeriveResponseProjectionSchema(shapes: seq<ShapeSpec>)
    returns (schema: Schema, ghost trees: map<string, seq<TreeNode>>, ghost names: seq<string>, ghost state: State)
    requires TotalSize(shapes) < WIDTH
    ensures IndexFor(schema, shapes)
    ensures RootsGrounded(trees) && Universe(TreeNodes(trees)) && Compiled(schema, trees, names, state)
    ensures |schema.roots| < WIDTH
  {
    hide IndexFor, Compiled, Occurrences, Sound, Matches;
    var builder := new TreeBuilder();
    MatchesNone();
    for i := 0 to |shapes|
      invariant Sound(builder.resources, builder.log, builder.built)
      invariant Matches(builder.log, AllOccurrences(shapes[..i]))
      invariant |builder.built| <= TotalSize(shapes[..i]) && EdgeTotal(builder.built) <= TotalSize(shapes[..i])
    {
      ghost var before := builder.log;
      builder.IndexResources(shapes[i]);
      AllOccurrencesSnoc(shapes, i);
      MatchesAppend([], before, builder.log, AllOccurrences(shapes[..i]), Occurrences(Top(shapes[i]), UNRESTRICTED));
      assert before[0..] == before && builder.log[0..] == builder.log;
    }
    assert shapes[..|shapes|] == shapes;
    AllOccurrencesCount(shapes);
    MatchesLength(builder.log, AllOccurrences(shapes));
    SoundRegistry(builder.resources, builder.log, builder.built);
    TreeNodesBuilt(builder.resources, builder.log, builder.built);
    SubsetTotals(TreeNodes(builder.resources), builder.built);
    trees := builder.resources;
    schema, names, state := CompileResources(builder.resources);
    PipelineCorrect(shapes, builder.log, builder.resources, schema, names, state);
  }

  lemma MatchesLength(log: seq<Root>, os: seq<Occurrence>)
    requires Matches(log, os)
    ensures |log| == |os|
  {
  }

  lemma SoundRegistry(resources: map<string, seq<TreeNode>>, log: seq<Root>, built: set<TreeNode>)
    requires Sound(resources, log, built)
    ensures Registry(resources, log)
  {
  }

  // ----------------------------------------------------------- validation

  datatype ProjectionError =
    | UnknownResource(resource: string)
    | UnknownProperty(resource: string, mode: Mode, index: nat, path: string)

  ghost predicate ResourceVisible(shapes: seq<ShapeSpec>, resource: string, caller: Caller) {
    ShapesHavePath(shapes, resource, [], caller)
  }

  ghost predicate PathVisible(shapes: seq<ShapeSpec>, resource: string, path: string, caller: Caller) {
    ProperPath(path) && ShapesHavePath(shapes, resource, Segments(path), caller)
  }

  ghost predicate ResourceAllowed(shapes: seq<ShapeSpec>, projection: ResponseProjection, resource: string, caller: Caller) {
    && ResourceVisible(shapes, resource, caller)
    && forall k :: 0 <= k < |Selection(projection, resource).paths| ==>
         PathVisible(shapes, resource, Selection(projection, resource).paths[k], caller)
  }

  /** `err` names the first path of `resource` that the caller may not select. */
  ghost predicate ResourceError(
    shapes: seq<ShapeSpec>, projection: ResponseProjection, resource: string, caller: Caller, err: ProjectionError)
  {
    var selection := Selection(projection, resource);
    match err
    case UnknownResource(r) => r == resource && !ResourceVisible(shapes, resource, caller)
    case UnknownProperty(r, mode, index, path) =>
      && r == resource && mode == selection.mode && ResourceVisible(shapes, resource, caller)
      && index < |selection.paths| && path == selection.paths[index]
      && !PathVisible(shapes, resource, path, caller)
      && forall k :: 0 <= k < index ==> PathVisible(shapes, resource, selection.paths[k], caller)
  }

  /** No error when every selection is allowed; otherwise the error of the
      lexically first resource whose selection is not. */
  ghost predicate Verdict(
    shapes: seq<ShapeSpec>, projection: ResponseProjection, caller: Caller, err: Option<ProjectionError>)
  {
    match err
    case None => forall r :: r in projection.resources ==> ResourceAllowed(shapes, projection, r, caller)
    case Some(e) =>
      && e.resource in projection.resources && ResourceError(shapes, projection, e.resource, caller, e)
      && forall r :: r in projection.resources && StringLess(r, e.resource) ==>
           ResourceAllowed(shapes, projection, r, caller)
  }

  /** `responseProjectionValidator`. */
  class Validator {
    const schema: Schema
    const projection: ResponseProjection
    const caller: Caller
    var err: Option<ProjectionError>

    constructor (schema: Schema, projection: ResponseProjection, caller: Caller)
      ensures this.schema == schema && this.projection == projection && this.caller == caller && err == None
    {
      this.schema, this.projection, this.caller, err := schema, projection, caller, None;
    }

    method ValidateResource(resource: string, ghost shapes: seq<ShapeSpec>)
      requires IndexFor(schema, shapes) && err == None
      modifies this`err
      ensures err == None ==> ResourceAllowed(shapes, projection, resource, caller)
      ensures err.Some? ==> ResourceError(shapes, projection, resource, caller, err.value)
    {
      hide RootsAccept, ShapesHavePath, IsRootList, Searchable, ProperPath, Segments, TrimSpace;
      var roots := ResourceRoots(schema, resource);
      var visible := HasVisibleRoot(schema, roots, caller);
      if !visible {
        err := Some(UnknownResource(resource));
        return;
      }
      var selection := Selection(projection, resource);
      for k := 0 to |selection.paths|
        invariant err == None
        invariant forall j :: 0 <= j < k ==> PathVisible(shapes, resource, selection.paths[j], caller)
      {
        var available := PathAvailable(schema, roots, selection.paths[k], caller);
        if !available {
          err := Some(UnknownProperty(resource, selection.mode, k, selection.paths[k]));
          return;
        }
      }
    }

    method ValidateResources(ghost shapes: seq<ShapeSpec>)
      requires IndexFor(schema, shapes) && err == None
      modifies this`err
      ensures Verdict(shapes, projection, caller, err)
    {
      hide IndexFor, ResourceAllowed, ResourceError;
      if !projection.Defined() {
        assert projection.resources == map[];
        return;
      }
      var resources := SortedNames(projection.resources.Keys);
      for i := 0 to |resources|
        invariant err == None
        invariant forall j :: 0 <= j < i ==> ResourceAllowed(shapes, projection, resources[j], caller)
      {
        ValidateResource(resources[i], shapes);
        if err.Some? {
          ErrorNames(shapes, projection, resources[i], caller, err.value);
          assert resources[i] in resources;
          forall r | r in projection.resources && StringLess(r, resources[i])
            ensures ResourceAllowed(shapes, projection, r, caller)
          {
            SmallerComesFirst(resources, i, r);
          }
          return;
        }
      }
    }
  }

  lemma ErrorNames(shapes: seq<ShapeSpec>, projection: ResponseProjection, resource: string, caller: Caller, err: ProjectionError)
    requires ResourceError(shapes, projection, resource, caller, err)
    ensures err.resource == resource
  {
  }

  lemma SmallerComesFirst(names: seq<string>, i: nat, name: string)
    requires Ascending(names) && i < |names| && name in names && StringLess(name, names[i])
    ensures name in names[..i]
  {
    var j :| 0 <= j < |names| && names[j] == name;
    StringLessIrreflexive(name);
    if i < j {
      StringLessTransitive(name, names[i], names[j]);
      assert false;
    }
    assert names[..i][j] == name;
  }

  /** Every path in the projection is one the definitions let through. */
  ghost predicate ValidSelections(projection: ResponseProjection) {
    forall r, k :: r in projection.resources && 0 <= k < |projection.resources[r].paths| ==>
      ValidPath(projection.resources[r].paths[k])
  }

  /** The shapes declare the resource and every selected path of it for the caller. */
  ghost predicate Declared(shapes: seq<ShapeSpec>, projection: ResponseProjection, resource: string, caller: Caller) {
    && ShapesHavePath(shapes, resource, [], caller)
    && forall k :: 0 <= k < |Selection(projection, resource).paths| ==>
         ShapesHavePath(shapes, resource, Segments(Selection(projection, resource).paths[k]), caller)
  }

  /** For a projection made by the definitions, a path is refused only because
      the shapes do not declare it for the caller. */
  lemma DefinedVerdict(
    shapes: seq<ShapeSpec>, projection: ResponseProjection, caller: Caller, err: Option<ProjectionError>)
    requires Verdict(shapes, projection, caller, err) && ValidSelections(projection)
    ensures err.None? <==> forall r :: r in projection.resources ==> Declared(shapes, projection, r, caller)
    ensures err.Some? && err.value.UnknownProperty? ==>
      !ShapesHavePath(shapes, err.value.resource, Segments(err.value.path), caller)
  {
    hide ShapesHavePath, Segments, TrimSpace, ValidPath, ProperPath;
    forall r | r in projection.resources
      ensures ResourceAllowed(shapes, projection, r, caller) <==> Declared(shapes, projection, r, caller)
      ensures forall k :: 0 <= k < |Selection(projection, r).paths| ==> ProperPath(Selection(projection, r).paths[k])
    {
      forall k | 0 <= k < |Selection(projection, r).paths| ensures ProperPath(Selection(projection, r).paths[k]) {
        ValidIsProper(Selection(projection, r).paths[k]);
      }
    }
  }

  /** Checks a request's projection against the compiled shapes. A property the
      caller may not see is treated exactly like one that does not exist. */
  method Validate(schema: Schema, projection: ResponseProjection, caller: Caller, ghost shapes: seq<ShapeSpec>)
    returns (err: Option<ProjectionError>)
    requires IndexFor(schema, shapes)
    ensures Verdict(shapes, projection, caller, err)
    ensures ValidSelections(projection) ==>
      (err.None? <==> forall r :: r in projection.resources ==> Declared(shapes, projection, r, caller))
    ensures ValidSelections(projection) && err.Some? && err.value.UnknownProperty? ==>
      !ShapesHavePath(shapes, err.value.resource, Segments(err.value.path), caller)
  {
    hide Verdict, ValidSelections, Declared, ShapesHavePath;
    var validator := new Validator(schema, projection, caller);
    validator.ValidateResources(shapes);
    err := validator.err;
    if ValidSelections(projection) { DefinedVerdict(shapes, projection, caller, err); }
  }
}
