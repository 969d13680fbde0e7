/** From response shapes to a tree of shared nodes (request/projection_shape.go):
    every object attribute becomes a tree node that is also registered under
    its name as a resource root, so subtrees are shared. */
module ProjectionTree {
  import opened Wrappers
  import opened CallerSets
  import opened ResponseShapes

  /** `responseProjectionTreeNode`. A node never changes once its children are
      known. `height` bounds the tree below it. */
  class TreeNode {
    const availability: CallerSet
    const children: map<string, TreeNode>
    ghost const height: nat

    constructor (availability: CallerSet, children: map<string, TreeNode>, ghost height: nat)
      ensures this.availability == availability && this.children == children && this.height == height
    {
      this.availability, this.children, this.height := availability, children, height;
    }
  }

  /** The tree below a node is finite. */
  ghost predicate Grounded(node: TreeNode)
    decreases node.height
  {
    forall name :: name in node.children ==>
      node.children[name].height < node.height && Grounded(node.children[name])
  }

  /** All nodes of the tree at `node`; a shared node counts once. */
  ghost function Subtree(node: TreeNode): (r: set<TreeNode>)
    requires Grounded(node)
    ensures node in r
    decreases node.height
  {
    {node} + set name, n | name in node.children && n in Subtree(node.children[name]) :: n
  }

  ghost predicate ClosedUnderChildren(nodes: set<TreeNode>) {
    forall n, name :: n in nodes && name in n.children ==> n.children[name] in nodes
  }

  lemma {:induction false} ClosedHoldsSubtree(nodes: set<TreeNode>, node: TreeNode)
    requires Grounded(node) && node in nodes && ClosedUnderChildren(nodes)
    ensures Subtree(node) <= nodes
    decreases node.height
  {
    forall name | name in node.children ensures Subtree(node.children[name]) <= nodes {
      ClosedHoldsSubtree(nodes, node.children[name]);
    }
  }

  lemma {:induction false} SubtreeClosed(node: TreeNode)
    requires Grounded(node)
    ensures ClosedUnderChildren(Subtree(node))
    ensures forall n :: n in Subtree(node) ==> Grounded(n)
    decreases node.height
  {
    forall name | name in node.children
      ensures ClosedUnderChildren(Subtree(node.children[name]))
      ensures forall n :: n in Subtree(node.children[name]) ==> Grounded(n)
    {
      SubtreeClosed(node.children[name]);
    }
  }

  /** The number of child links among `nodes`. */
  ghost function EdgeTotal(nodes: set<TreeNode>): nat
    decreases |nodes|
  {
    if nodes == {} then 0
    else
      var n :| n in nodes;
      |n.children| + EdgeTotal(nodes - {n})
  }

  lemma {:induction false} EdgeTotalRemove(nodes: set<TreeNode>, x: TreeNode)
    requires x in nodes
    ensures EdgeTotal(nodes) == |x.children| + EdgeTotal(nodes - {x})
    decreases |nodes|
  {
    var n :| n in nodes && EdgeTotal(nodes) == |n.children| + EdgeTotal(nodes - {n});
    if n != x {
      EdgeTotalRemove(nodes - {n}, x);
      EdgeTotalRemove(nodes - {x}, n);
      assert nodes - {n} - {x} == nodes - {x} - {n};
    }
  }

  lemma EdgeTotalAdd(nodes: set<TreeNode>, x: TreeNode)
    requires x !in nodes
    ensures EdgeTotal(nodes + {x}) == EdgeTotal(nodes) + |x.children|
  {
    EdgeTotalRemove(nodes + {x}, x);
    assert nodes + {x} - {x} == nodes;
  }

  lemma {:induction false} SubsetTotals(a: set<TreeNode>, b: set<TreeNode>)
    requires a <= b
    ensures |a| <= |b| && EdgeTotal(a) <= EdgeTotal(b)
    decreases |a|
  {
    if a != {} {
      var x :| x in a;
      EdgeTotalRemove(a, x);
      EdgeTotalRemove(b, x);
      SubsetTotals(a - {x}, b - {x});
    }
  }

  /** `segments` leads down from the node, visible all the way. */
  ghost predicate TreePath(node: TreeNode, segments: seq<string>, caller: Caller)
    decreases |segments|
  {
    Allows(node.availability, caller) &&
    (segments == [] ||
     (segments[0] in node.children && TreePath(node.children[segments[0]], segments[1..], caller)))
  }

  /** The node stands for an object with these attributes, reached with this availability. */
  ghost predicate Represents(node: TreeNode, attributes: seq<AttributeSpec>, availability: CallerSet)
    decreases DepthAll(attributes), 1
  {
    node.availability == availability && ChildrenRepresent(node.children, attributes, availability)
  }

  ghost predicate ChildrenRepresent(
    children: map<string, TreeNode>, attributes: seq<AttributeSpec>, availability: CallerSet)
    decreases DepthAll(attributes), 0
  {
    && (forall name :: name in children <==> LastNamed(attributes, name).Some?)
    && (forall name :: name in children ==>
          var a := LastNamed(attributes, name).value;
          Represents(children[name], Nested(a), Meet(availability, a.availability)))
  }

  lemma LeafRepresents(leaf: TreeNode, availability: CallerSet)
    requires leaf.availability == availability && leaf.children == map[]
    ensures Represents(leaf, [], availability)
  {
  }

  /** A later attribute replaces an earlier child of the same name. */
  lemma ChildrenRepresentSnoc(
    children: map<string, TreeNode>, attributes: seq<AttributeSpec>, i: nat, availability: CallerSet, child: TreeNode)
    requires i < |attributes| && ChildrenRepresent(children, attributes[..i], availability)
    requires Represents(child, Nested(attributes[i]), Meet(availability, attributes[i].availability))
    ensures ChildrenRepresent(children[attributes[i].name := child], attributes[..i + 1], availability)
  {
    hide Nested, Meet, Represents, Depth;
    var more := attributes[..i + 1];
    assert more[..i] == attributes[..i] && more[i] == attributes[i];
    var after := children[attributes[i].name := child];
    forall name
      ensures LastNamed(more, name) ==
              if name == attributes[i].name then Some(attributes[i]) else LastNamed(attributes[..i], name)
      ensures name in after <==> LastNamed(more, name).Some?
    {
    }
    forall name | name in after
      ensures var a := LastNamed(more, name).value;
              Represents(after[name], Nested(a), Meet(availability, a.availability))
    {
    }
  }

  lemma {:induction false} RepresentsPath(
    node: TreeNode, attributes: seq<AttributeSpec>, availability: CallerSet, segments: seq<string>, caller: Caller)
    requires Represents(node, attributes, availability)
    ensures TreePath(node, segments, caller) <==> Allows(availability, caller) && HasPath(attributes, segments, caller)
    decreases |segments|
  {
    if segments != [] && segments[0] in node.children {
      var a := LastNamed(attributes, segments[0]).value;
      MeetAllows(availability, a.availability, caller);
      RepresentsPath(node.children[segments[0]], Nested(a), Meet(availability, a.availability), segments[1..], caller);
    }
  }

  // --------------------------------------------------------- registration

  /** An object attribute, with the availability inherited on the way to it. */
  datatype Occurrence = Occurrence(name: string, attributes: seq<AttributeSpec>, availability: CallerSet)

  /** Every object attribute at or below `attributes`, in the order the builder registers them. */
  ghost function Occurrences(attributes: seq<AttributeSpec>, availability: CallerSet): seq<Occurrence>
    decreases DepthAll(attributes), |attributes|
  {
    if attributes == [] then []
    else
      var n := |attributes| - 1;
      DepthOfMember(attributes, n);
      DepthOfPrefix(attributes, n);
      Occurrences(attributes[..n], availability) + OccurrencesOf(attributes[n], availability)
  }

  ghost function OccurrencesOf(a: AttributeSpec, availability: CallerSet): seq<Occurrence>
    decreases Depth(a.shape), 0
  {
    var inherited := Meet(availability, a.availability);
    if IsObject(a) then Occurrences(Nested(a), inherited) + [Occurrence(a.name, Nested(a), inherited)] else []
  }

  lemma DepthOfPrefix(attributes: seq<AttributeSpec>, n: nat)
    requires n == |attributes| - 1
    ensures DepthAll(attributes[..n]) <= DepthAll(attributes)
  {
  }

  ghost predicate Accepts(o: Occurrence, resource: string, segments: seq<string>, caller: Caller) {
    o.name == resource && Allows(o.availability, caller) && HasPath(o.attributes, segments, caller)
  }

  ghost predicate SomeAccepts(os: seq<Occurrence>, resource: string, segments: seq<string>, caller: Caller) {
    exists k :: 0 <= k < |os| && Accepts(os[k], resource, segments, caller)
  }

  lemma SomeAcceptsConcat(a: seq<Occurrence>, b: seq<Occurrence>, resource: string, segments: seq<string>, caller: Caller)
    ensures SomeAccepts(a + b, resource, segments, caller) <==>
            SomeAccepts(a, resource, segments, caller) || SomeAccepts(b, resource, segments, caller)
  {
    if k :| 0 <= k < |a| && Accepts(a[k], resource, segments, caller) { assert (a + b)[k] == a[k]; }
    if k :| 0 <= k < |b| && Accepts(b[k], resource, segments, caller) { assert (a + b)[|a| + k] == b[k]; }
  }

  /** Registering occurrences loses and invents nothing. */
  lemma {:induction false} OccurrencesAccept(
    attributes: seq<AttributeSpec>, availability: CallerSet, resource: string, segments: seq<string>, caller: Caller)
    ensures SomeAccepts(Occurrences(attributes, availability), resource, segments, caller) <==>
            Allows(availability, caller) && HasResourcePath(attributes, resource, segments, caller)
    decreases DepthAll(attributes), |attributes|
  {
    if attributes != [] {
      var n := |attributes| - 1;
      var head := attributes[..n];
      DepthOfMember(attributes, n);
      DepthOfPrefix(attributes, n);
      OccurrencesAccept(head, availability, resource, segments, caller);
      OccurrencesOfAccept(attributes[n], availability, resource, segments, caller);
      SomeAcceptsConcat(Occurrences(head, availability), OccurrencesOf(attributes[n], availability),
                        resource, segments, caller);
      HasResourcePathSnoc(attributes, resource, segments, caller);
    }
  }

  lemma HasResourcePathSnoc(attributes: seq<AttributeSpec>, resource: string, segments: seq<string>, caller: Caller)
    requires attributes != []
    ensures var n := |attributes| - 1;
            HasResourcePath(attributes, resource, segments, caller) <==>
            HasResourcePath(attributes[..n], resource, segments, caller)
            || LeadsToResourcePath(attributes[n], resource, segments, caller)
  {
    var n := |attributes| - 1;
    if i :| 0 <= i < |attributes| && LeadsToResourcePath(attributes[i], resource, segments, caller) {
      assert i == n || attributes[..n][i] == attributes[i];
    }
    if i :| 0 <= i < n && LeadsToResourcePath(attributes[..n][i], resource, segments, caller) {
      assert attributes[..n][i] == attributes[i];
    }
  }

  lemma {:induction false} OccurrencesOfAccept(
    a: AttributeSpec, availability: CallerSet, resource: string, segments: seq<string>, caller: Caller)
    ensures SomeAccepts(OccurrencesOf(a, availability), resource, segments, caller) <==>
            Allows(availability, caller) && LeadsToResourcePath(a, resource, segments, caller)
    decreases Depth(a.shape), 0
  {
    var inherited := Meet(availability, a.availability);
    MeetAllows(availability, a.availability, caller);
    if IsObject(a) {
      var self := Occurrence(a.name, Nested(a), inherited);
      OccurrencesAccept(Nested(a), inherited, resource, segments, caller);
      SomeAcceptsConcat(Occurrences(Nested(a), inherited), [self], resource, segments, caller);
      assert SomeAccepts([self], resource, segments, caller) <==> Accepts([self][0], resource, segments, caller);
    }
  }

  // -------------------------------------------------------------- builder

  datatype Root = Root(name: string, node: TreeNode)

  function NodesNamed(log: seq<Root>, name: string): (r: seq<TreeNode>)
    ensures forall k :: 0 <= k < |r| ==> Root(name, r[k]) in log
    ensures forall k :: 0 <= k < |log| && log[k].name == name ==> log[k].node in r
  {
    if log == [] then []
    else
      var last := |log| - 1;
      var rest := NodesNamed(log[..last], name);
      assert log == log[..last] + [log[last]];
      if log[last].name == name then rest + [log[last].node] else rest
  }

  /** Registered nodes stand for the occurrences, one for one. */
  ghost predicate Matches(roots: seq<Root>, os: seq<Occurrence>) {
    && |roots| == |os|
    && forall k :: 0 <= k < |os| ==>
         roots[k].name == os[k].name && Represents(roots[k].node, os[k].attributes, os[k].availability)
  }

  /** An upper bound on the nodes built for an object with these attributes. */
  function TreeSize(attributes: seq<AttributeSpec>): nat
    decreases DepthAll(attributes), |attributes|
  {
    if attributes == [] then 1
    else
      var n := |attributes| - 1;
      DepthOfMember(attributes, n);
      DepthOfPrefix(attributes, n);
      TreeSize(attributes[..n]) + TreeSize(Nested(attributes[n]))
  }

  /** `log` keeps the registrations in order and `built` every node allocated. */
  ghost predicate Sound(resources: map<string, seq<TreeNode>>, log: seq<Root>, built: set<TreeNode>) {
    && Registry(resources, log)
    && ClosedUnderChildren(built)
    && (forall k :: 0 <= k < |log| ==> log[k].node in built && Grounded(log[k].node))
  }

  /** At most `size` nodes were added, with fewer links than nodes. */
  ghost predicate Grown(before: set<TreeNode>, after: set<TreeNode>, size: nat) {
    |after| <= |before| + size && EdgeTotal(after) + 1 <= EdgeTotal(before) + size
  }

  ghost predicate Hanging(children: map<string, TreeNode>, built: set<TreeNode>, height: nat) {
    forall name :: name in children ==>
      children[name] in built && Grounded(children[name]) && children[name].height < height
  }

  lemma MatchesNone()
    ensures Matches([], [])
  {
  }

  lemma MatchesStart(log: seq<Root>, availability: CallerSet)
    ensures Matches(log[|log|..], Occurrences([], availability))
  {
  }

  lemma MatchesOne(root: Root, o: Occurrence)
    requires root.name == o.name && Represents(root.node, o.attributes, o.availability)
    ensures Matches([root], [o])
  {
    hide Represents;
  }

  lemma HangingNone(built: set<TreeNode>)
    ensures Hanging(map[], built, 0)
  {
  }

  lemma HangingMore(
    children: map<string, TreeNode>, before: set<TreeNode>, after: set<TreeNode>, height: nat, name: string, child: TreeNode)
    requires Hanging(children, before, height) && before <= after
    requires child in after && Grounded(child)
    ensures Hanging(children[name := child], after, Max(height, child.height + 1))
  {
  }

  /** `responseProjectionTreeBuilder`. */
  class TreeBuilder {
    var resources: map<string, seq<TreeNode>>
    ghost var log: seq<Root>
    ghost var built: set<TreeNode>

    constructor ()
      ensures Sound(resources, log, built) && log == [] && built == {}
    {
      resources, log, built := map[], [], {};
    }

    method Register(name: string, node: TreeNode)
      requires Sound(resources, log, built) && node in built && Grounded(node)
      modifies this`resources, this`log
      ensures Sound(resources, log, built) && log == old(log) + [Root(name, node)]
    {
      RegistryAppend(resources, log, name, node);
      resources := resources[name := (if name in resources then resources[name] else []) + [node]];
      log := log + [Root(name, node)];
    }

    /** One attribute: its node, its subtree, and, for an object, its roots. */
    method BuildChild(attribute: AttributeSpec, availability: CallerSet) returns (child: TreeNode)
      requires Sound(resources, log, built)
      modifies this
      ensures Sound(resources, log, built) && child in built && Grounded(child)
      ensures Represents(child, Nested(attribute), Meet(availability, attribute.availability))
      ensures old(log) <= log && Matches(log[|old(log)|..], OccurrencesOf(attribute, availability))
      ensures old(built) <= built && Grown(old(built), built, TreeSize(Nested(attribute)))
      decreases Depth(attribute.shape), 0
    {
      hide Represents, Sound, Hanging, Meet, Grounded, EdgeTotal, Occurrences, LastNamed, TreeSize, DepthAll, Matches, Unwrapped;
      var inherited := Intersect(availability, attribute.availability);
      var childShape := ProjectionObjectShape(attribute.shape);
      if childShape.typ.ObjectType? {
        ghost var before := log;
        child := BuildNode(childShape.attributes, inherited);
        ghost var mid := log;
        Register(attribute.name, child);
        assert log[|mid|..] == [Root(attribute.name, child)];
        MatchesOne(Root(attribute.name, child), Occurrence(attribute.name, Nested(attribute), inherited));
        MatchesAppend(before, mid, log, Occurrences(Nested(attribute), inherited),
                      [Occurrence(attribute.name, Nested(attribute), inherited)]);
      } else {
        HangingNone(built);
        child := NewNode(inherited, map[], 0);
        TreeSizePositive(Nested(attribute));
        LeafRepresents(child, inherited);
        assert log[|old(log)|..] == [];
        MatchesNone();
      }
    }

    /** A node over children already built. */
    method NewNode(availability: CallerSet, children: map<string, TreeNode>, ghost height: nat) returns (node: TreeNode)
      requires Sound(resources, log, built) && Hanging(children, built, height)
      modifies this`built
      ensures Sound(resources, log, built) && node in built && Grounded(node)
      ensures node.availability == availability && node.children == children
      ensures old(built) <= built && |built| <= |old(built)| + 1
      ensures EdgeTotal(built) == EdgeTotal(old(built)) + |children|
    {
      node := new TreeNode(availability, children, height);
      EdgeTotalAdd(built, node);
      built := built + {node};
    }

    /** Builds the node of an object, its whole subtree, and the roots inside. */
    method BuildNode(attributes: seq<AttributeSpec>, availability: CallerSet) returns (node: TreeNode)
      requires Sound(resources, log, built)
      modifies this
      ensures Sound(resources, log, built) && node in built && Grounded(node)
      ensures Represents(node, attributes, availability)
      ensures old(log) <= log && Matches(log[|old(log)|..], Occurrences(attributes, availability))
      ensures old(built) <= built && Grown(old(built), built, TreeSize(attributes))
      decreases DepthAll(attributes), 1
    {
      hide Sound, Hanging, Meet, Nested, Depth, EdgeTotal, Grounded, Matches, Occurrences, OccurrencesOf, LastNamed;
      var children: map<string, TreeNode> := map[];
      ghost var height := 0;
      HangingNone(built);
      ghost var before, was := log, built;
      MatchesStart(log, availability);
      assert attributes[..0] == [];
      for i := 0 to |attributes|
        invariant Sound(resources, log, built) && Hanging(children, built, height)
        invariant ChildrenRepresent(children, attributes[..i], availability) && |children| <= i
        invariant before <= log && Matches(log[|before|..], Occurrences(attributes[..i], availability))
        invariant was <= built && |built| + 1 <= |was| + TreeSize(attributes[..i])
        invariant EdgeTotal(built) + i + 1 <= EdgeTotal(was) + TreeSize(attributes[..i])
      {
        DepthOfMember(attributes, i);
        OccurrencesSnoc(attributes, i, availability);
        ghost var mid, was' := log, built;
        var child := BuildChild(attributes[i], availability);
        MatchesAppend(before, mid, log, Occurrences(attributes[..i], availability),
                      OccurrencesOf(attributes[i], availability));
        ChildrenRepresentSnoc(children, attributes, i, availability, child);
        HangingMore(children, was', built, height, attributes[i].name, child);
        height := Max(height, child.height + 1);
        children := children[attributes[i].name := child];
      }
      assert attributes[..|attributes|] == attributes;
      node := NewNode(availability, children, height);
    }

    /** One attribute of a response body; only objects are resources. */
    method IndexAttribute(attribute: AttributeSpec, availability: CallerSet)
      requires Sound(resources, log, built)
      modifies this
      ensures Sound(resources, log, built)
      ensures old(log) <= log && Matches(log[|old(log)|..], OccurrencesOf(attribute, availability))
      ensures old(built) <= built && Grown(old(built), built, TreeSize(Nested(attribute)))
    {
      hide Represents, Sound, Meet, Grounded, EdgeTotal;
      var inherited := Intersect(availability, attribute.availability);
      var projectable := ProjectionObjectShape(attribute.shape);
      if !projectable.typ.ObjectType? { return; }
      ghost var before := log;
      var node := BuildNode(projectable.attributes, inherited);
      ghost var mid := log;
      Register(attribute.name, node);
      assert log[|mid|..] == [Root(attribute.name, node)];
      MatchesAppend(before, mid, log, Occurrences(Nested(attribute), inherited),
                    [Occurrence(attribute.name, Nested(attribute), inherited)]);
    }

    /** Indexes one response body. */
    method IndexResources(shape: ShapeSpec)
      requires Sound(resources, log, built)
      modifies this
      ensures Sound(resources, log, built)
      ensures old(log) <= log && Matches(log[|old(log)|..], Occurrences(Top(shape), UNRESTRICTED))
      ensures old(built) <= built && Grown(old(built), built, TreeSize(Top(shape)))
    {
      var body := ProjectionObjectShape(shape);
      if !body.typ.ObjectType? { return; }
      var attributes := body.attributes;
      ghost var before, was := log, built;
      for i := 0 to |attributes|
        invariant Sound(resources, log, built)
        invariant before <= log && Matches(log[|before|..], Occurrences(attributes[..i], UNRESTRICTED))
        invariant was <= built && Grown(was, built, TreeSize(attributes[..i]))
      {
        OccurrencesSnoc(attributes, i, UNRESTRICTED);
        ghost var mid := log;
        IndexAttribute(attributes[i], UNRESTRICTED);
        MatchesAppend(before, mid, log, Occurrences(attributes[..i], UNRESTRICTED),
                      OccurrencesOf(attributes[i], UNRESTRICTED));
      }
      assert attributes[..|attributes|] == attributes;
    }
  }

  lemma OccurrencesSnoc(attributes: seq<AttributeSpec>, i: nat, availability: CallerSet)
    requires i < |attributes|
    ensures Occurrences(attributes[..i + 1], availability) ==
            Occurrences(attributes[..i], availability) + OccurrencesOf(attributes[i], availability)
    ensures TreeSize(attributes[..i + 1]) == TreeSize(attributes[..i]) + TreeSize(Nested(attributes[i]))
    ensures TreeSize(Nested(attributes[i])) >= 1
  {
    assert attributes[..i + 1][..i] == attributes[..i];
    TreeSizePositive(Nested(attributes[i]));
  }

  lemma TreeSizePositive(attributes: seq<AttributeSpec>)
    ensures TreeSize(attributes) >= 1
  {
  }

  /** `resources` groups the log by name. */
  ghost predicate Registry(resources: map<string, seq<TreeNode>>, log: seq<Root>) {
    && (forall name :: name in resources ==> resources[name] == NodesNamed(log, name))
    && (forall name :: name in resources <==> NodesNamed(log, name) != [])
  }

  lemma RegistryAppend(resources: map<string, seq<TreeNode>>, log: seq<Root>, name: string, node: TreeNode)
    requires Registry(resources, log)
    ensures Registry(resources[name := (if name in resources then resources[name] else []) + [node]],
                     log + [Root(name, node)])
  {
    assert (log + [Root(name, node)])[..|log|] == log;
  }

  lemma MatchesAppend(before: seq<Root>, mid: seq<Root>, after: seq<Root>, a: seq<Occurrence>, b: seq<Occurrence>)
    requires before <= mid <= after
    requires Matches(mid[|before|..], a) && Matches(after[|mid|..], b)
    ensures Matches(after[|before|..], a + b)
  {
    assert after[|before|..] == mid[|before|..] + after[|mid|..];
  }
}
