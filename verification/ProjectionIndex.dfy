/** From the tree of shared nodes to the flat index (request/projection_shape.go): nodes
    are numbered on first sight, and each node's edges get a slot range that is
    reserved before its children are compiled. */
module ProjectionIndex {
  import opened CallerSets
  import opened Text
  import opened ProjectionTree

  datatype ResourceEntry = ResourceEntry(name: string, firstRoot: nat, rootCount: nat)
  datatype Node = Node(availability: CallerSet, firstEdge: nat, edgeCount: nat)
  datatype Edge = Edge(segment: string, child: nat)

  datatype Schema = Schema(resources: seq<ResourceEntry>, roots: seq<nat>, nodes: seq<Node>, edges: seq<Edge>)

  const WIDTH := 0x1_0000_0000

  /** Conversion to a 32-bit index. */
  function U32(n: nat): nat {
    if n < WIDTH then n else n % WIDTH
  }

  // ------------------------------------------------------- the invariant

  /** Edge slots used by the first `k` nodes. */
  ghost function Base(order: seq<TreeNode>, k: nat): nat
    requires k <= |order|
  {
    if k == 0 then 0 else Base(order, k - 1) + |order[k - 1].children|
  }

  lemma {:induction false} BaseGrows(order: seq<TreeNode>, j: nat, k: nat)
    requires j <= k <= |order|
    ensures Base(order, j) <= Base(order, k)
  {
    if j < k { BaseGrows(order, j, k - 1); }
  }

  /** `order[k]` is the tree node with number `k`. */
  ghost predicate Numbered(indexes: map<TreeNode, nat>, order: seq<TreeNode>) {
    && |indexes| == |order|
    && (forall k :: 0 <= k < |order| ==> order[k] in indexes && indexes[order[k]] == k)
    && (forall n :: n in indexes ==> indexes[n] < |order| && order[indexes[n]] == n)
  }

  ghost predicate SameAvailability(nodes: seq<Node>, order: seq<TreeNode>) {
    && |nodes| == |order|
    && forall k :: 0 <= k < |order| ==> nodes[k].availability == order[k].availability
  }

  /** The slice holds one edge per child, sorted by segment, pointing at the child's number. */
  ghost predicate Edges(slice: seq<Edge>, children: map<string, TreeNode>, indexes: map<TreeNode, nat>) {
    && |slice| == |children|
    && SortedEdges(slice)
    && (forall e :: 0 <= e < |slice| ==> EdgeOf(slice[e], children, indexes))
    && (forall name :: name in children ==> exists e :: 0 <= e < |slice| && slice[e].segment == name)
  }

  ghost predicate SortedEdges(slice: seq<Edge>) {
    forall d, e :: 0 <= d < e < |slice| ==> StringLess(slice[d].segment, slice[e].segment)
  }

  ghost predicate EdgeOf(e: Edge, children: map<string, TreeNode>, indexes: map<TreeNode, nat>) {
    e.segment in children && children[e.segment] in indexes && e.child == indexes[children[e.segment]]
  }

  /** What the compiler has built; `order` lists the tree nodes by number. */
  datatype State = State(indexes: map<TreeNode, nat>, nodes: seq<Node>, edges: seq<Edge>, order: seq<TreeNode>)

  /** Node `k` is complete: its recorded range is the k-th slice of the edge array. */
  ghost predicate Filled(s: State, k: nat)
    requires k < |s.order|
  {
    && k < |s.nodes|
    && Base(s.order, k + 1) <= |s.edges|
    && s.nodes[k].firstEdge == U32(Base(s.order, k))
    && s.nodes[k].edgeCount == U32(|s.order[k].children|)
    && Edges(s.edges[Base(s.order, k)..Base(s.order, k + 1)], s.order[k].children, s.indexes)
  }

  ghost predicate FilledFrom(s: State, from: nat) {
    forall k :: from <= k < |s.order| ==> Filled(s, k)
  }

  ghost predicate Coherent(s: State, universe: set<TreeNode>) {
    && Numbered(s.indexes, s.order)
    && SameAvailability(s.nodes, s.order)
    && |s.edges| == Base(s.order, |s.order|) == EdgeTotal(s.indexes.Keys)
    && s.indexes.Keys <= universe
  }

  /** The nodes that may be compiled fit 32-bit numbers. */
  ghost predicate Universe(universe: set<TreeNode>) {
    ClosedUnderChildren(universe) && |universe| < WIDTH && EdgeTotal(universe) < WIDTH
  }

  ghost predicate Keeps(a: map<TreeNode, nat>, b: map<TreeNode, nat>) {
    a.Keys <= b.Keys && forall n :: n in a ==> b[n] == a[n]
  }

  /** The first `n` elements are the same. */
  ghost predicate Same<T>(a: seq<T>, b: seq<T>, n: nat) {
    n <= |a| && n <= |b| && forall i :: 0 <= i < n ==> a[i] == b[i]
  }

  /** Numbers given out, nodes and the first `slots` edge slots stay. */
  ghost predicate Extends(s: State, t: State, slots: nat) {
    && Keeps(s.indexes, t.indexes)
    && Same(s.order, t.order, |s.order|)
    && Same(s.nodes, t.nodes, |s.order|)
    && Same(s.edges, t.edges, slots)
  }

  /** From `s` to `t` whole subtrees were added and nothing was disturbed. */
  ghost predicate Progress(s: State, t: State, universe: set<TreeNode>) {
    Coherent(t, universe) && Extends(s, t, |s.edges|) && FilledFrom(t, |s.order|)
  }

  lemma ExtendsTransitive(s: State, t: State, u: State, slots: nat)
    requires Extends(s, t, slots) && Extends(t, u, |t.edges|)
    requires |s.order| <= |t.order|
    ensures Extends(s, u, slots)
  {
  }

  lemma {:induction false} BaseSame(a: seq<TreeNode>, b: seq<TreeNode>, k: nat)
    requires Same(a, b, k)
    ensures Base(a, k) == Base(b, k)
  {
    if k > 0 { BaseSame(a, b, k - 1); }
  }

  /** A complete node stays complete while numbers are added and other slots are written. */
  lemma FilledStays(s: State, t: State, k: nat)
    requires k < |s.order| && Filled(s, k)
    requires Keeps(s.indexes, t.indexes) && Same(s.order, t.order, |s.order|)
    requires k < |t.nodes| && t.nodes[k] == s.nodes[k]
    requires Base(s.order, k + 1) <= |t.edges|
    requires forall e :: Base(s.order, k) <= e < Base(s.order, k + 1) ==> t.edges[e] == s.edges[e]
    ensures Filled(t, k)
  {
    BaseSame(s.order, t.order, k);
    BaseSame(s.order, t.order, k + 1);
    assert t.edges[Base(s.order, k)..Base(s.order, k + 1)] == s.edges[Base(s.order, k)..Base(s.order, k + 1)];
  }

  lemma ProgressNone(s: State, universe: set<TreeNode>)
    requires Coherent(s, universe)
    ensures Progress(s, s, universe)
  {
  }

  lemma ProgressFrom(s: State, t: State, universe: set<TreeNode>, from: nat)
    requires Coherent(s, universe) && Progress(s, t, universe) && FilledFrom(s, from)
    ensures FilledFrom(t, from)
  {
    forall k | from <= k < |t.order| ensures Filled(t, k) {
      if k < |s.order| {
        assert Filled(s, k);
        BaseGrows(s.order, k + 1, |s.order|);
        FilledStays(s, t, k);
      }
    }
  }

  // ---------------------------------------------------- steps of the compiler

  lemma NumberedSnoc(indexes: map<TreeNode, nat>, order: seq<TreeNode>, node: TreeNode)
    requires Numbered(indexes, order) && node !in indexes
    ensures Numbered(indexes[node := |order|], order + [node])
    ensures indexes[node := |order|].Keys == indexes.Keys + {node}
  {
    var indexes', order' := indexes[node := |order|], order + [node];
    assert indexes'.Keys == indexes.Keys + {node};
    assert |indexes'| == |indexes'.Keys| == |indexes| + 1;
    forall k | 0 <= k < |order'| ensures order'[k] in indexes' && indexes'[order'[k]] == k {
      if k < |order| { assert order'[k] == order[k]; }
    }
    forall n | n in indexes' ensures indexes'[n] < |order'| && order'[indexes'[n]] == n {
      if n != node { assert order'[indexes[n]] == order[indexes[n]]; }
    }
  }

  /** The state with `node` numbered next and its slots reserved. */
  ghost function Reserved(s: State, node: TreeNode, blank: seq<Edge>): State {
    State(s.indexes[node := |s.order|], s.nodes + [Node(node.availability, 0, 0)], s.edges + blank, s.order + [node])
  }

  /** There is room for one more node and its slots. */
  lemma ReserveFits(s: State, node: TreeNode, universe: set<TreeNode>)
    requires Coherent(s, universe) && Universe(universe) && node in universe && node !in s.indexes
    ensures U32(|s.nodes|) == |s.nodes| == |s.order| && U32(|s.edges|) == |s.edges| < WIDTH
    ensures EdgeTotal(s.indexes.Keys + {node}) == |s.edges| + |node.children|
  {
    EdgeTotalAdd(s.indexes.Keys, node);
    SubsetTotals(s.indexes.Keys + {node}, universe);
    assert |s.indexes.Keys + {node}| == |s.indexes| + 1;
  }

  lemma BaseSnoc(order: seq<TreeNode>, node: TreeNode)
    ensures Base(order + [node], |order|) == Base(order, |order|)
    ensures Base(order + [node], |order| + 1) == Base(order, |order|) + |node.children|
  {
    BaseSame(order + [node], order, |order|);
  }

  lemma AvailabilitySnoc(nodes: seq<Node>, order: seq<TreeNode>, node: TreeNode)
    requires SameAvailability(nodes, order)
    ensures SameAvailability(nodes + [Node(node.availability, 0, 0)], order + [node])
  {
  }

  lemma ReserveKeeps(s: State, node: TreeNode, blank: seq<Edge>, universe: set<TreeNode>)
    requires Coherent(s, universe) && node in universe && node !in s.indexes && |blank| == |node.children|
    requires EdgeTotal(s.indexes.Keys + {node}) == |s.edges| + |node.children|
    ensures var t := Reserved(s, node, blank);
            Coherent(t, universe) && Extends(s, t, |s.edges|)
            && t.order[|s.order|] == node && Base(t.order, |s.order|) == |s.edges|
            && Base(t.order, |t.order|) == |s.edges| + |blank|
  {
    hide Numbered, EdgeTotal, SameAvailability;
    NumberedSnoc(s.indexes, s.order, node);
    BaseSnoc(s.order, node);
    AvailabilitySnoc(s.nodes, s.order, node);
  }

  /** The first `e` slots from `first` hold the edges to the first `e` names. */
  ghost predicate Slots(edges: seq<Edge>, first: nat, names: seq<string>, e: nat,
                        children: map<string, TreeNode>, indexes: map<TreeNode, nat>)
    requires e <= |names|
  {
    && first + |names| <= |edges|
    && forall d :: 0 <= d < e ==>
         edges[first + d].segment == names[d] && EdgeOf(edges[first + d], children, indexes)
  }

  lemma SlotsStay(edges: seq<Edge>, edges': seq<Edge>, first: nat, names: seq<string>, e: nat,
                  children: map<string, TreeNode>, indexes: map<TreeNode, nat>, indexes': map<TreeNode, nat>)
    requires e <= |names| && Slots(edges, first, names, e, children, indexes)
    requires Same(edges, edges', |edges|) && Keeps(indexes, indexes')
    ensures Slots(edges', first, names, e, children, indexes')
  {
  }

  lemma SlotsMore(edges: seq<Edge>, first: nat, names: seq<string>, e: nat,
                  children: map<string, TreeNode>, indexes: map<TreeNode, nat>)
    requires e < |names| && Slots(edges, first, names, e, children, indexes)
    requires names[e] in children && children[names[e]] in indexes
    ensures Slots(edges[first + e := Edge(names[e], indexes[children[names[e]]])], first, names, e + 1, children, indexes)
  {
  }

  /** With every slot written, the range is the node's sorted edges. */
  lemma SlotsFull(edges: seq<Edge>, first: nat, names: seq<string>,
                  children: map<string, TreeNode>, indexes: map<TreeNode, nat>)
    requires Slots(edges, first, names, |names|, children, indexes)
    requires Ascending(names) && |names| == |children|
    requires forall name :: name in children ==> name in names
    ensures Edges(edges[first..first + |names|], children, indexes)
  {
    var slice := edges[first..first + |names|];
    forall d | 0 <= d < |names| ensures slice[d].segment == names[d] && EdgeOf(slice[d], children, indexes) {
      assert slice[d] == edges[first + d];
    }
    forall name | name in children ensures exists d :: 0 <= d < |slice| && slice[d].segment == name {
      var d :| 0 <= d < |names| && names[d] == name;
      assert slice[d].segment == name;
    }
  }

  /** `s` is the state with `node` reserved; `t` is the state after its first
      `e` children have been compiled and written. */
  ghost predicate Written(s: State, t: State, universe: set<TreeNode>, node: TreeNode, first: nat, names: seq<string>, e: nat)
    requires e <= |names|
  {
    && Coherent(t, universe) && Extends(s, t, first) && FilledFrom(t, |s.order|)
    && Slots(t.edges, first, names, e, node.children, t.indexes)
  }

  lemma WrittenNone(s: State, universe: set<TreeNode>, node: TreeNode, first: nat, names: seq<string>)
    requires Coherent(s, universe) && first + |names| <= |s.edges|
    ensures Written(s, s, universe, node, first, names, 0)
  {
  }

  lemma WrittenCounts(s: State, t: State, universe: set<TreeNode>, node: TreeNode, first: nat, names: seq<string>)
    requires Written(s, t, universe, node, first, names, |names|)
    ensures |s.order| <= |t.nodes|
    ensures Keeps(s.indexes, t.indexes)
  {
  }

  /** Writing a slot below the ranges of later nodes leaves those nodes complete. */
  lemma SlotWriteKeeps(u: State, v: State, universe: set<TreeNode>, from: nat, slot: nat, edge: Edge)
    requires Coherent(u, universe) && FilledFrom(u, from) && from <= |u.order|
    requires slot < Base(u.order, from) && slot < |u.edges| && v == u.(edges := u.edges[slot := edge])
    ensures Coherent(v, universe) && FilledFrom(v, from)
  {
    hide Edges, Numbered;
    forall k | from <= k < |v.order| ensures Filled(v, k) {
      assert Filled(u, k);
      BaseGrows(u.order, from, k);
      FilledStays(u, v, k);
    }
  }

  /** Compiling the next child and writing its slot. */
  lemma WriteNext(s: State, t: State, u: State, v: State, universe: set<TreeNode>, node: TreeNode, first: nat, names: seq<string>, e: nat)
    requires e < |names| && Written(s, t, universe, node, first, names, e) && Progress(t, u, universe)
    requires Base(s.order, |s.order|) == first + |names|
    requires names[e] in node.children && node.children[names[e]] in u.indexes && first + e < |u.edges|
    requires v == u.(edges := u.edges[first + e := Edge(names[e], u.indexes[node.children[names[e]]])])
    ensures Written(s, v, universe, node, first, names, e + 1)
  {
    hide Numbered, SameAvailability, Filled, EdgeTotal, EdgeOf;
    ProgressFrom(t, u, universe, |s.order|);
    ExtendsTransitive(s, t, u, first);
    SlotsStay(t.edges, u.edges, first, names, e, node.children, t.indexes, u.indexes);
    SlotsMore(u.edges, first, names, e, node.children, u.indexes);
    BaseSame(s.order, u.order, |s.order|);
    SlotWriteKeeps(u, v, universe, |s.order|, first + e, v.edges[first + e]);
  }

  lemma WrittenFits(s: State, t: State, universe: set<TreeNode>, node: TreeNode, first: nat, names: seq<string>, e: nat)
    requires e < |names| && Written(s, t, universe, node, first, names, e)
    ensures Coherent(t, universe) && first + |names| <= |t.edges|
  {
    hide Coherent, Extends, FilledFrom;
  }

  lemma ProgressExtends(s: State, t: State, universe: set<TreeNode>)
    requires Progress(s, t, universe)
    ensures |s.edges| <= |t.edges|
  {
    hide Coherent, FilledFrom;
  }

  lemma ChildGrounded(node: TreeNode, name: string, universe: set<TreeNode>)
    requires Grounded(node) && node in universe && Universe(universe) && name in node.children
    ensures Grounded(node.children[name]) && node.children[name] in universe
    ensures node.children[name].height < node.height
  {
    hide EdgeTotal;
  }

  /** The range just recorded makes its node complete. */
  lemma OwnFilled(v: State, own: nat, node: TreeNode, first: nat)
    requires own < |v.order| == |v.nodes| && v.order[own] == node && Base(v.order, own) == first < WIDTH
    requires first + |node.children| <= |v.edges|
    requires Edges(v.edges[first..first + |node.children|], node.children, v.indexes)
    requires v.nodes[own].firstEdge == first && v.nodes[own].edgeCount == U32(|node.children|)
    ensures Filled(v, own)
  {
    assert Base(v.order, own + 1) == first + |node.children|;
  }

  /** Recording a range touches that node only. */
  lemma RecordKeeps(t: State, v: State, universe: set<TreeNode>, own: nat, first: nat, count: nat)
    requires Coherent(t, universe) && FilledFrom(t, own + 1) && own < |t.nodes|
    requires v == t.(nodes := t.nodes[own := t.nodes[own].(firstEdge := first, edgeCount := count)])
    ensures Coherent(v, universe) && FilledFrom(v, own + 1)
  {
    forall k | own < k < |v.order| ensures Filled(v, k) {
      assert Filled(t, k);
      FilledStays(t, v, k);
    }
  }

  /** Recording the range completes the node: the whole step is progress. */
  lemma RecordCompletes(r: State, s: State, t: State, v: State, universe: set<TreeNode>, node: TreeNode, names: seq<string>)
    requires Extends(r, s, |r.edges|) && |s.order| == |r.order| + 1
    requires s.order[|r.order|] == node && Base(s.order, |r.order|) == |r.edges| < WIDTH
    requires Ascending(names) && |names| == |node.children|
    requires forall name :: name in node.children ==> name in names
    requires Written(s, t, universe, node, |r.edges|, names, |names|)
    requires |r.order| < |t.nodes| && v == t.(nodes := t.nodes[|r.order| :=
               t.nodes[|r.order|].(firstEdge := |r.edges|, edgeCount := U32(|names|))])
    ensures Progress(r, v, universe)
  {
    hide Filled, Edges, EdgeTotal, Numbered;
    var own, first := |r.order|, |r.edges|;
    SlotsFull(t.edges, first, names, node.children, t.indexes);
    RecordKeeps(t, v, universe, own, first, U32(|names|));
    BaseSame(s.order, v.order, own);
    OwnFilled(v, own, node, first);
    RecordExtends(r, s, t, v);
  }

  lemma RecordExtends(r: State, s: State, t: State, v: State)
    requires Extends(r, s, |r.edges|) && Extends(s, t, |r.edges|) && |r.order| <= |s.order|
    requires v.indexes == t.indexes && v.order == t.order && v.edges == t.edges && Same(t.nodes, v.nodes, |r.order|)
    ensures Extends(r, v, |r.edges|)
  {
  }

  /** `responseProjectionTreeCompiler`, the part that numbers nodes. */
  class TreeCompiler {
    var indexes: map<TreeNode, nat>
    var nodes: seq<Node>
    var edges: seq<Edge>
    ghost var order: seq<TreeNode>

    ghost function Now(): State
      reads this
    {
      State(indexes, nodes, edges, order)
    }

    constructor ()
      ensures Now() == State(map[], [], [], [])
    {
      indexes, nodes, edges, order := map[], [], [], [];
    }

    /** Compiles the subtree at `node` unless it already has a number. What was
        there stays in place, and every node added is complete. */
    method CompileNode(node: TreeNode, ghost universe: set<TreeNode>) returns (index: nat)
      requires Grounded(node) && node in universe && Universe(universe)
      requires Coherent(Now(), universe)
      modifies this
      ensures Progress(old(Now()), Now(), universe)
      ensures node in indexes && index == indexes[node]
      decreases node.height
    {
      hide Coherent, Written, Progress, Extends, Grounded, Universe, Ascending, Base, Keeps;
      ProgressNone(Now(), universe);
      if node in indexes { return indexes[node]; }

      ghost var before := Now();
      var names := SortedNames(node.children.Keys);
      var firstEdge;
      index, firstEdge := Reserve(node, |names|, universe);
      ghost var reserved := Now();
      WrittenNone(reserved, universe, node, firstEdge, names);
      CompileChildren(node, names, firstEdge, reserved, universe);
      ghost var written := Now();
      WrittenCounts(reserved, written, universe, node, firstEdge, names);
      nodes := nodes[index := nodes[index].(firstEdge := firstEdge, edgeCount := U32(|names|))];
      RecordCompletes(before, reserved, written, Now(), universe, node, names);
    }

    /** Numbers the node and reserves its whole edge range: compiling its
        children appends other ranges. */
    method Reserve(node: TreeNode, count: nat, ghost universe: set<TreeNode>) returns (index: nat, firstEdge: nat)
      requires Coherent(Now(), universe) && Universe(universe) && node in universe && node !in indexes
      requires count == |node.children|
      modifies this
      ensures Coherent(Now(), universe) && Extends(old(Now()), Now(), |old(edges)|)
      ensures index == |old(order)| && firstEdge == |old(edges)| == Base(order, index) < WIDTH
      ensures indexes == old(indexes)[node := index] && order == old(order) + [node]
      ensures |edges| == firstEdge + count == Base(order, |order|)
    {
      hide Coherent, Universe, Extends, Base, EdgeTotal;
      var blank := seq(count, _ => Edge("", 0));
      ReserveFits(Now(), node, universe);
      ReserveKeeps(Now(), node, blank, universe);
      index, firstEdge := U32(|nodes|), U32(|edges|);
      indexes := indexes[node := index];
      nodes := nodes + [Node(node.availability, 0, 0)];
      order := order + [node];
      edges := edges + blank;
      assert Now() == Reserved(old(Now()), node, blank);
    }

    /** The loop over the sorted names: compile the child, write its slot. */
    method CompileChildren(node: TreeNode, names: seq<string>, firstEdge: nat, ghost reserved: State, ghost universe: set<TreeNode>)
      requires Grounded(node) && node in universe && Universe(universe)
      requires Now() == reserved && Written(reserved, reserved, universe, node, firstEdge, names, 0)
      requires Base(reserved.order, |reserved.order|) == firstEdge + |names|
      requires forall e :: 0 <= e < |names| ==> names[e] in node.children
      modifies this
      ensures Written(reserved, Now(), universe, node, firstEdge, names, |names|)
      decreases node.height, 1
    {
      for e := 0 to |names|
        invariant Written(reserved, Now(), universe, node, firstEdge, names, e)
      {
        CompileChild(node, names, e, firstEdge, reserved, universe);
      }
    }

    method CompileChild(node: TreeNode, names: seq<string>, e: nat, firstEdge: nat, ghost reserved: State, ghost universe: set<TreeNode>)
      requires Grounded(node) && node in universe && Universe(universe) && e < |names|
      requires Written(reserved, Now(), universe, node, firstEdge, names, e)
      requires Base(reserved.order, |reserved.order|) == firstEdge + |names|
      requires names[e] in node.children
      modifies this
      ensures Written(reserved, Now(), universe, node, firstEdge, names, e + 1)
      decreases node.height, 0
    {
      hide Coherent, Written, Progress, Grounded, Universe, Base;
      ghost var before := Now();
      WrittenFits(reserved, before, universe, node, firstEdge, names, e);
      ChildGrounded(node, names[e], universe);
      var child := CompileNode(node.children[names[e]], universe);
      ghost var compiled := Now();
      ProgressExtends(before, compiled, universe);
      edges := edges[firstEdge + e := Edge(names[e], child)];
      WriteNext(reserved, before, compiled, Now(), universe, node, firstEdge, names, e);
    }
  }

  // ------------------------------------------------------------ resources

  /** All tree nodes below the registered roots, each once. */
  ghost function TreeNodes(resources: map<string, seq<TreeNode>>): (r: set<TreeNode>)
    requires RootsGrounded(resources)
  {
    set name, k, n | name in resources && 0 <= k < |resources[name]| && n in Subtree(resources[name][k]) :: n
  }

  ghost predicate RootsGrounded(resources: map<string, seq<TreeNode>>) {
    forall name, k :: name in resources && 0 <= k < |resources[name]| ==> Grounded(resources[name][k])
  }

  lemma TreeNodesClosed(resources: map<string, seq<TreeNode>>)
    requires RootsGrounded(resources)
    ensures ClosedUnderChildren(TreeNodes(resources))
  {
    forall n, name | n in TreeNodes(resources) && name in n.children
      ensures n.children[name] in TreeNodes(resources)
    {
      var resource, k :| resource in resources && 0 <= k < |resources[resource]| && n in Subtree(resources[resource][k]);
      SubtreeClosed(resources[resource][k]);
      assert n.children[name] in Subtree(resources[resource][k]);
    }
  }

  /** Root slots used by the first `k` resources. */
  ghost function RootBase(resources: map<string, seq<TreeNode>>, names: seq<string>, k: nat): nat
    requires k <= |names| && forall i :: 0 <= i < |names| ==> names[i] in resources
  {
    if k == 0 then 0 else RootBase(resources, names, k - 1) + |resources[names[k - 1]]|
  }

  lemma {:induction false} RootBaseGrows(resources: map<string, seq<TreeNode>>, names: seq<string>, j: nat, k: nat)
    requires j <= k <= |names| && forall i :: 0 <= i < |names| ==> names[i] in resources
    ensures RootBase(resources, names, j) <= RootBase(resources, names, k)
  {
    if j < k { RootBaseGrows(resources, names, j, k - 1); }
  }

  /** The slice holds the numbers of these roots. */
  ghost predicate RootNumbers(slice: seq<nat>, roots: seq<TreeNode>, indexes: map<TreeNode, nat>) {
    && |slice| == |roots|
    && forall j :: 0 <= j < |roots| ==> roots[j] in indexes && slice[j] == indexes[roots[j]]
  }

  /** The first `k` resources have their entry and their root range. */
  ghost predicate Rooted(
    resources: map<string, seq<TreeNode>>, names: seq<string>, k: nat,
    entries: seq<ResourceEntry>, roots: seq<nat>, indexes: map<TreeNode, nat>)
    requires k <= |names| && forall i :: 0 <= i < |names| ==> names[i] in resources
  {
    && |entries| == k && |roots| == RootBase(resources, names, k)
    && forall i :: 0 <= i < k ==> RootedAt(resources, names, i, entries, roots, indexes)
  }

  ghost predicate RootedAt(
    resources: map<string, seq<TreeNode>>, names: seq<string>, i: nat,
    entries: seq<ResourceEntry>, roots: seq<nat>, indexes: map<TreeNode, nat>)
    requires i < |names| && forall i :: 0 <= i < |names| ==> names[i] in resources
  {
    var first, mine := RootBase(resources, names, i), resources[names[i]];
    && i < |entries| && first + |mine| <= |roots|
    && entries[i] == ResourceEntry(names[i], U32(first), U32(|mine|))
    && RootNumbers(roots[first..first + |mine|], mine, indexes)
  }

  lemma RootNumbersKept(slice: seq<nat>, roots: seq<TreeNode>, a: map<TreeNode, nat>, b: map<TreeNode, nat>)
    requires RootNumbers(slice, roots, a) && Keeps(a, b)
    ensures RootNumbers(slice, roots, b)
  {
  }

  /** One more resource at the end. */
  lemma RootedMore(
    resources: map<string, seq<TreeNode>>, names: seq<string>, k: nat,
    entries: seq<ResourceEntry>, roots: seq<nat>, indexes: map<TreeNode, nat>,
    added: seq<nat>, indexes': map<TreeNode, nat>)
    requires k < |names| && forall i :: 0 <= i < |names| ==> names[i] in resources
    requires Rooted(resources, names, k, entries, roots, indexes) && Keeps(indexes, indexes')
    requires RootNumbers(added, resources[names[k]], indexes')
    ensures Rooted(resources, names, k + 1,
                   entries + [ResourceEntry(names[k], U32(|roots|), U32(|added|))], roots + added, indexes')
  {
    var entries', roots' := entries + [ResourceEntry(names[k], U32(|roots|), U32(|added|))], roots + added;
    forall i | 0 <= i < k + 1 ensures RootedAt(resources, names, i, entries', roots', indexes') {
      var first, mine := RootBase(resources, names, i), resources[names[i]];
      if i < k {
        assert RootedAt(resources, names, i, entries, roots, indexes);
        assert roots'[first..first + |mine|] == roots[first..first + |mine|];
        RootNumbersKept(roots[first..first + |mine|], mine, indexes, indexes');
      } else {
        assert roots'[first..first + |mine|] == added;
      }
    }
  }

  /** The flat index stands for the registered trees: `order` numbers each
      distinct tree node once, edge ranges follow one another in that order,
      and root ranges follow one another in the order of resource names. */
  ghost predicate Compiled(schema: Schema, resources: map<string, seq<TreeNode>>, names: seq<string>, s: State)
    requires RootsGrounded(resources)
  {
    && s.nodes == schema.nodes && s.edges == schema.edges
    && Coherent(s, TreeNodes(resources)) && FilledFrom(s, 0)
    && Ascending(names) && (forall name :: name in names <==> name in resources)
    && Rooted(resources, names, |names|, schema.resources, schema.roots, s.indexes)
  }

  method CompileRoots(compiler: TreeCompiler, roots: seq<TreeNode>, ghost universe: set<TreeNode>)
    returns (numbers: seq<nat>)
    requires Universe(universe) && Coherent(compiler.Now(), universe) && FilledFrom(compiler.Now(), 0)
    requires forall j :: 0 <= j < |roots| ==> Grounded(roots[j]) && roots[j] in universe
    modifies compiler
    ensures Coherent(compiler.Now(), universe) && FilledFrom(compiler.Now(), 0)
    ensures Keeps(old(compiler.indexes), compiler.indexes)
    ensures RootNumbers(numbers, roots, compiler.indexes)
  {
    hide Coherent, FilledFrom, Extends, Universe;
    numbers := [];
    for j := 0 to |roots|
      invariant Coherent(compiler.Now(), universe) && FilledFrom(compiler.Now(), 0)
      invariant Keeps(old(compiler.indexes), compiler.indexes)
      invariant RootNumbers(numbers, roots[..j], compiler.indexes)
    {
      ghost var before := compiler.Now();
      var number := compiler.CompileNode(roots[j], universe);
      ProgressFrom(before, compiler.Now(), universe, 0);
      ProgressKeeps(before, compiler.Now(), universe);
      RootNumbersKept(numbers, roots[..j], before.indexes, compiler.indexes);
      numbers := numbers + [number];
    }
    assert roots[..|roots|] == roots;
  }

  lemma ProgressKeeps(s: State, t: State, universe: set<TreeNode>)
    requires Progress(s, t, universe)
    ensures Coherent(t, universe) && Keeps(s.indexes, t.indexes)
  {
  }

  /** `compileResources`: resources in lexical order, each with its own range of roots. */
  method CompileResources(resources: map<string, seq<TreeNode>>)
    returns (schema: Schema, ghost names: seq<string>, ghost state: State)
    requires RootsGrounded(resources) && Universe(TreeNodes(resources))
    ensures Compiled(schema, resources, names, state)
  {
    hide Coherent, FilledFrom, Universe, RootNumbers;
    var compiler := new TreeCompiler();
    ghost var universe := TreeNodes(resources);
    var sorted := SortedNames(resources.Keys);
    var entries, roots: seq<nat> := [], [];
    EmptyState(universe);
    for i := 0 to |sorted|
      invariant Coherent(compiler.Now(), universe) && FilledFrom(compiler.Now(), 0)
      invariant Rooted(resources, sorted, i, entries, roots, compiler.indexes)
    {
      assert sorted[i] in sorted;
      var mine := resources[sorted[i]];
      assert forall j :: 0 <= j < |mine| ==> Grounded(mine[j]) && mine[j] in Subtree(mine[j]);
      var firstRoot := U32(|roots|);
      ghost var indexes0 := compiler.indexes;
      var numbers := CompileRoots(compiler, mine, universe);
      RootedMore(resources, sorted, i, entries, roots, indexes0, numbers, compiler.indexes);
      RootNumbersLength(numbers, mine, compiler.indexes);
      roots := roots + numbers;
      entries := entries + [ResourceEntry(sorted[i], firstRoot, U32(|mine|))];
    }
    schema := Schema(entries, roots, compiler.nodes, compiler.edges);
    names, state := sorted, compiler.Now();
  }

  lemma RootNumbersLength(slice: seq<nat>, roots: seq<TreeNode>, indexes: map<TreeNode, nat>)
    requires RootNumbers(slice, roots, indexes)
    ensures |slice| == |roots|
  {
  }

  lemma EmptyState(universe: set<TreeNode>)
    ensures Coherent(State(map[], [], [], []), universe) && FilledFrom(State(map[], [], [], []), 0)
  {
  }

  // ------------------------------------------- what the finished index holds

  /** Children of numbered nodes are numbered once every node is complete. */
  lemma CompiledClosed(s: State, universe: set<TreeNode>)
    requires Coherent(s, universe) && FilledFrom(s, 0)
    ensures ClosedUnderChildren(s.indexes.Keys)
  {
    forall n, name | n in s.indexes && name in n.children ensures n.children[name] in s.indexes {
      var k := s.indexes[n];
      assert Filled(s, k) && s.order[k] == n;
      var slice := s.edges[Base(s.order, k)..Base(s.order, k + 1)];
      var e :| 0 <= e < |slice| && slice[e].segment == name;
      assert EdgeOf(slice[e], n.children, s.indexes);
    }
  }

  /** The recorded range of node `k`, without any wrap-around. */
  lemma CompiledRange(s: State, universe: set<TreeNode>, k: nat)
    requires Coherent(s, universe) && FilledFrom(s, 0) && Universe(universe) && k < |s.order|
    ensures k < |s.nodes| && Base(s.order, k) + |s.order[k].children| == Base(s.order, k + 1) <= |s.edges|
    ensures s.nodes[k].firstEdge == Base(s.order, k) && s.nodes[k].edgeCount == |s.order[k].children|
    ensures Edges(s.edges[Base(s.order, k)..Base(s.order, k + 1)], s.order[k].children, s.indexes)
  {
    hide Edges;
    assert Filled(s, k);
    BaseGrows(s.order, k + 1, |s.order|);
    SubsetTotals(s.indexes.Keys, universe);
  }

  /** Each range starts where the previous one ended. */
  ghost predicate RangesFollow(nodes: seq<Node>, edges: seq<Edge>) {
    && (forall k :: 0 <= k < |nodes| ==> nodes[k].firstEdge + nodes[k].edgeCount <= |edges|)
    && (forall k :: 0 < k < |nodes| ==> nodes[k].firstEdge == nodes[k - 1].firstEdge + nodes[k - 1].edgeCount)
    && (if nodes == [] then edges == []
        else nodes[0].firstEdge == 0 && nodes[|nodes| - 1].firstEdge + nodes[|nodes| - 1].edgeCount == |edges|)
  }

  ghost predicate RangesSorted(nodes: seq<Node>, edges: seq<Edge>)
    requires forall k :: 0 <= k < |nodes| ==> nodes[k].firstEdge + nodes[k].edgeCount <= |edges|
  {
    forall k :: 0 <= k < |nodes| ==> SortedEdges(edges[nodes[k].firstEdge..nodes[k].firstEdge + nodes[k].edgeCount])
  }

  lemma CompiledRanges(s: State, universe: set<TreeNode>)
    requires Coherent(s, universe) && FilledFrom(s, 0) && Universe(universe)
    ensures RangesFollow(s.nodes, s.edges) && RangesSorted(s.nodes, s.edges)
  {
    hide Universe, Filled, FilledFrom, Coherent, Base, SortedEdges;
    forall k | 0 <= k < |s.nodes|
      ensures s.nodes[k].firstEdge + s.nodes[k].edgeCount <= |s.edges|
      ensures SortedEdges(s.edges[s.nodes[k].firstEdge..s.nodes[k].firstEdge + s.nodes[k].edgeCount])
    {
      CompiledRangeSorted(s, universe, k);
    }
    forall k | 0 < k < |s.nodes| ensures s.nodes[k].firstEdge == s.nodes[k - 1].firstEdge + s.nodes[k - 1].edgeCount {
      CompiledFollows(s, universe, k);
    }
    CompiledEnds(s, universe);
  }

  lemma CompiledFollows(s: State, universe: set<TreeNode>, k: nat)
    requires Coherent(s, universe) && FilledFrom(s, 0) && Universe(universe) && 0 < k < |s.nodes|
    ensures s.nodes[k].firstEdge == s.nodes[k - 1].firstEdge + s.nodes[k - 1].edgeCount
  {
    hide Universe, FilledFrom, EdgeTotal, Numbered, Edges;
    CompiledRange(s, universe, k - 1);
    CompiledRange(s, universe, k);
  }

  lemma CompiledEnds(s: State, universe: set<TreeNode>)
    requires Coherent(s, universe) && FilledFrom(s, 0) && Universe(universe)
    ensures if s.nodes == [] then s.edges == []
            else s.nodes[0].firstEdge == 0
                 && s.nodes[|s.nodes| - 1].firstEdge + s.nodes[|s.nodes| - 1].edgeCount == |s.edges|
  {
    hide Universe, FilledFrom, EdgeTotal, Numbered, Edges;
    if s.nodes != [] {
      CompiledRange(s, universe, 0);
      CompiledRange(s, universe, |s.nodes| - 1);
    }
  }

  lemma CompiledRangeSorted(s: State, universe: set<TreeNode>, k: nat)
    requires Coherent(s, universe) && FilledFrom(s, 0) && Universe(universe) && k < |s.nodes|
    ensures s.nodes[k].firstEdge + s.nodes[k].edgeCount <= |s.edges|
    ensures SortedEdges(s.edges[s.nodes[k].firstEdge..s.nodes[k].firstEdge + s.nodes[k].edgeCount])
  {
    hide Universe, FilledFrom, EdgeTotal, Numbered;
    CompiledRange(s, universe, k);
  }

  /** Every registered tree node got a number, and nothing else did. */
  lemma CompiledAll(schema: Schema, resources: map<string, seq<TreeNode>>, names: seq<string>, s: State)
    requires RootsGrounded(resources) && Compiled(schema, resources, names, s)
    ensures s.indexes.Keys == TreeNodes(resources)
  {
    hide RootNumbers, Subtree, Filled, EdgeTotal;
    CompiledClosed(s, TreeNodes(resources));
    forall n | n in TreeNodes(resources) ensures n in s.indexes.Keys {
      var name, j :| name in resources && 0 <= j < |resources[name]| && n in Subtree(resources[name][j]);
      RootNumbered(schema, resources, names, s, name, j);
      ClosedHoldsSubtree(s.indexes.Keys, resources[name][j]);
    }
  }

  /** The range of a resource holds the numbers of its roots. */
  lemma RootNumbered(schema: Schema, resources: map<string, seq<TreeNode>>, names: seq<string>, s: State, name: string, j: nat)
    requires RootsGrounded(resources) && Compiled(schema, resources, names, s)
    requires name in resources && j < |resources[name]|
    ensures resources[name][j] in s.indexes
  {
    assert name in names;
    var i :| 0 <= i < |names| && names[i] == name;
    assert RootedAt(resources, names, i, schema.resources, schema.roots, s.indexes);
  }

  /** Sharing is kept: the index has exactly one node per distinct tree node
      and exactly one edge per child link, and its edge ranges, taken in node
      order, cover the edge array without gap or overlap, each strictly sorted. */
  lemma CompiledSharing(schema: Schema, resources: map<string, seq<TreeNode>>, names: seq<string>, s: State)
    requires RootsGrounded(resources) && Compiled(schema, resources, names, s)
    requires Universe(TreeNodes(resources))
    ensures |schema.nodes| == |TreeNodes(resources)|
    ensures |schema.edges| == EdgeTotal(TreeNodes(resources))
    ensures RangesFollow(schema.nodes, schema.edges) && RangesSorted(schema.nodes, schema.edges)
  {
    hide RangesFollow, RangesSorted, TreeNodes, FilledFrom, Rooted;
    CompiledAll(schema, resources, names, s);
    CompiledRanges(s, TreeNodes(resources));
    assert |s.indexes| == |s.indexes.Keys|;
  }
}
