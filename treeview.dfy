/**
 * The tree view (js/treeview.js): `render` resets the view's node counter
 * and its set of expanded ids, then `createTreeNode` walks the value, taking
 * one id `node_<n>` from the counter per value it meets. The model returns
 * the node structure the markup is made of (id, key, type, toggle state,
 * count, children) rather than the HTML text. `getNodeStats`/`analyzeNode`
 * count the nodes of a value in a shared `stats` record.
 */
module TreeView {
  import opened JsValues
  import opened ValueWalk

  /** The class of a node's toggle: `expanded`, `collapsed` or `leaf`. */
  datatype Toggle = Expanded | Collapsed | LeafToggle

  /**
   * A rendered node. A leaf (`createLeafNode`) shows its key, its type and
   * its value; an array or object (`createArrayNode`, `createObjectNode`)
   * carries the number of its id, its toggle, whether it is the root,
   * its count, whether its children are shown expanded, and its children.
   */
  datatype RenderedNode =
    | Leaf(key: string, kind: string, value: Value)
    | Branch(id: nat, key: string, isArray: bool, toggle: Toggle, isRoot: bool, count: nat,
             childrenExpanded: bool, children: seq<RenderedNode>)

  /** What `render` puts into the container. */
  datatype Rendering = EmptyState | Tree(root: RenderedNode)

  /** The text of the `data-node-id` of id number `n`. */
  function NodeId(n: nat): string
  {
    "node_" + NatToString(n)
  }

  /** Different id numbers give different ids. */
  lemma NodeIdInjective(m: nat, n: nat)
    requires NodeId(m) == NodeId(n)
    ensures m == n
  {
    assert NatToString(m) == NodeId(m)[5..] && NatToString(n) == NodeId(n)[5..];
    NatToStringInjective(m, n);
  }

  /** `typeof` of a scalar that is not `null`. */
  function TypeOf(v: Value): string
  {
    match v
    case Bool(_) => "boolean"
    case Str(_) => "string"
    case _ => "number"
  }

  /** `expanded` or `collapsed` for a non-empty container, `leaf` for an empty one. */
  function ToggleOf(count: nat, isExpanded: bool): Toggle
  {
    if count > 0 then (if isExpanded then Expanded else Collapsed) else LeafToggle
  }

  /** The key under which child `i` is shown: `[i]` for an array element, the key for an object entry. */
  function ChildLabel(v: Value, i: nat): string
    requires i < ChildCount(v)
  {
    if v.Arr? then "[" + NatToString(i) + "]" else v.entries[i].0
  }

  /** The node `createTreeNode(data, key, level, isRoot)` builds when the counter stands at `counter`. */
  function RenderNode(data: Value, key: string, isRoot: bool, counter: nat, expanded: set<string>): RenderedNode
    decreases data, 1
  {
    var isExpanded := isRoot || NodeId(counter) in expanded;
    match data
    case Null => Leaf(key, "null", data)
    case Arr(items) =>
      Branch(counter, key, true, ToggleOf(|items|, isExpanded), isRoot, |items|, isExpanded,
             RenderChildren(data, |items|, counter + 1, expanded))
    case Obj(entries) =>
      Branch(counter, key, false, ToggleOf(|entries|, isExpanded), isRoot, |entries|, isExpanded,
             RenderChildren(data, |entries|, counter + 1, expanded))
    case _ => Leaf(key, TypeOf(data), data)
  }

  /** The first `n` children, child `i` starting at `first` plus the sizes of the children before it. */
  function RenderChildren(data: Value, n: nat, first: nat, expanded: set<string>): seq<RenderedNode>
    requires n <= ChildCount(data)
    decreases data, 0, n
  {
    if n == 0 then []
    else RenderChildren(data, n - 1, first, expanded) + [ChildNode(data, n - 1, first, expanded)]
  }

  /** Child `i`, one level down, its id right after those of the children before it. */
  function ChildNode(data: Value, i: nat, first: nat, expanded: set<string>): RenderedNode
    requires i < ChildCount(data)
    decreases data, 0, i
  {
    RenderNode(Child(data, i), ChildLabel(data, i), false, first + ChildrenSize(data, i), expanded)
  }

  /** `RenderChildrenNext`, counted from the end. */
  lemma RenderChildrenLast(data: Value, n: nat, first: nat, expanded: set<string>)
    requires 0 < n <= ChildCount(data)
    ensures ChildrenSize(data, n) == ChildrenSize(data, n - 1) + Size(Child(data, n - 1))
    ensures RenderChildren(data, n, first, expanded)
      == RenderChildren(data, n - 1, first, expanded)
         + [ChildNode(data, n - 1, first, expanded)]
  {
  }

  /** One more child: its node is appended, starting right after the children before it. */
  lemma RenderChildrenNext(data: Value, i: nat, first: nat, expanded: set<string>)
    requires i < ChildCount(data)
    ensures ChildrenSize(data, i + 1) == ChildrenSize(data, i) + Size(Child(data, i))
    ensures RenderChildren(data, i + 1, first, expanded)
      == RenderChildren(data, i, first, expanded)
         + [ChildNode(data, i, first, expanded)]
  {
  }

  /** The node of a container: its toggle, count and expansion, then its children. */
  lemma ContainerRendered(data: Value, key: string, isRoot: bool, counter: nat, expanded: set<string>)
    requires IsContainer(data)
    ensures var isExpanded := isRoot || NodeId(counter) in expanded;
      RenderNode(data, key, isRoot, counter, expanded)
      == Branch(counter, key, data.Arr?, ToggleOf(ChildCount(data), isExpanded), isRoot, ChildCount(data), isExpanded,
                RenderChildren(data, ChildCount(data), counter + 1, expanded))
  {
  }

  /** The view's state: the node counter and the ids of the expanded nodes. */
  class TreeViewState {
    var expandedNodes: set<string>
    var nodeCounter: nat

    /** `new TreeView()`. */
    constructor ()
      ensures expandedNodes == {} && nodeCounter == 0
    {
      expandedNodes := {};
      nodeCounter := 0;
    }

    /**
     * `render(container, data, format)`: falsy data shows the empty state
     * and leaves the view's state as it was; anything else resets the
     * counter and the expanded ids, then renders the value as the root.
     */
    method Render(data: Value) returns (r: Rendering)
      modifies this
      ensures !Truthy(data) ==> r == EmptyState && expandedNodes == old(expandedNodes) && nodeCounter == old(nodeCounter)
      ensures Truthy(data) ==> r == Tree(RenderNode(data, "root", true, 0, {}))
      ensures Truthy(data) ==> expandedNodes == {} && nodeCounter == Size(data)
    {
      if !Truthy(data) {
        return EmptyState;
      }
      nodeCounter := 0;
      expandedNodes := {};
      var tree := CreateTreeNode(data, "root", 0, true);
      r := Tree(tree);
    }

    /** `createTreeNode(data, key, level, isRoot)`: takes one id, whatever the value. */
    method CreateTreeNode(data: Value, key: string, level: nat, isRoot: bool) returns (node: RenderedNode)
      modifies this
      ensures expandedNodes == old(expandedNodes)
      ensures nodeCounter == old(nodeCounter) + Size(data)
      ensures node == RenderNode(data, key, isRoot, old(nodeCounter), expandedNodes)
      decreases data, 2
    {
      var nodeId := nodeCounter;
      nodeCounter := nodeCounter + 1;
      var isExpanded := isRoot || NodeId(nodeId) in expandedNodes;
      if data.Null? {
        return Leaf(key, "null", data);
      }
      if data.Arr? {
        node := CreateContainerNode(data, key, level, nodeId, isExpanded, isRoot);
        return;
      }
      if data.Obj? {
        node := CreateContainerNode(data, key, level, nodeId, isExpanded, isRoot);
        return;
      }
      assert ChildrenSize(data, 0) == 0;
      node := Leaf(key, TypeOf(data), data);
    }

    /**
     * `createArrayNode` and `createObjectNode`: the toggle from the count,
     * then, when there is a child, each child rendered one level deeper.
     */
    method CreateContainerNode(data: Value, key: string, level: nat, nodeId: nat, isExpanded: bool, isRoot: bool)
      returns (node: RenderedNode)
      requires IsContainer(data) && nodeCounter == nodeId + 1
      requires isExpanded == (isRoot || NodeId(nodeId) in expandedNodes)
      modifies this
      ensures expandedNodes == old(expandedNodes)
      ensures nodeCounter == nodeId + Size(data)
      ensures node == RenderNode(data, key, isRoot, nodeId, expandedNodes)
      decreases data, 1
    {
      var count := ChildCount(data);
      var toggle := ToggleOf(count, isExpanded);
      var children := [];
      if count > 0 {
        for i := 0 to count
          invariant expandedNodes == old(expandedNodes)
          invariant nodeCounter == nodeId + 1 + ChildrenSize(data, i)
          invariant children == RenderChildren(data, i, nodeId + 1, expandedNodes)
        {
          RenderChildrenNext(data, i, nodeId + 1, expandedNodes);
          var child := CreateTreeNode(Child(data, i), ChildLabel(data, i), level + 1, false);
          assert child == ChildNode(data, i, nodeId + 1, expandedNodes);
          children := children + [child];
        }
      }
      ContainerRendered(data, key, isRoot, nodeId, expandedNodes);
      node := Branch(nodeId, key, data.Arr?, toggle, isRoot, count, isExpanded, children);
    }
  }

  // ---------------------------------------------------------------------
  // What a render shows

  /** The root is always shown expanded; it is a leaf toggle only when it has no children. */
  lemma RootExpanded(data: Value, key: string, counter: nat, expanded: set<string>)
    requires IsContainer(data)
    ensures var node := RenderNode(data, key, true, counter, expanded);
      && node.Branch? && node.isRoot && node.childrenExpanded
      && (node.toggle == Expanded <==> ChildCount(data) > 0)
  {
  }

  /**
   * A container node's toggle is `leaf` exactly when it is empty, and it
   * has children exactly when it is not.
   */
  lemma {:induction false} LeafToggleIffEmpty(data: Value, key: string, isRoot: bool, counter: nat, expanded: set<string>)
    requires IsContainer(data)
    ensures var node := RenderNode(data, key, isRoot, counter, expanded);
      && node.count == ChildCount(data)
      && (node.toggle == LeafToggle <==> node.count == 0)
      && (node.children == [] <==> node.count == 0)
      && |node.children| == node.count
  {
    RenderChildrenLength(data, ChildCount(data), counter + 1, expanded);
  }

  lemma {:induction false} RenderChildrenLength(data: Value, n: nat, first: nat, expanded: set<string>)
    requires n <= ChildCount(data)
    ensures |RenderChildren(data, n, first, expanded)| == n
  {
    if n > 0 {
      RenderChildrenLength(data, n - 1, first, expanded);
    }
  }

  /** With no expanded ids, as after the reset in `render`, every node but the root is shown collapsed. */
  lemma NonRootCollapsed(data: Value, key: string, counter: nat)
    requires IsContainer(data)
    ensures var node := RenderNode(data, key, false, counter, {});
      && !node.childrenExpanded && node.toggle != Expanded
  {
  }

  /** The id numbers of the nodes of a rendered tree, in document order. */
  function IdsOf(node: RenderedNode): seq<nat>
    decreases node, 1
  {
    match node
    case Leaf(_, _, _) => []
    case Branch(id, _, _, _, _, _, _, children) => [id] + IdsOfAll(children)
  }

  function IdsOfAll(nodes: seq<RenderedNode>): seq<nat>
    decreases nodes, 0
  {
    if nodes == [] then [] else IdsOfAll(nodes[..|nodes| - 1]) + IdsOf(nodes[|nodes| - 1])
  }

  predicate Increasing(s: seq<nat>)
  {
    forall i, j :: 0 <= i < j < |s| ==> s[i] < s[j]
  }

  predicate Within(s: seq<nat>, lo: nat, hi: nat)
  {
    forall i :: 0 <= i < |s| ==> lo <= s[i] < hi
  }

  lemma IncreasingAppend(a: seq<nat>, b: seq<nat>, lo: nat, mid: nat, hi: nat)
    requires Increasing(a) && Within(a, lo, mid) && Increasing(b) && Within(b, mid, hi) && lo <= mid <= hi
    ensures Increasing(a + b) && Within(a + b, lo, hi)
  {
    var ab := a + b;
    forall i, j | 0 <= i < j < |ab| ensures ab[i] < ab[j] {
      if j < |a| {
        assert ab[i] == a[i] && ab[j] == a[j];
      } else if i < |a| {
        assert ab[i] == a[i] && ab[j] == b[j - |a|];
      } else {
        assert ab[i] == b[i - |a|] && ab[j] == b[j - |a|];
      }
    }
    forall i | 0 <= i < |ab| ensures lo <= ab[i] < hi {
      if i < |a| {
        assert ab[i] == a[i];
      } else {
        assert ab[i] == b[i - |a|];
      }
    }
  }

  /** A container's id comes before those of its children; a scalar has none. */
  lemma BranchIds(data: Value, key: string, isRoot: bool, c: nat, expanded: set<string>)
    ensures IsContainer(data) ==>
      IdsOf(RenderNode(data, key, isRoot, c, expanded)) == [c] + IdsOfAll(RenderChildren(data, ChildCount(data), c + 1, expanded))
    ensures !IsContainer(data) ==> IdsOf(RenderNode(data, key, isRoot, c, expanded)) == []
  {
  }

  /**
   * The ids a render hands out from counter `c` are the numbers from `c`
   * on, each used once and in document order, and all below `c` plus the
   * number of values in the tree.
   */
  lemma {:induction false} IdsIncreasing(data: Value, key: string, isRoot: bool, c: nat, expanded: set<string>)
    ensures Increasing(IdsOf(RenderNode(data, key, isRoot, c, expanded)))
    ensures Within(IdsOf(RenderNode(data, key, isRoot, c, expanded)), c, c + Size(data))
    decreases data, 1
  {
    BranchIds(data, key, isRoot, c, expanded);
    if IsContainer(data) {
      var rest := IdsOfAll(RenderChildren(data, ChildCount(data), c + 1, expanded));
      ChildIdsIncreasing(data, ChildCount(data), c + 1, expanded);
      assert Size(data) == 1 + ChildrenSize(data, ChildCount(data));
      IncreasingAppend([c], rest, c, c + 1, c + Size(data));
    }
  }

  lemma IdsOfAllAppend(nodes: seq<RenderedNode>, last: RenderedNode)
    ensures IdsOfAll(nodes + [last]) == IdsOfAll(nodes) + IdsOf(last)
  {
    assert (nodes + [last])[..|nodes|] == nodes;
  }

  lemma {:induction false} ChildIdsIncreasing(data: Value, n: nat, first: nat, expanded: set<string>)
    requires n <= ChildCount(data)
    ensures Increasing(IdsOfAll(RenderChildren(data, n, first, expanded)))
    ensures Within(IdsOfAll(RenderChildren(data, n, first, expanded)), first, first + ChildrenSize(data, n))
    decreases data, 0, n
  {
    if n > 0 {
      ChildIdsIncreasing(data, n - 1, first, expanded);
      ChildNodeIds(data, n - 1, first, expanded);
      ChildIdsStep(data, n, first, expanded);
    }
  }

  /** The ids of the first `n` children from those of the first `n - 1` and those of child `n - 1`. */
  lemma ChildIdsStep(data: Value, n: nat, first: nat, expanded: set<string>)
    requires 0 < n <= ChildCount(data)
    requires Increasing(IdsOfAll(RenderChildren(data, n - 1, first, expanded)))
    requires Within(IdsOfAll(RenderChildren(data, n - 1, first, expanded)), first, first + ChildrenSize(data, n - 1))
    requires Increasing(IdsOf(ChildNode(data, n - 1, first, expanded)))
    requires Within(IdsOf(ChildNode(data, n - 1, first, expanded)), first + ChildrenSize(data, n - 1),
                    first + ChildrenSize(data, n - 1) + Size(Child(data, n - 1)))
    ensures Increasing(IdsOfAll(RenderChildren(data, n, first, expanded)))
    ensures Within(IdsOfAll(RenderChildren(data, n, first, expanded)), first, first + ChildrenSize(data, n))
  {
    var start := first + ChildrenSize(data, n - 1);
    RenderChildrenLast(data, n, first, expanded);
    IdsAppendIncreasing(RenderChildren(data, n, first, expanded), RenderChildren(data, n - 1, first, expanded),
                        ChildNode(data, n - 1, first, expanded), first, start, first + ChildrenSize(data, n));
  }

  /** The ids of child `i` come after those of the children before it and stay within its own size. */
  lemma {:induction false} ChildNodeIds(data: Value, i: nat, first: nat, expanded: set<string>)
    requires i < ChildCount(data)
    ensures Increasing(IdsOf(ChildNode(data, i, first, expanded)))
    ensures Within(IdsOf(ChildNode(data, i, first, expanded)), first + ChildrenSize(data, i),
                   first + ChildrenSize(data, i) + Size(Child(data, i)))
    decreases data, 0, i
  {
    IdsIncreasing(Child(data, i), ChildLabel(data, i), false, first + ChildrenSize(data, i), expanded);
  }

  /** The ids of one more rendered node, all above those before it, keep the list increasing. */
  lemma IdsAppendIncreasing(all: seq<RenderedNode>, before: seq<RenderedNode>, last: RenderedNode, lo: nat, mid: nat, hi: nat)
    requires all == before + [last]
    requires Increasing(IdsOfAll(before))
    requires Within(IdsOfAll(before), lo, mid)
    requires Increasing(IdsOf(last))
    requires Within(IdsOf(last), mid, hi)
    requires lo <= mid <= hi
    ensures Increasing(IdsOfAll(all)) && Within(IdsOfAll(all), lo, hi)
  {
    IdsOfAllAppend(before, last);
    IncreasingAppend(IdsOfAll(before), IdsOf(last), lo, mid, hi);
  }

  /** Within one render no two nodes share a `data-node-id`. */
  lemma RenderIdsDistinct(data: Value)
    ensures var ids := IdsOf(RenderNode(data, "root", true, 0, {}));
      forall i, j :: 0 <= i < j < |ids| ==> NodeId(ids[i]) != NodeId(ids[j])
  {
    var ids := IdsOf(RenderNode(data, "root", true, 0, {}));
    IdsIncreasing(data, "root", true, 0, {});
    forall i, j | 0 <= i < j < |ids| ensures NodeId(ids[i]) != NodeId(ids[j]) {
      if NodeId(ids[i]) == NodeId(ids[j]) {
        NodeIdInjective(ids[i], ids[j]);
      }
    }
  }

  // ---------------------------------------------------------------------
  // `getNodeStats` and `analyzeNode`

  datatype NodeStatsInfo = NodeStatsInfo(totalNodes: nat, objects: nat, arrays: nat, primitives: nat, maxDepth: nat)

  const NoNodes := NodeStatsInfo(0, 0, 0, 0, 0)

  /** What one visit of `analyzeNode` adds: a node, the deepest level so far, and its kind (`null` is a primitive). */
  function NodeStep(s: NodeStatsInfo, visit: Visit): NodeStatsInfo
  {
    var (v, depth) := visit;
    s.(totalNodes := s.totalNodes + 1,
       maxDepth := Max(s.maxDepth, depth),
       arrays := s.arrays + (if v.Arr? then 1 else 0),
       objects := s.objects + (if v.Obj? then 1 else 0),
       primitives := s.primitives + (if IsContainer(v) then 0 else 1))
  }

  /** The `stats` record of `getNodeStats`. */
  class NodeStats {
    var totalNodes: nat
    var objects: nat
    var arrays: nat
    var primitives: nat
    var maxDepth: nat

    function Info(): NodeStatsInfo
      reads this
    {
      NodeStatsInfo(totalNodes, objects, arrays, primitives, maxDepth)
    }

    constructor ()
      ensures Info() == NoNodes
    {
      totalNodes, objects, arrays, primitives, maxDepth := 0, 0, 0, 0, 0;
    }

    /** `analyzeNode(data, stats, depth)`. */
    method AnalyzeNode(data: Value, depth: nat)
      modifies this
      ensures Info() == Fold(NodeStep, old(Info()), Visits(data, depth))
      decreases data, 1
    {
      ghost var before := Info();
      totalNodes := totalNodes + 1;
      maxDepth := Max(maxDepth, depth);
      if data.Arr? {
        arrays := arrays + 1;
      } else if data.Obj? {
        objects := objects + 1;
      } else {
        primitives := primitives + 1;
      }
      assert Info() == NodeStep(before, (data, depth));
      AnalyzeChildren(data, depth + 1);
      FirstNodeVisit(before, data, depth);
    }

    /** `data.forEach(...)` over an array, `Object.values(data).forEach(...)` over an object. */
    method AnalyzeChildren(data: Value, depth: nat)
      modifies this
      ensures Info() == Fold(NodeStep, old(Info()), ChildVisits(data, ChildCount(data), depth))
      decreases data, 0
    {
      ghost var start := Info();
      for i := 0 to ChildCount(data)
        invariant Info() == Fold(NodeStep, start, ChildVisits(data, i, depth))
      {
        AnalyzeNode(Child(data, i), depth);
        FoldAppend(NodeStep, start, ChildVisits(data, i, depth), Visits(Child(data, i), depth));
      }
    }
  }

  lemma FirstNodeVisit(s: NodeStatsInfo, v: Value, depth: nat)
    ensures Fold(NodeStep, s, Visits(v, depth))
        == Fold(NodeStep, NodeStep(s, (v, depth)), ChildVisits(v, ChildCount(v), depth + 1))
  {
    var root := [(v, depth)];
    FoldAppend(NodeStep, s, root, ChildVisits(v, ChildCount(v), depth + 1));
    assert root[..0] == [];
  }

  /** `getNodeStats(data)`: a fresh record, then the walk from depth 0. */
  method GetNodeStats(data: Value) returns (stats: NodeStatsInfo)
    ensures stats == Fold(NodeStep, NoNodes, Visits(data, 0))
  {
    var record := new NodeStats();
    record.AnalyzeNode(data, 0);
    stats := record.Info();
  }

  /** After any visits: one node per visit, each an object, an array or a primitive. */
  lemma {:induction false} NodeStatsFold(s: NodeStatsInfo, visits: seq<Visit>)
    ensures var r := Fold(NodeStep, s, visits);
      && r.totalNodes == s.totalNodes + |visits|
      && r.objects + r.arrays + r.primitives == s.objects + s.arrays + s.primitives + |visits|
      && r.maxDepth == Max(s.maxDepth, Deepest(visits))
    decreases |visits|
  {
    if visits != [] {
      NodeStatsFold(s, visits[..|visits| - 1]);
    }
  }

  /**
   * `getNodeStats` counts every value of the tree once, as an object, an
   * array or a primitive, and its deepest level is the height of the tree.
   */
  lemma NodeStatsCount(data: Value)
    ensures var r := Fold(NodeStep, NoNodes, Visits(data, 0));
      && r.totalNodes == r.objects + r.arrays + r.primitives
      && r.totalNodes == Size(data)
      && r.maxDepth == Height(data)
  {
    NodeStatsFold(NoNodes, Visits(data, 0));
    VisitCount(data, 0);
    DeepestVisit(data, 0);
  }

  /** A scalar or `null` is one primitive node at depth 0. */
  lemma ScalarStats(data: Value)
    requires !IsContainer(data)
    ensures Fold(NodeStep, NoNodes, Visits(data, 0)) == NodeStatsInfo(1, 0, 0, 1, 0)
  {
    assert Visits(data, 0) == [(data, 0)];
    assert [(data, 0)][..0] == [];
  }
}
