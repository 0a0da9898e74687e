/**
 * `treeToFlow`: a pre-order traversal of the unit tree that pushes one
 * positioned graph node per unit and one parent-to-child edge per linked
 * child into two shared lists.
 */
module FlowLayout {
  import opened Wrappers
  import opened OrgTree
  import opened Sequences

  const HorizontalSpacing: int := 250
  const VerticalSpacing: int := 100

  /** A graph node: its id, its renderer type, its position and the unit it shows. */
  datatype FlowNode = FlowNode(id: string, kind: string, x: int, y: int, data: UnitInfo)

  datatype FlowEdge = FlowEdge(id: string, source: string, target: string, kind: string)

  /** `if (parent)`: a parent id is given and it is not the empty string. */
  predicate Truthy(parent: Option<string>) {
    parent.Some? && parent.value != ""
  }

  /**
   * The nodes `traverse(t, _, x, y, siblingIndex)` pushes: its own node at
   * `x + siblingIndex * 250`, then its children, centred on the anchor `x`.
   */
  function LayoutNodes(t: Tree, x: int, y: int, siblingIndex: int): seq<FlowNode> {
    [FlowNode(t.code, "custom", x + siblingIndex * HorizontalSpacing, y, Info(t))] +
    match t.children
    case Absent => []
    case Present(cs) => LayoutList(cs, x - |cs| * HorizontalSpacing / 2, y + VerticalSpacing, 0)
  }

  /** The nodes pushed by the `forEach` over a children list, from sibling index `i` on. */
  function LayoutList(cs: seq<Tree>, startX: int, y: int, i: int): seq<FlowNode> {
    if cs == [] then []
    else LayoutNodes(cs[0], startX, y, i) + LayoutList(cs[1..], startX, y, i + 1)
  }

  /** The edges `traverse(t, parent, ...)` pushes. */
  function LayoutEdges(t: Tree, parent: Option<string>): seq<FlowEdge> {
    (if Truthy(parent) then [FlowEdge(parent.value + "-" + t.code, parent.value, t.code, "smoothstep")] else []) +
    match t.children
    case Absent => []
    case Present(cs) => EdgeList(cs, t.code)
  }

  function EdgeList(cs: seq<Tree>, parent: string): seq<FlowEdge> {
    if cs == [] then []
    else LayoutEdges(cs[0], Some(parent)) + EdgeList(cs[1..], parent)
  }

  lemma {:induction false} LayoutListSnoc(cs: seq<Tree>, c: Tree, startX: int, y: int, i: int)
    ensures LayoutList(cs + [c], startX, y, i) == LayoutList(cs, startX, y, i) + LayoutNodes(c, startX, y, i + |cs|)
    decreases |cs|
  {
    var all := cs + [c];
    if cs == [] {
      assert all == [c] && all[1..] == [];
      assert LayoutList(all, startX, y, i) == LayoutNodes(c, startX, y, i) + [];
    } else {
      assert all[0] == cs[0] && all[1..] == cs[1..] + [c];
      LayoutListSnoc(cs[1..], c, startX, y, i + 1);
      var head, mid, last := LayoutNodes(cs[0], startX, y, i), LayoutList(cs[1..], startX, y, i + 1), LayoutNodes(c, startX, y, i + |cs|);
      assert LayoutList(all, startX, y, i) == head + (mid + last);
      assert LayoutList(cs, startX, y, i) == head + mid;
      assert head + (mid + last) == (head + mid) + last;
    }
  }

  lemma {:induction false} EdgeListSnoc(cs: seq<Tree>, c: Tree, parent: string)
    ensures EdgeList(cs + [c], parent) == EdgeList(cs, parent) + LayoutEdges(c, Some(parent))
    decreases |cs|
  {
    var all := cs + [c];
    if cs == [] {
      assert all == [c] && all[1..] == [];
      assert EdgeList(all, parent) == LayoutEdges(c, Some(parent)) + [];
    } else {
      assert all[0] == cs[0] && all[1..] == cs[1..] + [c];
      EdgeListSnoc(cs[1..], c, parent);
      var head, mid, last := LayoutEdges(cs[0], Some(parent)), EdgeList(cs[1..], parent), LayoutEdges(c, Some(parent));
      assert EdgeList(all, parent) == head + (mid + last);
      assert EdgeList(cs, parent) == head + mid;
      assert head + (mid + last) == (head + mid) + last;
    }
  }

  /** Laying out one more child of a children list extends both lists by that child's part. */
  lemma ChildrenStep(cs: seq<Tree>, index: int, nodeId: string, startX: int, childY: int)
    requires 0 <= index < |cs|
    ensures LayoutList(cs[..index + 1], startX, childY, 0)
      == LayoutList(cs[..index], startX, childY, 0) + LayoutNodes(cs[index], startX, childY, index)
    ensures EdgeList(cs[..index + 1], nodeId) == EdgeList(cs[..index], nodeId) + LayoutEdges(cs[index], Some(nodeId))
  {
    assert cs[..index + 1] == cs[..index] + [cs[index]];
    LayoutListSnoc(cs[..index], cs[index], startX, childY, 0);
    EdgeListSnoc(cs[..index], cs[index], nodeId);
  }

  /** The two lists `treeToFlow` fills while it traverses the tree. */
  class FlowBuilder {
    var nodes: seq<FlowNode>
    var edges: seq<FlowEdge>

    constructor ()
      ensures nodes == [] && edges == []
    {
      nodes := [];
      edges := [];
    }

    /** The inner `traverse`: push this unit's node and edge, then lay out its children. */
    method Traverse(node: Tree, parent: Option<string>, x: int, y: int, siblingIndex: int)
      modifies this
      ensures nodes == old(nodes) + LayoutNodes(node, x, y, siblingIndex)
      ensures edges == old(edges) + LayoutEdges(node, parent)
      decreases node, 1
    {
      ghost var nodesBefore, edgesBefore := nodes, edges;
      var nodeId := node.code;
      var positionX, positionY := x + siblingIndex * HorizontalSpacing, y;
      ghost var self := [FlowNode(nodeId, "custom", positionX, positionY, Info(node))];
      ghost var ownEdge := if Truthy(parent) then [FlowEdge(parent.value + "-" + nodeId, parent.value, nodeId, "smoothstep")] else [];
      nodes := nodes + [FlowNode(nodeId, "custom", positionX, positionY, Info(node))];
      if parent.Some? && parent.value != "" {
        edges := edges + [FlowEdge(parent.value + "-" + nodeId, parent.value, nodeId, "smoothstep")];
      }
      if node.children.Present? && |node.children.nodes| > 0 {
        var cs := node.children.nodes;
        var childrenWidth := |cs| * HorizontalSpacing;
        var startX := x - childrenWidth / 2;
        TraverseChildren(cs, nodeId, startX, y + VerticalSpacing);
        AppendAssoc(nodesBefore, self, LayoutList(cs, startX, y + VerticalSpacing, 0));
        AppendAssoc(edgesBefore, ownEdge, EdgeList(cs, nodeId));
        assert nodes == (nodesBefore + self) + LayoutList(cs, startX, y + VerticalSpacing, 0);
        assert edges == (edgesBefore + ownEdge) + EdgeList(cs, nodeId);
      }
    }

    /** `children.forEach((child, index) => traverse(child, nodeId, startX, childY, index))`. */
    method TraverseChildren(cs: seq<Tree>, nodeId: string, startX: int, childY: int)
      modifies this
      ensures nodes == old(nodes) + LayoutList(cs, startX, childY, 0)
      ensures edges == old(edges) + EdgeList(cs, nodeId)
      decreases cs, 0
    {
      ghost var nodes0, edges0 := nodes, edges;
      for index := 0 to |cs|
        invariant nodes == nodes0 + LayoutList(cs[..index], startX, childY, 0)
        invariant edges == edges0 + EdgeList(cs[..index], nodeId)
      {
        var c := cs[index];
        ghost var done := cs[..index];
        ghost var laidOut, linked := LayoutList(done, startX, childY, 0), EdgeList(done, nodeId);
        Traverse(c, Some(nodeId), startX, childY, index);
        ghost var more, moreEdges := LayoutNodes(c, startX, childY, index), LayoutEdges(c, Some(nodeId));
        ChildrenStep(cs, index, nodeId, startX, childY);
        AppendAssoc(nodes0, laidOut, more);
        AppendAssoc(edges0, linked, moreEdges);
      }
      assert cs[..|cs|] == cs;
    }
  }

  /** `treeToFlow(tree, parentPosition)`; the source's default position is (0, 0). */
  method TreeToFlow(tree: Tree, parentX: int, parentY: int) returns (nodes: seq<FlowNode>, edges: seq<FlowEdge>)
    ensures nodes == LayoutNodes(tree, parentX, parentY, 0)
    ensures edges == LayoutEdges(tree, None)
    ensures |nodes| >= 1 && nodes[0].x == parentX && nodes[0].y == parentY
  {
    var builder := new FlowBuilder();
    builder.Traverse(tree, None, parentX, parentY, 0);
    nodes, edges := builder.nodes, builder.edges;
  }

  // ---- Projections used to state the layout's properties ----

  function DataOf(ns: seq<FlowNode>): (r: seq<UnitInfo>)
    ensures |r| == |ns| && forall k :: 0 <= k < |ns| ==> r[k] == ns[k].data
  {
    if ns == [] then [] else [ns[0].data] + DataOf(ns[1..])
  }

  lemma DataOfAppend(a: seq<FlowNode>, b: seq<FlowNode>)
    ensures DataOf(a + b) == DataOf(a) + DataOf(b)
  {
    assert forall k :: 0 <= k < |a + b| ==> DataOf(a + b)[k] == (DataOf(a) + DataOf(b))[k];
  }

  /** A node is named after its unit and drawn with the custom renderer. */
  ghost predicate NodesNamed(ns: seq<FlowNode>) {
    forall k :: 0 <= k < |ns| ==> ns[k].id == ns[k].data.code && ns[k].kind == "custom"
  }

  lemma NodesNamedAppend(a: seq<FlowNode>, b: seq<FlowNode>)
    requires NodesNamed(a) && NodesNamed(b)
    ensures NodesNamed(a + b)
  {
    forall k | 0 <= k < |a + b| ensures (a + b)[k].id == (a + b)[k].data.code && (a + b)[k].kind == "custom" {
      if k >= |a| {
        assert (a + b)[k] == b[k - |a|];
      }
    }
  }

  /**
   * One node per unit, in depth-first pre-order, each carrying its unit's
   * code, label and type, with the code as its id.
   */
  lemma {:induction false} LayoutFollowsPreOrder(t: Tree, x: int, y: int, i: int)
    ensures DataOf(LayoutNodes(t, x, y, i)) == Infos(PreOrder(t))
    ensures NodesNamed(LayoutNodes(t, x, y, i))
    decreases t, 1
  {
    var self := [FlowNode(t.code, "custom", x + i * HorizontalSpacing, y, Info(t))];
    assert DataOf(self) == Infos([t]) == [Info(t)];
    match t.children
    case Absent =>
      assert LayoutNodes(t, x, y, i) == self + [];
      assert PreOrder(t) == [t] + [];
    case Present(cs) =>
      var sx := x - |cs| * HorizontalSpacing / 2;
      var rest := LayoutList(cs, sx, y + VerticalSpacing, 0);
      assert LayoutNodes(t, x, y, i) == self + rest;
      assert PreOrder(t) == [t] + PreOrderList(cs);
      LayoutListFollowsPreOrder(cs, sx, y + VerticalSpacing, 0);
      DataOfAppend(self, rest);
      InfosAppend([t], PreOrderList(cs));
      NodesNamedAppend(self, rest);
  }

  lemma {:induction false} LayoutListFollowsPreOrder(cs: seq<Tree>, startX: int, y: int, i: int)
    ensures DataOf(LayoutList(cs, startX, y, i)) == Infos(PreOrderList(cs))
    ensures NodesNamed(LayoutList(cs, startX, y, i))
    decreases cs, 0
  {
    if cs != [] {
      var first, rest := LayoutNodes(cs[0], startX, y, i), LayoutList(cs[1..], startX, y, i + 1);
      assert LayoutList(cs, startX, y, i) == first + rest;
      assert PreOrderList(cs) == PreOrder(cs[0]) + PreOrderList(cs[1..]);
      LayoutFollowsPreOrder(cs[0], startX, y, i);
      LayoutListFollowsPreOrder(cs[1..], startX, y, i + 1);
      DataOfAppend(first, rest);
      InfosAppend(PreOrder(cs[0]), PreOrderList(cs[1..]));
      NodesNamedAppend(first, rest);
    } else {
      assert LayoutList(cs, startX, y, i) == [] && PreOrderList(cs) == [];
    }
  }

  /** Exactly one node per unit. */
  lemma LayoutSize(t: Tree, x: int, y: int, i: int)
    ensures |LayoutNodes(t, x, y, i)| == Size(t)
  {
    LayoutFollowsPreOrder(t, x, y, i);
    PreOrderSize(t);
  }

  // ---- Vertical placement ----

  function YsOf(ns: seq<FlowNode>): (r: seq<int>)
    ensures |r| == |ns|
  {
    if ns == [] then [] else [ns[0].y] + YsOf(ns[1..])
  }

  /** The row of every depth: `offset + 100 * depth`. */
  function Rows(ds: seq<nat>, offset: int): (r: seq<int>)
    ensures |r| == |ds|
  {
    if ds == [] then [] else [offset + VerticalSpacing * ds[0]] + Rows(ds[1..], offset)
  }

  lemma {:induction false} YsOfAt(ns: seq<FlowNode>, k: int)
    requires 0 <= k < |ns|
    ensures YsOf(ns)[k] == ns[k].y
  {
    if k > 0 {
      YsOfAt(ns[1..], k - 1);
    }
  }

  lemma {:induction false} RowsAt(ds: seq<nat>, offset: int, k: int)
    requires 0 <= k < |ds|
    ensures Rows(ds, offset)[k] == offset + VerticalSpacing * ds[k]
  {
    if k > 0 {
      RowsAt(ds[1..], offset, k - 1);
    }
  }

  lemma {:induction false} YsOfAppend(a: seq<FlowNode>, b: seq<FlowNode>)
    ensures YsOf(a + b) == YsOf(a) + YsOf(b)
    decreases |a|
  {
    if a == [] {
      assert a + b == b;
    } else {
      assert (a + b)[0] == a[0] && (a + b)[1..] == a[1..] + b;
      YsOfAppend(a[1..], b);
    }
  }

  lemma {:induction false} RowsAppend(a: seq<nat>, b: seq<nat>, offset: int)
    ensures Rows(a + b, offset) == Rows(a, offset) + Rows(b, offset)
    decreases |a|
  {
    if a == [] {
      assert a + b == b;
    } else {
      assert (a + b)[0] == a[0] && (a + b)[1..] == a[1..] + b;
      RowsAppend(a[1..], b, offset);
    }
  }

  lemma {:induction false} LayoutRows(t: Tree, x: int, y: int, i: int, d: nat)
    ensures YsOf(LayoutNodes(t, x, y, i)) == Rows(Depths(t, d), y - VerticalSpacing * d)
    decreases t, 1
  {
    var offset := y - VerticalSpacing * d;
    if t.children.Present? {
      var cs := t.children.nodes;
      var sx := x - |cs| * HorizontalSpacing / 2;
      var self := [FlowNode(t.code, "custom", x + i * HorizontalSpacing, y, Info(t))];
      var rest := LayoutList(cs, sx, y + VerticalSpacing, 0);
      var below := DepthsList(cs, d + 1);
      LayoutListRows(cs, sx, y + VerticalSpacing, 0, d + 1);
      assert y + VerticalSpacing - VerticalSpacing * (d + 1) == offset;
      RowsStep(t, x, y, i, d, self, rest, below);
    }
  }

  /** The rows of a unit with children: its own row, then the rows of its children's subtrees. */
  lemma RowsStep(t: Tree, x: int, y: int, i: int, d: nat, self: seq<FlowNode>, rest: seq<FlowNode>, below: seq<nat>)
    requires t.children.Present?
    requires self == [FlowNode(t.code, "custom", x + i * HorizontalSpacing, y, Info(t))]
    requires rest == LayoutList(t.children.nodes, x - |t.children.nodes| * HorizontalSpacing / 2, y + VerticalSpacing, 0)
    requires below == DepthsList(t.children.nodes, d + 1)
    requires YsOf(rest) == Rows(below, y - VerticalSpacing * d)
    ensures YsOf(LayoutNodes(t, x, y, i)) == Rows(Depths(t, d), y - VerticalSpacing * d)
  {
    var offset := y - VerticalSpacing * d;
    assert LayoutNodes(t, x, y, i) == self + rest;
    assert Depths(t, d) == [d] + below;
    YsOfAppend(self, rest);
    RowsAppend([d], below, offset);
    assert YsOf(self) == [y] == Rows([d], offset);
  }

  lemma {:induction false} LayoutListRows(cs: seq<Tree>, startX: int, y: int, i: int, d: nat)
    ensures YsOf(LayoutList(cs, startX, y, i)) == Rows(DepthsList(cs, d), y - VerticalSpacing * d)
    decreases cs, 0
  {
    if cs != [] {
      LayoutRows(cs[0], startX, y, i, d);
      LayoutListRows(cs[1..], startX, y, i + 1, d);
      YsOfAppend(LayoutNodes(cs[0], startX, y, i), LayoutList(cs[1..], startX, y, i + 1));
      RowsAppend(Depths(cs[0], d), DepthsList(cs[1..], d), y - VerticalSpacing * d);
    }
  }

  /** The k-th node sits on row `parentY + 100 * depth`, where the root has depth 0. */
  lemma LayoutDepth(t: Tree, parentX: int, parentY: int, k: int)
    requires 0 <= k < Size(t)
    ensures |LayoutNodes(t, parentX, parentY, 0)| == |Depths(t, 0)| == Size(t)
    ensures LayoutNodes(t, parentX, parentY, 0)[k].y == parentY + VerticalSpacing * Depths(t, 0)[k]
  {
    LayoutRows(t, parentX, parentY, 0, 0);
    LayoutSize(t, parentX, parentY, 0);
    DepthsSize(t, 0);
    YsOfAt(LayoutNodes(t, parentX, parentY, 0), k);
    RowsAt(Depths(t, 0), parentY, k);
  }

  // ---- Horizontal placement ----

  /** In a children list, the node of child `j` comes after the subtrees of the `j` children before it. */
  lemma {:induction false} LayoutListChildAt(cs: seq<Tree>, startX: int, y: int, i: int, j: int)
    requires 0 <= j < |cs|
    ensures SizeList(cs[..j]) < |LayoutList(cs, startX, y, i)|
    ensures LayoutList(cs, startX, y, i)[SizeList(cs[..j])] ==
      FlowNode(cs[j].code, "custom", startX + (i + j) * HorizontalSpacing, y, Info(cs[j]))
    decreases j
  {
    var first := LayoutNodes(cs[0], startX, y, i);
    var rest := LayoutList(cs[1..], startX, y, i + 1);
    LayoutListCons(cs, startX, y, i);
    if j == 0 {
      assert cs[..0] == [];
    } else {
      var tail := cs[1..];
      LayoutListChildAt(tail, startX, y, i + 1, j - 1);
      var m := SizeList(tail[..j - 1]);
      PrefixSizeList(cs, j);
      assert SizeList(cs[..j]) == |first| + m;
      assert (first + rest)[|first| + m] == rest[m];
      assert tail[j - 1] == cs[j];
    }
  }

  /** A non-empty children list: the first child's subtree, its own node first, then the rest. */
  lemma LayoutListCons(cs: seq<Tree>, startX: int, y: int, i: int)
    requires cs != []
    ensures LayoutList(cs, startX, y, i) == LayoutNodes(cs[0], startX, y, i) + LayoutList(cs[1..], startX, y, i + 1)
    ensures |LayoutNodes(cs[0], startX, y, i)| == Size(cs[0])
    ensures LayoutList(cs, startX, y, i)[0] == FlowNode(cs[0].code, "custom", startX + i * HorizontalSpacing, y, Info(cs[0]))
  {
    LayoutSize(cs[0], startX, y, i);
  }

  /** The subtrees of the first `j` children: the first child's, then those of the next `j - 1`. */
  lemma PrefixSizeList(cs: seq<Tree>, j: int)
    requires 0 < j <= |cs|
    ensures SizeList(cs[..j]) == Size(cs[0]) + SizeList(cs[1..][..j - 1])
  {
    var p := cs[..j];
    assert p[0] == cs[0] && p[1..] == cs[1..][..j - 1];
  }

  /**
   * For a unit laid out with anchor `x` and `n` children, child `j` is drawn at
   * `x - 125 * n + 250 * j`, one row lower; adjacent siblings are 250 apart.
   */
  lemma ChildPlacement(t: Tree, x: int, y: int, i: int, j: int)
    requires t.children.Present? && 0 <= j < |t.children.nodes|
    ensures 1 + SizeList(t.children.nodes[..j]) < |LayoutNodes(t, x, y, i)|
    ensures LayoutNodes(t, x, y, i)[1 + SizeList(t.children.nodes[..j])] ==
      FlowNode(t.children.nodes[j].code, "custom",
               x - 125 * |t.children.nodes| + HorizontalSpacing * j, y + VerticalSpacing,
               Info(t.children.nodes[j]))
  {
    var cs := t.children.nodes;
    var sx := x - |cs| * HorizontalSpacing / 2;
    assert sx == x - 125 * |cs|;
    LayoutListChildAt(cs, sx, y + VerticalSpacing, 0, j);
  }

  lemma SiblingSpacing(t: Tree, x: int, y: int, i: int, j: int)
    requires t.children.Present? && 0 <= j && j + 1 < |t.children.nodes|
    ensures 1 + SizeList(t.children.nodes[..j]) < |LayoutNodes(t, x, y, i)|
    ensures 1 + SizeList(t.children.nodes[..j + 1]) < |LayoutNodes(t, x, y, i)|
    ensures LayoutNodes(t, x, y, i)[1 + SizeList(t.children.nodes[..j + 1])].x ==
            LayoutNodes(t, x, y, i)[1 + SizeList(t.children.nodes[..j])].x + HorizontalSpacing
  {
    ChildPlacement(t, x, y, i, j);
    ChildPlacement(t, x, y, i, j + 1);
  }

  /** The nodes of a unit with exactly two children: its own node, then each child's subtree. */
  lemma TwoChildrenLayout(t: Tree, a: Tree, b: Tree, x: int, y: int, i: int)
    requires t.children == Present([a, b])
    ensures LayoutNodes(t, x, y, i) ==
      [FlowNode(t.code, "custom", x + i * HorizontalSpacing, y, Info(t))] +
      (LayoutNodes(a, x - HorizontalSpacing, y + VerticalSpacing, 0) +
       LayoutNodes(b, x - HorizontalSpacing, y + VerticalSpacing, 1))
  {
    var sx, cy := x - HorizontalSpacing, y + VerticalSpacing;
    assert [a, b][1..] == [b] && [b][1..] == [];
    assert LayoutList([b], sx, cy, 1) == LayoutNodes(b, sx, cy, 1) + [];
  }

  /** The node right after a unit with a single child is that child, drawn at `x - 125`. */
  lemma OnlyChildAt(t: Tree, c: Tree, x: int, y: int, i: int)
    requires t.children == Present([c])
    ensures |LayoutNodes(t, x, y, i)| > 1
    ensures LayoutNodes(t, x, y, i)[1] == FlowNode(c.code, "custom", x - 125, y + VerticalSpacing, Info(c))
  {
    ChildPlacement(t, x, y, i, 0);
    assert [c][..0] == [];
  }

  /**
   * Cousins can coincide: the children of two siblings are all centred on
   * the same anchor, so the only grandchild under each of two siblings gets
   * the same position as the other.
   */
  lemma CousinsShareAnchor(a1: Tree, b1: Tree)
    ensures
      var a := Tree("A", "A", None, Present([a1]));
      var b := Tree("B", "B", None, Present([b1]));
      var nodes := LayoutNodes(Tree("R", "R", None, Present([a, b])), 0, 0, 0);
      |nodes| > 1 + Size(a) + 1 &&
      nodes[2].data == Info(a1) && nodes[1 + Size(a) + 1].data == Info(b1) &&
      nodes[2].x == nodes[1 + Size(a) + 1].x == -375 && nodes[2].y == nodes[1 + Size(a) + 1].y == 200
  {
    var a := Tree("A", "A", None, Present([a1]));
    var b := Tree("B", "B", None, Present([b1]));
    var r := Tree("R", "R", None, Present([a, b]));
    TwoChildrenLayout(r, a, b, 0, 0, 0);
    OnlyChildAt(a, a1, -250, 100, 0);
    OnlyChildAt(b, b1, -250, 100, 1);
    LayoutSize(a, -250, 100, 0);
    var la := LayoutNodes(a, -250, 100, 0);
    var lb := LayoutNodes(b, -250, 100, 1);
    var nodes := LayoutNodes(r, 0, 0, 0);
    assert nodes[2] == la[1];
    assert nodes[1 + Size(a) + 1] == lb[1];
  }

  // ---- Edges ----

  function TargetsOf(es: seq<FlowEdge>): (r: seq<string>)
    ensures |r| == |es| && forall k :: 0 <= k < |es| ==> r[k] == es[k].target
  {
    if es == [] then [] else [es[0].target] + TargetsOf(es[1..])
  }

  function Codes(s: seq<Tree>): (r: seq<string>)
    ensures |r| == |s| && forall k :: 0 <= k < |s| ==> r[k] == s[k].code
  {
    if s == [] then [] else [s[0].code] + Codes(s[1..])
  }

  lemma TargetsOfAppend(a: seq<FlowEdge>, b: seq<FlowEdge>)
    ensures TargetsOf(a + b) == TargetsOf(a) + TargetsOf(b)
  {
    assert forall k :: 0 <= k < |a + b| ==> TargetsOf(a + b)[k] == (TargetsOf(a) + TargetsOf(b))[k];
  }

  lemma CodesAppend(a: seq<Tree>, b: seq<Tree>)
    ensures Codes(a + b) == Codes(a) + Codes(b)
  {
    assert forall k :: 0 <= k < |a + b| ==> Codes(a + b)[k] == (Codes(a) + Codes(b))[k];
  }

  /** Every unit that has children has a non-empty code, so `if (parent)` never skips an edge. */
  ghost predicate ParentsNamed(t: Tree) {
    forall m :: m in PreOrder(t) && Kids(m) != [] ==> m.code != ""
  }

  lemma ChildParentsNamed(t: Tree, cs: seq<Tree>, j: int)
    requires t.children == Present(cs) && 0 <= j < |cs| && ParentsNamed(t)
    ensures ParentsNamed(cs[j])
  {
    forall m | m in PreOrder(cs[j]) ensures m in PreOrder(t) {
      PreOrderListContains(cs, j, m);
    }
  }

  /** One edge per linked child, pushed in the pre-order of the child. */
  lemma {:induction false} EdgeTargets(t: Tree, parent: Option<string>)
    requires ParentsNamed(t)
    ensures TargetsOf(LayoutEdges(t, parent)) == Codes(if Truthy(parent) then PreOrder(t) else PreOrder(t)[1..])
    decreases t, 1
  {
    var self := if Truthy(parent) then [FlowEdge(parent.value + "-" + t.code, parent.value, t.code, "smoothstep")] else [];
    match t.children
    case Absent =>
      assert PreOrder(t)[1..] == [];
    case Present(cs) =>
      if cs != [] {
        assert t in PreOrder(t) && Kids(t) != [];
      }
      forall j | 0 <= j < |cs| ensures ParentsNamed(cs[j]) {
        ChildParentsNamed(t, cs, j);
      }
      EdgeListTargets(cs, t.code);
      TargetsOfAppend(self, EdgeList(cs, t.code));
      CodesAppend([t], PreOrderList(cs));
      assert PreOrder(t)[1..] == PreOrderList(cs);
  }

  lemma {:induction false} EdgeListTargets(cs: seq<Tree>, parent: string)
    requires forall j :: 0 <= j < |cs| ==> ParentsNamed(cs[j])
    requires cs != [] ==> parent != ""
    ensures TargetsOf(EdgeList(cs, parent)) == Codes(PreOrderList(cs))
    decreases cs, 0
  {
    if cs != [] {
      EdgeTargets(cs[0], Some(parent));
      EdgeListTargets(cs[1..], parent);
      TargetsOfAppend(LayoutEdges(cs[0], Some(parent)), EdgeList(cs[1..], parent));
      CodesAppend(PreOrder(cs[0]), PreOrderList(cs[1..]));
    }
  }

  /** Without any extra assumption: never more edges than non-root units. */
  lemma {:induction false} EdgeCountBound(t: Tree, parent: Option<string>)
    ensures |LayoutEdges(t, parent)| + (if Truthy(parent) then 0 else 1) <= Size(t)
    decreases t, 1
  {
    match t.children
    case Absent =>
    case Present(cs) => EdgeListCountBound(cs, t.code);
  }

  lemma {:induction false} EdgeListCountBound(cs: seq<Tree>, parent: string)
    ensures |EdgeList(cs, parent)| <= SizeList(cs)
    decreases cs, 0
  {
    if cs != [] {
      EdgeCountBound(cs[0], Some(parent));
      EdgeListCountBound(cs[1..], parent);
    }
  }

  /**
   * When every unit with children has a non-empty code, the layout has one
   * edge less than nodes, and edge k ends at node k + 1.
   */
  lemma EdgesFollowNodes(t: Tree, parentX: int, parentY: int)
    requires ParentsNamed(t)
    ensures |LayoutEdges(t, None)| + 1 == |LayoutNodes(t, parentX, parentY, 0)| == Size(t)
    ensures forall k :: 0 <= k < |LayoutEdges(t, None)| ==>
      LayoutEdges(t, None)[k].target == LayoutNodes(t, parentX, parentY, 0)[k + 1].id
  {
    var nodes := LayoutNodes(t, parentX, parentY, 0);
    var edges := LayoutEdges(t, None);
    EdgeTargets(t, None);
    LayoutFollowsPreOrder(t, parentX, parentY, 0);
    PreOrderSize(t);
    forall k | 0 <= k < |edges| ensures edges[k].target == nodes[k + 1].id {
      assert TargetsOf(edges)[k] == Codes(PreOrder(t)[1..])[k];
      assert DataOf(nodes)[k + 1] == Infos(PreOrder(t))[k + 1];
    }
  }

  /**
   * `e` joins a unit of `t` to one of that unit's own children. Units are
   * matched by code, so this reads as parent and child only when the codes
   * in `t` are unique, as they are in the registry's data.
   */
  ghost predicate IsTreeEdge(t: Tree, e: FlowEdge) {
    exists m, c :: m in PreOrder(t) && c in Kids(m) && m.code == e.source && c.code == e.target
  }

  ghost predicate WellFormedEdge(t: Tree, e: FlowEdge) {
    IsTreeEdge(t, e) && e.id == e.source + "-" + e.target && e.kind == "smoothstep"
  }

  lemma ChildInPreOrder(t: Tree, c: Tree)
    requires c in Kids(t)
    ensures c in PreOrder(t)
  {
    var cs := t.children.nodes;
    var j :| 0 <= j < |cs| && cs[j] == c;
    PreOrderSize(c);
    PreOrderListContains(cs, j, c);
  }

  lemma {:induction false} EdgesInTree(root: Tree, t: Tree, parent: Option<string>)
    requires t in PreOrder(root)
    requires Truthy(parent) ==> exists p :: p in PreOrder(root) && t in Kids(p) && p.code == parent.value
    ensures forall e :: e in LayoutEdges(t, parent) ==> WellFormedEdge(root, e)
    decreases t, 1
  {
    var own := if Truthy(parent) then [FlowEdge(parent.value + "-" + t.code, parent.value, t.code, "smoothstep")] else [];
    if Truthy(parent) {
      var p :| p in PreOrder(root) && t in Kids(p) && p.code == parent.value;
      assert IsTreeEdge(root, own[0]);
    }
    match t.children
    case Absent =>
      assert LayoutEdges(t, parent) == own + [];
    case Present(cs) =>
      EdgeListInTree(root, t, cs);
      assert LayoutEdges(t, parent) == own + EdgeList(cs, t.code);
  }

  lemma {:induction false} EdgeListInTree(root: Tree, t: Tree, cs: seq<Tree>)
    requires t in PreOrder(root)
    requires forall c :: c in cs ==> c in Kids(t)
    ensures forall e :: e in EdgeList(cs, t.code) ==> WellFormedEdge(root, e)
    decreases cs, 0
  {
    if cs != [] {
      ChildInPreOrder(t, cs[0]);
      PreOrderTrans(root, t, cs[0]);
      EdgesInTree(root, cs[0], Some(t.code));
      EdgeListInTree(root, t, cs[1..]);
    }
  }

  /**
   * Every edge of the layout joins a unit to one of its children, is named
   * `source-target`, and both of its ends are ids of nodes of the layout.
   */
  lemma EdgesReferenceNodes(t: Tree, parentX: int, parentY: int)
    ensures forall e :: e in LayoutEdges(t, None) ==>
      WellFormedEdge(t, e) &&
      IsNodeId(LayoutNodes(t, parentX, parentY, 0), e.source) &&
      IsNodeId(LayoutNodes(t, parentX, parentY, 0), e.target)
  {
    var nodes := LayoutNodes(t, parentX, parentY, 0);
    PreOrderSize(t);
    EdgesInTree(t, t, None);
    forall e | e in LayoutEdges(t, None)
      ensures WellFormedEdge(t, e)
      ensures IsNodeId(nodes, e.source) && IsNodeId(nodes, e.target)
    {
      var m, c :| m in PreOrder(t) && c in Kids(m) && m.code == e.source && c.code == e.target;
      ChildInPreOrder(m, c);
      PreOrderTrans(t, m, c);
      NodeOfUnit(t, parentX, parentY, m);
      NodeOfUnit(t, parentX, parentY, c);
    }
  }

  /** Some node of `ns` has the id `id`. */
  ghost predicate IsNodeId(ns: seq<FlowNode>, id: string) {
    exists k :: 0 <= k < |ns| && ns[k].id == id
  }

  /** Every unit of the tree is the id of some node of the layout. */
  lemma NodeOfUnit(t: Tree, parentX: int, parentY: int, m: Tree)
    requires m in PreOrder(t)
    ensures IsNodeId(LayoutNodes(t, parentX, parentY, 0), m.code)
  {
    var nodes := LayoutNodes(t, parentX, parentY, 0);
    LayoutFollowsPreOrder(t, parentX, parentY, 0);
    var k :| 0 <= k < |PreOrder(t)| && PreOrder(t)[k] == m;
    assert DataOf(nodes)[k] == Infos(PreOrder(t))[k];
    assert nodes[k].id == m.code;
  }
}
