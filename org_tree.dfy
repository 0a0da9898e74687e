/**
 * The two hierarchy shapes the upstream registry returns: the unit tree
 * (`OrgmaMonadaTreeDto`) and the root-to-unit chain (`OrgmaPathDto`), with the
 * structural functions (size, pre-order, depth) the rest of the model is
 * specified by.
 */
module OrgTree {
  import opened Wrappers

  /** An organisational unit with its optional `children` array. */
  datatype Tree = Tree(code: string, preferredLabel: string, unitType: Option<int>, children: Children)

  /** `children` is either absent or an array, possibly empty; the two differ for the search filter. */
  datatype Children = Absent | Present(nodes: seq<Tree>)

  /** One element of a breadcrumb chain with the optional link to the next, deeper element. */
  datatype PathElem = PathElem(code: string, preferredLabel: string, unitType: Option<int>, child: Option<PathElem>)

  /** The fields of an organisation (`FMitrooForeasDto`) the model reads. */
  datatype Organization = Organization(code: string, preferredLabel: string)

  /** The fields of a flat organisational unit (`OrgmaMonadaDto`) the model reads. */
  datatype Unit = Unit(code: string, preferredLabel: string, unitType: Option<int>)

  /** The fields of a unit that survive every transformation of the tree. */
  datatype UnitInfo = UnitInfo(code: string, preferredLabel: string, unitType: Option<int>)

  function Info(t: Tree): UnitInfo {
    UnitInfo(t.code, t.preferredLabel, t.unitType)
  }

  /** Absent and empty `children` both mean: no child units. */
  function Kids(t: Tree): seq<Tree> {
    match t.children
    case Absent => []
    case Present(cs) => cs
  }

  /** Number of units in the tree. */
  function Size(t: Tree): nat {
    match t.children
    case Absent => 1
    case Present(cs) => 1 + SizeList(cs)
  }

  function SizeList(cs: seq<Tree>): nat {
    if cs == [] then 0 else Size(cs[0]) + SizeList(cs[1..])
  }

  /** All units, each before its children, children in array order. */
  function PreOrder(t: Tree): seq<Tree> {
    match t.children
    case Absent => [t]
    case Present(cs) => [t] + PreOrderList(cs)
  }

  function PreOrderList(cs: seq<Tree>): seq<Tree> {
    if cs == [] then [] else PreOrder(cs[0]) + PreOrderList(cs[1..])
  }

  /** The depth of every unit of `PreOrder(t)`, counting from `d` at the root. */
  function Depths(t: Tree, d: nat): seq<nat> {
    match t.children
    case Absent => [d]
    case Present(cs) => [d] + DepthsList(cs, d + 1)
  }

  function DepthsList(cs: seq<Tree>, d: nat): seq<nat> {
    if cs == [] then [] else Depths(cs[0], d) + DepthsList(cs[1..], d)
  }

  function Infos(s: seq<Tree>): (r: seq<UnitInfo>)
    ensures |r| == |s|
    ensures forall k :: 0 <= k < |s| ==> r[k] == Info(s[k])
  {
    if s == [] then [] else [Info(s[0])] + Infos(s[1..])
  }

  lemma InfosAppend(a: seq<Tree>, b: seq<Tree>)
    ensures Infos(a + b) == Infos(a) + Infos(b)
  {
  }

  lemma {:induction false} PreOrderListAppend(a: seq<Tree>, b: seq<Tree>)
    ensures PreOrderList(a + b) == PreOrderList(a) + PreOrderList(b)
    decreases |a|
  {
    if a != [] {
      assert (a + b)[0] == a[0] && (a + b)[1..] == a[1..] + b;
      PreOrderListAppend(a[1..], b);
    } else {
      assert a + b == b;
    }
  }

  lemma {:induction false} SizeListAppend(a: seq<Tree>, b: seq<Tree>)
    ensures SizeList(a + b) == SizeList(a) + SizeList(b)
    decreases |a|
  {
    if a != [] {
      assert (a + b)[0] == a[0] && (a + b)[1..] == a[1..] + b;
      SizeListAppend(a[1..], b);
    } else {
      assert a + b == b;
    }
  }

  /** The pre-order lists every unit once: its length is the size, and the root comes first. */
  lemma {:induction false} PreOrderSize(t: Tree)
    ensures |PreOrder(t)| == Size(t) && PreOrder(t)[0] == t
    decreases t, 1
  {
    match t.children
    case Absent =>
    case Present(cs) => PreOrderListSize(cs);
  }

  lemma {:induction false} PreOrderListSize(cs: seq<Tree>)
    ensures |PreOrderList(cs)| == SizeList(cs)
    decreases cs, 0
  {
    if cs != [] {
      PreOrderSize(cs[0]);
      PreOrderListSize(cs[1..]);
    }
  }

  lemma {:induction false} DepthsSize(t: Tree, d: nat)
    ensures |Depths(t, d)| == Size(t) && Depths(t, d)[0] == d
    ensures forall k :: 0 <= k < |Depths(t, d)| ==> Depths(t, d)[k] >= d
    decreases t, 1
  {
    match t.children
    case Absent =>
    case Present(cs) => DepthsListSize(cs, d + 1);
  }

  lemma {:induction false} DepthsListSize(cs: seq<Tree>, d: nat)
    ensures |DepthsList(cs, d)| == SizeList(cs)
    ensures forall k :: 0 <= k < |DepthsList(cs, d)| ==> DepthsList(cs, d)[k] >= d
    decreases cs, 0
  {
    if cs != [] {
      DepthsSize(cs[0], d);
      DepthsListSize(cs[1..], d);
    }
  }

  /** A child's whole subtree is part of its parent's pre-order. */
  lemma {:induction false} PreOrderListContains(cs: seq<Tree>, j: int, m: Tree)
    requires 0 <= j < |cs| && m in PreOrder(cs[j])
    ensures m in PreOrderList(cs)
    decreases |cs|
  {
    if j > 0 {
      PreOrderListContains(cs[1..], j - 1, m);
    }
  }

  /** A unit of a subtree is a unit of every tree containing that subtree. */
  lemma {:induction false} PreOrderTrans(c: Tree, a: Tree, m: Tree)
    requires a in PreOrder(c) && m in PreOrder(a)
    ensures m in PreOrder(c)
    decreases c
  {
    if a != c {
      var cs := c.children.nodes;
      var j := PreOrderListIndex(cs, a);
      PreOrderTrans(cs[j], a, m);
      PreOrderListContains(cs, j, m);
    }
  }

  /** Which child's subtree a unit of a children list belongs to. */
  lemma {:induction false} PreOrderListIndex(cs: seq<Tree>, a: Tree) returns (j: int)
    requires a in PreOrderList(cs)
    ensures 0 <= j < |cs| && a in PreOrder(cs[j])
    decreases |cs|
  {
    if a in PreOrder(cs[0]) {
      j := 0;
    } else {
      var j' := PreOrderListIndex(cs[1..], a);
      j := j' + 1;
    }
  }

  /** The elements of a chain, from the given element to the one without `child`. */
  function Chain(p: PathElem): (r: seq<PathElem>)
    ensures |r| >= 1 && r[0] == p
  {
    match p.child
    case None => [p]
    case Some(c) => [p] + Chain(c)
  }

  /** The chain of an optional element; empty when the element is absent. */
  function ChainFrom(p: Option<PathElem>): seq<PathElem> {
    match p
    case None => []
    case Some(e) => Chain(e)
  }
}
