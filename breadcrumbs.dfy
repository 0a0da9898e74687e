/** `getPathArray`: the breadcrumb trail of the page, read off the linked path chain. */
module Breadcrumbs {
  import opened Wrappers
  import opened OrgTree
  import opened Sequences

  /** A breadcrumb entry keeps only the code and the label; the unit type is dropped. */
  datatype Crumb = Crumb(code: string, preferredLabel: string)

  function CrumbOf(e: PathElem): Crumb {
    Crumb(e.code, e.preferredLabel)
  }

  function Crumbs(es: seq<PathElem>): (r: seq<Crumb>)
    ensures |r| == |es| && forall k :: 0 <= k < |es| ==> r[k] == CrumbOf(es[k])
  {
    if es == [] then [] else [CrumbOf(es[0])] + Crumbs(es[1..])
  }

  lemma CrumbsStep(e: PathElem)
    ensures Crumbs(Chain(e)) == [CrumbOf(e)] + Crumbs(ChainFrom(e.child))
  {
    assert Chain(e) == [e] + ChainFrom(e.child);
    assert Crumbs([e] + ChainFrom(e.child))[1..] == Crumbs(ChainFrom(e.child));
  }

  /** One loop step: the pushed entry moves from the pending trail onto the result. */
  lemma PushStep(result: seq<Crumb>, e: PathElem, trail: seq<Crumb>)
    requires result + Crumbs(Chain(e)) == trail
    ensures (result + [CrumbOf(e)]) + Crumbs(ChainFrom(e.child)) == trail
  {
    CrumbsStep(e);
    AppendAssoc(result, [CrumbOf(e)], Crumbs(ChainFrom(e.child)));
  }

  /** Walk the chain from the root, pushing one entry per element, until `child` is absent. */
  method GetPathArray(path: Option<PathElem>) returns (result: seq<Crumb>)
    ensures path.None? ==> result == []
    ensures result == Crumbs(ChainFrom(path))
  {
    if path.None? {
      return [];
    }
    ghost var trail := Crumbs(ChainFrom(path));
    result := [];
    var current := path;
    while current.Some?
      invariant result + Crumbs(ChainFrom(current)) == trail
      decreases |ChainFrom(current)|
    {
      var e := current.value;
      PushStep(result, e, trail);
      result := result + [Crumb(e.code, e.preferredLabel)];
      current := e.child;
    }
    assert result == result + [];
  }

  /** The chain starts at the root, each element links to the next, and the last has no `child`. */
  lemma {:induction false} ChainLinks(p: PathElem)
    ensures Chain(p)[0] == p
    ensures Chain(p)[|Chain(p)| - 1].child.None?
    ensures forall k :: 0 <= k < |Chain(p)| - 1 ==> Chain(p)[k].child == Some(Chain(p)[k + 1])
    decreases p
  {
    match p.child
    case None =>
    case Some(c) =>
      ChainLinks(c);
      forall k | 0 <= k < |Chain(p)| - 1 ensures Chain(p)[k].child == Some(Chain(p)[k + 1]) {
        if k > 0 {
          assert Chain(p)[k] == Chain(c)[k - 1];
        }
      }
  }

  /** The chain that links the given units, first to last. */
  function LinkUnits(units: seq<UnitInfo>): (r: PathElem)
    requires |units| > 0
    decreases |units|
  {
    var u := units[0];
    PathElem(u.code, u.preferredLabel, u.unitType,
             if |units| == 1 then None else Some(LinkUnits(units[1..])))
  }

  /** Breadcrumb round trip: a chain root -> a -> b -> c flattens to [root, a, b, c]. */
  lemma {:induction false} LinkUnitsRoundTrip(units: seq<UnitInfo>)
    requires |units| > 0
    ensures |Chain(LinkUnits(units))| == |units|
    ensures forall k :: 0 <= k < |units| ==>
      CrumbOf(Chain(LinkUnits(units))[k]) == Crumb(units[k].code, units[k].preferredLabel)
    decreases |units|
  {
    if |units| > 1 {
      LinkUnitsRoundTrip(units[1..]);
      var p := LinkUnits(units);
      assert Chain(p) == [p] + Chain(LinkUnits(units[1..]));
    }
  }
}
