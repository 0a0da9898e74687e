/**
 * The search filter of the hierarchy outline (`filterTree` in the tree view):
 * a unit survives when its label or code contains the search term, ignoring
 * case, or when one of its descendants survives.
 */
module TreeFilter {
  import opened Wrappers
  import opened Strings
  import opened Sequences
  import opened OrgTree

  /** The lower-cased term occurs in the lower-cased label or in the lower-cased code. */
  predicate Matches(n: Tree, term: string) {
    Contains(Lower(n.preferredLabel), Lower(term)) || Contains(Lower(n.code), Lower(term))
  }

  /**
   * One step of `filterTree`: a matching unit is kept with all of its children;
   * a non-matching unit with a `children` array is kept with the surviving
   * children if there is at least one; everything else is dropped (`null`).
   */
  function FilterNode(n: Tree, term: string): (r: Option<Tree>)
    ensures Matches(n, term) ==> r == Some(n)
    ensures r.Some? ==> Info(r.value) == Info(n)
  {
    var matches := Matches(n, term);
    match n.children
    case Present(cs) =>
      var kids := if matches then cs else FilterList(cs, term);
      if matches || |kids| > 0 then Some(n.(children := Present(kids))) else None
    case Absent =>
      if matches then Some(n) else None
  }

  /** `children.map(filterTree).filter(Boolean)`. */
  function FilterList(cs: seq<Tree>, term: string): seq<Tree> {
    if cs == [] then []
    else (match FilterNode(cs[0], term) case Some(r) => [r] case None => []) + FilterList(cs[1..], term)
  }

  /** The memoised value of the view: the unfiltered tree while the search box is empty. */
  function FilteredTree(tree: Tree, searchTerm: string): (r: Option<Tree>)
    ensures searchTerm == "" ==> r == Some(tree)
    ensures r == FilterNode(tree, searchTerm)
  {
    if searchTerm == "" then Some(tree)
    else FilterNode(tree, searchTerm)
  }

  /** The empty term occurs in every label, so the bypass changes nothing. */
  lemma EmptyTermMatches(n: Tree)
    ensures Matches(n, "")
  {
    assert Lower("") == "";
    ContainsEmpty(Lower(n.code));
  }

  /** The pruned children are exactly the non-null results of filtering each child, in order. */
  lemma {:induction false} FilterListIsMapFilter(cs: seq<Tree>, term: string)
    ensures FilterList(cs, term) == Somes(seq(|cs|, i requires 0 <= i < |cs| => FilterNode(cs[i], term)))
    decreases |cs|
  {
    var mapped := seq(|cs|, i requires 0 <= i < |cs| => FilterNode(cs[i], term));
    if cs != [] {
      FilterListIsMapFilter(cs[1..], term);
      assert mapped[1..] == seq(|cs[1..]|, i requires 0 <= i < |cs[1..]| => FilterNode(cs[1..][i], term));
    }
  }

  /** A non-matching unit survives iff it has a `children` array and some child survives. */
  lemma NonMatchingKeptIff(n: Tree, term: string)
    requires !Matches(n, term)
    ensures FilterNode(n, term).Some? <==>
      n.children.Present? && exists i :: 0 <= i < |n.children.nodes| && FilterNode(n.children.nodes[i], term).Some?
    ensures FilterNode(n, term).Some? ==> FilterNode(n, term).value.children == Present(FilterList(n.children.nodes, term))
  {
    if n.children.Present? {
      var cs := n.children.nodes;
      var mapped := seq(|cs|, i requires 0 <= i < |cs| => FilterNode(cs[i], term));
      FilterListIsMapFilter(cs, term);
      assert forall i :: 0 <= i < |cs| ==> mapped[i] == FilterNode(cs[i], term);
    }
  }

  ghost predicate NoMatchIn(s: seq<Tree>, term: string) {
    forall k :: 0 <= k < |s| ==> !Matches(s[k], term)
  }

  lemma NoMatchInAppend(a: seq<Tree>, b: seq<Tree>, term: string)
    ensures NoMatchIn(a + b, term) <==> NoMatchIn(a, term) && NoMatchIn(b, term)
  {
    if NoMatchIn(a, term) && NoMatchIn(b, term) {
      forall k | 0 <= k < |a + b| ensures !Matches((a + b)[k], term) {
        if k >= |a| {
          assert (a + b)[k] == b[k - |a|];
        }
      }
    }
    if NoMatchIn(a + b, term) {
      forall k | 0 <= k < |b| ensures !Matches(b[k], term) {
        assert (a + b)[|a| + k] == b[k];
      }
      forall k | 0 <= k < |a| ensures !Matches(a[k], term) {
        assert (a + b)[k] == a[k];
      }
    }
  }

  /** The result is `null` iff no unit anywhere in the tree matches. */
  lemma {:induction false} FilterNoneIff(t: Tree, term: string)
    ensures FilterNode(t, term).None? <==> NoMatchIn(PreOrder(t), term)
    decreases t, 1
  {
    match t.children
    case Absent =>
    case Present(cs) =>
      FilterListEmptyIff(cs, term);
      NoMatchInAppend([t], PreOrderList(cs), term);
      assert PreOrder(t) == [t] + PreOrderList(cs);
      assert NoMatchIn([t], term) <==> !Matches(t, term) by { assert [t][0] == t; }
  }

  lemma {:induction false} FilterListEmptyIff(cs: seq<Tree>, term: string)
    ensures FilterList(cs, term) == [] <==> NoMatchIn(PreOrderList(cs), term)
    decreases cs, 0
  {
    if cs != [] {
      FilterNoneIff(cs[0], term);
      FilterListEmptyIff(cs[1..], term);
      NoMatchInAppend(PreOrder(cs[0]), PreOrderList(cs[1..]), term);
    }
  }

  /**
   * Pruning only deletes units: the pre-order of the result is a subsequence
   * of the pre-order of the input, with each unit's code, label and type intact.
   */
  lemma {:induction false} FilterPreOrderSubseq(t: Tree, term: string)
    requires FilterNode(t, term).Some?
    ensures IsSubseq(Infos(PreOrder(FilterNode(t, term).value)), Infos(PreOrder(t)))
    decreases t, 1
  {
    var r := FilterNode(t, term).value;
    if Matches(t, term) {
      SubseqRefl(Infos(PreOrder(t)));
    } else {
      var cs := t.children.nodes;
      var kept := FilterList(cs, term);
      assert r.children == Present(kept);
      FilterListSubseq(cs, term);
      InfosAppend([r], PreOrderList(kept));
      InfosAppend([t], PreOrderList(cs));
      SubseqRefl(Infos([t]));
      SubseqAppend(Infos([r]), Infos([t]), Infos(PreOrderList(kept)), Infos(PreOrderList(cs)));
    }
  }

  lemma {:induction false} FilterListSubseq(cs: seq<Tree>, term: string)
    ensures IsSubseq(Infos(PreOrderList(FilterList(cs, term))), Infos(PreOrderList(cs)))
    decreases cs, 0
  {
    if cs != [] {
      var rest := FilterList(cs[1..], term);
      FilterListSubseq(cs[1..], term);
      InfosAppend(PreOrder(cs[0]), PreOrderList(cs[1..]));
      match FilterNode(cs[0], term)
      case Some(r0) =>
        assert FilterList(cs, term) == [r0] + rest;
        PreOrderListAppend([r0], rest);
        assert PreOrderList([r0]) == PreOrder(r0);
        InfosAppend(PreOrder(r0), PreOrderList(rest));
        FilterPreOrderSubseq(cs[0], term);
        SubseqAppend(Infos(PreOrder(r0)), Infos(PreOrder(cs[0])), Infos(PreOrderList(rest)), Infos(PreOrderList(cs[1..])));
        assert PreOrderList(cs) == PreOrder(cs[0]) + PreOrderList(cs[1..]);
      case None =>
        assert FilterList(cs, term) == rest;
        SubseqEmpty(Infos(PreOrder(cs[0])));
        SubseqAppend([], Infos(PreOrder(cs[0])), Infos(PreOrderList(rest)), Infos(PreOrderList(cs[1..])));
        assert [] + Infos(PreOrderList(rest)) == Infos(PreOrderList(rest));
        assert PreOrderList(cs) == PreOrder(cs[0]) + PreOrderList(cs[1..]);
    }
  }

  /** The result never has more units than the input. */
  lemma FilterSizeBound(t: Tree, term: string)
    requires FilterNode(t, term).Some?
    ensures Size(FilterNode(t, term).value) <= Size(t)
  {
    FilterPreOrderSubseq(t, term);
    SubseqLength(Infos(PreOrder(FilterNode(t, term).value)), Infos(PreOrder(t)));
    PreOrderSize(t);
    PreOrderSize(FilterNode(t, term).value);
  }

  /** A unit whose own subtree holds a match is kept in the filtered tree. */
  lemma {:induction false} FilterKeepsLive(t: Tree, a: Tree, term: string)
    requires a in PreOrder(t) && FilterNode(a, term).Some?
    ensures FilterNode(t, term).Some?
    ensures Info(a) in Infos(PreOrder(FilterNode(t, term).value))
    decreases t, 1
  {
    LiveSubtree(t, a, term);
    var r := FilterNode(t, term).value;
    if a == t || Matches(t, term) {
      PreOrderSize(r);
      assert Infos(PreOrder(r))[0] == Info(r);
      if Matches(t, term) {
        assert Info(a) in Infos(PreOrder(t));
      }
    } else {
      var cs := t.children.nodes;
      FilterListKeepsLive(cs, a, term);
      InfosAppend([r], PreOrderList(FilterList(cs, term)));
    }
  }

  lemma {:induction false} FilterListKeepsLive(cs: seq<Tree>, a: Tree, term: string)
    requires a in PreOrderList(cs) && FilterNode(a, term).Some?
    ensures Info(a) in Infos(PreOrderList(FilterList(cs, term)))
    decreases cs, 0
  {
    var rest := FilterList(cs[1..], term);
    if a in PreOrder(cs[0]) {
      FilterKeepsLive(cs[0], a, term);
      var r0 := FilterNode(cs[0], term).value;
      assert FilterList(cs, term) == [r0] + rest;
      PreOrderListAppend([r0], rest);
      assert PreOrderList([r0]) == PreOrder(r0);
      InfosAppend(PreOrder(r0), PreOrderList(rest));
    } else {
      FilterListKeepsLive(cs[1..], a, term);
      var head := match FilterNode(cs[0], term) case Some(r0) => [r0] case None => [];
      assert FilterList(cs, term) == head + rest;
      PreOrderListAppend(head, rest);
      InfosAppend(PreOrderList(head), PreOrderList(rest));
    }
  }

  /** If a unit survives, so does every tree it is part of. */
  lemma LiveSubtree(t: Tree, a: Tree, term: string)
    requires a in PreOrder(t) && FilterNode(a, term).Some?
    ensures FilterNode(t, term).Some?
  {
    FilterNoneIff(a, term);
    FilterNoneIff(t, term);
    var k :| 0 <= k < |PreOrder(a)| && Matches(PreOrder(a)[k], term);
    PreOrderTrans(t, a, PreOrder(a)[k]);
  }

  /**
   * Search keeps context: every matching unit, and every ancestor of a
   * matching unit, appears in the filtered tree.
   */
  lemma FilterPreservesAncestry(t: Tree, a: Tree, m: Tree, term: string)
    requires a in PreOrder(t) && m in PreOrder(a) && Matches(m, term)
    ensures FilterNode(t, term).Some?
    ensures Info(a) in Infos(PreOrder(FilterNode(t, term).value))
    ensures Info(m) in Infos(PreOrder(FilterNode(t, term).value))
  {
    FilterNoneIff(a, term);
    FilterKeepsLive(t, a, term);
    PreOrderTrans(t, a, m);
    FilterKeepsLive(t, m, term);
  }

  /**
   * The match rule spelled out: some offset of the lowered label, or of the
   * lowered code, holds the lowered term.
   */
  lemma MatchesIff(n: Tree, term: string)
    ensures Matches(n, term) <==>
      (exists i :: OccursAt(Lower(n.preferredLabel), Lower(term), i)) ||
      (exists i :: OccursAt(Lower(n.code), Lower(term), i))
  {
    ContainsIff(Lower(n.preferredLabel), Lower(term));
    ContainsIff(Lower(n.code), Lower(term));
  }

  /**
   * A unit that matches a term also matches every piece of it that holds no
   * capital sigma.
   */
  lemma MatchMonotone(n: Tree, q1: string, q2: string)
    requires Contains(q2, q1) && CapitalSigma !in q1 && Matches(n, q2)
    ensures Matches(n, q1)
  {
    LowerPreservesContains(q2, q1);
    if Contains(Lower(n.preferredLabel), Lower(q2)) {
      ContainsTrans(Lower(n.preferredLabel), Lower(q2), Lower(q1));
    } else {
      ContainsTrans(Lower(n.code), Lower(q2), Lower(q1));
    }
  }

  /**
   * A stricter term never finds results where a looser one without a capital
   * sigma finds none.
   */
  lemma FilterMonotone(t: Tree, q1: string, q2: string)
    requires Contains(q2, q1) && CapitalSigma !in q1 && FilterNode(t, q2).Some?
    ensures FilterNode(t, q1).Some?
  {
    FilterNoneIff(t, q2);
    FilterNoneIff(t, q1);
    var k :| 0 <= k < |PreOrder(t)| && Matches(PreOrder(t)[k], q2);
    MatchMonotone(PreOrder(t)[k], q1, q2);
  }

  /**
   * As written, narrowing the search can bring results back: the label "ΑΣΒ"
   * lowers to "ασβ" and matches the term "ΑΣΒ", but its prefix "ΑΣ" lowers to
   * "ας", with the final sigma, and finds nothing.
   */
  lemma SearchNotMonotone()
    ensures var name := ['\U{0391}', CapitalSigma, '\U{0392}'];
      var t := Tree("1", name, None, Absent);
      Contains(name, name[..2]) && FilterNode(t, name).Some? && FilterNode(t, name[..2]).None?
  {
    var name := ['\U{0391}', CapitalSigma, '\U{0392}'];
    var t := Tree("1", name, None, Absent);
    var lowered := ['\U{03B1}', SmallSigma, '\U{03B2}'];
    var piece := ['\U{03B1}', FinalSmallSigma];
    LowerSigmaExamples();
    assert name[..2] == ['\U{0391}', CapitalSigma];
    assert Lower(name) == lowered && Lower(name[..2]) == piece;
    assert IsPrefix(name, name);
    assert Matches(t, name) by { assert IsPrefix(lowered, lowered); }
    assert IsPrefix(name[..2], name);
    assert !Contains(lowered, piece) by {
      var rest := [SmallSigma, '\U{03B2}'];
      assert lowered[1..] == rest && rest[1..] == ['\U{03B2}'] && rest[1..][1..] == [];
      assert lowered[..2][1] == SmallSigma;
      assert !IsPrefix(piece, lowered);
      assert !IsPrefix(piece, rest);
      assert !Contains(rest[1..][1..], piece);
      assert !Contains(rest[1..], piece);
      assert !Contains(rest, piece);
    }
    assert Lower("1") == "1";
    assert !Contains("1", piece) by { assert "1"[1..] == ""; }
  }

  /**
   * The evidently intended rule: label or code contains the term once both
   * are case-folded, so that the two small sigmas compare equal.
   */
  predicate FoldedMatches(n: Tree, term: string) {
    Contains(Folded(n.preferredLabel), Folded(term)) || Contains(Folded(n.code), Folded(term))
  }

  /** Under the folded rule, a unit that matches a term matches every piece of it. */
  lemma FoldedMatchMonotone(n: Tree, q1: string, q2: string)
    requires Contains(q2, q1) && FoldedMatches(n, q2)
    ensures FoldedMatches(n, q1)
  {
    FoldedPreservesContains(q2, q1);
    if Contains(Folded(n.preferredLabel), Folded(q2)) {
      ContainsTrans(Folded(n.preferredLabel), Folded(q2), Folded(q1));
    } else {
      ContainsTrans(Folded(n.code), Folded(q2), Folded(q1));
    }
  }

  /** The folded rule finds everything the source's rule finds. */
  lemma FoldedMatchesMore(n: Tree, term: string)
    requires Matches(n, term)
    ensures FoldedMatches(n, term)
  {
    if Contains(Lower(n.preferredLabel), Lower(term)) {
      LowerContainsFolds(n.preferredLabel, term);
    } else {
      LowerContainsFolds(n.code, term);
    }
  }
}
