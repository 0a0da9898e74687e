/**
 * The favourites and recent-searches store of `lib/useFavorites.ts`: two lists
 * of bookmarked organisations, updated in place by the hook's callbacks.
 */
module Favorites {
  import opened Sequences
  import opened OrgTree

  /** How many recent searches are kept. */
  const MaxRecent: nat := 10

  /** A bookmarked organisation with the time it was bookmarked. */
  datatype Favorite = Favorite(code: string, preferredLabel: string, timestamp: int)

  /** The entry recorded for `org` at time `now` (the source reads `Date.now()`). */
  function Entry(org: Organization, now: int): Favorite
  {
    Favorite(org.code, org.preferredLabel, now)
  }

  /** `list.some(fav => fav.code === code)`. */
  predicate HasCode(list: seq<Favorite>, code: string)
  {
    exists i :: 0 <= i < |list| && list[i].code == code
  }

  /** No two entries share a code. */
  predicate DistinctCodes(list: seq<Favorite>)
  {
    forall i, j :: 0 <= i < j < |list| ==> list[i].code != list[j].code
  }

  function KeepOther(code: string): Favorite -> bool
  {
    (f: Favorite) => f.code != code
  }

  /** `list.filter(fav => fav.code !== code)`. */
  function WithoutCode(list: seq<Favorite>, code: string): (r: seq<Favorite>)
    ensures !HasCode(r, code)
    ensures |r| <= |list|
  {
    Filter(list, KeepOther(code))
  }

  /** Every entry that does not carry `code` survives the removal, in order, and nothing else does. */
  lemma WithoutCodeExact(list: seq<Favorite>, code: string)
    ensures forall f :: f in WithoutCode(list, code) <==> f in list && f.code != code
    ensures IsSubseq(WithoutCode(list, code), list)
  {
    forall f ensures f in WithoutCode(list, code) <==> f in list && f.code != code {
      FilterMembers(list, KeepOther(code), f);
    }
    FilterSubseq(list, KeepOther(code));
  }

  /** Removing an absent code changes nothing. */
  lemma WithoutAbsentCode(list: seq<Favorite>, code: string)
    requires !HasCode(list, code)
    ensures WithoutCode(list, code) == list
  {
    FilterAll(list, KeepOther(code));
  }

  /** Deleting entries keeps codes distinct. */
  lemma {:induction false} SubseqKeepsDistinct(a: seq<Favorite>, b: seq<Favorite>)
    requires IsSubseq(a, b) && DistinctCodes(b)
    ensures DistinctCodes(a)
    decreases |b|
  {
    if a != [] {
      if a[0] == b[0] {
        SubseqKeepsDistinct(a[1..], b[1..]);
        forall j | 0 < j < |a| ensures a[0].code != a[j].code {
          SubseqMember(a[1..], b[1..], j - 1);
          var k :| 0 <= k < |b[1..]| && b[1..][k] == a[j];
          assert b[k + 1] == a[j];
        }
      } else {
        SubseqKeepsDistinct(a, b[1..]);
      }
    }
  }

  /** Every element of a subsequence occurs in the longer sequence. */
  lemma {:induction false} SubseqMember(a: seq<Favorite>, b: seq<Favorite>, i: int)
    requires IsSubseq(a, b) && 0 <= i < |a|
    ensures exists k :: 0 <= k < |b| && b[k] == a[i]
    decreases |b|
  {
    if a[0] == b[0] {
      if i > 0 {
        SubseqMember(a[1..], b[1..], i - 1);
        var k :| 0 <= k < |b[1..]| && b[1..][k] == a[1..][i - 1];
        assert b[k + 1] == a[i];
      }
    } else {
      SubseqMember(a, b[1..], i);
      var k :| 0 <= k < |b[1..]| && b[1..][k] == a[i];
      assert b[k + 1] == a[i];
    }
  }

  /** The favourites after `toggleFavorite(org)`. */
  function Toggled(list: seq<Favorite>, org: Organization, now: int): (r: seq<Favorite>)
    ensures HasCode(r, org.code) <==> !HasCode(list, org.code)
  {
    if HasCode(list, org.code) then WithoutCode(list, org.code)
    else
      assert (list + [Entry(org, now)])[|list|].code == org.code;
      list + [Entry(org, now)]
  }

  /** Toggling an organisation that is not a favourite twice leaves the list as it was. */
  lemma {:induction false} ToggleTwiceRestores(list: seq<Favorite>, org: Organization, t1: int, t2: int)
    requires !HasCode(list, org.code)
    ensures Toggled(Toggled(list, org, t1), org, t2) == list
  {
    var e := Entry(org, t1);
    assert (list + [e])[|list|] == e;
    FilterAppend(list, [e], KeepOther(org.code));
    WithoutAbsentCode(list, org.code);
    assert Filter([e], KeepOther(org.code)) == [];
  }

  /**
   * Toggling a favourite twice removes every entry with its code and appends one
   * fresh entry: the bookmark comes back at the end with the new time stamp.
   */
  lemma {:induction false} ToggleTwiceRebookmarks(list: seq<Favorite>, org: Organization, t1: int, t2: int)
    requires HasCode(list, org.code)
    ensures Toggled(Toggled(list, org, t1), org, t2) == WithoutCode(list, org.code) + [Entry(org, t2)]
  {
  }

  /** Toggling keeps the codes distinct. */
  lemma {:induction false} ToggleKeepsDistinct(list: seq<Favorite>, org: Organization, now: int)
    requires DistinctCodes(list)
    ensures DistinctCodes(Toggled(list, org, now))
  {
    if HasCode(list, org.code) {
      WithoutCodeExact(list, org.code);
      SubseqKeepsDistinct(WithoutCode(list, org.code), list);
    } else {
      var r := list + [Entry(org, now)];
      forall i, j | 0 <= i < j < |r| ensures r[i].code != r[j].code {
        if j == |list| {
          assert r[i] == list[i];
        } else {
          assert r[i] == list[i] && r[j] == list[j];
        }
      }
    }
  }

  /** The recent list after `addToRecent(org)`: the new entry first, older ones without its code, at most ten. */
  function PushRecent(recent: seq<Favorite>, e: Favorite): (r: seq<Favorite>)
    ensures 1 <= |r| <= MaxRecent && r[0] == e
  {
    var rest := WithoutCode(recent, e.code);
    var joined := [e] + rest;
    joined[..if |joined| < MaxRecent then |joined| else MaxRecent]
  }

  /**
   * After a push the code of the new entry occurs only at the front, the older
   * entries that stay keep their relative order, and the list is cut only when
   * more than ten entries remain.
   */
  lemma PushRecentShape(recent: seq<Favorite>, e: Favorite)
    ensures var r := PushRecent(recent, e);
      && (forall i :: 1 <= i < |r| ==> r[i].code != e.code)
      && r[1..] <= WithoutCode(recent, e.code)
      && IsSubseq(r[1..], recent)
      && (|r| < MaxRecent ==> r[1..] == WithoutCode(recent, e.code))
  {
    var rest := WithoutCode(recent, e.code);
    var r := PushRecent(recent, e);
    assert r[1..] == rest[..|r| - 1];
    forall i | 1 <= i < |r| ensures r[i].code != e.code {
      assert r[i] == rest[i - 1];
    }
    WithoutCodeExact(recent, e.code);
    PrefixSubseq(r[1..], rest);
    SubseqTrans(r[1..], rest, recent);
  }

  /** Pushing keeps the codes in the recent list distinct. */
  lemma PushRecentKeepsDistinct(recent: seq<Favorite>, e: Favorite)
    requires DistinctCodes(recent)
    ensures DistinctCodes(PushRecent(recent, e))
  {
    var r := PushRecent(recent, e);
    PushRecentShape(recent, e);
    SubseqKeepsDistinct(r[1..], recent);
    forall i, j | 0 <= i < j < |r| ensures r[i].code != r[j].code {
      if i > 0 {
        assert r[i] == r[1..][i - 1] && r[j] == r[1..][j - 1];
      }
    }
  }

  /** Removing the code that only the first entry carries drops exactly that entry. */
  lemma WithoutFrontOnly(r: seq<Favorite>, code: string)
    requires |r| > 0 && r[0].code == code
    requires forall i :: 1 <= i < |r| ==> r[i].code != code
    ensures WithoutCode(r, code) == r[1..]
  {
    FilterCons(r[0], r[1..], KeepOther(code));
    assert r == [r[0]] + r[1..];
    FilterAll(r[1..], KeepOther(code));
  }

  /** Pushing the same organisation twice is one push with the later time stamp. */
  lemma PushRecentAgain(recent: seq<Favorite>, org: Organization, t1: int, t2: int)
    ensures PushRecent(PushRecent(recent, Entry(org, t1)), Entry(org, t2)) == PushRecent(recent, Entry(org, t2))
  {
    var e1, e2 := Entry(org, t1), Entry(org, t2);
    var rest := WithoutCode(recent, org.code);
    var r1 := PushRecent(recent, e1);
    var n := if |rest| < MaxRecent - 1 then |rest| else MaxRecent - 1;
    assert r1 == [e1] + rest[..n];
    PushRecentShape(recent, e1);
    WithoutFrontOnly(r1, org.code);
    var joined := [e2] + rest;
    assert PushRecent(recent, e2) == joined[..n + 1];
    assert joined[..n + 1] == [e2] + rest[..n];
    var again := [e2] + r1[1..];
    assert PushRecent(r1, e2) == again[..|again|];
  }

  /** The hook's state: the two lists it keeps (and mirrors to local storage). */
  class FavoritesStore {
    var favorites: seq<Favorite>
    var recentSearches: seq<Favorite>

    /** Both lists start empty. */
    constructor()
      ensures favorites == [] && recentSearches == []
    {
      favorites := [];
      recentSearches := [];
    }

    /** `isFavorite`: some bookmarked entry has this code. */
    function IsFavorite(code: string): bool
      reads this
    {
      HasCode(favorites, code)
    }

    method AddFavorite(org: Organization, now: int)
      modifies this
      ensures favorites == old(favorites) + [Entry(org, now)]
      ensures recentSearches == old(recentSearches)
      ensures IsFavorite(org.code)
    {
      favorites := favorites + [Entry(org, now)];
      assert favorites[|favorites| - 1].code == org.code;
    }

    method RemoveFavorite(code: string)
      modifies this
      ensures favorites == WithoutCode(old(favorites), code)
      ensures recentSearches == old(recentSearches)
      ensures !IsFavorite(code)
    {
      favorites := WithoutCode(favorites, code);
    }

    method ToggleFavorite(org: Organization, now: int)
      modifies this
      ensures favorites == Toggled(old(favorites), org, now)
      ensures IsFavorite(org.code) <==> !old(IsFavorite(org.code))
      ensures recentSearches == old(recentSearches)
    {
      if IsFavorite(org.code) {
        RemoveFavorite(org.code);
      } else {
        AddFavorite(org, now);
      }
    }

    method AddToRecent(org: Organization, now: int)
      modifies this
      ensures recentSearches == PushRecent(old(recentSearches), Entry(org, now))
      ensures favorites == old(favorites)
    {
      recentSearches := PushRecent(recentSearches, Entry(org, now));
    }

    method ClearFavorites()
      modifies this
      ensures favorites == [] && recentSearches == old(recentSearches)
    {
      favorites := [];
    }

    method ClearRecent()
      modifies this
      ensures recentSearches == [] && favorites == old(favorites)
    {
      recentSearches := [];
    }
  }
}
