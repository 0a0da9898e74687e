/**
 * The unit statistics of `StatisticsCard`: a histogram of unit types filled by
 * one pass over the units, and the bar-chart data that ranks the histogram's
 * entries by count and keeps the five largest.
 */
module Statistics {
  import opened Wrappers
  import opened OrgTree
  import opened UnitTypes
  import opened Sequences

  /** How many bars the chart shows. */
  const TopTypes: nat := 5

  /** `if (u.unitType)`: the unit has a type and it is not 0. */
  predicate Counted(u: Unit)
  {
    u.unitType.Some? && u.unitType.value != 0
  }

  /** The number of units whose type is `t`. */
  function CountOf(units: seq<Unit>, t: int): (n: nat)
    ensures n <= |units|
  {
    if units == [] then 0
    else CountOf(units[..|units| - 1], t) + (if units[|units| - 1].unitType == Some(t) then 1 else 0)
  }

  /**
   * `counts` is the histogram of `units`: it has a key exactly for each type
   * other than 0 that some unit carries, and that key's value is the number
   * of units of that type.
   */
  ghost predicate IsHistogram(units: seq<Unit>, counts: map<int, nat>)
  {
    && (forall t :: t in counts <==> t != 0 && CountOf(units, t) > 0)
    && (forall t :: t in counts ==> counts[t] == CountOf(units, t))
  }

  /** The `forEach` that fills `unitTypeCounts`. */
  method CountByType(units: seq<Unit>) returns (counts: map<int, nat>)
    ensures IsHistogram(units, counts)
  {
    counts := map[];
    for i := 0 to |units|
      invariant IsHistogram(units[..i], counts)
    {
      var u := units[i];
      assert units[..i + 1][..i] == units[..i];
      if Counted(u) {
        var t := u.unitType.value;
        var previous := if t in counts then counts[t] else 0;
        counts := counts[t := previous + 1];
      }
    }
    assert units[..|units|] == units;
  }

  /** The `useMemo` block: the number of units and the histogram of their types. */
  method UnitStatistics(units: seq<Unit>) returns (totalUnits: nat, unitTypeCounts: map<int, nat>)
    ensures totalUnits == |units|
    ensures IsHistogram(units, unitTypeCounts)
  {
    totalUnits := |units|;
    unitTypeCounts := CountByType(units);
  }

  /** Every count stored in a histogram is at least one. */
  lemma HistogramPositive(units: seq<Unit>, counts: map<int, nat>, t: int)
    requires IsHistogram(units, counts) && t in counts
    ensures 1 <= counts[t] <= |units|
  {
  }

  /** `keys` lists each key of `counts` exactly once (the order of `Object.entries`). */
  ghost predicate ListsKeys(keys: seq<int>, counts: map<int, nat>)
  {
    && (forall i :: 0 <= i < |keys| ==> keys[i] in counts)
    && (forall t :: t in counts ==> t in keys)
    && (forall i, j :: 0 <= i < j < |keys| ==> keys[i] != keys[j])
  }

  /** The sum of the counts of the listed keys. */
  function SumCounts(counts: map<int, nat>, keys: seq<int>): nat
    requires forall i :: 0 <= i < |keys| ==> keys[i] in counts
  {
    if keys == [] then 0 else counts[keys[0]] + SumCounts(counts, keys[1..])
  }

  /** The sum of `CountOf` over the listed types. */
  function SumCountOf(units: seq<Unit>, keys: seq<int>): nat
  {
    if keys == [] then 0 else CountOf(units, keys[0]) + SumCountOf(units, keys[1..])
  }

  /** How many of the listed types a unit's type equals. */
  function Hits(keys: seq<int>, unitType: Option<int>): nat
  {
    if keys == [] then 0 else (if unitType == Some(keys[0]) then 1 else 0) + Hits(keys[1..], unitType)
  }

  lemma {:induction false} HitsAbsent(keys: seq<int>, k: int)
    requires k !in keys
    ensures Hits(keys, Some(k)) == 0
  {
    if keys != [] {
      HitsAbsent(keys[1..], k);
    }
  }

  /** A type is listed at most once in a duplicate-free list. */
  lemma {:induction false} HitsAtMostOne(keys: seq<int>, unitType: Option<int>)
    requires forall i, j :: 0 <= i < j < |keys| ==> keys[i] != keys[j]
    ensures Hits(keys, unitType) <= 1
  {
    if keys != [] {
      if unitType == Some(keys[0]) {
        assert keys[0] !in keys[1..] by {
          forall j | 0 <= j < |keys[1..]| ensures keys[1..][j] != keys[0] {
            assert keys[1..][j] == keys[j + 1];
          }
        }
        HitsAbsent(keys[1..], keys[0]);
      } else {
        HitsAtMostOne(keys[1..], unitType);
      }
    }
  }

  lemma {:induction false} SumCountOfStep(units: seq<Unit>, keys: seq<int>)
    requires units != []
    ensures SumCountOf(units, keys)
      == SumCountOf(units[..|units| - 1], keys) + Hits(keys, units[|units| - 1].unitType)
  {
    if keys != [] {
      SumCountOfStep(units, keys[1..]);
    }
  }

  /** Each unit adds to the count of at most one listed type. */
  lemma {:induction false} SumCountOfBound(units: seq<Unit>, keys: seq<int>)
    requires forall i, j :: 0 <= i < j < |keys| ==> keys[i] != keys[j]
    ensures SumCountOf(units, keys) <= |units|
    decreases |units|
  {
    if units == [] {
      SumCountOfEmpty(keys);
    } else {
      SumCountOfStep(units, keys);
      SumCountOfBound(units[..|units| - 1], keys);
      HitsAtMostOne(keys, units[|units| - 1].unitType);
    }
  }

  lemma {:induction false} SumCountOfEmpty(keys: seq<int>)
    ensures SumCountOf([], keys) == 0
  {
    if keys != [] {
      SumCountOfEmpty(keys[1..]);
    }
  }

  lemma {:induction false} SumCountsIsSumCountOf(units: seq<Unit>, counts: map<int, nat>, keys: seq<int>)
    requires IsHistogram(units, counts)
    requires forall i :: 0 <= i < |keys| ==> keys[i] in counts
    ensures SumCounts(counts, keys) == SumCountOf(units, keys)
  {
    if keys != [] {
      SumCountsIsSumCountOf(units, counts, keys[1..]);
    }
  }

  /** The counts of a histogram add up to at most the number of units. */
  lemma HistogramTotal(units: seq<Unit>, counts: map<int, nat>, keys: seq<int>)
    requires IsHistogram(units, counts) && ListsKeys(keys, counts)
    ensures SumCounts(counts, keys) <= |units|
  {
    SumCountsIsSumCountOf(units, counts, keys);
    SumCountOfBound(units, keys);
  }

  /** One bar of the chart. */
  datatype ChartEntry = ChartEntry(name: string, count: nat)

  /** `Object.entries(unitTypeCounts).map(...)`: one entry per listed type. */
  function Entries(counts: map<int, nat>, keys: seq<int>): seq<ChartEntry>
    requires forall i :: 0 <= i < |keys| ==> keys[i] in counts
  {
    seq(|keys|, i requires 0 <= i < |keys| => ChartEntry(UnitTypeLabel(Some(keys[i])), counts[keys[i]]))
  }

  predicate NonIncreasing(s: seq<ChartEntry>)
  {
    forall i, j :: 0 <= i < j < |s| ==> s[i].count >= s[j].count
  }

  /** Inserts `e` after every entry whose count is at least `e`'s. */
  function Insert(e: ChartEntry, s: seq<ChartEntry>): (r: seq<ChartEntry>)
    ensures |r| == |s| + 1
  {
    if s == [] || s[0].count < e.count then [e] + s else [s[0]] + Insert(e, s[1..])
  }

  /** `.sort((a, b) => b.count - a.count)`: a stable sort by non-increasing count. */
  function SortByCount(s: seq<ChartEntry>): (r: seq<ChartEntry>)
    ensures |r| == |s|
  {
    if s == [] then [] else Insert(s[|s| - 1], SortByCount(s[..|s| - 1]))
  }

  lemma {:induction false} InsertPermutes(e: ChartEntry, s: seq<ChartEntry>)
    ensures multiset(Insert(e, s)) == multiset(s) + multiset{e}
  {
    if s != [] && s[0].count >= e.count {
      InsertPermutes(e, s[1..]);
      assert s == [s[0]] + s[1..];
    }
  }

  /** Inserting an entry no larger than a bound keeps every entry within the bound. */
  lemma {:induction false} InsertBounded(e: ChartEntry, s: seq<ChartEntry>, c: int)
    requires e.count <= c
    requires forall k :: 0 <= k < |s| ==> s[k].count <= c
    ensures forall k :: 0 <= k < |Insert(e, s)| ==> Insert(e, s)[k].count <= c
  {
    if s != [] && s[0].count >= e.count {
      InsertBounded(e, s[1..], c);
      var r := Insert(e, s);
      assert r == [s[0]] + Insert(e, s[1..]);
      assert forall k :: 1 <= k < |r| ==> r[k] == Insert(e, s[1..])[k - 1];
    }
  }

  lemma {:induction false} InsertSorted(e: ChartEntry, s: seq<ChartEntry>)
    requires NonIncreasing(s)
    ensures NonIncreasing(Insert(e, s))
    ensures Insert(e, s)[0] == (if s == [] || s[0].count < e.count then e else s[0])
  {
    if s != [] && s[0].count >= e.count {
      var rest := s[1..];
      TailSorted(s);
      InsertSorted(e, rest);
      InsertBounded(e, rest, s[0].count);
      ConsSorted(s[0], Insert(e, rest));
    }
  }

  /** Dropping the first entry keeps the order. */
  lemma TailSorted(s: seq<ChartEntry>)
    requires s != [] && NonIncreasing(s)
    ensures NonIncreasing(s[1..])
    ensures forall k :: 0 <= k < |s[1..]| ==> s[1..][k].count <= s[0].count
  {
    var rest := s[1..];
    forall i, j | 0 <= i < j < |rest| ensures rest[i].count >= rest[j].count {
      assert rest[i] == s[i + 1] && rest[j] == s[j + 1];
    }
    forall k | 0 <= k < |rest| ensures rest[k].count <= s[0].count {
      assert rest[k] == s[k + 1];
    }
  }

  /** An entry at least as large as every entry of an ordered list can go in front of it. */
  lemma ConsSorted(x: ChartEntry, t: seq<ChartEntry>)
    requires NonIncreasing(t)
    requires forall k :: 0 <= k < |t| ==> t[k].count <= x.count
    ensures NonIncreasing([x] + t)
  {
    var r := [x] + t;
    forall i, j | 0 <= i < j < |r| ensures r[i].count >= r[j].count {
      assert r[j] == t[j - 1];
      if i > 0 {
        assert r[i] == t[i - 1];
      }
    }
  }

  /** The sorted entries are a permutation of the entries. */
  lemma {:induction false} SortPermutes(s: seq<ChartEntry>)
    ensures multiset(SortByCount(s)) == multiset(s)
  {
    if s != [] {
      var init, last := s[..|s| - 1], s[|s| - 1];
      var sortedInit := SortByCount(init);
      SortPermutes(init);
      InsertPermutes(last, sortedInit);
      assert SortByCount(s) == Insert(last, sortedInit);
      InitLast(s);
    }
  }

  /** The sorted entries are in non-increasing order of count. */
  lemma {:induction false} SortSorted(s: seq<ChartEntry>)
    ensures NonIncreasing(SortByCount(s))
  {
    if s != [] {
      SortSorted(s[..|s| - 1]);
      InsertSorted(s[|s| - 1], SortByCount(s[..|s| - 1]));
    }
  }

  /** All the entries, ranked by count. */
  function Ranked(counts: map<int, nat>, keys: seq<int>): (r: seq<ChartEntry>)
    requires forall i :: 0 <= i < |keys| ==> keys[i] in counts
    ensures |r| == |keys|
  {
    SortByCount(Entries(counts, keys))
  }

  /** `unitTypeData`: the ranked entries cut to the first five. */
  function UnitTypeData(counts: map<int, nat>, keys: seq<int>): (r: seq<ChartEntry>)
    requires forall i :: 0 <= i < |keys| ==> keys[i] in counts
    ensures |r| == if |keys| < TopTypes then |keys| else TopTypes
  {
    var ranked := Ranked(counts, keys);
    ranked[..if |ranked| < TopTypes then |ranked| else TopTypes]
  }

  /** The chart shows five bars, or every type when there are fewer. */
  lemma UnitTypeDataLength(counts: map<int, nat>, keys: seq<int>)
    requires ListsKeys(keys, counts)
    ensures |UnitTypeData(counts, keys)| == if |counts| < TopTypes then |counts| else TopTypes
  {
    KeyListLength(keys, counts);
  }

  /** The bars are in non-increasing order of count. */
  lemma UnitTypeDataSorted(counts: map<int, nat>, keys: seq<int>)
    requires forall i :: 0 <= i < |keys| ==> keys[i] in counts
    ensures NonIncreasing(UnitTypeData(counts, keys))
  {
    SortSorted(Entries(counts, keys));
    var ranked := Ranked(counts, keys);
    var r := UnitTypeData(counts, keys);
    assert forall i :: 0 <= i < |r| ==> r[i] == ranked[i];
  }

  /** Each bar is the label and count of one type of the histogram. */
  lemma UnitTypeDataEntries(counts: map<int, nat>, keys: seq<int>)
    requires forall i :: 0 <= i < |keys| ==> keys[i] in counts
    ensures var r := UnitTypeData(counts, keys);
      forall i :: 0 <= i < |r| ==>
        exists t :: t in counts && r[i] == ChartEntry(UnitTypeLabel(Some(t)), counts[t])
  {
    var entries := Entries(counts, keys);
    var ranked := Ranked(counts, keys);
    var r := UnitTypeData(counts, keys);
    SortPermutes(entries);
    forall i | 0 <= i < |r|
      ensures exists t :: t in counts && r[i] == ChartEntry(UnitTypeLabel(Some(t)), counts[t])
    {
      assert r[i] == ranked[i];
      assert ranked[i] in multiset(entries);
      var k :| 0 <= k < |entries| && entries[k] == ranked[i];
      assert keys[k] in counts;
    }
  }

  /** No entry ranked below the cut has a larger count than a bar shown: the bars are a top five. */
  lemma UnitTypeDataTop(counts: map<int, nat>, keys: seq<int>)
    requires forall i :: 0 <= i < |keys| ==> keys[i] in counts
    ensures var r := UnitTypeData(counts, keys);
      var ranked := Ranked(counts, keys);
      forall i, j :: 0 <= i < |r| <= j < |ranked| ==> ranked[j].count <= r[i].count
  {
    SortSorted(Entries(counts, keys));
    var ranked := Ranked(counts, keys);
    var r := UnitTypeData(counts, keys);
    assert forall i :: 0 <= i < |r| ==> r[i] == ranked[i];
  }

  /** Every type of the histogram has its entry among the ranked entries. */
  lemma RankedCoversHistogram(counts: map<int, nat>, keys: seq<int>, t: int)
    requires ListsKeys(keys, counts) && t in counts
    ensures ChartEntry(UnitTypeLabel(Some(t)), counts[t]) in Ranked(counts, keys)
  {
    var entries := Entries(counts, keys);
    var k :| 0 <= k < |keys| && keys[k] == t;
    assert entries[k] == ChartEntry(UnitTypeLabel(Some(t)), counts[t]);
    SortPermutes(entries);
    assert entries[k] in multiset(Ranked(counts, keys));
  }

  /** A duplicate-free listing of the keys has as many elements as the map. */
  lemma KeyListLength(keys: seq<int>, counts: map<int, nat>)
    requires ListsKeys(keys, counts)
    ensures |keys| == |counts|
  {
    var ks := set i | 0 <= i < |keys| :: keys[i];
    forall t | t in counts ensures t in ks {
      var i :| 0 <= i < |keys| && keys[i] == t;
    }
    assert ks == counts.Keys;
    DistinctCard(keys);
    assert |counts.Keys| == |counts|;
  }

  lemma {:induction false} DistinctCard(keys: seq<int>)
    requires forall i, j :: 0 <= i < j < |keys| ==> keys[i] != keys[j]
    ensures |set i | 0 <= i < |keys| :: keys[i]| == |keys|
  {
    if keys != [] {
      var init := keys[..|keys| - 1];
      assert forall i, j :: 0 <= i < j < |init| ==> init[i] != init[j] by {
        assert forall i :: 0 <= i < |init| ==> init[i] == keys[i];
      }
      DistinctCard(init);
      SnocKeySet(keys);
    }
  }

  /** The keys listed by a non-empty sequence: those of all but the last, plus the last, which is new. */
  lemma SnocKeySet(keys: seq<int>)
    requires keys != []
    requires forall i, j :: 0 <= i < j < |keys| ==> keys[i] != keys[j]
    ensures var init := keys[..|keys| - 1];
      && (set i | 0 <= i < |keys| :: keys[i]) == (set i | 0 <= i < |init| :: init[i]) + {keys[|keys| - 1]}
      && keys[|keys| - 1] !in (set i | 0 <= i < |init| :: init[i])
  {
    var init := keys[..|keys| - 1];
    var last := keys[|keys| - 1];
    var a := set i | 0 <= i < |init| :: init[i];
    var b := set i | 0 <= i < |keys| :: keys[i];
    forall x | x in b ensures x in a + {last} {
      var i :| 0 <= i < |keys| && keys[i] == x;
      if i < |keys| - 1 { assert init[i] == x; }
    }
    forall x | x in a ensures x in b && x != last {
      var i :| 0 <= i < |init| && init[i] == x;
      assert keys[i] == x;
    }
  }
}
