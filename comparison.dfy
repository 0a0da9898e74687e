/**
 * The comparison view of `ComparisonView`: a set of at most three
 * organisations with distinct codes, their per-organisation statistics, and
 * the normalisation of totals to a 0..100 scale for the radar chart.
 */
module Comparison {
  import opened Wrappers
  import opened Sequences
  import opened OrgTree
  import opened Statistics

  /** How many organisations can be compared at once. */
  const MaxCompared: nat := 3

  /** The statistics shown for one compared organisation. */
  datatype OrganizationStats = OrganizationStats(code: string, name: string, totalUnits: nat, unitsByType: map<int, nat>)

  /** What `addOrganization` did: added, or refused with one of its two alerts. */
  datatype AddOutcome = Added | LimitReached | AlreadyPresent

  /** `organizations.some((o) => o.code === code)`. */
  predicate HasOrg(orgs: seq<Organization>, code: string)
  {
    exists i :: 0 <= i < |orgs| && orgs[i].code == code
  }

  /** No two compared organisations share a code. */
  ghost predicate DistinctOrgs(orgs: seq<Organization>)
  {
    forall i, j :: 0 <= i < j < |orgs| ==> orgs[i].code != orgs[j].code
  }

  function OtherOrg(code: string): Organization -> bool
  {
    (o: Organization) => o.code != code
  }

  function OtherStats(code: string): OrganizationStats -> bool
  {
    (s: OrganizationStats) => s.code != code
  }

  /** A filtered list of distinct organisations is still distinct. */
  lemma {:induction false} FilterKeepsDistinct(orgs: seq<Organization>, keep: Organization -> bool)
    requires DistinctOrgs(orgs)
    ensures DistinctOrgs(Filter(orgs, keep))
    decreases |orgs|
  {
    if orgs != [] {
      var rest := orgs[1..];
      assert DistinctOrgs(rest) by {
        forall i, j | 0 <= i < j < |rest| ensures rest[i].code != rest[j].code {
          assert rest[i] == orgs[i + 1] && rest[j] == orgs[j + 1];
        }
      }
      FilterKeepsDistinct(rest, keep);
      FilterCons(orgs[0], rest, keep);
      assert orgs == [orgs[0]] + rest;
      if keep(orgs[0]) {
        var r := Filter(orgs, keep);
        forall j | 0 < j < |r| ensures r[0].code != r[j].code {
          var x := r[j];
          assert x == Filter(rest, keep)[j - 1];
          FilterMembers(rest, keep, x);
          var k :| 0 <= k < |rest| && rest[k] == x;
          assert orgs[k + 1] == x;
        }
      }
    }
  }

  /** The `forEach` over one organisation's units and the record built from it. */
  method ComputeStats(org: Organization, units: seq<Unit>) returns (s: OrganizationStats)
    ensures s.code == org.code && s.name == org.preferredLabel
    ensures s.totalUnits == |units|
    ensures IsHistogram(units, s.unitsByType)
  {
    var unitsByType := CountByType(units);
    s := OrganizationStats(org.code, org.preferredLabel, |units|, unitsByType);
  }

  /**
   * `max > 0 ? Math.round((value / max) * 100) : 0`, with the quotient taken
   * exactly: the integer nearest to 100 * value / max, halves rounded up.
   */
  function NormalizeValue(value: int, max: int): (r: int)
    ensures max <= 0 ==> r == 0
    ensures max > 0 ==> 2 * max * r - max <= 200 * value < 2 * max * r + max
  {
    if max > 0 then (200 * value + max) / (2 * max) else 0
  }

  /** The maximum normalises to exactly 100 and 0 to exactly 0. */
  lemma NormalizeValueEnds(max: int)
    requires max > 0
    ensures NormalizeValue(max, max) == 100
    ensures NormalizeValue(0, max) == 0
  {
    var k, r, z := 2 * max, NormalizeValue(max, max), NormalizeValue(0, max);
    assert k * (101 - r) == 101 * k - k * r;
    PosFactor(k, 101 - r);
    assert k * (r - 99) == k * r - 99 * k;
    PosFactor(k, r - 99);
    assert k * (1 - z) == k - k * z;
    PosFactor(k, 1 - z);
    assert k * (z + 1) == k * z + k;
    PosFactor(k, z + 1);
  }

  /** A value between 0 and the maximum lands on the 0..100 scale. */
  lemma NormalizeValueBounds(value: int, max: int)
    requires 0 <= value <= max && max > 0
    ensures 0 <= NormalizeValue(value, max) <= 100
  {
    var k, r := 2 * max, NormalizeValue(value, max);
    assert k * (r + 1) == k * r + k;
    PosFactor(k, r + 1);
    assert k * (101 - r) == 101 * k - k * r;
    PosFactor(k, 101 - r);
  }

  /** A larger value never normalises to a smaller result. */
  lemma NormalizeValueMonotone(v1: int, v2: int, max: int)
    requires v1 <= v2
    ensures NormalizeValue(v1, max) <= NormalizeValue(v2, max)
  {
    if max > 0 {
      var k, r1, r2 := 2 * max, NormalizeValue(v1, max), NormalizeValue(v2, max);
      assert k * (r2 + 1 - r1) == k * r2 + k - k * r1;
      PosFactor(k, r2 + 1 - r1);
    }
  }

  lemma {:induction false} MulNonPositive(k: int, x: int)
    requires k > 0 && x <= 0
    ensures k * x <= 0
    decreases -x
  {
    if x < 0 {
      MulNonPositive(k, x + 1);
      assert k * x == k * (x + 1) - k;
    }
  }

  /** A positive product with a positive factor has a positive other factor. */
  lemma PosFactor(k: int, x: int)
    requires k > 0 && k * x > 0
    ensures x > 0
  {
    if x <= 0 {
      MulNonPositive(k, x);
    }
  }

  /** `Math.max(...stats.map((st) => st.totalUnits))`. */
  function MaxTotal(stats: seq<OrganizationStats>): (m: nat)
    requires |stats| > 0
    ensures forall i :: 0 <= i < |stats| ==> stats[i].totalUnits <= m
    ensures exists i :: 0 <= i < |stats| && stats[i].totalUnits == m
  {
    if |stats| == 1 then stats[0].totalUnits
    else
      var m := MaxTotal(stats[1..]);
      assert forall i :: 1 <= i < |stats| ==> stats[i] == stats[1..][i - 1];
      if stats[0].totalUnits >= m then stats[0].totalUnits else m
  }

  /** The radar chart's values: each organisation's name with its total on the 0..100 scale. */
  function RadarValues(stats: seq<OrganizationStats>): (r: seq<(string, int)>)
    ensures |r| == |stats|
    ensures forall i :: 0 <= i < |r| ==> r[i].0 == stats[i].name
    ensures forall i :: 0 <= i < |r| ==> r[i].1 == NormalizeValue(stats[i].totalUnits, MaxTotal(stats))
  {
    if |stats| == 0 then []
    else
      var m := MaxTotal(stats);
      seq(|stats|, i requires 0 <= i < |stats| => (stats[i].name, NormalizeValue(stats[i].totalUnits, m)))
  }

  /** Every radar value is on the 0..100 scale, and the largest total is drawn at 100. */
  lemma RadarValuesScale(stats: seq<OrganizationStats>)
    ensures forall i :: 0 <= i < |stats| ==> 0 <= RadarValues(stats)[i].1 <= 100
    ensures |stats| > 0 && MaxTotal(stats) > 0 ==>
      exists i :: 0 <= i < |stats| && RadarValues(stats)[i].1 == 100
  {
    if |stats| > 0 {
      var m := MaxTotal(stats);
      forall i | 0 <= i < |stats| ensures 0 <= RadarValues(stats)[i].1 <= 100 {
        if m > 0 {
          NormalizeValueBounds(stats[i].totalUnits, m);
        }
      }
      if m > 0 {
        var k :| 0 <= k < |stats| && stats[k].totalUnits == m;
        NormalizeValueEnds(m);
        assert RadarValues(stats)[k].1 == 100;
      }
    }
  }

  /** An organisation with more units is never drawn closer to the centre. */
  lemma RadarValuesOrdered(stats: seq<OrganizationStats>, i: int, j: int)
    requires 0 <= i < |stats| && 0 <= j < |stats|
    requires stats[i].totalUnits <= stats[j].totalUnits
    ensures RadarValues(stats)[i].1 <= RadarValues(stats)[j].1
  {
    NormalizeValueMonotone(stats[i].totalUnits, stats[j].totalUnits, MaxTotal(stats));
  }

  /** The component's state. */
  class ComparisonState {
    var organizations: seq<Organization>
    var stats: seq<OrganizationStats>
    var searchQuery: string
    var searchResults: seq<Organization>

    /** At most three organisations, no two with the same code. */
    ghost predicate Valid()
      reads this
    {
      |organizations| <= MaxCompared && DistinctOrgs(organizations)
    }

    /** `initialOrganization ? [initialOrganization] : []`, with the other state empty. */
    constructor(initialOrganization: Option<Organization>)
      ensures organizations == (match initialOrganization case Some(o) => [o] case None => [])
      ensures stats == [] && searchQuery == "" && searchResults == []
      ensures Valid()
    {
      organizations := match initialOrganization case Some(o) => [o] case None => [];
      stats := [];
      searchQuery := "";
      searchResults := [];
    }

    /**
     * Refuses when three organisations are already compared, then when one
     * with the same code is; otherwise appends `org` and clears the search.
     */
    method AddOrganization(org: Organization) returns (outcome: AddOutcome)
      modifies this
      ensures outcome == LimitReached <==> |old(organizations)| >= MaxCompared
      ensures outcome == AlreadyPresent <==>
        |old(organizations)| < MaxCompared && HasOrg(old(organizations), org.code)
      ensures outcome != Added ==>
        organizations == old(organizations) && searchQuery == old(searchQuery)
        && searchResults == old(searchResults)
      ensures outcome == Added ==>
        organizations == old(organizations) + [org] && searchQuery == "" && searchResults == []
      ensures stats == old(stats)
      ensures old(Valid()) ==> Valid()
    {
      if |organizations| >= MaxCompared {
        return LimitReached;
      }
      if exists i :: 0 <= i < |organizations| && organizations[i].code == org.code {
        return AlreadyPresent;
      }
      ghost var before := organizations;
      organizations := organizations + [org];
      searchQuery := "";
      searchResults := [];
      assert forall i :: 0 <= i < |before| ==> organizations[i] == before[i];
      return Added;
    }

    /** Drops every organisation and every statistics entry with `code`. */
    method RemoveOrganization(code: string)
      modifies this
      ensures organizations == Filter(old(organizations), OtherOrg(code))
      ensures stats == Filter(old(stats), OtherStats(code))
      ensures searchQuery == old(searchQuery) && searchResults == old(searchResults)
      ensures !HasOrg(organizations, code)
      ensures old(Valid()) ==> Valid()
    {
      ghost var before := organizations;
      organizations := Filter(organizations, OtherOrg(code));
      stats := Filter(stats, OtherStats(code));
      if |before| <= MaxCompared && DistinctOrgs(before) {
        FilterKeepsDistinct(before, OtherOrg(code));
      }
    }
  }

  /** Removing an organisation keeps every other one, in order. */
  lemma RemoveKeepsOthers(orgs: seq<Organization>, code: string, o: Organization)
    ensures o in Filter(orgs, OtherOrg(code)) <==> o in orgs && o.code != code
    ensures IsSubseq(Filter(orgs, OtherOrg(code)), orgs)
  {
    FilterMembers(orgs, OtherOrg(code), o);
    FilterSubseq(orgs, OtherOrg(code));
  }
}
