/** `getUnitTypeLabel`: the display name of a unit type number. */
module UnitTypes {
  import opened Wrappers

  const Unknown: string := "Άγνωστος Τύπος"

  /** The fixed table of known unit types. */
  const UnitTypeNames: map<int, string> :=
    map[1 := "Γενική Διεύθυνση", 2 := "Διεύθυνση", 3 := "Τμήμα", 4 := "Γραφείο"]

  /** `unitTypes[unitType || 0] || "Άγνωστος Τύπος"`. */
  function UnitTypeLabel(unitType: Option<int>): (r: string)
    ensures r != Unknown <==> unitType.Some? && 1 <= unitType.value <= 4
    ensures unitType.Some? && unitType.value in UnitTypeNames ==> r == UnitTypeNames[unitType.value]
  {
    var key := match unitType case None => 0 case Some(k) => k;
    if key in UnitTypeNames && UnitTypeNames[key] != "" then UnitTypeNames[key] else Unknown
  }

  /** The four known labels are distinct: a known label names exactly one type. */
  lemma UnitTypeLabelInjective(a: Option<int>, b: Option<int>)
    requires UnitTypeLabel(a) == UnitTypeLabel(b) != Unknown
    ensures a == b
  {
  }
}
