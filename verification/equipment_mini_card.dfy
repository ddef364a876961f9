/**
 * The small equipment card inside a unit card: its status badge, the
 * location line, the type and capacity line, and the maintenance
 * indicator it is given.
 */
module EquipmentMiniCard {
  import opened Wrappers
  import opened Text
  import opened Domain
  import StatusColors
  import MaintenanceIndicator

  /** The badge background: the equipment status through the exact switch. */
  function BadgeColor(e: Equipment): (r: string)
    ensures r == StatusColors.Green <==> e.status == "Ativo"
    ensures r == StatusColors.Amber <==> e.status == "Manutenção"
    ensures r == StatusColors.Gray <==> e.status != "Ativo" && e.status != "Manutenção"
  {
    StatusColors.EquipmentStatusColor(e.status)
  }

  /** The location line: shown only for a non-empty location. */
  function LocationLine(e: Equipment): (r: Option<string>)
    ensures r.Some? <==> Truthy(e.location)
    ensures r.Some? ==> r.value == e.location.value
  {
    if Truthy(e.location) then Some(e.location.value) else None
  }

  /** `capacity_btu` is truthy: present and not 0. */
  predicate HasCapacity(e: Equipment) {
    e.capacityBtu.Some? && e.capacityBtu.value != 0
  }

  /**
   * The detail line: shown only when the type is set; the type, followed
   * by " • N BTU" when the capacity is truthy.
   */
  function DetailLine(e: Equipment): (r: Option<string>)
    ensures r.Some? <==> Truthy(e.kind)
    ensures r.Some? && !HasCapacity(e) ==> r.value == e.kind.value
    ensures r.Some? && HasCapacity(e) ==> r.value == e.kind.value + " • " + IntToString(e.capacityBtu.value) + " BTU"
  {
    if !Truthy(e.kind) then None
    else Some(e.kind.value + (if HasCapacity(e) then " • " + IntToString(e.capacityBtu.value) + " BTU" else ""))
  }

  /** A capacity of 0 is left out of the detail line exactly as a missing one. */
  lemma ZeroCapacityOmitted(e: Equipment)
    requires e.capacityBtu == Some(0)
    ensures DetailLine(e) == DetailLine(e.(capacityBtu := None))
  {
  }

  /** The detail line always starts with the type and ends with "BTU" exactly when a capacity is shown. */
  lemma DetailLineShape(e: Equipment)
    requires Truthy(e.kind)
    ensures StartsWith(DetailLine(e).value, e.kind.value)
    ensures HasCapacity(e) ==> EndsWith(DetailLine(e).value, " BTU")
  {
    var line := DetailLine(e).value;
    assert line[..|e.kind.value|] == e.kind.value;
    if HasCapacity(e) {
      assert line[|line| - 4..] == " BTU";
    }
  }

  /**
   * The `intervalDays` the indicator receives: the row's
   * `maintenance_interval_days`, which the backend sends as null when unset.
   */
  function IntervalPropOf(e: Equipment): (p: MaintenanceIndicator.IntervalProp)
    ensures e.maintenanceIntervalDays.None? ==> p == MaintenanceIndicator.Null
    ensures e.maintenanceIntervalDays.Some? ==> p == MaintenanceIndicator.Days(e.maintenanceIntervalDays.value)
  {
    match e.maintenanceIntervalDays
    case None => MaintenanceIndicator.Null
    case Some(n) => MaintenanceIndicator.Days(n)
  }

  /** The card's maintenance indicator, given the whole days since the last maintenance. */
  function CardIndicator(e: Equipment, daysSince: int): (r: MaintenanceIndicator.Indicator)
    ensures !Truthy(e.lastMaintenance) ==> r.color == MaintenanceIndicator.Gray
  {
    MaintenanceIndicator.Classify(e.lastMaintenance, daysSince, IntervalPropOf(e))
  }

  /**
   * Equipment saved without an interval is shown overdue one day after its
   * last maintenance, since the 90-day default never applies to a null.
   */
  lemma UnsetIntervalOverdue(e: Equipment, daysSince: int)
    requires Truthy(e.lastMaintenance) && e.maintenanceIntervalDays.None? && daysSince >= 1
    ensures CardIndicator(e, daysSince).color == MaintenanceIndicator.Red
  {
    MaintenanceIndicator.NullIntervalOverdue(e.lastMaintenance, daysSince);
  }
}
