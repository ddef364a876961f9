/**
 * The editors of the technical-details form. Each handler builds a new
 * `TechnicalDetails` value from the current one and hands it to `onChange`;
 * here each handler is the function from the current value to that new value.
 */
module TechnicalDetailsForm {
  import opened Wrappers
  import opened Text
  import opened Domain
  import Records
  import Lists

  /** `value.measurements`, with a missing object read as `{}` as spread does. */
  function MeasurementsOf(td: TechnicalDetails): seq<(string, string)> {
    td.measurements.GetOr([])
  }

  /** `value.services_performed || []`. */
  function ServicesOf(td: TechnicalDetails): seq<string> {
    td.servicesPerformed.GetOr([])
  }

  /** `value.parts_replaced || []`. */
  function PartsOf(td: TechnicalDetails): seq<Part> {
    td.partsReplaced.GetOr([])
  }

  /** `updateMeasurement(key, val)`: that key set to `val`, nothing else touched. */
  function UpdateMeasurement(td: TechnicalDetails, key: string, val: string): (r: TechnicalDetails)
    ensures r == td.(measurements := r.measurements)
    ensures r.measurements.Some?
    ensures Records.Get(MeasurementsOf(r), key) == Some(val)
    ensures forall k :: k != key ==> Records.Get(MeasurementsOf(r), k) == Records.Get(MeasurementsOf(td), k)
    ensures key in Records.Keys(MeasurementsOf(td)) ==> Records.Keys(MeasurementsOf(r)) == Records.Keys(MeasurementsOf(td))
    ensures key !in Records.Keys(MeasurementsOf(td)) ==> MeasurementsOf(r) == MeasurementsOf(td) + [(key, val)]
    ensures Records.DistinctKeys(MeasurementsOf(td)) ==> Records.DistinctKeys(MeasurementsOf(r))
  {
    Records.PutGet(MeasurementsOf(td), key, val);
    Records.PutDistinct(MeasurementsOf(td), key, val);
    td.(measurements := Some(Records.Put(MeasurementsOf(td), key, val)))
  }

  /** Whether a service's checkbox is ticked. */
  predicate IsChecked(td: TechnicalDetails, service: string) {
    service in ServicesOf(td)
  }

  /**
   * `toggleService(service)`: a ticked service loses every occurrence, an
   * unticked one is appended; the other entries keep their order.
   */
  function ToggleService(td: TechnicalDetails, service: string): (r: TechnicalDetails)
    ensures r == td.(servicesPerformed := r.servicesPerformed)
    ensures r.servicesPerformed.Some?
    ensures IsChecked(r, service) <==> !IsChecked(td, service)
    ensures IsChecked(td, service) ==> ServicesOf(r) == Lists.RemoveAll(ServicesOf(td), service)
    ensures !IsChecked(td, service) ==> ServicesOf(r) == ServicesOf(td) + [service]
    ensures Lists.RemoveAll(ServicesOf(r), service) == Lists.RemoveAll(ServicesOf(td), service)
  {
    var current := ServicesOf(td);
    var updated := if service in current then Lists.RemoveAll(current, service) else current + [service];
    ToggleKeepsOthers(current, service);
    td.(servicesPerformed := Some(updated))
  }

  lemma ToggleKeepsOthers(current: seq<string>, service: string)
    ensures service !in current ==>
      Lists.RemoveAll(current + [service], service) == Lists.RemoveAll(current, service)
    ensures Lists.RemoveAll(Lists.RemoveAll(current, service), service) == Lists.RemoveAll(current, service)
  {
    Lists.RemoveAllAppend(current, [service], service);
    Lists.RemoveAllAbsent(Lists.RemoveAll(current, service), service);
  }

  /**
   * Ticking a service that was not ticked and unticking it again gives back
   * the list as it was, a missing list coming back as the empty one.
   */
  lemma ToggleAbsentTwice(td: TechnicalDetails, service: string)
    requires !IsChecked(td, service)
    ensures ToggleService(ToggleService(td, service), service).servicesPerformed == Some(ServicesOf(td))
  {
    Lists.RemoveAllAbsent(ServicesOf(td), service);
  }

  /** `addPart()`: one blank part with quantity 1 appended. */
  function AddPart(td: TechnicalDetails): (r: TechnicalDetails)
    ensures r == td.(partsReplaced := r.partsReplaced)
    ensures |PartsOf(r)| == |PartsOf(td)| + 1
    ensures PartsOf(r)[..|PartsOf(td)|] == PartsOf(td)
    ensures PartsOf(r)[|PartsOf(td)|] == Part("", 1)
  {
    td.(partsReplaced := Some(PartsOf(td) + [Part("", 1)]))
  }

  /** The `[field]: val` of `updatePart`: the form edits either the name or the quantity. */
  datatype PartEdit = SetName(name: string) | SetQuantity(quantity: int)

  function ApplyEdit(p: Part, edit: PartEdit): (r: Part)
    ensures edit.SetName? ==> r.name == edit.name && r.quantity == p.quantity
    ensures edit.SetQuantity? ==> r.quantity == edit.quantity && r.name == p.name
  {
    match edit
    case SetName(n) => p.(name := n)
    case SetQuantity(q) => p.(quantity := q)
  }

  /** `updatePart(index, field, val)` on a rendered row. */
  function UpdatePart(td: TechnicalDetails, index: int, edit: PartEdit): (r: TechnicalDetails)
    requires 0 <= index < |PartsOf(td)|
    ensures r == td.(partsReplaced := r.partsReplaced)
    ensures |PartsOf(r)| == |PartsOf(td)|
    ensures PartsOf(r)[index] == ApplyEdit(PartsOf(td)[index], edit)
    ensures forall j :: 0 <= j < |PartsOf(td)| && j != index ==> PartsOf(r)[j] == PartsOf(td)[j]
  {
    var parts := PartsOf(td);
    td.(partsReplaced := Some(parts[index := ApplyEdit(parts[index], edit)]))
  }

  /**
   * `removePart(index)`: the part at `index` filtered out; a missing list
   * becomes `[]`.
   */
  function RemovePart(td: TechnicalDetails, index: int): (r: TechnicalDetails)
    ensures r == td.(partsReplaced := r.partsReplaced)
    ensures r.partsReplaced.Some?
    ensures 0 <= index < |PartsOf(td)| ==>
      PartsOf(r) == PartsOf(td)[..index] + PartsOf(td)[index + 1..] &&
      |PartsOf(r)| == |PartsOf(td)| - 1
    ensures !(0 <= index < |PartsOf(td)|) ==> PartsOf(r) == PartsOf(td)
    ensures td.partsReplaced.None? ==> r.partsReplaced == Some([])
  {
    match td.partsReplaced
    case None => td.(partsReplaced := Some([]))
    case Some(parts) =>
      Lists.RemoveIndexSpec(parts, index);
      td.(partsReplaced := Some(Lists.RemoveIndex(parts, index)))
  }

  /** The refrigerant input: `{...value, refrigerant_added: v}`. */
  function SetRefrigerantAdded(td: TechnicalDetails, v: string): (r: TechnicalDetails)
    ensures r.refrigerantAdded == Some(v)
    ensures r == td.(refrigerantAdded := r.refrigerantAdded)
  {
    td.(refrigerantAdded := Some(v))
  }

  /** The next-maintenance input: `{...value, next_maintenance: v}`. */
  function SetNextMaintenance(td: TechnicalDetails, v: string): (r: TechnicalDetails)
    ensures r.nextMaintenance == Some(v)
    ensures r == td.(nextMaintenance := r.nextMaintenance)
  {
    td.(nextMaintenance := Some(v))
  }

  /** The quantity field: `parseInt(v) || 1`, so NaN and 0 both fall back to 1. */
  function QuantityFromText(v: string): (q: int)
    ensures q != 0
    ensures ParseInt(v).None? ==> q == 1
    ensures ParseInt(v) == Some(0) ==> q == 1
    ensures ParseInt(v).Some? && ParseInt(v).value != 0 ==> q == ParseInt(v).value
  {
    match ParseInt(v)
    case None => 1
    case Some(n) => if n == 0 then 1 else n
  }

  /**
   * The quantity field reads back any non-zero quantity it displays, and
   * both the empty text and "0" give 1.
   */
  lemma QuantityRoundTrip(q: int)
    ensures q != 0 ==> QuantityFromText(IntToString(q)) == q
    ensures QuantityFromText(IntToString(0)) == 1
    ensures QuantityFromText("") == 1
  {
    ParseIntOfIntToString(q);
    ParseIntOfIntToString(0);
  }

  /**
   * Text after the number, such as "5abc" or "1.5", is ignored as
   * `parseInt` ignores it: the quantity is the leading integer.
   */
  lemma QuantityIgnoresTrailingText(n: int, rest: string)
    requires n != 0
    requires rest == [] || (!IsDigit(rest[0]) && rest[0] != 'x' && rest[0] != 'X')
    ensures QuantityFromText(IntToString(n) + rest) == n
  {
    ParseIntPrefix(n, rest);
  }

  /** The editing row for part `index` after typing `v` into its quantity field. */
  function TypeQuantity(td: TechnicalDetails, index: int, v: string): (r: TechnicalDetails)
    requires 0 <= index < |PartsOf(td)|
    ensures |PartsOf(r)| == |PartsOf(td)|
    ensures PartsOf(r)[index].quantity == QuantityFromText(v)
    ensures PartsOf(r)[index].name == PartsOf(td)[index].name
  {
    UpdatePart(td, index, SetQuantity(QuantityFromText(v)))
  }
}
