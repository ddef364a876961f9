/**
 * The new-equipment form: its required fields and defaults, the row it
 * inserts, and where the screen goes once the insert has answered.
 */
module AddEquipmentScreen {
  import opened Wrappers
  import opened Text

  /** The form values, all text as the inputs hold them. */
  datatype Form = Form(
    tag: string,
    location: string,
    brand: string,
    model: string,
    kind: string,
    capacityBtu: string,
    serialNumber: string,
    installationDate: string,
    warrantyExpiry: string,
    maintenanceIntervalDays: string,
    refrigerantType: string,
    voltage: string,
    status: string,
    notes: string)

  /** The form's initial values: everything empty, except the interval "90" and the status "Ativo". */
  function DefaultForm(): (f: Form)
    ensures f.maintenanceIntervalDays == "90" && f.status == "Ativo"
    ensures f.tag == "" && f.capacityBtu == "" && f.installationDate == "" && f.warrantyExpiry == ""
    ensures f.location == "" && f.brand == "" && f.model == "" && f.kind == ""
    ensures f.serialNumber == "" && f.refrigerantType == "" && f.voltage == "" && f.notes == ""
  {
    Form("", "", "", "", "", "", "", "", "", "90", "", "", "Ativo", "")
  }

  /** The validation messages, in schema order: a missing tag, then a missing status. */
  function Validate(f: Form): (errors: seq<string>)
    ensures errors == [] <==> f.tag != "" && f.status != ""
    ensures "Informe a TAG do equipamento." in errors <==> f.tag == ""
    ensures "Informe o status." in errors <==> f.status == ""
  {
    (if f.tag == "" then ["Informe a TAG do equipamento."] else []) +
    (if f.status == "" then ["Informe o status."] else [])
  }

  /** The untouched form only lacks the tag. */
  lemma DefaultFormNeedsTag()
    ensures Validate(DefaultForm()) == ["Informe a TAG do equipamento."]
  {
  }

  /** A number column of the insert: `null`, or what `parseInt` gave (None for NaN). */
  datatype NumberValue = NullValue | Parsed(value: Option<int>)

  /** The row passed to the insert. */
  datatype Row = Row(
    unitId: Option<string>,
    tag: string,
    location: string,
    brand: string,
    model: string,
    kind: string,
    capacityBtu: NumberValue,
    serialNumber: string,
    installationDate: Option<string>,
    warrantyExpiry: Option<string>,
    maintenanceIntervalDays: NumberValue,
    refrigerantType: string,
    voltage: string,
    status: string,
    notes: string,
    photos: seq<string>)

  /** `s || null` on a text field. */
  function OrNull(s: string): (r: Option<string>)
    ensures r.None? <==> s == ""
    ensures r.Some? ==> r.value == s
  {
    if s == "" then None else Some(s)
  }

  /**
   * The row `onSubmit` inserts for the route's `unitId`: text fields as
   * typed; the capacity null when empty and parsed otherwise; the two
   * dates null when empty; the interval parsed from its text or from "90";
   * no photos.
   */
  function InsertRow(unitId: Option<string>, f: Form): (r: Row)
    ensures r.unitId == unitId && r.photos == []
    ensures r.tag == f.tag && r.status == f.status && r.location == f.location && r.brand == f.brand
    ensures r.model == f.model && r.kind == f.kind && r.serialNumber == f.serialNumber
    ensures r.refrigerantType == f.refrigerantType && r.voltage == f.voltage && r.notes == f.notes
    ensures r.capacityBtu.NullValue? <==> f.capacityBtu == ""
    ensures f.capacityBtu != "" ==> r.capacityBtu == Parsed(ParseInt(f.capacityBtu))
    ensures r.installationDate == OrNull(f.installationDate) && r.warrantyExpiry == OrNull(f.warrantyExpiry)
    ensures r.maintenanceIntervalDays.Parsed?
    ensures f.maintenanceIntervalDays == "" ==> r.maintenanceIntervalDays == Parsed(Some(90))
    ensures f.maintenanceIntervalDays != "" ==> r.maintenanceIntervalDays == Parsed(ParseInt(f.maintenanceIntervalDays))
  {
    NinetyParses();
    Row(
      unitId,
      f.tag, f.location, f.brand, f.model, f.kind,
      if f.capacityBtu != "" then Parsed(ParseInt(f.capacityBtu)) else NullValue,
      f.serialNumber,
      OrNull(f.installationDate),
      OrNull(f.warrantyExpiry),
      Parsed(ParseInt(if f.maintenanceIntervalDays != "" then f.maintenanceIntervalDays else "90")),
      f.refrigerantType, f.voltage, f.status, f.notes,
      [])
  }

  lemma NinetyParses()
    ensures ParseInt("90") == Some(90)
  {
    assert NatToString(90) == "90" by {
      assert NatToString(9) == "9";
    }
    ParseIntOfIntToString(90);
  }

  /** The untouched form's interval and capacity go in as 90 days and null. */
  lemma DefaultRow(unitId: Option<string>)
    ensures InsertRow(unitId, DefaultForm()).maintenanceIntervalDays == Parsed(Some(90))
    ensures InsertRow(unitId, DefaultForm()).capacityBtu == NullValue
    ensures InsertRow(unitId, DefaultForm()).installationDate == None
  {
    var f := DefaultForm();
    var r := InsertRow(unitId, f);
    NinetyParses();
    assert r.maintenanceIntervalDays == Parsed(ParseInt("90"));
  }

  /** A capacity or interval typed as a plain number is stored as that number. */
  lemma NumbersRoundTrip(unitId: Option<string>, f: Form, capacity: int, interval: int)
    requires f.capacityBtu == IntToString(capacity) && f.maintenanceIntervalDays == IntToString(interval)
    ensures InsertRow(unitId, f).capacityBtu == Parsed(Some(capacity))
    ensures InsertRow(unitId, f).maintenanceIntervalDays == Parsed(Some(interval))
  {
    ParseIntOfIntToString(capacity);
    ParseIntOfIntToString(interval);
  }

  /** `handleSubmit(onSubmit)`: the row is inserted only for a form that passes validation. */
  function Submit(unitId: Option<string>, f: Form): (r: Option<Row>)
    ensures r.Some? <==> Validate(f) == []
    ensures r.Some? ==> r.value == InsertRow(unitId, f)
  {
    if Validate(f) == [] then Some(InsertRow(unitId, f)) else None
  }

  /** The insert's answer: success, or an error with an optional message. */
  datatype InsertResult = Inserted | InsertFailed(message: Option<string>)

  /** Where the screen goes after the insert. */
  datatype AfterSubmit =
    | ToClientDetails(id: string, refresh: bool)
    | GoBack
    | ErrorAlert(message: string)

  /**
   * After a successful insert: to the client's details, asking for a
   * refresh, when the route carried a `clientId`; back otherwise. A failed
   * insert alerts with its message or "Não foi possível salvar.".
   */
  function AfterInsert(result: InsertResult, clientId: Option<string>): (r: AfterSubmit)
    ensures result.Inserted? && Truthy(clientId) ==> r == ToClientDetails(clientId.value, true)
    ensures result.Inserted? && !Truthy(clientId) ==> r == GoBack
    ensures result.InsertFailed? ==> r.ErrorAlert?
    ensures result.InsertFailed? && result.message.None? ==> r.message == "Não foi possível salvar."
    ensures result.InsertFailed? && result.message.Some? ==> r.message == result.message.value
  {
    match result
    case InsertFailed(message) => ErrorAlert(if message.Some? then message.value else "Não foi possível salvar.")
    case Inserted => if Truthy(clientId) then ToClientDetails(clientId.value, true) else GoBack
  }
}
