/**
 * The records of src/types/index.ts. Optional members are `Option`s; a
 * column the backend returns as null is `None` as well.
 */
module Domain {
  import opened Wrappers

  datatype Address = Address(
    street: Option<string>,
    number: Option<string>,
    city: Option<string>,
    state: Option<string>,
    zip: Option<string>)

  datatype Unit = Unit(
    id: string,
    clientId: string,
    name: string,
    address: Option<Address>)

  /** An installed HVAC asset. `kind` is the `type` column. */
  datatype Equipment = Equipment(
    id: string,
    unitId: string,
    tag: string,
    location: Option<string>,
    brand: Option<string>,
    model: Option<string>,
    kind: Option<string>,
    capacityBtu: Option<int>,
    serialNumber: Option<string>,
    installationDate: Option<string>,
    warrantyExpiry: Option<string>,
    lastMaintenance: Option<string>,
    maintenanceIntervalDays: Option<int>,
    refrigerantType: Option<string>,
    voltage: Option<string>,
    photos: Option<seq<string>>,
    status: string,
    notes: Option<string>)

  datatype Part = Part(name: string, quantity: int)

  /**
   * The technical details of a service. `measurements` is an object whose
   * keys keep their insertion order, hence a list of pairs.
   */
  datatype TechnicalDetails = TechnicalDetails(
    measurements: Option<seq<(string, string)>>,
    servicesPerformed: Option<seq<string>>,
    partsReplaced: Option<seq<Part>>,
    refrigerantAdded: Option<string>,
    nextMaintenance: Option<string>)
}
