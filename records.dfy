/** The records the pipeline reads from the Green Climate Fund API, the rows it produces, the
    exceptions it can raise and the library parsers it delegates to.

    A field of type `Option` is a JSON key that may be absent; a list-valued field read with
    `.get(key, [])` is a plain sequence, since an absent key and an empty list behave alike. */
module Records {
  import opened Wrappers
  import opened Dates

  /** An element of a record's `Countries` list. */
  datatype CountryEntry = CountryEntry(
    iso3: Option<string>,
    countryName: Option<string>,
    region: Option<string>,
    ldcs: Option<bool>,
    sids: Option<bool>)

  /** An element of a project's `Entities` list. */
  datatype EntityEntry = EntityEntry(
    acronym: Option<string>,
    name: Option<string>,
    access: Option<string>,
    entityType: Option<string>,
    sector: Option<string>)

  /** An element of a project's `ResultAreas` list; `value` is a percentage such as "40.5%". */
  datatype ResultAreaEntry = ResultAreaEntry(area: Option<string>, value: Option<string>)

  /** A raw project from the `/projects` endpoint. Dates are the API's ISO 8601 text. */
  datatype ProjectRecord = ProjectRecord(
    approvedRef: Option<string>,
    projectName: Option<string>,
    entities: seq<EntityEntry>,
    countries: seq<CountryEntry>,
    boardMeeting: Option<string>,
    sector: Option<string>,
    theme: Option<string>,
    size: Option<string>,
    approvalDate: Option<string>,
    dateCompletion: Option<string>,
    riskCategory: Option<string>,
    totalGcfFunding: Option<real>,
    resultAreas: seq<ResultAreaEntry>,
    status: Option<string>,
    projectUrl: Option<string>,
    projectsId: Option<nat>)

  /** A raw readiness programme from the `/readinessProjects` endpoint. */
  datatype ReadinessRecord = ReadinessRecord(
    agreementReference: Option<string>,
    activity: Option<string>,
    projectTitle: Option<string>,
    countries: seq<CountryEntry>,
    deliveryPartner: Option<string>,
    region: Option<string>,
    status: Option<string>,
    agreementSignedDate: Option<string>,
    amountApprovedInUsd: Option<real>)

  /** A row of the funded-activities table. `faFinancing` is None where the CSV cell is "". */
  datatype ActivityRow = ActivityRow(
    ref: string,
    modality: string,
    projectName: Option<string>,
    entity: Option<string>,
    countries: string,
    countryCodes: string,
    boardMeeting: string,
    sector: string,
    theme: string,
    projectSize: string,
    approvalDate: Option<string>,
    completionDate: Option<string>,
    essCategory: string,
    faFinancing: Option<real>,
    resultAreas: string,
    status: string,
    projectUrl: string,
    apiUrl: string)

  /** What a country row takes from the first country entry that creates it. */
  datatype CountryMeta = CountryMeta(
    countryName: string,
    region: string,
    ldcs: bool,
    sids: bool,
    approvalDate: Option<string>)

  /** A row of the countries table. */
  datatype CountryRow = CountryRow(
    iso3: string,
    countryName: string,
    region: string,
    ldcs: bool,
    sids: bool,
    faFinancing: real,
    faCount: nat,
    approvalDate: Option<string>)

  /** What an entity row takes from the first entity entry that creates it. */
  datatype EntityMeta = EntityMeta(
    name: string,
    dae: string,
    entityType: string,
    sector: Option<string>,
    approvalDate: Option<string>)

  /** A row of the entities table. */
  datatype EntityRow = EntityRow(
    entity: string,
    name: string,
    dae: string,
    entityType: string,
    sector: Option<string>,
    approved: nat,
    faFinancing: real,
    approvalDate: Option<string>)

  /** A row of the readiness table. */
  datatype ReadinessRow = ReadinessRow(
    ref: Option<string>,
    activity: Option<string>,
    projectTitle: Option<string>,
    country: Option<string>,
    deliveryPartner: Option<string>,
    region: Option<string>,
    status: Option<string>,
    approvalDate: Option<string>,
    financing: Option<real>)

  /** The exceptions the core lets escape. */
  datatype Error =
    | MalformedTimestamp(text: string)   // ValueError from datetime.fromisoformat
    | MalformedPercentage(text: string)  // ValueError from float()
    | AreaNameMissing                    // TypeError: ", ".join met a None area name
    | NoCountries                        // ZeroDivisionError: funding / len([])
    | UnreadableDate(text: string)       // parse_date could not read a row's date

  /** The library parsers the core calls: `datetime.fromisoformat` (None for ValueError) and
      `float` on a string (None for ValueError). */
  datatype Library = Library(
    fromIsoFormat: string -> Option<CalendarDate>,
    parseFloat: string -> Option<real>)
}
