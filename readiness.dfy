/** The readiness mapper `_get_readiness_data`: one row per readiness programme. */
module Readiness {
  import opened Wrappers
  import opened Text
  import opened Collect
  import opened Records
  import opened DateFields

  /** The country name of the first country entry, None for an empty list or an entry
      without a name. */
  function FirstCountryName(countries: seq<CountryEntry>): (name: Option<string>)
    ensures |countries| == 0 ==> name == None
    ensures |countries| > 0 ==> name == countries[0].countryName
  {
    if |countries| > 0 then countries[0].countryName else None
  }

  /** The loop body of `_get_readiness_data` for one record: only the signing date can raise. */
  function MapReadiness(lib: Library, rec: ReadinessRecord): (r: Result<ReadinessRow, Error>)
    ensures r.Success? <==> FormatDate(lib, rec.agreementSignedDate).Success?
    ensures r.Failure? ==> r.error == MalformedTimestamp(rec.agreementSignedDate.value)
    ensures r.Success? ==> IsDisplayed(r.value.approvalDate)
    ensures r.Success? ==> r.value.financing == rec.amountApprovedInUsd && r.value.ref == rec.agreementReference
    ensures r.Success? ==> Success(r.value.approvalDate) == FormatDate(lib, rec.agreementSignedDate)
    ensures r.Success? ==> r.value.country == FirstCountryName(rec.countries)
    ensures r.Success? ==>
              r.value.activity == rec.activity && r.value.projectTitle == rec.projectTitle &&
              r.value.deliveryPartner == rec.deliveryPartner && r.value.region == rec.region &&
              r.value.status == rec.status
  {
    var approval :- FormatDate(lib, rec.agreementSignedDate);
    Success(ReadinessRow(
      ref := rec.agreementReference,
      activity := rec.activity,
      projectTitle := rec.projectTitle,
      country := FirstCountryName(rec.countries),
      deliveryPartner := rec.deliveryPartner,
      region := rec.region,
      status := rec.status,
      approvalDate := approval,
      financing := rec.amountApprovedInUsd))
  }

  function ReadinessOf(lib: Library): ReadinessRecord -> Result<ReadinessRow, Error> {
    rec => MapReadiness(lib, rec)
  }

  /** The table `_get_readiness_data` returns, or the exception it raises. */
  function ReadinessData(lib: Library, records: seq<ReadinessRecord>): Result<seq<ReadinessRow>, Error> {
    MapAll(ReadinessOf(lib), records)
  }

  /** A row reads only the first country entry: the entries after it change nothing, and a
      programme without countries gets no country. */
  lemma OnlyFirstCountry(lib: Library, rec: ReadinessRecord, first: CountryEntry, others: seq<CountryEntry>)
    ensures MapReadiness(lib, rec.(countries := [first] + others)) == MapReadiness(lib, rec.(countries := [first]))
    ensures MapReadiness(lib, rec.(countries := [])).Success? ==> MapReadiness(lib, rec.(countries := [])).value.country == None
  {
  }

  /** One row per programme, in input order; the table exists exactly when every signing date
      is readable, and otherwise the first unreadable one decides the exception. */
  lemma ReadinessOneToOne(lib: Library, records: seq<ReadinessRecord>)
    ensures ReadinessData(lib, records).Success? <==>
              forall i :: 0 <= i < |records| ==> FormatDate(lib, records[i].agreementSignedDate).Success?
    ensures ReadinessData(lib, records).Success? ==>
              |ReadinessData(lib, records).value| == |records| &&
              forall i :: 0 <= i < |records| ==> ReadinessData(lib, records).value[i] == MapReadiness(lib, records[i]).value
    ensures ReadinessData(lib, records).Failure? ==>
              var i := LeadingOk(ReadinessOf(lib), records);
              i < |records| && ReadinessData(lib, records).error == MalformedTimestamp(records[i].agreementSignedDate.value)
  {
    var f := ReadinessOf(lib);
    MapAllOneToOne(f, records);
    var i := LeadingOk(f, records);
    if i < |records| {
      MapAllOneToOne(f, records[..i]);
      assert forall k :: 0 <= k < i ==> records[..i][k] == records[k];
      MapAllStops(f, records, i);
    }
  }
}
