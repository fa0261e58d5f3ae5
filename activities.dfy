/** The activity mapper `_get_activities_data`: one flat row per raw project. */
module Activities {
  import opened Wrappers
  import opened Text
  import opened Dates
  import opened Collect
  import opened Records
  import opened DateFields

  /** The funding-modality tag: "FP" for a funding proposal, "SAP" for the simplified approval
      process, read from the prefix of the reference; an absent reference reads as "". */
  function Modality(ref: string): (m: string)
    ensures m == "FP" <==> "FP" <= ref
    ensures m == "SAP" <==> "SAP" <= ref
    ensures m == "" <==> !("FP" <= ref) && !("SAP" <= ref)
  {
    if "FP" <= ref then
      assert ref[0] == 'F' && !("SAP" <= ref) by {
        assert "FP"[0] == ref[0];
      }
      "FP"
    else if "SAP" <= ref then "SAP"
    else ""
  }

  /** `[c.get("ISO3") for c in countries if "ISO3" in c]`: presence of the key decides,
      not truthiness, so an empty code is kept. */
  function IsoCodes(countries: seq<CountryEntry>): (codes: seq<string>)
    ensures |codes| <= |countries|
    ensures forall c :: c in codes <==> exists i :: 0 <= i < |countries| && countries[i].iso3 == Some(c)
    decreases |countries|
  {
    if |countries| == 0 then []
    else
      assert forall i :: 1 <= i < |countries| ==> countries[1..][i - 1] == countries[i];
      (if countries[0].iso3.Some? then [countries[0].iso3.value] else []) + IsoCodes(countries[1..])
  }

  /** `[c.get("CountryName") for c in countries if "CountryName" in c]`, computed independently
      of the codes. */
  function CountryNames(countries: seq<CountryEntry>): (names: seq<string>)
    ensures |names| <= |countries|
    ensures forall n :: n in names <==> exists i :: 0 <= i < |countries| && countries[i].countryName == Some(n)
    decreases |countries|
  {
    if |countries| == 0 then []
    else
      assert forall i :: 1 <= i < |countries| ==> countries[1..][i - 1] == countries[i];
      (if countries[0].countryName.Some? then [countries[0].countryName.value] else []) + CountryNames(countries[1..])
  }

  /** The codes keep the order of the entries and list each entry's code once: a single entry
      gives its code exactly when it has the `ISO3` key, and a concatenation of entry lists
      gives the concatenation of their codes. */
  lemma {:induction false} IsoCodesAppend(a: seq<CountryEntry>, b: seq<CountryEntry>)
    ensures |a| == 1 ==> IsoCodes(a) == (if a[0].iso3.Some? then [a[0].iso3.value] else [])
    ensures IsoCodes(a + b) == IsoCodes(a) + IsoCodes(b)
    decreases |a|
  {
    if |a| > 0 {
      assert (a + b)[1..] == a[1..] + b;
      IsoCodesAppend(a[1..], b);
    } else {
      assert a + b == b;
    }
  }

  /** The names keep the order of the entries and list each entry's name once: a single entry
      gives its name exactly when it has the `CountryName` key, and a concatenation of entry
      lists gives the concatenation of their names. */
  lemma {:induction false} CountryNamesAppend(a: seq<CountryEntry>, b: seq<CountryEntry>)
    ensures |a| == 1 ==> CountryNames(a) == (if a[0].countryName.Some? then [a[0].countryName.value] else [])
    ensures CountryNames(a + b) == CountryNames(a) + CountryNames(b)
    decreases |a|
  {
    if |a| > 0 {
      assert (a + b)[1..] == a[1..] + b;
      CountryNamesAppend(a[1..], b);
    } else {
      assert a + b == b;
    }
  }

  /** `float(a["Value"].rstrip("%"))` for an entry with a truthy value; None where it raises. */
  function Percentage(lib: Library, e: ResultAreaEntry): Option<real>
    requires Truthy(e.value)
  {
    lib.parseFloat(RStripChar(e.value.value, '%'))
  }

  /** The entry's value does not make the comprehension raise. */
  predicate Readable(lib: Library, e: ResultAreaEntry) {
    !Truthy(e.value) || Percentage(lib, e).Some?
  }

  /** The entry passes the comprehension's filter: a truthy value above zero percent. */
  predicate Kept(lib: Library, e: ResultAreaEntry) {
    Truthy(e.value) && Percentage(lib, e).Some? && Percentage(lib, e).value > 0.0
  }

  /** What one entry contributes to the comprehension: its area when kept, nothing when
      filtered out, or the exception float() raises on its value. */
  function AreaOf(lib: Library, e: ResultAreaEntry): (r: Result<seq<Option<string>>, Error>)
    ensures r.Success? <==> Readable(lib, e)
    ensures r.Failure? ==> r.error == MalformedPercentage(e.value.value)
    ensures r.Success? ==> forall a :: a in r.value <==> Kept(lib, e) && e.area == a
  {
    if !Readable(lib, e) then Failure(MalformedPercentage(e.value.value))
    else Success(if Kept(lib, e) then [e.area] else [])
  }

  function AreasOf(lib: Library): ResultAreaEntry -> Result<seq<Option<string>>, Error> {
    e => AreaOf(lib, e)
  }

  /** `[a.get("Area") for a in entries if a.get("Value") and float(...) > 0]`, evaluated left
      to right, so the first unreadable value raises. */
  function SelectedAreas(lib: Library, entries: seq<ResultAreaEntry>): Result<seq<Option<string>>, Error> {
    ConcatAll(AreasOf(lib), entries)
  }

  /** The selection succeeds exactly when every entry's value is absent, empty or readable by
      float(). */
  lemma SelectedAreasReadable(lib: Library, entries: seq<ResultAreaEntry>)
    ensures SelectedAreas(lib, entries).Success? <==> forall i :: 0 <= i < |entries| ==> Readable(lib, entries[i])
  {
    ConcatAllOk(AreasOf(lib), entries);
  }

  /** The kept areas are exactly those of entries with a truthy value above zero percent, and
      the exception is that of the first entry whose value float() cannot read. */
  lemma SelectedAreasSpec(lib: Library, entries: seq<ResultAreaEntry>)
    ensures SelectedAreas(lib, entries).Success? ==>
              forall a :: a in SelectedAreas(lib, entries).value <==>
                exists i :: 0 <= i < |entries| && Kept(lib, entries[i]) && entries[i].area == a
    ensures SelectedAreas(lib, entries).Failure? ==>
              exists i :: (0 <= i < |entries| && !Readable(lib, entries[i]) &&
                           (forall j :: 0 <= j < i ==> Readable(lib, entries[j])) &&
                           SelectedAreas(lib, entries).error == MalformedPercentage(entries[i].value.value))
  {
    var f := AreasOf(lib);
    if SelectedAreas(lib, entries).Success? {
      forall a
        ensures a in SelectedAreas(lib, entries).value <==>
                  exists i :: 0 <= i < |entries| && Kept(lib, entries[i]) && entries[i].area == a
      {
        ConcatAllMember(f, entries, a);
        if a in SelectedAreas(lib, entries).value {
          var i :| 0 <= i < |entries| && f(entries[i]).Success? && a in f(entries[i]).value;
          assert Kept(lib, entries[i]) && entries[i].area == a;
        }
        if exists i :: 0 <= i < |entries| && Kept(lib, entries[i]) && entries[i].area == a {
          var i :| 0 <= i < |entries| && Kept(lib, entries[i]) && entries[i].area == a;
          assert f(entries[i]).Success? && a in f(entries[i]).value;
        }
      }
    } else {
      ConcatAllFails(f, entries);
      var i :| 0 <= i < |entries| && f(entries[i]).Failure? && (forall j :: 0 <= j < i ==> f(entries[j]).Success?) &&
               SelectedAreas(lib, entries).error == f(entries[i]).error;
      assert !Readable(lib, entries[i]);
    }
  }

  /** The selection distributes over concatenation, so the kept areas keep the order of the
      entries, and the first unreadable entry decides the exception. */
  lemma SelectedAreasAppend(lib: Library, a: seq<ResultAreaEntry>, b: seq<ResultAreaEntry>)
    ensures SelectedAreas(lib, a).Failure? ==> SelectedAreas(lib, a + b) == SelectedAreas(lib, a)
    ensures SelectedAreas(lib, a).Success? && SelectedAreas(lib, b).Failure? ==> SelectedAreas(lib, a + b) == SelectedAreas(lib, b)
    ensures SelectedAreas(lib, a).Success? && SelectedAreas(lib, b).Success? ==>
              SelectedAreas(lib, a + b) == Success(SelectedAreas(lib, a).value + SelectedAreas(lib, b).value)
  {
    var f := AreasOf(lib);
    if SelectedAreas(lib, a).Failure? {
      ConcatAllAppendFails(f, a, b);
    } else if SelectedAreas(lib, b).Failure? {
      ConcatAllAppendLate(f, a, b);
    } else {
      ConcatAllAppendOk(f, a, b);
    }
  }

  function Unwrap(names: seq<Option<string>>): (r: seq<string>)
    requires forall i :: 0 <= i < |names| ==> names[i].Some?
    ensures |r| == |names| && forall i :: 0 <= i < |names| ==> names[i] == Some(r[i])
  {
    seq(|names|, i requires 0 <= i < |names| => names[i].value)
  }

  /** `", ".join(areas)`: the join raises when a kept entry has no `Area`. */
  function ResultAreas(lib: Library, entries: seq<ResultAreaEntry>): (r: Result<string, Error>)
    ensures SelectedAreas(lib, entries).Failure? ==> r == Failure(SelectedAreas(lib, entries).error)
    ensures SelectedAreas(lib, entries).Success? ==>
              (r == Failure(AreaNameMissing) <==> None in SelectedAreas(lib, entries).value)
    ensures r.Success? ==>
              SelectedAreas(lib, entries).Success? &&
              r.value == Join(Unwrap(SelectedAreas(lib, entries).value), ", ")
  {
    var selected :- SelectedAreas(lib, entries);
    if forall i :: 0 <= i < |selected| ==> selected[i].Some? then Success(Join(Unwrap(selected), ", "))
    else Failure(AreaNameMissing)
  }

  const ApiPrefix: string := "http://api.gcfund.org/v1/projects/"

  /** The `API URL` column: the projects API prefix and the project ID in plain decimal, which
      reads back from the rest of the URL; an absent ID leaves the bare prefix. */
  function ApiUrl(projectsId: Option<nat>): (url: string)
    ensures |ApiPrefix| <= |url| && url[..|ApiPrefix|] == ApiPrefix
    ensures ParseNat(url[|ApiPrefix|..]) == projectsId
    ensures projectsId.None? ==> url == ApiPrefix
    ensures projectsId.Some? ==>
              |url| > |ApiPrefix| && (url[|ApiPrefix|] == '0' <==> projectsId.value == 0) &&
              (projectsId.value == 0 ==> url == ApiPrefix + "0")
  {
    var id := if projectsId.Some? then NatToString(projectsId.value) else "";
    assert ParseNat(id) == projectsId by {
      if projectsId.Some? {
        ParseNatToString(projectsId.value);
      }
    }
    assert (ApiPrefix + id)[|ApiPrefix|..] == id;
    ApiPrefix + id
  }

  /** The body of the loop of `_get_activities_data` for one record, without the update of the
      set of seen codes. The approval date is formatted first, then the completion date, then
      the result areas; the first of them to raise decides the exception. */
  function MapActivity(lib: Library, record: ProjectRecord): (r: Result<ActivityRow, Error>)
    ensures r.Success? <==>
              FormatDate(lib, record.approvalDate).Success? &&
              FormatDate(lib, record.dateCompletion).Success? &&
              ResultAreas(lib, record.resultAreas).Success?
    ensures FormatDate(lib, record.approvalDate).Failure? ==> r == Failure(FormatDate(lib, record.approvalDate).error)
    ensures FormatDate(lib, record.approvalDate).Success? && FormatDate(lib, record.dateCompletion).Failure? ==>
              r == Failure(FormatDate(lib, record.dateCompletion).error)
    ensures FormatDate(lib, record.approvalDate).Success? && FormatDate(lib, record.dateCompletion).Success? &&
            ResultAreas(lib, record.resultAreas).Failure? ==>
              r == Failure(ResultAreas(lib, record.resultAreas).error)
    ensures r.Success? ==>
              Success(r.value.approvalDate) == FormatDate(lib, record.approvalDate) &&
              Success(r.value.completionDate) == FormatDate(lib, record.dateCompletion) &&
              Success(r.value.resultAreas) == ResultAreas(lib, record.resultAreas)
    ensures r.Success? ==> IsDisplayed(r.value.approvalDate) && IsDisplayed(r.value.completionDate)
  {
    var approval :- FormatDate(lib, record.approvalDate);
    var completion :- FormatDate(lib, record.dateCompletion);
    var areas :- ResultAreas(lib, record.resultAreas);
    var ref := record.approvedRef.GetOr("");
    Success(ActivityRow(
      ref := ref,
      modality := Modality(ref),
      projectName := record.projectName,
      entity := if |record.entities| > 0 then record.entities[0].acronym else None,
      countries := Join(CountryNames(record.countries), ", "),
      countryCodes := Join(IsoCodes(record.countries), ", "),
      boardMeeting := record.boardMeeting.GetOr(""),
      sector := record.sector.GetOr(""),
      theme := record.theme.GetOr(""),
      projectSize := record.size.GetOr(""),
      approvalDate := approval,
      completionDate := completion,
      essCategory := record.riskCategory.GetOr(""),
      faFinancing := record.totalGcfFunding,
      resultAreas := areas,
      status := record.status.GetOr(""),
      projectUrl := record.projectUrl.GetOr(""),
      apiUrl := ApiUrl(record.projectsId)))
  }

  function ActivityOf(lib: Library): ProjectRecord -> Result<ActivityRow, Error> {
    record => MapActivity(lib, record)
  }

  /** The table `_get_activities_data` returns, or the exception it raises. */
  function ActivitiesData(lib: Library, records: seq<ProjectRecord>): Result<seq<ActivityRow>, Error> {
    MapAll(ActivityOf(lib), records)
  }

  /** One row per project, in input order, none dropped, and the table exists exactly when no
      record raises. */
  lemma ActivitiesOneToOne(lib: Library, records: seq<ProjectRecord>)
    ensures ActivitiesData(lib, records).Success? <==> forall i :: 0 <= i < |records| ==> MapActivity(lib, records[i]).Success?
    ensures ActivitiesData(lib, records).Success? ==>
              |ActivitiesData(lib, records).value| == |records| &&
              forall i :: 0 <= i < |records| ==> ActivitiesData(lib, records).value[i] == MapActivity(lib, records[i]).value
  {
    MapAllOneToOne(ActivityOf(lib), records);
  }

  /** The `Approval Date` column of an activity table. */
  function ApprovalColumn(rows: seq<ActivityRow>): (column: seq<Option<string>>)
    ensures |column| == |rows| && forall i :: 0 <= i < |rows| ==> column[i] == rows[i].approvalDate
  {
    seq(|rows|, i requires 0 <= i < |rows| => rows[i].approvalDate)
  }

  /** The approval dates of an activity table always read back, so its date range never raises. */
  lemma ActivitiesDatesReadable(lib: Library, records: seq<ProjectRecord>)
    requires ActivitiesData(lib, records).Success?
    ensures ReadDates(ApprovalColumn(ActivitiesData(lib, records).value)).Success?
  {
    ActivitiesOneToOne(lib, records);
    var column := ApprovalColumn(ActivitiesData(lib, records).value);
    forall i | 0 <= i < |column|
      ensures IsDisplayed(column[i])
    {
      assert column[i] == MapActivity(lib, records[i]).value.approvalDate;
    }
    ReadDisplayedDates(column);
  }
}
