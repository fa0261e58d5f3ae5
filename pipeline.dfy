/** The `Pipeline` object: it downloads the two GCF endpoints at most once each, keeps the
    set of country codes the activity mapper has seen, and builds the five tables. */
module GcfPipeline {
  import opened Wrappers
  import opened Text
  import opened Dates
  import opened Collect
  import opened Tally
  import opened Grouping
  import opened Records
  import opened DateFields
  import opened Activities
  import opened ByCountry
  import opened Readiness
  import opened Aggregates

  /** The retriever the pipeline downloads through: it serves fixed payloads for the two
      endpoints and logs every URL it is asked for. */
  class Retriever {
    const projects: seq<ProjectRecord>
    const readiness: seq<ReadinessRecord>
    var requests: seq<string>

    constructor (projects: seq<ProjectRecord>, readiness: seq<ReadinessRecord>)
      ensures this.projects == projects && this.readiness == readiness && requests == []
    {
      this.projects := projects;
      this.readiness := readiness;
      requests := [];
    }

    /** `download_json(url)` on the projects endpoint. */
    method DownloadProjects(url: string) returns (data: seq<ProjectRecord>)
      modifies this
      ensures data == projects && requests == old(requests) + [url]
    {
      requests := requests + [url];
      data := projects;
    }

    /** `download_json(url)` on the readiness endpoint. */
    method DownloadReadiness(url: string) returns (data: seq<ReadinessRecord>)
      modifies this
      ensures data == readiness && requests == old(requests) + [url]
    {
      requests := requests + [url];
      data := readiness;
    }
  }

  function ProjectsUrl(baseUrl: string): string {
    baseUrl + "/projects"
  }

  function ReadinessUrl(baseUrl: string): string {
    baseUrl + "/readinessProjects"
  }

  /** The two endpoints are distinct URLs, so downloading one never counts as the other. */
  lemma UrlsDiffer(baseUrl: string)
    ensures ProjectsUrl(baseUrl) != ReadinessUrl(baseUrl)
  {
    assert ProjectsUrl(baseUrl)[|baseUrl| + 1] == 'p';
    assert ReadinessUrl(baseUrl)[|baseUrl| + 1] == 'r';
  }

  lemma OccurrencesSnoc<T>(s: seq<T>, x: T, y: T)
    ensures Occurrences(s + [y], x) == Occurrences(s, x) + (if x == y then 1 else 0)
  {
    assert (s + [y])[..|s|] == s;
  }

  /** The ISO3 codes `_get_activities_data` adds to the set of seen countries for `records`. */
  function CodeSet(records: seq<ProjectRecord>): set<string>
    decreases |records|
  {
    if |records| == 0 then {}
    else CodeSet(records[..|records| - 1]) + Elements(IsoCodes(records[|records| - 1].countries))
  }

  /** A code is seen exactly when some country entry of the records carries the `ISO3` key
      with it, whatever its truthiness. */
  lemma {:induction false} CodeSetMembers(records: seq<ProjectRecord>, c: string)
    ensures c in CodeSet(records) <==>
              exists p, q :: 0 <= p < |records| && 0 <= q < |records[p].countries| && records[p].countries[q].iso3 == Some(c)
    decreases |records|
  {
    if |records| > 0 {
      var n := |records| - 1;
      var init, last := records[..n], records[n];
      CodeSetMembers(init, c);
      assert forall p :: 0 <= p < n ==> init[p] == records[p];
      assert CodeSet(records) == CodeSet(init) + Elements(IsoCodes(last.countries));
    }
  }

  lemma CodeSetStep(records: seq<ProjectRecord>, i: nat)
    requires i < |records|
    ensures CodeSet(records[..i + 1]) == CodeSet(records[..i]) + Elements(IsoCodes(records[i].countries))
  {
    assert records[..i + 1][..i] == records[..i];
  }

  /** The loop of `_get_activities_data`: the activity rows, or the first exception, and the
      ISO3 codes of every record looked at, the raising one included. */
  method MapActivities(lib: Library, records: seq<ProjectRecord>)
    returns (res: Result<seq<ActivityRow>, Error>, seen: set<string>)
    ensures res == ActivitiesData(lib, records)
    ensures seen == CodeSet(Touched(ActivityOf(lib), records))
  {
    var f := ActivityOf(lib);
    var rows: seq<ActivityRow> := [];
    seen := {};
    var i := 0;
    while i < |records|
      invariant 0 <= i <= |records|
      invariant MapAll(f, records[..i]) == Success(rows)
      invariant seen == CodeSet(records[..i])
    {
      var record := records[i];
      seen := seen + Elements(IsoCodes(record.countries));
      CodeSetStep(records, i);
      var row := f(record);
      if row.Failure? {
        TouchedStops(f, records, i);
        MapAllStops(f, records, i);
        res := Failure(row.error);
        return;
      }
      MapAllStep(f, records, i);
      rows := rows + [row.value];
      i := i + 1;
    }
    assert records[..i] == records;
    res := Success(rows);
  }

  class Pipeline {
    const baseUrl: string
    const retriever: Retriever
    /** The library parsers, fixed for the pipeline's lifetime. */
    const lib: Library
    var projectData: Option<seq<ProjectRecord>>
    var readinessData: Option<seq<ReadinessRecord>>
    var countries: set<string>
    /** The retriever's log when the pipeline was made. */
    ghost const log0: seq<string>

    /** A cached payload is what the retriever serves, and each endpoint has been requested
        once since the pipeline was made if its payload is cached, and never otherwise. */
    ghost predicate Valid()
      reads this, retriever
    {
      (projectData.Some? ==> projectData.value == retriever.projects) &&
      (readinessData.Some? ==> readinessData.value == retriever.readiness) &&
      Occurrences(retriever.requests, ProjectsUrl(baseUrl)) ==
        Occurrences(log0, ProjectsUrl(baseUrl)) + (if projectData.Some? then 1 else 0) &&
      Occurrences(retriever.requests, ReadinessUrl(baseUrl)) ==
        Occurrences(log0, ReadinessUrl(baseUrl)) + (if readinessData.Some? then 1 else 0)
    }

    constructor (baseUrl: string, retriever: Retriever, lib: Library)
      ensures Valid()
      ensures this.baseUrl == baseUrl && this.retriever == retriever && this.lib == lib
      ensures projectData == None && readinessData == None && countries == {}
    {
      this.baseUrl := baseUrl;
      this.retriever := retriever;
      this.lib := lib;
      projectData := None;
      readinessData := None;
      countries := {};
      log0 := retriever.requests;
    }

    /** `_fetch_project_data`: downloads the projects on the first call only. */
    method FetchProjectData() returns (data: seq<ProjectRecord>)
      requires Valid()
      modifies this, retriever
      ensures Valid()
      ensures data == retriever.projects && projectData == Some(data)
      ensures retriever.requests == old(retriever.requests) + (if old(projectData).None? then [ProjectsUrl(baseUrl)] else [])
      ensures readinessData == old(readinessData) && countries == old(countries)
    {
      if projectData.None? {
        var url := ProjectsUrl(baseUrl);
        var downloaded := retriever.DownloadProjects(url);
        projectData := Some(downloaded);
        UrlsDiffer(baseUrl);
        OccurrencesSnoc(old(retriever.requests), url, url);
        OccurrencesSnoc(old(retriever.requests), ReadinessUrl(baseUrl), url);
      }
      data := projectData.value;
    }

    /** `_fetch_readiness_data`: downloads the readiness programmes on the first call only. */
    method FetchReadinessData() returns (data: seq<ReadinessRecord>)
      requires Valid()
      modifies this, retriever
      ensures Valid()
      ensures data == retriever.readiness && readinessData == Some(data)
      ensures retriever.requests == old(retriever.requests) + (if old(readinessData).None? then [ReadinessUrl(baseUrl)] else [])
      ensures projectData == old(projectData) && countries == old(countries)
    {
      if readinessData.None? {
        var url := ReadinessUrl(baseUrl);
        var downloaded := retriever.DownloadReadiness(url);
        readinessData := Some(downloaded);
        UrlsDiffer(baseUrl);
        OccurrencesSnoc(old(retriever.requests), url, url);
        OccurrencesSnoc(old(retriever.requests), ProjectsUrl(baseUrl), url);
      }
      data := readinessData.value;
    }

    /** `_get_activities_data`: the activity table, or the first exception. The codes of every
        record looked at, the raising one included, join the set of seen countries. */
    method GetActivitiesData() returns (res: Result<seq<ActivityRow>, Error>)
      requires Valid()
      modifies this, retriever
      ensures Valid()
      ensures res == ActivitiesData(lib, retriever.projects)
      ensures countries == old(countries) + CodeSet(Touched(ActivityOf(lib), retriever.projects))
      ensures projectData == Some(retriever.projects) && readinessData == old(readinessData)
      ensures retriever.requests == old(retriever.requests) + (if old(projectData).None? then [ProjectsUrl(baseUrl)] else [])
    {
      var records := FetchProjectData();
      var seen;
      res, seen := MapActivities(lib, records);
      assert Valid();
      countries := countries + seen;
    }

    /** `_get_readiness_data`: the readiness table, or the first exception. */
    method GetReadinessData() returns (res: Result<seq<ReadinessRow>, Error>)
      requires Valid()
      modifies this, retriever
      ensures Valid()
      ensures res == ReadinessData(lib, retriever.readiness)
      ensures readinessData == Some(retriever.readiness) && projectData == old(projectData) && countries == old(countries)
      ensures retriever.requests == old(retriever.requests) + (if old(readinessData).None? then [ReadinessUrl(baseUrl)] else [])
    {
      var records := FetchReadinessData();
      var f := ReadinessOf(lib);
      var rows: seq<ReadinessRow> := [];
      var i := 0;
      while i < |records|
        invariant 0 <= i <= |records| && records == retriever.readiness
        invariant MapAll(f, records[..i]) == Success(rows)
        modifies {}
      {
        var row := MapReadiness(lib, records[i]);
        assert f(records[i]) == row;
        if row.Failure? {
          MapAllStops(f, records, i);
          res := Failure(row.error);
          return;
        }
        MapAllStep(f, records, i);
        rows := rows + [row.value];
        i := i + 1;
      }
      assert records[..i] == records;
      res := Success(rows);
    }

    /** `_get_countries_data`: the countries table, or the first exception; the dictionary is
        updated in place, one country entry at a time. */
    method GetCountriesData() returns (res: Result<seq<CountryRow>, Error>)
      requires Valid()
      modifies this, retriever
      ensures Valid()
      ensures res == CountriesData(lib, retriever.projects)
      ensures projectData == Some(retriever.projects) && readinessData == old(readinessData) && countries == old(countries)
      ensures retriever.requests == old(retriever.requests) + (if old(projectData).None? then [ProjectsUrl(baseUrl)] else [])
    {
      var records := FetchProjectData();
      res := TallyCountries(lib, records);
    }

    /** `_get_entities_data`: the entities table, or the first exception; the dictionary is
        updated in place, one entity entry at a time. */
    method GetEntitiesData() returns (res: Result<seq<EntityRow>, Error>)
      requires Valid()
      modifies this, retriever
      ensures Valid()
      ensures res == EntitiesData(lib, retriever.projects)
      ensures projectData == Some(retriever.projects) && readinessData == old(readinessData) && countries == old(countries)
      ensures retriever.requests == old(retriever.requests) + (if old(projectData).None? then [ProjectsUrl(baseUrl)] else [])
    {
      var records := FetchProjectData();
      res := TallyEntities(lib, records);
    }

    /** `get_activities_by_country`: the activity table grouped by country code, or the
        exception the activity mapper raises. */
    method GetActivitiesByCountry() returns (res: Result<Groups<ActivityRow>, Error>)
      requires Valid()
      modifies this, retriever
      ensures Valid()
      ensures ActivitiesData(lib, retriever.projects).Failure? ==> res == Failure(ActivitiesData(lib, retriever.projects).error)
      ensures ActivitiesData(lib, retriever.projects).Success? ==>
                res == Success(ActivitiesByCountry(ActivitiesData(lib, retriever.projects).value))
      ensures countries == old(countries) + CodeSet(Touched(ActivityOf(lib), retriever.projects))
      ensures projectData == Some(retriever.projects) && readinessData == old(readinessData)
      ensures retriever.requests == old(retriever.requests) + (if old(projectData).None? then [ProjectsUrl(baseUrl)] else [])
    {
      var projects := GetActivitiesData();
      if projects.Failure? {
        res := Failure(projects.error);
        return;
      }
      var rows := projects.value;
      var grouped := GroupPairs(CodeColumn(rows), rows);
      res := Success(grouped);
    }

    /** `_get_date_range` over the `Approval Date` column of a table: the earliest and latest
        date, (None, None) when no row has a date, or the exception of the first date that
        cannot be read. */
    static method GetDateRange(column: seq<Option<string>>) returns (res: Result<(Option<CalendarDate>, Option<CalendarDate>), Error>)
      ensures res.Success? <==> ReadDates(column).Success?
      ensures res.Failure? ==> res.error == ReadDates(column).error
      ensures res.Success? ==> res.value == RangeOf(ReadDates(column).value)
    {
      var dates: seq<CalendarDate> := [];
      var i := 0;
      while i < |column|
        invariant 0 <= i <= |column|
        invariant ReadDates(column[..i]) == Success(dates)
      {
        var date := column[i];
        assert column[..i + 1][..i] == column[..i];
        if Truthy(date) {
          var parsed := ParseDisplayDate(date.value);
          if parsed.None? {
            ReadDatesStops(column, i);
            res := Failure(UnreadableDate(date.value));
            return;
          }
          dates := dates + [parsed.value];
        }
        i := i + 1;
      }
      assert column[..i] == column;
      res := Success(RangeOf(dates));
    }
  }
}
