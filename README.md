# GCF pipeline model

A Dafny model of the `Pipeline` class of the HDX scraper for the Green Climate Fund (GCF)
API. The pipeline downloads two endpoints, `/projects` and `/readinessProjects`, and caches
each payload on first use. It turns the raw records into four flat tables:

- funded activities;
- countries, aggregated by ISO3 code with the funding split evenly over a project's countries;
- entities, aggregated by acronym with each entity credited with the full funding;
- readiness programmes.

It also groups the activity table by country code and computes the date range of a table's
`Approval Date` column. Along the way it writes API timestamps as "Month D, YYYY" and reads
them back for the date range.

The model has these parts:

- `Records` holds the raw JSON records as datatypes. A key that may be absent is an `Option`.
  It also holds the rows, the exceptions the core lets escape (`Error`), and the two library
  parsers, as a `Library` value of functions.
- `Text` holds the Python `str` operations the code uses: split, strip, rstrip, replace and
  join.
- `Dates` holds the display date form, its reader and the order of dates.
- `DateFields` holds `_format_date` and `_get_date_range`.
- `Activities`, `Readiness`, `Aggregates` and `ByCountry` hold the four table builders and the
  grouper. Each is a pure specification function, and Aggregates and ByCountry also have the
  loop methods proved equal to it. They rest on the generic `Collect` (map with first
  exception, concatenation, first-seen order), `Tally` (insert-or-update dictionary) and
  `Grouping` (`defaultdict(list)`) modules.
- `GcfPipeline` holds the `Pipeline` class and a `Retriever` class. `Pipeline` has the cached
  payloads and the `_countries` set as fields. `Retriever` serves the two endpoints and logs
  every URL it is asked for.

An exception the Python code would raise is a `Failure` of the `Result` the operation
returns. The first record that raises decides it.

## Model

| member | source | states |
|---|---|---|
| GcfPipeline.Pipeline.constructor | src/hdx/scraper/gcf/pipeline.py:20-27 | nothing is cached and the set of seen countries is empty; the cache invariant holds |
| GcfPipeline.Retriever.DownloadProjects | src/hdx/scraper/gcf/pipeline.py:213 | `download_json` returns the projects payload and logs the URL |
| GcfPipeline.Retriever.DownloadReadiness | src/hdx/scraper/gcf/pipeline.py:219 | `download_json` returns the readiness payload and logs the URL |
| GcfPipeline.UrlsDiffer | src/hdx/scraper/gcf/pipeline.py:212-218 | the projects and readiness URLs differ for every base URL, so the two caches never serve each other |
| GcfPipeline.Pipeline.FetchProjectData | src/hdx/scraper/gcf/pipeline.py:210-214 | returns the projects payload; the URL is requested only when nothing was cached; afterwards the payload is cached; the other fields are unchanged |
| GcfPipeline.Pipeline.FetchReadinessData | src/hdx/scraper/gcf/pipeline.py:216-220 | the same for the readiness payload |
| GcfPipeline.CodeSetMembers | src/hdx/scraper/gcf/pipeline.py:240-242 | a code joins the seen set exactly when some country entry has the `ISO3` key with that value, even an empty one |
| GcfPipeline.MapActivities | src/hdx/scraper/gcf/pipeline.py:229-291 | the loop yields exactly the activity table, or the first exception; it gathers the ISO3 codes of every record it looked at, the raising one included |
| GcfPipeline.Pipeline.GetActivitiesData | src/hdx/scraper/gcf/pipeline.py:222-291 | the activity table, or the first exception, for the projects payload; `_countries` grows by the codes of the records looked at; fetch caching as above |
| GcfPipeline.Pipeline.GetReadinessData | src/hdx/scraper/gcf/pipeline.py:368-398 | the readiness table, or the first exception; only the readiness cache changes |
| GcfPipeline.Pipeline.GetCountriesData | src/hdx/scraper/gcf/pipeline.py:293-331 | the countries table, or the first exception; `_countries` is unchanged |
| GcfPipeline.Pipeline.GetEntitiesData | src/hdx/scraper/gcf/pipeline.py:333-366 | the entities table, or the first exception; `_countries` is unchanged |
| GcfPipeline.Pipeline.GetActivitiesByCountry | src/hdx/scraper/gcf/pipeline.py:400-414 | the activity mapper's exception is passed on; otherwise the result is the activity table grouped by country code; `_countries` grows as in the activity mapper |
| GcfPipeline.Pipeline.GetDateRange | src/hdx/scraper/gcf/pipeline.py:424-435 | fails exactly when some truthy date cannot be read, with that read's error; otherwise the range is that of the dates read |
| Activities.Modality | src/hdx/scraper/gcf/pipeline.py:250-257 | "FP" exactly when the reference starts with FP, "SAP" exactly when it starts with SAP, "" exactly when neither |
| Activities.IsoCodesAppend | src/hdx/scraper/gcf/pipeline.py:241 | the codes follow the entries in order, one per entry with the `ISO3` key (empty codes included): a single entry gives its code exactly when it has the key, and a concatenation of entry lists gives the concatenation of their codes |
| Activities.CountryNamesAppend | src/hdx/scraper/gcf/pipeline.py:237 | the names follow the entries in order, one per entry with the `CountryName` key: a single entry gives its name exactly when it has the key, and a concatenation gives the concatenation of the names |
| Activities.ApiUrl | src/hdx/scraper/gcf/pipeline.py:287 | the `API URL` cell starts with the projects API prefix, and the `ProjectsID` reads back from the rest; an absent ID leaves the prefix alone, and a present one is written in plain decimal, with a leading zero only for 0 itself |
| Activities.ActivitiesData | src/hdx/scraper/gcf/pipeline.py:229-291 | the activity table as a value: every record mapped by MapActivity, the first exception winning; ActivitiesOneToOne states its shape |
| Activities.AreaOf | src/hdx/scraper/gcf/pipeline.py:262-264 | one result-area entry: fails exactly when float() cannot read its value, with that value; otherwise keeps its area exactly when the value is truthy and above zero |
| Activities.SelectedAreasReadable | src/hdx/scraper/gcf/pipeline.py:261-265 | the comprehension succeeds exactly when every entry's value is readable or falsy |
| Activities.SelectedAreasSpec | src/hdx/scraper/gcf/pipeline.py:261-265 | the kept areas are exactly those of entries with a truthy value above zero; on failure, the error is that of the first unreadable entry |
| Activities.SelectedAreasAppend | src/hdx/scraper/gcf/pipeline.py:261-265 | the selection distributes over concatenation of the entry list: order is kept and the first failure wins |
| Activities.ResultAreas | src/hdx/scraper/gcf/pipeline.py:259-266 | the comprehension's exception is passed on; otherwise the join fails exactly when a kept entry has no area name; on success the cell is the kept names joined with ", " |
| Activities.MapActivity | src/hdx/scraper/gcf/pipeline.py:231-289 | one row: succeeds exactly when both dates format and the result areas join; errors come in source order (approval date, then completion date, then result areas); the two date cells and the areas cell are those results, and the date cells are displayed dates |
| Activities.ActivitiesOneToOne | src/hdx/scraper/gcf/pipeline.py:229-291 | the table exists exactly when every record maps; then it has one row per record, in order, each the record's row |
| Activities.ActivitiesDatesReadable | src/hdx/scraper/gcf/pipeline.py:416-435 | the date range of an activity table never fails, because its dates were written by `_format_date` |
| Readiness.ReadinessData | src/hdx/scraper/gcf/pipeline.py:375-398 | the readiness table as a value; ReadinessOneToOne states its shape and its error |
| Readiness.MapReadiness | src/hdx/scraper/gcf/pipeline.py:376-396 | one row: fails exactly when the signing date does not format, with that text; the date cell is what `_format_date` gives for the signing date; the country is the first entry's name; reference, activity, title, delivery partner, region, status and amount are copied |
| Readiness.OnlyFirstCountry | src/hdx/scraper/gcf/pipeline.py:378-379 | entries after the first country do not change the row; no countries gives no country |
| Readiness.ReadinessOneToOne | src/hdx/scraper/gcf/pipeline.py:373-398 | the table exists exactly when every signing date formats; then it has one row per record, in order; otherwise the first failing record decides the error |
| DateFields.FormatDate | src/hdx/scraper/gcf/pipeline.py:416-422 | a falsy date gives None; otherwise it fails exactly when fromisoformat rejects the text after the Z replacement; the rendered text is non-empty and reads back as the parsed date |
| DateFields.ReadDates | src/hdx/scraper/gcf/pipeline.py:425-430 | succeeds exactly when every truthy cell reads; the dates read are exactly those of the truthy cells; a failure names one such cell |
| DateFields.ReadDatesStops | src/hdx/scraper/gcf/pipeline.py:426-430 | an unreadable cell after a readable prefix decides the failure |
| DateFields.RangeOf | src/hdx/scraper/gcf/pipeline.py:432-435 | (None, None) exactly when there are no dates; otherwise the pair is a member minimum and a member maximum |
| DateFields.ReadDisplayedDates | src/hdx/scraper/gcf/pipeline.py:416-435 | a column of cells written by `_format_date` always reads |
| Dates.Render | src/hdx/scraper/gcf/pipeline.py:421 | the display form "Month D, YYYY"; ParseRender states that ParseDisplayDate reads it back, and RenderNonEmpty that it is never empty |
| Dates.ParseDisplayDate | src/hdx/scraper/gcf/pipeline.py:430 | the reader of the display form that stands in for `parse_date`; ParseParts states how it reads a string of that shape, and ParseRender that it inverts Render |
| Dates.MonthName | src/hdx/scraper/gcf/pipeline.py:421 | `%B` names contain no space and no comma |
| Dates.MonthNumber | src/hdx/scraper/gcf/pipeline.py:421 | a month number found for a name is the month of that name |
| Dates.MonthNumberOfName | src/hdx/scraper/gcf/pipeline.py:421 | reading a month name back gives its number |
| Dates.ParseParts | src/hdx/scraper/gcf/pipeline.py:421 | how "Name D, YYYY" is read: month by name, day and year as decimals, a valid date |
| Dates.ParseRender | src/hdx/scraper/gcf/pipeline.py:421 | every rendered date reads back as itself |
| Dates.RenderNonEmpty | src/hdx/scraper/gcf/pipeline.py:421 | a rendered date is never empty, so later truthiness tests keep it |
| Dates.NotAfterTotalOrder | src/hdx/scraper/gcf/pipeline.py:435 | the comparison `min`/`max` use is a total order |
| Dates.Earliest | src/hdx/scraper/gcf/pipeline.py:435 | `min(dates)` is a member and not after any date |
| Dates.Latest | src/hdx/scraper/gcf/pipeline.py:435 | `max(dates)` is a member and not before any date |
| Aggregates.Funding | src/hdx/scraper/gcf/pipeline.py:306 | `record.get("TotalGCFFunding", 0) or 0`; CountryAllocation and CountriesConserveAll state where it goes |
| Aggregates.Share | src/hdx/scraper/gcf/pipeline.py:307 | for a project with countries, the share times the number of country entries is the funding |
| Aggregates.CountriesData | src/hdx/scraper/gcf/pipeline.py:303-331 | the countries table as a value: the tally of every record's country items, the first exception winning; TallyCountries, CountriesSpec, CountriesFirstEntry and CountriesConserve state what it is |
| Aggregates.CountryItems | src/hdx/scraper/gcf/pipeline.py:305-324 | no countries fails with the division by zero; otherwise it fails exactly when the approval date does not format; each entry gets its ISO3 key and the share; the shares multiply back to the funding |
| Aggregates.CountryAllocation | src/hdx/scraper/gcf/pipeline.py:298-307 | one project's country allocations add up to its funding |
| Aggregates.TallyCountries | src/hdx/scraper/gcf/pipeline.py:303-331 | the nested loops with the dictionary updated in place compute exactly the countries table, or the first exception |
| Aggregates.CountriesSpec | src/hdx/scraper/gcf/pipeline.py:303-331 | one row per truthy ISO3 code some entry carries, in first-seen order; `# FA` counts its entries and `FA Financing` sums their shares |
| Aggregates.CountriesFirstEntry | src/hdx/scraper/gcf/pipeline.py:314-324 | each row's Country Name, Region, LDCs and SIDS come from the first country entry, record by record and entry by entry, carrying its ISO3 code, and its Approval Date is the formatted approval date of that entry's project |
| Aggregates.CountriesConserve | src/hdx/scraper/gcf/pipeline.py:298-331 | the table's total financing is each project's share times its number of entries with a truthy code |
| Aggregates.CountriesConserveAll | src/hdx/scraper/gcf/pipeline.py:298-299 | when every entry has a truthy code, the table's financing is the total funding, as the docstring promises |
| Aggregates.EntitiesData | src/hdx/scraper/gcf/pipeline.py:340-366 | the entities table as a value; TallyEntities, EntitiesSpec, EntitiesFirstEntry and EntitiesCredit state what it is |
| Aggregates.EntityItems | src/hdx/scraper/gcf/pipeline.py:342-359 | fails exactly when the approval date does not format; each entity entry gets its acronym key and the full funding |
| Aggregates.TallyEntities | src/hdx/scraper/gcf/pipeline.py:340-366 | the nested loops with the dictionary updated in place compute exactly the entities table, or the first exception |
| Aggregates.EntitiesSpec | src/hdx/scraper/gcf/pipeline.py:340-366 | one row per truthy acronym, in first-seen order; `# Approved` counts its entries and `FA Financing` sums its projects' full funding |
| Aggregates.EntitiesFirstEntry | src/hdx/scraper/gcf/pipeline.py:349-359 | each row's Name, Type and Sector come from the first entity entry, record by record and entry by entry, carrying its acronym, its DAE is "TRUE" exactly when that entry's access is "Direct", and its Approval Date is the formatted approval date of that entry's project |
| Aggregates.EntitiesCredit | src/hdx/scraper/gcf/pipeline.py:342-364 | the table's total financing credits each project once per entity entry with a truthy acronym |
| Tally.Add | src/hdx/scraper/gcf/pipeline.py:311-329 | one pass of the aggregation loop body on the dictionary as a value; TallySpec, TallyFirstMeta and TallyConserves state what a run of it computes |
| Tally.TallyOf | src/hdx/scraper/gcf/pipeline.py:303-330 | the insert-or-update dictionary is well formed: distinct keys, one bucket per key |
| Tally.Insert | src/hdx/scraper/gcf/pipeline.py:311-329 | one insert-or-update step on the order and buckets equals the specification step |
| Tally.TallySpec | src/hdx/scraper/gcf/pipeline.py:303-331 | keys are the truthy item keys in first-seen order; each bucket counts and sums its key's items |
| Tally.TallyFirstMeta | src/hdx/scraper/gcf/pipeline.py:314-324 | a bucket keeps the metadata of the first item with its key |
| Tally.ChunksFirstMeta | src/hdx/scraper/gcf/pipeline.py:304-324 | over the records' runs of items, a row keeps the metadata of the first item filed under its key, found run by run and item by item |
| Tally.TallyConserves | src/hdx/scraper/gcf/pipeline.py:326-329 | the buckets' totals add up to the amounts of the items with a truthy key |
| Grouping.Append | src/hdx/scraper/gcf/pipeline.py:413 | one `country_projects[c].append(p)` step equals the specification step |
| Grouping.GroupOfSpec | src/hdx/scraper/gcf/pipeline.py:405-414 | the groups are keyed by the keys that occur, in first-seen order, each holding its values in order |
| ByCountry.Clean | src/hdx/scraper/gcf/pipeline.py:409-411 | the comprehension `[code.strip() for code in pieces if code.strip()]`; CleanAppend and CleanCodes state what it keeps |
| ByCountry.CleanAppend | src/hdx/scraper/gcf/pipeline.py:409-411 | the codes follow the pieces in order: one piece gives its stripped form unless that is empty, and a concatenation of piece lists gives the concatenation of their codes |
| ByCountry.CleanCodes | src/hdx/scraper/gcf/pipeline.py:409-411 | every code kept is non-empty and has no white space at its edges, and every piece whose stripped form is non-empty contributes that form |
| ByCountry.Segments | src/hdx/scraper/gcf/pipeline.py:408-411 | one cell's codes: split on commas, then cleaned; SegmentsOfJoin and TwoCountries state what it gives for a joined cell |
| ByCountry.GroupPairs | src/hdx/scraper/gcf/pipeline.py:405-414 | the nested loops compute exactly the grouping of every (code, row) pair in order |
| ByCountry.ActivitiesByCountry | src/hdx/scraper/gcf/pipeline.py:405-414 | the grouped dictionary as a value; GroupPairs computes it and ActivitiesByCountrySpec states its keys and groups |
| ByCountry.ActivitiesByCountrySpec | src/hdx/scraper/gcf/pipeline.py:400-414 | keys are exactly the codes some row lists, in first-seen order; a group holds the rows listing its code, in table order, once per listing; keys are clean |
| ByCountry.SegmentsOfJoin | src/hdx/scraper/gcf/pipeline.py:243 | splitting a ", "-joined list of clean, comma-free codes gives back the non-empty ones |
| ByCountry.TwoCountries | src/hdx/scraper/gcf/pipeline.py:407-411 | the cell "KEN, UGA" gives the codes "KEN" and "UGA" |
| ByCountry.ActivityCodes | src/hdx/scraper/gcf/pipeline.py:241-243 | the grouper recovers a project's non-empty ISO3 codes from its activity row, as long as no code has a comma or edge white space |
| Text.Split | src/hdx/scraper/gcf/pipeline.py:410 | `str.split` on one character yields at least one piece; SplitNoSep and SplitAfter fix its value |
| Text.SplitNoSep | src/hdx/scraper/gcf/pipeline.py:410 | a string without the separator splits into itself alone |
| Text.SplitAfter | src/hdx/scraper/gcf/pipeline.py:410 | text up to the first separator is the first piece, and the rest splits on its own |
| Text.StripSpec | src/hdx/scraper/gcf/pipeline.py:410 | `str.strip` removes exactly the white space at the two edges: the result is a slice of the string with only white space before and after it |
| Text.Strip | src/hdx/scraper/gcf/pipeline.py:410 | the result has no white space at its edges, and a string without any is unchanged |
| Text.Join | src/hdx/scraper/gcf/pipeline.py:238 | `sep.join(parts)`; SplitJoin states that splitting a `", "`-joined list of comma-free parts gives them back |
| Text.RStripChar | src/hdx/scraper/gcf/pipeline.py:264 | `rstrip('%')` removes exactly the trailing percent signs |
| Text.ReplaceChar | src/hdx/scraper/gcf/pipeline.py:420 | `replace("Z", "+00:00")` leaves no Z, and leaves a string without one unchanged |
| Text.ReplaceCharAppend | src/hdx/scraper/gcf/pipeline.py:420 | replacing distributes over concatenation; with ReplaceCharOne (a lone Z becomes the replacement, any other character stays) this fixes the value: each Z becomes "+00:00" and everything else keeps its order |
| Text.SplitJoin | src/hdx/scraper/gcf/pipeline.py:243 | splitting a ", "-joined list of comma-free parts on commas gives the parts back, each after the first behind one space |
| Text.ParseNatToString | src/hdx/scraper/gcf/pipeline.py:421 | the decimal day and year read back as their numbers |
| Collect.MapAllOneToOne | src/hdx/scraper/gcf/pipeline.py:229-291 | a loop that appends one row per record or raises yields one row per record, in order |
| Collect.MapAllStops | src/hdx/scraper/gcf/pipeline.py:229-291 | the first record that raises decides the loop's exception |
| Collect.FirstSeenSpec | src/hdx/scraper/gcf/pipeline.py:314 | first-seen order lists each key once, every key that occurs, in the order of their first occurrence |

## Left out

- The `generate_*_dataset` methods (pipeline.py lines 29-208), `__main__.py` and the tests: they wrap the tables into HDX datasets. That is I/O to the HDX library.
- `download_json` failures and the network: the `Retriever` class serves fixed payloads. The model splits the source's single `download_json` into one method per endpoint, so each can return its own record type.
- JSON values of the wrong type, and JSON `null` in string fields: a key is either absent or holds a value of the expected type.
- Floating point: funding and percentages are `real`, so the division at line 307 is exact, and so are the sums.
- The `TotalGCFFunding` and `AmountApprovedInUSD` fields are assumed numeric.
- `datetime.fromisoformat` and `float()` are oracles in `Library`. The model checks only what the code does around them: the Z replacement, `rstrip('%')`, and the `> 0` test.
- `parse_date` at line 430 is modelled by `Dates.ParseDisplayDate`. It reads "Month D, YYYY" with decimal digits for D and YYYY, leading zeros allowed, which covers what `_format_date` writes. It does not model the library's fuzzy parsing of other forms, or the timezone it attaches.
- `strftime('%B')` is taken in the C locale, with English month names.
- Aggregates.CountryItems: a project without countries fails with `NoCountries`. The code's division by `len(countries)` at line 307 raises before anything else.
- Aggregates.CountriesConserveAll: the countries table credits only entries with a truthy ISO3 code. The shares of other entries are lost. The promise that allocations sum to one is proved only when every entry has a code.
- ByCountry.ActivityCodes: a code that contains a comma, or has white space at its edges, splits differently when the grouper reads it back. The round trip is proved only for clean codes.
- GcfPipeline.Pipeline.GetActivitiesData: the loop is a helper method over the payload. The set of seen codes is updated once after it, to the same final value the in-loop updates reach. On an exception the model's set still grows by the codes of the records looked at, as Python's does.
- GcfPipeline.Pipeline.GetCountriesData and GetEntitiesData: the loops are helper methods over the payload. They come after the fetch, and nothing else in the object changes during them.
