/** The aggregators `_get_countries_data` and `_get_entities_data`: every project contributes
    one item per country entry (its funding split evenly) or per entity entry (its funding in
    full), and the items are tallied by ISO3 code or by acronym. */
module Aggregates {
  import opened Wrappers
  import opened Text
  import opened Collect
  import opened Tally
  import opened Records
  import opened DateFields

  // One record's contributions: one item per entry, all with the same amount.

  /** `n` contributions of `amount` each. */
  function Times(n: nat, amount: real): real {
    n as real * amount
  }

  /** The items carry the keys `keys`, in order, each with the amount `amount`. */
  predicate Spreads<M>(items: seq<Item<M>>, keys: seq<Option<string>>, amount: real) {
    |items| == |keys| && forall i :: 0 <= i < |items| ==> items[i].key == keys[i] && items[i].amount == amount
  }

  /** How often `Some(k)` occurs in `keys`. */
  function Hits(keys: seq<Option<string>>, k: string): nat
    decreases |keys|
  {
    if |keys| == 0 then 0 else Hits(keys[..|keys| - 1], k) + (if keys[|keys| - 1] == Some(k) then 1 else 0)
  }

  /** The truthy keys, in order. */
  function TruthyKeys(keys: seq<Option<string>>): seq<string>
    decreases |keys|
  {
    if |keys| == 0 then []
    else TruthyKeys(keys[..|keys| - 1]) + (if Truthy(keys[|keys| - 1]) then [keys[|keys| - 1].value] else [])
  }

  /** The number of truthy keys. */
  function TruthyCount(keys: seq<Option<string>>): nat
    decreases |keys|
  {
    if |keys| == 0 then 0 else TruthyCount(keys[..|keys| - 1]) + (if Truthy(keys[|keys| - 1]) then 1 else 0)
  }

  lemma {:induction false} SpreadCounts<M>(items: seq<Item<M>>, keys: seq<Option<string>>, amount: real, k: string)
    requires Spreads(items, keys, amount)
    ensures CountKey(items, k) == Hits(keys, k)
    ensures SumKey(items, k) == Times(Hits(keys, k), amount)
    decreases |items|
  {
    if |items| > 0 {
      var n := |items| - 1;
      assert Spreads(items[..n], keys[..n], amount);
      SpreadCounts(items[..n], keys[..n], amount, k);
      var h := Hits(keys[..n], k);
      assert Times(h + 1, amount) == Times(h, amount) + amount;
    }
  }

  lemma {:induction false} SpreadTruthy<M>(items: seq<Item<M>>, keys: seq<Option<string>>, amount: real)
    requires Spreads(items, keys, amount)
    ensures Keys(items) == TruthyKeys(keys)
    ensures SumTruthy(items) == Times(TruthyCount(keys), amount)
    decreases |items|
  {
    if |items| > 0 {
      var n := |items| - 1;
      assert Spreads(items[..n], keys[..n], amount);
      SpreadTruthy(items[..n], keys[..n], amount);
      var c := TruthyCount(keys[..n]);
      assert Times(c + 1, amount) == Times(c, amount) + amount;
    }
  }

  lemma {:induction false} SpreadAll<M>(items: seq<Item<M>>, keys: seq<Option<string>>, amount: real)
    requires Spreads(items, keys, amount)
    ensures SumAll(items) == Times(|keys|, amount)
    decreases |items|
  {
    if |items| > 0 {
      var n := |items| - 1;
      assert Spreads(items[..n], keys[..n], amount);
      SpreadAll(items[..n], keys[..n], amount);
      assert Times(n + 1, amount) == Times(n, amount) + amount;
    }
  }

  // What a run over all records adds up to, record by record.

  /** The number of entries filed under `k` across the records. */
  function KeyHits(records: seq<ProjectRecord>, keysOf: ProjectRecord -> seq<Option<string>>, k: string): nat
    decreases |records|
  {
    if |records| == 0 then 0
    else KeyHits(records[..|records| - 1], keysOf, k) + Hits(keysOf(records[|records| - 1]), k)
  }

  /** The amount credited to `k` across the records. */
  function KeyAmount(records: seq<ProjectRecord>, keysOf: ProjectRecord -> seq<Option<string>>,
                     amountOf: ProjectRecord -> real, k: string): real
    decreases |records|
  {
    if |records| == 0 then 0.0
    else
      var last := records[|records| - 1];
      KeyAmount(records[..|records| - 1], keysOf, amountOf, k) + Times(Hits(keysOf(last), k), amountOf(last))
  }

  /** The truthy keys of the records, record by record, with repetitions. */
  function KeyOrder(records: seq<ProjectRecord>, keysOf: ProjectRecord -> seq<Option<string>>): seq<string>
    decreases |records|
  {
    if |records| == 0 then [] else KeyOrder(records[..|records| - 1], keysOf) + TruthyKeys(keysOf(records[|records| - 1]))
  }

  /** The amount credited to some truthy key across the records. */
  function Allotted(records: seq<ProjectRecord>, keysOf: ProjectRecord -> seq<Option<string>>,
                    amountOf: ProjectRecord -> real): real
    decreases |records|
  {
    if |records| == 0 then 0.0
    else
      var last := records[|records| - 1];
      Allotted(records[..|records| - 1], keysOf, amountOf) + Times(TruthyCount(keysOf(last)), amountOf(last))
  }

  /** Record `i` contributes one item per key it lists, each with its own amount. */
  predicate Contributes<M>(chunks: seq<seq<Item<M>>>, records: seq<ProjectRecord>,
                           keysOf: ProjectRecord -> seq<Option<string>>, amountOf: ProjectRecord -> real)
  {
    |chunks| == |records| && forall i :: 0 <= i < |records| ==> Spreads(chunks[i], keysOf(records[i]), amountOf(records[i]))
  }

  /** Entry `q` of record `p` is the first entry carrying the key `k`, taking the records in
      order and each record's entries in order. */
  predicate FirstCarrier(records: seq<ProjectRecord>, keysOf: ProjectRecord -> seq<Option<string>>, k: string, p: int, q: int) {
    0 <= p < |records| && 0 <= q < |keysOf(records[p])| && keysOf(records[p])[q] == Some(k) &&
    (forall p', q' :: 0 <= p' < p && 0 <= q' < |keysOf(records[p'])| ==> keysOf(records[p'])[q'] != Some(k)) &&
    (forall q' :: 0 <= q' < q ==> keysOf(records[p])[q'] != Some(k))
  }

  /** The first contribution filed under a key is that of the first entry carrying it. */
  lemma CarrierOfChunks<M>(chunks: seq<seq<Item<M>>>, records: seq<ProjectRecord>,
                           keysOf: ProjectRecord -> seq<Option<string>>, amountOf: ProjectRecord -> real,
                           k: string, p: int, q: int)
    requires Contributes(chunks, records, keysOf, amountOf) && FirstInChunks(chunks, k, p, q)
    ensures FirstCarrier(records, keysOf, k, p, q)
  {
    assert Spreads(chunks[p], keysOf(records[p]), amountOf(records[p]));
    forall p', q' | 0 <= p' < p && 0 <= q' < |keysOf(records[p'])|
      ensures keysOf(records[p'])[q'] != Some(k)
    {
      assert Spreads(chunks[p'], keysOf(records[p']), amountOf(records[p']));
    }
  }

  /** The flattened contributions count each key as the records do. */
  lemma {:induction false} ChunksCount<M>(chunks: seq<seq<Item<M>>>, records: seq<ProjectRecord>,
                                          keysOf: ProjectRecord -> seq<Option<string>>,
                                          amountOf: ProjectRecord -> real, k: string)
    requires Contributes(chunks, records, keysOf, amountOf)
    ensures CountKey(Flatten(chunks), k) == KeyHits(records, keysOf, k)
    decreases |records|
  {
    if |records| > 0 {
      var n := |records| - 1;
      assert Contributes(chunks[..n], records[..n], keysOf, amountOf);
      ChunksCount(chunks[..n], records[..n], keysOf, amountOf, k);
      assert chunks == chunks[..n] + [chunks[n]];
      FlattenSnoc(chunks[..n], chunks[n]);
      ReferenceAppend(Flatten(chunks[..n]), chunks[n], k);
      SpreadCounts(chunks[n], keysOf(records[n]), amountOf(records[n]), k);
    }
  }

  /** The flattened contributions credit each key as the records do. */
  lemma {:induction false} ChunksAmount<M>(chunks: seq<seq<Item<M>>>, records: seq<ProjectRecord>,
                                           keysOf: ProjectRecord -> seq<Option<string>>,
                                           amountOf: ProjectRecord -> real, k: string)
    requires Contributes(chunks, records, keysOf, amountOf)
    ensures SumKey(Flatten(chunks), k) == KeyAmount(records, keysOf, amountOf, k)
    decreases |records|
  {
    if |records| > 0 {
      var n := |records| - 1;
      assert Contributes(chunks[..n], records[..n], keysOf, amountOf);
      ChunksAmount(chunks[..n], records[..n], keysOf, amountOf, k);
      var prev, c, last := Flatten(chunks[..n]), chunks[n], records[n];
      assert chunks == chunks[..n] + [c];
      FlattenSnoc(chunks[..n], c);
      SumKeyAppend(prev, c, k);
      SpreadCounts(c, keysOf(last), amountOf(last), k);
      var credit := Times(Hits(keysOf(last), k), amountOf(last));
      assert SumKey(c, k) == credit;
      assert records[..|records| - 1] == records[..n];
      assert KeyAmount(records, keysOf, amountOf, k) == KeyAmount(records[..n], keysOf, amountOf, k) + credit;
    }
  }

  /** The flattened contributions list the records' truthy keys in record order and credit
      them the records' allotted amounts. */
  lemma {:induction false} ChunksOrder<M>(chunks: seq<seq<Item<M>>>, records: seq<ProjectRecord>,
                                          keysOf: ProjectRecord -> seq<Option<string>>,
                                          amountOf: ProjectRecord -> real)
    requires Contributes(chunks, records, keysOf, amountOf)
    ensures Keys(Flatten(chunks)) == KeyOrder(records, keysOf)
    ensures SumTruthy(Flatten(chunks)) == Allotted(records, keysOf, amountOf)
    decreases |records|
  {
    if |records| > 0 {
      var n := |records| - 1;
      assert Contributes(chunks[..n], records[..n], keysOf, amountOf);
      ChunksOrder(chunks[..n], records[..n], keysOf, amountOf);
      assert chunks == chunks[..n] + [chunks[n]];
      FlattenSnoc(chunks[..n], chunks[n]);
      ReferenceAppend(Flatten(chunks[..n]), chunks[n], "");
      SpreadTruthy(chunks[n], keysOf(records[n]), amountOf(records[n]));
    }
  }

  // The countries table.

  /** `record.get("TotalGCFFunding", 0) or 0`. */
  function Funding(r: ProjectRecord): real {
    r.totalGcfFunding.GetOr(0.0)
  }

  /** The funding each country entry of the record is credited with. */
  function Share(r: ProjectRecord): (share: real)
    ensures |r.countries| > 0 ==> share * (|r.countries| as real) == Funding(r)
  {
    if |r.countries| == 0 then 0.0 else Funding(r) / (|r.countries| as real)
  }

  /** The ISO3 key of each country entry. */
  function IsoKeys(r: ProjectRecord): (keys: seq<Option<string>>)
    ensures |keys| == |r.countries| && forall i :: 0 <= i < |keys| ==> keys[i] == r.countries[i].iso3
  {
    seq(|r.countries|, i requires 0 <= i < |r.countries| => r.countries[i].iso3)
  }

  function CountryMetaOf(c: CountryEntry, approval: Option<string>): CountryMeta {
    CountryMeta(c.countryName.GetOr(""), c.region.GetOr(""), c.ldcs.GetOr(false), c.sids.GetOr(false), approval)
  }

  /** The outer loop body of `_get_countries_data` for one record, as the items its inner loop
      tallies. The funding is divided by the number of country entries before the approval
      date is formatted, so a record without countries raises ZeroDivisionError first. */
  function CountryItems(lib: Library, r: ProjectRecord): (res: Result<seq<Item<CountryMeta>>, Error>)
    ensures |r.countries| == 0 ==> res == Failure(NoCountries)
    ensures |r.countries| > 0 ==> (res.Success? <==> FormatDate(lib, r.approvalDate).Success?)
    ensures |r.countries| > 0 && res.Failure? ==> res.error == MalformedTimestamp(r.approvalDate.value)
    ensures res.Success? ==> Spreads(res.value, IsoKeys(r), Share(r))
    ensures res.Success? ==> Share(r) * (|r.countries| as real) == Funding(r)
  {
    if |r.countries| == 0 then Failure(NoCountries)
    else
      var share := Funding(r) / (|r.countries| as real);
      var approval :- FormatDate(lib, r.approvalDate);
      Success(seq(|r.countries|, i requires 0 <= i < |r.countries| =>
                Item(r.countries[i].iso3, CountryMetaOf(r.countries[i], approval), share)))
  }

  /** The entry for the `j`-th country of a record whose items exist. */
  lemma CountryItemAt(lib: Library, r: ProjectRecord, j: nat)
    requires CountryItems(lib, r).Success? && j < |r.countries|
    ensures |CountryItems(lib, r).value| == |r.countries|
    ensures CountryItems(lib, r).value[j] ==
              Item(r.countries[j].iso3, CountryMetaOf(r.countries[j], FormatDate(lib, r.approvalDate).value),
                   Funding(r) / (|r.countries| as real))
  {
  }

  function CountryItemsOf(lib: Library): ProjectRecord -> Result<seq<Item<CountryMeta>>, Error> {
    r => CountryItems(lib, r)
  }

  /** The country allocations of one project add up to its funding. */
  lemma CountryAllocation(lib: Library, r: ProjectRecord)
    requires CountryItems(lib, r).Success?
    ensures SumAll(CountryItems(lib, r).value) == Funding(r)
  {
    SpreadAll(CountryItems(lib, r).value, IsoKeys(r), Share(r));
  }

  function CountryRowOf(k: string, b: Bucket<CountryMeta>): CountryRow {
    CountryRow(k, b.meta.countryName, b.meta.region, b.meta.ldcs, b.meta.sids, b.total, b.count, b.meta.approvalDate)
  }

  /** `list(aggregated_data.values())`. */
  function CountryRows(order: seq<string>, buckets: map<string, Bucket<CountryMeta>>): (rows: seq<CountryRow>)
    requires forall k :: k in order ==> k in buckets
    ensures |rows| == |order| && forall i :: 0 <= i < |order| ==> rows[i] == CountryRowOf(order[i], buckets[order[i]])
  {
    seq(|order|, i requires 0 <= i < |order| => CountryRowOf(order[i], buckets[order[i]]))
  }

  /** The table `_get_countries_data` returns, or the exception it raises. */
  function CountriesData(lib: Library, records: seq<ProjectRecord>): Result<seq<CountryRow>, Error> {
    var chunks :- MapAll(CountryItemsOf(lib), records);
    var t := TallyOf(Flatten(chunks));
    Success(CountryRows(t.order, t.buckets))
  }

  /** The loops of `_get_countries_data` over the downloaded projects: one insert-or-update
      of the dictionary per country entry, stopping at the first exception. */
  method TallyCountries(lib: Library, records: seq<ProjectRecord>) returns (res: Result<seq<CountryRow>, Error>)
    ensures res == CountriesData(lib, records)
  {
    var f := CountryItemsOf(lib);
    var order: seq<string> := [];
    var buckets: map<string, Bucket<CountryMeta>> := map[];
    ghost var chunks: seq<seq<Item<CountryMeta>>> := [];
    var i := 0;
    while i < |records|
      invariant 0 <= i <= |records|
      invariant MapAll(f, records[..i]) == Success(chunks)
      invariant Table(order, buckets) == TallyOf(Flatten(chunks))
    {
      var record := records[i];
      assert f(record) == CountryItems(lib, record);
      if |record.countries| == 0 {
        MapAllStops(f, records, i);
        res := Failure(NoCountries);
        return;
      }
      var share := Funding(record) / (|record.countries| as real);
      var approval := FormatDate(lib, record.approvalDate);
      if approval.Failure? {
        MapAllStops(f, records, i);
        res := Failure(approval.error);
        return;
      }
      ghost var items := CountryItems(lib, record).value;
      assert Flatten(chunks) + items[..0] == Flatten(chunks);
      var j := 0;
      while j < |record.countries|
        invariant 0 <= j <= |record.countries| == |items|
        invariant Table(order, buckets) == TallyOf(Flatten(chunks) + items[..j])
      {
        var country := record.countries[j];
        var item := Item(country.iso3, CountryMetaOf(country, approval.value), share);
        CountryItemAt(lib, record, j);
        TallyStep(Flatten(chunks), items, j);
        order, buckets := Insert(order, buckets, item);
        j := j + 1;
      }
      assert items[..j] == items;
      MapAllStep(f, records, i);
      FlattenSnoc(chunks, items);
      chunks := chunks + [items];
      i := i + 1;
    }
    assert records[..i] == records;
    res := Success(CountryRows(order, buckets));
  }

  /** The ISO3 column of a countries table. */
  function IsoColumn(rows: seq<CountryRow>): (column: seq<string>)
    ensures |column| == |rows| && forall i :: 0 <= i < |rows| ==> column[i] == rows[i].iso3
  {
    seq(|rows|, i requires 0 <= i < |rows| => rows[i].iso3)
  }

  /** The chunks of a successful run over the records are their country contributions. */
  lemma CountryContributions(lib: Library, records: seq<ProjectRecord>)
    requires MapAll(CountryItemsOf(lib), records).Success?
    ensures Contributes(MapAll(CountryItemsOf(lib), records).value, records, IsoKeys, Share)
  {
    var f := CountryItemsOf(lib);
    MapAllOneToOne(f, records);
    forall i | 0 <= i < |records|
      ensures Spreads(MapAll(f, records).value[i], IsoKeys(records[i]), Share(records[i]))
    {
      assert f(records[i]) == CountryItems(lib, records[i]);
    }
  }

  /** One row per ISO3 code that some country entry carries, in the order the codes first
      occur; `# FA` counts the entries with that code and `FA Financing` sums their shares. */
  lemma CountriesSpec(lib: Library, records: seq<ProjectRecord>)
    requires CountriesData(lib, records).Success?
    ensures IsoColumn(CountriesData(lib, records).value) == FirstSeen(KeyOrder(records, IsoKeys))
    ensures forall k :: k in IsoColumn(CountriesData(lib, records).value) <==> k != "" && KeyHits(records, IsoKeys, k) > 0
    ensures forall i :: 0 <= i < |CountriesData(lib, records).value| ==>
              var row := CountriesData(lib, records).value[i];
              row.faCount == KeyHits(records, IsoKeys, row.iso3) &&
              row.faFinancing == KeyAmount(records, IsoKeys, Share, row.iso3)
  {
    var f := CountryItemsOf(lib);
    var chunks := MapAll(f, records).value;
    var items := Flatten(chunks);
    var t := TallyOf(items);
    var rows := CountriesData(lib, records).value;
    CountryContributions(lib, records);
    TallySpec(items);
    ChunksOrder(chunks, records, IsoKeys, Share);
    assert IsoColumn(rows) == t.order;
    forall k
      ensures k in t.order <==> k != "" && KeyHits(records, IsoKeys, k) > 0
    {
      ChunksCount(chunks, records, IsoKeys, Share, k);
      CountKeyPositive(items, k);
    }
    forall i | 0 <= i < |rows|
      ensures rows[i].faCount == KeyHits(records, IsoKeys, rows[i].iso3) &&
              rows[i].faFinancing == KeyAmount(records, IsoKeys, Share, rows[i].iso3)
    {
      ChunksCount(chunks, records, IsoKeys, Share, rows[i].iso3);
      ChunksAmount(chunks, records, IsoKeys, Share, rows[i].iso3);
    }
  }

  /** Every row takes its Country Name, Region, LDCs and SIDS from the first country entry,
      record by record, that carries its ISO3 code, and its Approval Date from that entry's
      project. */
  lemma CountriesFirstEntry(lib: Library, records: seq<ProjectRecord>, i: nat)
    requires CountriesData(lib, records).Success? && i < |CountriesData(lib, records).value|
    ensures var row := CountriesData(lib, records).value[i];
            exists p, q :: FirstCarrier(records, IsoKeys, row.iso3, p, q) &&
              row.countryName == records[p].countries[q].countryName.GetOr("") &&
              row.region == records[p].countries[q].region.GetOr("") &&
              row.ldcs == records[p].countries[q].ldcs.GetOr(false) &&
              row.sids == records[p].countries[q].sids.GetOr(false) &&
              FormatDate(lib, records[p].approvalDate) == Success(row.approvalDate)
  {
    var f := CountryItemsOf(lib);
    var chunks: seq<seq<Item<CountryMeta>>> := MapAll(f, records).value;
    var t: Table<CountryMeta> := TallyOf(Flatten(chunks));
    var rows := CountriesData(lib, records).value;
    var k := t.order[i];
    assert rows[i] == CountryRowOf(k, t.buckets[k]);
    ChunksFirstMeta(chunks, k);
    var p: int, q: int :| FirstInChunks(chunks, k, p, q) && t.buckets[k].meta == chunks[p][q].meta;
    CountryContributions(lib, records);
    CarrierOfChunks(chunks, records, IsoKeys, Share, k, p, q);
    MapAllOneToOne(f, records);
    assert f(records[p]) == CountryItems(lib, records[p]);
    CountryItemAt(lib, records[p], q);
  }

  /** The `FA Financing` column summed over the table. */
  function CountryFinancing(rows: seq<CountryRow>): real
    decreases |rows|
  {
    if |rows| == 0 then 0.0 else CountryFinancing(rows[..|rows| - 1]) + rows[|rows| - 1].faFinancing
  }

  lemma {:induction false} CountryRowsTotal(order: seq<string>, buckets: map<string, Bucket<CountryMeta>>)
    requires forall k :: k in order ==> k in buckets
    ensures CountryFinancing(CountryRows(order, buckets)) == SumOver(order, buckets)
    decreases |order|
  {
    if |order| > 0 {
      var n := |order| - 1;
      assert CountryRows(order, buckets)[..n] == CountryRows(order[..n], buckets);
      CountryRowsTotal(order[..n], buckets);
    }
  }

  /** The total funding of the records. */
  function TotalFunding(records: seq<ProjectRecord>): real
    decreases |records|
  {
    if |records| == 0 then 0.0 else TotalFunding(records[..|records| - 1]) + Funding(records[|records| - 1])
  }

  /** The table's financing is every project's share times the number of its country entries
      that carry a truthy ISO3 code: the shares of the entries the loop skips are lost. */
  lemma CountriesConserve(lib: Library, records: seq<ProjectRecord>)
    requires CountriesData(lib, records).Success?
    ensures CountryFinancing(CountriesData(lib, records).value) == Allotted(records, IsoKeys, Share)
  {
    var chunks := MapAll(CountryItemsOf(lib), records).value;
    var t := TallyOf(Flatten(chunks));
    CountryContributions(lib, records);
    ChunksOrder(chunks, records, IsoKeys, Share);
    TallyConserves(Flatten(chunks));
    CountryRowsTotal(t.order, t.buckets);
  }

  lemma {:induction false} TruthyCountAll(keys: seq<Option<string>>)
    requires forall i :: 0 <= i < |keys| ==> Truthy(keys[i])
    ensures TruthyCount(keys) == |keys|
    decreases |keys|
  {
    if |keys| > 0 {
      TruthyCountAll(keys[..|keys| - 1]);
    }
  }

  lemma {:induction false} AllottedInFull(records: seq<ProjectRecord>)
    requires forall p :: 0 <= p < |records| ==> |records[p].countries| > 0
    requires forall p, q :: 0 <= p < |records| && 0 <= q < |records[p].countries| ==> Truthy(records[p].countries[q].iso3)
    ensures Allotted(records, IsoKeys, Share) == TotalFunding(records)
    decreases |records|
  {
    if |records| > 0 {
      var n := |records| - 1;
      var last := records[n];
      AllottedInFull(records[..n]);
      TruthyCountAll(IsoKeys(last));
      var m := |last.countries| as real;
      assert Times(|last.countries|, Share(last)) == m * (Funding(last) / m);
    }
  }

  /** When every country entry carries a truthy ISO3 code, the table's financing adds up to
      the total funding of the projects: each project's allocations sum to one. */
  lemma CountriesConserveAll(lib: Library, records: seq<ProjectRecord>)
    requires CountriesData(lib, records).Success?
    requires forall p, q :: 0 <= p < |records| && 0 <= q < |records[p].countries| ==> Truthy(records[p].countries[q].iso3)
    ensures CountryFinancing(CountriesData(lib, records).value) == TotalFunding(records)
  {
    var f := CountryItemsOf(lib);
    MapAllOneToOne(f, records);
    forall p | 0 <= p < |records|
      ensures |records[p].countries| > 0
    {
      assert f(records[p]) == CountryItems(lib, records[p]);
    }
    CountriesConserve(lib, records);
    AllottedInFull(records);
  }

  // The entities table.

  /** The `DAE` column: direct access entities are "TRUE", all others "FALSE". */
  function Dae(access: Option<string>): (flag: string)
    ensures flag == "TRUE" <==> access == Some("Direct")
    ensures flag == "TRUE" || flag == "FALSE"
  {
    if access == Some("Direct") then "TRUE" else "FALSE"
  }

  /** The acronym key of each entity entry. */
  function AcronymKeys(r: ProjectRecord): (keys: seq<Option<string>>)
    ensures |keys| == |r.entities| && forall i :: 0 <= i < |keys| ==> keys[i] == r.entities[i].acronym
  {
    seq(|r.entities|, i requires 0 <= i < |r.entities| => r.entities[i].acronym)
  }

  function EntityMetaOf(e: EntityEntry, approval: Option<string>): EntityMeta {
    EntityMeta(e.name.GetOr(""), Dae(e.access), e.entityType.GetOr(""), e.sector, approval)
  }

  /** The outer loop body of `_get_entities_data` for one record: every entity entry is
      credited with the full funding; only the approval date can raise. */
  function EntityItems(lib: Library, r: ProjectRecord): (res: Result<seq<Item<EntityMeta>>, Error>)
    ensures res.Success? <==> FormatDate(lib, r.approvalDate).Success?
    ensures res.Failure? ==> res.error == MalformedTimestamp(r.approvalDate.value)
    ensures res.Success? ==> Spreads(res.value, AcronymKeys(r), Funding(r))
  {
    var approval :- FormatDate(lib, r.approvalDate);
    Success(seq(|r.entities|, i requires 0 <= i < |r.entities| =>
              Item(r.entities[i].acronym, EntityMetaOf(r.entities[i], approval), Funding(r))))
  }

  /** The entry for the `j`-th entity of a record whose items exist. */
  lemma EntityItemAt(lib: Library, r: ProjectRecord, j: nat)
    requires EntityItems(lib, r).Success? && j < |r.entities|
    ensures |EntityItems(lib, r).value| == |r.entities|
    ensures EntityItems(lib, r).value[j] ==
              Item(r.entities[j].acronym, EntityMetaOf(r.entities[j], FormatDate(lib, r.approvalDate).value), Funding(r))
  {
  }

  function EntityItemsOf(lib: Library): ProjectRecord -> Result<seq<Item<EntityMeta>>, Error> {
    r => EntityItems(lib, r)
  }

  function EntityRowOf(k: string, b: Bucket<EntityMeta>): EntityRow {
    EntityRow(k, b.meta.name, b.meta.dae, b.meta.entityType, b.meta.sector, b.count, b.total, b.meta.approvalDate)
  }

  function EntityRows(order: seq<string>, buckets: map<string, Bucket<EntityMeta>>): (rows: seq<EntityRow>)
    requires forall k :: k in order ==> k in buckets
    ensures |rows| == |order| && forall i :: 0 <= i < |order| ==> rows[i] == EntityRowOf(order[i], buckets[order[i]])
  {
    seq(|order|, i requires 0 <= i < |order| => EntityRowOf(order[i], buckets[order[i]]))
  }

  /** The table `_get_entities_data` returns, or the exception it raises. */
  function EntitiesData(lib: Library, records: seq<ProjectRecord>): Result<seq<EntityRow>, Error> {
    var chunks :- MapAll(EntityItemsOf(lib), records);
    var t := TallyOf(Flatten(chunks));
    Success(EntityRows(t.order, t.buckets))
  }

  /** The loops of `_get_entities_data` over the downloaded projects: one insert-or-update
      of the dictionary per entity entry, stopping at the first exception. */
  method TallyEntities(lib: Library, records: seq<ProjectRecord>) returns (res: Result<seq<EntityRow>, Error>)
    ensures res == EntitiesData(lib, records)
  {
    var f := EntityItemsOf(lib);
    var order: seq<string> := [];
    var buckets: map<string, Bucket<EntityMeta>> := map[];
    ghost var chunks: seq<seq<Item<EntityMeta>>> := [];
    var i := 0;
    while i < |records|
      invariant 0 <= i <= |records|
      invariant MapAll(f, records[..i]) == Success(chunks)
      invariant Table(order, buckets) == TallyOf(Flatten(chunks))
    {
      var record := records[i];
      assert f(record) == EntityItems(lib, record);
      var funding := Funding(record);
      var approval := FormatDate(lib, record.approvalDate);
      if approval.Failure? {
        MapAllStops(f, records, i);
        res := Failure(approval.error);
        return;
      }
      ghost var items := EntityItems(lib, record).value;
      assert Flatten(chunks) + items[..0] == Flatten(chunks);
      var j := 0;
      while j < |record.entities|
        invariant 0 <= j <= |record.entities| == |items|
        invariant Table(order, buckets) == TallyOf(Flatten(chunks) + items[..j])
      {
        var entity := record.entities[j];
        var item := Item(entity.acronym, EntityMetaOf(entity, approval.value), funding);
        EntityItemAt(lib, record, j);
        TallyStep(Flatten(chunks), items, j);
        order, buckets := Insert(order, buckets, item);
        j := j + 1;
      }
      assert items[..j] == items;
      MapAllStep(f, records, i);
      FlattenSnoc(chunks, items);
      chunks := chunks + [items];
      i := i + 1;
    }
    assert records[..i] == records;
    res := Success(EntityRows(order, buckets));
  }

  /** The `Entity` column of an entities table. */
  function EntityColumn(rows: seq<EntityRow>): (column: seq<string>)
    ensures |column| == |rows| && forall i :: 0 <= i < |rows| ==> column[i] == rows[i].entity
  {
    seq(|rows|, i requires 0 <= i < |rows| => rows[i].entity)
  }

  /** The chunks of a successful run over the records are their entity contributions. */
  lemma EntityContributions(lib: Library, records: seq<ProjectRecord>)
    requires MapAll(EntityItemsOf(lib), records).Success?
    ensures Contributes(MapAll(EntityItemsOf(lib), records).value, records, AcronymKeys, Funding)
  {
    var f := EntityItemsOf(lib);
    MapAllOneToOne(f, records);
    forall i | 0 <= i < |records|
      ensures Spreads(MapAll(f, records).value[i], AcronymKeys(records[i]), Funding(records[i]))
    {
      assert f(records[i]) == EntityItems(lib, records[i]);
    }
  }

  /** One row per acronym that some entity entry carries, in the order they first occur;
      `# Approved` counts the entries with that acronym and `FA Financing` sums the full
      funding of their projects. */
  lemma EntitiesSpec(lib: Library, records: seq<ProjectRecord>)
    requires EntitiesData(lib, records).Success?
    ensures EntityColumn(EntitiesData(lib, records).value) == FirstSeen(KeyOrder(records, AcronymKeys))
    ensures forall k :: k in EntityColumn(EntitiesData(lib, records).value) <==> k != "" && KeyHits(records, AcronymKeys, k) > 0
    ensures forall i :: 0 <= i < |EntitiesData(lib, records).value| ==>
              var row := EntitiesData(lib, records).value[i];
              row.approved == KeyHits(records, AcronymKeys, row.entity) &&
              row.faFinancing == KeyAmount(records, AcronymKeys, Funding, row.entity)
  {
    var f := EntityItemsOf(lib);
    var chunks := MapAll(f, records).value;
    var items := Flatten(chunks);
    var t := TallyOf(items);
    var rows := EntitiesData(lib, records).value;
    EntityContributions(lib, records);
    TallySpec(items);
    ChunksOrder(chunks, records, AcronymKeys, Funding);
    assert EntityColumn(rows) == t.order;
    forall k
      ensures k in t.order <==> k != "" && KeyHits(records, AcronymKeys, k) > 0
    {
      ChunksCount(chunks, records, AcronymKeys, Funding, k);
      CountKeyPositive(items, k);
    }
    forall i | 0 <= i < |rows|
      ensures rows[i].approved == KeyHits(records, AcronymKeys, rows[i].entity) &&
              rows[i].faFinancing == KeyAmount(records, AcronymKeys, Funding, rows[i].entity)
    {
      ChunksCount(chunks, records, AcronymKeys, Funding, rows[i].entity);
      ChunksAmount(chunks, records, AcronymKeys, Funding, rows[i].entity);
    }
  }

  /** Every row takes its Name, DAE, Type and Sector from the first entity entry, record by
      record, that carries its acronym, and its Approval Date from that entry's project. */
  lemma EntitiesFirstEntry(lib: Library, records: seq<ProjectRecord>, i: nat)
    requires EntitiesData(lib, records).Success? && i < |EntitiesData(lib, records).value|
    ensures var row := EntitiesData(lib, records).value[i];
            exists p, q :: FirstCarrier(records, AcronymKeys, row.entity, p, q) &&
              row.name == records[p].entities[q].name.GetOr("") &&
              row.dae == Dae(records[p].entities[q].access) &&
              row.entityType == records[p].entities[q].entityType.GetOr("") &&
              row.sector == records[p].entities[q].sector &&
              FormatDate(lib, records[p].approvalDate) == Success(row.approvalDate)
  {
    var f := EntityItemsOf(lib);
    var chunks: seq<seq<Item<EntityMeta>>> := MapAll(f, records).value;
    var t: Table<EntityMeta> := TallyOf(Flatten(chunks));
    var rows := EntitiesData(lib, records).value;
    var k := t.order[i];
    assert rows[i] == EntityRowOf(k, t.buckets[k]);
    ChunksFirstMeta(chunks, k);
    var p: int, q: int :| FirstInChunks(chunks, k, p, q) && t.buckets[k].meta == chunks[p][q].meta;
    EntityContributions(lib, records);
    CarrierOfChunks(chunks, records, AcronymKeys, Funding, k, p, q);
    MapAllOneToOne(f, records);
    assert f(records[p]) == EntityItems(lib, records[p]);
    EntityItemAt(lib, records[p], q);
  }

  /** The `FA Financing` column summed over the table. */
  function EntityFinancing(rows: seq<EntityRow>): real
    decreases |rows|
  {
    if |rows| == 0 then 0.0 else EntityFinancing(rows[..|rows| - 1]) + rows[|rows| - 1].faFinancing
  }

  lemma {:induction false} EntityRowsTotal(order: seq<string>, buckets: map<string, Bucket<EntityMeta>>)
    requires forall k :: k in order ==> k in buckets
    ensures EntityFinancing(EntityRows(order, buckets)) == SumOver(order, buckets)
    decreases |order|
  {
    if |order| > 0 {
      var n := |order| - 1;
      assert EntityRows(order, buckets)[..n] == EntityRows(order[..n], buckets);
      EntityRowsTotal(order[..n], buckets);
    }
  }

  /** A project is credited in full once per entity entry with a truthy acronym, so the
      table's financing counts a project with several entities several times. */
  lemma EntitiesCredit(lib: Library, records: seq<ProjectRecord>)
    requires EntitiesData(lib, records).Success?
    ensures EntityFinancing(EntitiesData(lib, records).value) == Allotted(records, AcronymKeys, Funding)
  {
    var chunks := MapAll(EntityItemsOf(lib), records).value;
    var t := TallyOf(Flatten(chunks));
    EntityContributions(lib, records);
    ChunksOrder(chunks, records, AcronymKeys, Funding);
    TallyConserves(Flatten(chunks));
    EntityRowsTotal(t.order, t.buckets);
  }
}
