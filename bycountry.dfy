/** The grouper `get_activities_by_country`: every activity filed under each country code its
    `Country Codes` cell lists. */
module ByCountry {
  import opened Text
  import opened Collect
  import opened Grouping
  import opened Records
  import opened Activities

  /** `[p.strip() for p in pieces if p.strip()]`. */
  function Clean(pieces: seq<string>): (codes: seq<string>)
    ensures |codes| <= |pieces|
    decreases |pieces|
  {
    if |pieces| == 0 then []
    else
      var p := Strip(pieces[0]);
      (if p != "" then [p] else []) + Clean(pieces[1..])
  }

  /** Every code is non-empty and has no white space at its edges, and every piece whose
      stripped form is non-empty contributes that form. */
  lemma CleanCodes(pieces: seq<string>)
    ensures forall c :: c in Clean(pieces) ==> c != "" && NoEdgeSpace(c)
    ensures forall k :: 0 <= k < |pieces| && Strip(pieces[k]) != "" ==> Strip(pieces[k]) in Clean(pieces)
  {
    CleanCodesClean(pieces);
    CleanCodesKept(pieces);
  }

  /** Every code is non-empty and has no white space at its edges. */
  lemma {:induction false} CleanCodesClean(pieces: seq<string>)
    ensures forall c :: c in Clean(pieces) ==> c != "" && NoEdgeSpace(c)
    decreases |pieces|
  {
    if |pieces| > 0 {
      var t := pieces[1..];
      HeadTail(pieces, []);
      CleanCons(pieces[0], t);
      CleanCodesClean(t);
    }
  }

  /** Every piece whose stripped form is non-empty contributes that form. */
  lemma {:induction false} CleanCodesKept(pieces: seq<string>)
    ensures forall k :: 0 <= k < |pieces| && Strip(pieces[k]) != "" ==> Strip(pieces[k]) in Clean(pieces)
    decreases |pieces|
  {
    if |pieces| > 0 {
      var t := pieces[1..];
      HeadTail(pieces, []);
      CleanCons(pieces[0], t);
      CleanCodesKept(t);
      forall k | 1 <= k < |pieces| && Strip(pieces[k]) != ""
        ensures Strip(pieces[k]) in Clean(pieces)
      {
        assert t[k - 1] == pieces[k];
      }
    }
  }

  /** The codes keep the order of the pieces: one piece gives its stripped form unless that
      is empty, and a concatenation of piece lists gives the concatenation of their codes. */
  lemma CleanAppend(a: seq<string>, b: seq<string>)
    ensures |a| == 1 ==> Clean(a) == (if Strip(a[0]) != "" then [Strip(a[0])] else [])
    ensures Clean(a + b) == Clean(a) + Clean(b)
  {
    if |a| == 1 {
      CleanOne(a[0]);
      assert a == [a[0]];
    }
    CleanConcat(a, b);
  }

  /** One piece gives its stripped form unless that is empty. */
  lemma CleanOne(x: string)
    ensures Clean([x]) == (if Strip(x) != "" then [Strip(x)] else [])
  {
    assert [x][1..] == [];
  }

  /** A concatenation of piece lists gives the concatenation of their codes. */
  lemma {:induction false} CleanConcat(a: seq<string>, b: seq<string>)
    ensures Clean(a + b) == Clean(a) + Clean(b)
    decreases |a|
  {
    if |a| > 0 {
      var t := a[1..];
      HeadTail(a, b);
      CleanCons(a[0], t + b);
      CleanCons(a[0], t);
      CleanConcat(t, b);
      ConcatAssoc(if Strip(a[0]) != "" then [Strip(a[0])] else [], Clean(t), Clean(b));
    } else {
      assert a + b == b;
    }
  }

  /** The country codes of one `Country Codes` cell: split on commas, each piece stripped of
      white space, empty pieces dropped. */
  function Segments(cell: string): seq<string> {
    Clean(Split(cell, ','))
  }

  /** The non-empty strings of `parts`, in order. */
  function NonEmpty(parts: seq<string>): (r: seq<string>)
    ensures forall c :: c in r <==> c in parts && c != ""
    decreases |parts|
  {
    if |parts| == 0 then []
    else (if parts[0] != "" then [parts[0]] else []) + NonEmpty(parts[1..])
  }

  lemma {:induction false} CleanSpaced(parts: seq<string>)
    requires forall k :: 0 <= k < |parts| ==> NoEdgeSpace(parts[k])
    ensures Clean(Spaced(parts)) == NonEmpty(parts)
    decreases |parts|
  {
    if |parts| > 0 {
      var sp := Spaced(parts);
      StripLeadingSpace(parts[0]);
      assert sp[1..] == Spaced(parts[1..]);
      CleanSpaced(parts[1..]);
    }
  }

  /** A cell written as the `", ".join` of comma-free codes without surrounding white space
      splits back into those codes, less the empty ones. */
  lemma CleanCons(p: string, rest: seq<string>)
    ensures Clean([p] + rest) == (if Strip(p) != "" then [Strip(p)] else []) + Clean(rest)
  {
    assert ([p] + rest)[0] == p && ([p] + rest)[1..] == rest;
  }

  lemma SplitJoined(codes: seq<string>)
    requires |codes| >= 1 && forall k :: 0 <= k < |codes| ==> ',' !in codes[k]
    ensures Split(Join(codes, ", "), ',') == [codes[0]] + Spaced(codes[1..])
  {
    SplitJoin("", codes);
    assert "" + Join(codes, ", ") == Join(codes, ", ");
    assert "" + codes[0] == codes[0];
  }

  lemma SegmentsOfJoin(codes: seq<string>)
    requires forall k :: 0 <= k < |codes| ==> ',' !in codes[k] && NoEdgeSpace(codes[k])
    ensures Segments(Join(codes, ", ")) == NonEmpty(codes)
  {
    if |codes| == 0 {
      assert Split("", ',') == [""];
      CleanCons("", []);
      assert [""] + [] == [""];
    } else {
      SplitJoined(codes);
      CleanCons(codes[0], Spaced(codes[1..]));
      CleanSpaced(codes[1..]);
    }
  }

  /** The pairs `(code, row)` that the inner loop appends for one row. */
  function PairUp<V>(codes: seq<string>, row: V): (pairs: seq<(string, V)>)
    ensures |pairs| == |codes| && forall i :: 0 <= i < |codes| ==> pairs[i] == (codes[i], row)
  {
    seq(|codes|, i requires 0 <= i < |codes| => (codes[i], row))
  }

  /** The codes of each row's `Country Codes` cell. */
  function CodeColumn(rows: seq<ActivityRow>): (column: seq<seq<string>>)
    ensures |column| == |rows| && forall i :: 0 <= i < |rows| ==> column[i] == Segments(rows[i].countryCodes)
  {
    seq(|rows|, i requires 0 <= i < |rows| => Segments(rows[i].countryCodes))
  }

  /** Every `(code, row)` pair of the nested loops, in the order they are appended, where row
      `i` lists the codes `column[i]`. */
  function Pairs<V>(column: seq<seq<string>>, rows: seq<V>): seq<(string, V)>
    requires |column| == |rows|
    decreases |rows|
  {
    if |rows| == 0 then []
    else Pairs(column[..|rows| - 1], rows[..|rows| - 1]) + PairUp(column[|rows| - 1], rows[|rows| - 1])
  }

  /** One more code of a row extends the dictionary by one append. */
  lemma GroupStep<V>(done: seq<(string, V)>, codes: seq<string>, j: nat, row: V)
    requires j < |codes|
    ensures GroupOf(done + PairUp(codes[..j + 1], row)) == Put(GroupOf(done + PairUp(codes[..j], row)), codes[j], row)
  {
    assert PairUp(codes[..j + 1], row) == PairUp(codes[..j], row) + [(codes[j], row)];
    assert done + PairUp(codes[..j + 1], row) == (done + PairUp(codes[..j], row)) + [(codes[j], row)];
    GroupOfSnoc(done + PairUp(codes[..j], row), (codes[j], row));
  }

  /** The nested loops of `get_activities_by_country`: every row appended, in table order,
      under each code its entry of `column` lists. */
  method GroupPairs<V>(column: seq<seq<string>>, rows: seq<V>) returns (g: Groups<V>)
    requires |column| == |rows|
    ensures g == GroupOf(Pairs(column, rows))
  {
    var order: seq<string> := [];
    var members: map<string, seq<V>> := map[];
    var i := 0;
    while i < |rows|
      invariant 0 <= i <= |rows|
      invariant Groups(order, members) == GroupOf(Pairs(column[..i], rows[..i]))
    {
      var row := rows[i];
      var codes := column[i];
      ghost var done := Pairs(column[..i], rows[..i]);
      assert done + PairUp(codes[..0], row) == done;
      var j := 0;
      while j < |codes|
        invariant 0 <= j <= |codes|
        invariant Groups(order, members) == GroupOf(done + PairUp(codes[..j], row))
      {
        GroupStep(done, codes, j, row);
        order, members := Append(order, members, codes[j], row);
        j := j + 1;
      }
      assert codes[..j] == codes;
      assert column[..i + 1][..i] == column[..i] && rows[..i + 1][..i] == rows[..i];
      i := i + 1;
    }
    assert column[..i] == column && rows[..i] == rows;
    g := Groups(order, members);
  }

  /** The dictionary `get_activities_by_country` returns for an activity table. */
  function ActivitiesByCountry(rows: seq<ActivityRow>): Groups<ActivityRow> {
    GroupOf(Pairs(CodeColumn(rows), rows))
  }

  // Reference definitions.

  function Repeat<V>(row: V, n: nat): (r: seq<V>)
    ensures |r| == n && forall i :: 0 <= i < n ==> r[i] == row
  {
    seq(n, _ => row)
  }

  /** The rows in table order, each as often as `k` occurs in its codes. */
  function Expand<V>(column: seq<seq<string>>, rows: seq<V>, k: string): seq<V>
    requires |column| == |rows|
    decreases |rows|
  {
    if |rows| == 0 then []
    else Expand(column[..|rows| - 1], rows[..|rows| - 1], k) + Repeat(rows[|rows| - 1], Occurrences(column[|rows| - 1], k))
  }

  lemma {:induction false} KeysOfAppend<V>(a: seq<(string, V)>, b: seq<(string, V)>)
    ensures KeysOf(a + b) == KeysOf(a) + KeysOf(b)
  {
    var l, r := KeysOf(a + b), KeysOf(a) + KeysOf(b);
    assert |l| == |r|;
    forall i | 0 <= i < |l|
      ensures l[i] == r[i]
    {
      if i < |a| {
        assert (a + b)[i] == a[i];
      } else {
        assert (a + b)[i] == b[i - |a|];
      }
    }
  }

  lemma {:induction false} SelectAppend<V>(a: seq<(string, V)>, b: seq<(string, V)>, k: string)
    ensures Select(a + b, k) == Select(a, k) + Select(b, k)
    decreases |b|
  {
    if |b| == 0 {
      assert a + b == a;
    } else {
      var init := b[..|b| - 1];
      assert (a + b)[..|a + b| - 1] == a + init;
      assert (a + b)[|a + b| - 1] == b[|b| - 1];
      SelectAppend(a, init, k);
    }
  }

  lemma {:induction false} SelectPairUp<V>(codes: seq<string>, row: V, k: string)
    ensures Select(PairUp(codes, row), k) == Repeat(row, Occurrences(codes, k))
    decreases |codes|
  {
    if |codes| > 0 {
      var init := codes[..|codes| - 1];
      var pairs := PairUp(codes, row);
      assert pairs[..|pairs| - 1] == PairUp(init, row);
      SelectPairUp(init, row, k);
      var n := Occurrences(init, k);
      if codes[|codes| - 1] == k {
        assert Repeat(row, n + 1) == Repeat(row, n) + [row];
      }
    }
  }

  lemma {:induction false} PairsSpec<V>(column: seq<seq<string>>, rows: seq<V>, k: string)
    requires |column| == |rows|
    ensures KeysOf(Pairs(column, rows)) == Flatten(column)
    ensures Select(Pairs(column, rows), k) == Expand(column, rows, k)
    decreases |rows|
  {
    if |rows| > 0 {
      var n := |rows| - 1;
      var own := PairUp(column[n], rows[n]);
      PairsSpec(column[..n], rows[..n], k);
      KeysOfAppend(Pairs(column[..n], rows[..n]), own);
      assert KeysOf(own) == column[n];
      SelectAppend(Pairs(column[..n], rows[..n]), own, k);
      SelectPairUp(column[n], rows[n], k);
    }
  }

  /** The groups are keyed by exactly the codes some row lists, in the order they first occur;
      the group of a code holds the rows listing it, in table order, a row once per time it
      lists the code; and no key is empty or carries white space at its edges. */
  lemma ActivitiesByCountrySpec(rows: seq<ActivityRow>)
    ensures ActivitiesByCountry(rows).order == FirstSeen(Flatten(CodeColumn(rows)))
    ensures forall k :: k in ActivitiesByCountry(rows).members <==>
              exists i :: 0 <= i < |rows| && k in Segments(rows[i].countryCodes)
    ensures forall k :: k in ActivitiesByCountry(rows).members ==>
              ActivitiesByCountry(rows).members[k] == Expand(CodeColumn(rows), rows, k) && k != "" && NoEdgeSpace(k)
  {
    var column := CodeColumn(rows);
    var pairs := Pairs(column, rows);
    GroupOfSpec(pairs);
    PairsSpec(column, rows, "");
    forall k
      ensures k in ActivitiesByCountry(rows).members <==> exists i :: 0 <= i < |rows| && k in Segments(rows[i].countryCodes)
    {
      FlattenMember(column, k);
    }
    forall k | k in ActivitiesByCountry(rows).members
      ensures ActivitiesByCountry(rows).members[k] == Expand(column, rows, k) && k != "" && NoEdgeSpace(k)
    {
      PairsSpec(column, rows, k);
      FlattenMember(column, k);
      var i :| 0 <= i < |column| && k in column[i];
      CleanCodes(Split(rows[i].countryCodes, ','));
    }
  }

  lemma KenUgaCodes()
    ensures Join(["KEN", "UGA"], ", ") == "KEN, UGA"
    ensures forall k :: 0 <= k < 2 ==> ',' !in ["KEN", "UGA"][k] && NoEdgeSpace(["KEN", "UGA"][k])
  {
    var codes := ["KEN", "UGA"];
    assert Join(codes[1..], ", ") == "UGA";
    assert NoEdgeSpace(codes[0]) && NoEdgeSpace(codes[1]);
  }

  /** A concrete cell: "KEN, UGA" files its activity under "KEN" and then "UGA". */
  lemma TwoCountries()
    ensures Segments("KEN, UGA") == ["KEN", "UGA"]
  {
    var codes := ["KEN", "UGA"];
    KenUgaCodes();
    SegmentsOfJoin(codes);
    NonEmptyPair("KEN", "UGA");
  }

  lemma NonEmptyPair(x: string, y: string)
    requires x != "" && y != ""
    ensures NonEmpty([x, y]) == [x, y]
  {
    assert [x, y][1..] == [y] && [y][1..] == [];
    assert NonEmpty([y]) == [y] + NonEmpty([]);
  }

  /** For an activity row, the grouper recovers the project's ISO3 codes, less the empty ones,
      as long as no code holds a comma or edge white space. */
  lemma ActivityCodes(lib: Library, record: ProjectRecord)
    requires MapActivity(lib, record).Success?
    requires forall k :: 0 <= k < |IsoCodes(record.countries)| ==>
               ',' !in IsoCodes(record.countries)[k] && NoEdgeSpace(IsoCodes(record.countries)[k])
    ensures Segments(MapActivity(lib, record).value.countryCodes) == NonEmpty(IsoCodes(record.countries))
  {
    SegmentsOfJoin(IsoCodes(record.countries));
  }
}
