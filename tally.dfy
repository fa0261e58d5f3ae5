/** The insert-or-update accumulator both aggregators use: a dictionary of rows keyed by a
    string, in insertion order, each row keeping the metadata of its first contributor, a
    count and a running sum. */
module Tally {
  import opened Wrappers
  import opened Collect
  import opened Text

  /** One contribution: the key it is filed under (absent, empty or a real key), the metadata
      a new row takes from it, and the amount it adds. */
  datatype Item<M> = Item(key: Option<string>, meta: M, amount: real)

  /** One aggregate row: first contributor's metadata, number of contributions, summed amount. */
  datatype Bucket<M> = Bucket(meta: M, count: nat, total: real)

  /** A Python dict of rows and its insertion order. */
  datatype Table<M> = Table(order: seq<string>, buckets: map<string, Bucket<M>>)

  /** The insertion order lists each key of the dictionary exactly once. */
  ghost predicate Wf<M>(t: Table<M>) {
    Distinct(t.order) && (forall k :: k in t.buckets <==> k in t.order)
  }

  /** One pass of the aggregation loop body: a falsy key is skipped; a key seen for the first
      time gets a row with this item's metadata and zeroed accumulators; then the row's count
      goes up by one and the item's amount is added. */
  function Add<M>(t: Table<M>, it: Item<M>): Table<M> {
    if !Truthy(it.key) then t
    else
      var k := it.key.value;
      var t' := if k in t.buckets then t else Table(t.order + [k], t.buckets[k := Bucket(it.meta, 0, 0.0)]);
      var b := t'.buckets[k];
      Table(t'.order, t'.buckets[k := Bucket(b.meta, b.count + 1, b.total + it.amount)])
  }

  /** The dictionary after the loop has run over `items`, starting from `{}`. */
  function TallyOf<M>(items: seq<Item<M>>): (t: Table<M>)
    ensures Wf(t)
    decreases |items|
  {
    if |items| == 0 then Table([], map[])
    else
      var prev := TallyOf(items[..|items| - 1]);
      var t := Add(prev, items[|items| - 1]);
      assert forall i :: 0 <= i < |prev.order| ==> t.order[i] == prev.order[i];
      t
  }

  lemma TallySnoc<M>(items: seq<Item<M>>, it: Item<M>)
    ensures TallyOf(items + [it]) == Add(TallyOf(items), it)
  {
    assert (items + [it])[..|items|] == items;
  }

  /** The loop step after a prefix of a run of items has already been added. */
  lemma TallyStep<M>(prefix: seq<Item<M>>, items: seq<Item<M>>, j: nat)
    requires j < |items|
    ensures TallyOf(prefix + items[..j + 1]) == Add(TallyOf(prefix + items[..j]), items[j])
  {
    assert prefix + items[..j + 1] == (prefix + items[..j]) + [items[j]];
    TallySnoc(prefix + items[..j], items[j]);
  }

  /** The in-place insert-or-update of one contribution into the dictionary and its order. */
  method Insert<M>(order: seq<string>, buckets: map<string, Bucket<M>>, it: Item<M>)
    returns (order': seq<string>, buckets': map<string, Bucket<M>>)
    ensures Table(order', buckets') == Add(Table(order, buckets), it)
  {
    order', buckets' := order, buckets;
    if Truthy(it.key) {
      var k := it.key.value;
      if k !in buckets' {
        order' := order' + [k];
        buckets' := buckets'[k := Bucket(it.meta, 0, 0.0)];
      }
      var entry := buckets'[k];
      buckets' := buckets'[k := Bucket(entry.meta, entry.count + 1, entry.total + it.amount)];
    }
  }

  // Reference definitions, one contribution at a time.

  /** The truthy keys of `items`, in order, with repetitions. */
  function Keys<M>(items: seq<Item<M>>): seq<string>
    decreases |items|
  {
    if |items| == 0 then []
    else
      var last := items[|items| - 1];
      Keys(items[..|items| - 1]) + (if Truthy(last.key) then [last.key.value] else [])
  }

  /** The number of items filed under `k`. */
  function CountKey<M>(items: seq<Item<M>>, k: string): nat
    decreases |items|
  {
    if |items| == 0 then 0
    else CountKey(items[..|items| - 1], k) + (if items[|items| - 1].key == Some(k) then 1 else 0)
  }

  /** The summed amount of the items filed under `k`. */
  function SumKey<M>(items: seq<Item<M>>, k: string): real
    decreases |items|
  {
    if |items| == 0 then 0.0
    else SumKey(items[..|items| - 1], k) + (if items[|items| - 1].key == Some(k) then items[|items| - 1].amount else 0.0)
  }

  /** The summed amount of the items with a truthy key. */
  function SumTruthy<M>(items: seq<Item<M>>): real
    decreases |items|
  {
    if |items| == 0 then 0.0
    else SumTruthy(items[..|items| - 1]) + (if Truthy(items[|items| - 1].key) then items[|items| - 1].amount else 0.0)
  }

  /** The summed amount of all items. */
  function SumAll<M>(items: seq<Item<M>>): real
    decreases |items|
  {
    if |items| == 0 then 0.0 else SumAll(items[..|items| - 1]) + items[|items| - 1].amount
  }

  /** The reference definitions add up over a concatenation. */
  lemma {:induction false} ReferenceAppend<M>(a: seq<Item<M>>, b: seq<Item<M>>, k: string)
    ensures Keys(a + b) == Keys(a) + Keys(b)
    ensures CountKey(a + b, k) == CountKey(a, k) + CountKey(b, k)
    ensures SumTruthy(a + b) == SumTruthy(a) + SumTruthy(b)
    decreases |b|
  {
    if |b| == 0 {
      assert a + b == a;
    } else {
      var init := b[..|b| - 1];
      assert (a + b)[..|a + b| - 1] == a + init;
      assert (a + b)[|a + b| - 1] == b[|b| - 1];
      ReferenceAppend(a, init, k);
    }
  }

  lemma {:induction false} SumKeyAppend<M>(a: seq<Item<M>>, b: seq<Item<M>>, k: string)
    ensures SumKey(a + b, k) == SumKey(a, k) + SumKey(b, k)
    decreases |b|
  {
    if |b| == 0 {
      assert a + b == a;
    } else {
      var init := b[..|b| - 1];
      assert (a + b)[..|a + b| - 1] == a + init;
      assert (a + b)[|a + b| - 1] == b[|b| - 1];
      SumKeyAppend(a, init, k);
    }
  }

  lemma {:induction false} KeysMembers<M>(items: seq<Item<M>>)
    ensures forall k :: k in Keys(items) <==> k != "" && exists i :: 0 <= i < |items| && items[i].key == Some(k)
    decreases |items|
  {
    if |items| > 0 {
      var init := items[..|items| - 1];
      KeysMembers(init);
      assert forall i :: 0 <= i < |init| ==> init[i] == items[i];
    }
  }

  lemma {:induction false} UnusedKey<M>(items: seq<Item<M>>, k: string)
    requires forall i :: 0 <= i < |items| ==> items[i].key != Some(k)
    ensures CountKey(items, k) == 0 && SumKey(items, k) == 0.0
    decreases |items|
  {
    if |items| > 0 {
      UnusedKey(items[..|items| - 1], k);
    }
  }

  /** A key is counted exactly when some item is filed under it. */
  lemma {:induction false} CountKeyPositive<M>(items: seq<Item<M>>, k: string)
    ensures CountKey(items, k) > 0 <==> exists i :: 0 <= i < |items| && items[i].key == Some(k)
    decreases |items|
  {
    if |items| > 0 {
      var init := items[..|items| - 1];
      CountKeyPositive(init, k);
      assert forall i :: 0 <= i < |init| ==> init[i] == items[i];
    }
  }

  /** The rows appear in the order their keys first occur. */
  lemma {:induction false} TallyOrder<M>(items: seq<Item<M>>)
    ensures TallyOf(items).order == FirstSeen(Keys(items))
    decreases |items|
  {
    if |items| > 0 {
      var init, last := items[..|items| - 1], items[|items| - 1];
      TallyOrder(init);
      if Truthy(last.key) {
        var ks := Keys(init);
        assert Keys(items) == ks + [last.key.value];
        assert (ks + [last.key.value])[..|ks|] == ks;
      } else {
        assert Keys(items) == Keys(init);
      }
    }
  }

  /** A row exists exactly for each non-empty key some item is filed under. */
  lemma {:induction false} TallyMembers<M>(items: seq<Item<M>>)
    ensures forall k :: k in TallyOf(items).buckets <==> k != "" && exists i :: 0 <= i < |items| && items[i].key == Some(k)
    decreases |items|
  {
    if |items| > 0 {
      var init := items[..|items| - 1];
      TallyMembers(init);
      assert forall i :: 0 <= i < |init| ==> init[i] == items[i];
    }
  }

  /** Each row counts the items filed under its key and sums their amounts. */
  lemma {:induction false} TallyBuckets<M>(items: seq<Item<M>>)
    ensures forall k :: k in TallyOf(items).buckets ==>
              TallyOf(items).buckets[k].count == CountKey(items, k) &&
              TallyOf(items).buckets[k].total == SumKey(items, k)
    decreases |items|
  {
    if |items| > 0 {
      var init, last := items[..|items| - 1], items[|items| - 1];
      var prev := TallyOf(init);
      TallyBuckets(init);
      TallyMembers(init);
      forall k | k in TallyOf(items).buckets
        ensures TallyOf(items).buckets[k].count == CountKey(items, k)
        ensures TallyOf(items).buckets[k].total == SumKey(items, k)
      {
        if last.key == Some(k) && k !in prev.buckets {
          UnusedKey(init, k);
        }
      }
    }
  }

  /** The rows of the aggregate are exactly the distinct truthy keys, in first-occurrence
      order; each row counts the items filed under its key and sums their amounts. */
  lemma TallySpec<M>(items: seq<Item<M>>)
    ensures TallyOf(items).order == FirstSeen(Keys(items))
    ensures forall k :: k in TallyOf(items).buckets <==> k != "" && exists i :: 0 <= i < |items| && items[i].key == Some(k)
    ensures forall k :: k in TallyOf(items).buckets ==>
              TallyOf(items).buckets[k].count == CountKey(items, k) &&
              TallyOf(items).buckets[k].total == SumKey(items, k)
  {
    TallyOrder(items);
    TallyMembers(items);
    TallyBuckets(items);
  }

  /** A row keeps the metadata of the first item filed under its key. */
  lemma {:induction false} TallyFirstMeta<M>(items: seq<Item<M>>, k: string)
    requires k in TallyOf(items).buckets
    ensures exists i :: 0 <= i < |items| && items[i].key == Some(k) &&
              (forall j :: 0 <= j < i ==> items[j].key != Some(k)) &&
              TallyOf(items).buckets[k].meta == items[i].meta
    decreases |items|
  {
    var init, last := items[..|items| - 1], items[|items| - 1];
    var prev := TallyOf(init);
    assert forall i :: 0 <= i < |init| ==> init[i] == items[i];
    if k in prev.buckets {
      TallyFirstMeta(init, k);
      var i :| 0 <= i < |init| && init[i].key == Some(k) &&
                (forall j :: 0 <= j < i ==> init[j].key != Some(k)) &&
                prev.buckets[k].meta == init[i].meta;
      assert items[i].key == Some(k);
    } else {
      TallySpec(init);
      assert items[|items| - 1].key == Some(k);
    }
  }

  /** Item `q` of chunk `p` is the first item filed under `k`, taking the chunks in order and
      each chunk's items in order. */
  predicate FirstInChunks<M>(chunks: seq<seq<Item<M>>>, k: string, p: int, q: int) {
    0 <= p < |chunks| && 0 <= q < |chunks[p]| && chunks[p][q].key == Some(k) &&
    (forall p', q' :: 0 <= p' < p && 0 <= q' < |chunks[p']| ==> chunks[p'][q'].key != Some(k)) &&
    (forall q' :: 0 <= q' < q ==> chunks[p][q'].key != Some(k))
  }

  /** Later items never replace the metadata of an existing row. */
  lemma {:induction false} MetaKept<M>(xs: seq<Item<M>>, ys: seq<Item<M>>, k: string)
    requires k in TallyOf(xs).buckets
    ensures k in TallyOf(xs + ys).buckets && TallyOf(xs + ys).buckets[k].meta == TallyOf(xs).buckets[k].meta
    decreases |ys|
  {
    if |ys| == 0 {
      assert xs + ys == xs;
    } else {
      var init := ys[..|ys| - 1];
      MetaKept(xs, init, k);
      assert xs + ys == (xs + init) + [ys[|ys| - 1]];
      TallySnoc(xs + init, ys[|ys| - 1]);
    }
  }

  /** A key that is not a row of the prefix but is one after `last` is filed under by no
      item of the prefix. */
  lemma KeyNotEarlier<M>(prefix: seq<Item<M>>, last: seq<Item<M>>, k: string)
    requires k !in TallyOf(prefix).buckets && k in TallyOf(prefix + last).buckets
    ensures forall x :: x in prefix ==> x.key != Some(k)
  {
    assert k != "" by {
      TallyMembers(prefix + last);
    }
    TallyMembers(prefix);
  }

  /** Item `i` is the first of `items` filed under `k`. */
  predicate FirstAt<M>(items: seq<Item<M>>, k: string, i: int) {
    0 <= i < |items| && items[i].key == Some(k) && forall j :: 0 <= j < i ==> items[j].key != Some(k)
  }

  /** A key first filed by the run `last` takes the metadata of the first item `q` of `last`
      filed under it, and no earlier item is filed under it. */
  lemma FirstMetaInLast<M>(prefix: seq<Item<M>>, last: seq<Item<M>>, k: string) returns (q: int)
    requires k !in TallyOf(prefix).buckets && k in TallyOf(prefix + last).buckets
    ensures forall x :: x in prefix ==> x.key != Some(k)
    ensures FirstAt(last, k, q) && TallyOf(prefix + last).buckets[k].meta == last[q].meta
  {
    var all := prefix + last;
    KeyNotEarlier(prefix, last, k);
    TallyFirstMeta(all, k);
    var i: int :| 0 <= i < |all| && all[i].key == Some(k) && (forall j :: 0 <= j < i ==> all[j].key != Some(k)) &&
                  TallyOf(all).buckets[k].meta == all[i].meta;
    assert |prefix| <= i;
    q := i - |prefix|;
    ShiftedFirst(prefix, last, k, i);
  }

  /** The first index of `prefix + last` filed under `k`, past a prefix with no such item, is
      the first such index of `last` shifted by the prefix's length. */
  lemma ShiftedFirst<M>(prefix: seq<Item<M>>, last: seq<Item<M>>, k: string, i: int)
    requires |prefix| <= i && FirstAt(prefix + last, k, i)
    ensures FirstAt(last, k, i - |prefix|) && last[i - |prefix|] == (prefix + last)[i]
  {
    var all := prefix + last;
    forall q' | 0 <= q' < i - |prefix|
      ensures last[q'].key != Some(k)
    {
      assert last[q'] == all[|prefix| + q'];
    }
  }

  /** Over runs of items added one run after another, a row keeps the metadata of the first
      item filed under its key, found run by run. */
  lemma {:induction false} ChunksFirstMeta<M>(chunks: seq<seq<Item<M>>>, k: string)
    requires k in TallyOf(Flatten(chunks)).buckets
    ensures exists p, q :: FirstInChunks(chunks, k, p, q) && TallyOf(Flatten(chunks)).buckets[k].meta == chunks[p][q].meta
    decreases |chunks|
  {
    var n := |chunks| - 1;
    var init, last := chunks[..n], chunks[n];
    assert chunks == init + [last];
    FlattenSnoc(init, last);
    var prefix := Flatten(init);
    assert forall p' :: 0 <= p' < n ==> init[p'] == chunks[p'];
    if k in TallyOf(prefix).buckets {
      ChunksFirstMeta(init, k);
      var p: int, q: int :| FirstInChunks(init, k, p, q) && TallyOf(prefix).buckets[k].meta == init[p][q].meta;
      MetaKept(prefix, last, k);
      assert FirstInChunks(chunks, k, p, q);
    } else {
      var q := FirstMetaInLast(prefix, last, k);
      forall p', q' | 0 <= p' < n && 0 <= q' < |chunks[p']|
        ensures chunks[p'][q'].key != Some(k)
      {
        FlattenMember(init, chunks[p'][q']);
        assert chunks[p'][q'] in init[p'];
      }
      assert FirstInChunks(chunks, k, n, q);
    }
  }

  // Conservation: the rows' sums add up to what was put in.

  function SumOver<M>(order: seq<string>, buckets: map<string, Bucket<M>>): real
    requires forall k :: k in order ==> k in buckets
    decreases |order|
  {
    if |order| == 0 then 0.0
    else SumOver(order[..|order| - 1], buckets) + buckets[order[|order| - 1]].total
  }

  /** The sum of the rows' totals, in insertion order. */
  function GrandTotal<M>(t: Table<M>): real
    requires Wf(t)
  {
    SumOver(t.order, t.buckets)
  }

  lemma {:induction false} SumOverAbsent<M>(order: seq<string>, buckets: map<string, Bucket<M>>, k: string, b: Bucket<M>)
    requires forall x :: x in order ==> x in buckets
    requires k !in order
    ensures SumOver(order, buckets[k := b]) == SumOver(order, buckets)
    decreases |order|
  {
    if |order| > 0 {
      SumOverAbsent(order[..|order| - 1], buckets, k, b);
    }
  }

  lemma {:induction false} SumOverUpdate<M>(order: seq<string>, buckets: map<string, Bucket<M>>, k: string, b: Bucket<M>)
    requires forall x :: x in order ==> x in buckets
    requires Distinct(order) && k in order
    ensures SumOver(order, buckets[k := b]) == SumOver(order, buckets) + b.total - buckets[k].total
    decreases |order|
  {
    var init := order[..|order| - 1];
    if order[|order| - 1] == k {
      assert k !in init;
      SumOverAbsent(init, buckets, k, b);
    } else {
      SumOverUpdate(init, buckets, k, b);
    }
  }

  /** One contribution raises the grand total by its amount, unless its key is falsy. */
  lemma GrandTotalAdd<M>(t: Table<M>, it: Item<M>)
    requires Wf(t)
    ensures GrandTotal(Add(t, it)) == GrandTotal(t) + (if Truthy(it.key) then it.amount else 0.0)
  {
    if Truthy(it.key) {
      var k := it.key.value;
      if k in t.buckets {
        var b := t.buckets[k];
        SumOverUpdate(t.order, t.buckets, k, Bucket(b.meta, b.count + 1, b.total + it.amount));
      } else {
        var b := Bucket(it.meta, 1, it.amount);
        assert t.buckets[k := Bucket(it.meta, 0, 0.0)][k := b] == t.buckets[k := b];
        var order := t.order + [k];
        assert order[..|order| - 1] == t.order;
        SumOverAbsent(t.order, t.buckets, k, b);
      }
    }
  }

  /** Every amount with a truthy key ends up in exactly one row: the rows' totals add up to
      the total of those amounts. */
  lemma {:induction false} TallyConserves<M>(items: seq<Item<M>>)
    ensures GrandTotal(TallyOf(items)) == SumTruthy(items)
    decreases |items|
  {
    if |items| > 0 {
      var init := items[..|items| - 1];
      TallyConserves(init);
      GrandTotalAdd(TallyOf(init), items[|items| - 1]);
    }
  }
}
