/** A `defaultdict(list)` filled by appending values under keys: keys in first-appearance
    order, each list holding its values in the order they were appended. */
module Grouping {
  import opened Collect

  datatype Groups<V> = Groups(order: seq<string>, members: map<string, seq<V>>)

  ghost predicate Wf<V>(g: Groups<V>) {
    Distinct(g.order) && (forall k :: k in g.members <==> k in g.order)
  }

  /** `groups[key].append(v)`, creating the empty list on first access. */
  function Put<V>(g: Groups<V>, key: string, v: V): Groups<V> {
    if key in g.members then Groups(g.order, g.members[key := g.members[key] + [v]])
    else Groups(g.order + [key], g.members[key := [v]])
  }

  /** The dictionary after appending every `(key, value)` pair in order, starting from empty. */
  function GroupOf<V>(pairs: seq<(string, V)>): (g: Groups<V>)
    ensures Wf(g)
    decreases |pairs|
  {
    if |pairs| == 0 then Groups([], map[])
    else
      var prev := GroupOf(pairs[..|pairs| - 1]);
      var g := Put(prev, pairs[|pairs| - 1].0, pairs[|pairs| - 1].1);
      assert forall i :: 0 <= i < |prev.order| ==> g.order[i] == prev.order[i];
      g
  }

  lemma GroupOfSnoc<V>(pairs: seq<(string, V)>, p: (string, V))
    ensures GroupOf(pairs + [p]) == Put(GroupOf(pairs), p.0, p.1)
  {
    assert (pairs + [p])[..|pairs|] == pairs;
  }

  /** `groups[key].append(v)` on a dictionary held as its order and its lists. */
  method Append<V>(order: seq<string>, members: map<string, seq<V>>, key: string, v: V)
    returns (order': seq<string>, members': map<string, seq<V>>)
    ensures Groups(order', members') == Put(Groups(order, members), key, v)
  {
    if key in members {
      order', members' := order, members[key := members[key] + [v]];
    } else {
      order', members' := order + [key], members[key := [v]];
    }
  }

  /** The keys of the pairs, in order, with repetitions. */
  function KeysOf<V>(pairs: seq<(string, V)>): (ks: seq<string>)
    ensures |ks| == |pairs| && forall i :: 0 <= i < |pairs| ==> ks[i] == pairs[i].0
    decreases |pairs|
  {
    if |pairs| == 0 then [] else KeysOf(pairs[..|pairs| - 1]) + [pairs[|pairs| - 1].0]
  }

  /** The values paired with `k`, in order. */
  function Select<V>(pairs: seq<(string, V)>, k: string): seq<V>
    decreases |pairs|
  {
    if |pairs| == 0 then []
    else Select(pairs[..|pairs| - 1], k) + (if pairs[|pairs| - 1].0 == k then [pairs[|pairs| - 1].1] else [])
  }

  lemma {:induction false} SelectUnused<V>(pairs: seq<(string, V)>, k: string)
    requires forall i :: 0 <= i < |pairs| ==> pairs[i].0 != k
    ensures Select(pairs, k) == []
    decreases |pairs|
  {
    if |pairs| > 0 {
      SelectUnused(pairs[..|pairs| - 1], k);
    }
  }

  /** The groups appear in the order their keys first occur. */
  lemma {:induction false} GroupOrder<V>(pairs: seq<(string, V)>)
    ensures GroupOf(pairs).order == FirstSeen(KeysOf(pairs))
    decreases |pairs|
  {
    if |pairs| > 0 {
      var init, last := pairs[..|pairs| - 1], pairs[|pairs| - 1];
      GroupOrder(init);
      var ks := KeysOf(init);
      assert KeysOf(pairs) == ks + [last.0];
      assert (ks + [last.0])[..|ks|] == ks;
    }
  }

  /** A group exists exactly for each key that occurs. */
  lemma {:induction false} GroupMembers<V>(pairs: seq<(string, V)>)
    ensures forall k :: k in GroupOf(pairs).members <==> k in KeysOf(pairs)
    decreases |pairs|
  {
    if |pairs| > 0 {
      var init, last := pairs[..|pairs| - 1], pairs[|pairs| - 1];
      GroupMembers(init);
      assert KeysOf(pairs) == KeysOf(init) + [last.0];
    }
  }

  /** Each group holds every value paired with its key, in order. */
  lemma {:induction false} GroupLists<V>(pairs: seq<(string, V)>)
    ensures forall k :: k in GroupOf(pairs).members ==> GroupOf(pairs).members[k] == Select(pairs, k)
    decreases |pairs|
  {
    if |pairs| > 0 {
      var init, last := pairs[..|pairs| - 1], pairs[|pairs| - 1];
      GroupLists(init);
      if last.0 !in GroupOf(init).members {
        GroupMembers(init);
        assert forall i :: 0 <= i < |init| ==> init[i].0 == KeysOf(init)[i];
        SelectUnused(init, last.0);
      }
    }
  }

  /** The groups are keyed by exactly the keys that occur, in first-appearance order, and each
      holds every value paired with its key, in order. */
  lemma GroupOfSpec<V>(pairs: seq<(string, V)>)
    ensures GroupOf(pairs).order == FirstSeen(KeysOf(pairs))
    ensures forall k :: k in GroupOf(pairs).members <==> k in KeysOf(pairs)
    ensures forall k :: k in GroupOf(pairs).members ==> GroupOf(pairs).members[k] == Select(pairs, k)
  {
    GroupOrder(pairs);
    GroupMembers(pairs);
    GroupLists(pairs);
  }
}
