/** Sequence patterns the pipeline's loops share: mapping every record or stopping at the
    first that raises, flattening, and keeping keys in first-occurrence order. */
module Collect {
  import opened Wrappers

  /** `[f(x) for x in s]` where `f` may raise: the first exception in order wins. */
  function MapAll<A, B, E>(f: A -> Result<B, E>, s: seq<A>): Result<seq<B>, E>
    decreases |s|
  {
    if |s| == 0 then Success([])
    else
      match MapAll(f, s[..|s| - 1])
      case Failure(e) => Failure(e)
      case Success(bs) =>
        match f(s[|s| - 1])
        case Failure(e) => Failure(e)
        case Success(b) => Success(bs + [b])
  }

  /** One result per input, in input order, and success exactly when no input raises. */
  lemma {:induction false} MapAllOneToOne<A, B, E>(f: A -> Result<B, E>, s: seq<A>)
    ensures MapAll(f, s).Success? <==> forall k :: 0 <= k < |s| ==> f(s[k]).Success?
    ensures MapAll(f, s).Success? ==>
              |MapAll(f, s).value| == |s| &&
              forall k :: 0 <= k < |s| ==> MapAll(f, s).value[k] == f(s[k]).value
    decreases |s|
  {
    if |s| > 0 {
      var init := s[..|s| - 1];
      MapAllOneToOne(f, init);
      assert forall k :: 0 <= k < |init| ==> init[k] == s[k];
    }
  }

  /** Extending a successful prefix by one more input. */
  lemma MapAllStep<A, B, E>(f: A -> Result<B, E>, s: seq<A>, i: nat)
    requires i < |s| && MapAll(f, s[..i]).Success? && f(s[i]).Success?
    ensures MapAll(f, s[..i + 1]) == Success(MapAll(f, s[..i]).value + [f(s[i]).value])
  {
    assert s[..i + 1][..i] == s[..i];
  }

  /** A successful run is the successful run on all but the last input, extended by it. */
  lemma MapAllLast<A, B, E>(f: A -> Result<B, E>, s: seq<A>)
    requires |s| > 0 && MapAll(f, s).Success?
    ensures MapAll(f, s[..|s| - 1]).Success? && f(s[|s| - 1]).Success?
    ensures MapAll(f, s).value == MapAll(f, s[..|s| - 1]).value + [f(s[|s| - 1]).value]
  {
  }

  /** The number of leading inputs that do not raise. */
  function LeadingOk<A, B, E>(f: A -> Result<B, E>, s: seq<A>): (n: nat)
    ensures n <= |s|
    ensures forall k :: 0 <= k < n ==> f(s[k]).Success?
    ensures n < |s| ==> f(s[n]).Failure?
    decreases |s|
  {
    if |s| == 0 || f(s[0]).Failure? then 0 else 1 + LeadingOk(f, s[1..])
  }

  /** Once input `i` raises after a clean prefix, the whole run fails with its exception. */
  lemma {:induction false} MapAllStops<A, B, E>(f: A -> Result<B, E>, s: seq<A>, i: nat)
    requires i < |s| && MapAll(f, s[..i]).Success? && f(s[i]).Failure?
    ensures MapAll(f, s) == Failure(f(s[i]).error)
    ensures LeadingOk(f, s) == i
    decreases |s|
  {
    MapAllOneToOne(f, s[..i]);
    assert forall k :: 0 <= k < i ==> s[..i][k] == s[k];
    var n := LeadingOk(f, s);
    assert forall k :: 0 <= k < i ==> f(s[k]).Success?;
    assert n == i;
    if i < |s| - 1 {
      var init := s[..|s| - 1];
      assert init[..i] == s[..i] && init[i] == s[i];
      MapAllStops(f, init, i);
    } else {
      assert s[..|s| - 1] == s[..i];
    }
  }

  /** The prefix of `s` whose elements `MapAll` looked at: all of it, or up to and including
      the first that raised. */
  function Touched<A, B, E>(f: A -> Result<B, E>, s: seq<A>): (t: seq<A>)
    ensures t <= s
    ensures MapAll(f, s).Success? ==> t == s
    ensures MapAll(f, s).Failure? ==> |t| == LeadingOk(f, s) + 1 && f(t[|t| - 1]).Failure?
  {
    MapAllOneToOne(f, s);
    var n := LeadingOk(f, s);
    if n == |s| then s else s[..n + 1]
  }

  /** The prefix looked at ends with the first input that raised. */
  lemma TouchedStops<A, B, E>(f: A -> Result<B, E>, s: seq<A>, i: nat)
    requires i < |s| && MapAll(f, s[..i]).Success? && f(s[i]).Failure?
    ensures Touched(f, s) == s[..i + 1]
  {
    MapAllStops(f, s, i);
  }

  /** A comprehension over `s` evaluated left to right, where each input contributes a run of
      outputs or raises: the first exception wins, otherwise the runs are concatenated. */
  function ConcatAll<A, B, E>(f: A -> Result<seq<B>, E>, s: seq<A>): Result<seq<B>, E>
    decreases |s|
  {
    if |s| == 0 then Success([])
    else
      match f(s[0])
      case Failure(e) => Failure(e)
      case Success(h) =>
        match ConcatAll(f, s[1..])
        case Failure(e) => Failure(e)
        case Success(t) => Success(h + t)
  }

  /** The comprehension succeeds exactly when no input raises. */
  lemma {:induction false} ConcatAllOk<A, B, E>(f: A -> Result<seq<B>, E>, s: seq<A>)
    ensures ConcatAll(f, s).Success? <==> forall i :: 0 <= i < |s| ==> f(s[i]).Success?
    decreases |s|
  {
    if |s| > 0 {
      ConcatAllOk(f, s[1..]);
      assert forall i :: 1 <= i < |s| ==> s[1..][i - 1] == s[i];
    }
  }

  /** An output is produced exactly when some input contributes it. */
  lemma {:induction false} ConcatAllMember<A, B, E>(f: A -> Result<seq<B>, E>, s: seq<A>, x: B)
    requires ConcatAll(f, s).Success?
    ensures x in ConcatAll(f, s).value <==> exists i :: 0 <= i < |s| && f(s[i]).Success? && x in f(s[i]).value
    decreases |s|
  {
    if |s| > 0 {
      ConcatAllMember(f, s[1..], x);
      if x in ConcatAll(f, s).value {
        if x !in f(s[0]).value {
          var i :| 0 <= i < |s[1..]| && f(s[1..][i]).Success? && x in f(s[1..][i]).value;
          assert s[1..][i] == s[i + 1];
        }
      }
      if exists i :: 0 <= i < |s| && f(s[i]).Success? && x in f(s[i]).value {
        var i :| 0 <= i < |s| && f(s[i]).Success? && x in f(s[i]).value;
        if i > 0 {
          assert s[1..][i - 1] == s[i];
        }
      }
    }
  }

  /** A failure is the exception of the first input that raises. */
  lemma {:induction false} ConcatAllFails<A, B, E>(f: A -> Result<seq<B>, E>, s: seq<A>)
    requires ConcatAll(f, s).Failure?
    ensures exists i :: 0 <= i < |s| && f(s[i]).Failure? && (forall j :: 0 <= j < i ==> f(s[j]).Success?) &&
              ConcatAll(f, s).error == f(s[i]).error
    decreases |s|
  {
    if f(s[0]).Success? {
      ConcatAllFails(f, s[1..]);
      var i :| 0 <= i < |s[1..]| && f(s[1..][i]).Failure? && (forall j :: 0 <= j < i ==> f(s[1..][j]).Success?) &&
               ConcatAll(f, s[1..]).error == f(s[1..][i]).error;
      assert forall j :: 1 <= j < i + 1 ==> s[j] == s[1..][j - 1];
      assert s[i + 1] == s[1..][i];
    }
  }

  /** An exception in the first part is the exception of the whole. */
  lemma {:induction false} ConcatAllAppendFails<A, B, E>(f: A -> Result<seq<B>, E>, a: seq<A>, b: seq<A>)
    requires ConcatAll(f, a).Failure?
    ensures ConcatAll(f, a + b) == ConcatAll(f, a)
    decreases |a|
  {
    var ab := a + b;
    assert ab[0] == a[0] && ab[1..] == a[1..] + b;
    if f(a[0]).Success? {
      ConcatAllAppendFails(f, a[1..], b);
    }
  }

  /** When the first part succeeds, an exception in the second decides the whole. */
  lemma {:induction false} ConcatAllAppendLate<A, B, E>(f: A -> Result<seq<B>, E>, a: seq<A>, b: seq<A>)
    requires ConcatAll(f, a).Success? && ConcatAll(f, b).Failure?
    ensures ConcatAll(f, a + b) == ConcatAll(f, b)
    decreases |a|
  {
    if |a| == 0 {
      assert a + b == b;
    } else {
      var ab := a + b;
      assert ab[0] == a[0] && ab[1..] == a[1..] + b;
      ConcatAllAppendLate(f, a[1..], b);
    }
  }

  /** When both parts succeed, the outputs of the whole are those of the first part followed
      by those of the second. */
  lemma {:induction false} ConcatAllAppendOk<A, B, E>(f: A -> Result<seq<B>, E>, a: seq<A>, b: seq<A>)
    requires ConcatAll(f, a).Success? && ConcatAll(f, b).Success?
    ensures ConcatAll(f, a + b) == Success(ConcatAll(f, a).value + ConcatAll(f, b).value)
    decreases |a|
  {
    if |a| == 0 {
      assert a + b == b;
      assert [] + ConcatAll(f, b).value == ConcatAll(f, b).value;
    } else {
      var ab := a + b;
      assert ab[0] == a[0] && ab[1..] == a[1..] + b;
      ConcatAllAppendOk(f, a[1..], b);
      var h, t, r := f(a[0]).value, ConcatAll(f, a[1..]).value, ConcatAll(f, b).value;
      assert h + (t + r) == (h + t) + r;
    }
  }

  /** `[x for xs in ss for x in xs]`. */
  /** A non-empty list is its head in front of its tail, also in front of a suffix. */
  lemma HeadTail<T>(a: seq<T>, b: seq<T>)
    requires |a| > 0
    ensures a == [a[0]] + a[1..] && a + b == [a[0]] + (a[1..] + b)
  {
  }

  lemma ConcatAssoc<T>(a: seq<T>, b: seq<T>, c: seq<T>)
    ensures (a + b) + c == a + (b + c)
  {
  }

  function Flatten<T>(ss: seq<seq<T>>): (r: seq<T>)
    decreases |ss|
  {
    if |ss| == 0 then [] else Flatten(ss[..|ss| - 1]) + ss[|ss| - 1]
  }

  lemma FlattenSnoc<T>(ss: seq<seq<T>>, s: seq<T>)
    ensures Flatten(ss + [s]) == Flatten(ss) + s
  {
    assert (ss + [s])[..|ss|] == ss;
  }

  /** An element of the flattened list is an element of one of the lists. */
  lemma {:induction false} FlattenMember<T>(ss: seq<seq<T>>, x: T)
    ensures x in Flatten(ss) <==> exists i :: 0 <= i < |ss| && x in ss[i]
    decreases |ss|
  {
    if |ss| > 0 {
      var init := ss[..|ss| - 1];
      FlattenMember(init, x);
      if x in ss[|ss| - 1] {
        assert x in Flatten(ss);
      } else if x in Flatten(init) {
        var i :| 0 <= i < |init| && x in init[i];
        assert init[i] == ss[i];
      } else {
        forall i | 0 <= i < |ss|
          ensures x !in ss[i]
        {
          if i < |init| {
            assert init[i] == ss[i];
          }
        }
      }
    }
  }

  /** The elements of `s`, as a set. */
  function Elements<T(!new)>(s: seq<T>): (r: set<T>)
    ensures forall x :: x in r <==> x in s
  {
    set i | 0 <= i < |s| :: s[i]
  }

  /** How often `x` occurs in `s`. */
  function Occurrences<T(==)>(s: seq<T>, x: T): nat
    decreases |s|
  {
    if |s| == 0 then 0 else Occurrences(s[..|s| - 1], x) + (if s[|s| - 1] == x then 1 else 0)
  }

  /** The distinct elements of `s`, each where it first occurs. */
  function FirstSeen<T(==)>(s: seq<T>): seq<T>
    decreases |s|
  {
    if |s| == 0 then []
    else
      var seen := FirstSeen(s[..|s| - 1]);
      if s[|s| - 1] in seen then seen else seen + [s[|s| - 1]]
  }

  predicate Distinct<T(==)>(s: seq<T>) {
    forall i, j :: 0 <= i < j < |s| ==> s[i] != s[j]
  }

  /** The position of the first occurrence of `x` in `s`. */
  function FirstIndex<T(==)>(s: seq<T>, x: T): (i: nat)
    requires x in s
    ensures i < |s| && s[i] == x
    ensures forall k :: 0 <= k < i ==> s[k] != x
    decreases |s|
  {
    if s[0] == x then 0 else 1 + FirstIndex(s[1..], x)
  }

  lemma FirstIndexSnoc<T>(s: seq<T>, y: T, x: T)
    requires x in s + [y]
    ensures x in s ==> FirstIndex(s + [y], x) == FirstIndex(s, x)
    ensures x !in s ==> FirstIndex(s + [y], x) == |s|
  {
    var t := s + [y];
    var i := FirstIndex(t, x);
    if x in s {
      var j := FirstIndex(s, x);
      assert t[j] == x;
      assert i <= j;
      assert forall k :: 0 <= k < |s| ==> t[k] == s[k];
    } else {
      assert forall k :: 0 <= k < |s| ==> t[k] == s[k];
      assert t[|s|] == x;
    }
  }

  /** `FirstSeen(s)` holds each element of `s` exactly once, ordered by first occurrence. */
  lemma {:induction false} FirstSeenSpec<T>(s: seq<T>)
    ensures forall x :: x in FirstSeen(s) <==> x in s
    ensures Distinct(FirstSeen(s))
    ensures forall i, j :: 0 <= i < j < |FirstSeen(s)| ==>
              FirstIndex(s, FirstSeen(s)[i]) < FirstIndex(s, FirstSeen(s)[j])
    decreases |s|
  {
    if |s| > 0 {
      var init, last := s[..|s| - 1], s[|s| - 1];
      assert s == init + [last];
      FirstSeenSpec(init);
      var seen := FirstSeen(init);
      forall x | x in seen
        ensures FirstIndex(s, x) == FirstIndex(init, x)
      {
        var k := FirstIndex(init, x);
        assert s[k] == x;
        FirstIndexSnoc(init, last, x);
      }
      if last !in seen {
        assert s[|init|] == last;
        FirstIndexSnoc(init, last, last);
        forall i | 0 <= i < |seen|
          ensures FirstIndex(s, seen[i]) < FirstIndex(s, last)
        {
          assert seen[i] in seen;
        }
      }
    }
  }
}
