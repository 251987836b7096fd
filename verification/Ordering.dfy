/** Sorting under a strict total order: the result is unique, and a position counts the
    elements that come before it. */
module Ordering {
  import opened Common

  ghost predicate StrictTotal<T(!new)>(less: (T, T) -> bool) {
    && (forall x :: !less(x, x))
    && (forall x, y, z :: less(x, y) && less(y, z) ==> less(x, z))
    && (forall x, y :: x == y || less(x, y) || less(y, x))
  }

  ghost predicate Sorted<T>(s: seq<T>, less: (T, T) -> bool) {
    forall i, j :: 0 <= i < j < |s| ==> less(s[i], s[j])
  }

  function Insert<T(!new)>(x: T, s: seq<T>, less: (T, T) -> bool): (r: seq<T>)
    requires StrictTotal(less) && Sorted(s, less) && x !in s
    ensures Sorted(r, less) && multiset(r) == multiset(s) + multiset{x}
  {
    if s == [] || less(x, s[0]) then
      assert multiset([x] + s) == multiset{x} + multiset(s);
      [x] + s
    else
      var tail := Insert(x, s[1..], less);
      assert s == [s[0]] + s[1..];
      HeadStaysFirst(x, s, tail, less);
      [s[0]] + tail
  }

  lemma HeadStaysFirst<T(!new)>(x: T, s: seq<T>, tail: seq<T>, less: (T, T) -> bool)
    requires StrictTotal(less) && s != [] && Sorted(s, less) && x != s[0] && !less(x, s[0])
    requires Sorted(tail, less) && multiset(tail) == multiset(s[1..]) + multiset{x}
    ensures Sorted([s[0]] + tail, less)
  {
    forall i | 0 <= i < |tail| ensures less(s[0], tail[i]) {
      assert tail[i] in multiset(tail);
      assert tail[i] == x || tail[i] in s[1..];
    }
  }

  function Sort<T(!new)>(s: seq<T>, less: (T, T) -> bool): (r: seq<T>)
    requires StrictTotal(less) && Distinct(s)
    ensures Sorted(r, less) && multiset(r) == multiset(s)
  {
    if s == [] then []
    else
      var rest := Sort(s[1..], less);
      assert s == [s[0]] + s[1..];
      assert s[0] !in multiset(s[1..]) && s[0] !in multiset(rest);
      Insert(s[0], rest, less)
  }

  /** What a caller needs about the sorted sequence. */
  lemma SortFacts<T(!new)>(s: seq<T>, less: (T, T) -> bool)
    requires StrictTotal(less) && Distinct(s)
    ensures var r := Sort(s, less);
            |r| == |s| && Sorted(r, less) && Distinct(r) && forall x :: x in r <==> x in s
  {
    hide Sort;
    var r := Sort(s, less);
    assert |multiset(r)| == |multiset(s)|;
    assert forall x :: x in r <==> x in multiset(r);
    assert forall x :: x in s <==> x in multiset(s);
  }

  lemma {:induction false} DistinctSize<T>(s: seq<T>)
    requires Distinct(s)
    ensures |Elements(s)| == |s|
  {
    if s != [] {
      var rest, last := s[..|s| - 1], s[|s| - 1];
      DistinctSize(rest);
      assert s == rest + [last];
      assert Elements(s) == Elements(rest) + {last};
    }
  }

  /** In a sorted sequence exactly the earlier elements are smaller. */
  lemma BeforeIsLess<T(!new)>(s: seq<T>, less: (T, T) -> bool, p: nat, x: T)
    requires StrictTotal(less) && Sorted(s, less) && p < |s|
    ensures x in s[..p] <==> x in s && less(x, s[p])
  {
    if x in s && less(x, s[p]) {
      var q :| 0 <= q < |s| && s[q] == x;
      assert q < p;
      assert s[..p][q] == x;
    }
  }
}
