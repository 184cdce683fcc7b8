// Stable sorting by an order: sort.Slice and sort.SliceStable as the configurator uses them.
module Sorting {
  import opened Text

  function InsertBy<T>(less: (T, T) -> bool, sorted: seq<T>, x: T): seq<T> {
    if sorted == [] || less(x, sorted[0]) then [x] + sorted
    else [sorted[0]] + InsertBy(less, sorted[1..], x)
  }

  function SortBy<T>(less: (T, T) -> bool, s: seq<T>): seq<T> {
    if s == [] then [] else InsertBy(less, SortBy(less, s[..|s| - 1]), s[|s| - 1])
  }

  // The order tells some elements apart and is consistent about it.
  ghost predicate WeakOrder<T(!new)>(less: (T, T) -> bool) {
    && (forall a :: !less(a, a))
    && forall a, b, c :: less(a, b) && !less(c, b) ==> !less(c, a)
  }

  ghost predicate InOrderBy<T>(less: (T, T) -> bool, s: seq<T>) {
    forall i, j :: 0 <= i < j < |s| ==> !less(s[j], s[i])
  }

  lemma PrependKeepsOrder<T(!new)>(less: (T, T) -> bool, x: T, rest: seq<T>)
    requires InOrderBy(less, rest) && forall j :: 0 <= j < |rest| ==> !less(rest[j], x)
    ensures InOrderBy(less, [x] + rest)
  {
  }

  lemma {:induction false} InsertKeepsAll<T(!new)>(less: (T, T) -> bool, sorted: seq<T>, x: T)
    ensures multiset(InsertBy(less, sorted, x)) == multiset(sorted) + multiset{x}
  {
    if sorted != [] && !less(x, sorted[0]) {
      InsertKeepsAll(less, sorted[1..], x);
      assert sorted == [sorted[0]] + sorted[1..];
    }
  }

  lemma {:induction false} InsertKeepsOrder<T(!new)>(less: (T, T) -> bool, sorted: seq<T>, x: T)
    requires WeakOrder(less) && InOrderBy(less, sorted)
    ensures InOrderBy(less, InsertBy(less, sorted, x))
  {
    if sorted == [] {
    } else if less(x, sorted[0]) {
      FirstIsLeast(less, sorted);
      assert forall j :: 0 <= j < |sorted| ==> !less(sorted[j], x);
      PrependKeepsOrder(less, x, sorted);
    } else {
      InsertKeepsOrder(less, sorted[1..], x);
      FirstIsLeast(less, sorted);
      InsertStaysAbove(less, sorted[0], sorted[1..], x);
      PrependKeepsOrder(less, sorted[0], InsertBy(less, sorted[1..], x));
    }
  }

  lemma FirstIsLeast<T(!new)>(less: (T, T) -> bool, sorted: seq<T>)
    requires sorted != [] && InOrderBy(less, sorted) && WeakOrder(less)
    ensures forall j :: 0 <= j < |sorted| ==> !less(sorted[j], sorted[0])
    ensures InOrderBy(less, sorted[1..])
  {
  }

  lemma InsertStaysAbove<T(!new)>(less: (T, T) -> bool, first: T, sorted: seq<T>, x: T)
    requires !less(x, first) && forall j :: 0 <= j < |sorted| ==> !less(sorted[j], first)
    ensures forall j :: 0 <= j < |InsertBy(less, sorted, x)| ==> !less(InsertBy(less, sorted, x)[j], first)
  {
    var r := InsertBy(less, sorted, x);
    InsertKeepsAll(less, sorted, x);
    forall j | 0 <= j < |r|
      ensures !less(r[j], first)
    {
      assert r[j] in multiset(r);
      assert r[j] == x || r[j] in multiset(sorted);
    }
  }

  // Sorting puts in order and loses nothing.
  lemma {:induction false} SortBySorts<T(!new)>(less: (T, T) -> bool, s: seq<T>)
    requires WeakOrder(less)
    ensures InOrderBy(less, SortBy(less, s))
    ensures multiset(SortBy(less, s)) == multiset(s)
  {
    hide InOrderBy, InsertBy, WeakOrder;
    if s == [] {
      NoneInOrder(less);
    } else {
      SortBySorts(less, s[..|s| - 1]);
      InsertKeepsOrder(less, SortBy(less, s[..|s| - 1]), s[|s| - 1]);
      InsertKeepsAll(less, SortBy(less, s[..|s| - 1]), s[|s| - 1]);
      assert s == s[..|s| - 1] + [s[|s| - 1]];
    }
  }

  lemma NoneInOrder<T(!new)>(less: (T, T) -> bool)
    ensures InOrderBy(less, [])
  {
  }

  // Elements the order does not tell apart are the same.
  ghost predicate Separates<T(!new)>(less: (T, T) -> bool, s: seq<T>) {
    forall a, b :: a in s && b in s && !less(a, b) && !less(b, a) ==> a == b
  }

  // Then there is only one way to put them in order.
  lemma {:induction false} OrderIsUnique<T(!new)>(less: (T, T) -> bool, a: seq<T>, b: seq<T>)
    requires InOrderBy(less, a) && InOrderBy(less, b) && multiset(a) == multiset(b) && Separates(less, a)
    requires forall x :: !less(x, x)
    ensures a == b
  {
    hide InOrderBy, Separates;
    assert |a| == |multiset(a)| == |multiset(b)| == |b|;
    if a != [] {
      SameHead(less, a, b);
      TailsAgree(less, a, b);
      OrderIsUnique(less, a[1..], b[1..]);
      assert a == [a[0]] + a[1..] && b == [b[0]] + b[1..];
    }
  }

  lemma SameHead<T(!new)>(less: (T, T) -> bool, a: seq<T>, b: seq<T>)
    requires InOrderBy(less, a) && InOrderBy(less, b) && multiset(a) == multiset(b) && Separates(less, a)
    requires a != [] && b != [] && forall x :: !less(x, x)
    ensures a[0] == b[0]
  {
    assert a[0] in multiset(b);
    assert b[0] in multiset(a);
    var i :| 0 <= i < |b| && b[i] == a[0];
    var j :| 0 <= j < |a| && a[j] == b[0];
    assert i > 0 ==> !less(b[i], b[0]);
    assert j > 0 ==> !less(a[j], a[0]);
  }

  lemma TailsAgree<T(!new)>(less: (T, T) -> bool, a: seq<T>, b: seq<T>)
    requires InOrderBy(less, a) && InOrderBy(less, b) && multiset(a) == multiset(b) && Separates(less, a)
    requires a != [] && b != [] && a[0] == b[0]
    ensures InOrderBy(less, a[1..]) && InOrderBy(less, b[1..]) && Separates(less, a[1..])
    ensures multiset(a[1..]) == multiset(b[1..])
  {
    hide InOrderBy, Separates;
    TailHolds(a);
    TailHolds(b);
    TailIsSorted(less, a);
    TailIsSorted(less, b);
    assert multiset(a[1..]) == multiset(a) - multiset{a[0]} == multiset(b[1..]);
  }

  lemma TailHolds<T>(s: seq<T>)
    requires s != []
    ensures multiset(s) == multiset{s[0]} + multiset(s[1..])
  {
    assert s == [s[0]] + s[1..];
  }

  lemma TailIsSorted<T(!new)>(less: (T, T) -> bool, s: seq<T>)
    requires s != [] && InOrderBy(less, s)
    ensures InOrderBy(less, s[1..]) && (Separates(less, s) ==> Separates(less, s[1..]))
  {
    assert forall x :: x in s[1..] ==> x in s;
  }

  lemma {:induction false} SortIgnoresOrder<T(!new)>(less: (T, T) -> bool, a: seq<T>, b: seq<T>)
    requires WeakOrder(less) && multiset(a) == multiset(b) && Separates(less, a)
    ensures SortBy(less, a) == SortBy(less, b)
  {
    hide SortBy, InOrderBy;
    SortBySorts(less, a);
    SortBySorts(less, b);
    forall x | x in SortBy(less, a) ensures x in a {
      assert x in multiset(SortBy(less, a));
    }
    OrderIsUnique(less, SortBy(less, a), SortBy(less, b));
  }

  // Text is ordered well enough for any sort key.
  lemma TextOrder(a: string, b: string, c: string)
    ensures !Less(a, a)
    ensures Less(a, b) && !Less(c, b) ==> !Less(c, a)
    ensures !Less(a, b) && !Less(b, a) ==> a == b
  {
    LessIsStrictTotal(a, b);
    LessIsStrictTotal(b, c);
    if Less(c, a) && Less(a, b) { LessIsTransitive(c, a, b); }
  }
}
