// Text values and the orders the configurator sorts by.
//
// A Go string holding valid UTF-8 is modelled as a sequence of Unicode scalar values. Go compares
// strings byte by byte; on UTF-8 text that is the order of scalar values used here.
module Text {

  datatype Option<+T> = None | Some(value: T)

  datatype Result<+T, +E> = Ok(value: T) | Err(error: E)

  // A class of a name: names of a smaller class sort first, names of one class by text.
  type Rank = string -> nat

  const PLAIN: Rank := (name: string) => 0

  predicate Less(a: string, b: string) {
    if b == "" then false
    else if a == "" then true
    else a[0] < b[0] || (a[0] == b[0] && Less(a[1..], b[1..]))
  }

  predicate Before(rank: Rank, a: string, b: string) {
    rank(a) < rank(b) || (rank(a) == rank(b) && Less(a, b))
  }

  lemma {:induction false} LessIsStrictTotal(a: string, b: string)
    ensures !Less(a, a)
    ensures Less(a, b) ==> !Less(b, a)
    ensures Less(a, b) || a == b || Less(b, a)
    decreases |a|
  {
    if a != "" {
      LessIsStrictTotal(a[1..], a[1..]);
    }
    if a != "" && b != "" {
      LessIsStrictTotal(a[1..], b[1..]);
      if a[0] == b[0] && a[1..] == b[1..] {
        assert a == [a[0]] + a[1..] && b == [b[0]] + b[1..];
      }
    }
  }

  lemma {:induction false} LessIsTransitive(a: string, b: string, c: string)
    requires Less(a, b) && Less(b, c)
    ensures Less(a, c)
  {
    if a != "" && a[0] == b[0] == c[0] {
      LessIsTransitive(a[1..], b[1..], c[1..]);
    }
  }

  // stepLess and moduleLess are strict total orders on names.
  lemma BeforeIsStrictTotal(rank: Rank, a: string, b: string)
    ensures !Before(rank, a, a)
    ensures Before(rank, a, b) ==> !Before(rank, b, a)
    ensures Before(rank, a, b) || a == b || Before(rank, b, a)
  {
    LessIsStrictTotal(a, b);
  }

  lemma BeforeIsTransitive(rank: Rank, a: string, b: string, c: string)
    requires Before(rank, a, b) && Before(rank, b, c)
    ensures Before(rank, a, c)
  {
    if rank(a) == rank(b) == rank(c) {
      LessIsTransitive(a, b, c);
    }
  }

  /* Sets as sequences */

  ghost function Elements<T>(s: seq<T>): set<T> {
    set x | x in s
  }

  ghost predicate NoDuplicates<T>(s: seq<T>) {
    forall i, j :: 0 <= i < j < |s| ==> s[i] != s[j]
  }

  lemma ElementsOfAppend<T>(s: seq<T>, t: seq<T>)
    ensures Elements(s + t) == Elements(s) + Elements(t)
  {
  }

  lemma PrefixElements<T>(s: seq<T>, k: nat)
    requires k < |s|
    ensures Elements(s[..k + 1]) == Elements(s[..k]) + {s[k]}
    ensures Elements(s[..k + 1]) <= Elements(s)
    ensures s[k] in Elements(s)
  {
    assert s[..k + 1] == s[..k] + [s[k]];
  }

  lemma AppendIsAssociative<T>(a: seq<T>, b: seq<T>, c: seq<T>)
    ensures (a + b) + c == a + (b + c)
  {
  }

  lemma PrefixAppend<T>(s: seq<T>, k: nat)
    requires k < |s|
    ensures s[..k] + [s[k]] == s[..k + 1]
  {
  }

  lemma AppendOne<T>(a: T, b: T)
    ensures [a] + [b] == [a, b]
  {
  }

  lemma AppendNone<T>(s: seq<T>)
    ensures s + [] == s && [] + s == s
  {
  }

  lemma AppendSeven<T>(a: T, b: T, c: T, d: T, e: T, f: T, g: T)
    ensures [] + [a] + [b] + [c] + [d] + [e] + [f] + [g] == [a, b, c, d, e, f, g]
  {
  }

  lemma SameElements<T>(a: seq<T>, b: seq<T>)
    requires |a| == |b| && forall k :: 0 <= k < |a| ==> a[k] == b[k]
    ensures a == b
  {
  }

  lemma AppendThree<T>(s: seq<T>, a: T, b: T, c: T)
    ensures s + [a] + [b] + [c] == s + [a, b, c]
  {
  }

  lemma TailOfCons<T>(x: T, s: seq<T>)
    ensures ([x] + s)[1..] == s
  {
  }

  // A duplicate-free sequence is as long as its set of elements.
  lemma {:induction false} NoDuplicatesLength<T>(s: seq<T>)
    requires NoDuplicates(s)
    ensures |Elements(s)| == |s|
  {
    if s != [] {
      NoDuplicatesLength(s[1..]);
      assert s == [s[0]] + s[1..];
      assert s[0] !in Elements(s[1..]);
      assert Elements(s) == {s[0]} + Elements(s[1..]);
    }
  }

  /* The least name of a set, and a set in order */

  ghost predicate IsLeast(rank: Rank, names: set<string>, least: string) {
    least in names && forall n :: n in names && n != least ==> Before(rank, least, n)
  }

  lemma {:induction false} LeastExists(rank: Rank, names: set<string>)
    requires names != {}
    ensures exists least :: IsLeast(rank, names, least)
  {
    var n :| n in names;
    if names == {n} {
      assert IsLeast(rank, names, n);
    } else {
      LeastExists(rank, names - {n});
      var m :| IsLeast(rank, names - {n}, m);
      BeforeIsStrictTotal(rank, n, m);
      var least := if Before(rank, n, m) then n else m;
      forall k | k in names && k != least ensures Before(rank, least, k) {
        if k != m && least == n {
          BeforeIsTransitive(rank, n, m, k);
        }
      }
      assert IsLeast(rank, names, least);
    }
  }

  ghost function Least(rank: Rank, names: set<string>): (least: string)
    requires names != {}
    ensures IsLeast(rank, names, least)
  {
    LeastExists(rank, names);
    var least :| IsLeast(rank, names, least);
    least
  }

  lemma LeastIsUnique(rank: Rank, names: set<string>, n: string)
    requires IsLeast(rank, names, n)
    ensures Least(rank, names) == n
  {
    BeforeIsStrictTotal(rank, n, Least(rank, names));
  }

  ghost predicate Increasing(rank: Rank, s: seq<string>) {
    forall i, j :: 0 <= i < j < |s| ==> Before(rank, s[i], s[j])
  }

  // The names of a set in order: what sort.Slice or sort.Strings leaves of a map's keys.
  ghost function InOrder(rank: Rank, names: set<string>): seq<string> {
    if names == {} then [] else [Least(rank, names)] + InOrder(rank, names - {Least(rank, names)})
  }

  lemma {:induction false} InOrderIsSorted(rank: Rank, names: set<string>)
    ensures Elements(InOrder(rank, names)) == names
    ensures Increasing(rank, InOrder(rank, names))
    ensures NoDuplicates(InOrder(rank, names))
  {
    if names != {} {
      var least := Least(rank, names);
      var rest := InOrder(rank, names - {least});
      InOrderIsSorted(rank, names - {least});
      ElementsOfAppend([least], rest);
      forall i | 0 <= i < |rest| ensures Before(rank, least, rest[i]) {
        assert rest[i] in Elements(rest);
      }
      IncreasingHasNoDuplicates(rank, [least] + rest);
    }
  }

  // Order leaves no choice: one set has one increasing sequence.
  lemma {:induction false} IncreasingIsInOrder(rank: Rank, s: seq<string>)
    requires Increasing(rank, s)
    ensures InOrder(rank, Elements(s)) == s
  {
    if s != [] {
      var names := Elements(s);
      assert s == [s[0]] + s[1..];
      assert IsLeast(rank, names, s[0]) by {
        forall n | n in names && n != s[0] ensures Before(rank, s[0], n) {
          var i :| 0 <= i < |s| && s[i] == n;
        }
      }
      LeastIsUnique(rank, names, s[0]);
      assert names - {s[0]} == Elements(s[1..]) by {
        forall n | n in s[1..] ensures n != s[0] {
          BeforeIsStrictTotal(rank, s[0], s[0]);
        }
      }
      IncreasingIsInOrder(rank, s[1..]);
    }
  }

  lemma IncreasingHasNoDuplicates(rank: Rank, s: seq<string>)
    requires Increasing(rank, s)
    ensures NoDuplicates(s)
  {
    forall i, j | 0 <= i < j < |s| ensures s[i] != s[j] {
      BeforeIsStrictTotal(rank, s[i], s[j]);
    }
  }

  // sort.Slice over distinct names: whatever order they come in, one result.
  method Sort(rank: Rank, names: seq<string>) returns (sorted: seq<string>)
    requires NoDuplicates(names)
    ensures sorted == InOrder(rank, Elements(names))
    ensures Elements(sorted) == Elements(names) && Increasing(rank, sorted) && NoDuplicates(sorted)
  {
    sorted := [];
    for i := 0 to |names|
      invariant Increasing(rank, sorted)
      invariant Elements(sorted) == Elements(names[..i])
    {
      assert names[i] !in Elements(names[..i]);
      var next := Insert(rank, sorted, names[i]);
      assert names[..i + 1] == names[..i] + [names[i]];
      ElementsOfAppend(names[..i], [names[i]]);
      sorted := next;
    }
    assert names[..|names|] == names;
    IncreasingHasNoDuplicates(rank, sorted);
    IncreasingIsInOrder(rank, sorted);
  }

  method Insert(rank: Rank, sorted: seq<string>, name: string) returns (r: seq<string>)
    requires Increasing(rank, sorted) && name !in Elements(sorted)
    ensures Increasing(rank, r)
    ensures Elements(r) == Elements(sorted) + {name}
  {
    var k := 0;
    while k < |sorted| && Before(rank, sorted[k], name)
      invariant 0 <= k <= |sorted|
      invariant forall i :: 0 <= i < k ==> Before(rank, sorted[i], name)
    {
      k := k + 1;
    }
    forall i | k <= i < |sorted| ensures Before(rank, name, sorted[i]) {
      assert sorted[i] in Elements(sorted) && sorted[k] in Elements(sorted);
      BeforeIsStrictTotal(rank, name, sorted[k]);
      if k < i {
        BeforeIsTransitive(rank, name, sorted[k], sorted[i]);
      }
    }
    r := sorted[..k] + [name] + sorted[k..];
    assert sorted == sorted[..k] + sorted[k..];
  }

  // The keys of a Go map in the order `range` happens to visit them.
  method Keys(names: set<string>) returns (s: seq<string>)
    ensures NoDuplicates(s) && Elements(s) == names
  {
    s := [];
    var left := names;
    while left != {}
      invariant left <= names
      invariant NoDuplicates(s) && Elements(s) == names - left
      decreases left
    {
      var n :| n in left;
      assert n !in Elements(s);
      ElementsOfAppend(s, [n]);
      s := s + [n];
      left := left - {n};
    }
  }

  // sortedKeys: the members of a set, once each.
  method SortedKeys(names: set<string>) returns (s: seq<string>)
    ensures NoDuplicates(s) && Elements(s) == names
    ensures s == InOrder(PLAIN, names)
  {
    var keys := Keys(names);
    s := Sort(PLAIN, keys);
  }
}
