/** Sorting: a stable sort by any total order, and the orders the program sorts by. */
module Sorting {

  /** Total and transitive. */
  ghost predicate IsOrder<T(!new)>(le: (T, T) -> bool) {
    && (forall x, y :: le(x, y) || le(y, x))
    && (forall x, y, z :: le(x, y) && le(y, z) ==> le(x, z))
  }

  ghost predicate Sorted<T(!new)>(le: (T, T) -> bool, s: seq<T>) {
    forall i, j :: 0 <= i < j < |s| ==> le(s[i], s[j])
  }

  /** `x` behind everything that is not greater. */
  function Place<T(!new)>(le: (T, T) -> bool, s: seq<T>, x: T): seq<T> {
    if s == [] then [x]
    else
      var n := |s| - 1;
      if le(s[n], x) then s + [x] else Place(le, s[..n], x) + [s[n]]
  }

  /** `sort_by`. */
  function Sort<T(!new)>(le: (T, T) -> bool, s: seq<T>): seq<T> {
    if s == [] then [] else Place(le, Sort(le, s[..|s| - 1]), s[|s| - 1])
  }

  lemma {:induction false} PlaceIs<T(!new)>(le: (T, T) -> bool, s: seq<T>, x: T) returns (p: nat)
    ensures p <= |s| && Place(le, s, x) == s[..p] + [x] + s[p..]
    ensures p == 0 || le(s[p - 1], x)
    ensures forall i :: p <= i < |s| ==> !le(s[i], x)
  {
    var n := |s| - 1;
    if s == [] || le(s[n], x) {
      p := |s|;
      assert s[..p] == s && s[p..] == [];
    } else {
      p := PlaceIs(le, s[..n], x);
      assert s[..n][..p] == s[..p] && s[..n][p..] + [s[n]] == s[p..];
    }
  }

  lemma PlaceSorted<T(!new)>(le: (T, T) -> bool, s: seq<T>, x: T)
    requires IsOrder(le) && Sorted(le, s)
    ensures Sorted(le, Place(le, s, x)) && multiset(Place(le, s, x)) == multiset(s) + multiset{x}
  {
    var p := PlaceIs(le, s, x);
    assert s == s[..p] + s[p..];
    var r := s[..p] + [x] + s[p..];
    forall i, j | 0 <= i < j < |r| ensures le(r[i], r[j]) {
      if j < p {
      } else if j == p {
        assert i == p - 1 || le(s[i], s[p - 1]);
      } else if i == p {
        assert le(x, s[j - 1]);
      } else {
        assert r[j] == s[j - 1];
      }
    }
  }

  /** It sorts, and loses or invents nothing. */
  lemma {:induction false} SortSorts<T(!new)>(le: (T, T) -> bool, s: seq<T>)
    requires IsOrder(le)
    ensures Sorted(le, Sort(le, s)) && multiset(Sort(le, s)) == multiset(s)
  {
    if s == [] {
      NothingSorted(le);
    } else {
      hide IsOrder, Sorted, Place;
      var n := |s| - 1;
      SortSorts(le, s[..n]);
      PlaceSorted(le, Sort(le, s[..n]), s[n]);
      WithoutLast(s);
    }
  }

  lemma SameMembers<T(!new)>(le: (T, T) -> bool, s: seq<T>, x: T)
    requires IsOrder(le)
    ensures x in Sort(le, s) <==> x in s
  {
    SortSorts(le, s);
    assert x in Sort(le, s) <==> x in multiset(Sort(le, s));
    assert x in s <==> x in multiset(s);
  }

  lemma NothingSorted<T(!new)>(le: (T, T) -> bool)
    ensures Sorted(le, [])
  {
  }

  lemma WithoutLast<T>(s: seq<T>)
    requires s != []
    ensures multiset(s) == multiset(s[..|s| - 1]) + multiset{s[|s| - 1]} && s == s[..|s| - 1] + [s[|s| - 1]]
  {
    assert s == s[..|s| - 1] + [s[|s| - 1]];
  }

  /** The order tells the members apart. */
  ghost predicate Distinguishes<T(!new)>(le: (T, T) -> bool, s: seq<T>) {
    forall x, y :: x in s && y in s && le(x, y) && le(y, x) ==> x == y
  }

  lemma SameLast<T(!new)>(le: (T, T) -> bool, a: seq<T>, b: seq<T>)
    requires a != [] && b != [] && Sorted(le, a) && Sorted(le, b) && multiset(a) == multiset(b) && Distinguishes(le, a)
    ensures a[|a| - 1] == b[|b| - 1]
  {
    var x, y := a[|a| - 1], b[|b| - 1];
    assert x in a && y in b;
    assert x in multiset(b) && y in multiset(a);
    var i :| 0 <= i < |b| && b[i] == x;
    var j :| 0 <= j < |a| && a[j] == y;
    assert y in a;
  }

  lemma SortedInit<T(!new)>(le: (T, T) -> bool, s: seq<T>)
    requires s != [] && Sorted(le, s)
    ensures Sorted(le, s[..|s| - 1])
  {
  }

  /** There is only one way to sort what an order tells apart. */
  lemma {:induction false} SortedUnique<T(!new)>(le: (T, T) -> bool, a: seq<T>, b: seq<T>)
    requires Sorted(le, a) && Sorted(le, b) && multiset(a) == multiset(b) && Distinguishes(le, a)
    ensures a == b
    decreases |a|
  {
    hide Sorted;
    assert |a| == |multiset(a)| && |b| == |multiset(b)|;
    if a != [] {
      var n := |a| - 1;
      SameLast(le, a, b);
      WithoutLast(a);
      WithoutLast(b);
      SortedInit(le, a);
      SortedInit(le, b);
      assert multiset(a[..n]) == multiset(a) - multiset{a[n]};
      assert multiset(b[..n]) == multiset(a) - multiset{a[n]};
      SortedUnique(le, a[..n], b[..n]);
    }
  }

  /** So sorting forgets the order things came in. */
  lemma SortUnordered<T(!new)>(le: (T, T) -> bool, s: seq<T>, t: seq<T>)
    requires IsOrder(le) && multiset(s) == multiset(t)
    requires Distinguishes(le, s)
    ensures Sort(le, s) == Sort(le, t)
  {
    hide IsOrder, Sorted, Sort;
    SortSorts(le, s);
    SortSorts(le, t);
    forall x | x in Sort(le, s) ensures x in s { SameMembers(le, s, x); }
    SortedUnique(le, Sort(le, s), Sort(le, t));
  }

  // ---------------------------------------------------------------- text and paths

  /** Strings as they compare: by the first character that differs. */
  predicate StrLe(a: string, b: string) {
    a == "" || (b != "" && (a[0] < b[0] || (a[0] == b[0] && StrLe(a[1..], b[1..]))))
  }

  lemma {:induction false} StrTotal(a: string, b: string)
    ensures StrLe(a, b) || StrLe(b, a)
    ensures StrLe(a, b) && StrLe(b, a) ==> a == b
  {
    if a != "" && b != "" {
      StrTotal(a[1..], b[1..]);
      assert a == [a[0]] + a[1..] && b == [b[0]] + b[1..];
    }
  }

  lemma {:induction false} StrTransitive(a: string, b: string, c: string)
    requires StrLe(a, b) && StrLe(b, c)
    ensures StrLe(a, c)
  {
    if a != "" && a[0] == b[0] == c[0] { StrTransitive(a[1..], b[1..], c[1..]); }
  }

  lemma StrIsOrder()
    ensures IsOrder(StrLe)
  {
    forall a, b ensures StrLe(a, b) || StrLe(b, a) { StrTotal(a, b); }
    forall a, b, c | StrLe(a, b) && StrLe(b, c) ensures StrLe(a, c) { StrTransitive(a, b, c); }
  }

  /** Paths as they compare: by the first segment that differs. */
  predicate PathLe(a: seq<string>, b: seq<string>) {
    a == [] || (b != [] && if a[0] == b[0] then PathLe(a[1..], b[1..]) else StrLe(a[0], b[0]))
  }

  lemma {:induction false} PathTotal(a: seq<string>, b: seq<string>)
    ensures PathLe(a, b) || PathLe(b, a)
    ensures PathLe(a, b) && PathLe(b, a) ==> a == b
  {
    hide StrLe;
    if a != [] && b != [] {
      PathTotal(a[1..], b[1..]);
      StrTotal(a[0], b[0]);
      assert a == [a[0]] + a[1..] && b == [b[0]] + b[1..];
    }
  }

  lemma {:induction false} PathTransitive(a: seq<string>, b: seq<string>, c: seq<string>)
    requires PathLe(a, b) && PathLe(b, c)
    ensures PathLe(a, c)
  {
    hide StrLe;
    if a != [] {
      if a[0] == b[0] == c[0] {
        PathTransitive(a[1..], b[1..], c[1..]);
      } else if a[0] != b[0] && b[0] != c[0] {
        StrTransitive(a[0], b[0], c[0]);
        StrTotal(a[0], b[0]);
      }
    }
  }
}
