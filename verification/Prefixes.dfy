/** Putting the prefixes of a document in order, and that nothing depends on the order they
    were given in. Source: crates/pve-meta-core/src/shape.rs and registry.rs. */
module Prefixes {
  import opened Values
  import opened Schema
  import opened Shape
  import opened Sorting
  import opened Text

  /** A path as it prints: its segments joined by dots. */
  function Dotted(p: Path): string {
    if p == [] then "" else if |p| == 1 then p[0] else p[0] + "." + Dotted(p[1..])
  }

  /** `by_specificity`: the longer prefix first, and then by name. */
  predicate BySpecificity(a: Declared, b: Declared) {
    |a.prefix| > |b.prefix| || (|a.prefix| == |b.prefix| && StrLe(Dotted(a.prefix), Dotted(b.prefix)))
  }

  lemma SpecificityIsOrder()
    ensures IsOrder(BySpecificity)
  {
    hide StrLe, Dotted;
    StrIsOrder();
    forall a, b ensures BySpecificity(a, b) || BySpecificity(b, a) { StrTotal(Dotted(a.prefix), Dotted(b.prefix)); }
    forall a, b, c | BySpecificity(a, b) && BySpecificity(b, c) ensures BySpecificity(a, c) {
      if |a.prefix| == |b.prefix| == |c.prefix| {
        StrTransitive(Dotted(a.prefix), Dotted(b.prefix), Dotted(c.prefix));
      }
    }
  }

  /** `Shape::new`. */
  function New(declared: seq<Declared>): seq<Declared> {
    Sort(BySpecificity, declared)
  }

  /** Most specific first, and the same prefixes. */
  lemma NewIsOrdered(declared: seq<Declared>)
    ensures SpecificFirst(New(declared)) && multiset(New(declared)) == multiset(declared)
    ensures forall d :: d in New(declared) <==> d in declared
  {
    hide Dotted, StrLe, IsOrder, Sort;
    SpecificityIsOrder();
    SortSorts(BySpecificity, declared);
    forall d ensures d in New(declared) <==> d in declared { SameMembers(BySpecificity, declared, d); }
  }

  lemma NewLast(init: seq<Declared>, d: Declared)
    ensures New(init + [d]) == Place(BySpecificity, New(init), d)
  {
    hide BySpecificity, Place;
    assert (init + [d])[..|init|] == init;
  }

  lemma NotAmong(init: seq<Declared>, d: Declared, x: Declared)
    requires DistinctPrefixes(init + [d]) && x in init
    ensures x.prefix != d.prefix
  {
    var k :| 0 <= k < |init| && init[k] == x;
    assert (init + [d])[k] == x && (init + [d])[|init|] == d;
  }

  lemma DistinctInit(init: seq<Declared>, d: Declared)
    requires DistinctPrefixes(init + [d])
    ensures DistinctPrefixes(init)
  {
    var all := init + [d];
    forall i, j | 0 <= i < j < |init| ensures init[i].prefix != init[j].prefix {
      assert all[i] == init[i] && all[j] == init[j];
    }
  }

  lemma {:induction false} NewKeepsDistinct(declared: seq<Declared>)
    requires DistinctPrefixes(declared)
    ensures DistinctPrefixes(New(declared))
  {
    if declared != [] {
      hide BySpecificity, SpecificFirst, Place, New, DistinctPrefixes;
      var n := |declared| - 1;
      var init, d := declared[..n], declared[n];
      assert declared == init + [d];
      DistinctInit(init, d);
      NewKeepsDistinct(init);
      NewIsOrdered(init);
      NewLast(init, d);
      var p := PlaceIs(BySpecificity, New(init), d);
      forall x | x in New(init) ensures x.prefix != d.prefix { NotAmong(init, d, x); }
      OneMoreDistinct(New(init), d, p);
    }
  }

  lemma OneMoreDistinct(s: seq<Declared>, d: Declared, p: nat)
    requires p <= |s| && DistinctPrefixes(s) && forall x :: x in s ==> x.prefix != d.prefix
    ensures DistinctPrefixes(s[..p] + [d] + s[p..])
  {
    var r := s[..p] + [d] + s[p..];
    forall i, j | 0 <= i < j < |r| ensures r[i].prefix != r[j].prefix {
      var x, y := if i < p then i else i - 1, if j < p then j else j - 1;
      if i != p { assert r[i] == s[x] && s[x] in s; }
      if j != p { assert r[j] == s[y] && s[y] in s; }
    }
  }

  // ---------------------------------------------------------------- names tell prefixes apart

  predicate Named(p: Path) {
    forall i :: 0 <= i < |p| ==> ValidSegment(p[i])
  }

  lemma SegmentDotless(s: string)
    requires ValidSegment(s)
    ensures '.' !in s
  {
  }

  /** Two prefixes of the same length with the same name are the same. */
  lemma {:induction false} DottedInjective(a: Path, b: Path)
    requires Named(a) && Named(b) && |a| == |b| && Dotted(a) == Dotted(b)
    ensures a == b
  {
    hide ValidSegment;
    if |a| > 1 {
      SegmentDotless(a[0]);
      SegmentDotless(b[0]);
      SameParts(a[0], b[0], '.', Dotted(a[1..]), Dotted(b[1..]));
      DottedInjective(a[1..], b[1..]);
      assert a == [a[0]] + a[1..] && b == [b[0]] + b[1..];
    }
  }

  /** What the prefixes of a document are: distinct, and named by paths. */
  ghost predicate Registered(declared: seq<Declared>) {
    DistinctPrefixes(declared) && forall i :: 0 <= i < |declared| ==> Named(declared[i].prefix)
  }

  lemma SpecificityDistinguishes(declared: seq<Declared>)
    requires Registered(declared)
    ensures Distinguishes(BySpecificity, declared)
  {
    hide Named, Dotted, StrLe;
    forall x, y | x in declared && y in declared && BySpecificity(x, y) && BySpecificity(y, x) ensures x == y {
      StrTotal(Dotted(x.prefix), Dotted(y.prefix));
      DottedInjective(x.prefix, y.prefix);
      var i :| 0 <= i < |declared| && declared[i] == x;
      var j :| 0 <= j < |declared| && declared[j] == y;
    }
  }

  // ---------------------------------------------------------------- the order they came in

  /** However the prefixes were given, they end up in one and the same order... */
  lemma NewUnordered(ps: seq<Declared>, qs: seq<Declared>)
    requires Registered(ps) && multiset(ps) == multiset(qs)
    ensures New(ps) == New(qs)
  {
    hide Registered, BySpecificity, IsOrder, Sort, Distinguishes;
    SpecificityIsOrder();
    SpecificityDistinguishes(ps);
    SortUnordered(BySpecificity, ps, qs);
  }

  /** ...and the findings are the same list. */
  lemma FindingsUnordered(ps: seq<Declared>, qs: seq<Declared>, doc: Value)
    requires Registered(ps) && multiset(ps) == multiset(qs)
    ensures FindingsOf(New(ps), doc) == FindingsOf(New(qs), doc)
  {
    NewUnordered(ps, qs);
  }

  /** Which prefix governs does not depend on it even where names do not tell prefixes apart. */
  lemma GoverningUnordered(ps: seq<Declared>, qs: seq<Declared>, path: Path)
    requires DistinctPrefixes(ps) && multiset(ps) == multiset(qs)
    ensures Governing(New(ps), path) == Governing(New(qs), path)
  {
    hide New, SpecificFirst, Governing;
    SameOnes(ps, qs);
    SameGoverning(New(ps), New(qs), path);
  }

  lemma SameOnes(ps: seq<Declared>, qs: seq<Declared>)
    requires DistinctPrefixes(ps) && multiset(ps) == multiset(qs)
    ensures SpecificFirst(New(ps)) && SpecificFirst(New(qs)) && DistinctPrefixes(New(ps))
    ensures forall d :: d in New(ps) <==> d in New(qs)
  {
    hide New, SpecificFirst, DistinctPrefixes;
    NewIsOrdered(ps);
    NewIsOrdered(qs);
    NewKeepsDistinct(ps);
    forall d ensures d in New(ps) <==> d in New(qs) {
      assert d in ps <==> d in multiset(ps);
      assert d in qs <==> d in multiset(qs);
    }
  }

  /** Nor does what is reported. */
  lemma ReportsUnordered(ps: seq<Declared>, qs: seq<Declared>, doc: Tree, r: Report)
    requires DistinctPrefixes(ps) && multiset(ps) == multiset(qs)
    requires Reports(New(ps), doc, r)
    ensures Reports(New(qs), doc, r)
  {
    hide New, SpecificFirst, Reports;
    SameOnes(ps, qs);
    SameReports(New(ps), New(qs), doc, r);
  }
}
