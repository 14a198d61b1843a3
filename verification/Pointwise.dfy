/** The findings of a document, path by path, from lookups alone. */
module Pointwise {
  import opened Values
  import opened TouchedPaths
  import opened Schema
  import opened Conformance
  import opened Decimals
  import opened Shape
  import opened SchemaIndex

  /** A schema node describes `p`, there is a value, and it conforms. */
  ghost predicate Passes(ps: seq<Declared>, doc: Tree, p: Path) {
    var s, v := SchemaAt(ps, p), At(Some(doc), p);
    s.Some? && v.Some? && Conforms(s.value, v.value)
  }

  /** The governing prefix describes `p`, there is a value, and every value above it down
      from that prefix conforms. */
  ghost predicate Judged(ps: seq<Declared>, doc: Tree, p: Path) {
    var g := Governing(ps, p);
    && SchemaAt(ps, p).Some? && At(Some(doc), p).Some? && g.Some?
    && g.value.prefix <= p && g.value.schema.Some?
    && (forall q: Path :: g.value.prefix <= q < p ==> Passes(ps, doc, q))
  }

  /** Whether what is described at `p` is enforced. */
  predicate EnforcedAt(ps: seq<Declared>, p: Path) {
    var g := Governing(ps, p);
    && g.Some? && g.value.schema.Some? && g.value.prefix <= p
    && FlagAt(Meaning(g.value.schema.value), "enforce", g.value.enforce, p[|g.value.prefix|..])
  }

  /** A finding at `p`, from lookups: the value is judged there, and violates first the
      constraint the message names. */
  ghost predicate FoundAt(ps: seq<Declared>, doc: Tree, f: Finding) {
    && Judged(ps, doc, f.path)
    && Violates(SchemaAt(ps, f.path).value, At(Some(doc), f.path).value, f.msg)
    && f.enforced == EnforcedAt(ps, f.path)
  }

  /** Every check above `rel` passes. */
  ghost predicate ClearAbove(node: Tree, value: Tree, rel: Path) {
    forall r: Path :: r < rel ==> PassesAt(node, value, r)
  }

  ghost predicate PassesAt(node: Tree, value: Tree, r: Path) {
    var s, v := NodeAt(node, r), At(Some(value), r);
    s.Some? && v.Some? && CheckValue(s.value, v.value).None?
  }

  lemma ClearStep(node: Tree, value: Tree, rel: Path)
    requires rel != []
    requires Child(Some(value), rel[0]).Some?
    requires Lookup(node, "properties").Some? && Lookup(Lookup(node, "properties").value, rel[0]).Some?
    ensures var sub := Lookup(Lookup(node, "properties").value, rel[0]).value;
            ClearAbove(node, value, rel) <==>
              CheckValue(node, value).None? && ClearAbove(sub, Child(Some(value), rel[0]).value, rel[1..])
  {
    hide CheckValue;
    var sub := Lookup(Lookup(node, "properties").value, rel[0]).value;
    var child := Child(Some(value), rel[0]).value;
    if ClearAbove(node, value, rel) {
      assert PassesAt(node, value, []);
      forall r: Path | r < rel[1..] ensures PassesAt(sub, child, r) {
        var full := [rel[0]] + r;
        assert full < rel && full[1..] == r;
        assert PassesAt(node, value, full);
      }
    }
    if CheckValue(node, value).None? && ClearAbove(sub, child, rel[1..]) {
      forall r: Path | r < rel ensures PassesAt(node, value, r) {
        if r != [] {
          assert r[1..] < rel[1..] && r[0] == rel[0];
          assert PassesAt(sub, child, r[1..]);
        }
      }
    }
  }

  lemma NoNodeNotClear(node: Tree, value: Tree, rel: Path)
    requires rel != [] && CheckValue(node, value).Some?
    ensures !ClearAbove(node, value, rel)
  {
    hide CheckValue;
    assert [] < rel && !PassesAt(node, value, []);
  }

  /** Through maps, the walk gets exactly as far as every check above lets it. */
  lemma {:induction false} VisitedOnMaps(ps: seq<Declared>, o: Declared, v: Visit, path: Path, rel: Path)
    requires WellOrdered(ps) && o in ps && o.prefix <= path
    requires At(Some(v.value), rel).Some?
    ensures var d := Visited(ps, o.prefix, v, path, rel);
            && (d.Some? <==> NodeAt(v.schema, rel).Some? && ClearAbove(v.schema, v.value, rel)
                             && (rel == [] || Governs(ps, o.prefix, path + rel)))
            && (d.Some? ==> d.value.schema == NodeAt(v.schema, rel).value
                            && d.value.value == At(Some(v.value), rel).value
                            && Flag(d.value.schema, "enforce", d.value.inherited) == FlagAt(v.schema, "enforce", v.inherited, rel))
    decreases |rel|
  {
    hide CheckValue, Governs, SpecificFirst, DistinctPrefixes, ClearAbove;
    if rel == [] {
      NothingAbove(v.schema, v.value);
    } else {
      var k := rel[0];
      var child := Child(Some(v.value), k);
      assert child.Some? by { NowhereBelow(rel[1..]); }
      assert path + rel == (path + [k]) + rel[1..];
      if Governs(ps, o.prefix, path + rel) { GovernsOnTheWay(ps, o, path + [k], path + rel); }
      var props := Lookup(v.schema, "properties");
      if CheckValue(v.schema, v.value).Some? {
        NoNodeNotClear(v.schema, v.value, rel);
      } else if props.Some? && Lookup(props.value, k).Some? {
        ClearStep(v.schema, v.value, rel);
        var next := Visit(Lookup(props.value, k).value, child.value, Flag(v.schema, "enforce", v.inherited));
        VisitedOnMaps(ps, o, next, path + [k], rel[1..]);
        if rel[1..] == [] { assert path + rel == path + [k]; }
      }
    }
  }

  lemma NothingAbove(node: Tree, value: Tree)
    ensures ClearAbove(node, value, [])
  {
  }

  /** Reaching a path of maps by key is looking it up. */
  lemma {:induction false} ReachIsAt(doc: Tree, p: Path, rel: Path)
    requires At(Some(doc), p + rel).Some?
    ensures GetPath(doc, p) == At(Some(doc), p) && At(Some(doc), p).Some?
    ensures At(At(Some(doc), p), rel) == At(Some(doc), p + rel)
    decreases |p|
  {
    if p == [] {
      assert p + rel == rel;
    } else {
      assert (p + rel)[0] == p[0] && (p + rel)[1..] == p[1..] + rel;
      assert Child(Some(doc), p[0]).Some? by { NowhereBelow(p[1..] + rel); }
      ReachIsAt(Child(Some(doc), p[0]).value, p[1..], rel);
    }
  }

  lemma CheckedIsConforming(s: Option<Tree>, v: Option<Tree>)
    ensures s.Some? && v.Some? ==> (CheckValue(s.value, v.value).None? <==> Conforms(s.value, v.value))
  {
    hide CheckValue, Conforms, Violates;
    if s.Some? && v.Some? { CheckMeans(s.value, v.value); }
  }

  lemma SaidIsViolated(s: Option<Tree>, v: Option<Tree>, msg: Msg)
    ensures s.Some? && v.Some? ==> (CheckValue(s.value, v.value) == Some(msg) <==> Violates(s.value, v.value, msg))
  {
    hide CheckValue, Conforms, Violates;
    if s.Some? && v.Some? { CheckMeans(s.value, v.value); }
  }

  /** What stands above `p` in the lookups is what stands above it in the walk. */
  lemma ClearIsPasses(ps: seq<Declared>, doc: Tree, o: Declared, rel: Path)
    requires WellOrdered(ps) && o in ps && o.schema.Some? && Governs(ps, o.prefix, o.prefix + rel)
    requires At(Some(doc), o.prefix + rel).Some? && GetPath(doc, o.prefix).Some?
    requires GetPath(doc, o.prefix) == At(Some(doc), o.prefix)
    ensures ClearAbove(Meaning(o.schema.value), GetPath(doc, o.prefix).value, rel) <==>
              forall q: Path :: o.prefix <= q < o.prefix + rel ==> Passes(ps, doc, q)
  {
    hide CheckValue, Conforms, Violates, SpecificFirst, DistinctPrefixes, NodeAt, Meaning, Governing, GetPath, At;
    var node, value := Meaning(o.schema.value), GetPath(doc, o.prefix).value;
    forall r: Path | r < rel ensures PassesAt(node, value, r) <==> Passes(ps, doc, o.prefix + r) {
      var q := o.prefix + r;
      GovernsOnTheWay(ps, o, q, o.prefix + rel);
      GovernsIs(ps, o, q);
      assert q[|o.prefix|..] == r;
      var rest := rel[|r|..];
      assert o.prefix + rel == o.prefix + (r + rest);
      ReachIsAt(doc, o.prefix, r + rest);
      AtJoin(At(Some(doc), o.prefix), r, rest);
      AtJoin(Some(doc), o.prefix, r);
      CheckedIsConforming(NodeAt(node, r), At(Some(value), r));
    }
    if ClearAbove(node, value, rel) {
      forall q: Path | o.prefix <= q < o.prefix + rel ensures Passes(ps, doc, q) {
        var r := q[|o.prefix|..];
        assert q == o.prefix + r && r < rel;
        assert PassesAt(node, value, r);
      }
    }
    if forall q: Path :: o.prefix <= q < o.prefix + rel ==> Passes(ps, doc, q) {
      forall r: Path | r < rel ensures PassesAt(node, value, r) {
        assert o.prefix <= o.prefix + r < o.prefix + rel;
        assert Passes(ps, doc, o.prefix + r);
      }
    }
  }

  lemma {:induction false} AtJoin(t: Option<Tree>, a: Path, b: Path)
    ensures At(t, a + b) == At(At(t, a), b)
    decreases |a|
  {
    if a == [] {
      assert a + b == b;
    } else {
      assert (a + b)[0] == a[0] && (a + b)[1..] == a[1..] + b;
      AtJoin(Child(t, a[0]), a[1..], b);
    }
  }

  /** On a path of maps, one prefix's walk finds `f` exactly when it governs the path and
      the lookups find `f`. */
  lemma WalkIsLookup(ps: seq<Declared>, doc: Tree, o: Declared, f: Finding)
    requires WellOrdered(ps) && o in ps && At(Some(doc), f.path).Some?
    ensures ReportedBy(ps, o, doc, Found(f)) <==> Governing(ps, f.path) == Some(o) && FoundAt(ps, doc, f)
  {
    hide CheckValue, Conforms, Violates, SpecificFirst, DistinctPrefixes, NodeAt, FlagAt, Visited, Meaning, Passes, Governing, GetPath, ClearAbove, At;
    GovernsIs(ps, o, f.path);
    GovernsPrefix(ps, o, f.path);
    if o.prefix <= f.path {
      var rel := f.path[|o.prefix|..];
      assert o.prefix + rel == f.path;
      ReachIsAt(doc, o.prefix, rel);
      if o.schema.Some? {
        var v := Root(o, doc).value;
        AtJoin(Some(doc), o.prefix, rel);
        VisitedOnMaps(ps, o, v, o.prefix, rel);
        if rel == [] {
          assert o.prefix == f.path;
          GovernsItself(ps, o);
        }
        if Governs(ps, o.prefix, f.path) { ClearIsPasses(ps, doc, o, rel); }
        SaidIsViolated(NodeAt(v.schema, rel), At(Some(v.value), rel), f.msg);
        OnlyThere(ps, o, doc, v, f, rel);
      }
    } else {
      NotAbove(ps, o, doc, f);
    }
  }

  lemma GovernsPrefix(ps: seq<Declared>, o: Declared, p: Path)
    requires WellOrdered(ps)
    ensures Governs(ps, o.prefix, p) ==> o.prefix <= p
  {
    GoverningIsMostSpecific(ps, p);
  }

  /** A walk reports about a path only when it gets there. */
  lemma OnlyThere(ps: seq<Declared>, o: Declared, doc: Tree, v: Visit, f: Finding, rel: Path)
    requires Root(o, doc) == Some(v) && f.path == o.prefix + rel
    ensures ReportedBy(ps, o, doc, Found(f)) <==> ReportFrom(ps, o.prefix, v, o.prefix, rel) == Some(Found(f))
  {
    hide CheckValue, Visited;
    if ReportedBy(ps, o, doc, Found(f)) {
      var r :| ReportFrom(ps, o.prefix, v, o.prefix, r) == Some(Found(f));
      assert o.prefix + r == o.prefix + rel;
      assert r == (o.prefix + r)[|o.prefix|..] == rel;
    }
  }

  lemma NotAbove(ps: seq<Declared>, o: Declared, doc: Tree, f: Finding)
    requires !(o.prefix <= f.path)
    ensures !ReportedBy(ps, o, doc, Found(f))
  {
    hide CheckValue, Visited;
  }

  /** The recursive walk finds on a path of maps exactly what the lookups find there. */
  lemma FindsPointwise(ps: seq<Declared>, doc: Tree, f: Finding)
    requires WellOrdered(ps) && At(Some(doc), f.path).Some?
    ensures Finds(ps, doc, f) <==> FoundAt(ps, doc, f)
  {
    hide ReportedBy, SpecificFirst, DistinctPrefixes, Passes, Violates, FlagAt, SchemaAt, At;
    forall o | o in ps
      ensures ReportedBy(ps, o, doc, Found(f)) <==> Governing(ps, f.path) == Some(o) && FoundAt(ps, doc, f)
    {
      WalkIsLookup(ps, doc, o, f);
    }
    if FoundAt(ps, doc, f) {
      GoverningIsMostSpecific(ps, f.path);
      assert ReportedBy(ps, Governing(ps, f.path).value, doc, Found(f));
    }
  }

  // ---------------------------------------------------------------- what a finding says

  /** Where a value is judged, there is no finding if and only if it conforms. */
  lemma NothingFoundIff(ps: seq<Declared>, doc: Tree, p: Path)
    requires WellOrdered(ps) && Judged(ps, doc, p)
    ensures (forall f: Finding :: Finds(ps, doc, f) ==> f.path != p) <==> Conforms(SchemaAt(ps, p).value, At(Some(doc), p).value)
  {
    hide Finds, Judged, Conforms, Violates, CheckValue, SchemaAt, At, EnforcedAt, SpecificFirst, DistinctPrefixes;
    var s, v := SchemaAt(ps, p), At(Some(doc), p);
    assert s.Some? && v.Some? by { JudgedIsThere(ps, doc, p); }
    CheckMeans(s.value, v.value);
    forall f: Finding | f.path == p ensures Finds(ps, doc, f) <==> FoundAt(ps, doc, f) { FindsPointwise(ps, doc, f); }
    if CheckValue(s.value, v.value).Some? {
      var f := Finding(p, CheckValue(s.value, v.value).value, EnforcedAt(ps, p));
      assert Violates(s.value, v.value, f.msg);
      assert FoundAt(ps, doc, f);
    }
    forall f: Finding | f.path == p && FoundAt(ps, doc, f) ensures !Conforms(s.value, v.value) {
      assert CheckValue(s.value, v.value) == Some(f.msg);
    }
  }

  lemma JudgedIsThere(ps: seq<Declared>, doc: Tree, p: Path)
    requires Judged(ps, doc, p)
    ensures SchemaAt(ps, p).Some? && At(Some(doc), p).Some?
  {
  }

  /** The value at `p` conforms, if it is judged there and the schema is enforced. */
  ghost predicate Obeys(ps: seq<Declared>, doc: Tree, p: Path) {
    Judged(ps, doc, p) && EnforcedAt(ps, p) ==> Conforms(SchemaAt(ps, p).value, At(Some(doc), p).value)
  }

  /** Where no enforced finding is, the value obeys, and the other way round. */
  lemma ObeysIff(ps: seq<Declared>, doc: Tree, p: Path)
    requires WellOrdered(ps) && At(Some(doc), p).Some?
    ensures Obeys(ps, doc, p) <==> forall f: Finding :: f.path == p ==> !Enforced(ps, doc, f)
  {
    hide Finds, Judged, Conforms, Violates, SchemaAt, At, EnforcedAt, SpecificFirst, DistinctPrefixes;
    forall f: Finding | f.path == p ensures Finds(ps, doc, f) <==> FoundAt(ps, doc, f) { FindsPointwise(ps, doc, f); }
    if Judged(ps, doc, p) { NothingFoundIff(ps, doc, p); }
  }

  // ---------------------------------------------------------------- one step of the walk

  ghost predicate IntoMember(v: Visit, seg: string, w: Visit) {
    && v.value.TArr? && Says(v.schema, "items", w.schema)
    && exists i: nat :: i < |v.value.items| && seg == Decimal(i) && w.value == v.value.items[i]
  }

  ghost predicate IntoKey(ps: seq<Declared>, owner: Path, v: Visit, path: Path, seg: string, w: Visit) {
    && v.value.TMap? && seg in v.value.m && w.value == v.value.m[seg]
    && Governs(ps, owner, path + [seg])
    && exists props :: Says(v.schema, "properties", TMap(props)) && seg in props && w.schema == props[seg]
  }

  /** The walk goes on below a value that conforms, and only there: into every member of an
      array whose members are described, and into every key of a map that is described and
      that no more specific prefix has taken over. */
  lemma DownMeans(ps: seq<Declared>, owner: Path, v: Visit, path: Path, seg: string, w: Visit)
    ensures Down(ps, owner, v, path, seg) == Some(w) <==>
              && Conforms(v.schema, v.value)
              && w.inherited == Flag(v.schema, "enforce", v.inherited)
              && (IntoMember(v, seg, w) || IntoKey(ps, owner, v, path, seg, w))
  {
    hide CheckValue, Conforms, Violates, Governs, Flag;
    CheckMeans(v.schema, v.value);
    if IntoMember(v, seg, w) {
      var i: nat :| i < |v.value.items| && seg == Decimal(i) && w.value == v.value.items[i];
      UnsignedDecimal(i);
    }
    if Down(ps, owner, v, path, seg) == Some(w) && v.value.TMap? {
      assert Says(v.schema, "properties", TMap(Lookup(v.schema, "properties").value.m));
    }
  }

  /** What is said about one visited value. */
  lemma ReportMeans(v: Visit, path: Path, r: Report)
    ensures ReportOf(v, path) == Some(r) <==>
              match r
              case Found(f) =>
                f.path == path && Violates(v.schema, v.value, f.msg) && f.enforced == Flag(v.schema, "enforce", v.inherited)
              case Format(p, format, text) =>
                p == path && Conforms(v.schema, v.value) && v.value == TStr(text) && Says(v.schema, "format", TStr(format))
  {
    hide CheckValue, Conforms, Violates, Flag;
    CheckMeans(v.schema, v.value);
  }

  /** One segment more leads to a map's own entry, or to the member of an array that the
      segment numbers, and from anything else nowhere. */
  lemma {:induction false} PathStep(t: Tree, p: Path, seg: string)
    ensures GetPath(t, p).None? || !(GetPath(t, p).value.TMap? || GetPath(t, p).value.TArr?) ==> GetPath(t, p + [seg]).None?
    ensures GetPath(t, p).Some? && GetPath(t, p).value.TMap? ==> GetPath(t, p + [seg]) == Child(GetPath(t, p), seg)
    ensures forall i: nat :: GetPath(t, p).Some? && GetPath(t, p).value.TArr? && seg == Decimal(i) ==>
              GetPath(t, p + [seg]) ==
                if i < |GetPath(t, p).value.items| then Some(GetPath(t, p).value.items[i]) else None
    decreases |p|
  {
    forall i: nat ensures Unsigned(Decimal(i)) == Some(i) { UnsignedDecimal(i); }
    if p == [] {
      assert p + [seg] == [seg] && [seg][1..] == [];
    } else {
      assert (p + [seg])[1..] == p[1..] + [seg];
      match t
      case TMap(m) => if p[0] in m { PathStep(m[p[0]], p[1..], seg); }
      case TArr(items) =>
        var i := Unsigned(p[0]);
        if i.Some? && i.value < |items| { PathStep(items[i.value], p[1..], seg); }
      case _ =>
    }
  }

  // ---------------------------------------------------------------- schema lookups

  /** Where a schema document itself holds the node for `rel`. */
  function InProperties(rel: Path): Path {
    if rel == [] then [] else ["properties", rel[0]] + InProperties(rel[1..])
  }

  /** The node for a path is what the schema document has at `properties`, key, `properties`,
      key and so on. */
  lemma {:induction false} NodeIsLookedUp(node: Tree, rel: Path)
    ensures NodeAt(node, rel) == At(Some(node), InProperties(rel))
    decreases |rel|
  {
    if rel != [] {
      var below := InProperties(rel)[1..];
      assert below[0] == rel[0] && below[1..] == InProperties(rel[1..]);
      var props := Lookup(node, "properties");
      if props.Some? && Lookup(props.value, rel[0]).Some? {
        NodeIsLookedUp(Lookup(props.value, rel[0]).value, rel[1..]);
      } else {
        NowhereBelow(InProperties(rel[1..]));
        NowhereBelow(below);
      }
    }
  }

  /** The node for `q` states the flag `b`. */
  ghost predicate StatesFlag(node: Tree, key: string, q: Path, b: bool) {
    var s := NodeAt(node, q);
    s.Some? && exists entry :: Says(s.value, key, entry) && IsFlag(entry, b)
  }

  /** No node from `q` on down to `rel` states the flag. */
  ghost predicate SilentFrom(node: Tree, key: string, q: nat, rel: Path) {
    forall i: nat, b: bool :: q <= i <= |rel| ==> !StatesFlag(node, key, rel[..i], b)
  }

  /** The nearest node at or above `rel` that states the flag decides it, and where none
      does it is inherited. */
  lemma {:induction false} NearestFlag(node: Tree, key: string, inherited: bool, rel: Path)
    ensures SilentFrom(node, key, 0, rel) ==> FlagAt(node, key, inherited, rel) == inherited
    ensures forall i: nat, b: bool :: i <= |rel| && StatesFlag(node, key, rel[..i], b) && SilentFrom(node, key, i + 1, rel)
              ==> FlagAt(node, key, inherited, rel) == b
    decreases |rel|
  {
    hide Says, IsFlag, Flag, StatesFlag, SilentFrom;
    var here := Flag(node, key, inherited);
    HereOrInherited(node, key, inherited, rel);
    if rel != [] {
      var sub := NodeAt(node, [rel[0]]);
      if sub.Some? { NearestFlag(sub.value, key, here, rel[1..]); }
      SilentBelow(node, key, 1, rel);
      forall i: nat, b: bool | 1 <= i <= |rel| && StatesFlag(node, key, rel[..i], b) && SilentFrom(node, key, i + 1, rel)
        ensures FlagAt(node, key, inherited, rel) == b
      {
        StatedBelow(node, key, i, rel, b);
        SilentBelow(node, key, i + 1, rel);
      }
    }
  }

  lemma HereOrInherited(node: Tree, key: string, inherited: bool, rel: Path)
    ensures forall b :: StatesFlag(node, key, rel[..0], b) ==> Flag(node, key, inherited) == b
    ensures SilentFrom(node, key, 0, rel) ==> SilentFrom(node, key, 1, rel) && Flag(node, key, inherited) == inherited
  {
    hide IsFlag, Flag;
    FlagStated(node, key, inherited);
    assert rel[..0] == [];
    if SilentFrom(node, key, 0, rel) {
      forall entry, b | Says(node, key, entry) ensures !IsFlag(entry, b) {
        assert !StatesFlag(node, key, rel[..0], b);
      }
    }
  }

  lemma StatedBelow(node: Tree, key: string, i: nat, rel: Path, b: bool)
    requires 1 <= i <= |rel|
    ensures var sub := NodeAt(node, [rel[0]]);
            StatesFlag(node, key, rel[..i], b) <==> sub.Some? && StatesFlag(sub.value, key, rel[1..][..i - 1], b)
  {
    assert [rel[0]][1..] == [];
    assert rel[..i][1..] == rel[1..][..i - 1] && rel[..i][0] == rel[0];
  }

  lemma SilentBelow(node: Tree, key: string, q: nat, rel: Path)
    requires rel != [] && 1 <= q
    ensures var sub := NodeAt(node, [rel[0]]);
            sub.Some? ==> (SilentFrom(node, key, q, rel) <==> SilentFrom(sub.value, key, q - 1, rel[1..]))
  {
    hide StatesFlag, NodeAt;
    var sub := NodeAt(node, [rel[0]]);
    if sub.Some? {
      forall i: nat, b: bool | 1 <= i <= |rel|
        ensures StatesFlag(node, key, rel[..i], b) <==> StatesFlag(sub.value, key, rel[1..][..i - 1], b)
      {
        StatedBelow(node, key, i, rel, b);
      }
      if SilentFrom(node, key, q, rel) {
        forall i: nat, b: bool | q - 1 <= i <= |rel[1..]| ensures !StatesFlag(sub.value, key, rel[1..][..i], b) {
          assert !StatesFlag(node, key, rel[..i + 1], b);
        }
      }
    }
  }
}
