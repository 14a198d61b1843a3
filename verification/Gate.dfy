/** The schema write gate: which findings an edit answers for, and why the touched list
    is enough to tell. */
module Gate {
  import opened Values
  import opened TouchedPaths
  import opened Schema
  import opened Shape
  import opened SchemaIndex
  import opened Pointwise
  import View

  ghost predicate Loaded(ps: seq<Declared>) {
    forall o :: o in ps && o.schema.Some? ==> DialectOk(Meaning(o.schema.value))
  }

  // ---------------------------------------------------------------- how far maps lead

  /** As far along `p` as maps lead. */
  function MapsLead(t: Tree, p: Path): Path
    decreases |p|
  {
    if p == [] || !t.TMap? || p[0] !in t.m then [] else [p[0]] + MapsLead(t.m[p[0]], p[1..])
  }

  /** No map along `p` lacks the next key. */
  predicate Passable(t: Tree, p: Path)
    decreases |p|
  {
    p == [] || (t.TMap? ==> p[0] in t.m && Passable(t.m[p[0]], p[1..]))
  }

  lemma {:induction false} LeadsTo(t: Tree, p: Path)
    ensures MapsLead(t, p) <= p
    ensures At(Some(t), MapsLead(t, p)).Some?
    ensures Passable(t, p) ==> MapsLead(t, p) == p || !At(Some(t), MapsLead(t, p)).value.TMap?
    decreases |p|
  {
    if p != [] && t.TMap? && p[0] in t.m {
      var rest := MapsLead(t.m[p[0]], p[1..]);
      LeadsTo(t.m[p[0]], p[1..]);
      assert ([p[0]] + rest)[1..] == rest;
    }
  }

  lemma {:induction false} WalkPassable(ps: seq<Declared>, owner: Path, v: Visit, path: Path, rel: Path)
    requires Visited(ps, owner, v, path, rel).Some?
    ensures Passable(v.value, rel)
    decreases |rel|
  {
    hide CheckValue, Governs;
    if rel != [] {
      WalkPassable(ps, owner, Down(ps, owner, v, path, rel[0]).value, path + [rel[0]], rel[1..]);
    }
  }

  lemma {:induction false} ReachPassable(t: Tree, p: Path, rel: Path)
    requires GetPath(t, p).Some? && Passable(GetPath(t, p).value, rel)
    ensures Passable(t, p + rel)
    decreases |p|
  {
    if p == [] {
      assert p + rel == rel;
    } else if t.TMap? {
      ReachPassable(t.m[p[0]], p[1..], rel);
      assert (p + rel)[1..] == p[1..] + rel;
    }
  }

  // ---------------------------------------------------------------- two documents side by side

  /** Maps on both sides along `e`, and at its end the same value. */
  predicate Aligned(a: Tree, b: Tree, e: Path)
    decreases |e|
  {
    if e == [] then a == b
    else a.TMap? && b.TMap? && e[0] in a.m && e[0] in b.m && Aligned(a.m[e[0]], b.m[e[0]], e[1..])
  }

  lemma {:induction false} EqualAtAligns(a: Tree, b: Tree, e: Path)
    requires At(Some(a), e).Some? && At(Some(a), e) == At(Some(b), e)
    ensures Aligned(a, b, e)
    decreases |e|
  {
    if e != [] {
      assert Child(Some(a), e[0]).Some? && Child(Some(b), e[0]).Some? by { NowhereBelow(e[1..]); }
      EqualAtAligns(a.m[e[0]], b.m[e[0]], e[1..]);
    }
  }

  lemma {:induction false} AlignedReach(a: Tree, b: Tree, e: Path, p: Path)
    requires Aligned(a, b, e) && Comparable(e, p)
    requires GetPath(a, p).Some?
    ensures GetPath(b, p).Some?
    ensures Aligned(GetPath(a, p).value, GetPath(b, p).value, if |p| <= |e| then e[|p|..] else [])
    decreases |p|
  {
    if p != [] && e != [] {
      assert e[0] == p[0];
      AlignedReach(a.m[e[0]], b.m[e[0]], e[1..], p[1..]);
      assert |p| <= |e| ==> e[|p|..] == e[1..][|p[1..]|..];
    }
  }

  /** The walk meets the same checks on both sides, and the same value at the end. */
  lemma {:induction false} AlignedVisit(ps: seq<Declared>, owner: Path, va: Visit, vb: Visit, path: Path, e: Path, rel: Path)
    requires va.schema == vb.schema && va.inherited == vb.inherited && DialectOk(va.schema)
    requires Aligned(va.value, vb.value, e) && e <= rel
    requires Visited(ps, owner, va, path, rel).Some?
    ensures Visited(ps, owner, vb, path, rel) == Visited(ps, owner, va, path, rel)
    decreases |rel|
  {
    if e != [] {
      MapsLookAlike(va.schema, va.value, vb.value);
      var da, db := Down(ps, owner, va, path, rel[0]), Down(ps, owner, vb, path, rel[0]);
      DownAligned(ps, owner, va, vb, path, e);
      AlignedVisit(ps, owner, da.value, db.value, path + [rel[0]], e[1..], rel[1..]);
    }
  }

  lemma DownAligned(ps: seq<Declared>, owner: Path, va: Visit, vb: Visit, path: Path, e: Path)
    requires va.schema == vb.schema && va.inherited == vb.inherited && DialectOk(va.schema)
    requires e != [] && Aligned(va.value, vb.value, e)
    requires CheckValue(va.schema, va.value) == CheckValue(vb.schema, vb.value)
    requires Down(ps, owner, va, path, e[0]).Some?
    ensures Down(ps, owner, vb, path, e[0]).Some?
    ensures var da, db := Down(ps, owner, va, path, e[0]).value, Down(ps, owner, vb, path, e[0]).value;
            && da.schema == db.schema && da.inherited == db.inherited && DialectOk(da.schema)
            && Aligned(da.value, db.value, e[1..])
  {
    hide CheckValue, Governs, NodeOk;
  }

  // ---------------------------------------------------------------- locality

  /** What ends up at the path's end of the maps is the same on both sides. */
  lemma AlignedBySilence(stored: Tree, planned: Tree, touched: seq<Touched>, p: Path) returns (e: Path)
    requires Complete(Some(stored), Some(planned), [], touched) && Leafmost(Some(planned), [], touched)
    requires Passable(planned, p) && !Answers(touched, p)
    ensures e <= p && Aligned(planned, stored, e)
  {
    hide Passable, MapsLead, Aligned, Answers;
    e := MapsLead(planned, p);
    LeadsTo(planned, p);
    EndUntouched(planned, touched, p, e);
    assert [] + e == e;
    EqualAtAligns(planned, stored, e);
  }

  /** A finding on a path comparable with no touched path was there before, with the same
      message and the same flag. */
  lemma Locality(ps: seq<Declared>, stored: Tree, planned: Tree, touched: seq<Touched>, f: Finding)
    requires Loaded(ps)
    requires Complete(Some(stored), Some(planned), [], touched) && Leafmost(Some(planned), [], touched)
    requires Finds(ps, planned, f) && !Answers(touched, f.path)
    ensures Finds(ps, stored, f)
  {
    hide Complete, Leafmost, Answers, Passable, Aligned, Visited, ReportOf, CheckValue, GetPath, DialectOk, Meaning;
    var o :| o in ps && ReportedBy(ps, o, planned, Found(f));
    var v := Root(o, planned).value;
    var rel :| ReportFrom(ps, o.prefix, v, o.prefix, rel) == Some(Found(f));
    ReportPath(ps, o.prefix, v, o.prefix, rel, f);
    WalkPassable(ps, o.prefix, v, o.prefix, rel);
    ReachPassable(planned, o.prefix, rel);
    var e := AlignedBySilence(stored, planned, touched, o.prefix + rel);
    AlignedReach(planned, stored, e, o.prefix);
    var w := Root(o, stored).value;
    AlignedVisit(ps, o.prefix, v, w, o.prefix, if |o.prefix| <= |e| then e[|o.prefix|..] else [], rel);
    assert ReportFrom(ps, o.prefix, w, o.prefix, rel) == Some(Found(f));
    assert ReportedBy(ps, o, stored, Found(f));
  }

  lemma ReportPath(ps: seq<Declared>, owner: Path, v: Visit, path: Path, rel: Path, f: Finding)
    requires ReportFrom(ps, owner, v, path, rel) == Some(Found(f))
    ensures f.path == path + rel
  {
    hide CheckValue;
  }

  /** Where the maps end on the way to an unanswered path, nothing was touched either:
      above a touched path there are maps only. */
  lemma EndUntouched(planned: Tree, touched: seq<Touched>, p: Path, e: Path)
    requires Leafmost(Some(planned), [], touched) && !Answers(touched, p)
    requires e <= p && At(Some(planned), e).Some? && (e == p || !At(Some(planned), e).value.TMap?)
    ensures !Answers(touched, e)
  {
    forall t | t in touched ensures !Comparable(t.path, e) {
      assert !Comparable(t.path, p);
      assert [] + e == e;
    }
  }

  // ---------------------------------------------------------------- removal

  /** `b` is `a` with keys taken out of its maps. */
  predicate Shrunk(a: Tree, b: Tree)
    decreases b
  {
    a == b || (a.TMap? && b.TMap? && forall k :: k in b.m ==> k in a.m && Shrunk(a.m[k], b.m[k]))
  }

  lemma {:induction false} WithoutShrinks(t: Tree, p: Path)
    requires t.TMap?
    ensures Shrunk(t, View.Without(t, p))
    decreases |p|
  {
    var r := View.Without(t, p);
    if |p| > 1 && p[0] in t.m && t.m[p[0]].TMap? {
      WithoutShrinks(t.m[p[0]], p[1..]);
      assert forall k :: k in r.m ==> k in t.m && Shrunk(t.m[k], r.m[k]);
    }
  }

  lemma {:induction false} ShrunkReach(a: Tree, b: Tree, p: Path)
    requires Shrunk(a, b) && GetPath(b, p).Some?
    ensures GetPath(a, p).Some? && Shrunk(GetPath(a, p).value, GetPath(b, p).value)
    decreases |p|
  {
    if p != [] && a != b { ShrunkReach(a.m[p[0]], b.m[p[0]], p[1..]); }
  }

  lemma ShrunkChecks(schema: Tree, a: Tree, b: Tree)
    requires NodeOk(schema) && Shrunk(a, b)
    ensures CheckValue(schema, a) == CheckValue(schema, b)
  {
    if a != b { MapsLookAlike(schema, a, b); }
  }

  lemma {:induction false} ShrunkVisit(ps: seq<Declared>, owner: Path, va: Visit, vb: Visit, path: Path, rel: Path)
    requires va.schema == vb.schema && va.inherited == vb.inherited && DialectOk(va.schema)
    requires Shrunk(va.value, vb.value)
    requires Visited(ps, owner, vb, path, rel).Some?
    ensures var a, b := Visited(ps, owner, va, path, rel), Visited(ps, owner, vb, path, rel).value;
            && a.Some? && a.value.schema == b.schema && a.value.inherited == b.inherited
            && DialectOk(b.schema) && Shrunk(a.value.value, b.value)
    decreases |rel|
  {
    if rel != [] {
      ShrunkChecks(va.schema, va.value, vb.value);
      ShrunkDown(ps, owner, va, vb, path, rel[0]);
      ShrunkVisit(ps, owner, Down(ps, owner, va, path, rel[0]).value, Down(ps, owner, vb, path, rel[0]).value,
                  path + [rel[0]], rel[1..]);
    }
  }

  lemma ShrunkDown(ps: seq<Declared>, owner: Path, va: Visit, vb: Visit, path: Path, seg: string)
    requires va.schema == vb.schema && va.inherited == vb.inherited && DialectOk(va.schema)
    requires Shrunk(va.value, vb.value)
    requires CheckValue(va.schema, va.value) == CheckValue(vb.schema, vb.value)
    requires Down(ps, owner, vb, path, seg).Some?
    ensures Down(ps, owner, va, path, seg).Some?
    ensures var a, b := Down(ps, owner, va, path, seg).value, Down(ps, owner, vb, path, seg).value;
            && a.schema == b.schema && a.inherited == b.inherited && DialectOk(a.schema)
            && Shrunk(a.value, b.value)
  {
    hide CheckValue, Governs, NodeOk;
  }

  /** Taking keys out can neither introduce a finding nor expose one. */
  lemma RemovalFindsNothingNew(ps: seq<Declared>, stored: Tree, planned: Tree, f: Finding)
    requires Loaded(ps) && Shrunk(stored, planned) && Finds(ps, planned, f)
    ensures Finds(ps, stored, f)
  {
    hide Shrunk, Visited, CheckValue, GetPath, DialectOk, NodeOk, Meaning;
    var o :| o in ps && ReportedBy(ps, o, planned, Found(f));
    var v := Root(o, planned).value;
    var rel :| ReportFrom(ps, o.prefix, v, o.prefix, rel) == Some(Found(f));
    ShrunkReach(stored, planned, o.prefix);
    var w := Root(o, stored).value;
    ShrunkVisit(ps, o.prefix, w, v, o.prefix, rel);
    DialectNode(v.schema);
    var a, b := Visited(ps, o.prefix, w, o.prefix, rel).value, Visited(ps, o.prefix, v, o.prefix, rel).value;
    DialectNode(b.schema);
    ShrunkChecks(b.schema, a.value, b.value);
    assert ReportFrom(ps, o.prefix, w, o.prefix, rel) == Some(Found(f));
    assert ReportedBy(ps, o, stored, Found(f));
  }

  lemma DialectNode(schema: Tree)
    requires DialectOk(schema)
    ensures NodeOk(schema)
  {
  }

  // ---------------------------------------------------------------- the gate

  /** `introduced`: the findings an edit answers for, the ones that are new or sit on a
      path it changed. */
  function Introduced(before: seq<Finding>, after: seq<Finding>, touched: seq<Touched>): (out: seq<Finding>)
    ensures forall f :: f in out <==> f in after && (f !in before || Answers(touched, f.path))
  {
    if after == [] then []
    else
      var f := after[0];
      var rest := Introduced(before, after[1..], touched);
      if f !in before || Answers(touched, f.path) then [f] + rest else rest
  }

  method EnforcedFindings(ps: seq<Declared>, doc: Value) returns (out: seq<Finding>)
    requires WF(doc)
    ensures forall f :: f in out <==> Enforced(ps, Meaning(doc), f)
  {
    hide Reports, Meaning;
    var all := Findings(ps, doc);
    out := [];
    for i := 0 to |all|
      invariant forall f :: f in out <==> Found(f) in all[..i] && f.enforced
    {
      if all[i].Found? && all[i].finding.enforced {
        out := out + [all[i].finding];
      }
    }
    assert all[..|all|] == all;
  }

  /** What an unforced write is refused for. */
  ghost predicate RefusedFor(ps: seq<Declared>, planned: Tree, touched: seq<Touched>, f: Finding) {
    Enforced(ps, planned, f) && Answers(touched, f.path)
  }

  /** `check_enforced`: with a complete touched list, the refused findings are exactly the
      enforced ones of the planned document that a touched path answers for. */
  method CheckEnforced(ps: seq<Declared>, stored: Value, planned: Value, touched: seq<Touched>)
    returns (refused: seq<Finding>)
    requires WF(stored) && WF(planned)
    ensures forall f :: f in refused <==>
              Enforced(ps, Meaning(planned), f) && (!Enforced(ps, Meaning(stored), f) || Answers(touched, f.path))
    ensures Loaded(ps) && Exact(Some(Meaning(stored)), Some(Meaning(planned)), [], touched) ==>
              forall f :: f in refused <==> RefusedFor(ps, Meaning(planned), touched, f)
    ensures WellOrdered(ps) ==>
              forall f: Finding :: Answers(touched, f.path) && At(Some(Meaning(planned)), f.path).Some? ==>
                (f in refused <==> f.enforced && FoundAt(ps, Meaning(planned), f))
    ensures WellOrdered(ps) && refused == [] ==> TouchedObey(ps, Meaning(planned), touched)
  {
    hide FoundAt, SpecificFirst, DistinctPrefixes, TouchedObey, At, Finds, Answers, Loaded, Complete, Leafmost, Sound, Antichain, Meaning, WF;
    var before := EnforcedFindings(ps, stored);
    var after := EnforcedFindings(ps, planned);
    refused := Introduced(before, after, touched);
    if Loaded(ps) && Exact(Some(Meaning(stored)), Some(Meaning(planned)), [], touched) {
      forall f | Enforced(ps, Meaning(planned), f) && !Answers(touched, f.path)
        ensures Enforced(ps, Meaning(stored), f)
      {
        Locality(ps, Meaning(stored), Meaning(planned), touched, f);
      }
    }
    if WellOrdered(ps) {
      forall f: Finding | Answers(touched, f.path) && At(Some(Meaning(planned)), f.path).Some?
        ensures f in refused <==> f.enforced && FoundAt(ps, Meaning(planned), f)
      {
        FindsPointwise(ps, Meaning(planned), f);
      }
      if refused == [] { NoneLeftObeys(ps, Meaning(planned), touched); }
    }
  }

  /** Every value on a touched path, above one or below one, that is judged by an enforced
      schema conforms to it. */
  ghost predicate TouchedObey(ps: seq<Declared>, doc: Tree, touched: seq<Touched>) {
    forall p :: Answers(touched, p) && At(Some(doc), p).Some? ==> Obeys(ps, doc, p)
  }

  lemma NoneLeftObeys(ps: seq<Declared>, doc: Tree, touched: seq<Touched>)
    requires WellOrdered(ps)
    requires forall f :: Enforced(ps, doc, f) ==> !Answers(touched, f.path)
    ensures TouchedObey(ps, doc, touched)
  {
    hide Finds, SpecificFirst, DistinctPrefixes, Obeys, Answers, At;
    forall p | Answers(touched, p) && At(Some(doc), p).Some? ensures Obeys(ps, doc, p) {
      ObeysIff(ps, doc, p);
    }
  }

  // ---------------------------------------------------------------- runs

  /** An accepted, unforced PUT. */
  ghost predicate GatedPut(ps: seq<Declared>, stored: Tree, planned: Tree) {
    exists touched :: Exact(Some(stored), Some(planned), [], touched) && NothingRefused(ps, planned, touched)
  }

  ghost predicate NothingRefused(ps: seq<Declared>, planned: Tree, touched: seq<Touched>) {
    forall f :: !RefusedFor(ps, planned, touched, f)
  }

  /** A DELETE of a view, or of the whole document. */
  ghost predicate ViewDelete(stored: Tree, planned: Tree) {
    stored.TMap? && exists view :: planned == View.Without(stored, view)
  }

  ghost predicate Step(ps: seq<Declared>, a: Tree, b: Tree) {
    GatedPut(ps, a, b) || ViewDelete(a, b)
  }

  lemma StepKeeps(ps: seq<Declared>, a: Tree, b: Tree, f: Finding)
    requires Loaded(ps) && Step(ps, a, b) && Enforced(ps, b, f)
    ensures Enforced(ps, a, f)
  {
    hide Finds, Loaded, Answers, Complete, Leafmost, Sound, Antichain, Shrunk;
    if GatedPut(ps, a, b) {
      var touched :| Exact(Some(a), Some(b), [], touched) && NothingRefused(ps, b, touched);
      assert !RefusedFor(ps, b, touched, f);
      Locality(ps, a, b, touched, f);
    } else {
      var view :| b == View.Without(a, view);
      WithoutShrinks(a, view);
      RemovalFindsNothingNew(ps, a, b, f);
    }
  }

  /** Over every run of unforced writes and deletes the enforced findings never grow. */
  lemma {:induction false} NeverGrows(ps: seq<Declared>, docs: seq<Tree>, f: Finding)
    requires Loaded(ps) && docs != []
    requires forall i :: 0 <= i < |docs| - 1 ==> Step(ps, docs[i], docs[i + 1])
    requires Enforced(ps, docs[|docs| - 1], f)
    ensures Enforced(ps, docs[0], f)
  {
    hide Enforced, Step, Loaded;
    if |docs| > 1 {
      StepKeeps(ps, docs[|docs| - 2], docs[|docs| - 1], f);
      NeverGrows(ps, docs[..|docs| - 1], f);
    }
  }

  /** So a clean document stays clean. */
  lemma StaysClean(ps: seq<Declared>, docs: seq<Tree>)
    requires Loaded(ps) && docs != []
    requires forall i :: 0 <= i < |docs| - 1 ==> Step(ps, docs[i], docs[i + 1])
    requires forall f :: Finds(ps, docs[0], f) ==> !f.enforced
    ensures forall f :: Finds(ps, docs[|docs| - 1], f) ==> !f.enforced
  {
    forall f | Finds(ps, docs[|docs| - 1], f) ensures !f.enforced {
      if f.enforced { NeverGrows(ps, docs, f); }
    }
  }

  /** And so every value an enforced schema judges conforms to it after every such run. */
  lemma StaysConforming(ps: seq<Declared>, docs: seq<Tree>, p: Path)
    requires Loaded(ps) && WellOrdered(ps) && docs != []
    requires forall i :: 0 <= i < |docs| - 1 ==> Step(ps, docs[i], docs[i + 1])
    requires forall f :: Finds(ps, docs[0], f) ==> !f.enforced
    requires At(Some(docs[|docs| - 1]), p).Some?
    ensures Obeys(ps, docs[|docs| - 1], p)
  {
    hide Finds, Step, Loaded, SpecificFirst, DistinctPrefixes, Obeys, At;
    StaysClean(ps, docs);
    ObeysIff(ps, docs[|docs| - 1], p);
  }
}
