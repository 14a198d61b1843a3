/** Which declared prefix governs a path, and what its schema finds wrong with a document. */
module Shape {
  import opened Values
  import opened Decimals
  import Sorting
  import opened Schema
  import Patch

  datatype Declared = Declared(prefix: Path, schema: Option<Value>, enforce: bool, hidden: bool)

  datatype Finding = Finding(path: Path, msg: Msg, enforced: bool)

  /** What a walk has to say: an objection of its own, or a string whose format somebody else
      must judge. */
  datatype Report = Found(finding: Finding) | Format(path: Path, format: string, value: string)

  // ---------------------------------------------------------------- governing

  /** The governing prefix: the first of the list, most specific first, that contains `path`. */
  function Governing(ps: seq<Declared>, path: Path): Option<Declared> {
    if ps == [] then None
    else if ps[0].prefix <= path then Some(ps[0])
    else Governing(ps[1..], path)
  }

  predicate Governs(ps: seq<Declared>, owner: Path, path: Path) {
    var g := Governing(ps, path);
    g.Some? && g.value.prefix == owner
  }

  // ---------------------------------------------------------------- what the walk visits

  /** `model::get_path`: maps by key, arrays by index. */
  function GetPath(t: Tree, p: Path): Option<Tree>
    decreases |p|
  {
    if p == [] then Some(t)
    else match t
      case TMap(m) => if p[0] in m then GetPath(m[p[0]], p[1..]) else None
      case TArr(items) =>
        var i := Unsigned(p[0]);
        if i.Some? && i.value < |items| then GetPath(items[i.value], p[1..]) else None
      case _ => None
  }

  /** A value the walk looks at, with the schema node and the inherited flag it meets there. */
  datatype Visit = Visit(schema: Tree, value: Tree, inherited: bool)

  /** One step down from a visited value: into an array member, or into a map key the
      owner's schema describes and no more specific prefix owns. Never below a value that
      fails its own check. */
  function Down(ps: seq<Declared>, owner: Path, v: Visit, path: Path, seg: string): Option<Visit> {
    var enforce := Flag(v.schema, "enforce", v.inherited);
    var items, props := Lookup(v.schema, "items"), Lookup(v.schema, "properties");
    if CheckValue(v.schema, v.value).Some? then None
    else if items.Some? && v.value.TArr? then
      var i := Unsigned(seg);
      if i.Some? && i.value < |v.value.items| && Decimal(i.value) == seg
      then Some(Visit(items.value, v.value.items[i.value], enforce)) else None
    else if props.Some? && props.value.TMap? && v.value.TMap?
            && seg in v.value.m && seg in props.value.m && Governs(ps, owner, path + [seg])
    then Some(Visit(props.value.m[seg], v.value.m[seg], enforce))
    else None
  }

  function Visited(ps: seq<Declared>, owner: Path, v: Visit, path: Path, rel: Path): Option<Visit>
    decreases |rel|
  {
    if rel == [] then Some(v)
    else
      var d := Down(ps, owner, v, path, rel[0]);
      if d.Some? then Visited(ps, owner, d.value, path + [rel[0]], rel[1..]) else None
  }

  /** What is reported about one visited value. */
  function ReportOf(v: Visit, path: Path): Option<Report> {
    var msg := CheckValue(v.schema, v.value);
    var format := AsStr(Lookup(v.schema, "format"));
    if msg.Some? then Some(Found(Finding(path, msg.value, Flag(v.schema, "enforce", v.inherited))))
    else if v.value.TStr? && format.Some? then Some(Format(path, format.value, v.value.s))
    else None
  }

  /** Where the walk of one prefix starts, if its schema and a value for it are there. */
  function Root(o: Declared, doc: Tree): Option<Visit> {
    var v := GetPath(doc, o.prefix);
    if o.schema.Some? && v.Some? then Some(Visit(Meaning(o.schema.value), v.value, o.enforce)) else None
  }

  function ReportFrom(ps: seq<Declared>, owner: Path, v: Visit, path: Path, rel: Path): Option<Report> {
    var d := Visited(ps, owner, v, path, rel);
    if d.Some? then ReportOf(d.value, path + rel) else None
  }

  /** `r` is reported by the walk that starts with `v` at `path`. */
  ghost predicate FromWalk(ps: seq<Declared>, owner: Path, v: Visit, path: Path, r: Report) {
    exists rel :: ReportFrom(ps, owner, v, path, rel) == Some(r)
  }

  /** The pointwise specification: some prefix's walk reports `r` about `doc`. */
  ghost predicate Reports(ps: seq<Declared>, doc: Tree, r: Report) {
    exists o :: o in ps && ReportedBy(ps, o, doc, r)
  }

  ghost predicate ReportedBy(ps: seq<Declared>, o: Declared, doc: Tree, r: Report) {
    Root(o, doc).Some? && FromWalk(ps, o.prefix, Root(o, doc).value, o.prefix, r)
  }

  ghost predicate Finds(ps: seq<Declared>, doc: Tree, f: Finding) {
    Reports(ps, doc, Found(f))
  }

  /** The findings that can stop a write. */
  ghost predicate Enforced(ps: seq<Declared>, doc: Tree, f: Finding) {
    f.enforced && Finds(ps, doc, f)
  }

  // ---------------------------------------------------------------- the walk itself

  ghost predicate FromStep(ps: seq<Declared>, owner: Path, v: Visit, path: Path, seg: string, r: Report) {
    var d := Down(ps, owner, v, path, seg);
    d.Some? && FromWalk(ps, owner, d.value, path + [seg], r)
  }

  /** What a walk reports is what it reports about the value itself and below each step down. */
  lemma FromWalkSteps(ps: seq<Declared>, owner: Path, v: Visit, path: Path, r: Report)
    ensures FromWalk(ps, owner, v, path, r) <==>
              ReportOf(v, path) == Some(r) || exists seg :: FromStep(ps, owner, v, path, seg, r)
  {
    hide Down, ReportOf;
    assert path + [] == path;
    if FromWalk(ps, owner, v, path, r) {
      var rel :| ReportFrom(ps, owner, v, path, rel) == Some(r);
      if rel != [] {
        var seg := rel[0];
        assert path + rel == (path + [seg]) + rel[1..];
        assert ReportFrom(ps, owner, Down(ps, owner, v, path, seg).value, path + [seg], rel[1..]) == Some(r);
        assert FromStep(ps, owner, v, path, seg, r);
      }
    }
    if ReportOf(v, path) == Some(r) {
      assert ReportFrom(ps, owner, v, path, []) == Some(r);
    }
    if seg :| FromStep(ps, owner, v, path, seg, r) {
      var d := Down(ps, owner, v, path, seg).value;
      var rel :| ReportFrom(ps, owner, d, path + [seg], rel) == Some(r);
      var full := [seg] + rel;
      assert full[1..] == rel;
      assert path + full == (path + [seg]) + rel;
      assert ReportFrom(ps, owner, v, path, full) == Some(r);
    }
  }

  /** `r` comes from one of the first `n` of these steps. */
  ghost predicate FromSteps(ps: seq<Declared>, owner: Path, v: Visit, path: Path, segs: seq<string>, n: nat, r: Report)
    requires n <= |segs|
  {
    exists x :: 0 <= x < n && FromStep(ps, owner, v, path, segs[x], r)
  }

  lemma OneMoreStep(ps: seq<Declared>, owner: Path, v: Visit, path: Path, segs: seq<string>, n: nat, r: Report)
    requires n < |segs|
    ensures FromSteps(ps, owner, v, path, segs, n + 1, r) <==>
              FromSteps(ps, owner, v, path, segs, n, r) || FromStep(ps, owner, v, path, segs[n], r)
  {
    hide FromStep;
  }

  /** Once every step the walk can take is among `segs`, nothing is missed. */
  lemma AllSteps(ps: seq<Declared>, owner: Path, v: Visit, path: Path, segs: seq<string>, r: Report)
    requires forall seg :: Down(ps, owner, v, path, seg).Some? ==> seg in segs
    ensures FromWalk(ps, owner, v, path, r) <==>
              ReportOf(v, path) == Some(r) || FromSteps(ps, owner, v, path, segs, |segs|, r)
  {
    hide Down, ReportOf, FromWalk;
    FromWalkSteps(ps, owner, v, path, r);
  }

  function Indices(n: nat): (r: seq<string>)
    ensures |r| == n
  {
    seq(n, i requires 0 <= i < n => Decimal(i))
  }

  function KeysOf(fields: seq<Field>): seq<string> {
    seq(|fields|, i requires 0 <= i < |fields| => fields[i].key)
  }

  lemma ItemSteps(ps: seq<Declared>, owner: Path, v: Visit, path: Path, seg: string)
    requires v.value.TArr? && Down(ps, owner, v, path, seg).Some?
    ensures seg in Indices(|v.value.items|)
  {
    hide CheckValue, Governs;
    var i := Unsigned(seg).value;
    assert Indices(|v.value.items|)[i] == seg;
  }

  lemma FieldSteps(ps: seq<Declared>, owner: Path, v: Visit, path: Path, fields: seq<Field>, seg: string)
    requires v.value == TMap(Contents(fields)) && Down(ps, owner, v, path, seg).Some?
    ensures seg in KeysOf(fields)
  {
    hide CheckValue, Governs;
    FindMeans(fields, seg);
    var i := FindIndex(fields, seg);
    assert KeysOf(fields)[i] == seg;
  }

  /** The reports of one walk, in document order. */
  function WalkList(ps: seq<Declared>, owner: Path, schema: Tree, value: Value, path: Path, inherited: bool): seq<Report>
    decreases value, 1
  {
    var v := Visit(schema, Meaning(value), inherited);
    var own := ReportOf(v, path);
    var here := if own.Some? then [own.value] else [];
    var items, props := Lookup(schema, "items"), Lookup(schema, "properties");
    if CheckValue(schema, v.value).Some? then here
    else if items.Some? && value.Arr? then
      here + ItemList(ps, owner, items.value, value.items, path, Flag(schema, "enforce", inherited), |value.items|)
    else if props.Some? && props.value.TMap? && value.Obj? then
      here + FieldList(ps, owner, props.value.m, value.fields, path, Flag(schema, "enforce", inherited), |value.fields|)
    else here
  }

  function ItemList(ps: seq<Declared>, owner: Path, schema: Tree, members: seq<Value>, path: Path, enforce: bool, n: nat): seq<Report>
    requires n <= |members|
    decreases members, 0, n
  {
    if n == 0 then []
    else ItemList(ps, owner, schema, members, path, enforce, n - 1)
         + WalkList(ps, owner, schema, members[n - 1], path + [Decimal(n - 1)], enforce)
  }

  function FieldList(ps: seq<Declared>, owner: Path, props: map<string, Tree>, fields: seq<Field>, path: Path, enforce: bool, n: nat): seq<Report>
    requires n <= |fields|
    decreases fields, 0, n
  {
    if n == 0 then []
    else
      var f := fields[n - 1];
      FieldList(ps, owner, props, fields, path, enforce, n - 1)
      + if f.key in props && Governs(ps, owner, path + [f.key]) then WalkList(ps, owner, props[f.key], f.value, path + [f.key], enforce)
        else []
  }

  /** `walk`: appends what it finds, in document order. */
  method Walk(ps: seq<Declared>, owner: Path, schema: Tree, value: Value, path: Path, inherited: bool, sofar: seq<Report>)
    returns (out: seq<Report>)
    requires WF(value)
    ensures forall r :: r in out <==> r in sofar || FromWalk(ps, owner, Visit(schema, Meaning(value), inherited), path, r)
    ensures out == sofar + WalkList(ps, owner, schema, value, path, inherited)
    decreases value, 1
  {
    hide ItemList, FieldList, FromWalk, FromSteps, Visited, CheckValue, Governs, Contents, WFFields;
    ghost var v := Visit(schema, Meaning(value), inherited);
    ghost var segs: seq<string> := [];
    out := sofar;
    var msg := CheckValue(schema, Meaning(value));
    var format := AsStr(Lookup(schema, "format"));
    var items, props := Lookup(schema, "items"), Lookup(schema, "properties");
    if msg.Some? {
      out := out + [Found(Finding(path, msg.value, Flag(schema, "enforce", inherited)))];
    } else {
      if value.Str? && format.Some? {
        out := out + [Format(path, format.value, value.s)];
      }
      if items.Some? && value.Arr? {
        segs := Indices(|value.items|);
        forall seg | Down(ps, owner, v, path, seg).Some? ensures seg in segs { ItemSteps(ps, owner, v, path, seg); }
        out := WalkItems(ps, owner, schema, value.items, path, inherited, out);
      } else if props.Some? && props.value.TMap? && value.Obj? {
        segs := KeysOf(value.fields);
        forall seg | Down(ps, owner, v, path, seg).Some? ensures seg in segs {
          FieldSteps(ps, owner, v, path, value.fields, seg);
        }
        out := WalkFields(ps, owner, schema, value.fields, path, inherited, out);
      }
    }
    forall r ensures r in out <==> r in sofar || FromWalk(ps, owner, v, path, r) {
      AllSteps(ps, owner, v, path, segs, r);
      NoSteps(ps, owner, v, path, segs, r);
    }
  }

  lemma NoSteps(ps: seq<Declared>, owner: Path, v: Visit, path: Path, segs: seq<string>, r: Report)
    ensures segs == [] ==> !FromSteps(ps, owner, v, path, segs, |segs|, r)
  {
  }

  method WalkItems(ps: seq<Declared>, owner: Path, schema: Tree, members: seq<Value>, path: Path,
                   inherited: bool, sofar: seq<Report>)
    returns (out: seq<Report>)
    requires WF(Arr(members))
    requires Lookup(schema, "items").Some? && CheckValue(schema, Meaning(Arr(members))).None?
    ensures forall r :: r in out <==>
              || r in sofar
              || FromSteps(ps, owner, Visit(schema, Meaning(Arr(members)), inherited), path,
                           Indices(|members|), |members|, r)
    ensures out == sofar + ItemList(ps, owner, Lookup(schema, "items").value, members, path, Flag(schema, "enforce", inherited), |members|)
    decreases members, 0
  {
    hide WalkList, ItemList, FromWalk, FromSteps, FromStep, Visited, CheckValue, Governs, Flag, Indices, Decimal;
    ghost var v := Visit(schema, Meaning(Arr(members)), inherited);
    ghost var segs := Indices(|members|);
    out := sofar;
    ItemListNone(ps, owner, Lookup(schema, "items").value, members, path, Flag(schema, "enforce", inherited));
    forall r ensures !FromSteps(ps, owner, v, path, segs, 0, r) { NoneYet(ps, owner, v, path, segs, r); }
    for i := 0 to |members|
      invariant forall r :: r in out <==> r in sofar || FromSteps(ps, owner, v, path, segs, i, r)
      invariant out == sofar + ItemList(ps, owner, Lookup(schema, "items").value, members, path, Flag(schema, "enforce", inherited), i)
    {
      ItemListNext(ps, owner, Lookup(schema, "items").value, members, path, Flag(schema, "enforce", inherited), i);
      out := Walk(ps, owner, Lookup(schema, "items").value, members[i], path + [Decimal(i)],
                  Flag(schema, "enforce", inherited), out);
      forall r ensures r in out <==> r in sofar || FromSteps(ps, owner, v, path, segs, i + 1, r) {
        OneMoreStep(ps, owner, v, path, segs, i, r);
        StepIntoItem(ps, owner, schema, members, path, inherited, i, r);
      }
    }
  }

  /** The step into a list's member is the walk of that member. */
  lemma StepIntoItem(ps: seq<Declared>, owner: Path, schema: Tree, members: seq<Value>, path: Path, inherited: bool, i: nat, r: Report)
    requires i < |members| && Lookup(schema, "items").Some? && CheckValue(schema, Meaning(Arr(members))).None?
    ensures var v := Visit(schema, Meaning(Arr(members)), inherited);
            var w := Visit(Lookup(schema, "items").value, Meaning(members[i]), Flag(schema, "enforce", inherited));
            FromStep(ps, owner, v, path, Indices(|members|)[i], r) <==> FromWalk(ps, owner, w, path + [Decimal(i)], r)
  {
    hide FromWalk, CheckValue, Governs, Flag;
    UnsignedDecimal(i);
  }

  lemma ItemListNone(ps: seq<Declared>, owner: Path, schema: Tree, members: seq<Value>, path: Path, enforce: bool)
    ensures ItemList(ps, owner, schema, members, path, enforce, 0) == []
  {
  }

  lemma ItemListNext(ps: seq<Declared>, owner: Path, schema: Tree, members: seq<Value>, path: Path, enforce: bool, i: nat)
    requires i < |members|
    ensures ItemList(ps, owner, schema, members, path, enforce, i + 1) ==
            ItemList(ps, owner, schema, members, path, enforce, i) + WalkList(ps, owner, schema, members[i], path + [Decimal(i)], enforce)
  {
    hide WalkList;
  }

  lemma NoneYet(ps: seq<Declared>, owner: Path, v: Visit, path: Path, segs: seq<string>, r: Report)
    ensures !FromSteps(ps, owner, v, path, segs, 0, r)
  {
  }

  method WalkFields(ps: seq<Declared>, owner: Path, schema: Tree, fields: seq<Field>, path: Path,
                    inherited: bool, sofar: seq<Report>)
    returns (out: seq<Report>)
    requires WFFields(fields)
    requires Lookup(schema, "properties").Some? && Lookup(schema, "properties").value.TMap?
    requires CheckValue(schema, TMap(Contents(fields))).None?
    ensures forall r :: r in out <==>
              || r in sofar
              || FromSteps(ps, owner, Visit(schema, TMap(Contents(fields)), inherited), path,
                           KeysOf(fields), |fields|, r)
    ensures out == sofar + FieldList(ps, owner, Lookup(schema, "properties").value.m, fields, path, Flag(schema, "enforce", inherited), |fields|)
    decreases fields, 0
  {
    hide WalkList, FromWalk, FromSteps, Visited, CheckValue, Governs, Contents, WFFields;
    ghost var v := Visit(schema, TMap(Contents(fields)), inherited);
    ghost var segs := KeysOf(fields);
    var props := Lookup(schema, "properties").value.m;
    out := sofar;
    forall r ensures !FromSteps(ps, owner, v, path, segs, 0, r) { NoneYet(ps, owner, v, path, segs, r); }
    for i := 0 to |fields|
      invariant forall r :: r in out <==> r in sofar || FromSteps(ps, owner, v, path, segs, i, r)
      invariant out == sofar + FieldList(ps, owner, props, fields, path, Flag(schema, "enforce", inherited), i)
    {
      var key, child := fields[i].key, fields[i].value;
      FindField(fields, i);
      if key in props && Governs(ps, owner, path + [key]) {
        out := Walk(ps, owner, props[key], child, path + [key], Flag(schema, "enforce", inherited), out);
      }
      forall r ensures r in out <==> r in sofar || FromSteps(ps, owner, v, path, segs, i + 1, r) {
        OneMoreStep(ps, owner, v, path, segs, i, r);
      }
    }
  }

  function ReachOf(doc: Value, path: Path): Option<Value>
    decreases |path|
  {
    if path == [] then Some(doc)
    else match doc
      case Obj(fs) =>
        var v := Find(fs, path[0]);
        if v.Some? then ReachOf(v.value, path[1..]) else None
      case Arr(items) =>
        var i := Unsigned(path[0]);
        if i.Some? && i.value < |items| then ReachOf(items[i.value], path[1..]) else None
      case _ => None
  }

  /** `model::get_path`, on the stored value. */
  method Reach(doc: Value, path: Path) returns (r: Option<Value>)
    requires WF(doc)
    ensures Patch.MeaningOf(r) == GetPath(Meaning(doc), path)
    ensures r == ReachOf(doc, path)
    ensures r.Some? ==> WF(r.value)
  {
    var cur := doc;
    for i := 0 to |path|
      invariant WF(cur)
      invariant ReachOf(doc, path) == ReachOf(cur, path[i..])
      invariant GetPath(Meaning(doc), path) == GetPath(Meaning(cur), path[i..])
    {
      assert path[i..][1..] == path[i + 1..];
      if cur.Obj? {
        Patch.FindKept(cur.fields, path[i]);
        var v := Find(cur.fields, path[i]);
        if v.None? { return None; }
        cur := v.value;
      } else if cur.Arr? {
        var x := Unsigned(path[i]);
        if x.None? || x.value >= |cur.items| { return None; }
        cur := cur.items[x.value];
      } else {
        return None;
      }
    }
    return Some(cur);
  }

  function PathOf(r: Report): Path {
    match r case Found(f) => f.path case Format(p, _, _) => p
  }

  predicate ReportLe(a: Report, b: Report) {
    Sorting.PathLe(PathOf(a), PathOf(b))
  }

  lemma ReportsAreOrdered()
    ensures Sorting.IsOrder(ReportLe)
  {
    hide Sorting.PathLe;
    forall a, b ensures ReportLe(a, b) || ReportLe(b, a) { Sorting.PathTotal(PathOf(a), PathOf(b)); }
    forall a, b, c | ReportLe(a, b) && ReportLe(b, c) ensures ReportLe(a, c) {
      Sorting.PathTransitive(PathOf(a), PathOf(b), PathOf(c));
    }
  }

  /** The reports of the first `n` prefixes' walks, one after the other. */
  function WalkLists(ps: seq<Declared>, doc: Value, n: nat): seq<Report>
    requires n <= |ps|
  {
    if n == 0 then []
    else
      var o := ps[n - 1];
      var value := ReachOf(doc, o.prefix);
      WalkLists(ps, doc, n - 1)
      + if o.schema.Some? && value.Some? then WalkList(ps, o.prefix, Meaning(o.schema.value), value.value, o.prefix, o.enforce) else []
  }

  /** What `findings` answers: those, sorted by path. */
  function FindingsOf(ps: seq<Declared>, doc: Value): seq<Report> {
    Sorting.Sort(ReportLe, WalkLists(ps, doc, |ps|))
  }

  /** `findings`: every prefix's walk, one after the other, and then sorted by path. */
  method Findings(ps: seq<Declared>, doc: Value) returns (out: seq<Report>)
    requires WF(doc)
    ensures forall r :: r in out <==> Reports(ps, Meaning(doc), r)
    ensures Sorting.Sorted(ReportLe, out) && out == FindingsOf(ps, doc)
  {
    hide FromWalk, WalkList, Sorting.Sort, Sorting.Sorted, ReachOf;
    out := [];
    for i := 0 to |ps|
      invariant forall r :: r in out <==> exists x :: 0 <= x < i && ReportedBy(ps, ps[x], Meaning(doc), r)
      invariant out == WalkLists(ps, doc, i)
    {
      var o := ps[i];
      var before := out;
      var value := Reach(doc, o.prefix);
      if o.schema.Some? && value.Some? {
        out := Walk(ps, o.prefix, Meaning(o.schema.value), value.value, o.prefix, o.enforce, out);
      }
      forall r ensures r in out <==> exists x :: 0 <= x < i + 1 && ReportedBy(ps, ps[x], Meaning(doc), r) {
        assert r in out <==> r in before || ReportedBy(ps, ps[i], Meaning(doc), r);
      }
    }
    ReportsAreOrdered();
    Sorting.SortSorts(ReportLe, out);
    forall r ensures r in Sorting.Sort(ReportLe, out) <==> r in out { Sorting.SameMembers(ReportLe, out, r); }
    out := Sorting.Sort(ReportLe, out);
  }

  // ---------------------------------------------------------------- one governing prefix

  predicate SpecificFirst(ps: seq<Declared>) {
    forall i, j :: 0 <= i < j < |ps| ==> |ps[i].prefix| >= |ps[j].prefix|
  }

  predicate DistinctPrefixes(ps: seq<Declared>) {
    forall i, j :: 0 <= i < j < |ps| ==> ps[i].prefix != ps[j].prefix
  }

  /** `d` is the most specific of the prefixes that contain `path`. */
  ghost predicate MostSpecific(ps: seq<Declared>, path: Path, d: Declared) {
    && d in ps && d.prefix <= path
    && forall e :: e in ps && e.prefix <= path ==> e.prefix <= d.prefix
  }

  /** The first match is the most specific one: nothing declared reaches the path, or
      every other prefix that contains it is a prefix of the governing one. */
  lemma {:induction false} GoverningIsMostSpecific(ps: seq<Declared>, path: Path)
    requires SpecificFirst(ps)
    ensures match Governing(ps, path)
            case Some(d) => MostSpecific(ps, path, d)
            case None => forall e :: e in ps ==> !(e.prefix <= path)
  {
    if ps != [] {
      if ps[0].prefix <= path {
        forall e | e in ps && e.prefix <= path ensures e.prefix <= ps[0].prefix {
          assert |e.prefix| <= |ps[0].prefix|;
        }
      } else {
        GoverningIsMostSpecific(ps[1..], path);
      }
    }
  }

  /** Which prefix governs does not depend on the order the prefixes were given in. */
  lemma SameGoverning(ps: seq<Declared>, qs: seq<Declared>, path: Path)
    requires SpecificFirst(ps) && SpecificFirst(qs) && DistinctPrefixes(ps)
    requires forall d :: d in ps <==> d in qs
    ensures Governing(ps, path) == Governing(qs, path)
  {
    GoverningIsMostSpecific(ps, path);
    GoverningIsMostSpecific(qs, path);
    var g, h := Governing(ps, path), Governing(qs, path);
    if g.Some? && h.Some? {
      assert g.value.prefix == h.value.prefix;
      var i :| 0 <= i < |ps| && ps[i] == g.value;
      var j :| 0 <= j < |ps| && ps[j] == h.value;
    }
  }

  lemma {:induction false} VisitedUnordered(ps: seq<Declared>, qs: seq<Declared>, owner: Path, v: Visit, path: Path, rel: Path)
    requires SpecificFirst(ps) && SpecificFirst(qs) && DistinctPrefixes(ps)
    requires forall d :: d in ps <==> d in qs
    ensures Visited(ps, owner, v, path, rel) == Visited(qs, owner, v, path, rel)
    decreases |rel|
  {
    if rel != [] {
      SameGoverning(ps, qs, path + [rel[0]]);
      assert Down(ps, owner, v, path, rel[0]) == Down(qs, owner, v, path, rel[0]) by {
        hide SpecificFirst, DistinctPrefixes, CheckValue, Governing;
      }
      var d := Down(ps, owner, v, path, rel[0]);
      if d.Some? { VisitedUnordered(ps, qs, owner, d.value, path + [rel[0]], rel[1..]); }
    }
  }

  /** Nor do the findings. */
  lemma SameReports(ps: seq<Declared>, qs: seq<Declared>, doc: Tree, r: Report)
    requires SpecificFirst(ps) && SpecificFirst(qs) && DistinctPrefixes(ps)
    requires forall d :: d in ps <==> d in qs
    requires Reports(ps, doc, r)
    ensures Reports(qs, doc, r)
  {
    var o :| o in ps && ReportedBy(ps, o, doc, r);
    var rel :| ReportFrom(ps, o.prefix, Root(o, doc).value, o.prefix, rel) == Some(r);
    VisitedUnordered(ps, qs, o.prefix, Root(o, doc).value, o.prefix, rel);
    assert ReportFrom(qs, o.prefix, Root(o, doc).value, o.prefix, rel) == Some(r);
    assert ReportedBy(qs, o, doc, r);
  }
}
