/** Every path a schema describes, and the findings path by path: the recursive walks say
    what a lookup of the governing prefix says. */
module SchemaIndex {
  import opened Values
  import opened Schema
  import opened Shape

  datatype Described = Described(path: Path, schema: Tree, hidden: bool)

  /** The schema node at the end of `properties` steps. */
  function NodeAt(node: Tree, rel: Path): Option<Tree>
    decreases |rel|
  {
    if rel == [] then Some(node)
    else
      var props := Lookup(node, "properties");
      if props.Some? && Lookup(props.value, rel[0]).Some?
      then NodeAt(Lookup(props.value, rel[0]).value, rel[1..]) else None
  }

  /** `schema_at`: the node the governing prefix declares for `path`. */
  function SchemaAt(ps: seq<Declared>, path: Path): Option<Tree> {
    match Governing(ps, path)
    case Some(o) =>
      if o.schema.Some? && |o.prefix| <= |path| then NodeAt(Meaning(o.schema.value), path[|o.prefix|..]) else None
    case None => None
  }

  /** The nearest explicit flag on the way down, or else what was inherited. */
  function FlagAt(node: Tree, key: string, inherited: bool, rel: Path): bool
    decreases |rel|
  {
    var here := Flag(node, key, inherited);
    if rel == [] then here
    else
      var props := Lookup(node, "properties");
      if props.Some? && Lookup(props.value, rel[0]).Some?
      then FlagAt(Lookup(props.value, rel[0]).value, key, here, rel[1..]) else here
  }

  // ---------------------------------------------------------------- shadowing

  ghost predicate WellOrdered(ps: seq<Declared>) {
    SpecificFirst(ps) && DistinctPrefixes(ps)
  }

  /** A prefix governs its own path. */
  lemma GovernsItself(ps: seq<Declared>, o: Declared)
    requires WellOrdered(ps) && o in ps
    ensures Governing(ps, o.prefix) == Some(o)
  {
    GoverningIsMostSpecific(ps, o.prefix);
    var g := Governing(ps, o.prefix).value;
    assert g.prefix == o.prefix;
    var i :| 0 <= i < |ps| && ps[i] == o;
    var j :| 0 <= j < |ps| && ps[j] == g;
  }

  /** Pruning loses nothing: what an outer prefix governs, it governs all the way down to. */
  lemma GovernsOnTheWay(ps: seq<Declared>, o: Declared, q: Path, p: Path)
    requires WellOrdered(ps) && o in ps && o.prefix <= q <= p && Governs(ps, o.prefix, p)
    ensures Governs(ps, o.prefix, q)
  {
    GoverningIsMostSpecific(ps, p);
    GoverningIsMostSpecific(ps, q);
    var g := Governing(ps, q).value;
    assert g.prefix <= p;
  }

  lemma GovernsIs(ps: seq<Declared>, o: Declared, p: Path)
    requires WellOrdered(ps) && o in ps
    ensures Governs(ps, o.prefix, p) <==> Governing(ps, p) == Some(o)
  {
    if Governs(ps, o.prefix, p) {
      GoverningIsMostSpecific(ps, p);
      var g := Governing(ps, p).value;
      var i :| 0 <= i < |ps| && ps[i] == o;
      var j :| 0 <= j < |ps| && ps[j] == g;
    }
  }

  // ---------------------------------------------------------------- the index

  /** What the walk of one prefix lists at `path + rel`. */
  function ListedAt(ps: seq<Declared>, owner: Path, node: Tree, path: Path, inherited: bool, rel: Path): Option<Described>
    decreases |rel|
  {
    var hidden := Flag(node, "hidden", inherited);
    if !Governs(ps, owner, path) then None
    else if rel == [] then Some(Described(path, node, hidden))
    else
      var props := Lookup(node, "properties");
      if props.Some? && Lookup(props.value, rel[0]).Some?
      then ListedAt(ps, owner, Lookup(props.value, rel[0]).value, path + [rel[0]], hidden, rel[1..]) else None
  }

  ghost predicate Listed(ps: seq<Declared>, owner: Path, node: Tree, path: Path, inherited: bool, d: Described) {
    path <= d.path && ListedAt(ps, owner, node, path, inherited, d.path[|path|..]) == Some(d)
  }

  /** No entry is listed twice, and none after an entry below it: a parent comes first. */
  ghost predicate ParentsFirst(ds: seq<Described>) {
    forall i, j :: 0 <= i < j < |ds| ==> !(ds[j].path <= ds[i].path)
  }

  /** `collect`: a node before what is below it, and nothing another prefix has taken over. */
  method Collect(ps: seq<Declared>, owner: Path, schema: Value, path: Path, inherited: bool) returns (ds: seq<Described>)
    requires WF(schema)
    ensures forall d :: d in ds <==> Listed(ps, owner, Meaning(schema), path, inherited, d)
    ensures ParentsFirst(ds)
    decreases schema
  {
    hide Listed, Governs, Meaning, Contents;
    ghost var node := Meaning(schema);
    if !Governs(ps, owner, path) {
      NoneListed(ps, owner, node, path, inherited);
      return [];
    }
    var hidden := Flag(Meaning(schema), "hidden", inherited);
    ds := [Described(path, Meaning(schema), hidden)];
    var props := if schema.Obj? then Find(schema.fields, "properties") else None;
    if props.None? || !props.value.Obj? {
      OnlyItself(ps, owner, schema, path, inherited);
      return;
    }
    FindWF(schema.fields, "properties");
    ghost var x := FindIndex(schema.fields, "properties");
    var below := CollectBelow(ps, owner, props.value.fields, path, hidden);
    ItselfAndBelow(ps, owner, schema, path, inherited, below);
    ds := ds + below;
  }

  ghost predicate ListedBelow(ps: seq<Declared>, owner: Path, props: map<string, Tree>, path: Path, hidden: bool, k: string, d: Described) {
    k in props && Listed(ps, owner, props[k], path + [k], hidden, d)
  }

  lemma NoneListed(ps: seq<Declared>, owner: Path, node: Tree, path: Path, inherited: bool)
    requires !Governs(ps, owner, path)
    ensures forall d :: !Listed(ps, owner, node, path, inherited, d)
  {
    hide Governs;
  }

  lemma {:induction false} ListedSteps(ps: seq<Declared>, owner: Path, node: Tree, path: Path, inherited: bool, d: Described)
    requires Governs(ps, owner, path)
    ensures Listed(ps, owner, node, path, inherited, d) <==>
              || d == Described(path, node, Flag(node, "hidden", inherited))
              || (path < d.path && Lookup(node, "properties").Some? && Lookup(node, "properties").value.TMap?
                  && ListedBelow(ps, owner, Lookup(node, "properties").value.m, path, Flag(node, "hidden", inherited),
                                 d.path[|path|], d))
  {
    hide Governs;
    if path <= d.path {
      var rel := d.path[|path|..];
      if rel == [] {
        assert d.path == path;
      } else {
        var k := rel[0];
        assert d.path[|path|] == k && path + [k] <= d.path;
        assert d.path[|path + [k]|..] == rel[1..];
      }
    }
  }

  lemma OnlyItself(ps: seq<Declared>, owner: Path, schema: Value, path: Path, inherited: bool)
    requires Governs(ps, owner, path)
    requires var props := if schema.Obj? then Find(schema.fields, "properties") else None;
             props.None? || !props.value.Obj?
    ensures var d0 := Described(path, Meaning(schema), Flag(Meaning(schema), "hidden", inherited));
            forall d :: Listed(ps, owner, Meaning(schema), path, inherited, d) <==> d == d0
  {
    hide Governs, Listed, ListedBelow;
    PropertiesMean(schema);
    forall d ensures Listed(ps, owner, Meaning(schema), path, inherited, d) <==>
                       d == Described(path, Meaning(schema), Flag(Meaning(schema), "hidden", inherited)) {
      ListedSteps(ps, owner, Meaning(schema), path, inherited, d);
    }
  }

  lemma PropertiesMean(schema: Value)
    ensures var props := if schema.Obj? then Find(schema.fields, "properties") else None;
            Lookup(Meaning(schema), "properties") == if props.Some? then Some(Meaning(props.value)) else None
  {
    if schema.Obj? { FindMeans(schema.fields, "properties"); }
  }

  lemma ItselfAndBelow(ps: seq<Declared>, owner: Path, schema: Value, path: Path, inherited: bool, below: seq<Described>)
    requires Governs(ps, owner, path)
    requires schema.Obj? && Find(schema.fields, "properties").Some? && Find(schema.fields, "properties").value.Obj?
    requires ParentsFirst(below)
    requires var props := Contents(Find(schema.fields, "properties").value.fields);
             forall d :: d in below <==>
               path < d.path && ListedBelow(ps, owner, props, path, Flag(Meaning(schema), "hidden", inherited), d.path[|path|], d)
    ensures var d0 := Described(path, Meaning(schema), Flag(Meaning(schema), "hidden", inherited));
            && (forall d :: d in [d0] + below <==> Listed(ps, owner, Meaning(schema), path, inherited, d))
            && ParentsFirst([d0] + below)
  {
    hide Governs, Listed, ListedBelow;
    PropertiesMean(schema);
    var d0 := Described(path, Meaning(schema), Flag(Meaning(schema), "hidden", inherited));
    forall d ensures d in [d0] + below <==> Listed(ps, owner, Meaning(schema), path, inherited, d) {
      ListedSteps(ps, owner, Meaning(schema), path, inherited, d);
    }
    var all := [d0] + below;
    forall i, j | 0 <= i < j < |all| ensures !(all[j].path <= all[i].path) {
      assert all[j] == below[j - 1] && all[j] in below;
    }
  }

  method CollectBelow(ps: seq<Declared>, owner: Path, props: seq<Field>, path: Path, hidden: bool) returns (ds: seq<Described>)
    requires WFFields(props)
    ensures forall d :: d in ds <==> path < d.path && ListedBelow(ps, owner, Contents(props), path, hidden, d.path[|path|], d)
    ensures ParentsFirst(ds)
    decreases props
  {
    hide Listed, Governs, Contents, Meaning, WFFields;
    ghost var m := Contents(props);
    ds := [];
    for i := 0 to |props|
      invariant forall d :: d in ds <==>
                  path < d.path && Among(props, i, d.path[|path|]) && ListedBelow(ps, owner, m, path, hidden, d.path[|path|], d)
      invariant ParentsFirst(ds)
    {
      var k := props[i].key;
      FindField(props, i);
      var more := Collect(ps, owner, props[i].value, path + [k], hidden);
      forall d | d in more ensures path < d.path && d.path[|path|] == k {
        ListedIsBelow(ps, owner, Meaning(props[i].value), path, k, hidden, d);
      }
      NotAmongYet(props, i);
      JoinParentsFirst(path, props, i, ds, more);
      forall d ensures d in ds + more <==>
                         path < d.path && Among(props, i + 1, d.path[|path|])
                         && ListedBelow(ps, owner, m, path, hidden, d.path[|path|], d) {
        AmongNext(props, i, if path < d.path then d.path[|path|] else "");
        if Listed(ps, owner, m[k], path + [k], hidden, d) {
          ListedIsBelow(ps, owner, m[k], path, k, hidden, d);
        }
      }
      ds := ds + more;
    }
    forall d: Described | path < d.path && ListedBelow(ps, owner, m, path, hidden, d.path[|path|], d)
      ensures Among(props, |props|, d.path[|path|])
    {
      FindMeans(props, d.path[|path|]);
      var x := FindIndex(props, d.path[|path|]);
    }
  }

  ghost predicate Among(props: seq<Field>, i: nat, k: string)
    requires i <= |props|
  {
    exists x :: 0 <= x < i && props[x].key == k
  }

  lemma AmongNext(props: seq<Field>, i: nat, k: string)
    requires i < |props|
    ensures Among(props, i + 1, k) <==> Among(props, i, k) || props[i].key == k
  {
  }

  lemma NotAmongYet(props: seq<Field>, i: nat)
    requires WFFields(props) && i < |props|
    ensures !Among(props, i, props[i].key)
  {
    hide WFFields;
    forall x | 0 <= x < i ensures props[x].key != props[i].key { KeysDiffer(props, x, i); }
  }

  lemma ListedIsBelow(ps: seq<Declared>, owner: Path, node: Tree, path: Path, k: string, hidden: bool, d: Described)
    requires Listed(ps, owner, node, path + [k], hidden, d)
    ensures path < d.path && d.path[|path|] == k
  {
    hide ListedAt;
    assert (path + [k])[|path|] == k;
  }

  lemma JoinParentsFirst(path: Path, props: seq<Field>, i: nat, ds: seq<Described>, more: seq<Described>)
    requires i < |props| && !Among(props, i, props[i].key)
    requires ParentsFirst(ds) && ParentsFirst(more)
    requires forall d :: d in ds ==> path < d.path && Among(props, i, d.path[|path|])
    requires forall d :: d in more ==> path < d.path && d.path[|path|] == props[i].key
    ensures ParentsFirst(ds + more)
  {
    hide Among;
    var all := ds + more;
    forall x, y | 0 <= x < y < |all| ensures !(all[y].path <= all[x].path) {
      if x < |ds| {
        assert all[x] in ds;
        if y >= |ds| { assert all[y] in more; }
      }
    }
  }

  /** `schema_at` with its inherited `hidden`: what the index should say about `path`. */
  function DescribedAt(ps: seq<Declared>, path: Path): Option<Described> {
    match Governing(ps, path)
    case Some(o) =>
      if SchemaAt(ps, path).Some?
      then Some(Described(path, SchemaAt(ps, path).value,
                          FlagAt(Meaning(o.schema.value), "hidden", o.hidden, path[|o.prefix|..])))
      else None
    case None => None
  }

  lemma {:induction false} ListedMeans(ps: seq<Declared>, o: Declared, node: Tree, path: Path, inherited: bool, rel: Path)
    requires WellOrdered(ps) && o in ps && o.prefix <= path
    ensures ListedAt(ps, o.prefix, node, path, inherited, rel) ==
              if Governs(ps, o.prefix, path + rel) && NodeAt(node, rel).Some?
              then Some(Described(path + rel, NodeAt(node, rel).value, FlagAt(node, "hidden", inherited, rel)))
              else None
    decreases |rel|
  {
    hide Governs, SpecificFirst, DistinctPrefixes;
    if rel == [] {
      assert path + rel == path;
    } else {
      var next := path + [rel[0]];
      assert path + rel == next + rel[1..];
      if Governs(ps, o.prefix, path + rel) { GovernsOnTheWay(ps, o, path, path + rel); }
      var props := Lookup(node, "properties");
      if props.Some? && Lookup(props.value, rel[0]).Some? {
        ListedMeans(ps, o, Lookup(props.value, rel[0]).value, next, Flag(node, "hidden", inherited), rel[1..]);
      }
    }
  }

  /** One prefix lists exactly what it governs. */
  lemma ListedIsDescribed(ps: seq<Declared>, o: Declared, d: Described)
    requires WellOrdered(ps) && o in ps && o.schema.Some?
    ensures Listed(ps, o.prefix, Meaning(o.schema.value), o.prefix, o.hidden, d) <==>
              Governing(ps, d.path) == Some(o) && DescribedAt(ps, d.path) == Some(d)
  {
    hide SpecificFirst, DistinctPrefixes, NodeAt, FlagAt, Meaning, ListedAt;
    GovernsIs(ps, o, d.path);
    if o.prefix <= d.path {
      var rel := d.path[|o.prefix|..];
      assert o.prefix + rel == d.path;
      ListedMeans(ps, o, Meaning(o.schema.value), o.prefix, o.hidden, rel);
    } else {
      GoverningIsMostSpecific(ps, d.path);
    }
  }

  /** `schema_index`: exactly the paths `schema_at` is defined on, each once, with that node
      and its `hidden`; within a prefix's own entries a parent comes before its children. */
  method SchemaIndexOf(ps: seq<Declared>) returns (ds: seq<Described>)
    requires WellOrdered(ps)
    requires forall o :: o in ps && o.schema.Some? ==> WF(o.schema.value)
    ensures forall d :: d in ds <==> DescribedAt(ps, d.path) == Some(d)
    ensures forall i, j :: 0 <= i < j < |ds| ==>
              ds[i].path != ds[j].path
              && (Governing(ps, ds[i].path) == Governing(ps, ds[j].path) ==> !(ds[j].path <= ds[i].path))
  {
    hide SpecificFirst, DescribedAt, Listed, Governing, Meaning, WF;
    ds := [];
    for i := 0 to |ps|
      invariant forall d :: d in ds <==> exists x :: 0 <= x < i && Owns(ps, x, d)
      invariant IndexOrder(ps, ds)
    {
      var o := ps[i];
      ghost var before := ds;
      if o.schema.Some? {
        var more := Collect(ps, o.prefix, o.schema.value, o.prefix, o.hidden);
        forall d ensures d in more <==> Owns(ps, i, d) { ListedIsDescribed(ps, o, d); }
        JoinOwners(ps, i, ds, more);
        ds := ds + more;
      } else {
        forall d ensures !Owns(ps, i, d) { NoSchemaNoEntry(ps, i, d); }
      }
      forall d ensures d in ds <==> exists x :: 0 <= x < i + 1 && Owns(ps, x, d) {
        assert d in ds <==> d in before || Owns(ps, i, d);
      }
    }
    forall d ensures d in ds <==> DescribedAt(ps, d.path) == Some(d) {
      if DescribedAt(ps, d.path) == Some(d) { var x := SomeOwner(ps, d); }
    }
  }

  ghost predicate Owns(ps: seq<Declared>, x: nat, d: Described)
    requires x < |ps|
  {
    Governing(ps, d.path) == Some(ps[x]) && DescribedAt(ps, d.path) == Some(d)
  }

  ghost predicate IndexOrder(ps: seq<Declared>, ds: seq<Described>) {
    forall i, j :: 0 <= i < j < |ds| ==>
      ds[i].path != ds[j].path
      && (Governing(ps, ds[i].path) == Governing(ps, ds[j].path) ==> !(ds[j].path <= ds[i].path))
  }

  lemma NoSchemaNoEntry(ps: seq<Declared>, i: nat, d: Described)
    requires i < |ps| && ps[i].schema.None?
    ensures !Owns(ps, i, d)
  {
  }

  lemma SomeOwner(ps: seq<Declared>, d: Described) returns (x: nat)
    requires WellOrdered(ps) && DescribedAt(ps, d.path) == Some(d)
    ensures x < |ps| && Owns(ps, x, d)
  {
    GoverningIsMostSpecific(ps, d.path);
    var g := Governing(ps, d.path).value;
    x :| 0 <= x < |ps| && ps[x] == g;
  }

  lemma JoinOwners(ps: seq<Declared>, i: nat, ds: seq<Described>, more: seq<Described>)
    requires i < |ps| && DistinctPrefixes(ps)
    requires IndexOrder(ps, ds) && ParentsFirst(more)
    requires forall d :: d in ds ==> exists x :: 0 <= x < i && Owns(ps, x, d)
    requires forall d :: d in more ==> Owns(ps, i, d)
    ensures IndexOrder(ps, ds + more)
  {
    hide DescribedAt, Governing;
    var all := ds + more;
    forall x, y | 0 <= x < y < |all|
      ensures all[x].path != all[y].path
      ensures Governing(ps, all[x].path) == Governing(ps, all[y].path) ==> !(all[y].path <= all[x].path)
    {
      if x < |ds| {
        if y < |ds| {
          assert all[x] == ds[x] && all[y] == ds[y];
        } else {
          assert all[x] in ds && all[y] in more;
          var z :| 0 <= z < i && Owns(ps, z, all[x]);
          assert ps[z].prefix != ps[i].prefix;
        }
      } else {
        assert all[x] == more[x - |ds|] && all[y] == more[y - |ds|];
      }
    }
  }
}
