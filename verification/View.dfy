/** Prefix-addressed writes into a document: replace, merge and remove, each with its
    touched list. */
module View {
  import opened Values
  import opened KeyOrder
  import opened Verbatim
  import opened TouchedPaths
  import Diff
  import Patch

  datatype Result<+T> = Ok(value: T) | InvalidPath

  /** The way to a path is barred: something above it exists and is no map. */
  ghost predicate Blocked(t: Option<Tree>, prefix: Path) {
    exists q: Path :: q < prefix && !MapOrAbsent(At(t, q))
  }

  /** The document with `v` at `p`, missing maps on the way created. */
  function PutAt(t: Option<Tree>, p: Path, v: Tree): Tree
    decreases |p|
  {
    if p == [] then v
    else
      var m := if t.Some? && t.value.TMap? then t.value.m else map[];
      TMap(m[p[0] := PutAt(Get(m, p[0]), p[1..], v)])
  }

  /** The document without what is at `p` and without its note. */
  function Without(t: Tree, p: Path): Tree
    decreases |p|
  {
    if p == [] then TMap(map[])
    else if !t.TMap? then t
    else if |p| == 1 then TMap(t.m - {p[0], Patch.Note(p[0])})
    else if p[0] in t.m then TMap(t.m[p[0] := Without(t.m[p[0]], p[1..])])
    else t
  }

  /** What a merge leaves at its prefix: a patch meets a map as it is and
      anything else as an empty one, and does not create a map just to leave it empty. */
  function MergedAt(here: Option<Tree>, patch: Tree): Option<Tree> {
    var m := if here.Some? && here.value.TMap? then here.value.m else map[];
    var merged := if patch.TMap? then Patch.Applied(m, patch) else m;
    if here.Some? || merged != map[] then Some(TMap(merged)) else None
  }

  /** The note of the value at a path, beside it. */
  function NoteOf(p: Path): Path
    requires p != []
  {
    p[..|p| - 1] + [Patch.Note(p[|p| - 1])]
  }

  /** From `a` to `b`, what is at `p` has gone and its note with it, and nothing else: the maps
      on the way are still there. */
  ghost predicate Gone(a: Tree, b: Tree, p: Path)
    requires p != []
  {
    && At(Some(b), p).None? && At(Some(b), NoteOf(p)).None?
    && (forall q: Path :: !Comparable(q, p) && !Comparable(q, NoteOf(p)) ==> At(Some(b), q) == At(Some(a), q))
    && (forall q: Path :: q < p ==> MapOrAbsent(At(Some(b), q)) && (At(Some(a), q).Some? <==> At(Some(b), q).Some?))
  }

  /** What a removal leaves: nothing at the root, and otherwise all but the value and its note. */
  ghost predicate Removed(a: Tree, b: Tree, p: Path) {
    if p == [] then b == TMap(map[]) else Gone(a, b, p)
  }

  // ---------------------------------------------------------------- laws

  /** `Without` is the one document in which the path and its note are gone and no more. */
  lemma RemovedIffWithout(t: Tree, p: Path, b: Tree)
    requires !Blocked(Some(t), p)
    ensures Removed(t, b, p) <==> b == Without(t, p)
  {
    hide Gone, Blocked;
    if p != [] {
      WithoutGone(t, p);
      if Gone(t, b, p) { GoneOnce(t, b, Without(t, p), p); }
    }
  }

  lemma {:induction false} WithoutGone(t: Tree, p: Path)
    requires p != [] && !Blocked(Some(t), p)
    ensures Gone(t, Without(t, p), p)
    decreases |p|
  {
    hide Gone, Blocked;
    var k := p[0];
    assert p == [k] + p[1..];
    if !t.TMap? { BlockedHere(Some(t), p); }
    BlockedStep(Some(t), k, p[1..]);
    Patch.NoteUnique(k);
    if |p| == 1 {
      LastGone(t, Without(t, p), p);
    } else if k in t.m {
      WithoutGone(t.m[k], p[1..]);
      GoneBelow(t, t.m[k], Without(t.m[k], p[1..]), p);
    } else {
      NothingThere(t, p);
    }
  }

  lemma AtKey(t: Option<Tree>, k: string)
    ensures At(t, [k]) == Child(t, k)
  {
    assert [k][1..] == [];
  }

  lemma FirstDiffers(q: Path, k: string)
    requires q != [] && !Comparable(q, [k])
    ensures q[0] != k
  {
    assert q == [q[0]] + q[1..];
  }

  lemma LastGone(t: Tree, b: Tree, p: Path)
    requires |p| == 1 && t.TMap? && b == TMap(t.m - {p[0], Patch.Note(p[0])})
    ensures Gone(t, b, p)
  {
    hide Patch.Note;
    assert p == [p[0]] && NoteOf(p) == [Patch.Note(p[0])];
    AtKey(Some(b), p[0]);
    AtKey(Some(b), Patch.Note(p[0]));
    forall q: Path | q < p ensures MapOrAbsent(At(Some(b), q)) && (At(Some(t), q).Some? <==> At(Some(b), q).Some?) {
      assert q == [];
    }
    forall q: Path | !Comparable(q, p) && !Comparable(q, NoteOf(p)) ensures At(Some(b), q) == At(Some(t), q) {
      if q != [] {
        FirstDiffers(q, p[0]);
        FirstDiffers(q, Patch.Note(p[0]));
      }
    }
  }

  lemma NoteBelow(p: Path)
    requires |p| > 1
    ensures NoteOf(p) == [p[0]] + NoteOf(p[1..]) && NoteOf(p)[0] == p[0] && NoteOf(p)[1..] == NoteOf(p[1..])
  {
  }

  lemma GoneBelow(t: Tree, was: Tree, now: Tree, p: Path)
    requires |p| > 1 && t.TMap? && p[0] in t.m && t.m[p[0]] == was
    requires Gone(was, now, p[1..])
    ensures Gone(t, TMap(t.m[p[0] := now]), p)
  {
    hide NoteOf;
    NoteBelow(p);
    var b := TMap(t.m[p[0] := now]);
    forall q: Path | !Comparable(q, p) && !Comparable(q, NoteOf(p)) ensures At(Some(b), q) == At(Some(t), q) {
      if q[0] == p[0] {
        ComparableBelow(q, p);
        ComparableBelow(q, NoteOf(p));
      }
    }
    forall q: Path | q < p
      ensures MapOrAbsent(At(Some(b), q)) && (At(Some(t), q).Some? <==> At(Some(b), q).Some?)
    {
      if q != [] { assert q[0] == p[0] && q[1..] < p[1..]; }
    }
  }

  lemma ComparableBelow(q: Path, p: Path)
    requires q != [] && p != [] && q[0] == p[0]
    ensures Comparable(q, p) <==> Comparable(q[1..], p[1..])
  {
    assert q == [q[0]] + q[1..] && p == [p[0]] + p[1..];
  }

  lemma NothingThere(t: Tree, p: Path)
    requires |p| > 1 && t.TMap? && p[0] !in t.m && !Blocked(Some(t), p)
    ensures Gone(t, t, p)
  {
    NoteBelow(p);
    NowhereBelow(p[1..]);
    NowhereBelow(NoteOf(p)[1..]);
  }

  /** The clauses of `Gone` leave no choice. */
  lemma {:induction false} GoneOnce(t: Tree, b: Tree, c: Tree, p: Path)
    requires p != [] && Gone(t, b, p) && Gone(t, c, p)
    ensures b == c
    decreases |p|
  {
    hide Gone;
    GoneFromMap(t, b, p);
    GoneFromMap(t, c, p);
    if |p| > 1 && Child(Some(t), p[0]).Some? {
      GoneUnder(t, b, p);
      GoneUnder(t, c, p);
      GoneOnce(t.m[p[0]], b.m[p[0]], c.m[p[0]], p[1..]);
    }
    assert forall k :: Get(b.m, k) == Get(c.m, k);
    assert forall k :: k in b.m <==> Get(b.m, k).Some?;
    assert forall k :: k in c.m <==> Get(c.m, k).Some?;
    assert b.m == c.m;
  }

  /** What is left is a map, and all its keys but one or two are known. */
  lemma GoneFromMap(t: Tree, b: Tree, p: Path)
    requires p != [] && Gone(t, b, p)
    ensures b.TMap?
    ensures forall k :: k != p[0] && (|p| == 1 ==> k != Patch.Note(p[0])) ==> Get(b.m, k) == Child(Some(t), k)
    ensures |p| == 1 ==> p[0] !in b.m && Patch.Note(p[0]) !in b.m
    ensures |p| > 1 && Child(Some(t), p[0]).None? ==> p[0] !in b.m
  {
    assert [] < p && At(Some(b), []) == Some(b) && At(Some(t), []) == Some(t);
    if |p| > 1 { NoteBelow(p); }
    forall k | k != p[0] && (|p| == 1 ==> k != Patch.Note(p[0])) ensures Get(b.m, k) == Child(Some(t), k) {
      assert !Comparable([k], p) && !Comparable([k], NoteOf(p));
      assert At(Some(b), [k]) == Child(Some(b), k) && At(Some(t), [k]) == Child(Some(t), k);
    }
    assert At(Some(b), [p[0]]) == Child(Some(b), p[0]) && At(Some(t), [p[0]]) == Child(Some(t), p[0]);
    if |p| == 1 {
      assert p == [p[0]] && NoteOf(p) == [Patch.Note(p[0])];
      assert At(Some(b), NoteOf(p)) == Child(Some(b), Patch.Note(p[0]));
    } else {
      assert [p[0]] < p;
    }
  }

  lemma GoneUnder(t: Tree, b: Tree, p: Path)
    requires |p| > 1 && Gone(t, b, p) && b.TMap? && Child(Some(t), p[0]).Some?
    ensures p[0] in b.m && Gone(t.m[p[0]], b.m[p[0]], p[1..])
  {
    hide NoteOf;
    NoteBelow(p);
    var k := p[0];
    assert [k] < p && At(Some(b), [k]) == Child(Some(b), k) && At(Some(t), [k]) == Child(Some(t), k);
    forall q: Path ensures At(Some(b), [k] + q) == At(Some(b.m[k]), q) && At(Some(t), [k] + q) == At(Some(t.m[k]), q) {
      assert ([k] + q)[1..] == q;
    }
    forall q: Path | !Comparable(q, p[1..]) && !Comparable(q, NoteOf(p)[1..])
      ensures At(Some(b.m[k]), q) == At(Some(t.m[k]), q)
    {
      ComparableBelow([k] + q, p);
      ComparableBelow([k] + q, NoteOf(p));
      assert ([k] + q)[1..] == q;
    }
    forall q: Path | q < p[1..]
      ensures MapOrAbsent(At(Some(b.m[k]), q)) && (At(Some(t.m[k]), q).Some? <==> At(Some(b.m[k]), q).Some?)
    {
      assert [k] + q < p;
    }
  }

  lemma {:induction false} BlockedStep(t: Option<Tree>, k: string, rest: Path)
    requires MapOrAbsent(t)
    ensures Blocked(t, [k] + rest) <==> Blocked(Child(t, k), rest)
  {
    if Blocked(t, [k] + rest) {
      var q: Path :| q < [k] + rest && !MapOrAbsent(At(t, q));
      assert q != [];
      assert q[1..] < rest && At(t, q) == At(Child(t, k), q[1..]);
    }
    if Blocked(Child(t, k), rest) {
      var q: Path :| q < rest && !MapOrAbsent(At(Child(t, k), q));
      assert ([k] + q)[1..] == q;
      assert [k] + q < [k] + rest && !MapOrAbsent(At(t, [k] + q));
    }
  }

  lemma BlockedHere(t: Option<Tree>, prefix: Path)
    requires !MapOrAbsent(t) && prefix != []
    ensures Blocked(t, prefix)
  {
    assert [] < prefix && !MapOrAbsent(At(t, []));
  }

  /** Splicing reports exactly what changed below the splice. */
  lemma {:induction false} PutAtExact(t: Option<Tree>, base: Path, p: Path, v: Tree, us: seq<Touched>)
    requires !Blocked(t, p)
    requires Exact(At(t, p), Some(v), base + p, us)
    ensures Exact(t, Some(PutAt(t, p, v)), base, us)
    decreases |p|
  {
    hide Exact;
    if p == [] {
      assert base + p == base;
    } else {
      var k := p[0];
      assert p == [k] + p[1..];
      assert base + p == (base + [k]) + p[1..];
      if t.Some? && !t.value.TMap? {
        BlockedHere(t, p);
      }
      var m := if t.Some? then t.value.m else map[];
      BlockedStep(t, k, p[1..]);
      assert Child(t, k) == Get(m, k);
      PutAtExact(Get(m, k), base + [k], p[1..], v, us);
      var inner := Some(PutAt(Get(m, k), p[1..], v));
      Lift(m, base, k, inner, us);
      if t.None? {
        ExactEmpty(None, inner, base + [k], us);
        Materialise(None, TMap(Put(m, k, inner)), base, us);
      }
    }
  }

  // ---------------------------------------------------------------- descent

  /** `descend`: what is at a path, or `InvalidPath` where the way is barred. */
  method Descend(doc: Value, path: Path) returns (r: Result<Option<Value>>)
    requires WF(doc)
    ensures r.InvalidPath? <==> Blocked(Some(Meaning(doc)), path)
    ensures r.Ok? ==> r.value == Fetch(Some(doc), path) && Patch.MeaningOf(r.value) == At(Some(Meaning(doc)), path)
    ensures r.Ok? && r.value.Some? ==> WF(r.value.value)
  {
    var cur := doc;
    for i := 0 to |path|
      invariant WF(cur)
      invariant At(Some(Meaning(doc)), path) == At(Some(Meaning(cur)), path[i..])
      invariant Fetch(Some(doc), path) == Fetch(Some(cur), path[i..])
      invariant Blocked(Some(Meaning(doc)), path) <==> Blocked(Some(Meaning(cur)), path[i..])
    {
      assert path[i..] == [path[i]] + path[i + 1..];
      if !cur.Obj? {
        BlockedHere(Some(Meaning(cur)), path[i..]);
        return InvalidPath;
      }
      BlockedStep(Some(Meaning(cur)), path[i], path[i + 1..]);
      Patch.FindKept(cur.fields, path[i]);
      match Find(cur.fields, path[i])
      case Some(v) => cur := v;
      case None =>
        NowhereBelow(path[i + 1..]);
        NothingBlocks(path[i + 1..]);
        FetchNothing(path[i + 1..]);
        return Ok(None);
    }
    assert path[|path|..] == [];
    return Ok(Some(cur));
  }

  lemma NothingBlocks(p: Path)
    ensures !Blocked(None, p)
  {
    forall q: Path ensures At(None, q) == None { NowhereBelow(q); }
  }

  /** `descend_creating` and the insert it is for. */
  method Splice(doc: Value, path: Path, v: Value) returns (r: Result<Value>)
    requires WF(doc) && WF(v) && path != []
    ensures r.InvalidPath? <==> Blocked(Some(Meaning(doc)), path)
    ensures r.Ok? ==> WF(r.value) && Meaning(r.value) == PutAt(Some(Meaning(doc)), path, Meaning(v))
    ensures r.Ok? && (Fetch(Some(doc), path).Some? ==> InOrder(Fetch(Some(doc), path).value, v)) ==> InOrder(doc, r.value)
    ensures r.Ok? ==> Fetch(Some(r.value), path) == Some(v) && KeptAbove(Some(doc), r.value, path)
    decreases |path|
  {
    hide InOrder, KeptAbove;
    if !doc.Obj? {
      BlockedHere(Some(Meaning(doc)), path);
      return InvalidPath;
    }
    var k := path[0];
    assert path == [k] + path[1..];
    BlockedStep(Some(Meaning(doc)), k, path[1..]);
    Patch.FindKept(doc.fields, k);
    var inner := v;
    if |path| > 1 {
      var here := Find(doc.fields, k);
      var child := if here.Some? then here.value else Obj([]);
      var s := Splice(child, path[1..], v);
      if here.None? {
        NothingBlocks(path[1..]);
        EmptyBlocksNothing(path[1..]);
      }
      if s.InvalidPath? { return InvalidPath; }
      inner := s.value;
      if here.None? { KeptFromNothing(inner, path[1..]); }
    } else {
      assert path[1..] == [];
      assert !Blocked(Child(Some(Meaning(doc)), k), []);
      KeptHere(Find(doc.fields, k), v);
    }
    InsertWF(doc.fields, k, inner);
    InsertMeans(doc.fields, k, inner);
    InsertFind(doc.fields, k, inner, k);
    assert Fetch(Some(doc), path) == Fetch(Find(doc.fields, k), path[1..]);
    if Fetch(Some(doc), path).Some? ==> InOrder(Fetch(Some(doc), path).value, v) {
      InsertInOrder(doc.fields, k, inner);
    }
    KeptByInsert(doc.fields, path, inner);
    return Ok(Obj(Insert(doc.fields, k, inner)));
  }

  lemma EmptyBlocksNothing(p: Path)
    ensures !Blocked(Some(TMap(map[])), p)
  {
    forall q: Path ensures MapOrAbsent(At(Some(TMap(map[])), q)) {
      if q != [] { NowhereBelow(q[1..]); }
    }
  }

  // ---------------------------------------------------------------- the three writes

  /** `replace`: the subtree wholesale, missing maps created. */
  method Replace(doc: Value, prefix: Path, subtree: Value) returns (r: Result<(Value, seq<Touched>)>)
    requires WF(doc) && WF(subtree)
    ensures r.InvalidPath? <==> Blocked(Some(Meaning(doc)), prefix)
    ensures r.Ok? ==>
              && WF(r.value.0)
              && Meaning(r.value.0) == PutAt(Some(Meaning(doc)), prefix, Meaning(subtree))
              && Exact(Some(Meaning(doc)), Some(Meaning(r.value.0)), [], r.value.1)
              && Fetch(Some(r.value.0), prefix) == Some(subtree) && KeptAbove(Some(doc), r.value.0, prefix)
              && ((Fetch(Some(doc), prefix).Some? ==> InOrder(Fetch(Some(doc), prefix).value, subtree)) ==> InOrder(doc, r.value.0))
  {
    hide Exact, InOrder, KeptAbove;
    var touched;
    if prefix == [] {
      touched := Diff.DiffAt(doc, subtree, []);
      KeptHere(Some(doc), subtree);
      return Ok((subtree, touched));
    }
    var placed := Splice(doc, prefix, subtree);
    if placed.InvalidPath? { return InvalidPath; }
    var was := Descend(doc, prefix);
    assert [] + prefix == prefix;
    if was.value.Some? {
      touched := Diff.DiffAt(was.value.value, subtree, prefix);
    } else {
      touched := Diff.DiffAt(Obj([]), subtree, prefix);
      ExactEmpty(Some(TMap(map[])), Some(Meaning(subtree)), prefix, touched);
      if touched == [] {
        touched := [Touched(prefix, Set)];
        ExactHere(None, Some(Meaning(subtree)), prefix);
      } else {
        Materialise(None, Meaning(subtree), prefix, touched);
      }
    }
    PutAtExact(Some(Meaning(doc)), [], prefix, Meaning(subtree), touched);
    return Ok((placed.value, touched));
  }

  /** `merge`: a patch applied at the prefix. A merge that writes nothing mutates nothing. */
  method Merge(doc: Value, prefix: Path, patch: Value) returns (r: Result<(Value, seq<Touched>)>)
    requires WF(doc) && WF(patch)
    ensures r.InvalidPath? <==> Blocked(Some(Meaning(doc)), prefix)
    ensures r.Ok? ==>
              && WF(r.value.0)
              && Meaning(r.value.0) == MergedInto(Meaning(doc), prefix, Meaning(patch))
              && Exact(Some(Meaning(doc)), Some(Meaning(r.value.0)), [], r.value.1)
              && InOrder(doc, r.value.0)
              && Unaltered(Some(doc), Some(r.value.0), [], r.value.1)
    ensures r.Ok? && patch.Obj? && (prefix == [] ==> doc.Obj?) ==>
              MergeLands(Meaning(doc), Meaning(r.value.0), prefix, Meaning(patch))
  {
    hide Exact, Patch.Applied, InOrder, Unaltered, KeptAbove, MergeLands, Ordered;
    if patch.Obj? && (prefix == [] ==> doc.Obj?) { MergedLands(Meaning(doc), prefix, Meaning(patch)); }
    if prefix == [] {
      var out, touched := Patch.ApplyObj(doc, patch, []);
      return Ok((out, touched));
    }
    var existing := Descend(doc, prefix);
    if existing.InvalidPath? { return InvalidPath; }
    var now, touched := MergeHere(existing.value, patch, prefix);
    ghost var t := Some(Meaning(doc));
    ExactEmpty(At(t, prefix), Patch.MeaningOf(now), prefix, touched);
    if touched == [] {
      ExactSame(t, []);
      if now.Some? {
        PutBack(t, prefix);
      }
      InOrderSame(doc);
      UnalteredSame(Some(doc), []);
      return Ok((doc, []));
    }
    var placed := Splice(doc, prefix, now.value);
    assert [] + prefix == prefix;
    Patch.ExactBelow(At(t, prefix), Patch.MeaningOf(now), prefix, touched);
    UnalteredAbove(Some(doc), placed.value, [], prefix, touched);
    PutAtExact(t, [], prefix, Meaning(now.value), touched);
    return Ok((placed.value, touched));
  }

  /** The subtree a merge writes at its prefix. */
  method MergeHere(here: Option<Value>, patch: Value, prefix: Path) returns (now: Option<Value>, touched: seq<Touched>)
    requires here.Some? ==> WF(here.value)
    requires WF(patch)
    ensures now.Some? ==> WF(now.value)
    ensures Patch.MeaningOf(now) == MergedAt(Patch.MeaningOf(here), Meaning(patch))
    ensures Exact(Patch.MeaningOf(here), Patch.MeaningOf(now), prefix, touched)
    ensures touched != [] ==> now.Some?
    ensures here.Some? && now.Some? ==> InOrder(here.value, now.value)
    ensures Unaltered(here, now, prefix, touched)
  {
    hide Exact, Patch.Applied, InOrder, Unaltered;
    var isMap := here.Some? && here.value.Obj?;
    var scratch;
    scratch, touched := Patch.ApplyObj(if isMap then here.value else Obj([]), patch, prefix);
    now := Some(scratch);
    if !isMap {
      if here.Some? { NotMaps(here.value, scratch); }
      ExactEmpty(Some(TMap(map[])), Some(Meaning(scratch)), prefix, touched);
      if touched != [] {
        Patch.ExactBelow(Some(TMap(map[])), Some(Meaning(scratch)), prefix, touched);
        UnalteredMade(here, scratch, prefix, touched);
        Materialise(Patch.MeaningOf(here), Meaning(scratch), prefix, touched);
      } else if here.Some? {
        touched := [Touched(prefix, Set)];
        TouchedHere(here, Some(scratch), prefix, Set);
        ExactHere(Patch.MeaningOf(here), Some(Meaning(scratch)), prefix);
      } else {
        now := None;
        ExactSame(None, prefix);
        UnalteredSame(None, prefix);
      }
    }
  }

  /** The whole document after a merge at a prefix. */
  function MergedInto(t: Tree, prefix: Path, patch: Tree): Tree {
    if prefix == [] then
      if t.TMap? && patch.TMap? then TMap(Patch.Applied(t.m, patch)) else t
    else
      var r := MergedAt(At(Some(t), prefix), patch);
      if r.Some? then PutAt(Some(t), prefix, r.value) else t
  }

  /** What a merge leaves at its prefix: the patch applied to the map that is there, or to an
      empty one in place of anything else; and no map where there was nothing to write. */
  ghost predicate MergeLands(before: Tree, after: Tree, prefix: Path, patch: Tree)
    requires patch.TMap?
  {
    var was, now := At(Some(before), prefix), At(Some(after), prefix);
    && (was.Some? && was.value.TMap? ==> now == Some(TMap(Patch.Applied(was.value.m, patch))))
    && (was.Some? && !was.value.TMap? ==> now == Some(TMap(Patch.Applied(map[], patch))))
    && (was.None? && Patch.Applied(map[], patch) != map[] ==> now == Some(TMap(Patch.Applied(map[], patch))))
    && (was.None? && Patch.Applied(map[], patch) == map[] ==> after == before)
  }

  lemma {:induction false} PutThere(t: Option<Tree>, p: Path, v: Tree)
    ensures At(Some(PutAt(t, p, v)), p) == Some(v)
    decreases |p|
  {
    if p != [] {
      var m := if t.Some? && t.value.TMap? then t.value.m else map[];
      PutThere(Get(m, p[0]), p[1..], v);
    }
  }

  lemma MergedLands(t: Tree, prefix: Path, patch: Tree)
    requires patch.TMap? && (prefix == [] ==> t.TMap?)
    ensures MergeLands(t, MergedInto(t, prefix, patch), prefix, patch)
  {
    hide Patch.Applied;
    if prefix != [] {
      var r := MergedAt(At(Some(t), prefix), patch);
      if r.Some? { PutThere(Some(t), prefix, r.value); }
    }
  }

  lemma {:induction false} PutBack(t: Option<Tree>, p: Path)
    requires At(t, p).Some?
    ensures Some(PutAt(t, p, At(t, p).value)) == t
    decreases |p|
  {
    if p != [] {
      assert Child(t, p[0]).Some? by { NowhereBelow(p[1..]); }
      PutBack(Child(t, p[0]), p[1..]);
      assert t.value.m[p[0] := t.value.m[p[0]]] == t.value.m;
    }
  }

  /** `remove`: what is at the prefix, and its note; a no-op when neither is there. */
  method Remove(doc: Value, prefix: Path) returns (r: Result<(Value, seq<Touched>)>)
    requires WF(doc)
    ensures r.InvalidPath? <==> Blocked(Some(Meaning(doc)), prefix)
    ensures r.Ok? ==> Removed(Meaning(doc), Meaning(r.value.0), prefix)
    ensures r.Ok? ==>
              && WF(r.value.0)
              && Meaning(r.value.0) == Without(Meaning(doc), prefix)
              && Exact(Some(Meaning(doc)), Some(Meaning(r.value.0)), [], r.value.1)
              && InOrder(doc, r.value.0)
              && Unaltered(Some(doc), Some(r.value.0), [], r.value.1)
  {
    hide Exact, Unaltered, Gone;
    if prefix == [] {
      var touched := Diff.DiffAt(doc, Obj([]), []);
      EmptiedUnaltered(doc, touched);
      return Ok((Obj([]), touched));
    }
    r := RemoveBelow(doc, prefix, []);
    if r.Ok? { RemovedIffWithout(Meaning(doc), prefix, Meaning(r.value.0)); }
  }

  /** `remove` from a map on the way to the prefix, `base` being where it sits. */
  method RemoveBelow(doc: Value, p: Path, base: Path) returns (r: Result<(Value, seq<Touched>)>)
    requires WF(doc) && p != []
    ensures r.InvalidPath? <==> Blocked(Some(Meaning(doc)), p)
    ensures r.Ok? ==>
              && WF(r.value.0)
              && Meaning(r.value.0) == Without(Meaning(doc), p)
              && Exact(Some(Meaning(doc)), Some(Meaning(r.value.0)), base, r.value.1)
              && InOrder(doc, r.value.0)
              && Unaltered(Some(doc), Some(r.value.0), base, r.value.1)
    decreases |p|
  {
    hide Exact, InOrder, Unaltered;
    if !doc.Obj? {
      BlockedHere(Some(Meaning(doc)), p);
      return InvalidPath;
    }
    var k := p[0];
    assert p == [k] + p[1..];
    BlockedStep(Some(Meaning(doc)), k, p[1..]);
    Patch.FindKept(doc.fields, k);
    ghost var m := Contents(doc.fields);
    if |p| == 1 {
      assert p[1..] == [] && !Blocked(Child(Some(Meaning(doc)), k), []);
      var out, touched := RemoveKey(doc.fields, k, base);
      return Ok((Obj(out), touched));
    }
    match Find(doc.fields, k)
    case None =>
      NothingBlocks(p[1..]);
      ExactSame(Some(Meaning(doc)), base);
      InOrderSame(doc);
      UnalteredSame(Some(doc), base);
      return Ok((doc, []));
    case Some(child) =>
      var s := RemoveBelow(child, p[1..], base + [k]);
      if s.InvalidPath? { return InvalidPath; }
      Lift(m, base, k, Some(Meaning(s.value.0)), s.value.1);
      InsertWF(doc.fields, k, s.value.0);
      InsertMeans(doc.fields, k, s.value.0);
      InsertInOrder(doc.fields, k, s.value.0);
      BelowWritten(doc.fields, base, k, s.value.0, s.value.1);
      return Ok((Obj(Insert(doc.fields, k, s.value.0)), s.value.1));
  }

  /** Looking a path up and forgetting the order commute. */
  lemma {:induction false} FetchMeans(v: Option<Value>, q: Path)
    ensures Patch.MeaningOf(Fetch(v, q)) == At(Patch.MeaningOf(v), q)
    decreases |q|
  {
    if q != [] {
      if v.Some? && v.value.Obj? {
        FindMeans(v.value.fields, q[0]);
        FetchMeans(Find(v.value.fields, q[0]), q[1..]);
      } else {
        NowhereBelow(q[1..]);
      }
    }
  }

  /** Where all is gone, whatever is not reported was not there. */
  lemma GoneUnaltered(here: Option<Value>, base: Path, us: seq<Touched>)
    requires Exact(Patch.MeaningOf(here), None, base, us)
    ensures Unaltered(here, None, base, us)
  {
    hide Sound, Antichain, Leafmost, Answers;
    forall q: Path | !Answers(us, base + q) ensures Fetch(here, q) == Fetch(None, q) {
      assert At(Patch.MeaningOf(here), q) == At(None, q);
      FetchMeans(here, q);
      FetchMeans(None, q);
    }
  }

  lemma EmptiedUnaltered(doc: Value, touched: seq<Touched>)
    requires Exact(Some(Meaning(doc)), Some(TMap(map[])), [], touched)
    ensures Unaltered(Some(doc), Some(Obj([])), [], touched)
  {
    hide Sound, Antichain, Leafmost, Answers, Meaning, Fetch;
    forall q: Path | !Answers(touched, [] + q) ensures Fetch(Some(doc), q) == Fetch(Some(Obj([])), q) {
      SameWhenEmptied(doc, q);
    }
  }

  lemma SameWhenEmptied(doc: Value, q: Path)
    ensures At(Some(Meaning(doc)), q) == At(Some(TMap(map[])), q) ==> Fetch(Some(doc), q) == Fetch(Some(Obj([])), q)
  {
    hide Meaning;
    if At(Some(Meaning(doc)), q) == At(Some(TMap(map[])), q) {
      if q == [] {
        OnlyTheEmptyMap(doc);
      } else {
        FetchMeans(Some(doc), q);
        NowhereBelow(q[1..]);
        FetchFromEmpty(q);
      }
    }
  }

  lemma HoldsSomething(fs: seq<Field>)
    ensures fs != [] ==> fs[0].key in Contents(fs)
  {
  }

  lemma OnlyTheEmptyMap(doc: Value)
    requires Meaning(doc) == TMap(map[])
    ensures doc == Obj([])
  {
    HoldsSomething(FieldsAt(Some(doc)));
  }

  /** A key taken out: the rest is as it was. */
  lemma KeyGone(fs: seq<Field>, cur: seq<Field>, base: Path, ts: seq<Touched>, k: string, us: seq<Touched>)
    requires WFFields(cur) && Unaltered(Some(Obj(fs)), Some(Obj(cur)), base, ts) && Find(cur, k) == Find(fs, k)
    requires Exact(Get(Contents(cur), k), None, base + [k], us) && forall t :: t in ts ==> base <= t.path
    ensures Unaltered(Some(Obj(fs)), Some(Obj(Values.Remove(cur, k))), base, ts + us)
  {
    hide Exact, Unaltered, Find, WFFields, Values.Remove;
    Patch.FindKept(cur, k);
    GoneUnaltered(Find(cur, k), base + [k], us);
    Patch.ExactBelow(Get(Contents(cur), k), None, base + [k], us);
    Patch.BelowParent(base, k, us);
    UnalteredWrite(fs, cur, base, ts, k, None, us);
  }

  lemma KeyAndNoteGone(fs: seq<Field>, k: string, base: Path, ts: seq<Touched>, own: seq<Touched>)
    requires WFFields(fs)
    requires Exact(Get(Contents(fs), Patch.Note(k)), None, base + [Patch.Note(k)], ts)
    requires Exact(Get(Contents(Values.Remove(fs, Patch.Note(k))), k), None, base + [k], own)
    ensures Unaltered(Some(Obj(fs)), Some(Obj(Values.Remove(Values.Remove(fs, Patch.Note(k)), k))), base, ts + own)
  {
    hide Exact, Unaltered, Find, WFFields, Values.Remove, Contents, Patch.Note;
    var note := Patch.Note(k);
    Patch.NoteUnique(k);
    UnalteredSame(Some(Obj(fs)), base);
    KeyGone(fs, fs, base, [], note, ts);
    assert [] + ts == ts;
    RemoveWF(fs, note);
    RemoveFind(fs, note, k);
    Patch.ExactBelow(Get(Contents(fs), note), None, base + [note], ts);
    Patch.BelowParent(base, note, ts);
    KeyGone(fs, Values.Remove(fs, note), base, ts, k, own);
  }

  /** A key's value edited below. */
  lemma BelowWritten(fs: seq<Field>, base: Path, k: string, now: Value, us: seq<Touched>)
    requires WFFields(fs) && Find(fs, k).Some? && Unaltered(Find(fs, k), Some(now), base + [k], us)
    requires Exact(Patch.MeaningOf(Find(fs, k)), Some(Meaning(now)), base + [k], us)
    ensures Unaltered(Some(Obj(fs)), Some(Obj(Insert(fs, k, now))), base, us)
  {
    hide Exact, Unaltered, Find, WFFields, Insert;
    UnalteredSame(Some(Obj(fs)), base);
    Patch.ExactBelow(Patch.MeaningOf(Find(fs, k)), Some(Meaning(now)), base + [k], us);
    Patch.BelowParent(base, k, us);
    UnalteredWrite(fs, fs, base, [], k, Some(now), us);
    assert [] + us == us;
  }

  /** A key and its note, out of the map that holds them. */
  method RemoveKey(fields: seq<Field>, k: string, base: Path) returns (out: seq<Field>, touched: seq<Touched>)
    requires WFFields(fields)
    ensures WFFields(out)
    ensures Contents(out) == Contents(fields) - {k, Patch.Note(k)}
    ensures Exact(Some(TMap(Contents(fields))), Some(TMap(Contents(out))), base, touched)
    ensures InOrder(Obj(fields), Obj(out))
    ensures Unaltered(Some(Obj(fields)), Some(Obj(out)), base, touched)
  {
    hide Exact, InOrder, Unaltered, Values.Remove, WFFields, Find, Contents, Patch.Note;
    var note := Patch.Note(k);
    RemoveInOrder(fields, note, k) by { Patch.NoteUnique(k); }
    Patch.NoteUnique(k);
    ghost var m := Contents(fields);
    touched := [];
    out := Values.Remove(fields, note);
    RemoveWF(fields, note);
    RemoveMeans(fields, note);
    FindMeans(fields, note);
    if Find(fields, note).Some? {
      touched := [Touched(base + [note], Delete)];
      ExactHere(Get(m, note), None, base + [note]);
    } else {
      ExactSame(None, base + [note]);
    }
    ExactSame(Some(TMap(m)), base);
    Extend(m, m, base, {}, [], note, None, touched);
    assert [] + touched == touched && {} + {note} == {note};
    var own := OwnTouched(out, k, base);
    KeyAndNoteGone(fields, k, base, touched, own);
    FindMeans(out, k);
    assert Get(Contents(out), k) == Get(m, k);
    Extend(m, Contents(out), base, {note}, touched, k, None, own);
    RemoveWF(out, k);
    RemoveMeans(out, k);
    out := Values.Remove(out, k);
    touched := touched + own;
  }

  /** What removing a key reports: a map's own keys, or the key when it holds none. */
  method OwnTouched(fields: seq<Field>, k: string, base: Path) returns (own: seq<Touched>)
    requires WFFields(fields)
    ensures Exact(Get(Contents(fields), k), None, base + [k], own)
  {
    hide Exact;
    Patch.FindKept(fields, k);
    match Find(fields, k)
    case None =>
      ExactSame(None, base + [k]);
      own := [];
    case Some(v) =>
      ExactHere(Some(Meaning(v)), None, base + [k]);
      own := [Touched(base + [k], Delete)];
      if v.Obj? {
        var below := Diff.DiffAt(v, Obj([]), base + [k]);
        if below != [] {
          Vanish(Contents(v.fields), base + [k], below);
          own := below;
        }
      }
  }

  /** Emptying a map and removing it report the same, once there was anything in it. */
  lemma Vanish(m: map<string, Tree>, base: Path, us: seq<Touched>)
    requires Exact(Some(TMap(m)), Some(TMap(map[])), base, us) && us != []
    requires forall t :: t in us ==> base < t.path
    ensures Exact(Some(TMap(m)), None, base, us)
  {
    var o, e := Some(TMap(m)), Some(TMap(map[]));
    forall q: Path | q != [] ensures At(None, q) == None == At(e, q) {
      NowhereBelow(q[1..]);
    }
    assert us[0] in us && Comparable(us[0].path, base + []);
    assert Answers(us, base + []);
    forall q: Path | !Answers(us, base + q) ensures At(o, q) == At(None, q) {
      assert q != [];
      assert At(o, q) == At(e, q);
    }
  }
}
