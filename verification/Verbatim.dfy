/** Parts of a stored document that an edit leaves exactly as they were: the value itself, the
    order of its keys included, inside lists too. */
module Verbatim {
  import opened Values
  import opened TouchedPaths
  import opened KeyOrder

  /** What is at a path of the ordered document, through maps only. */
  function Fetch(doc: Option<Value>, path: Path): Option<Value>
    decreases |path|
  {
    if path == [] then doc
    else if doc.Some? && doc.value.Obj? then Fetch(Find(doc.value.fields, path[0]), path[1..])
    else None
  }

  lemma {:induction false} FetchNothing(path: Path)
    ensures Fetch(None, path) == None
  {
  }

  lemma {:induction false} FetchFromEmpty(path: Path)
    requires path != []
    ensures Fetch(Some(Obj([])), path) == None
  {
    FetchNothing(path[1..]);
  }

  function FieldsAt(doc: Option<Value>): seq<Field> {
    if doc.Some? && doc.value.Obj? then doc.value.fields else []
  }

  lemma FetchStep(doc: Option<Value>, path: Path)
    requires path != []
    ensures Fetch(doc, path) == Fetch(Find(FieldsAt(doc), path[0]), path[1..])
  {
    FetchNothing(path[1..]);
  }

  // ---------------------------------------------------------------- beside a path

  /** Everything beside a path is as it was: in every map on the way the other keys hold the
      same values, and those that were there are in their order. */
  ghost predicate KeptAbove(doc: Option<Value>, out: Value, path: Path)
    decreases |path|
  {
    path == [] ||
    (&& out.Obj?
     && Ordered(FieldsAt(doc), out.fields)
     && (forall k :: k != path[0] ==> Find(out.fields, k) == Find(FieldsAt(doc), k))
     && Find(out.fields, path[0]).Some?
     && KeptAbove(Find(FieldsAt(doc), path[0]), Find(out.fields, path[0]).value, path[1..]))
  }

  lemma KeptHere(doc: Option<Value>, out: Value)
    ensures KeptAbove(doc, out, [])
  {
  }

  /** Nothing there is as good as an empty map. */
  lemma KeptFromNothing(out: Value, path: Path)
    requires KeptAbove(Some(Obj([])), out, path)
    ensures KeptAbove(None, out, path)
  {
  }

  /** One map on the way: a key inserted, or its value replaced where it stands. */
  lemma KeptByInsert(fs: seq<Field>, path: Path, v: Value)
    requires WFFields(fs) && path != [] && KeptAbove(Find(fs, path[0]), v, path[1..])
    ensures KeptAbove(Some(Obj(fs)), Obj(Insert(fs, path[0], v)), path)
  {
    hide WFFields, Find, Insert;
    var k := path[0];
    OrderedSame(fs);
    OrderedWrite(fs, fs, k, Some(v));
    forall j ensures Find(Insert(fs, k, v), j) == if j == k then Some(v) else Find(fs, j) { InsertFind(fs, k, v, j); }
  }

  lemma OrderedSame(fs: seq<Field>)
    requires WFFields(fs)
    ensures Ordered(fs, fs)
  {
    hide InOrder;
    MapOf(fs);
    InOrderSame(Obj(fs));
    OrderOf(fs, fs);
  }

  // ---------------------------------------------------------------- away from the touched paths

  /** Wherever no touched path answers, the two documents hold the very same value. */
  ghost predicate Unaltered(a: Option<Value>, b: Option<Value>, base: Path, touched: seq<Touched>) {
    forall q: Path :: !Answers(touched, base + q) ==> Fetch(a, q) == Fetch(b, q)
  }

  lemma UnalteredSame(a: Option<Value>, base: Path)
    ensures Unaltered(a, a, base, [])
  {
  }

  /** Nothing reported, nothing changed. */
  lemma NothingTouched(a: Option<Value>, b: Option<Value>, base: Path)
    requires Unaltered(a, b, base, [])
    ensures a == b
  {
    assert !Answers([], base + []);
    assert Fetch(a, []) == Fetch(b, []);
  }

  /** Reported at the path itself, anything may have changed. */
  lemma TouchedHere(a: Option<Value>, b: Option<Value>, base: Path, op: Op)
    ensures Unaltered(a, b, base, [Touched(base, op)])
  {
    forall q: Path ensures Answers([Touched(base, op)], base + q) {
      assert [Touched(base, op)][0] in [Touched(base, op)] && Comparable(base, base + q);
    }
  }

  /** Paths below a base do not answer for the base only when there are none. */
  lemma AnsweredAtBase(base: Path, ts: seq<Touched>)
    requires forall t :: t in ts ==> base <= t.path
    ensures !Answers(ts, base) ==> ts == []
  {
    if ts != [] { assert ts[0] in ts && Comparable(ts[0].path, base); }
  }

  lemma WriteFind(fs: seq<Field>, k: string, now: Option<Value>, j: string)
    requires WFFields(fs)
    ensures Find(Write(fs, k, now), j) == if j == k then now else Find(fs, j)
  {
    if now.Some? { InsertFind(fs, k, now.value, j); }
    else if j == k { RemovedGone(fs, k); }
    else { RemoveFind(fs, k, j); }
  }

  /** Writing what is there is writing nothing. */
  lemma {:induction false} WriteSame(fs: seq<Field>, k: string)
    ensures Write(fs, k, Find(fs, k)) == fs
  {
    if fs != [] && fs[0].key != k { WriteSame(fs[1..], k); }
  }

  lemma NothingWritten(fs: seq<Field>, cur: seq<Field>, base: Path, ts: seq<Touched>, k: string, now: Option<Value>, us: seq<Touched>)
    requires Unaltered(Some(Obj(fs)), Some(Obj(cur)), base, ts) && Find(cur, k) == Find(fs, k)
    requires Unaltered(Find(fs, k), now, base + [k], us)
    requires (forall t :: t in ts ==> base <= t.path) && (forall t :: t in us ==> base <= t.path)
    requires !Answers(ts, base) && !Answers(us, base)
    ensures Write(cur, k, now) == cur == fs
  {
    hide Unaltered, Write, Find, Answers;
    AnsweredAtBase(base, ts);
    AnsweredAtBase(base, us);
    NothingTouched(Some(Obj(fs)), Some(Obj(cur)), base);
    NothingTouched(Find(fs, k), now, base + [k]);
    WriteSame(cur, k);
  }

  /** One more key of a map written. */
  lemma UnalteredWrite(fs: seq<Field>, cur: seq<Field>, base: Path, ts: seq<Touched>, k: string, now: Option<Value>, us: seq<Touched>)
    requires WFFields(cur) && Unaltered(Some(Obj(fs)), Some(Obj(cur)), base, ts) && Find(cur, k) == Find(fs, k)
    requires Unaltered(Find(fs, k), now, base + [k], us)
    requires (forall t :: t in ts ==> base <= t.path) && (forall t :: t in us ==> base <= t.path)
    ensures Unaltered(Some(Obj(fs)), Some(Obj(Write(cur, k, now))), base, ts + us)
  {
    hide WFFields, Write, Find, Answers;
    var out := Write(cur, k, now);
    forall q: Path | !Answers(ts + us, base + q) ensures Fetch(Some(Obj(fs)), q) == Fetch(Some(Obj(out)), q) {
      AnswersEither(ts, us, base + q);
      if q == [] {
        assert base + q == base;
        NothingWritten(fs, cur, base, ts, k, now, us);
      } else {
        KeyWritten(fs, cur, base, ts, k, now, us, q);
      }
    }
  }

  lemma KeyWritten(fs: seq<Field>, cur: seq<Field>, base: Path, ts: seq<Touched>, k: string, now: Option<Value>, us: seq<Touched>, q: Path)
    requires WFFields(cur) && Unaltered(Some(Obj(fs)), Some(Obj(cur)), base, ts) && Find(cur, k) == Find(fs, k)
    requires Unaltered(Find(fs, k), now, base + [k], us)
    requires q != [] && !Answers(ts, base + q) && !Answers(us, base + q)
    ensures Fetch(Some(Obj(fs)), q) == Fetch(Some(Obj(Write(cur, k, now))), q)
  {
    hide WFFields, Write, Find, Answers, Fetch;
    var out := Write(cur, k, now);
    WriteFind(cur, k, now, q[0]);
    FetchStep(Some(Obj(fs)), q);
    FetchStep(Some(Obj(cur)), q);
    FetchStep(Some(Obj(out)), q);
    if q[0] == k {
      assert base + q == (base + [k]) + q[1..];
      assert Fetch(Find(fs, k), q[1..]) == Fetch(now, q[1..]);
    } else {
      assert Fetch(Some(Obj(fs)), q) == Fetch(Some(Obj(cur)), q);
    }
  }

  /** A map made where there was none. */
  lemma UnalteredMade(here: Option<Value>, made: Value, base: Path, ts: seq<Touched>)
    requires here.None? || !here.value.Obj?
    requires ts != [] && (forall t :: t in ts ==> base <= t.path) && Unaltered(Some(Obj([])), Some(made), base, ts)
    ensures Unaltered(here, Some(made), base, ts)
  {
    hide Answers;
    forall q: Path | !Answers(ts, base + q) ensures Fetch(here, q) == Fetch(Some(made), q) {
      if q == [] {
        assert base + q == base;
        AnsweredAtBase(base, ts);
      } else {
        FetchFromEmpty(q);
      }
    }
  }

  /** An edit below a path, seen from the whole document. */
  lemma {:induction false} UnalteredAbove(doc: Option<Value>, out: Value, base: Path, path: Path, ts: seq<Touched>)
    requires KeptAbove(doc, out, path) && ts != [] && forall t :: t in ts ==> base + path <= t.path
    requires Unaltered(Fetch(doc, path), Fetch(Some(out), path), base + path, ts)
    ensures Unaltered(doc, Some(out), base, ts)
    decreases |path|
  {
    hide Find, Ordered, Answers;
    if path == [] {
      assert base + path == base;
    } else {
      var k, rest := path[0], path[1..];
      assert base + path == (base + [k]) + rest;
      FetchStep(doc, path);
      FetchStep(Some(out), path);
      var was, now := Find(FieldsAt(doc), k), Find(out.fields, k).value;
      UnalteredAbove(was, now, base + [k], rest, ts);
      forall q: Path | !Answers(ts, base + q) ensures Fetch(doc, q) == Fetch(Some(out), q) {
        if q == [] {
          assert base + q == base;
          AnsweredAtBase(base, ts);
        } else {
          FetchStep(doc, q);
          FetchStep(Some(out), q);
          if q[0] == k { assert base + q == (base + [k]) + q[1..]; }
        }
      }
    }
  }
}
