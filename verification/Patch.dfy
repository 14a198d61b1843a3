/** Merge-patch and structural diff, as the store runs them: loops over ordered maps
    that also collect the touched list. */
module Patch {
  import opened Values
  import opened KeyOrder
  import opened Verbatim
  import opened TouchedPaths

  const COMMENT_SUFFIX := "__"

  function Note(k: string): string {
    k + COMMENT_SUFFIX
  }

  /** `j` is the note of a key the patch deletes, and the patch does not name it. */
  predicate OrphanedNote(patch: map<string, Tree>, j: string) {
    && j !in patch
    && |j| >= 2 && j[|j| - 2..] == COMMENT_SUFFIX
    && j[..|j| - 2] in patch && patch[j[..|j| - 2]].TNull?
  }

  /** What a patch value leaves at a key, from what is there. */
  function Outcome(here: Option<Tree>, v: Tree): Option<Tree>
    decreases v, 2
  {
    if v.TNull? then None
    else if v.TMap? && here.Some? && here.value.TMap? then Some(TMap(Applied(here.value.m, v)))
    else if v.TMap? && v.m != map[] then
      var made := Applied(map[], v);
      if here.Some? || made != map[] then Some(TMap(made)) else None
    else Some(v)
  }

  function AppliedAt(m: map<string, Tree>, patch: Tree, j: string): Option<Tree>
    requires patch.TMap?
    decreases patch, 0
  {
    if j in patch.m then Outcome(Get(m, j), patch.m[j])
    else if OrphanedNote(patch.m, j) then None
    else Get(m, j)
  }

  /** A map with a patch applied: every key on its own. */
  function Applied(m: map<string, Tree>, patch: Tree): map<string, Tree>
    requires patch.TMap?
    decreases patch, 1
  {
    map j | j in m.Keys + patch.m.Keys && AppliedAt(m, patch, j).Some? :: AppliedAt(m, patch, j).value
  }

  lemma AppliedPointwise(m: map<string, Tree>, patch: Tree, r: map<string, Tree>)
    requires patch.TMap?
    requires forall j :: Get(r, j) == AppliedAt(m, patch, j)
    ensures r == Applied(m, patch)
  {
    hide Outcome;
    forall j ensures j in r <==> j in Applied(m, patch) {
      assert Get(r, j) == AppliedAt(m, patch, j);
    }
    forall j | j in r ensures r[j] == Applied(m, patch)[j] {
      assert Get(r, j) == AppliedAt(m, patch, j);
    }
  }

  /** Midway through a patch: the keys in `done` hold what the patch leaves there, the
      others what they held, and the list so far is exact. */
  ghost predicate Midway(m: map<string, Tree>, patch: Tree, base: Path, done: set<string>,
                         cur: map<string, Tree>, ts: seq<Touched>)
    requires patch.TMap?
  {
    && (forall j :: Get(cur, j) == if j in done then AppliedAt(m, patch, j) else Get(m, j))
    && Exact(Some(TMap(m)), Some(TMap(cur)), base, ts)
    && Within(base, done, ts)
  }

  lemma Start(m: map<string, Tree>, patch: Tree, base: Path)
    requires patch.TMap?
    ensures Midway(m, patch, base, {}, m, [])
  {
    ExactSame(Some(TMap(m)), base);
  }

  lemma Pending(m: map<string, Tree>, patch: Tree, base: Path, done: set<string>,
                cur: map<string, Tree>, ts: seq<Touched>, k: string)
    requires patch.TMap? && Midway(m, patch, base, done, cur, ts) && k !in done
    ensures Get(cur, k) == Get(m, k)
  {
  }

  /** One key dealt with: the state and the list both take the step. */
  lemma Step(m: map<string, Tree>, patch: Tree, base: Path, done: set<string>, cur: map<string, Tree>,
             ts: seq<Touched>, k: string, us: seq<Touched>)
    requires patch.TMap? && Midway(m, patch, base, done, cur, ts) && k !in done
    requires Exact(Get(m, k), AppliedAt(m, patch, k), base + [k], us)
    ensures Midway(m, patch, base, done + {k}, Put(cur, k, AppliedAt(m, patch, k)), ts + us)
  {
    Extend(m, cur, base, done, ts, k, AppliedAt(m, patch, k), us);
  }

  lemma NoteUnique(k: string)
    ensures |Note(k)| >= 2 && Note(k)[|Note(k)| - 2..] == COMMENT_SUFFIX && Note(k)[..|Note(k)| - 2] == k
    ensures Note(k) != k
  {
    assert |Note(k)| == |k| + 2;
  }

  function MeaningOf(v: Option<Value>): Option<Tree> {
    if v.Some? then Some(Meaning(v.value)) else None
  }

  lemma WriteMeans(fields: seq<Field>, k: string, v: Option<Value>)
    requires WFFields(fields) && (v.Some? ==> WF(v.value))
    ensures WFFields(Write(fields, k, v))
    ensures Contents(Write(fields, k, v)) == Put(Contents(fields), k, MeaningOf(v))
  {
    if v.Some? {
      InsertWF(fields, k, v.value);
      InsertMeans(fields, k, v.value);
    } else {
      RemoveWF(fields, k);
      RemoveMeans(fields, k);
    }
  }

  /** A key of the patch takes its own note along when it is deleted, unless the
      patch names that note. */
  predicate TakesNote(patch: seq<Field>, x: nat)
    requires x < |patch|
  {
    patch[x].value.Null? && Find(patch, Note(patch[x].key)).None?
  }

  /** The keys dealt with once the patch's keys before `i` have been. */
  ghost function Done(patch: seq<Field>, i: nat): set<string>
    requires i <= |patch|
  {
    if i == 0 then {}
    else Done(patch, i - 1) + {patch[i - 1].key}
         + (if TakesNote(patch, i - 1) then {Note(patch[i - 1].key)} else {})
  }

  lemma {:induction false} DoneBy(patch: seq<Field>, i: nat, j: string) returns (x: nat)
    requires i <= |patch| && j in Done(patch, i)
    ensures x < i
    ensures j == patch[x].key || (j == Note(patch[x].key) && TakesNote(patch, x))
  {
    x := i - 1;
    if j in Done(patch, i - 1) {
      x := DoneBy(patch, i - 1, j);
    }
  }

  lemma {:induction false} DoneHas(patch: seq<Field>, i: nat, x: nat)
    requires x < i <= |patch|
    ensures patch[x].key in Done(patch, i)
    ensures TakesNote(patch, x) ==> Note(patch[x].key) in Done(patch, i)
  {
    if x < i - 1 { DoneHas(patch, i - 1, x); }
  }

  lemma {:induction false} NotYetDone(patch: seq<Field>, i: nat)
    requires WFFields(patch) && i < |patch|
    ensures patch[i].key !in Done(patch, i)
    ensures TakesNote(patch, i) ==> Note(patch[i].key) !in Done(patch, i) + {patch[i].key}
  {
    hide WFFields, Done;
    var k := patch[i].key;
    FindField(patch, i);
    NoteUnique(k);
    if k in Done(patch, i) {
      var x := DoneBy(patch, i, k);
      KeysDiffer(patch, x, i);
    }
    if TakesNote(patch, i) && Note(k) in Done(patch, i) {
      var x := DoneBy(patch, i, Note(k));
      NoteUnique(patch[x].key);
      KeysDiffer(patch, x, i);
      FindField(patch, x);
    }
  }

  lemma Finished(m: map<string, Tree>, patch: seq<Field>, path: Path, cur: map<string, Tree>, ts: seq<Touched>)
    requires WFFields(patch)
    requires Midway(m, Meaning(Obj(patch)), path, Done(patch, |patch|), cur, ts)
    ensures cur == Applied(m, Meaning(Obj(patch)))
    ensures Exact(Some(TMap(m)), Some(TMap(cur)), path, ts)
    ensures forall t :: t in ts ==> path < t.path
  {
    hide Exact, Applied, Outcome;
    var p := Meaning(Obj(patch));
    forall j ensures Get(cur, j) == AppliedAt(m, p, j) {
      if j !in Done(patch, |patch|) {
        NeitherNamedNorOrphaned(patch, j);
      }
    }
    AppliedPointwise(m, p, cur);
  }

  lemma NeitherNamedNorOrphaned(patch: seq<Field>, j: string)
    requires WFFields(patch) && j !in Done(patch, |patch|)
    ensures j !in Contents(patch) && !OrphanedNote(Contents(patch), j)
  {
    hide WFFields, Done;
    FindMeans(patch, j);
    if Find(patch, j).Some? {
      var x := FindIndex(patch, j);
      DoneHas(patch, |patch|, x);
    }
    if OrphanedNote(Contents(patch), j) {
      var k := j[..|j| - 2];
      assert Note(k) == j;
      FindMeans(patch, k);
      var x := FindIndex(patch, k);
      FindField(patch, x);
      DoneHas(patch, |patch|, x);
    }
  }

  lemma ExactBelow(o: Option<Tree>, n: Option<Tree>, base: Path, ts: seq<Touched>)
    requires Exact(o, n, base, ts)
    ensures forall t :: t in ts ==> base <= t.path
  {
    hide Antichain, Complete, Leafmost;
  }

  lemma BelowParent(base: Path, k: string, ts: seq<Touched>)
    requires forall t :: t in ts ==> base + [k] <= t.path
    ensures forall t :: t in ts ==> base <= t.path
  {
    forall t | t in ts ensures base <= t.path { assert t.path[..|base| + 1] == base + [k]; }
  }

  /** One key written: what is not touched is still the same value. */
  lemma StepUnaltered(fs: seq<Field>, patch: Tree, cur: seq<Field>, base: Path, done: set<string>, ts: seq<Touched>,
                      k: string, now: Option<Value>, us: seq<Touched>)
    requires patch.TMap? && WFFields(cur) && Midway(Contents(fs), patch, base, done, Contents(cur), ts)
    requires Unaltered(Some(Obj(fs)), Some(Obj(cur)), base, ts) && Find(cur, k) == Find(fs, k)
    requires Unaltered(Find(cur, k), now, base + [k], us)
    requires exists n :: Exact(MeaningOf(Find(cur, k)), n, base + [k], us)
    ensures Unaltered(Some(Obj(fs)), Some(Obj(Write(cur, k, now))), base, ts + us)
  {
    hide Exact, Unaltered, Write, Find, WFFields, AppliedAt;
    ExactBelow(Some(TMap(Contents(fs))), Some(TMap(Contents(cur))), base, ts);
    var n :| Exact(MeaningOf(Find(cur, k)), n, base + [k], us);
    ExactBelow(MeaningOf(Find(cur, k)), n, base + [k], us);
    BelowParent(base, k, us);
    UnalteredWrite(fs, cur, base, ts, k, now, us);
  }

  /** A note dropped with its key. */
  function NoteList(here: Option<Value>, path: Path): seq<Touched> {
    if here.Some? then [Touched(path, Delete)] else []
  }

  lemma NoteUnaltered(here: Option<Value>, path: Path)
    ensures Unaltered(here, None, path, NoteList(here, path))
  {
    if here.Some? { TouchedHere(here, None, path, Delete); }
  }

  lemma NoteExact(here: Option<Value>, path: Path)
    ensures Exact(MeaningOf(here), None, path, NoteList(here, path))
  {
    hide Exact;
    if here.Some? { ExactHere(MeaningOf(here), None, path); } else { ExactSame(None, path); }
  }

  /** `apply_obj`: what each key of the patch does to the map it is applied to, in the
      patch's order, with the touched list. */
  method ApplyObj(doc: Value, patch: Value, path: Path) returns (out: Value, touched: seq<Touched>)
    requires WF(doc) && WF(patch)
    ensures WF(out)
    ensures doc.Obj? && patch.Obj? ==>
              && out.Obj?
              && Contents(out.fields) == Applied(Contents(doc.fields), Meaning(patch))
              && (forall t :: t in touched ==> path < t.path)
    ensures !(doc.Obj? && patch.Obj?) ==> out == doc && touched == []
    ensures Exact(Some(Meaning(doc)), Some(Meaning(out)), path, touched)
    ensures InOrder(doc, out)
    ensures Unaltered(Some(doc), Some(out), path, touched)
    decreases patch, 0
  {
    hide Exact, Midway, AppliedAt, Outcome, Applied, InOrder, Arranged, Unaltered, Write, Find, Insert, Values.Remove;
    if !doc.Obj? || !patch.Obj? {
      ExactSame(Some(Meaning(doc)), path);
      InOrderSame(doc);
      UnalteredSame(Some(doc), path);
      return doc, [];
    }
    var cur := doc.fields;
    touched := [];
    ghost var m := Contents(doc.fields);
    ghost var p := Meaning(patch);
    Start(m, p, path);
    ArrangedStart(doc.fields);
    UnalteredSame(Some(doc), path);
    for i := 0 to |patch.fields|
      invariant WFFields(cur)
      invariant Midway(m, p, path, Done(patch.fields, i), Contents(cur), touched)
      invariant Arranged(doc.fields, cur, Done(patch.fields, i))
      invariant Unaltered(Some(doc), Some(Obj(cur)), path, touched)
    {
      var k, v := patch.fields[i].key, patch.fields[i].value;
      FindField(patch.fields, i);
      NotYetDone(patch.fields, i);
      ghost var done := Done(patch.fields, i);
      FindKept(cur, k);
      var now, us := ApplyAt(Find(cur, k), v, path + [k]);
      Untouched(doc.fields, cur, done, k);
      ArrangedWrite(doc.fields, cur, done, k, now);
      StepUnaltered(doc.fields, p, cur, path, done, touched, k, now, us);
      StepNamed(m, p, path, done, cur, touched, k, now, us);
      cur, touched, done := Write(cur, k, now), touched + us, done + {k};
      var note := Note(k);
      if TakesNote(patch.fields, i) {
        FindMeans(patch.fields, note);
        NoteOrphaned(p.m, k);
        us := if Find(cur, note).Some? then [Touched(path + [note], Delete)] else [];
        Untouched(doc.fields, cur, done, note);
        NoteUnaltered(Find(cur, note), path + [note]);
        NoteExact(Find(cur, note), path + [note]);
        StepUnaltered(doc.fields, p, cur, path, done, touched, note, None, us);
        ArrangedWrite(doc.fields, cur, done, note, None);
        StepNote(m, p, path, done, cur, touched, note, us);
        cur, touched, done := Write(cur, note, None), touched + us, done + {note};
      }
      assert done == Done(patch.fields, i + 1);
    }
    out := Obj(cur);
    ArrangedEnd(doc.fields, cur, Done(patch.fields, |patch.fields|));
    Finished(m, patch.fields, path, Contents(cur), touched);
  }

  /** One key of the patch: what the map holds there afterwards. */
  method ApplyAt(here: Option<Value>, v: Value, path: Path) returns (now: Option<Value>, touched: seq<Touched>)
    requires here.Some? ==> WF(here.value)
    requires WF(v)
    ensures now.Some? ==> WF(now.value)
    ensures MeaningOf(now) == Outcome(MeaningOf(here), Meaning(v))
    ensures Exact(MeaningOf(here), MeaningOf(now), path, touched)
    ensures here.Some? && now.Some? ==> InOrder(here.value, now.value)
    ensures Unaltered(here, now, path, touched)
    decreases v, 1
  {
    hide Exact, Applied, InOrder, Unaltered;
    now, touched := here, [];
    ExactSame(MeaningOf(here), path);
    UnalteredSame(here, path);
    if here.Some? { InOrderSame(here.value); }
    if v.Null? {
      if here.Some? {
        ExactHere(MeaningOf(here), None, path);
        TouchedHere(here, None, path, Delete);
        now, touched := None, [Touched(path, Delete)];
      }
    } else if v.Obj? && here.Some? && here.value.Obj? {
      var inner;
      inner, touched := ApplyObj(here.value, v, path);
      now := Some(inner);
    } else if v.Obj? && v.fields != [] {
      FindField(v.fields, 0);
      // Applied to an empty map, so that its own deletes do not get stored.
      var scratch, sub := ApplyObj(Obj([]), v, path);
      ExactEmpty(Some(TMap(map[])), Some(Meaning(scratch)), path, sub);
      if here.Some? || sub != [] {
        ExactHere(MeaningOf(here), Some(Meaning(scratch)), path);
        if here.Some? { NotMaps(here.value, scratch); }
        TouchedHere(here, Some(scratch), path, Set);
        now, touched := Some(scratch), [Touched(path, Set)];
      }
    } else {
      if here.Some? { SameIsMeaning(here.value, v); }
      if here.None? || !Same(here.value, v) {
        ExactHere(MeaningOf(here), Some(Meaning(v)), path);
        if here.Some? { NotMaps(here.value, v); }
        TouchedHere(here, Some(v), path, Set);
        now, touched := Some(v), [Touched(path, Set)];
      }
    }
  }

  lemma FindKept(fields: seq<Field>, k: string)
    requires WFFields(fields)
    ensures Find(fields, k).Some? ==> WF(Find(fields, k).value)
    ensures MeaningOf(Find(fields, k)) == Get(Contents(fields), k)
  {
    FindMeans(fields, k);
    if Find(fields, k).Some? { FindWF(fields, k); }
  }

  lemma NoteOrphaned(patch: map<string, Tree>, k: string)
    requires k in patch && patch[k].TNull? && Note(k) !in patch
    ensures OrphanedNote(patch, Note(k))
  {
    NoteUnique(k);
  }

  lemma StepNamed(m: map<string, Tree>, patch: Tree, base: Path, done: set<string>, cur: seq<Field>,
                  ts: seq<Touched>, k: string, now: Option<Value>, us: seq<Touched>)
    requires patch.TMap? && WFFields(cur) && Midway(m, patch, base, done, Contents(cur), ts)
    requires k !in done && k in patch.m
    requires now.Some? ==> WF(now.value)
    requires MeaningOf(now) == Outcome(MeaningOf(Find(cur, k)), patch.m[k])
    requires Exact(MeaningOf(Find(cur, k)), MeaningOf(now), base + [k], us)
    ensures WFFields(Write(cur, k, now))
    ensures Midway(m, patch, base, done + {k}, Contents(Write(cur, k, now)), ts + us)
  {
    hide Exact, Midway, Outcome;
    FindKept(cur, k);
    Pending(m, patch, base, done, Contents(cur), ts, k);
    Step(m, patch, base, done, Contents(cur), ts, k, us);
    WriteMeans(cur, k, now);
  }

  lemma StepNote(m: map<string, Tree>, patch: Tree, base: Path, done: set<string>, cur: seq<Field>,
                 ts: seq<Touched>, note: string, us: seq<Touched>)
    requires patch.TMap? && WFFields(cur) && Midway(m, patch, base, done, Contents(cur), ts)
    requires note !in done && OrphanedNote(patch.m, note)
    requires us == if Find(cur, note).Some? then [Touched(base + [note], Delete)] else []
    ensures WFFields(Write(cur, note, None))
    ensures Midway(m, patch, base, done + {note}, Contents(Write(cur, note, None)), ts + us)
  {
    hide Exact, Midway;
    FindKept(cur, note);
    Pending(m, patch, base, done, Contents(cur), ts, note);
    if Find(cur, note).Some? {
      ExactHere(Get(m, note), None, base + [note]);
    } else {
      ExactSame(None, base + [note]);
    }
    Step(m, patch, base, done, Contents(cur), ts, note, us);
    WriteMeans(cur, note, None);
  }
}
