/** The structural diff that gives a wholesale replace the same touched list. */
module Diff {
  import opened Values
  import opened TouchedPaths

  /** Midway through a diff: `cur` is the old map with the keys in `done` taken from the
      new one, and the list so far is exact for it. */
  ghost predicate Midway(m: map<string, Tree>, n: map<string, Tree>, base: Path, done: set<string>,
                         cur: map<string, Tree>, ts: seq<Touched>) {
    && (forall j :: Get(cur, j) == if j in done then Get(n, j) else Get(m, j))
    && Exact(Some(TMap(m)), Some(TMap(cur)), base, ts)
    && Within(base, done, ts)
  }

  lemma Start(m: map<string, Tree>, n: map<string, Tree>, base: Path)
    ensures Midway(m, n, base, {}, m, [])
  {
    ExactSame(Some(TMap(m)), base);
  }

  lemma Step(m: map<string, Tree>, n: map<string, Tree>, base: Path, done: set<string>,
             cur: map<string, Tree>, ts: seq<Touched>, k: string, us: seq<Touched>)
    requires Midway(m, n, base, done, cur, ts) && k !in done
    requires Exact(Get(m, k), Get(n, k), base + [k], us)
    ensures Midway(m, n, base, done + {k}, Put(cur, k, Get(n, k)), ts + us)
  {
    Extend(m, cur, base, done, ts, k, Get(n, k), us);
  }

  lemma Finish(m: map<string, Tree>, n: map<string, Tree>, base: Path, done: set<string>,
               cur: map<string, Tree>, ts: seq<Touched>)
    requires Midway(m, n, base, done, cur, ts) && m.Keys + n.Keys <= done
    ensures Exact(Some(TMap(m)), Some(TMap(n)), base, ts)
    ensures forall t :: t in ts ==> base < t.path
  {
    hide Exact;
    forall j ensures j in cur <==> j in n { assert Get(cur, j) == Get(n, j); }
    forall j | j in cur ensures cur[j] == n[j] { assert Get(cur, j) == Get(n, j); }
    assert cur == n;
  }

  ghost function KeysTo(fs: seq<Field>, i: nat): set<string>
    requires i <= |fs|
  {
    if i == 0 then {} else KeysTo(fs, i - 1) + {fs[i - 1].key}
  }

  lemma {:induction false} KeysToBy(fs: seq<Field>, i: nat, k: string) returns (x: nat)
    requires i <= |fs| && k in KeysTo(fs, i)
    ensures x < i && fs[x].key == k
  {
    x := i - 1;
    if k in KeysTo(fs, i - 1) { x := KeysToBy(fs, i - 1, k); }
  }

  lemma {:induction false} KeysToHas(fs: seq<Field>, i: nat, x: nat)
    requires x < i <= |fs|
    ensures fs[x].key in KeysTo(fs, i)
  {
    if x < i - 1 { KeysToHas(fs, i - 1, x); }
  }

  lemma NotYetThere(fs: seq<Field>, i: nat)
    requires WFFields(fs) && i < |fs|
    ensures fs[i].key !in KeysTo(fs, i)
  {
    hide WFFields, KeysTo;
    if fs[i].key in KeysTo(fs, i) {
      var x := KeysToBy(fs, i, fs[i].key);
      KeysDiffer(fs, x, i);
    }
  }

  lemma KeysToAll(fs: seq<Field>)
    requires WFFields(fs)
    ensures KeysTo(fs, |fs|) == Contents(fs).Keys
  {
    hide WFFields, KeysTo, Contents;
    forall k ensures k in KeysTo(fs, |fs|) <==> k in Contents(fs) {
      FindMeans(fs, k);
      if k in Contents(fs) {
        var x := FindIndex(fs, k);
        KeysToHas(fs, |fs|, x);
      }
      if k in KeysTo(fs, |fs|) {
        var x := KeysToBy(fs, |fs|, k);
        FindField(fs, x);
      }
    }
  }

  /** `diff_at`: recurses where both sides are maps, reports anything else that differs. */
  method DiffAt(old': Value, new': Value, path: Path) returns (touched: seq<Touched>)
    requires WF(old') && WF(new')
    ensures Exact(Some(Meaning(old')), Some(Meaning(new')), path, touched)
    ensures old'.Obj? && new'.Obj? ==> forall t :: t in touched ==> path < t.path
    decreases new', 1
  {
    hide Exact, Midway;
    if old'.Obj? && new'.Obj? {
      ghost var cur;
      touched, cur := DiffSet(old'.fields, new'.fields, path);
      touched, cur := DiffGone(old'.fields, new'.fields, path, touched, cur);
      Finish(Contents(old'.fields), Contents(new'.fields), path,
             Contents(new'.fields).Keys + Contents(old'.fields).Keys, cur, touched);
    } else {
      SameIsMeaning(old', new');
      if Same(old', new') {
        ExactSame(Some(Meaning(old')), path);
        touched := [];
      } else {
        ExactHere(Some(Meaning(old')), Some(Meaning(new')), path);
        touched := [Touched(path, Set)];
      }
    }
  }

  /** The keys the new map has: set, replaced or the same. */
  method DiffSet(om: seq<Field>, nm: seq<Field>, path: Path) returns (touched: seq<Touched>, ghost cur: map<string, Tree>)
    requires WFFields(om) && WFFields(nm)
    ensures Midway(Contents(om), Contents(nm), path, Contents(nm).Keys, cur, touched)
    decreases nm, 1
  {
    hide Exact, Midway;
    ghost var m, n := Contents(om), Contents(nm);
    touched, cur := [], m;
    Start(m, n, path);
    for i := 0 to |nm|
      invariant Midway(m, n, path, KeysTo(nm, i), cur, touched)
    {
      var k := nm[i].key;
      var us := DiffKey(om, nm, i, path);
      FindField(nm, i);
      NotYetThere(nm, i);
      Step(m, n, path, KeysTo(nm, i), cur, touched, k, us);
      cur, touched := Put(cur, k, Get(n, k)), touched + us;
    }
    KeysToAll(nm);
  }

  /** The keys only the old map has: deleted. */
  method DiffGone(om: seq<Field>, nm: seq<Field>, path: Path, sofar: seq<Touched>, ghost half: map<string, Tree>)
    returns (touched: seq<Touched>, ghost cur: map<string, Tree>)
    requires WFFields(om) && WFFields(nm)
    requires Midway(Contents(om), Contents(nm), path, Contents(nm).Keys, half, sofar)
    ensures Midway(Contents(om), Contents(nm), path, Contents(nm).Keys + Contents(om).Keys, cur, touched)
  {
    hide Exact, Midway;
    ghost var m, n := Contents(om), Contents(nm);
    touched, cur := sofar, half;
    ghost var done := n.Keys;
    for i := 0 to |om|
      invariant Midway(m, n, path, done, cur, touched)
      invariant done == n.Keys + KeysTo(om, i)
    {
      var k := om[i].key;
      FindField(om, i);
      FindMeans(nm, k);
      if Find(nm, k).None? {
        NotYetThere(om, i);
        ExactHere(Get(m, k), None, path + [k]);
        Step(m, n, path, done, cur, touched, k, [Touched(path + [k], Delete)]);
        cur, touched, done := Put(cur, k, None), touched + [Touched(path + [k], Delete)], done + {k};
      }
    }
    KeysToAll(om);
  }

  /** One key of the new map. */
  method DiffKey(om: seq<Field>, nm: seq<Field>, i: nat, path: Path) returns (touched: seq<Touched>)
    requires WFFields(om) && WFFields(nm) && i < |nm|
    ensures Exact(Get(Contents(om), nm[i].key), Some(Meaning(nm[i].value)), path + [nm[i].key], touched)
    decreases nm, 0
  {
    hide Exact;
    var k, nv := nm[i].key, nm[i].value;
    FindMeans(om, k);
    FindField(nm, i);
    var ov := Find(om, k);
    if ov.Some? {
      FindWF(om, k);
      if ov.value.Obj? && nv.Obj? {
        touched := DiffAt(ov.value, nv, path + [k]);
      } else {
        SameIsMeaning(ov.value, nv);
        if Same(ov.value, nv) {
          ExactSame(Some(Meaning(nv)), path + [k]);
          touched := [];
        } else {
          ExactHere(Some(Meaning(ov.value)), Some(Meaning(nv)), path + [k]);
          touched := [Touched(path + [k], Set)];
        }
      }
    } else {
      ExactHere(None, Some(Meaning(nv)), path + [k]);
      touched := [Touched(path + [k], Set)];
    }
  }
}
