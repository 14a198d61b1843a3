/** The touched list of a write: what it means for it to be exact, and how exactness
    is built up one key at a time. */
module TouchedPaths {
  import opened Values

  datatype Op = Set | Delete
  datatype Touched = Touched(path: Path, op: Op)

  /** What is at a key, or nowhere when this is no map. */
  function Child(t: Option<Tree>, k: string): Option<Tree> {
    if t.Some? && t.value.TMap? && k in t.value.m then Some(t.value.m[k]) else None
  }

  /** What is at a path, through maps only. */
  function At(t: Option<Tree>, q: Path): Option<Tree>
    decreases |q|
  {
    if q == [] then t else At(Child(t, q[0]), q[1..])
  }

  predicate Comparable(a: Path, b: Path) {
    a <= b || b <= a
  }

  predicate Answers(touched: seq<Touched>, p: Path) {
    exists t :: t in touched && Comparable(t.path, p)
  }

  ghost predicate MapOrAbsent(t: Option<Tree>) {
    t.Some? ==> t.value.TMap?
  }

  /** Every reported path lies at or below `base` and really differs, and the
      operation says which way. */
  ghost predicate Sound(old': Option<Tree>, new': Option<Tree>, base: Path, touched: seq<Touched>) {
    forall t :: t in touched ==>
      && base <= t.path
      && At(old', t.path[|base|..]) != At(new', t.path[|base|..])
      && (t.op.Set? <==> At(new', t.path[|base|..]).Some?)
  }

  /** No reported path is at or below another one; in particular none is reported twice. */
  ghost predicate Antichain(touched: seq<Touched>) {
    forall i, j :: 0 <= i < |touched| && 0 <= j < |touched| && i != j ==>
      !(touched[i].path <= touched[j].path)
  }

  /** A path comparable with no reported one holds what it held. */
  ghost predicate Complete(old': Option<Tree>, new': Option<Tree>, base: Path, touched: seq<Touched>) {
    forall q: Path :: !Answers(touched, base + q) ==> At(old', q) == At(new', q)
  }

  /** Above a reported path there is nothing but maps: an array or a scalar is reported whole. */
  ghost predicate Leafmost(new': Option<Tree>, base: Path, touched: seq<Touched>) {
    forall t, q: Path :: t in touched && base + q < t.path ==> MapOrAbsent(At(new', q))
  }

  ghost predicate Exact(old': Option<Tree>, new': Option<Tree>, base: Path, touched: seq<Touched>) {
    && Sound(old', new', base, touched)
    && Antichain(touched)
    && Complete(old', new', base, touched)
    && Leafmost(new', base, touched)
  }

  /** An exact list is empty exactly when nothing changed. */
  lemma ExactEmpty(old': Option<Tree>, new': Option<Tree>, base: Path, touched: seq<Touched>)
    requires Exact(old', new', base, touched)
    ensures touched == [] <==> old' == new'
  {
    if touched == [] {
      assert base + [] == base;
      assert At(old', []) == At(new', []);
    } else {
      assert touched[0] in touched;
    }
  }

  /** Nothing changed, nothing reported. */
  lemma ExactSame(t: Option<Tree>, base: Path)
    ensures Exact(t, t, base, [])
  {
  }

  /** A change that is no change inside a map, reported at the path itself. */
  lemma ExactHere(old': Option<Tree>, new': Option<Tree>, base: Path)
    requires old' != new'
    ensures Exact(old', new', base, [Touched(base, if new'.Some? then Set else Delete)])
  {
    var touched := [Touched(base, if new'.Some? then Set else Delete)];
    assert base[|base|..] == [];
    forall q: Path ensures Answers(touched, base + q) {
      assert touched[0] in touched && Comparable(touched[0].path, base + q);
    }
    forall q: Path ensures !(base + q < base) {
      assert |base + q| >= |base|;
    }
  }

  function Put(m: map<string, Tree>, k: string, v: Option<Tree>): map<string, Tree> {
    if v.Some? then m[k := v.value] else m - {k}
  }

  function Get(m: map<string, Tree>, k: string): Option<Tree> {
    if k in m then Some(m[k]) else None
  }

  /** Every reported path is strictly below `base`, under one of `keys`. */
  ghost predicate Within(base: Path, keys: set<string>, touched: seq<Touched>) {
    forall t :: t in touched ==> base < t.path && t.path[|base|] in keys
  }

  lemma ExtendSound(m: map<string, Tree>, c: map<string, Tree>, base: Path, keys: set<string>, ts: seq<Touched>,
                    k: string, v: Option<Tree>, us: seq<Touched>)
    requires Exact(Some(TMap(m)), Some(TMap(c)), base, ts)
    requires Within(base, keys, ts) && k !in keys
    requires Exact(Get(m, k), v, base + [k], us)
    ensures Sound(Some(TMap(m)), Some(TMap(Put(c, k, v))), base, ts + us)
    ensures Within(base, keys + {k}, ts + us)
  {
    hide Antichain, Complete, Leafmost;
    forall t | t in ts + us
      ensures base < t.path && t.path[|base|] in keys + {k}
      ensures At(Some(TMap(m)), t.path[|base|..]) != At(Some(TMap(Put(c, k, v))), t.path[|base|..])
      ensures t.op.Set? <==> At(Some(TMap(Put(c, k, v))), t.path[|base|..]).Some?
    {
      var q := t.path[|base|..];
      if t in ts {
        assert q[0] == t.path[|base|] != k;
        assert Child(Some(TMap(Put(c, k, v))), q[0]) == Child(Some(TMap(c)), q[0]);
      } else {
        assert (base + [k])[|base|] == k;
        assert q[0] == k && q[1..] == t.path[|base + [k]|..];
        assert Child(Some(TMap(Put(c, k, v))), k) == v;
        assert Child(Some(TMap(m)), k) == Get(m, k);
      }
    }
  }

  lemma AnswersEither(ts: seq<Touched>, us: seq<Touched>, p: Path)
    ensures Answers(ts + us, p) <==> Answers(ts, p) || Answers(us, p)
  {
    if Answers(ts, p) {
      var t :| t in ts && Comparable(t.path, p);
      assert t in ts + us;
    }
    if Answers(us, p) {
      var t :| t in us && Comparable(t.path, p);
      assert t in ts + us;
    }
  }

  /** Any change of the map is answered for at the map's own path. */
  lemma ChangeAnswered(m: map<string, Tree>, c: map<string, Tree>, base: Path, ts: seq<Touched>,
                       k: string, v: Option<Tree>, us: seq<Touched>)
    requires Exact(Some(TMap(m)), Some(TMap(c)), base, ts)
    requires Exact(Get(m, k), v, base + [k], us)
    requires Put(c, k, v) != m
    ensures Answers(ts + us, base)
  {
    hide Antichain, Complete, Leafmost;
    ExactEmpty(Get(m, k), v, base + [k], us);
    ExactEmpty(Some(TMap(m)), Some(TMap(c)), base, ts);
    if ts != [] {
      assert ts[0] in ts + us && Comparable(ts[0].path, base);
    } else {
      assert us != [];
      assert us[0] in ts + us && Comparable(us[0].path, base);
    }
  }

  lemma AtBelow(t: Option<Tree>, q: Path)
    requires q != []
    ensures At(t, q) == At(Child(t, q[0]), q[1..])
  {
  }

  lemma ExtendComplete(m: map<string, Tree>, c: map<string, Tree>, base: Path, keys: set<string>, ts: seq<Touched>,
                       k: string, v: Option<Tree>, us: seq<Touched>)
    requires Exact(Some(TMap(m)), Some(TMap(c)), base, ts)
    requires Within(base, keys, ts) && k !in keys
    requires Exact(Get(m, k), v, base + [k], us)
    ensures Complete(Some(TMap(m)), Some(TMap(Put(c, k, v))), base, ts + us)
  {
    hide Exact, Answers;
    var o, n := Some(TMap(m)), Some(TMap(Put(c, k, v)));
    forall q: Path | !Answers(ts + us, base + q) ensures At(o, q) == At(n, q) {
      if q == [] {
        assert base + q == base;
        if Put(c, k, v) != m {
          ChangeAnswered(m, c, base, ts, k, v, us);
        }
      } else {
        AnswersEither(ts, us, base + q);
        UnansweredBelow(m, c, base, ts, k, v, us, q);
      }
    }
  }

  lemma UnansweredBelow(m: map<string, Tree>, c: map<string, Tree>, base: Path, ts: seq<Touched>,
                        k: string, v: Option<Tree>, us: seq<Touched>, q: Path)
    requires Exact(Some(TMap(m)), Some(TMap(c)), base, ts) && Exact(Get(m, k), v, base + [k], us)
    requires q != [] && !Answers(ts, base + q) && !Answers(us, base + q)
    ensures At(Some(TMap(m)), q) == At(Some(TMap(Put(c, k, v))), q)
  {
    hide Sound, Antichain, Leafmost, Answers, At;
    var o, n := Some(TMap(m)), Some(TMap(Put(c, k, v)));
    AtBelow(o, q);
    AtBelow(n, q);
    if q[0] == k {
      assert base + q == (base + [k]) + q[1..];
      assert At(Get(m, k), q[1..]) == At(v, q[1..]);
    } else {
      AtBelow(Some(TMap(c)), q);
      assert At(o, q) == At(Some(TMap(c)), q);
    }
  }

  lemma JoinAntichains(base: Path, keys: set<string>, ts: seq<Touched>, k: string, us: seq<Touched>)
    requires Antichain(ts) && Antichain(us)
    requires Within(base, keys, ts) && Within(base, {k}, us) && k !in keys
    ensures Antichain(ts + us)
  {
    var all := ts + us;
    forall i, j | 0 <= i < |all| && 0 <= j < |all| && i != j
      ensures !(all[i].path <= all[j].path)
    {
      if i < |ts| {
        assert all[i] in ts;
        if j >= |ts| { assert all[j] in us; }
      } else {
        assert all[i] in us;
        if j < |ts| { assert all[j] in ts; }
      }
    }
  }

  lemma ExtendLeafmost(c: map<string, Tree>, base: Path, keys: set<string>, ts: seq<Touched>,
                       k: string, v: Option<Tree>, us: seq<Touched>)
    requires Leafmost(Some(TMap(c)), base, ts) && Leafmost(v, base + [k], us)
    requires Within(base, keys, ts) && Within(base, {k}, us) && k !in keys
    ensures Leafmost(Some(TMap(Put(c, k, v))), base, ts + us)
  {
    var n := Some(TMap(Put(c, k, v)));
    forall t, q: Path | t in ts + us && base + q < t.path ensures MapOrAbsent(At(n, q)) {
      if q != [] {
        assert t.path[|base|] == (base + q)[|base|] == q[0];
        if q[0] != k {
          assert t in ts;
          assert MapOrAbsent(At(Some(TMap(c)), q));
          assert Child(n, q[0]) == Child(Some(TMap(c)), q[0]);
        } else {
          assert t in us;
          assert base + q == (base + [k]) + q[1..];
          assert MapOrAbsent(At(v, q[1..]));
          assert Child(n, q[0]) == v;
        }
      }
    }
  }

  /** One more key of a map dealt with: the lists concatenate. */
  lemma Extend(m: map<string, Tree>, c: map<string, Tree>, base: Path, keys: set<string>, ts: seq<Touched>,
               k: string, v: Option<Tree>, us: seq<Touched>)
    requires Exact(Some(TMap(m)), Some(TMap(c)), base, ts)
    requires Within(base, keys, ts) && k !in keys
    requires Exact(Get(m, k), v, base + [k], us)
    ensures Exact(Some(TMap(m)), Some(TMap(Put(c, k, v))), base, ts + us)
    ensures Within(base, keys + {k}, ts + us)
  {
    ExtendSound(m, c, base, keys, ts, k, v, us);
    ExtendComplete(m, c, base, keys, ts, k, v, us);
    assert Within(base, {k}, us) by {
      assert (base + [k])[|base|] == k;
    }
    JoinAntichains(base, keys, ts, k, us);
    ExtendLeafmost(c, base, keys, ts, k, v, us);
  }

  /** A change under one key is a change of the map around it. */
  lemma Lift(m: map<string, Tree>, base: Path, k: string, v: Option<Tree>, us: seq<Touched>)
    requires Exact(Get(m, k), v, base + [k], us)
    ensures Exact(Some(TMap(m)), Some(TMap(Put(m, k, v))), base, us)
  {
    ExactSame(Some(TMap(m)), base);
    Extend(m, m, base, {}, [], k, v, us);
    assert [] + us == us;
  }

  /** Where there was no map, the list is as good as if an empty one had been there,
      once it reports anything. */
  lemma Materialise(old': Option<Tree>, new': Tree, base: Path, us: seq<Touched>)
    requires old'.None? || !old'.value.TMap?
    requires old' != Some(new')
    requires Exact(Some(TMap(map[])), Some(new'), base, us) && us != []
    ensures Exact(old', Some(new'), base, us)
  {
    var e, n := Some(TMap(map[])), Some(new');
    forall q: Path | q != [] ensures At(old', q) == None && At(e, q) == None {
      NowhereBelow(q[1..]);
    }
    forall t | t in us
      ensures At(old', t.path[|base|..]) != At(n, t.path[|base|..])
    {
      if t.path[|base|..] != [] {
        assert At(e, t.path[|base|..]) != At(n, t.path[|base|..]);
      }
    }
    assert us[0] in us && Comparable(us[0].path, base + []);
    assert Answers(us, base + []);
    forall q: Path | !Answers(us, base + q) ensures At(old', q) == At(n, q) {
      assert q != [];
      assert At(e, q) == At(n, q);
    }
  }

  lemma NowhereBelow(q: Path)
    ensures At(None, q) == None
  {
    if q != [] {
      NowhereBelow(q[1..]);
    }
  }
}
