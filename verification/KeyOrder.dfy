/** The order of a document's keys, which its file keeps: what an edit leaves stays in the
    order it was in, at every depth, and what it adds comes after. */
module KeyOrder {
  import opened Values

  /** Where a key is, or the length of the list. */
  function Place(fs: seq<Field>, k: string): nat {
    if fs == [] || fs[0].key == k then 0 else 1 + Place(fs[1..], k)
  }

  /** The keys of `b` that `a` has come first, in `a`'s order. */
  ghost predicate Ordered(a: seq<Field>, b: seq<Field>) {
    forall i, j :: 0 <= i < j < |b| && Find(a, b[j].key).Some? ==>
      Find(a, b[i].key).Some? && Place(a, b[i].key) < Place(a, b[j].key)
  }

  /** The same wherever both have a map. */
  ghost predicate InOrder(a: Value, b: Value)
    decreases b
  {
    a.Obj? && b.Obj? ==>
      && Ordered(a.fields, b.fields)
      && forall i :: 0 <= i < |b.fields| && Find(a.fields, b.fields[i].key).Some? ==>
           InOrder(Find(a.fields, b.fields[i].key).value, b.fields[i].value)
  }

  lemma {:induction false} PlaceIs(fs: seq<Field>, i: nat)
    requires WFFields(fs) && i < |fs|
    ensures Place(fs, fs[i].key) == i
  {
    if i > 0 {
      KeysDiffer(fs, 0, i);
      PlaceIs(fs[1..], i - 1);
    }
  }

  lemma {:induction false} InOrderSame(v: Value)
    requires WF(v)
    ensures InOrder(v, v)
    decreases v
  {
    if v.Obj? {
      hide WF, Find, Place;
      var fs := v.fields;
      forall i | 0 <= i < |fs|
        ensures Find(fs, fs[i].key) == Some(fs[i].value) && Place(fs, fs[i].key) == i && InOrder(fs[i].value, fs[i].value)
      {
        FieldsOf(v);
        FindField(fs, i);
        PlaceIs(fs, i);
        FindWF(fs, fs[i].key);
        InOrderSame(fs[i].value);
      }
    }
  }

  lemma NotMaps(a: Value, b: Value)
    requires !a.Obj? || !b.Obj?
    ensures InOrder(a, b)
  {
  }

  lemma FieldsOf(v: Value)
    requires WF(v) && v.Obj?
    ensures WFFields(v.fields)
  {
  }

  // ---------------------------------------------------------------- one key at a time

  /** A key's new value written into the ordered map, by `insert` or `shift_remove`. */
  function Write(fs: seq<Field>, k: string, now: Option<Value>): seq<Field> {
    if now.Some? then Insert(fs, k, now.value) else Values.Remove(fs, k)
  }

  lemma {:induction false} InsertIs(fs: seq<Field>, k: string, v: Value)
    ensures var p := Place(fs, k);
            && p <= |fs| && (p < |fs| <==> Find(fs, k).Some?)
            && Insert(fs, k, v) == (if p < |fs| then fs[p := Field(k, v)] else fs + [Field(k, v)])
            && (p < |fs| ==> fs[p].key == k)
  {
    if fs != [] && fs[0].key != k { InsertIs(fs[1..], k, v); }
  }

  lemma {:induction false} RemoveIs(fs: seq<Field>, k: string)
    ensures var p := Place(fs, k);
            && p <= |fs| && Values.Remove(fs, k) == (if p < |fs| then fs[..p] + fs[p + 1..] else fs)
  {
    if fs != [] && fs[0].key != k {
      RemoveIs(fs[1..], k);
      if Place(fs[1..], k) < |fs[1..]| { DropLater(fs, Place(fs[1..], k)); }
    }
  }

  lemma DropLater(fs: seq<Field>, p: nat)
    requires p + 1 < |fs|
    ensures [fs[0]] + (fs[1..][..p] + fs[1..][p + 1..]) == fs[..p + 1] + fs[p + 2..]
  {
    assert fs[1..][p + 1..] == fs[p + 2..];
    assert [fs[0]] + fs[1..][..p] == fs[..p + 1];
  }

  /** Neither disturbs the order, if a key that is added was not dropped before. */
  lemma OrderedWrite(a: seq<Field>, cur: seq<Field>, k: string, now: Option<Value>)
    requires Ordered(a, cur) && (Find(a, k).Some? ==> Find(cur, k).Some?)
    ensures Ordered(a, Write(cur, k, now))
  {
    hide Find, Insert, Values.Remove, Place;
    var after := Write(cur, k, now);
    if now.Some? {
      InsertIs(cur, k, now.value);
      forall i | 0 <= i < |cur| ensures after[i].key == cur[i].key {}
    } else {
      RemoveIs(cur, k);
      var p := Place(cur, k);
      forall i | 0 <= i < |after| ensures after[i] == cur[if i < p then i else i + 1] || |after| == |cur| {}
    }
  }

  /** Midway through an edit of `a`: the keys not in `done` are as they were, and what is
      there is in order. */
  ghost predicate Arranged(a: seq<Field>, cur: seq<Field>, done: set<string>) {
    && Ordered(a, cur)
    && (forall k :: k !in done ==> Find(cur, k) == Find(a, k))
    && (forall k :: Find(a, k).Some? && Find(cur, k).Some? ==> InOrder(Find(a, k).value, Find(cur, k).value))
  }

  lemma ArrangedStart(a: seq<Field>)
    requires WFFields(a)
    ensures Arranged(a, a, {})
  {
    hide WF, WFFields, Find, InOrder;
    InOrderSame(Obj(a)) by { MapOf(a); }
    OrderOf(a, a);
    forall k | Find(a, k).Some? ensures InOrder(Find(a, k).value, Find(a, k).value) {
      FindWF(a, k);
      InOrderSame(Find(a, k).value);
    }
  }

  lemma MapOf(a: seq<Field>)
    requires WFFields(a)
    ensures WF(Obj(a))
  {
  }

  lemma OrderOf(a: seq<Field>, b: seq<Field>)
    requires InOrder(Obj(a), Obj(b))
    ensures Ordered(a, b)
  {
  }

  lemma {:induction false} RemovedGone(fs: seq<Field>, k: string)
    requires WFFields(fs)
    ensures Find(Values.Remove(fs, k), k).None?
  {
    hide WF;
    if fs != [] && fs[0].key != k { RemovedGone(fs[1..], k); }
  }

  /** One more key: nothing else moves. */
  lemma ArrangedWrite(a: seq<Field>, cur: seq<Field>, done: set<string>, k: string, now: Option<Value>)
    requires Arranged(a, cur, done) && k !in done
    requires now.Some? && Find(a, k).Some? ==> InOrder(Find(a, k).value, now.value)
    requires WFFields(cur)
    ensures Arranged(a, Write(cur, k, now), done + {k})
  {
    hide WFFields, Find, InOrder, Insert, Values.Remove, Ordered;
    OrderedWrite(a, cur, k, now);
    forall j ensures Find(Write(cur, k, now), j) == if j == k then now else Find(cur, j) {
      if now.Some? { InsertFind(cur, k, now.value, j); } else if j != k { RemoveFind(cur, k, j); } else { RemovedGone(cur, k); }
    }
  }

  lemma Untouched(a: seq<Field>, cur: seq<Field>, done: set<string>, k: string)
    requires Arranged(a, cur, done) && k !in done
    ensures Find(cur, k) == Find(a, k)
  {
  }

  /** When it is over. */
  lemma ArrangedEnd(a: seq<Field>, cur: seq<Field>, done: set<string>)
    requires Arranged(a, cur, done) && WFFields(cur)
    ensures InOrder(Obj(a), Obj(cur))
  {
    hide WFFields, Find, Ordered;
    forall i | 0 <= i < |cur| ensures Find(cur, cur[i].key) == Some(cur[i].value) { FindField(cur, i); }
  }

  /** Setting one key. */
  lemma InsertInOrder(fs: seq<Field>, k: string, v: Value)
    requires WFFields(fs) && WF(v) && (Find(fs, k).Some? ==> InOrder(Find(fs, k).value, v))
    ensures InOrder(Obj(fs), Obj(Insert(fs, k, v)))
  {
    hide WFFields, WF, Find, InOrder, Insert, Arranged;
    ArrangedStart(fs);
    ArrangedWrite(fs, fs, {}, k, Some(v));
    InsertWF(fs, k, v);
    ArrangedEnd(fs, Insert(fs, k, v), {} + {k});
  }

  /** Dropping two. */
  lemma RemoveInOrder(fs: seq<Field>, k: string, l: string)
    requires WFFields(fs) && k != l
    ensures InOrder(Obj(fs), Obj(Values.Remove(Values.Remove(fs, k), l)))
  {
    hide WFFields, WF, Find, InOrder, Values.Remove, Arranged;
    ArrangedStart(fs);
    var once := Values.Remove(fs, k);
    ArrangedWrite(fs, fs, {}, k, None);
    RemoveWF(fs, k);
    ArrangedWrite(fs, once, {} + {k}, l, None);
    RemoveWF(once, l);
    ArrangedEnd(fs, Values.Remove(once, l), {} + {k} + {l});
  }
}
