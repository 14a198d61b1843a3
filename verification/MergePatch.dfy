/** What the store's merge has to do with the MergePatch function of section 2 of
    RFC 7386: where the two agree, and what holds of every merge. */
module MergePatch {
  import opened Values
  import opened TouchedPaths
  import opened Patch
  import View
  import Verbatim

  /** MergePatch(Target, Patch), section 2 of RFC 7386. */
  function Rfc(target: Option<Tree>, patch: Tree): Tree
    decreases patch
  {
    if patch.TMap? then
      var m := if target.Some? && target.value.TMap? then target.value.m else map[];
      TMap(map j | j in m.Keys + patch.m.Keys && (j in patch.m ==> !patch.m[j].TNull?) ::
             if j in patch.m then Rfc(Get(m, j), patch.m[j]) else m[j])
    else patch
  }

  /** A patch that is nothing but deletes, at any depth. */
  predicate DeleteOnly(patch: Tree)
    requires patch.TMap?
  {
    forall j :: j in patch.m ==>
      var v := patch.m[j];
      v.TNull? || (v.TMap? && v.m != map[] && DeleteOnly(v))
  }

  /** Where the store and RFC 7386 agree: no key is deleted from under a note the patch
      leaves unnamed, and no absent container is addressed by deletes alone. */
  predicate Plain(m: map<string, Tree>, patch: Tree)
    requires patch.TMap?
    decreases patch
  {
    && (forall n :: n in m ==> !OrphanedNote(patch.m, n))
    && (forall j :: j in patch.m && patch.m[j].TMap? ==>
          var v := patch.m[j];
          if j in m && m[j].TMap? then Plain(m[j].m, v)
          else Plain(map[], v) && (j in m || v.m == map[] || !DeleteOnly(v)))
  }

  const Empty: map<string, Tree> := map[]

  lemma FromNothing(v: Tree)
    ensures Outcome(None, v).None? <==> v.TNull? || (v.TMap? && v.m != Empty && Applied(Empty, v) == Empty)
  {
  }

  lemma WrittenAt(m: map<string, Tree>, patch: Tree, j: string)
    requires patch.TMap?
    ensures Get(Applied(m, patch), j) == AppliedAt(m, patch, j)
  {
    hide Outcome;
  }

  /** The patch deletes `k`, and with it `j`: the key itself, or its note where the
      patch does not name it. */
  predicate DeletesWith(patch: map<string, Tree>, k: string, j: string) {
    k in patch && patch[k] == TNull && (j == k || (j == k + "__" && j !in patch))
  }

  /** What the patch deletes is gone, notes with their keys, and what it neither names nor
      deletes stays. */
  lemma NotesGoWithKeys(m: map<string, Tree>, patch: Tree, j: string)
    requires patch.TMap?
    ensures (exists k :: DeletesWith(patch.m, k, j)) ==> j !in Applied(m, patch)
    ensures j !in patch.m && (forall k :: !DeletesWith(patch.m, k, j)) ==> Get(Applied(m, patch), j) == Get(m, j)
  {
    hide Applied;
    WrittenAt(m, patch, j);
    if k :| DeletesWith(patch.m, k, j) { NoteUnique(k); }
    if OrphanedNote(patch.m, j) {
      var k := j[..|j| - 2];
      assert j == k + "__";
      assert DeletesWith(patch.m, k, j);
    }
  }

  /** A delete-only patch writes nothing into an empty map, and only such a patch does. */
  lemma {:induction false} DeletesWriteNothing(patch: Tree)
    requires patch.TMap?
    ensures Applied(Empty, patch) == Empty <==> DeleteOnly(patch)
    decreases patch
  {
    hide Outcome, Applied;
    var r := Applied(Empty, patch);
    forall j | j in patch.m
      ensures j in r <==> !(patch.m[j].TNull? || (patch.m[j].TMap? && patch.m[j].m != Empty && DeleteOnly(patch.m[j])))
    {
      var v := patch.m[j];
      WrittenAt(Empty, patch, j);
      FromNothing(v);
      if v.TMap? { DeletesWriteNothing(v); }
    }
    forall j | j !in patch.m ensures j !in r { WrittenAt(Empty, patch, j); }
    assert r == Empty <==> forall j :: j in patch.m ==> j !in r;
  }

  /** The store's merge is the RFC's exactly on plain patches. */
  lemma {:induction false} AgreesWithRfc(m: map<string, Tree>, patch: Tree)
    requires patch.TMap?
    ensures TMap(Applied(m, patch)) == Rfc(Some(TMap(m)), patch) <==> Plain(m, patch)
    decreases patch, 1
  {
    var ours, theirs := Applied(m, patch), Rfc(Some(TMap(m)), patch).m;
    forall j | j in m.Keys + patch.m.Keys
      ensures Get(ours, j) == Get(theirs, j) <==> AgreesAt(m, patch, j)
    {
      AgreesAtKey(m, patch, j);
    }
    if ours == theirs {
      forall j | j in m.Keys + patch.m.Keys ensures AgreesAt(m, patch, j) {
        assert Get(ours, j) == Get(theirs, j);
      }
      PlainPointwise(m, patch);
    }
    if Plain(m, patch) {
      PlainPointwise(m, patch);
      forall j ensures Get(ours, j) == Get(theirs, j) {
        if j in m.Keys + patch.m.Keys { assert AgreesAt(m, patch, j); }
      }
      assert forall j :: j in ours <==> Get(ours, j).Some?;
      assert forall j :: j in theirs <==> Get(theirs, j).Some?;
      assert ours == theirs;
    }
  }

  predicate AgreesAt(m: map<string, Tree>, patch: Tree, j: string)
    requires patch.TMap?
  {
    if j in patch.m then
      var v := patch.m[j];
      v.TMap? ==>
        if j in m && m[j].TMap? then Plain(m[j].m, v)
        else Plain(map[], v) && (j in m || v.m == map[] || !DeleteOnly(v))
    else j in m ==> !OrphanedNote(patch.m, j)
  }

  lemma PlainPointwise(m: map<string, Tree>, patch: Tree)
    requires patch.TMap?
    ensures Plain(m, patch) <==> forall j :: j in m.Keys + patch.m.Keys ==> AgreesAt(m, patch, j)
  {
    if forall j :: j in m.Keys + patch.m.Keys ==> AgreesAt(m, patch, j) {
      forall n | n in m ensures !OrphanedNote(patch.m, n) { assert AgreesAt(m, patch, n); }
      forall j | j in patch.m && patch.m[j].TMap?
        ensures var v := patch.m[j];
                if j in m && m[j].TMap? then Plain(m[j].m, v)
                else Plain(map[], v) && (j in m || v.m == map[] || !DeleteOnly(v))
      {
        assert AgreesAt(m, patch, j);
      }
    }
  }

  lemma {:induction false} AgreesAtKey(m: map<string, Tree>, patch: Tree, j: string)
    requires patch.TMap? && j in m.Keys + patch.m.Keys
    ensures Get(Applied(m, patch), j) == Get(Rfc(Some(TMap(m)), patch).m, j) <==> AgreesAt(m, patch, j)
    decreases patch, 0
  {
    hide Outcome, Applied, Rfc, OrphanedNote, DeleteOnly, Plain;
    WrittenAt(m, patch, j);
    RfcAt(m, patch, j);
    if j in patch.m {
      OutcomeAgrees(Get(m, j), patch.m[j]);
    }
  }

  lemma RfcAt(m: map<string, Tree>, patch: Tree, j: string)
    requires patch.TMap?
    ensures var r := Rfc(Some(TMap(m)), patch);
            r.TMap? && Get(r.m, j) ==
              if j in patch.m then (if patch.m[j].TNull? then None else Some(Rfc(Get(m, j), patch.m[j]))) else Get(m, j)
  {
  }

  /** One value of the patch, against what is there. */
  lemma {:induction false} OutcomeAgrees(here: Option<Tree>, v: Tree)
    ensures Outcome(here, v) == (if v.TNull? then None else Some(Rfc(here, v))) <==>
            (v.TMap? ==> if here.Some? && here.value.TMap? then Plain(here.value.m, v)
                         else Plain(Empty, v) && (here.Some? || v.m == Empty || !DeleteOnly(v)))
    decreases v, 2
  {
    hide Applied, DeleteOnly, Plain;
    if v.TMap? {
      if here.Some? && here.value.TMap? {
        AgreesWithRfc(here.value.m, v);
      } else {
        AgreesWithRfc(Empty, v);
        DeletesWriteNothing(v);
        assert Rfc(here, v) == Rfc(Some(TMap(Empty)), v);
        if v.m == Empty {
          EmptyPatch(v);
        }
      }
    }
  }

  lemma EmptyPatch(v: Tree)
    requires v.TMap? && v.m == Empty
    ensures Applied(Empty, v) == Empty && Rfc(Some(TMap(Empty)), v) == v
  {
  }

  // ---------------------------------------------------------------- every merge

  lemma {:induction false} OutcomeTwice(here: Option<Tree>, v: Tree)
    ensures Outcome(Outcome(here, v), v) == Outcome(here, v)
    decreases v, 1
  {
    if v.TMap? {
      if here.Some? && here.value.TMap? {
        AppliedTwice(here.value.m, v);
      } else {
        AppliedTwice(map[], v);
        if v.m == map[] { assert Applied(map[], v) == map[]; }
      }
    }
  }

  /** A patch applied twice is applied once. */
  lemma {:induction false} AppliedTwice(m: map<string, Tree>, patch: Tree)
    requires patch.TMap?
    ensures Applied(Applied(m, patch), patch) == Applied(m, patch)
    decreases patch, 0
  {
    var once := Applied(m, patch);
    forall j ensures Get(once, j) == AppliedAt(once, patch, j) {
      assert Get(once, j) == AppliedAt(m, patch, j);
      if j in patch.m { OutcomeTwice(Get(m, j), patch.m[j]); }
    }
    AppliedPointwise(once, patch, once);
  }

  /** The same merge again means nothing new. */
  lemma {:induction false} MergeTwice(t: Tree, prefix: Path, patch: Tree)
    ensures View.MergedInto(View.MergedInto(t, prefix, patch), prefix, patch) == View.MergedInto(t, prefix, patch)
  {
    hide Applied;
    if prefix == [] {
      if t.TMap? && patch.TMap? { AppliedTwice(t.m, patch); }
    } else {
      var here := At(Some(t), prefix);
      var once := View.MergedAt(here, patch);
      if once.Some? {
        PutThenLook(Some(t), prefix, once.value);
        var m := if here.Some? && here.value.TMap? then here.value.m else map[];
        if patch.TMap? { AppliedTwice(m, patch); }
        View.PutBack(Some(View.PutAt(Some(t), prefix, once.value)), prefix);
      }
    }
  }

  /** On the stored document: the second merge reports nothing and changes nothing, not even the
      order of a key. */
  method MergeAgain(doc: Value, prefix: Path, patch: Value) returns (once: View.Result<(Value, seq<Touched>)>, twice: View.Result<(Value, seq<Touched>)>)
    requires WF(doc) && WF(patch)
    ensures once.Ok? <==> !View.Blocked(Some(Meaning(doc)), prefix)
    ensures once.Ok? ==> twice == View.Ok((once.value.0, []))
  {
    hide Meaning, WF, View.MergedInto, View.Blocked, Exact, Verbatim.Unaltered;
    once := View.Merge(doc, prefix, patch);
    twice := once;
    if once.Ok? {
      var now := once.value.0;
      StillOpen(Meaning(doc), prefix, Meaning(patch));
      twice := View.Merge(now, prefix, patch);
      MergeTwice(Meaning(doc), prefix, Meaning(patch));
      ExactEmpty(Some(Meaning(now)), Some(Meaning(twice.value.0)), [], twice.value.1);
      Verbatim.NothingTouched(Some(now), Some(twice.value.0), []);
    }
  }

  /** A merge blocks nothing that was open. */
  lemma StillOpen(t: Tree, prefix: Path, patch: Tree)
    requires !View.Blocked(Some(t), prefix)
    ensures !View.Blocked(Some(View.MergedInto(t, prefix, patch)), prefix)
  {
    hide Applied;
    if prefix != [] {
      var once := View.MergedAt(At(Some(t), prefix), patch);
      if once.Some? { PutOpens(Some(t), prefix, once.value); }
    }
  }

  lemma {:induction false} PutOpens(t: Option<Tree>, p: Path, v: Tree)
    ensures !View.Blocked(Some(View.PutAt(t, p, v)), p)
    decreases |p|
  {
    if p != [] {
      var m := if t.Some? && t.value.TMap? then t.value.m else map[];
      PutOpens(Get(m, p[0]), p[1..], v);
      View.BlockedStep(Some(View.PutAt(t, p, v)), p[0], p[1..]);
      assert p == [p[0]] + p[1..];
    }
  }

  lemma {:induction false} PutThenLook(t: Option<Tree>, p: Path, v: Tree)
    ensures At(Some(View.PutAt(t, p, v)), p) == Some(v)
    decreases |p|
  {
    if p != [] {
      var m := if t.Some? && t.value.TMap? then t.value.m else map[];
      PutThenLook(Get(m, p[0]), p[1..], v);
    }
  }

  // ---------------------------------------------------------------- nulls

  /** No map holds a null, as far as maps lead; lists are not looked into. */
  predicate NullFree(t: Tree)
    requires t.TMap?
  {
    forall q :: q in t.m ==> !t.m[q].TNull? && (t.m[q].TMap? ==> NullFree(t.m[q]))
  }

  /** A patch's delete markers are never stored where maps lead... */
  lemma {:induction false} NoNullStored(m: map<string, Tree>, patch: Tree)
    requires patch.TMap? && NullFree(TMap(m))
    ensures NullFree(TMap(Applied(m, patch)))
    decreases patch
  {
    var r := Applied(m, patch);
    var t := TMap(m);
    assert forall q :: q in t.m ==> !t.m[q].TNull? && (t.m[q].TMap? ==> NullFree(t.m[q]));
    forall j | j in r ensures !r[j].TNull? && (r[j].TMap? ==> NullFree(r[j])) {
      assert Some(r[j]) == AppliedAt(m, patch, j);
      if j in patch.m {
        var v := patch.m[j];
        if v.TMap? {
          NoNullStored(if j in m && m[j].TMap? then m[j].m else map[], v);
        }
        assert r[j] == Outcome(Get(m, j), v).value;
      } else {
        assert r[j] == m[j];
      }
    }
  }

  /** No map at all holds a null, those inside lists included. */
  predicate Clean(t: Tree) {
    match t
    case TArr(items) => forall i :: 0 <= i < |items| ==> Clean(items[i])
    case TMap(m) => forall k :: k in m ==> !m[k].TNull? && Clean(m[k])
    case _ => true
  }

  /** Every list the patch holds, as far as its maps lead, is clean. */
  predicate ListsClean(patch: Tree) {
    match patch
    case TArr(_) => Clean(patch)
    case TMap(m) => forall k :: k in m ==> ListsClean(m[k])
    case _ => true
  }

  /** ...but a list is stored as it comes: a clean document stays clean exactly when the
      patch's lists are. */
  lemma {:induction false} CleanIff(m: map<string, Tree>, patch: Tree)
    requires patch.TMap? && Clean(TMap(m))
    ensures Clean(TMap(Applied(m, patch))) <==> ListsClean(patch)
    decreases patch, 0
  {
    hide Applied, Outcome, OrphanedNote;
    var r := Applied(m, patch);
    var t := TMap(m);
    assert forall k :: k in t.m ==> !t.m[k].TNull? && Clean(t.m[k]);
    forall j | j in patch.m ensures OutcomeClean(Get(r, j)) <==> ListsClean(patch.m[j]) {
      WrittenAt(m, patch, j);
      OutcomeCleanIff(Get(m, j), patch.m[j]);
    }
    forall j | j !in patch.m ensures OutcomeClean(Get(r, j)) {
      WrittenAt(m, patch, j);
    }
    assert (forall j :: OutcomeClean(Get(r, j))) <==> Clean(TMap(r)) by { CleanMap(r); }
  }

  predicate OutcomeClean(v: Option<Tree>) {
    v.None? || (!v.value.TNull? && Clean(v.value))
  }

  lemma CleanMap(r: map<string, Tree>)
    ensures (forall j :: OutcomeClean(Get(r, j))) <==> Clean(TMap(r))
  {
    var t := TMap(r);
    if Clean(t) {
      assert forall k :: k in t.m ==> !t.m[k].TNull? && Clean(t.m[k]);
    }
    if forall j :: OutcomeClean(Get(r, j)) {
      forall k | k in t.m ensures !t.m[k].TNull? && Clean(t.m[k]) { assert OutcomeClean(Get(r, k)); }
    }
  }

  lemma {:induction false} OutcomeCleanIff(here: Option<Tree>, v: Tree)
    requires OutcomeClean(here)
    ensures OutcomeClean(Outcome(here, v)) <==> ListsClean(v)
    decreases v, 1
  {
    hide Applied;
    if v.TMap? {
      if here.Some? && here.value.TMap? {
        CleanIff(here.value.m, v);
      } else {
        EmptyIsClean();
        CleanIff(Empty, v);
        if v.m == Empty { EmptyPatch(v); }
      }
    }
  }

  lemma EmptyIsClean()
    ensures Clean(TMap(Empty))
  {
  }

  /** A merge at a prefix, the same. */
  lemma MergeCleanIff(t: Tree, prefix: Path, patch: Tree)
    requires Clean(t) && t.TMap? && patch.TMap? && !View.Blocked(Some(t), prefix)
    ensures Clean(View.MergedInto(t, prefix, patch)) <==> ListsClean(patch)
  {
    hide Applied, Clean, ListsClean, View.Blocked;
    if prefix == [] {
      CleanIff(t.m, patch);
    } else {
      var here := At(Some(t), prefix);
      CleanBelow(Some(t), prefix);
      var m := if here.Some? && here.value.TMap? then here.value.m else Empty;
      EmptyIsClean();
      CleanIff(m, patch);
      var now := View.MergedAt(here, patch);
      if now.Some? {
        CleanPut(Some(t), prefix, now.value);
      }
    }
  }

  lemma {:induction false} CleanBelow(t: Option<Tree>, p: Path)
    requires t.Some? ==> Clean(t.value)
    ensures At(t, p).Some? ==> Clean(At(t, p).value)
    decreases |p|
  {
    if p != [] { CleanBelow(Child(t, p[0]), p[1..]); }
  }

  lemma {:induction false} CleanPut(t: Option<Tree>, p: Path, v: Tree)
    requires (t.Some? ==> Clean(t.value)) && v.TMap?
    ensures Clean(View.PutAt(t, p, v)) <==> Clean(v)
    decreases |p|
  {
    if p != [] {
      var m := if t.Some? && t.value.TMap? then t.value.m else Empty;
      CleanPut(Get(m, p[0]), p[1..], v);
      var inner := View.PutAt(Get(m, p[0]), p[1..], v);
      CleanWith(m, p[0], inner);
    }
  }

  lemma CleanWith(m: map<string, Tree>, k: string, v: Tree)
    requires Clean(TMap(m)) && !v.TNull?
    ensures Clean(TMap(m[k := v])) <==> Clean(v)
  {
    var was, now := TMap(m), TMap(m[k := v]);
    assert forall j :: j in was.m ==> !was.m[j].TNull? && Clean(was.m[j]);
    if Clean(v) {
      forall j | j in now.m ensures !now.m[j].TNull? && Clean(now.m[j]) {}
    }
    if Clean(now) { assert k in now.m; }
  }

  /** The input that shows it: a delete marker inside a list is stored as a null. */
  lemma NullInAList()
    ensures var marker := TMap(map["a" := TNull]);
            var patch := TMap(map["x" := TArr([marker])]);
            && Applied(Empty, patch) == map["x" := TArr([marker])] && NullFree(TMap(Applied(Empty, patch)))
            && !Clean(TMap(Applied(Empty, patch)))
  {
    var marker := TMap(map["a" := TNull]);
    var patch := TMap(map["x" := TArr([marker])]);
    WrittenAt(Empty, patch, "x");
    assert Applied(Empty, patch) == map["x" := TArr([marker])];
    assert !Clean(marker) by { assert "a" in marker.m; }
    assert !Clean(TArr([marker])) by { assert [marker][0] == marker; }
  }
}
