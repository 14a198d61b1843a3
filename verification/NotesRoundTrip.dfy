/** When a read without notes, written back as it was, restores the stored document to
    the byte: exactly when every note has something to hold on to. */
module NotesRoundTrip {
  import opened Values
  import opened Notes

  /** The note at `i` finds its subject again: the map itself, a key that is no note, or a
      note before it that does. */
  predicate Anchored(om: seq<Field>, i: nat)
    requires i < |om| && IsComment(om[i].key)
    decreases i
  {
    var s := Subject(om[i].key);
    s == "" ||
    (Find(om, s).Some? &&
     (!IsComment(s) || exists j :: 0 <= j < i && om[j].key == s && Anchored(om, j)))
  }

  /** No note at any depth. */
  predicate NoteFree(v: Value) {
    match v
    case Obj(fs) => forall i :: 0 <= i < |fs| ==> !IsComment(fs[i].key) && NoteFree(fs[i].value)
    case Arr(items) => forall i :: 0 <= i < |items| ==> NoteFree(items[i])
    case _ => true
  }

  /** Every note is anchored, at every depth maps lead to, and no array holds any. */
  predicate Restorable(v: Value) {
    match v
    case Obj(fs) =>
      forall i :: 0 <= i < |fs| ==>
        if IsComment(fs[i].key) then Anchored(fs, i) else Restorable(fs[i].value)
    case _ => NoteFree(v)
  }

  // ---------------------------------------------------------------- strip is the identity where there is nothing to strip

  lemma {:induction false} StripIsId(v: Value)
    ensures Strip(v) == v <==> NoteFree(v)
    decreases v, 1
  {
    match v
    case Obj(fs) => StripFieldsIsId(fs);
    case Arr(items) => StripItemsIsId(items);
    case _ =>
  }

  lemma {:induction false} StripShorter(fs: seq<Field>)
    ensures |StripFields(fs)| <= |fs|
  {
    if fs != [] { StripShorter(fs[1..]); }
  }

  lemma {:induction false} StripFieldsIsId(fs: seq<Field>)
    ensures StripFields(fs) == fs <==> NoteFree(Obj(fs))
    decreases fs, 0
  {
    if fs != [] {
      var f, rest := fs[0], fs[1..];
      assert fs == [f] + rest;
      StripShorter(rest);
      StripIsId(f.value);
      StripFieldsIsId(rest);
      assert NoteFree(Obj(fs)) <==> !IsComment(f.key) && NoteFree(f.value) && NoteFree(Obj(rest)) by {
        assert forall i :: 0 <= i < |rest| ==> rest[i] == fs[i + 1];
        assert forall i :: 1 <= i < |fs| ==> fs[i] == rest[i - 1];
      }
      if !IsComment(f.key) {
        assert StripFields(fs) == [Field(f.key, Strip(f.value))] + StripFields(rest);
        assert StripFields(fs) == fs <==> Strip(f.value) == f.value && StripFields(rest) == rest by {
          assert StripFields(fs)[0] == Field(f.key, Strip(f.value)) && StripFields(fs)[1..] == StripFields(rest);
        }
      }
    }
  }

  lemma {:induction false} StripItemsIsId(items: seq<Value>)
    ensures StripItems(items) == items <==> NoteFree(Arr(items))
    decreases items, 0
  {
    if items != [] {
      var rest := items[1..];
      assert items == [items[0]] + rest;
      StripIsId(items[0]);
      StripItemsIsId(rest);
      assert NoteFree(Arr(items)) <==> NoteFree(items[0]) && NoteFree(Arr(rest)) by {
        assert forall i :: 0 <= i < |rest| ==> rest[i] == items[i + 1];
        assert forall i :: 1 <= i < |items| ==> items[i] == rest[i - 1];
      }
      assert StripItems(items)[0] == Strip(items[0]) && StripItems(items)[1..] == StripItems(rest);
    }
  }

  // ---------------------------------------------------------------- what comes back

  /** A key that is no note, as it comes back. */
  function Back(f: Field): Field {
    Field(f.key, if f.value.Obj? then Keep(f.value, Strip(f.value)) else Strip(f.value))
  }

  predicate Stays(om: seq<Field>, i: nat)
    requires i < |om|
  {
    IsComment(om[i].key) ==> Anchored(om, i)
  }

  /** The keys before `i`, as the loop has them once it has come to `i`. */
  function Settled(om: seq<Field>, i: nat): seq<Field>
    requires i <= |om|
  {
    if i == 0 then []
    else Settled(om, i - 1) +
         (if !IsComment(om[i - 1].key) then [Back(om[i - 1])]
          else if Anchored(om, i - 1) then [om[i - 1]] else [])
  }

  /** The keys from `i` on: the notes among them are still out. */
  function Waiting(om: seq<Field>, i: nat): seq<Field>
    requires i <= |om|
    decreases |om| - i
  {
    if i == |om| then []
    else (if IsComment(om[i].key) then [] else [Back(om[i])]) + Waiting(om, i + 1)
  }

  lemma {:induction false} FindJoin(a: seq<Field>, b: seq<Field>, k: string)
    ensures Find(a + b, k) == if Find(a, k).Some? then Find(a, k) else Find(b, k)
  {
    if a == [] {
      assert a + b == b;
    } else {
      assert (a + b)[1..] == a[1..] + b;
      FindJoin(a[1..], b, k);
    }
  }

  lemma {:induction false} SettledFind(om: seq<Field>, i: nat, k: string)
    requires i <= |om|
    ensures Find(Settled(om, i), k).Some? <==> exists j :: 0 <= j < i && om[j].key == k && Stays(om, j)
  {
    hide Anchored, Keep, Strip, IsComment;
    if i > 0 {
      SettledFind(om, i - 1, k);
      var last := if !IsComment(om[i - 1].key) then [Back(om[i - 1])]
                  else if Anchored(om, i - 1) then [om[i - 1]] else [];
      FindJoin(Settled(om, i - 1), last, k);
      assert Find(last, k).Some? <==> om[i - 1].key == k && Stays(om, i - 1);
    }
  }

  lemma {:induction false} WaitingFind(om: seq<Field>, i: nat, k: string)
    requires i <= |om| && IsComment(k)
    ensures Find(Waiting(om, i), k).None?
    decreases |om| - i
  {
    hide Keep, Strip;
    if i < |om| {
      WaitingFind(om, i + 1, k);
      FindJoin(if IsComment(om[i].key) then [] else [Back(om[i])], Waiting(om, i + 1), k);
    }
  }

  lemma {:induction false} WaitingHas(om: seq<Field>, i: nat, j: nat)
    requires i <= j < |om| && !IsComment(om[j].key)
    ensures Find(Waiting(om, i), om[j].key).Some?
    decreases j - i
  {
    hide Keep, Strip;
    FindJoin(if IsComment(om[i].key) then [] else [Back(om[i])], Waiting(om, i + 1), om[j].key);
    if i < j { WaitingHas(om, i + 1, j); }
  }

  /** Stripped and with the maps below restored, every key that is no note is waiting. */
  lemma {:induction false} StartsWaiting(om: seq<Field>, i: nat)
    requires WFFields(om) && i <= |om|
    ensures KeepBelow(om, StripFields(om[i..])) == Waiting(om, i)
    decreases |om| - i
  {
    hide WFFields, Keep;
    if i < |om| {
      StartsWaiting(om, i + 1);
      assert om[i..][1..] == om[i + 1..];
      var rest := StripFields(om[i + 1..]);
      if !IsComment(om[i].key) {
        FindField(om, i);
        var f := Field(om[i].key, Strip(om[i].value));
        assert StripFields(om[i..]) == [f] + rest;
        assert KeptField(om, f) == Back(om[i]);
        KeepBelowCons(om, f, rest);
      } else {
        assert StripFields(om[i..]) == rest;
      }
    }
  }

  lemma KeepBelowCons(om: seq<Field>, f: Field, rest: seq<Field>)
    ensures KeepBelow(om, [f] + rest) == [KeptField(om, f)] + KeepBelow(om, rest)
  {
    hide KeptField;
  }

  /** In the list, a note is alive exactly when it is anchored, and is not there yet. */
  lemma NoteInList(om: seq<Field>, i: nat)
    requires WFFields(om) && i < |om| && IsComment(om[i].key)
    ensures var out := Settled(om, i) + Waiting(om, i);
            Find(out, om[i].key).None? && (Alive(om, out, om[i].key) <==> Anchored(om, i))
  {
    hide WFFields, Settled, Waiting;
    var k := om[i].key;
    var s := Subject(k);
    var out := Settled(om, i) + Waiting(om, i);
    FindJoin(Settled(om, i), Waiting(om, i), k);
    SettledFind(om, i, k);
    WaitingFind(om, i, k);
    forall j | 0 <= j < i ensures om[j].key != k { KeysDiffer(om, j, i); }
    FindJoin(Settled(om, i), Waiting(om, i), s);
    SettledFind(om, i, s);
    if IsComment(s) {
      WaitingFind(om, i, s);
    } else if Find(om, s).Some? {
      var j := FindIndex(om, s);
      assert Stays(om, j);
      if j >= i { WaitingHas(om, i, j); }
      assert Find(out, s).Some?;
    }
  }

  lemma {:induction false} PositionOf(a: seq<Field>, f: Field, b: seq<Field>)
    requires Find(a, f.key).None?
    ensures Position(a + [f] + b, f.key) == Some(|a|)
  {
    if a == [] {
      assert a + [f] + b == [f] + b;
    } else {
      PositionOf(a[1..], f, b);
      assert (a + [f] + b)[1..] == a[1..] + [f] + b;
    }
  }

  lemma SlotStep(om: seq<Field>, out: seq<Field>, i: nat)
    requires 0 < i <= |om|
    ensures Slot(om, out, i) == match Position(out, om[i - 1].key) case Some(p) => p + 1 case None => Slot(om, out, i - 1)
  {
    hide Position;
  }

  /** One key on: it is settled last, or not at all. */
  lemma SettledStep(om: seq<Field>, i: nat) returns (f: Field)
    requires i < |om|
    ensures f.key == om[i].key
    ensures Settled(om, i + 1) == if Stays(om, i) then Settled(om, i) + [f] else Settled(om, i)
  {
    hide Anchored, Keep, Strip;
    f := if IsComment(om[i].key) then om[i] else Back(om[i]);
  }

  lemma NotSettledYet(om: seq<Field>, i: nat)
    requires WFFields(om) && i < |om|
    ensures Find(Settled(om, i), om[i].key).None?
  {
    hide WFFields, Settled, Stays;
    SettledFind(om, i, om[i].key);
    forall j | 0 <= j < i ensures om[j].key != om[i].key { KeysDiffer(om, j, i); }
  }

  /** The slot a note goes back to is the one after everything settled before it. */
  lemma {:induction false} SlotIsNext(om: seq<Field>, i: nat, more: seq<Field>)
    requires WFFields(om) && i <= |om|
    requires forall j :: 0 <= j < i && !Stays(om, j) ==> Find(Settled(om, i) + more, om[j].key).None?
    ensures Slot(om, Settled(om, i) + more, i) == |Settled(om, i)|
    decreases i
  {
    hide WFFields, Stays, Settled, Slot, Position, Find;
    if i == 0 {
      NoSlotYet(om, more);
    } else {
      var before, out := Settled(om, i - 1), Settled(om, i) + more;
      var f := SettledStep(om, i - 1);
      SlotStep(om, out, i);
      if Stays(om, i - 1) {
        NotSettledYet(om, i - 1);
        PositionOf(before, f, more);
      } else {
        PositionInside(out, om[i - 1].key);
        SlotIsNext(om, i - 1, more);
      }
    }
  }

  lemma NoSlotYet(om: seq<Field>, more: seq<Field>)
    ensures Settled(om, 0) == [] && Slot(om, Settled(om, 0) + more, 0) == 0
  {
  }

  /** A note that does not stay is nowhere in the list. */
  lemma DroppedIsNowhere(om: seq<Field>, i: nat, j: nat)
    requires WFFields(om) && j < i <= |om| && !Stays(om, j)
    ensures Find(Settled(om, i) + Waiting(om, i), om[j].key).None?
  {
    hide WFFields, Settled, Waiting, Anchored;
    var k := om[j].key;
    FindJoin(Settled(om, i), Waiting(om, i), k);
    SettledFind(om, i, k);
    WaitingFind(om, i, k);
    forall x | 0 <= x < i && om[x].key == k ensures x == j {
      if x < j { KeysDiffer(om, x, j); } else if j < x { KeysDiffer(om, j, x); }
    }
  }

  lemma OneFurther(om: seq<Field>, i: nat)
    requires i < |om|
    ensures IsComment(om[i].key) ==>
              && Waiting(om, i) == Waiting(om, i + 1)
              && Settled(om, i + 1) == if Anchored(om, i) then Settled(om, i) + [om[i]] else Settled(om, i)
    ensures !IsComment(om[i].key) ==>
              && Waiting(om, i) == [Back(om[i])] + Waiting(om, i + 1)
              && Settled(om, i + 1) == Settled(om, i) + [Back(om[i])]
  {
    hide Anchored, Back;
  }

  lemma Splits(a: seq<Field>, b: seq<Field>)
    ensures (a + b)[..|a|] == a && (a + b)[|a|..] == b
  {
  }

  lemma SettleOne(om: seq<Field>, i: nat)
    requires WFFields(om) && i < |om|
    ensures KeepOne(om, Settled(om, i) + Waiting(om, i), i) == Settled(om, i + 1) + Waiting(om, i + 1)
  {
    hide WFFields, Anchored, Alive, Slot, Find, Back, Settled, Waiting;
    var a, b := Settled(om, i), Waiting(om, i);
    OneFurther(om, i);
    if IsComment(om[i].key) {
      NoteInList(om, i);
      if Anchored(om, i) {
        forall j | 0 <= j < i && !Stays(om, j) ensures Find(a + b, om[j].key).None? { DroppedIsNowhere(om, i, j); }
        SlotIsNext(om, i, b);
        Splits(a, b);
      }
    } else {
      assert a + ([Back(om[i])] + Waiting(om, i + 1)) == (a + [Back(om[i])]) + Waiting(om, i + 1);
    }
  }

  /** The loop settles one key after the other. */
  lemma {:induction false} LoopSettles(om: seq<Field>, i: nat)
    requires WFFields(om) && i <= |om|
    ensures KeepFrom(om, Settled(om, i) + Waiting(om, i), i) == Settled(om, |om|)
    decreases |om| - i
  {
    hide WFFields, Settled, KeepOne;
    if i < |om| {
      SettleOne(om, i);
      LoopSettles(om, i + 1);
    }
  }

  // ---------------------------------------------------------------- the theorem

  lemma {:induction false} SettledShorter(om: seq<Field>, i: nat)
    requires i <= |om|
    ensures |Settled(om, i)| <= i
  {
    if i > 0 { SettledShorter(om, i - 1); }
  }

  lemma {:induction false} AllStay(om: seq<Field>, i: nat)
    requires i <= |om|
    ensures Settled(om, i) == om[..i] <==>
              forall j :: 0 <= j < i ==> Stays(om, j) && (!IsComment(om[j].key) ==> Back(om[j]) == om[j])
  {
    hide Anchored, Back;
    if i > 0 {
      AllStay(om, i - 1);
      SettledShorter(om, i - 1);
      var before, last := Settled(om, i - 1), Settled(om, i)[|Settled(om, i - 1)|..];
      assert Settled(om, i) == before + last;
      assert om[..i] == om[..i - 1] + [om[i - 1]];
      if Settled(om, i) == om[..i] {
        assert |last| == 1 && last[0] == om[i - 1];
        assert before == om[..i - 1];
      }
    }
  }

  /** A stored document read without its notes and written back comes back as it was, key
      order included, exactly when it is restorable. */
  lemma {:induction false} RoundTrip(v: Value)
    requires WF(v)
    ensures Keep(v, Strip(v)) == v <==> Restorable(v)
    decreases v
  {
    hide WFFields, Anchored, Settled, Waiting;
    StripIsId(v);
    if v.Obj? {
      var om := v.fields;
      assert WF(v) <==> WFFields(om);
      StartsWaiting(om, 0);
      assert om[0..] == om;
      LoopSettles(om, 0);
      NothingSettled(om);
      assert Keep(v, Strip(v)) == Obj(Settled(om, |om|));
      AllStay(om, |om|);
      assert om[..|om|] == om;
      forall j | 0 <= j < |om| ensures Back(om[j]) == om[j] <==> Restorable(om[j].value) {
        FindField(om, j);
        RoundTrip(om[j].value);
        StripIsId(om[j].value);
      }
      assert Restorable(v) <==> forall j :: 0 <= j < |om| ==> Stays(om, j) && (!IsComment(om[j].key) ==> Back(om[j]) == om[j]);
    }
  }

  lemma NothingSettled(om: seq<Field>)
    ensures Settled(om, 0) + Waiting(om, 0) == Waiting(om, 0)
  {
  }
}
