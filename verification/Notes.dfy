/** Notes: keys ending in `__`. A read leaves them out, and a write that did not see them
    puts the stored ones back where they were. Here the order of keys matters. */
module Notes {
  import opened Values
  import opened Patch

  predicate IsComment(k: string) {
    |k| >= 2 && k[|k| - 2..] == COMMENT_SUFFIX
  }

  /** What a note is about; the empty name stands for the map itself. */
  function Subject(k: string): string
    requires IsComment(k)
  {
    k[..|k| - 2]
  }

  // ---------------------------------------------------------------- strip

  /** `strip_comments`: drops the notes of every map, also of maps inside lists. */
  function Strip(v: Value): Value
    decreases v, 1
  {
    match v
    case Obj(fs) => Obj(StripFields(fs))
    case Arr(items) => Arr(StripItems(items))
    case _ => v
  }

  function StripFields(fs: seq<Field>): seq<Field>
    decreases fs, 0
  {
    if fs == [] then []
    else (if IsComment(fs[0].key) then [] else [Field(fs[0].key, Strip(fs[0].value))]) + StripFields(fs[1..])
  }

  function StripItems(items: seq<Value>): seq<Value>
    decreases items, 0
  {
    if items == [] then [] else [Strip(items[0])] + StripItems(items[1..])
  }

  // ---------------------------------------------------------------- keep

  function Position(out: seq<Field>, k: string): Option<nat> {
    if out == [] then None
    else if out[0].key == k then Some(0)
    else match Position(out[1..], k) case Some(p) => Some(p + 1) case None => None
  }

  /** Behind the closest earlier key that the list has; in front if it has none of them. */
  function Slot(om: seq<Field>, out: seq<Field>, i: nat): (at: nat)
    requires i <= |om|
    ensures at <= |out|
  {
    if i == 0 then 0
    else match Position(out, om[i - 1].key)
      case Some(p) => PositionInside(out, om[i - 1].key); p + 1
      case None => Slot(om, out, i - 1)
  }

  lemma {:induction false} PositionInside(out: seq<Field>, k: string)
    ensures Position(out, k).Some? <==> Find(out, k).Some?
    ensures Position(out, k).Some? ==>
              Position(out, k).value < |out| && out[Position(out, k).value] == Field(k, Find(out, k).value)
  {
    if out != [] && out[0].key != k { PositionInside(out[1..], k); }
  }

  predicate Alive(om: seq<Field>, out: seq<Field>, k: string)
    requires IsComment(k)
  {
    Subject(k) == "" || (Find(om, Subject(k)).Some? && Find(out, Subject(k)).Some?)
  }

  /** One stored key looked at: a note whose subject is still there goes back in. */
  function KeepOne(om: seq<Field>, out: seq<Field>, i: nat): seq<Field>
    requires i < |om|
  {
    var k := om[i].key;
    if !IsComment(k) || !Alive(om, out, k) || Find(out, k).Some? then out
    else var at := Slot(om, out, i); out[..at] + [om[i]] + out[at..]
  }

  function KeepFrom(om: seq<Field>, out: seq<Field>, i: nat): seq<Field>
    requires i <= |om|
    decreases |om| - i
  {
    if i == |om| then out else KeepFrom(om, KeepOne(om, out, i), i + 1)
  }

  /** `keep_comments`: the payload together with those stored notes that survive it. */
  function Keep(old': Value, new': Value): Value
    decreases new'
  {
    if old'.Obj? && new'.Obj?
    then Obj(KeepFrom(old'.fields, KeepBelow(old'.fields, new'.fields), 0))
    else new'
  }

  /** The payload's own keys, notes put back below those both sides hold as maps. */
  function KeepBelow(om: seq<Field>, nm: seq<Field>): seq<Field>
    decreases nm
  {
    seq(|nm|, i requires 0 <= i < |nm| => KeptField(om, nm[i]))
  }

  function KeptField(om: seq<Field>, f: Field): Field
    decreases f
  {
    var ov := Find(om, f.key);
    if ov.Some? && ov.value.Obj? && f.value.Obj? then Field(f.key, Keep(ov.value, f.value)) else f
  }

  // ---------------------------------------------------------------- a write changes no content

  lemma StripFirst(f: Field, fs: seq<Field>)
    ensures StripFields([f] + fs) == (if IsComment(f.key) then [] else [Field(f.key, Strip(f.value))]) + StripFields(fs)
  {
    hide Strip, IsComment;
    assert ([f] + fs)[1..] == fs;
  }

  lemma {:induction false} StripJoin(a: seq<Field>, b: seq<Field>)
    ensures StripFields(a + b) == StripFields(a) + StripFields(b)
  {
    hide Strip, IsComment, StripFields;
    if a == [] {
      assert a + b == b;
      StripNone();
    } else {
      StripJoin(a[1..], b);
      StripFirst(a[0], a[1..]);
      StripFirst(a[0], a[1..] + b);
      assert a == [a[0]] + a[1..] && a + b == [a[0]] + (a[1..] + b);
    }
  }

  lemma StripNone()
    ensures StripFields([]) == []
  {
  }

  lemma NoteLeavesNoTrace(a: seq<Field>, note: Field, b: seq<Field>)
    requires IsComment(note.key)
    ensures StripFields(a + [note] + b) == StripFields(a + b)
  {
    StripJoin(a + [note], b);
    StripJoin(a, [note]);
    StripJoin(a, b);
    assert [note][1..] == [];
  }

  lemma {:induction false} KeepFromStrips(om: seq<Field>, out: seq<Field>, i: nat)
    requires i <= |om|
    ensures StripFields(KeepFrom(om, out, i)) == StripFields(out)
    decreases |om| - i
  {
    hide StripFields, Slot, Alive;
    if i < |om| {
      KeepFromStrips(om, KeepOne(om, out, i), i + 1);
      if KeepOne(om, out, i) != out {
        var at := Slot(om, out, i);
        NoteLeavesNoTrace(out[..at], om[i], out[at..]);
        assert out[..at] + out[at..] == out;
      }
    }
  }

  /** Whatever was stored, what a read without notes then sees is the payload, order included. */
  lemma {:induction false} StripKeep(old': Value, new': Value)
    ensures Strip(Keep(old', new')) == Strip(new')
    decreases new', 1
  {
    if old'.Obj? && new'.Obj? {
      StripKeepBelow(old'.fields, new'.fields);
      KeepFromStrips(old'.fields, KeepBelow(old'.fields, new'.fields), 0);
    }
  }

  lemma {:induction false} StripKeepBelow(om: seq<Field>, nm: seq<Field>)
    ensures StripFields(KeepBelow(om, nm)) == StripFields(nm)
    decreases nm, 0
  {
    if nm != [] {
      StripKeepBelow(om, nm[1..]);
      var ov := Find(om, nm[0].key);
      if ov.Some? && ov.value.Obj? && nm[0].value.Obj? {
        StripKeep(ov.value, nm[0].value);
      }
      assert KeepBelow(om, nm)[1..] == KeepBelow(om, nm[1..]);
    }
  }

  // ---------------------------------------------------------------- which notes come back

  lemma {:induction false} FindAround(a: seq<Field>, f: Field, b: seq<Field>, k: string)
    requires Find(a + b, f.key).None?
    ensures Find(a + [f] + b, k) == if k == f.key then Some(f.value) else Find(a + b, k)
  {
    if a == [] {
      assert a + [f] + b == [f] + b && a + b == b;
      assert ([f] + b)[1..] == b;
    } else {
      assert (a + [f] + b)[1..] == a[1..] + [f] + b;
      assert (a + b)[1..] == a[1..] + b;
      FindAround(a[1..], f, b, k);
    }
  }

  lemma {:induction false} WFAround(a: seq<Field>, f: Field, b: seq<Field>)
    requires WFFields(a + b) && WF(f.value) && Find(a + b, f.key).None?
    ensures WFFields(a + [f] + b)
  {
    if a == [] {
      assert a + [f] + b == [f] + b && a + b == b;
      assert ([f] + b)[1..] == b;
    } else {
      assert (a + [f] + b)[1..] == a[1..] + [f] + b;
      assert (a + b)[1..] == a[1..] + b;
      WFAround(a[1..], f, b);
      FindAround(a[1..], f, b, a[0].key);
    }
  }

  /** One step of the loop, seen through lookups. */
  lemma KeepOneFind(om: seq<Field>, out: seq<Field>, i: nat, k: string)
    requires WFFields(om) && i < |om|
    ensures Find(KeepOne(om, out, i), k) ==
              if k == om[i].key && IsComment(k) && Alive(om, out, k) && Find(out, k).None? then Find(om, k)
              else Find(out, k)
    ensures WFFields(out) ==> WFFields(KeepOne(om, out, i))
  {
    hide Alive, Slot, WFFields;
    FindField(om, i);
    if KeepOne(om, out, i) != out {
      var at := Slot(om, out, i);
      assert out[..at] + out[at..] == out;
      FindAround(out[..at], om[i], out[at..], k);
      if WFFields(out) { WFAround(out[..at], om[i], out[at..]); }
    }
  }

  /** What is in the list stays. */
  lemma {:induction false} KeepFromStays(om: seq<Field>, out: seq<Field>, i: nat, k: string)
    requires WFFields(om) && i <= |om|
    ensures Find(out, k).Some? ==> Find(KeepFrom(om, out, i), k) == Find(out, k)
    ensures WFFields(out) ==> WFFields(KeepFrom(om, out, i))
    decreases |om| - i
  {
    hide KeepOne, WFFields, Alive, Find;
    if i < |om| {
      KeepOneFind(om, out, i, k);
      KeepFromStays(om, KeepOne(om, out, i), i + 1, k);
    }
  }

  /** What comes into the list is a stored note, as it was. */
  lemma {:induction false} KeepFromAdds(om: seq<Field>, out: seq<Field>, i: nat, k: string)
    requires WFFields(om) && i <= |om|
    requires Find(out, k).None? && Find(KeepFrom(om, out, i), k).Some?
    ensures IsComment(k) && Find(KeepFrom(om, out, i), k) == Find(om, k)
    decreases |om| - i
  {
    hide KeepOne, WFFields, Find, Alive, IsComment;
    if i < |om| {
      var next := KeepOne(om, out, i);
      assert KeepFrom(om, out, i) == KeepFrom(om, next, i + 1);
      KeepOneFind(om, out, i, k);
      if Find(next, k).None? { KeepFromAdds(om, next, i + 1, k); } else { KeepFromStays(om, next, i + 1, k); }
    }
  }

  /** The `i`-th stored key is a note the payload does not have, and what it is about is there:
      the map itself, a key on both sides, or a note stored before it that came back. */
  predicate ComesBack(om: seq<Field>, nm: seq<Field>, i: nat)
    requires i < |om|
    decreases i
  {
    var k := om[i].key;
    && IsComment(k) && Find(nm, k).None?
    && (Subject(k) == ""
        || (Find(om, Subject(k)).Some? && (Find(nm, Subject(k)).Some? || CameBack(om, nm, Subject(k), i))))
  }

  /** `k` is a note that came back from among the first `n` stored keys. */
  predicate CameBack(om: seq<Field>, nm: seq<Field>, k: string, n: nat)
    requires n <= |om|
    decreases n, 0
  {
    exists j :: 0 <= j < n && om[j].key == k && ComesBack(om, nm, j)
  }

  /** The list once the first `i` stored keys have been looked at. */
  ghost predicate UpTo(om: seq<Field>, nm: seq<Field>, out: seq<Field>, i: nat)
    requires i <= |om|
  {
    forall k :: Find(out, k).Some? <==> Find(nm, k).Some? || CameBack(om, nm, k, i)
  }

  lemma CameBackNext(om: seq<Field>, nm: seq<Field>, k: string, i: nat)
    requires i < |om|
    ensures CameBack(om, nm, k, i + 1) <==> CameBack(om, nm, k, i) || (om[i].key == k && ComesBack(om, nm, i))
  {
    hide ComesBack;
  }

  lemma UpToNext(om: seq<Field>, nm: seq<Field>, out: seq<Field>, i: nat)
    requires WFFields(om) && i < |om| && UpTo(om, nm, out, i)
    ensures UpTo(om, nm, KeepOne(om, out, i), i + 1)
  {
    hide KeepOne, WFFields, Find, CameBack, IsComment;
    FindField(om, i);
    forall k ensures Find(KeepOne(om, out, i), k).Some? <==> Find(nm, k).Some? || CameBack(om, nm, k, i + 1) {
      KeepOneFind(om, out, i, k);
      CameBackNext(om, nm, k, i);
    }
  }

  lemma {:induction false} UpToEnd(om: seq<Field>, nm: seq<Field>, out: seq<Field>, i: nat)
    requires WFFields(om) && i <= |om| && UpTo(om, nm, out, i)
    ensures UpTo(om, nm, KeepFrom(om, out, i), |om|)
    decreases |om| - i
  {
    hide KeepOne, WFFields, UpTo;
    if i < |om| {
      UpToNext(om, nm, out, i);
      UpToEnd(om, nm, KeepOne(om, out, i), i + 1);
    }
  }

  lemma {:induction false} KeepBelowFind(om: seq<Field>, nm: seq<Field>, k: string)
    ensures Find(KeepBelow(om, nm), k) ==
              match Find(nm, k) case Some(v) => Some(KeptField(om, Field(k, v)).value) case None => None
  {
    hide KeptField;
    if nm != [] {
      KeepBelowFind(om, nm[1..], k);
      assert KeepBelow(om, nm)[1..] == KeepBelow(om, nm[1..]);
      assert KeepBelow(om, nm)[0] == KeptField(om, nm[0]);
      KeptKey(om, nm[0]);
    }
  }

  lemma KeptKey(om: seq<Field>, f: Field)
    ensures KeptField(om, f).key == f.key
  {
  }

  /** The rule of a write that did not see the notes, key by key: the payload's own keys and
      notes win; of the stored ones exactly those that come back are there, as they were. */
  lemma KeepRule(om: seq<Field>, nm: seq<Field>, k: string)
    requires WFFields(om)
    ensures Find(Keep(Obj(om), Obj(nm)).fields, k) ==
              if Find(nm, k).Some? then Some(KeptField(om, Field(k, Find(nm, k).value)).value)
              else if CameBack(om, nm, k, |om|) then Find(om, k)
              else None
  {
    hide KeepFrom, KeptField, WFFields, CameBack, Find;
    var out := KeepBelow(om, nm);
    forall j ensures Find(out, j).Some? <==> Find(nm, j).Some? || CameBack(om, nm, j, 0) {
      KeepBelowFind(om, nm, j);
      NoneCameBack(om, nm, j);
    }
    UpToEnd(om, nm, out, 0);
    KeepBelowFind(om, nm, k);
    KeepFromStays(om, out, 0, k);
    if Find(out, k).None? && Find(KeepFrom(om, out, 0), k).Some? { KeepFromAdds(om, out, 0, k); }
  }

  lemma NoneCameBack(om: seq<Field>, nm: seq<Field>, k: string)
    ensures !CameBack(om, nm, k, 0)
  {
  }

  lemma {:induction false} KeepWF(old': Value, new': Value)
    requires WF(old') && WF(new')
    ensures WF(Keep(old', new'))
    decreases new', 1
  {
    if old'.Obj? && new'.Obj? {
      KeepBelowWF(old'.fields, new'.fields);
      KeepFromStays(old'.fields, KeepBelow(old'.fields, new'.fields), 0, "");
    }
  }

  lemma {:induction false} KeepBelowWF(om: seq<Field>, nm: seq<Field>)
    requires WFFields(om) && WFFields(nm)
    ensures WFFields(KeepBelow(om, nm))
    decreases nm, 0
  {
    if nm != [] {
      var f, ov := nm[0], Find(om, nm[0].key);
      KeepBelowWF(om, nm[1..]);
      assert KeepBelow(om, nm)[1..] == KeepBelow(om, nm[1..]);
      KeepBelowFind(om, nm[1..], f.key);
      if ov.Some? && ov.value.Obj? && f.value.Obj? {
        FindWF(om, f.key);
        KeepWF(ov.value, f.value);
      }
    }
  }

  // ---------------------------------------------------------------- the program

  /** Where a key is in the list. */
  method PositionOf(out: seq<Field>, k: string) returns (p: Option<nat>)
    ensures p == Position(out, k)
  {
    for i := 0 to |out|
      invariant Position(out, k) == match Position(out[i..], k) case Some(x) => Some(x + i) case None => None
    {
      assert out[i..][1..] == out[i + 1..];
      if out[i].key == k { return Some(i); }
    }
    return None;
  }

  /** The nearest of the stored keys before `i` that is in the list, looked for backwards. */
  method FindSlot(om: seq<Field>, out: seq<Field>, i: nat) returns (at: nat)
    requires i <= |om|
    ensures at == Slot(om, out, i)
  {
    for j := i downto 0
      invariant Slot(om, out, i) == Slot(om, out, j)
    {
      var p := PositionOf(out, om[j].key);
      if p.Some? { return p.value + 1; }
    }
    return 0;
  }

  /** `keep_comments`: the payload, with the stored notes inserted one by one behind what they
      stood behind. Without its notes it is the payload; key by key it follows the rule. */
  method KeepComments(old': Value, new': Value) returns (r: Value)
    ensures r == Keep(old', new')
    ensures Strip(r) == Strip(new')
    ensures WF(old') && WF(new') ==> WF(r)
    decreases new', 1
  {
    hide Keep, KeepOne, KeepBelow, KeepFrom, Strip, WF, Slot;
    StripKeep(old', new');
    if WF(old') && WF(new') { KeepWF(old', new'); }
    KeepIs(old', new');
    if !old'.Obj? || !new'.Obj? {
      return new';
    }
    var om := old'.fields;
    var out := KeepCommentsBelow(om, new'.fields);
    for i := 0 to |om|
      invariant KeepFrom(om, out, i) == KeepFrom(om, KeepBelow(om, new'.fields), 0)
    {
      KeepNext(om, out, i);
      var k := om[i].key;
      if |k| >= 2 && k[|k| - 2..] == COMMENT_SUFFIX {
        var subject := k[..|k| - 2];
        var there := PositionOf(out, subject);
        var own := PositionOf(out, k);
        PositionInside(out, subject);
        PositionInside(out, k);
        if (subject == "" || (Find(om, subject).Some? && there.Some?)) && own.None? {
          var at := FindSlot(om, out, i);
          out := out[..at] + [om[i]] + out[at..];
        }
      }
    }
    KeepDone(om, out);
    return Obj(out);
  }

  lemma KeepIs(old': Value, new': Value)
    ensures Keep(old', new') ==
            if old'.Obj? && new'.Obj? then Obj(KeepFrom(old'.fields, KeepBelow(old'.fields, new'.fields), 0)) else new'
  {
  }

  /** One stored key: inserted where it belongs, or passed over. */
  lemma KeepNext(om: seq<Field>, out: seq<Field>, i: nat)
    requires i < |om|
    ensures var k := om[i].key;
            KeepFrom(om, out, i) ==
              if IsComment(k) && Alive(om, out, k) && Find(out, k).None?
              then KeepFrom(om, out[..Slot(om, out, i)] + [om[i]] + out[Slot(om, out, i)..], i + 1)
              else KeepFrom(om, out, i + 1)
  {
    hide Slot, Alive, Find, IsComment;
  }

  lemma KeepDone(om: seq<Field>, out: seq<Field>)
    ensures KeepFrom(om, out, |om|) == out
  {
  }

  method KeepCommentsBelow(om: seq<Field>, nm: seq<Field>) returns (out: seq<Field>)
    ensures out == KeepBelow(om, nm)
    decreases nm, 0
  {
    hide Keep;
    out := [];
    for i := 0 to |nm|
      invariant |out| == i && forall x :: 0 <= x < i ==> out[x] == KeptField(om, nm[x])
    {
      var k, v := nm[i].key, nm[i].value;
      var ov := Find(om, k);
      if ov.Some? && ov.value.Obj? && v.Obj? {
        v := KeepComments(ov.value, v);
      }
      out := out + [Field(k, v)];
    }
  }
}
