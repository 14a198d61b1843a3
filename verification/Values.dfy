/** The document model: `Value` as the store holds it (maps keep their insertion
    order), and `Tree`, the same document with the order forgotten, which is what the
    source's `==` compares. */
module Values {

  datatype Option<+T> = None | Some(value: T)

  /** A JSON number. An integer and a float are different numbers, `1 != 1.0`. */
  datatype Number = Int(i: int) | Float(r: real)

  datatype Field = Field(key: string, value: Value)

  datatype Value =
    | Null
    | Bool(b: bool)
    | Num(n: Number)
    | Str(s: string)
    | Arr(items: seq<Value>)
    | Obj(fields: seq<Field>)

  /** A document up to the order of its maps' keys. */
  datatype Tree =
    | TNull
    | TBool(b: bool)
    | TNum(n: Number)
    | TStr(s: string)
    | TArr(items: seq<Tree>)
    | TMap(m: map<string, Tree>)

  type Path = seq<string>

  type Byte = x: int | 0 <= x < 256

  // ---------------------------------------------------------------- well-formedness

  /** Every map, at any depth, has distinct keys: what the map type itself guarantees. */
  predicate WF(v: Value)
    decreases v, 1
  {
    match v
    case Arr(items) => forall i :: 0 <= i < |items| ==> WF(items[i])
    case Obj(fs) => WFFields(fs)
    case _ => true
  }

  predicate WFFields(fs: seq<Field>)
    decreases fs, 0
  {
    fs == [] || (Find(fs[1..], fs[0].key).None? && WF(fs[0].value) && WFFields(fs[1..]))
  }

  // ---------------------------------------------------------------- meaning

  function Meaning(v: Value): Tree
    decreases v, 1
  {
    match v
    case Null => TNull
    case Bool(b) => TBool(b)
    case Num(n) => TNum(n)
    case Str(s) => TStr(s)
    case Arr(items) => TArr(Meanings(items))
    case Obj(fs) => TMap(Contents(fs))
  }

  function Meanings(items: seq<Value>): (r: seq<Tree>)
    ensures |r| == |items|
    ensures forall i :: 0 <= i < |items| ==> r[i] == Meaning(items[i])
    decreases items, 0
  {
    if items == [] then [] else [Meaning(items[0])] + Meanings(items[1..])
  }

  function Contents(fs: seq<Field>): map<string, Tree>
    decreases fs, 0
  {
    if fs == [] then map[] else Contents(fs[1..])[fs[0].key := Meaning(fs[0].value)]
  }

  // ---------------------------------------------------------------- ordered map operations

  /** `map.get(k)`. */
  function Find(fs: seq<Field>, k: string): Option<Value> {
    if fs == [] then None
    else if fs[0].key == k then Some(fs[0].value)
    else Find(fs[1..], k)
  }

  /** `map.insert(k, v)`: in place when the key is there, at the end otherwise. */
  function Insert(fs: seq<Field>, k: string, v: Value): seq<Field> {
    if fs == [] then [Field(k, v)]
    else if fs[0].key == k then [Field(k, v)] + fs[1..]
    else [fs[0]] + Insert(fs[1..], k, v)
  }

  /** `map.shift_remove(k)`: the others keep their order. */
  function Remove(fs: seq<Field>, k: string): seq<Field> {
    if fs == [] then []
    else if fs[0].key == k then fs[1..]
    else [fs[0]] + Remove(fs[1..], k)
  }

  // ---------------------------------------------------------------- their laws

  /** Looking a key up and forgetting the order commute. */
  lemma {:induction false} FindMeans(fs: seq<Field>, k: string)
    ensures k in Contents(fs) <==> Find(fs, k).Some?
    ensures k in Contents(fs) ==> Contents(fs)[k] == Meaning(Find(fs, k).value)
  {
    if fs != [] {
      FindMeans(fs[1..], k);
    }
  }

  lemma {:induction false} FindIndex(fs: seq<Field>, k: string) returns (x: nat)
    requires Find(fs, k).Some?
    ensures x < |fs| && fs[x] == Field(k, Find(fs, k).value)
  {
    if fs[0].key == k {
      x := 0;
    } else {
      x := FindIndex(fs[1..], k);
      x := x + 1;
    }
  }

  /** In a map with distinct keys the lookup finds the very field. */
  lemma {:induction false} FindField(fs: seq<Field>, i: nat)
    requires WFFields(fs) && i < |fs|
    ensures Find(fs, fs[i].key) == Some(fs[i].value) && WF(fs[i].value)
    ensures fs[i].key in Contents(fs) && Contents(fs)[fs[i].key] == Meaning(fs[i].value)
  {
    FindMeans(fs, fs[i].key);
    if i > 0 {
      FindField(fs[1..], i - 1);
      assert fs[1..][i - 1] == fs[i];
    }
  }

  lemma {:induction false} KeysDiffer(fs: seq<Field>, i: nat, j: nat)
    requires WFFields(fs) && i < j < |fs|
    ensures fs[i].key != fs[j].key
  {
    if i > 0 {
      KeysDiffer(fs[1..], i - 1, j - 1);
    } else {
      assert fs[1..][j - 1] == fs[j];
      FindField(fs[1..], j - 1);
    }
  }

  lemma {:induction false} FindWF(fs: seq<Field>, k: string)
    requires WFFields(fs) && Find(fs, k).Some?
    ensures WF(Find(fs, k).value)
  {
    if fs[0].key != k {
      FindWF(fs[1..], k);
    }
  }

  lemma {:induction false} InsertFind(fs: seq<Field>, k: string, v: Value, j: string)
    ensures Find(Insert(fs, k, v), j) == if j == k then Some(v) else Find(fs, j)
  {
    if fs != [] && fs[0].key != k {
      InsertFind(fs[1..], k, v, j);
    }
  }

  lemma {:induction false} InsertWF(fs: seq<Field>, k: string, v: Value)
    requires WFFields(fs) && WF(v)
    ensures WFFields(Insert(fs, k, v))
  {
    hide Contents, Meaning;
    if fs != [] && fs[0].key != k {
      InsertWF(fs[1..], k, v);
      InsertFind(fs[1..], k, v, fs[0].key);
      assert ([fs[0]] + Insert(fs[1..], k, v))[1..] == Insert(fs[1..], k, v);
    } else if fs != [] {
      assert ([Field(k, v)] + fs[1..])[1..] == fs[1..];
    }
  }

  lemma {:induction false} InsertMeans(fs: seq<Field>, k: string, v: Value)
    ensures Contents(Insert(fs, k, v)) == Contents(fs)[k := Meaning(v)]
  {
    hide Meaning;
    if fs == [] {
    } else if fs[0].key != k {
      InsertMeans(fs[1..], k, v);
      ContentsCons(fs[0], Insert(fs[1..], k, v));
    } else {
      ContentsCons(Field(k, v), fs[1..]);
    }
  }

  lemma ContentsCons(f: Field, fs: seq<Field>)
    ensures Contents([f] + fs) == Contents(fs)[f.key := Meaning(f.value)]
  {
    hide Meaning;
    assert ([f] + fs)[1..] == fs;
  }

  lemma {:induction false} RemoveFind(fs: seq<Field>, k: string, j: string)
    requires j != k
    ensures Find(Remove(fs, k), j) == Find(fs, j)
  {
    if fs != [] && fs[0].key != k {
      RemoveFind(fs[1..], k, j);
    }
  }

  lemma {:induction false} RemoveWF(fs: seq<Field>, k: string)
    requires WFFields(fs)
    ensures WFFields(Remove(fs, k))
  {
    hide Contents, Meaning;
    if fs != [] && fs[0].key != k {
      RemoveWF(fs[1..], k);
      RemoveFind(fs[1..], k, fs[0].key);
      assert ([fs[0]] + Remove(fs[1..], k))[1..] == Remove(fs[1..], k);
    }
  }

  lemma {:induction false} RemoveMeans(fs: seq<Field>, k: string)
    requires WFFields(fs)
    ensures Contents(Remove(fs, k)) == Contents(fs) - {k}
  {
    hide Meaning;
    if fs == [] {
    } else if fs[0].key != k {
      RemoveMeans(fs[1..], k);
      ContentsCons(fs[0], Remove(fs[1..], k));
    } else {
      FindMeans(fs[1..], k);
    }
  }

  // ---------------------------------------------------------------- equality

  /** The source's `==`: maps are equal when they have as many keys and every key of one
      is in the other with an equal value, whatever the order. */
  predicate Same(a: Value, b: Value)
    decreases a, 1
  {
    match (a, b)
    case (Arr(x), Arr(y)) => |x| == |y| && forall i :: 0 <= i < |x| ==> Same(x[i], y[i])
    case (Obj(x), Obj(y)) => |x| == |y| && SameFields(x, y)
    case (_, _) => a == b
  }

  predicate SameFields(x: seq<Field>, y: seq<Field>)
    decreases x, 0
  {
    x == [] ||
    (var other := Find(y, x[0].key);
     other.Some? && Same(x[0].value, other.value) && SameFields(x[1..], y))
  }

  lemma {:induction false} SizeOfContents(fs: seq<Field>)
    requires WFFields(fs)
    ensures |Contents(fs)| == |fs|
  {
    if fs != [] {
      SizeOfContents(fs[1..]);
      FindMeans(fs[1..], fs[0].key);
    }
  }

  /** Comparing two documents with `==` is comparing what they mean. */
  lemma {:induction false} SameIsMeaning(a: Value, b: Value)
    requires WF(a) && WF(b)
    ensures Same(a, b) <==> Meaning(a) == Meaning(b)
    decreases a, 1
  {
    match (a, b)
    case (Arr(x), Arr(y)) =>
      if |x| == |y| {
        forall i | 0 <= i < |x| ensures Same(x[i], y[i]) <==> Meaning(x[i]) == Meaning(y[i]) {
          SameIsMeaning(x[i], y[i]);
        }
        if Meaning(a) == Meaning(b) {
          forall i | 0 <= i < |x| ensures Same(x[i], y[i]) {
            assert Meanings(x)[i] == Meanings(y)[i];
          }
        }
      } else {
        assert |Meanings(x)| != |Meanings(y)|;
      }
    case (Obj(x), Obj(y)) =>
      SizeOfContents(x);
      SizeOfContents(y);
      SameFieldsMeans(x, y);
      if SameFields(x, y) && |x| == |y| {
        SubMapOfSameSize(Contents(x), Contents(y));
      }
    case (_, _) =>
  }

  ghost predicate Included(x: map<string, Tree>, y: map<string, Tree>) {
    forall k :: k in x ==> k in y && x[k] == y[k]
  }

  lemma {:induction false} SameFieldsMeans(x: seq<Field>, y: seq<Field>)
    requires WFFields(x) && WFFields(y)
    ensures SameFields(x, y) <==> Included(Contents(x), Contents(y))
    decreases x, 0
  {
    if x != [] {
      SameFieldsMeans(x[1..], y);
      FindMeans(y, x[0].key);
      FindMeans(x[1..], x[0].key);
      var other := Find(y, x[0].key);
      if other.Some? {
        FindWF(y, x[0].key);
        SameIsMeaning(x[0].value, other.value);
      }
      var k0 := x[0].key;
      assert k0 !in Contents(x[1..]);
      assert forall k :: k in Contents(x) <==> k == k0 || k in Contents(x[1..]);
      if Included(Contents(x), Contents(y)) {
        assert k0 in Contents(x);
        assert Included(Contents(x[1..]), Contents(y)) by {
          forall k | k in Contents(x[1..]) ensures k in Contents(y) && Contents(x[1..])[k] == Contents(y)[k] {
            assert k in Contents(x) && Contents(x)[k] == Contents(x[1..])[k];
          }
        }
      }
    }
  }

  lemma {:induction false} SubMapOfSameSize(x: map<string, Tree>, y: map<string, Tree>)
    requires Included(x, y) && |x| == |y|
    ensures x == y
  {
    assert x.Keys <= y.Keys;
    assert |x.Keys| == |y.Keys|;
    if k :| k in y && k !in x {
      SubsetSize(x.Keys, y.Keys - {k});
    }
    assert x.Keys == y.Keys;
  }

  lemma {:induction false} SubsetSize<T>(a: set<T>, b: set<T>)
    requires a <= b
    ensures |a| <= |b|
  {
    assert b == a + (b - a);
  }
}
