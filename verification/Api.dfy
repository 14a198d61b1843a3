/** A guest's document behind its API: PUT and DELETE of a view, planned on a copy and
    applied only once every check has passed. */
module Api {
  import opened Values
  import opened TouchedPaths
  import opened Shape
  import opened SchemaIndex
  import opened Pointwise
  import opened Gate
  import Notes
  import Schema
  import View
  import KeyOrder
  import Verbatim

  datatype Mode = Merge | Replace(comments: bool)

  datatype Answer =
    | NotRepairable               // 400: an unreadable file can be edited as a whole only
    | BadPayload                  // 400: only a map can be merged
    | BadView                     // 400: something on the way to the view is no map
    | NotStorable                 // 400: the result could not be stored
    | Refused(why: seq<Finding>)  // 422: an enforced schema does not match
    | Done(touched: seq<Touched>)

  /** What may be stored: nothing is null, every key is a valid segment, every note a string. */
  predicate LintFree(t: Tree) {
    match t
    case TNull => false
    case TArr(items) => forall i :: 0 <= i < |items| ==> LintFree(items[i])
    case TMap(m) => forall k :: k in m ==>
      Schema.ValidSegment(k) && (Notes.IsComment(k) ==> m[k].TStr?) && LintFree(m[k])
    case _ => true
  }

  predicate Storable(t: Tree) {
    t.TMap? && LintFree(t)
  }

  /** One step into a document. */
  datatype Into = Key(key: string) | Item(i: nat)

  function Inside(t: Tree, way: seq<Into>): Option<Tree>
    decreases |way|
  {
    if way == [] then Some(t)
    else match (t, way[0])
      case (TMap(m), Key(k)) => if k in m then Inside(m[k], way[1..]) else None
      case (TArr(items), Item(i)) => if i < |items| then Inside(items[i], way[1..]) else None
      case _ => None
  }

  /** One place of a document, looked at by itself, has nothing wrong with it. */
  predicate Lawful(t: Tree) {
    && !t.TNull?
    && (t.TMap? ==> forall k :: k in t.m ==>
          && Schema.ValidSegment(k)
          && (|k| >= 2 && k[|k| - 2] == '_' && k[|k| - 1] == '_' ==> t.m[k].TStr?))
  }

  /** A document can be stored exactly when it is a map and no place in it, at whatever depth
      and inside whatever lists, holds a null, a key that is no segment or a note that is no
      string. */
  lemma StorableIff(t: Tree)
    ensures Storable(t) <==>
              t.TMap? && forall way :: Inside(t, way).Some? ==> Lawful(Inside(t, way).value)
  {
    LintFreeIff(t);
  }

  lemma {:induction false} LintFreeIff(t: Tree)
    ensures LintFree(t) <==> forall way :: Inside(t, way).Some? ==> Lawful(Inside(t, way).value)
    decreases t
  {
    hide Schema.ValidSegment;
    assert Inside(t, []) == Some(t);
    if LintFree(t) {
      forall way | Inside(t, way).Some? ensures Lawful(Inside(t, way).value) { EveryPlaceLawful(t, way); }
    } else {
      var way := UnlawfulPlace(t);
    }
  }

  lemma {:induction false} EveryPlaceLawful(t: Tree, way: seq<Into>)
    requires LintFree(t) && Inside(t, way).Some?
    ensures Lawful(Inside(t, way).value)
    decreases |way|
  {
    hide Schema.ValidSegment;
    if way != [] {
      match (t, way[0])
      case (TMap(m), Key(k)) => EveryPlaceLawful(m[k], way[1..]);
      case (TArr(items), Item(i)) => EveryPlaceLawful(items[i], way[1..]);
    }
  }

  lemma {:induction false} UnlawfulPlace(t: Tree) returns (way: seq<Into>)
    requires !LintFree(t)
    ensures Inside(t, way).Some? && !Lawful(Inside(t, way).value)
    decreases t
  {
    hide Schema.ValidSegment;
    way := [];
    if Lawful(t) {
      match t
      case TArr(items) =>
        var i: nat :| i < |items| && !LintFree(items[i]);
        var rest := UnlawfulPlace(items[i]);
        way := [Item(i)] + rest;
        assert way[1..] == rest;
      case TMap(m) =>
        var k :| k in m && !LintFree(m[k]);
        var rest := UnlawfulPlace(m[k]);
        way := [Key(k)] + rest;
        assert way[1..] == rest;
    }
  }

  /** Taking keys out of maps leaves nothing wrong that was not wrong before. */
  lemma {:induction false} ShrunkStorable(a: Tree, b: Tree)
    requires LintFree(a) && Shrunk(a, b)
    ensures LintFree(b)
    decreases b
  {
    hide Schema.ValidSegment;
    if a != b {
      forall k | k in b.m ensures LintFree(b.m[k]) && (Notes.IsComment(k) ==> b.m[k].TStr?) {
        ShrunkStorable(a.m[k], b.m[k]);
      }
    }
  }

  /** What a PUT means to store. */
  function Planned(stored: Value, view: Path, payload: Value, mode: Mode): Tree {
    match mode
    case Merge => View.MergedInto(Meaning(stored), view, Meaning(payload))
    case Replace(comments) =>
      var here := Verbatim.Fetch(Some(stored), view);
      var subtree := if here.Some? && !comments then Notes.Keep(here.value, payload) else payload;
      View.PutAt(Some(Meaning(stored)), view, Meaning(subtree))
  }

  class Guest {
    var doc: Value
    /** The file is there and cannot be read back; `doc` is then the empty document. */
    var unrecoverable: bool

    ghost predicate Valid()
      reads this
    {
      WF(doc) && doc.Obj? && (unrecoverable ==> doc == Obj([]))
    }

    constructor ()
      ensures Valid() && doc == Obj([]) && !unrecoverable
    {
      doc, unrecoverable := Obj([]), false;
    }

    /** `put_document`, from the parsed payload on. Every answer is given exactly when it
        is due; `touched` is the list of the plan, whatever became of it. */
    method Put(ps: seq<Declared>, view: Path, payload: Value, mode: Mode, force: bool)
      returns (a: Answer, ghost touched: seq<Touched>)
      requires Valid() && WF(payload)
      modifies this
      ensures Valid()
      ensures !a.Done? ==> doc == old(doc) && unrecoverable == old(unrecoverable)
      ensures a.BadPayload? <==> mode.Merge? && !payload.Obj?
      ensures a.NotRepairable? <==> !a.BadPayload? && old(unrecoverable) && (view != [] || mode.Merge?)
      ensures a.BadView? <==>
                !a.NotRepairable? && !a.BadPayload? && View.Blocked(Some(Meaning(old(doc))), view)
      ensures a.NotStorable? <==>
                && !a.NotRepairable? && !a.BadPayload? && !a.BadView?
                && !Storable(Planned(old(doc), view, payload, mode))
      ensures a.Done? || a.Refused? ==>
                Exact(Some(Meaning(old(doc))), Some(Planned(old(doc), view, payload, mode)), [], touched)
      ensures a.Done? ==>
                && !unrecoverable && a.touched == touched
                && Meaning(doc) == Planned(old(doc), view, payload, mode)
                && Ordering(old(doc), doc, view, payload, mode, touched)
      ensures a.Refused? ==> !force && a.why != []
      ensures a.Refused? && Loaded(ps) ==>
                forall f :: f in a.why <==> RefusedFor(ps, Planned(old(doc), view, payload, mode), touched, f)
      ensures a.Done? && !force && Loaded(ps) ==> NothingRefused(ps, Meaning(doc), touched)
      ensures a.Done? && !force && Loaded(ps) ==> GatedPut(ps, Meaning(old(doc)), Meaning(doc))
      ensures a.Done? && !force && WellOrdered(ps) ==> TouchedObey(ps, Meaning(doc), touched)
      ensures a.Refused? && WellOrdered(ps) ==>
                forall f: Finding :: Answers(touched, f.path) && At(Some(Planned(old(doc), view, payload, mode)), f.path).Some? ==>
                  (f in a.why <==> f.enforced && FoundAt(ps, Planned(old(doc), view, payload, mode), f))
    {
      hide TouchedObey, Answers, At, FoundAt, SpecificFirst, DistinctPrefixes, Ordering, Exact, GatedPut, NothingRefused, Loaded, View.Blocked, Meaning, Finds, WF, LintFree, Planned;
      touched := [];
      if mode.Merge? && !payload.Obj? {
        return BadPayload, [];
      }
      if unrecoverable && (view != [] || mode.Merge?) {
        return NotRepairable, [];
      }
      var r := Plan(doc, view, payload, mode);
      if r.InvalidPath? {
        return BadView, [];
      }
      var (planned, plan) := r.value;
      touched := plan;
      if !Storable(Meaning(planned)) {
        return NotStorable, plan;
      }
      if !force {
        var why := CheckEnforced(ps, doc, planned, plan);
        if why != [] {
          return Refused(why), plan;
        }
        Accepted(ps, Meaning(doc), Meaning(planned), plan);
      }
      StorableIsMap(planned);
      doc, unrecoverable := planned, false;
      a := Done(plan);
    }

    /** `delete_document`. */
    method Delete(view: Path) returns (a: Answer)
      requires Valid()
      modifies this
      ensures Valid()
      ensures !a.Done? ==> doc == old(doc) && unrecoverable == old(unrecoverable)
      ensures a.NotRepairable? <==> old(unrecoverable) && view != []
      ensures a.BadView? <==> !a.NotRepairable? && View.Blocked(Some(Meaning(old(doc))), view)
      ensures a.NotStorable? <==>
                !a.NotRepairable? && !a.BadView? && !Storable(View.Without(Meaning(old(doc)), view))
      ensures !a.BadPayload? && !a.Refused?
      ensures a.NotStorable? ==> !Storable(Meaning(old(doc)))
      ensures a.Done? ==> View.Removed(Meaning(old(doc)), Meaning(doc), view)
      ensures a.Done? ==>
                && !unrecoverable
                && Meaning(doc) == View.Without(Meaning(old(doc)), view)
                && Exact(Some(Meaning(old(doc))), Some(Meaning(doc)), [], a.touched)
                && KeyOrder.InOrder(old(doc), doc)
                && Verbatim.Unaltered(Some(old(doc)), Some(doc), [], a.touched)
                && ViewDelete(Meaning(old(doc)), Meaning(doc))
    {
      hide KeyOrder.InOrder, Verbatim.Unaltered, Exact, View.Blocked, Finds, WF, LintFree, View.Without, View.Gone, Shrunk;
      if unrecoverable && view != [] {
        return NotRepairable;
      }
      var r := View.Remove(doc, view);
      if r.InvalidPath? {
        return BadView;
      }
      var (planned, touched) := r.value;
      if !Storable(Meaning(planned)) {
        if Storable(Meaning(doc)) { DeleteStorable(Meaning(doc), view); }
        return NotStorable;
      }
      StorableIsMap(planned);
      doc, unrecoverable := planned, false;
      a := Done(touched);
    }
  }

  /** What becomes of the values and the order of keys: a merge leaves what it does not touch
      exactly as it was and keeps the order of the rest; a replacement leaves everything beside
      the view exactly as it was and has its payload's order, with the notes it did not see put
      back in their places. */
  ghost predicate Ordering(stored: Value, planned: Value, view: Path, payload: Value, mode: Mode, touched: seq<Touched>) {
    if mode.Merge? then KeyOrder.InOrder(stored, planned) && Verbatim.Unaltered(Some(stored), Some(planned), [], touched)
    else
      var was := Verbatim.Fetch(Some(stored), view);
      && Verbatim.KeptAbove(Some(stored), planned, view)
      && Verbatim.Fetch(Some(planned), view)
         == Some(if was.Some? && !mode.comments then Notes.Keep(was.value, payload) else payload)
  }

  /** The mutation of `put_document`, on a copy. */
  method Plan(stored: Value, view: Path, payload: Value, mode: Mode) returns (r: View.Result<(Value, seq<Touched>)>)
    requires WF(stored) && WF(payload)
    ensures r.InvalidPath? <==> View.Blocked(Some(Meaning(stored)), view)
    ensures r.Ok? ==>
              && WF(r.value.0)
              && Exact(Some(Meaning(stored)), Some(Meaning(r.value.0)), [], r.value.1)
              && Meaning(r.value.0) == Planned(stored, view, payload, mode)
              && Ordering(stored, r.value.0, view, payload, mode, r.value.1)
  {
    hide KeyOrder.InOrder, Verbatim.KeptAbove, Verbatim.Unaltered, Exact, View.Blocked, Meaning, WF, View.MergedInto, View.PutAt;
    if mode.Merge? {
      r := View.Merge(stored, view, payload);
      return;
    }
    var was := View.Descend(stored, view);
    if was.InvalidPath? {
      return View.InvalidPath;
    }
    var subtree := payload;
    if was.value.Some? && !mode.comments {
      subtree := Notes.KeepComments(was.value.value, payload);
      Notes.KeepWF(was.value.value, payload);
    }
    r := View.Replace(stored, view, subtree);
  }

  lemma DeleteStorable(t: Tree, view: Path)
    requires Storable(t)
    ensures Storable(View.Without(t, view))
  {
    hide LintFree, Shrunk;
    WithoutShrinks(t, view);
    ShrunkStorable(t, View.Without(t, view));
  }

  lemma StorableIsMap(v: Value)
    requires Storable(Meaning(v))
    ensures v.Obj?
  {
  }

  lemma Accepted(ps: seq<Declared>, stored: Tree, planned: Tree, touched: seq<Touched>)
    requires Exact(Some(stored), Some(planned), [], touched)
    requires Loaded(ps) ==> forall f :: !RefusedFor(ps, planned, touched, f)
    ensures Loaded(ps) ==> NothingRefused(ps, planned, touched) && GatedPut(ps, stored, planned)
  {
    hide Exact, Loaded, RefusedFor;
    if Loaded(ps) {
      assert NothingRefused(ps, planned, touched);
    }
  }
}
