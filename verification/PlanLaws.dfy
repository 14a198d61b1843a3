/** What every plan keeps to, whatever the guest looks like. */
module PlanLaws {
  import opened Values
  import opened GuestPlan
  import PlanDuties

  // ---------------------------------------------------------------- no two wanted paths collide

  predicate Collide(a: FilePath, b: FilePath) {
    a <= b || b <= a
  }

  predicate NoCollisions(entries: seq<Resolved>) {
    forall i, j :: 0 <= i < j < |entries| && entries[i].File? && entries[j].File? ==>
      !Collide(entries[i].d.entry.path, entries[j].d.entry.path)
  }

  function NameOf(r: Resolved): string {
    match r case File(d) => d.entry.name case Absent(n) => n case Invalid(n) => n
  }

  predicate Clashes(entries: seq<Resolved>, i: nat)
    requires i < |entries|
  {
    entries[i].File? &&
    exists j :: 0 <= j < |entries| && j != i && entries[j].File?
                && Collide(entries[i].d.entry.path, entries[j].d.entry.path)
  }

  /** `refuse_collisions`: both sides of every collision are refused, the others untouched. */
  method RefuseCollisions(entries: seq<Resolved>) returns (out: seq<Resolved>)
    ensures |out| == |entries|
    ensures forall i :: 0 <= i < |entries| ==>
              out[i] == if Clashes(entries, i) then Invalid(NameOf(entries[i])) else entries[i]
    ensures NoCollisions(out)
  {
    hide Clashes, NoCollisions, NameOf;
    out := [];
    for i := 0 to |entries|
      invariant |out| == i
      invariant forall x :: 0 <= x < i ==>
                  out[x] == if Clashes(entries, x) then Invalid(NameOf(entries[x])) else entries[x]
    {
      var clash := HasClash(entries, i);
      out := out + [if clash then Invalid(NameOf(entries[i])) else entries[i]];
    }
    NoneCollide(entries, out);
  }

  method HasClash(entries: seq<Resolved>, i: nat) returns (clash: bool)
    requires i < |entries|
    ensures clash <==> Clashes(entries, i)
  {
    hide Collide;
    clash := false;
    if entries[i].File? {
      for j := 0 to |entries|
        invariant clash <==> exists y :: 0 <= y < j && y != i && entries[y].File?
                               && Collide(entries[i].d.entry.path, entries[y].d.entry.path)
      {
        if j != i && entries[j].File? && Collide(entries[i].d.entry.path, entries[j].d.entry.path) {
          clash := true;
        }
      }
    }
  }

  lemma NoneCollide(entries: seq<Resolved>, out: seq<Resolved>)
    requires |out| == |entries|
    requires forall i :: 0 <= i < |entries| ==>
               out[i] == if Clashes(entries, i) then Invalid(NameOf(entries[i])) else entries[i]
    ensures NoCollisions(out)
  {
    hide Collide;
    forall i, j | 0 <= i < j < |out| && out[i].File? && out[j].File?
      ensures !Collide(out[i].d.entry.path, out[j].d.entry.path)
    {
      assert !Clashes(entries, i);
    }
  }

  /** `GuestFiles::managed`: an error when two paths collide. */
  method ManagedFiles(items: seq<Desired>) returns (r: Option<GuestFiles>)
    ensures r.Some? <==> NoCollisions(EntriesOf(Managed(items)))
    ensures r.Some? ==> r.value == Managed(items)
  {
    ghost var entries := EntriesOf(Managed(items));
    for i := 0 to |items|
      invariant forall x, y :: 0 <= x < i && x < y < |items| ==> !Collide(items[x].entry.path, items[y].entry.path)
    {
      for j := i + 1 to |items|
        invariant forall y :: i < y < j ==> !Collide(items[i].entry.path, items[y].entry.path)
      {
        if Collide(items[i].entry.path, items[j].entry.path) {
          assert entries[i].File? && entries[j].File?;
          return None;
        }
      }
    }
    return Some(Managed(items));
  }

  // ---------------------------------------------------------------- operations and items line up

  function Writing(items: seq<Item>): seq<Item> {
    if items == [] then []
    else Writing(items[..|items| - 1]) + (if items[|items| - 1].action.Writes() then [items[|items| - 1]] else [])
  }

  ghost predicate Matches(item: Item, op: Op) {
    item.path == Some(op.path) && (item.action.Delete? <==> op.RemoveFile?)
  }

  /** The items that write and the operations correspond, position by position. */
  ghost predicate LinedUp(p: Plan) {
    var w := Writing(p.items);
    |w| == |p.ops| && forall i :: 0 <= i < |w| ==> Matches(w[i], p.ops[i])
  }

  lemma WritingNext(items: seq<Item>, item: Item)
    ensures Writing(items + [item]) == Writing(items) + (if item.action.Writes() then [item] else [])
  {
    assert (items + [item])[..|items|] == items;
  }

  lemma DecideWrites(was: Manifest, nodes: Nodes, force: bool, d: Desired)
    ensures var c := Decide(was, nodes, force, d);
            (c.expects.Some? <==> c.action.Writes()) && !c.action.Delete?
  {
  }

  /** A silent item, or a writing one with its operation, keeps the lists lined up. */
  lemma LineUpNext(p: Plan, q: Plan, item: Item)
    requires LinedUp(p) && q.items == p.items + [item]
    requires if item.action.Writes() then |q.ops| == |p.ops| + 1 && q.ops[..|p.ops|] == p.ops && Matches(item, q.ops[|p.ops|])
             else q.ops == p.ops
    ensures LinedUp(q)
  {
    hide Writing, Matches;
    WritingNext(p.items, item);
    var w := Writing(q.items);
    forall i | 0 <= i < |w| ensures Matches(w[i], q.ops[i]) {
      if i < |p.ops| { assert q.ops[i] == p.ops[i]; }
    }
  }

  lemma EntryLinesUp(was: Manifest, nodes: Nodes, force: bool, p: Plan, r: Resolved)
    requires LinedUp(p)
    ensures LinedUp(TakeEntry(was, nodes, force, p, r))
  {
    hide Decide, LinedUp, RecordOf, Recorded, Directories;
    var q := TakeEntry(was, nodes, force, p, r);
    match r
    case Absent(_) =>
    case Invalid(name) => LineUpNext(p, q, Item(name, None, Refused));
    case File(d) =>
      DecideWrites(was, nodes, force, d);
      LineUpNext(p, q, Item(d.entry.name, Some(d.entry.path), Decide(was, nodes, force, d).action));
  }

  lemma RecordLinesUp(files: GuestFiles, was: Manifest, nodes: Nodes, p: Plan, path: FilePath)
    requires path in was && LinedUp(p)
    ensures LinedUp(TakeRecord(files, was, nodes, p, path))
  {
    hide FateOf, Wants, LinedUp;
    var q, r := TakeRecord(files, was, nodes, p, path), was[path];
    if !Wants(EntriesOf(files), path) {
      match FateOf(files, nodes, r, path)
      case Forgotten => LineUpNext(p, q, Item(r.entry, Some(path), Forget));
      case Stays => DirsDoNotMatter(p, q);
      case Deleted => LineUpNext(p, q, Item(r.entry, Some(path), Delete));
      case LeftAlone => LineUpNext(p, q, Item(r.entry, Some(path), Left));
    }
  }

  lemma {:induction false} EntriesLineUp(was: Manifest, nodes: Nodes, force: bool, entries: seq<Resolved>, n: nat)
    requires n <= |entries|
    ensures LinedUp(TakeEntries(was, nodes, force, entries, n))
  {
    hide TakeEntry;
    if n > 0 {
      EntriesLineUp(was, nodes, force, entries, n - 1);
      EntryLinesUp(was, nodes, force, TakeEntries(was, nodes, force, entries, n - 1), entries[n - 1]);
    }
  }

  lemma {:induction false} RecordsLineUp(files: GuestFiles, was: Manifest, nodes: Nodes, p: Plan, keys: seq<FilePath>, n: nat)
    requires n <= |keys| && forall i :: 0 <= i < |keys| ==> keys[i] in was
    requires LinedUp(p)
    ensures LinedUp(TakeRecords(files, was, nodes, p, keys, n))
  {
    hide TakeRecord, LinedUp;
    if n > 0 {
      RecordsLineUp(files, was, nodes, p, keys, n - 1);
      RecordLinesUp(files, was, nodes, TakeRecords(files, was, nodes, p, keys, n - 1), keys[n - 1]);
    }
  }

  lemma {:induction false} NoneWrites(items: seq<Item>)
    requires forall i :: 0 <= i < |items| ==> !items[i].action.Writes()
    ensures Writing(items) == []
  {
    if items != [] { NoneWrites(items[..|items| - 1]); }
  }

  /** Operations and outcomes belong to the items that write, one to one. */
  lemma PlanLinesUp(files: GuestFiles, was: Manifest, keys: seq<FilePath>, nodes: Nodes, force: bool)
    requires forall i :: 0 <= i < |keys| ==> keys[i] in was
    ensures LinedUp(PlanOf(files, was, keys, nodes, force))
  {
    hide LinedUp, TakeEntries, TakeRecords;
    if OnHold(files, nodes) {
      NoneWrites(AllRefused(was, keys));
      EmptyLinesUp(PlanOf(files, was, keys, nodes, force));
    } else {
      var entries := EntriesOf(files);
      EntriesLineUp(was, nodes, force, entries, |entries|);
      var half := TakeEntries(was, nodes, force, entries, |entries|);
      RecordsLineUp(files, was, nodes, half, keys, |keys|);
      DirsDoNotMatter(TakeRecords(files, was, nodes, half, keys, |keys|), PlanOf(files, was, keys, nodes, force));
    }
  }

  lemma EmptyLinesUp(p: Plan)
    requires p.ops == [] && Writing(p.items) == []
    ensures LinedUp(p)
  {
  }

  lemma DirsDoNotMatter(p: Plan, q: Plan)
    requires LinedUp(p) && p.items == q.items && p.ops == q.ops
    ensures LinedUp(q)
  {
  }

  // ---------------------------------------------------------------- what an operation is for

  /** A planned operation is there for a reason, which binds what it may do: a placed file
      is wanted and is to be created, is ours, or may be overwritten; a removed one is a
      document's own, wanted by nobody, and is to be what its record says. */
  ghost predicate Reasoned(files: GuestFiles, was: Manifest, nodes: Nodes, force: bool, op: Op) {
    match op
    case Place(path, content, mode, owner, ex) =>
      exists d :: File(d) in EntriesOf(files) && PlacedFor(was, nodes, force, d, op)
    case RemoveFile(path, sha) =>
      && path in was && sha == was[path].sha
      && !files.Managed? && !IsManaged(was[path].source)
      && !Wants(EntriesOf(files), path)
      && Assess(path, nodes).Present? && Assess(path, nodes).sha == sha
  }

  ghost predicate PlacedFor(was: Manifest, nodes: Nodes, force: bool, d: Desired, op: Op)
    requires op.Place?
  {
    && op.path == d.entry.path && op.content == d.content && op.mode == d.entry.mode && op.owner == d.entry.owner
    && !Conflicted(was, d)
    && match op.expects
       case ExpectMissing => Assess(op.path, nodes).Gone?
       case ExpectSha(sha) =>
         && Assess(op.path, nodes).Present? && Assess(op.path, nodes).sha == sha
         && ((op.path in was && was[op.path].sha == sha) || d.entry.localEdits.OverwriteEdits? || force)
       case ExpectAny => false
  }

  lemma DecidePlaces(was: Manifest, nodes: Nodes, force: bool, d: Desired)
    requires Decide(was, nodes, force, d).expects.Some?
    ensures PlacedFor(was, nodes, force, d,
                      Place(d.entry.path, d.content, d.entry.mode, d.entry.owner, Decide(was, nodes, force, d).expects.value))
  {
  }

  lemma {:induction false} EntriesReasoned(files: GuestFiles, was: Manifest, nodes: Nodes, force: bool, n: nat)
    requires n <= |EntriesOf(files)|
    ensures forall op :: op in TakeEntries(was, nodes, force, EntriesOf(files), n).ops ==>
              Reasoned(files, was, nodes, force, op)
  {
    hide Decide, PlacedFor, EntriesOf;
    var entries := EntriesOf(files);
    if n > 0 {
      EntriesReasoned(files, was, nodes, force, n - 1);
      if entries[n - 1].File? {
        var d := entries[n - 1].d;
        assert File(d) in entries;
        if Decide(was, nodes, force, d).expects.Some? { DecidePlaces(was, nodes, force, d); }
      }
    }
  }

  lemma {:induction false} RecordsReasoned(files: GuestFiles, was: Manifest, nodes: Nodes, force: bool, p: Plan, keys: seq<FilePath>, n: nat)
    requires n <= |keys| && forall i :: 0 <= i < |keys| ==> keys[i] in was
    requires forall op :: op in p.ops ==> Reasoned(files, was, nodes, force, op)
    ensures forall op :: op in TakeRecords(files, was, nodes, p, keys, n).ops ==> Reasoned(files, was, nodes, force, op)
  {
    hide EntriesOf, PlacedFor, Wants, HoldsBack, Assess;
    if n > 0 { RecordsReasoned(files, was, nodes, force, p, keys, n - 1); }
  }

  /** Every operation of every plan has its reason. */
  lemma PlanReasoned(files: GuestFiles, was: Manifest, keys: seq<FilePath>, nodes: Nodes, force: bool, op: Op)
    requires forall i :: 0 <= i < |keys| ==> keys[i] in was
    requires op in PlanOf(files, was, keys, nodes, force).ops
    ensures Reasoned(files, was, nodes, force, op)
  {
    hide Reasoned, TakeEntries, TakeRecords;
    var entries := EntriesOf(files);
    EntriesReasoned(files, was, nodes, force, |entries|);
    RecordsReasoned(files, was, nodes, force, TakeEntries(was, nodes, force, entries, |entries|), keys, |keys|);
  }

  // ---------------------------------------------------------------- the program

  function Paths(entries: seq<Resolved>, n: nat): (r: set<FilePath>)
    requires n <= |entries|
    ensures forall p :: p in r <==> Wants(entries[..n], p)
  {
    set i | 0 <= i < n && entries[i].File? :: entries[i].d.entry.path
  }

  function HeldNames(entries: seq<Resolved>): (r: set<string>)
    ensures forall name :: name in r <==> HoldsBack(entries, name)
  {
    set i | 0 <= i < |entries| && entries[i].Invalid? :: entries[i].name
  }

  /** `plan`: every wanted file decided, recorded and pushed, then every record nobody wants.
      One operation per item that writes, and a reason for each. */
  method MakePlan(files: GuestFiles, was: Manifest, keys: seq<FilePath>, nodes: Nodes, force: bool) returns (p: Plan)
    requires forall i :: 0 <= i < |keys| ==> keys[i] in was
    ensures p == PlanOf(files, was, keys, nodes, force)
    ensures LinedUp(p) && forall op :: op in p.ops ==> Reasoned(files, was, nodes, force, op)
    ensures if PlanDuties.MustWait(files, nodes) then PlanDuties.Waits(was, keys, p)
            else PlanDuties.Serves(files, was, keys, nodes, force, p)
  {
    hide PlanDuties.MustWait, PlanDuties.Waits, PlanDuties.Serves, TakeEntry, TakeRecord, Assess, LinedUp, Reasoned, PlanOf, EntriesOf, OnHold;
    PlanLinesUp(files, was, keys, nodes, force);
    PlanDuties.PlanServes(files, was, keys, nodes, force);
    forall op | op in PlanOf(files, was, keys, nodes, force).ops ensures Reasoned(files, was, nodes, force, op) {
      PlanReasoned(files, was, keys, nodes, force, op);
    }
    PlanIs(files, was, keys, nodes, force);
    if OnHold(files, nodes) {
      return Plan(AllRefused(was, keys), [], {}, was);
    }
    var entries := EntriesOf(files);
    p := PlanEntries(was, nodes, force, entries);
    p := PlanRecords(files, was, keys, nodes, Paths(entries, |entries|), HeldNames(entries), p);
    if p.Changes(was) && !NodeAt(nodes, GUEST_ROOT).Dir? {
      p := p.(dirs := p.dirs + {GUEST_ROOT});
    }
  }

  lemma PlanIs(files: GuestFiles, was: Manifest, keys: seq<FilePath>, nodes: Nodes, force: bool)
    requires forall i :: 0 <= i < |keys| ==> keys[i] in was
    ensures PlanOf(files, was, keys, nodes, force) ==
            if OnHold(files, nodes) then Plan(AllRefused(was, keys), [], {}, was)
            else
              var entries := EntriesOf(files);
              var p := TakeRecords(files, was, nodes, TakeEntries(was, nodes, force, entries, |entries|), keys, |keys|);
              if p.Changes(was) && !NodeAt(nodes, GUEST_ROOT).Dir? then p.(dirs := p.dirs + {GUEST_ROOT}) else p
  {
    hide TakeEntries, TakeRecords, OnHold;
  }

  /** The loop over the entries. */
  method PlanEntries(was: Manifest, nodes: Nodes, force: bool, entries: seq<Resolved>) returns (p: Plan)
    ensures p == TakeEntries(was, nodes, force, entries, |entries|)
  {
    hide Assess, SourcesConflict, Directories;
    var items: seq<Item>, ops: seq<Op>, dirs: set<FilePath>, manifest: Manifest := [], [], {}, map[];
    for i := 0 to |entries|
      invariant Plan(items, ops, dirs, manifest) == TakeEntries(was, nodes, force, entries, i)
    {
      if entries[i].Invalid? {
        items := items + [Item(entries[i].name, None, Refused)];
      } else if entries[i].File? {
        var d := entries[i].d;
        var e := d.entry;
        if e.path in was && SourcesConflict(e.source, was[e.path].source) {
          items, manifest := items + [Item(e.name, Some(e.path), Refused)], manifest[e.path := was[e.path]];
        } else {
          var action, expected := Judge(was, nodes, force, d);
          if action in {InSync, Create, Update, Overwrite} {
            manifest := manifest[e.path := Record(e.name, e.path, d.sha, e.source)];
          } else if e.path in was {
            manifest := manifest[e.path := was[e.path]];
          }
          if action == Create {
            dirs := dirs + set q | q in Directories(e.path) && !NodeAt(nodes, q).Dir?;
          }
          if expected.Some? {
            ops := ops + [Place(e.path, d.content, e.mode, e.owner, expected.value)];
          }
          items := items + [Item(e.name, Some(e.path), action)];
        }
      }
    }
    p := Plan(items, ops, dirs, manifest);
  }

  /** What is to become of a wanted file, from what is there. */
  method Judge(was: Manifest, nodes: Nodes, force: bool, d: Desired) returns (action: Action, expected: Option<Expect>)
    requires !Conflicted(was, d)
    ensures Decision(action, expected) == Decide(was, nodes, force, d)
  {
    hide Assess;
    var e := d.entry;
    match Assess(e.path, nodes) {
      case Unsafe => action, expected := Refused, None;
      case Gone => action, expected := Create, Some(ExpectMissing);
      case Present(sha, mode, owner) =>
        if sha == d.sha && mode == e.mode && owner == e.owner {
          action, expected := InSync, None;
        } else if e.path in was && was[e.path].sha == sha {
          action, expected := Update, Some(ExpectSha(sha));
        } else if e.localEdits == OverwriteEdits || force {
          action, expected := Overwrite, Some(ExpectSha(sha));
        } else {
          action, expected := KeptLocalEdit, None;
        }
    }
  }

  /** The loop over the records. */
  method PlanRecords(files: GuestFiles, was: Manifest, keys: seq<FilePath>, nodes: Nodes,
                     wanted: set<FilePath>, held: set<string>, half: Plan) returns (p: Plan)
    requires forall i :: 0 <= i < |keys| ==> keys[i] in was
    requires wanted == Paths(EntriesOf(files), |EntriesOf(files)|) && held == HeldNames(EntriesOf(files))
    ensures p == TakeRecords(files, was, nodes, half, keys, |keys|)
  {
    hide Assess, IsManaged, Wants, HoldsBack, Paths, HeldNames;
    assert EntriesOf(files)[..|EntriesOf(files)|] == EntriesOf(files);
    p := half;
    for i := 0 to |keys|
      invariant p == TakeRecords(files, was, nodes, half, keys, i)
    {
      var path := keys[i];
      var r, state := was[path], Assess(path, nodes);
      if path !in wanted {
        if state.Gone? {
          p := p.(items := p.items + [Item(r.entry, Some(path), Forget)]);
        } else if files.Managed? || IsManaged(r.source) || r.entry in held {
          p := p.(manifest := p.manifest[path := r]);
        } else if state.Present? && state.sha == r.sha {
          p := p.(ops := p.ops + [RemoveFile(path, state.sha)], items := p.items + [Item(r.entry, Some(path), Delete)]);
        } else {
          p := p.(items := p.items + [Item(r.entry, Some(path), Left)]);
        }
      }
    }
  }
}
