/** What a plan owes to every wanted file and to every record, told from the facts: which
    items and operations it holds, and when it holds none. */
module PlanDuties {
  import opened Values
  import opened GuestPlan

  // ---------------------------------------------------------------- the facts

  /** Something that is no directory. */
  predicate Stands(nodes: Nodes, dir: FilePath) {
    dir in nodes && (nodes[dir].Symlink? || nodes[dir].Regular? || nodes[dir].Other?)
  }

  /** The document is held, or a directory of the manifest cannot be one. */
  predicate MustWait(files: GuestFiles, nodes: Nodes) {
    files.Held? || Stands(nodes, ["etc"]) || Stands(nodes, ["etc", "pve-meta"])
  }

  lemma HoldMeans(files: GuestFiles, nodes: Nodes)
    ensures OnHold(files, nodes) <==> MustWait(files, nodes)
  {
  }

  /** Nothing but directories above the `n`-th step. */
  ghost predicate DirsAbove(nodes: Nodes, p: FilePath, n: nat)
    requires n <= |p|
  {
    forall i :: 0 < i < n ==> NodeAt(nodes, p[..i]).Dir?
  }

  lemma {:induction false} AssessFromMeans(p: FilePath, nodes: Nodes, depth: nat)
    requires 0 < depth <= |p| && DirsAbove(nodes, p, depth)
    ensures AssessFrom(p, nodes, depth).Gone? <==>
              exists n :: depth <= n <= |p| && DirsAbove(nodes, p, n) && NodeAt(nodes, p[..n]).Missing?
    ensures forall sha, mode, owner :: AssessFrom(p, nodes, depth) == Present(sha, mode, owner) <==>
              DirsAbove(nodes, p, |p|) && NodeAt(nodes, p) == Regular(owner, mode, sha)
    decreases |p| - depth
  {
    hide NodeAt;
    assert p[..|p|] == p;
    if depth < |p| {
      if NodeAt(nodes, p[..depth]).Dir? {
        assert DirsAbove(nodes, p, depth + 1);
        AssessFromMeans(p, nodes, depth + 1);
      } else {
        assert !DirsAbove(nodes, p, |p|);
        assert forall n :: depth < n <= |p| ==> !DirsAbove(nodes, p, n);
      }
    }
  }

  /** A file is gone when its place, or a directory on the way to it, is missing below nothing
      but directories; it is there when it is a regular file below nothing but directories. */
  lemma AssessMeans(p: FilePath, nodes: Nodes)
    ensures Assess(p, nodes).Gone? <==>
              exists n :: 0 < n <= |p| && DirsAbove(nodes, p, n) && NodeAt(nodes, p[..n]).Missing?
    ensures forall sha, mode, owner :: Assess(p, nodes) == Present(sha, mode, owner) <==>
              p != [] && DirsAbove(nodes, p, |p|) && NodeAt(nodes, p) == Regular(owner, mode, sha)
  {
    if p != [] { AssessFromMeans(p, nodes, 1); }
  }

  /** The operator's entry `name`, as its source is written. */
  function OperatorSource(operator: string, name: string): string {
    "managed/" + operator + "/" + name
  }

  lemma {:induction false} SlashEnds(operator: string, rest: string)
    requires '/' !in operator
    ensures UpToSlash(operator + "/" + rest) == operator
  {
    if operator == "" {
      assert operator + "/" + rest == ['/'] + rest;
    } else {
      assert operator + "/" + rest == [operator[0]] + (operator[1..] + "/" + rest);
      SlashEnds(operator[1..], rest);
    }
  }

  /** Whose path it is: two entries of one operator never conflict and those of two operators
      always do; nor do two that are no operator's, and one that is conflicts with one that is
      not. */
  lemma WhoConflicts(x: string, y: string, a: string, b: string, user: string, other: string)
    requires '/' !in x && '/' !in y && !("managed/" <= user) && !("managed/" <= other)
    ensures SourcesConflict(OperatorSource(x, a), OperatorSource(y, b)) <==> x != y
    ensures !SourcesConflict(user, other)
    ensures SourcesConflict(user, OperatorSource(x, a)) && SourcesConflict(OperatorSource(x, a), user)
  {
    OperatorIs(x, a);
    OperatorIs(y, b);
  }

  lemma OperatorIs(x: string, a: string)
    requires '/' !in x
    ensures ManagedOperator(OperatorSource(x, a)) == Some(x)
  {
    assert OperatorSource(x, a) == "managed/" + (x + "/" + a);
    assert OperatorSource(x, a)[8..] == x + "/" + a;
    SlashEnds(x, a);
  }

  // ---------------------------------------------------------------- a wanted file

  /** What becomes of a wanted file. Somebody else's path and anything but a file are refused.
      A file that is not as wanted is replaced when it is the recorded one, and also when local
      edits may be overwritten or force is given; without either, the edit is kept. */
  ghost predicate Decided(was: Manifest, nodes: Nodes, force: bool, d: Desired, c: Decision) {
    var e, there := d.entry, Assess(d.entry.path, nodes);
    var theirs := e.path in was && SourcesConflict(e.source, was[e.path].source);
    var found := !theirs && there.Present?;
    var wanted := found && there == Present(d.sha, e.mode, e.owner);
    var ours := found && e.path in was && was[e.path].sha == there.sha;
    var allowed := force || e.localEdits == OverwriteEdits;
    && (theirs || there.Unsafe? ==> c == Decision(Refused, None))
    && (!theirs && there.Gone? ==> c == Decision(Create, Some(ExpectMissing)))
    && (wanted ==> c == Decision(InSync, None))
    && (found && !wanted && ours ==> c == Decision(Update, Some(ExpectSha(there.sha))))
    && (found && !wanted && !ours && allowed ==> c == Decision(Overwrite, Some(ExpectSha(there.sha))))
    && (found && !wanted && !ours && !allowed ==> c == Decision(KeptLocalEdit, None))
  }

  lemma DecideMeans(was: Manifest, nodes: Nodes, force: bool, d: Desired)
    ensures forall c :: Decided(was, nodes, force, d, c) <==> c == Decide(was, nodes, force, d)
  {
    hide Assess, SourcesConflict;
  }

  // ---------------------------------------------------------------- a record nobody wants

  /** What becomes of a record nobody wants. A file that is gone is forgotten. One that an
      operator wrote, that an operator's sync comes across, or whose entry is there and cannot
      be read, stays recorded; of the rest, the file as it was written is deleted and any
      other left alone. */
  ghost predicate Fated(files: GuestFiles, nodes: Nodes, r: Record, p: FilePath, fate: Fate) {
    var there := Assess(p, nodes);
    var kept := files.Managed? || "managed/" <= r.source || Invalid(r.entry) in EntriesOf(files);
    && (there.Gone? ==> fate == Forgotten)
    && (!there.Gone? && kept ==> fate == Stays)
    && (!there.Gone? && !kept && there.Present? && there.sha == r.sha ==> fate == Deleted)
    && (!there.Gone? && !kept && !(there.Present? && there.sha == r.sha) ==> fate == LeftAlone)
  }

  lemma FateMeans(files: GuestFiles, nodes: Nodes, r: Record, p: FilePath)
    ensures forall fate :: Fated(files, nodes, r, p, fate) <==> fate == FateOf(files, nodes, r, p)
  {
    hide Assess, EntriesOf;
    assert HoldsBack(EntriesOf(files), r.entry) <==> Invalid(r.entry) in EntriesOf(files);
  }

  // ---------------------------------------------------------------- items and operations

  ghost predicate EntryItem(was: Manifest, nodes: Nodes, force: bool, r: Resolved, item: Item) {
    match r
    case Absent(_) => false
    case Invalid(name) => item == Item(name, None, Refused)
    case File(d) => exists c :: Decided(was, nodes, force, d, c) && item == Item(d.entry.name, Some(d.entry.path), c.action)
  }

  ghost predicate EntryOp(was: Manifest, nodes: Nodes, force: bool, r: Resolved, op: Op) {
    r.File? && exists c :: Decided(was, nodes, force, r.d, c) && c.expects.Some?
                           && op == Place(r.d.entry.path, r.d.content, r.d.entry.mode, r.d.entry.owner, c.expects.value)
  }

  /** A directory on the way to a file that is to be created, and that is not one yet. */
  ghost predicate EntryDir(was: Manifest, nodes: Nodes, force: bool, r: Resolved, q: FilePath) {
    && r.File? && Decided(was, nodes, force, r.d, Decision(Create, Some(ExpectMissing)))
    && q != [] && q < r.d.entry.path && !NodeAt(nodes, q).Dir?
  }

  ghost predicate RecordItem(files: GuestFiles, was: Manifest, nodes: Nodes, path: FilePath, item: Item) {
    && path in was && !Wants(EntriesOf(files), path)
    && exists fate :: Fated(files, nodes, was[path], path, fate) && fate != Stays
         && item == Item(was[path].entry, Some(path), if fate == Forgotten then Forget else if fate == Deleted then Delete else Left)
  }

  ghost predicate RecordOp(files: GuestFiles, was: Manifest, nodes: Nodes, path: FilePath, op: Op) {
    && path in was && !Wants(EntriesOf(files), path)
    && Fated(files, nodes, was[path], path, Deleted) && op == RemoveFile(path, was[path].sha)
  }

  ghost predicate AnyEntryItem(was: Manifest, nodes: Nodes, force: bool, rs: seq<Resolved>, item: Item) {
    exists r :: r in rs && EntryItem(was, nodes, force, r, item)
  }

  ghost predicate AnyEntryOp(was: Manifest, nodes: Nodes, force: bool, rs: seq<Resolved>, op: Op) {
    exists r :: r in rs && EntryOp(was, nodes, force, r, op)
  }

  ghost predicate AnyEntryDir(was: Manifest, nodes: Nodes, force: bool, rs: seq<Resolved>, q: FilePath) {
    exists r :: r in rs && EntryDir(was, nodes, force, r, q)
  }

  ghost predicate AnyRecordItem(files: GuestFiles, was: Manifest, nodes: Nodes, keys: seq<FilePath>, item: Item) {
    exists path :: path in keys && RecordItem(files, was, nodes, path, item)
  }

  ghost predicate AnyRecordOp(files: GuestFiles, was: Manifest, nodes: Nodes, keys: seq<FilePath>, op: Op) {
    exists path :: path in keys && RecordOp(files, was, nodes, path, op)
  }

  /** A plan that may act has exactly the items and the operations that its entries and its
      records call for. */
  ghost predicate Serves(files: GuestFiles, was: Manifest, keys: seq<FilePath>, nodes: Nodes, force: bool, p: Plan) {
    && (forall item :: item in p.items <==>
          AnyEntryItem(was, nodes, force, EntriesOf(files), item) || AnyRecordItem(files, was, nodes, keys, item))
    && (forall op :: op in p.ops <==>
          AnyEntryOp(was, nodes, force, EntriesOf(files), op) || AnyRecordOp(files, was, nodes, keys, op))
    && (forall q :: q in p.dirs <==>
          || AnyEntryDir(was, nodes, force, EntriesOf(files), q)
          || (q == ["etc", "pve-meta"] && (p.ops != [] || p.manifest != was) && !NodeAt(nodes, q).Dir?))
  }

  /** A plan on hold does nothing, keeps every record, and refuses each by name. */
  ghost predicate Waits(was: Manifest, keys: seq<FilePath>, p: Plan) {
    && p.ops == [] && p.dirs == {} && p.manifest == was
    && |p.items| == |keys|
    && forall i :: 0 <= i < |keys| ==> keys[i] in was && p.items[i] == Item(was[keys[i]].entry, Some(keys[i]), Refused)
  }

  lemma TakeEntryAdds(was: Manifest, nodes: Nodes, force: bool, p: Plan, r: Resolved)
    ensures var q := TakeEntry(was, nodes, force, p, r);
            && (forall item :: item in q.items <==> item in p.items || EntryItem(was, nodes, force, r, item))
            && (forall op :: op in q.ops <==> op in p.ops || EntryOp(was, nodes, force, r, op))
  {
    hide Decide, Decided, RecordOf, Recorded, Directories, SetRecord;
    if r.File? { DecideMeans(was, nodes, force, r.d); }
  }

  lemma TakeEntryDirs(was: Manifest, nodes: Nodes, force: bool, p: Plan, r: Resolved)
    ensures forall q :: q in TakeEntry(was, nodes, force, p, r).dirs <==> q in p.dirs || EntryDir(was, nodes, force, r, q)
  {
    hide Decide, Decided, RecordOf, Recorded, SetRecord, NodeAt;
    if r.File? {
      DecideMeans(was, nodes, force, r.d);
      CreateExpects(was, nodes, force, r.d);
      forall q ensures q in Directories(r.d.entry.path) <==> q != [] && q < r.d.entry.path {
        if q != [] && q < r.d.entry.path { assert q == r.d.entry.path[..|q|]; }
      }
    }
  }

  lemma CreateExpects(was: Manifest, nodes: Nodes, force: bool, d: Desired)
    ensures var c := Decide(was, nodes, force, d); c.action.Create? <==> c == Decision(Create, Some(ExpectMissing))
  {
  }

  lemma TakeRecordDirs(files: GuestFiles, was: Manifest, nodes: Nodes, p: Plan, path: FilePath)
    requires path in was
    ensures TakeRecord(files, was, nodes, p, path).dirs == p.dirs
  {
    hide FateOf, Wants, EntriesOf;
  }

  lemma TakeRecordAdds(files: GuestFiles, was: Manifest, nodes: Nodes, p: Plan, path: FilePath)
    requires path in was
    ensures var q := TakeRecord(files, was, nodes, p, path);
            && (forall item :: item in q.items <==> item in p.items || RecordItem(files, was, nodes, path, item))
            && (forall op :: op in q.ops <==> op in p.ops || RecordOp(files, was, nodes, path, op))
  {
    hide FateOf, Fated, Wants, EntriesOf;
    FateMeans(files, nodes, was[path], path);
    assert Fated(files, nodes, was[path], path, FateOf(files, nodes, was[path], path));
  }

  lemma OneMoreEntry(was: Manifest, nodes: Nodes, force: bool, rs: seq<Resolved>, r: Resolved)
    ensures forall item :: AnyEntryItem(was, nodes, force, rs + [r], item) <==>
              AnyEntryItem(was, nodes, force, rs, item) || EntryItem(was, nodes, force, r, item)
    ensures forall op :: AnyEntryOp(was, nodes, force, rs + [r], op) <==>
              AnyEntryOp(was, nodes, force, rs, op) || EntryOp(was, nodes, force, r, op)
    ensures forall q :: AnyEntryDir(was, nodes, force, rs + [r], q) <==>
              AnyEntryDir(was, nodes, force, rs, q) || EntryDir(was, nodes, force, r, q)
  {
    hide EntryItem, EntryOp, EntryDir;
    assert r in rs + [r] && forall x :: x in rs + [r] <==> x in rs || x == r;
  }

  lemma OneMoreRecord(files: GuestFiles, was: Manifest, nodes: Nodes, keys: seq<FilePath>, path: FilePath)
    ensures forall item :: AnyRecordItem(files, was, nodes, keys + [path], item) <==>
              AnyRecordItem(files, was, nodes, keys, item) || RecordItem(files, was, nodes, path, item)
    ensures forall op :: AnyRecordOp(files, was, nodes, keys + [path], op) <==>
              AnyRecordOp(files, was, nodes, keys, op) || RecordOp(files, was, nodes, path, op)
  {
    hide RecordItem, RecordOp;
    assert path in keys + [path] && forall x :: x in keys + [path] <==> x in keys || x == path;
  }

  lemma {:induction false} EntriesServed(was: Manifest, nodes: Nodes, force: bool, entries: seq<Resolved>, n: nat)
    requires n <= |entries|
    ensures var p := TakeEntries(was, nodes, force, entries, n);
            && (forall item :: item in p.items <==> AnyEntryItem(was, nodes, force, entries[..n], item))
            && (forall op :: op in p.ops <==> AnyEntryOp(was, nodes, force, entries[..n], op))
            && (forall q :: q in p.dirs <==> AnyEntryDir(was, nodes, force, entries[..n], q))
  {
    hide TakeEntry, EntryItem, EntryOp, EntryDir;
    if n > 0 {
      hide AnyEntryItem, AnyEntryOp, AnyEntryDir;
      EntriesServed(was, nodes, force, entries, n - 1);
      TakeEntryAdds(was, nodes, force, TakeEntries(was, nodes, force, entries, n - 1), entries[n - 1]);
      TakeEntryDirs(was, nodes, force, TakeEntries(was, nodes, force, entries, n - 1), entries[n - 1]);
      assert entries[..n] == entries[..n - 1] + [entries[n - 1]];
      OneMoreEntry(was, nodes, force, entries[..n - 1], entries[n - 1]);
    }
  }

  lemma {:induction false} RecordsServed(files: GuestFiles, was: Manifest, nodes: Nodes, half: Plan, keys: seq<FilePath>, n: nat)
    requires n <= |keys| && forall i :: 0 <= i < |keys| ==> keys[i] in was
    ensures var p := TakeRecords(files, was, nodes, half, keys, n);
            && (forall item :: item in p.items <==> item in half.items || AnyRecordItem(files, was, nodes, keys[..n], item))
            && (forall op :: op in p.ops <==> op in half.ops || AnyRecordOp(files, was, nodes, keys[..n], op))
            && p.dirs == half.dirs
  {
    hide TakeRecord, RecordItem, RecordOp;
    if n > 0 {
      hide AnyRecordItem, AnyRecordOp;
      RecordsServed(files, was, nodes, half, keys, n - 1);
      TakeRecordAdds(files, was, nodes, TakeRecords(files, was, nodes, half, keys, n - 1), keys[n - 1]);
      TakeRecordDirs(files, was, nodes, TakeRecords(files, was, nodes, half, keys, n - 1), keys[n - 1]);
      assert keys[..n] == keys[..n - 1] + [keys[n - 1]];
      OneMoreRecord(files, was, nodes, keys[..n - 1], keys[n - 1]);
    }
  }

  /** Every plan waits when it must and otherwise serves every entry and every record. */
  lemma PlanServes(files: GuestFiles, was: Manifest, keys: seq<FilePath>, nodes: Nodes, force: bool)
    requires forall i :: 0 <= i < |keys| ==> keys[i] in was
    ensures var p := PlanOf(files, was, keys, nodes, force);
            if MustWait(files, nodes) then Waits(was, keys, p) else Serves(files, was, keys, nodes, force, p)
  {
    hide OnHold, MustWait, TakeEntries, TakeRecords, AnyEntryItem, AnyEntryOp, AnyEntryDir, AnyRecordItem, AnyRecordOp, EntriesOf, NodeAt;
    HoldMeans(files, nodes);
    var entries := EntriesOf(files);
    EntriesServed(was, nodes, force, entries, |entries|);
    var half := TakeEntries(was, nodes, force, entries, |entries|);
    RecordsServed(files, was, nodes, half, keys, |keys|);
    assert entries[..|entries|] == entries && keys[..|keys|] == keys;
  }
}
