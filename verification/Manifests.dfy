/** What the manifest says after a sync, however much of the commit was done, and who may
    write what over a run of syncs by several writers. */
module Manifests {
  import opened Values
  import opened GuestPlan
  import opened PlanLaws

  // ---------------------------------------------------------------- the planned manifest, path by path

  lemma {:induction false} NoEntryNoRecord(was: Manifest, nodes: Nodes, force: bool, entries: seq<Resolved>, n: nat, p: FilePath)
    requires n <= |entries|
    requires forall i :: 0 <= i < n && entries[i].File? ==> entries[i].d.entry.path != p
    ensures p !in TakeEntries(was, nodes, force, entries, n).manifest
  {
    hide Decide;
    if n > 0 { NoEntryNoRecord(was, nodes, force, entries, n - 1, p); }
  }

  lemma {:induction false} EntryRecord(was: Manifest, nodes: Nodes, force: bool, entries: seq<Resolved>, n: nat, i: nat)
    requires i < n <= |entries| && NoCollisions(entries) && entries[i].File?
    ensures var d := entries[i].d;
            Recorded(TakeEntries(was, nodes, force, entries, n).manifest, d.entry.path) ==
              if Decide(was, nodes, force, d).action.Records() then Some(RecordOf(d)) else Recorded(was, d.entry.path)
  {
    hide Decide;
    var p := entries[i].d.entry.path;
    if i < n - 1 {
      EntryRecord(was, nodes, force, entries, n - 1, i);
    } else {
      forall x | 0 <= x < n - 1 && entries[x].File? ensures entries[x].d.entry.path != p {
        assert !Collide(entries[x].d.entry.path, p);
      }
      NoEntryNoRecord(was, nodes, force, entries, n - 1, p);
    }
  }

  lemma {:induction false} RecordsRecord(files: GuestFiles, was: Manifest, nodes: Nodes, half: Plan, keys: seq<FilePath>, n: nat, p: FilePath)
    requires n <= |keys| && forall i :: 0 <= i < |keys| ==> keys[i] in was
    ensures var kept := p in keys[..n] && !Wants(EntriesOf(files), p) && FateOf(files, nodes, was[p], p).Stays?;
            Recorded(TakeRecords(files, was, nodes, half, keys, n).manifest, p) ==
              if kept then Some(was[p]) else Recorded(half.manifest, p)
  {
    hide Wants, FateOf;
    if n > 0 {
      RecordsRecord(files, was, nodes, half, keys, n - 1, p);
      assert keys[..n] == keys[..n - 1] + [keys[n - 1]];
    }
  }

  /** A wanted path is recorded with what the entry wants, or keeps the record it had. */
  lemma WantedRecord(files: GuestFiles, was: Manifest, keys: seq<FilePath>, nodes: Nodes, force: bool, d: Desired)
    requires Enumerates(keys, was) && NoCollisions(EntriesOf(files)) && !OnHold(files, nodes)
    requires File(d) in EntriesOf(files)
    ensures Recorded(PlanOf(files, was, keys, nodes, force).manifest, d.entry.path) ==
              if Decide(was, nodes, force, d).action.Records() then Some(RecordOf(d)) else Recorded(was, d.entry.path)
  {
    hide TakeEntries, TakeRecords, Decide, NoCollisions;
    var entries := EntriesOf(files);
    var i :| 0 <= i < |entries| && entries[i] == File(d);
    EntryRecord(was, nodes, force, entries, |entries|, i);
    RecordsRecord(files, was, nodes, TakeEntries(was, nodes, force, entries, |entries|), keys, |keys|, d.entry.path);
  }

  /** A path nobody wants keeps its record only when that is its fate. */
  lemma UnwantedRecord(files: GuestFiles, was: Manifest, keys: seq<FilePath>, nodes: Nodes, force: bool, p: FilePath)
    requires Enumerates(keys, was) && !OnHold(files, nodes) && !Wants(EntriesOf(files), p)
    ensures Recorded(PlanOf(files, was, keys, nodes, force).manifest, p) ==
              if p in was && FateOf(files, nodes, was[p], p).Stays? then Some(was[p]) else None
  {
    hide TakeEntries, TakeRecords, FateOf;
    var entries := EntriesOf(files);
    NoEntryNoRecord(was, nodes, force, entries, |entries|, p);
    RecordsRecord(files, was, nodes, TakeEntries(was, nodes, force, entries, |entries|), keys, |keys|, p);
    assert keys[..|keys|] == keys;
  }

  // ---------------------------------------------------------------- the manifest after the commit

  lemma {:induction false} UndoneRecord(was: Manifest, m: Manifest, ops: seq<Op>, done: seq<bool>, n: nat, p: FilePath)
    requires n <= |ops| && n <= |done|
    ensures Recorded(UndoFirst(was, m, ops, done, n), p) ==
              if exists i :: 0 <= i < n && ops[i].path == p && !done[i] then Recorded(was, p) else Recorded(m, p)
  {
    if n > 0 { UndoneRecord(was, m, ops, done, n - 1, p); }
  }

  lemma {:induction false} EntryOp(was: Manifest, nodes: Nodes, force: bool, entries: seq<Resolved>, n: nat, i: nat)
    requires i < n <= |entries| && entries[i].File?
    requires Decide(was, nodes, force, entries[i].d).expects.Some?
    ensures OpFor(was, nodes, force, entries[i].d) in TakeEntries(was, nodes, force, entries, n).ops
  {
    hide Decide;
    if i < n - 1 { EntryOp(was, nodes, force, entries, n - 1, i); }
  }

  function OpFor(was: Manifest, nodes: Nodes, force: bool, d: Desired): Op
    requires Decide(was, nodes, force, d).expects.Some?
  {
    Place(d.entry.path, d.content, d.entry.mode, d.entry.owner, Decide(was, nodes, force, d).expects.value)
  }

  lemma {:induction false} RecordsKeepOps(files: GuestFiles, was: Manifest, nodes: Nodes, half: Plan, keys: seq<FilePath>, n: nat, op: Op)
    requires n <= |keys| && forall i :: 0 <= i < |keys| ==> keys[i] in was
    requires op in half.ops
    ensures op in TakeRecords(files, was, nodes, half, keys, n).ops
  {
    hide Wants, FateOf;
    if n > 0 { RecordsKeepOps(files, was, nodes, half, keys, n - 1, op); }
  }

  lemma WantedOp(files: GuestFiles, was: Manifest, keys: seq<FilePath>, nodes: Nodes, force: bool, d: Desired)
    requires Enumerates(keys, was) && !OnHold(files, nodes)
    requires File(d) in EntriesOf(files) && Decide(was, nodes, force, d).expects.Some?
    ensures OpFor(was, nodes, force, d) in PlanOf(files, was, keys, nodes, force).ops
  {
    hide TakeEntries, TakeRecords, Decide;
    var entries := EntriesOf(files);
    var i :| 0 <= i < |entries| && entries[i] == File(d);
    EntryOp(was, nodes, force, entries, |entries|, i);
    RecordsKeepOps(files, was, nodes, TakeEntries(was, nodes, force, entries, |entries|), keys, |keys|, OpFor(was, nodes, force, d));
  }

  /** A record is true: the old one, or of a wanted file that was found as wanted or placed. */
  ghost predicate Backed(files: GuestFiles, was: Manifest, nodes: Nodes, ops: seq<Op>, done: seq<bool>, p: FilePath, r: Record)
    requires |done| == |ops|
  {
    || (p in was && r == was[p])
    || exists d :: File(d) in EntriesOf(files) && BackedBy(was, nodes, ops, done, p, r, d)
  }

  ghost predicate BackedBy(was: Manifest, nodes: Nodes, ops: seq<Op>, done: seq<bool>, p: FilePath, r: Record, d: Desired)
    requires |done| == |ops|
  {
    && d.entry.path == p && r == RecordOf(d) && !Conflicted(was, d)
    && (|| Assess(p, nodes) == Present(d.sha, d.entry.mode, d.entry.owner)
        || exists i :: 0 <= i < |ops| && done[i] && ops[i].Place? && ops[i].path == p && ops[i].content == d.content)
  }

  lemma WantedBacked(files: GuestFiles, was: Manifest, keys: seq<FilePath>, nodes: Nodes, force: bool, done: seq<bool>, d: Desired)
    requires Enumerates(keys, was) && NoCollisions(EntriesOf(files)) && !OnHold(files, nodes)
    requires |done| == |PlanOf(files, was, keys, nodes, force).ops|
    requires File(d) in EntriesOf(files) && Decide(was, nodes, force, d).action.Records()
    requires var ops := PlanOf(files, was, keys, nodes, force).ops;
             forall i :: 0 <= i < |ops| && ops[i].path == d.entry.path ==> done[i]
    ensures BackedBy(was, nodes, PlanOf(files, was, keys, nodes, force).ops, done, d.entry.path, RecordOf(d), d)
  {
    hide PlanOf, NoCollisions, Assess, SourcesConflict;
    if !Decide(was, nodes, force, d).action.InSync? {
      WantedOp(files, was, keys, nodes, force, d);
      var ops := PlanOf(files, was, keys, nodes, force).ops;
      var i :| 0 <= i < |ops| && ops[i] == OpFor(was, nodes, force, d);
    }
  }

  /** Whatever mix of operations was done, every record after a sync is true. */
  lemma ManifestTruth(files: GuestFiles, was: Manifest, keys: seq<FilePath>, nodes: Nodes, force: bool, done: seq<bool>, p: FilePath)
    requires Enumerates(keys, was) && NoCollisions(EntriesOf(files))
    requires |done| == |PlanOf(files, was, keys, nodes, force).ops|
    requires p in ManifestAfter(was, PlanOf(files, was, keys, nodes, force), done)
    ensures var plan := PlanOf(files, was, keys, nodes, force);
            Backed(files, was, nodes, plan.ops, done, p, ManifestAfter(was, plan, done)[p])
  {
    hide TakeEntries, TakeRecords, NoCollisions, FateOf, Decide, BackedBy;
    var plan := PlanOf(files, was, keys, nodes, force);
    UndoneRecord(was, plan.manifest, plan.ops, done, |plan.ops|, p);
    if (exists i :: 0 <= i < |plan.ops| && plan.ops[i].path == p && !done[i]) || OnHold(files, nodes) {
      assert Recorded(ManifestAfter(was, plan, done), p) == Recorded(was, p);
    } else if Wants(EntriesOf(files), p) {
      var d := Wanted(files, p);
      WantedRecord(files, was, keys, nodes, force, d);
      if Decide(was, nodes, force, d).action.Records() {
        WantedBacked(files, was, keys, nodes, force, done, d);
      }
    } else {
      UnwantedRecord(files, was, keys, nodes, force, p);
    }
  }

  lemma Wanted(files: GuestFiles, p: FilePath) returns (d: Desired)
    requires Wants(EntriesOf(files), p)
    ensures File(d) in EntriesOf(files) && d.entry.path == p
  {
    var entries := EntriesOf(files);
    var i :| 0 <= i < |entries| && entries[i].File? && entries[i].d.entry.path == p;
    d := entries[i].d;
    assert entries[i] == File(d);
  }

  // ---------------------------------------------------------------- several writers, one manifest

  /** One sync, by anyone: the document or an operator, from any probe, with any outcomes. */
  datatype Sync = Sync(files: GuestFiles, keys: seq<FilePath>, nodes: Nodes, force: bool, done: seq<bool>)

  /** The manifest after the sync is what the commit leaves, or the old one when the sync
      ended in an error. */
  ghost predicate SyncStep(was: Manifest, s: Sync, now: Manifest) {
    && Enumerates(s.keys, was) && NoCollisions(EntriesOf(s.files))
    && var plan := PlanOf(s.files, was, s.keys, s.nodes, s.force);
       |s.done| == |plan.ops| && (now == ManifestAfter(was, plan, s.done) || now == was)
  }

  /** While a path stays recorded its writer stays: the document, or one operator. */
  lemma WriterKept(was: Manifest, s: Sync, now: Manifest, p: FilePath)
    requires SyncStep(was, s, now) && p in was && p in now
    ensures ManagedOperator(now[p].source) == ManagedOperator(was[p].source)
  {
    hide PlanOf, NoCollisions, Enumerates, Assess, ManagedOperator;
    if now != was { ManifestTruth(s.files, was, s.keys, s.nodes, s.force, s.done, p); }
  }

  /** An operator's record goes only when its file was seen to be missing. */
  lemma ManagedKept(was: Manifest, s: Sync, now: Manifest, p: FilePath)
    requires SyncStep(was, s, now) && p in was && IsManaged(was[p].source) && p !in now
    ensures Assess(p, s.nodes).Gone?
  {
    hide TakeEntries, TakeRecords, NoCollisions, Decide, Assess;
    var plan := PlanOf(s.files, was, s.keys, s.nodes, s.force);
    UndoneRecord(was, plan.manifest, plan.ops, s.done, |plan.ops|, p);
    assert Recorded(now, p) == None && Recorded(was, p).Some?;
    assert !OnHold(s.files, s.nodes);
    if Wants(EntriesOf(s.files), p) {
      var d := Wanted(s.files, p);
      WantedRecord(s.files, was, s.keys, s.nodes, s.force, d);
    } else {
      UnwantedRecord(s.files, was, s.keys, s.nodes, s.force, p);
    }
  }

  /** An operator's sync removes no file, and neither does any sync remove an operator's. */
  lemma NothingManagedRemoved(files: GuestFiles, was: Manifest, keys: seq<FilePath>, nodes: Nodes, force: bool, op: Op)
    requires forall i :: 0 <= i < |keys| ==> keys[i] in was
    requires op in PlanOf(files, was, keys, nodes, force).ops && op.RemoveFile?
    ensures !files.Managed? && op.path in was && !IsManaged(was[op.path].source)
  {
    hide PlanOf, Wants, Assess;
    PlanReasoned(files, was, keys, nodes, force, op);
  }

  ghost predicate Run(ms: seq<Manifest>, ss: seq<Sync>) {
    |ms| == |ss| + 1 && forall i :: 0 <= i < |ss| ==> SyncStep(ms[i], ss[i], ms[i + 1])
  }

  /** Over every run, a path that stays recorded stays with its writer. */
  lemma {:induction false} WriterOverRuns(ms: seq<Manifest>, ss: seq<Sync>, p: FilePath)
    requires Run(ms, ss) && forall i :: 0 <= i < |ms| ==> p in ms[i]
    ensures ManagedOperator(ms[|ms| - 1][p].source) == ManagedOperator(ms[0][p].source)
    decreases |ss|
  {
    hide SyncStep, ManagedOperator;
    if ss != [] {
      var n := |ss| - 1;
      WriterKept(ms[n], ss[n], ms[n + 1], p);
      WriterOverRuns(ms[..n + 1], ss[..n], p);
    }
  }

  /** Over every run, an operator's record is lost only by a sync that saw its file missing. */
  lemma {:induction false} ManagedOverRuns(ms: seq<Manifest>, ss: seq<Sync>, p: FilePath)
    requires Run(ms, ss)
    requires p in ms[0] && IsManaged(ms[0][p].source) && p !in ms[|ms| - 1]
    ensures exists i :: 0 <= i < |ss| && p in ms[i] && p !in ms[i + 1] && Assess(p, ss[i].nodes).Gone?
    decreases |ss|
  {
    hide SyncStep, Assess;
    if p !in ms[1] {
      ManagedKept(ms[0], ss[0], ms[1], p);
    } else {
      WriterKept(ms[0], ss[0], ms[1], p);
      ManagedOverRuns(ms[1..], ss[1..], p);
      var i :| 0 <= i < |ss[1..]| && p in ms[1..][i] && p !in ms[1..][i + 1] && Assess(p, ss[1..][i].nodes).Gone?;
      assert ms[1..][i] == ms[i + 1] && ms[1..][i + 1] == ms[i + 2] && ss[1..][i] == ss[i + 1];
    }
  }
}
