/** A sync nobody interferes with, on the guest's files: every operation finds its file as
    expected, and how many such syncs it takes until there is nothing left to do. */
module Undisturbed {
  import opened Values
  import opened GuestPlan
  import opened PlanLaws
  import opened Manifests
  import opened SyncProtocol
  import C = Convergence

  /** Everything an `lstat` of the whole guest would see. */
  function Everything(h: Hash, fs: Fs): Nodes {
    map p | p in fs :: NodeOf(h, fs, p)
  }

  function AllDone(fs: Fs, ops: seq<Op>): Fs {
    if ops == [] then fs else Carried(AllDone(fs, ops[..|ops| - 1]), ops[|ops| - 1])
  }

  function Look(fs: Fs, p: FilePath): Option<FsNode> {
    if p in fs then Some(fs[p]) else None
  }

  /** The digest of every wanted file is its content's. */
  ghost predicate Honest(h: Hash, files: GuestFiles) {
    forall d :: File(d) in EntriesOf(files) ==> d.sha == h(d.content)
  }

  lemma DoneNext(fs: Fs, ops: seq<Op>, op: Op)
    ensures AllDone(fs, ops + [op]) == Carried(AllDone(fs, ops), op)
  {
    assert (ops + [op])[..|ops|] == ops;
  }

  // ---------------------------------------------------------------- what the operations do to each path

  lemma {:induction false} EntriesTouch(fs: Fs, was: Manifest, nodes: Nodes, force: bool, entries: seq<Resolved>, n: nat, q: FilePath)
    requires n <= |entries|
    requires forall i :: 0 <= i < n && entries[i].File? ==> entries[i].d.entry.path != q
    ensures Look(AllDone(fs, TakeEntries(was, nodes, force, entries, n).ops), q) == Look(fs, q)
  {
    hide Decide;
    if n > 0 {
      EntriesTouch(fs, was, nodes, force, entries, n - 1, q);
      EntryOps(fs, was, nodes, force, entries, n);
    }
  }

  lemma EntryOps(fs: Fs, was: Manifest, nodes: Nodes, force: bool, entries: seq<Resolved>, n: nat)
    requires 0 < n <= |entries|
    ensures var half, ops := TakeEntries(was, nodes, force, entries, n - 1).ops, TakeEntries(was, nodes, force, entries, n).ops;
            AllDone(fs, ops) ==
              if entries[n - 1].File? && Decide(was, nodes, force, entries[n - 1].d).expects.Some?
              then Carried(AllDone(fs, half), OpFor(was, nodes, force, entries[n - 1].d))
              else AllDone(fs, half)
  {
    hide Decide, AllDone;
    if entries[n - 1].File? && Decide(was, nodes, force, entries[n - 1].d).expects.Some? {
      DoneNext(fs, TakeEntries(was, nodes, force, entries, n - 1).ops, OpFor(was, nodes, force, entries[n - 1].d));
    }
  }

  lemma {:induction false} EntryTouches(fs: Fs, was: Manifest, nodes: Nodes, force: bool, entries: seq<Resolved>, n: nat, i: nat)
    requires i < n <= |entries| && NoCollisions(entries) && entries[i].File?
    ensures var d := entries[i].d;
            Look(AllDone(fs, TakeEntries(was, nodes, force, entries, n).ops), d.entry.path) ==
              if Decide(was, nodes, force, d).expects.Some? then Some(FsFile(d.content, d.entry.owner, d.entry.mode))
              else Look(fs, d.entry.path)
  {
    hide Decide, TakeEntries, AllDone;
    var p := entries[i].d.entry.path;
    EntryOps(fs, was, nodes, force, entries, n);
    if i < n - 1 {
      EntryTouches(fs, was, nodes, force, entries, n - 1, i);
      if entries[n - 1].File? { assert !Collide(p, entries[n - 1].d.entry.path); }
    } else {
      forall x | 0 <= x < n - 1 && entries[x].File? ensures entries[x].d.entry.path != p {
        assert !Collide(entries[x].d.entry.path, p);
      }
      EntriesTouch(fs, was, nodes, force, entries, n - 1, p);
    }
  }

  lemma {:induction false} RecordsTouch(fs: Fs, files: GuestFiles, was: Manifest, nodes: Nodes, half: Plan, keys: seq<FilePath>, n: nat, q: FilePath)
    requires n <= |keys| && forall i :: 0 <= i < |keys| ==> keys[i] in was
    ensures Look(AllDone(fs, TakeRecords(files, was, nodes, half, keys, n).ops), q) ==
              if q in keys[..n] && C.ToDelete(files, was, nodes, q) then None else Look(AllDone(fs, half.ops), q)
  {
    hide FateOf, Wants, AllDone;
    if n > 0 {
      RecordsTouch(fs, files, was, nodes, half, keys, n - 1, q);
      var k := keys[n - 1];
      assert keys[..n] == keys[..n - 1] + [k];
      var before := TakeRecords(files, was, nodes, half, keys, n - 1);
      if C.ToDelete(files, was, nodes, k) {
        DoneNext(fs, before.ops, RemoveFile(k, was[k].sha));
      } else {
        assert TakeRecords(files, was, nodes, half, keys, n).ops == before.ops;
      }
    }
  }

  /** The plan's operations, all done: wanted files placed, abandoned ones gone, nothing else. */
  lemma PlanTouches(fs: Fs, files: GuestFiles, was: Manifest, keys: seq<FilePath>, nodes: Nodes, force: bool, q: FilePath)
    requires Enumerates(keys, was) && NoCollisions(EntriesOf(files)) && !OnHold(files, nodes)
    ensures var r := Look(AllDone(fs, PlanOf(files, was, keys, nodes, force).ops), q);
            && (forall d :: C.ToPlace(files, was, nodes, force, q, d) ==> r == Some(FsFile(d.content, d.entry.owner, d.entry.mode)))
            && (C.ToDelete(files, was, nodes, q) ==> r == None)
            && (!C.ToDelete(files, was, nodes, q) && (forall d :: !C.ToPlace(files, was, nodes, force, q, d)) ==> r == Look(fs, q))
  {
    hide TakeEntries, TakeRecords, Decide, FateOf, AllDone, NoCollisions;
    var entries := EntriesOf(files);
    var half := TakeEntries(was, nodes, force, entries, |entries|);
    RecordsTouch(fs, files, was, nodes, half, keys, |keys|, q);
    assert keys[..|keys|] == keys;
    if Wants(entries, q) {
      var i :| 0 <= i < |entries| && entries[i].File? && entries[i].d.entry.path == q;
      EntryTouches(fs, was, nodes, force, entries, |entries|, i);
      var d0 := entries[i].d;
      assert File(d0) in entries;
      forall d | C.ToPlace(files, was, nodes, force, q, d) ensures d == d0 { C.NoOther(files, d, d0); }
      assert C.ToPlace(files, was, nodes, force, q, d0) <==> Decide(was, nodes, force, d0).expects.Some?;
    } else {
      EntriesTouch(fs, was, nodes, force, entries, |entries|, q);
      forall d ensures !C.ToPlace(files, was, nodes, force, q, d) { C.NotWantedNotPlaced(files, was, nodes, force, q, d); }
    }
  }

  // ---------------------------------------------------------------- directories

  /** A directory to be made is the manifest's, or above a file to be created. */
  ghost predicate DirsOnly(files: GuestFiles, was: Manifest, nodes: Nodes, force: bool, dirs: set<FilePath>) {
    forall q :: q in dirs ==> q == GUEST_ROOT || exists d :: DirFor(files, was, nodes, force, q, d)
  }

  ghost predicate DirFor(files: GuestFiles, was: Manifest, nodes: Nodes, force: bool, q: FilePath, d: Desired) {
    File(d) in EntriesOf(files) && Decide(was, nodes, force, d).action.Create? && [] < q < d.entry.path
  }

  lemma {:induction false} DirWhy(files: GuestFiles, was: Manifest, nodes: Nodes, force: bool, n: nat, q: FilePath) returns (d: Desired)
    requires n <= |EntriesOf(files)| && q in TakeEntries(was, nodes, force, EntriesOf(files), n).dirs
    ensures DirFor(files, was, nodes, force, q, d)
  {
    hide Decide, EntriesOf, Directories;
    var entries := EntriesOf(files);
    if q in TakeEntries(was, nodes, force, entries, n - 1).dirs {
      d := DirWhy(files, was, nodes, force, n - 1, q);
    } else {
      assert entries[n - 1].File?;
      d := entries[n - 1].d;
      assert File(d) in entries;
      AboveIt(nodes, d.entry.path, q);
    }
  }

  lemma {:induction false} DirThere(files: GuestFiles, was: Manifest, nodes: Nodes, force: bool, n: nat, x: nat, q: FilePath)
    requires x < n <= |EntriesOf(files)| && EntriesOf(files)[x].File?
    requires Decide(was, nodes, force, EntriesOf(files)[x].d).action.Create?
    requires q in Needs(nodes, EntriesOf(files)[x].d.entry.path)
    ensures q in TakeEntries(was, nodes, force, EntriesOf(files), n).dirs
  {
    hide Decide, EntriesOf, Directories;
    if x < n - 1 { DirThere(files, was, nodes, force, n - 1, x, q); }
  }

  function Needs(nodes: Nodes, p: FilePath): set<FilePath> {
    set q | q in Directories(p) && !NodeAt(nodes, q).Dir?
  }

  lemma AboveIt(nodes: Nodes, p: FilePath, q: FilePath)
    requires q in Needs(nodes, p)
    ensures [] < q < p
  {
  }

  lemma {:induction false} RecordsDirs(files: GuestFiles, was: Manifest, nodes: Nodes, half: Plan, keys: seq<FilePath>, n: nat)
    requires n <= |keys| && forall i :: 0 <= i < |keys| ==> keys[i] in was
    ensures TakeRecords(files, was, nodes, half, keys, n).dirs == half.dirs
  {
    hide FateOf, Wants;
    if n > 0 { RecordsDirs(files, was, nodes, half, keys, n - 1); }
  }

  lemma PlanDirs(files: GuestFiles, was: Manifest, keys: seq<FilePath>, nodes: Nodes, force: bool)
    requires Enumerates(keys, was) && !OnHold(files, nodes)
    ensures C.DirsCover(files, was, nodes, force, PlanOf(files, was, keys, nodes, force).dirs)
    ensures DirsOnly(files, was, nodes, force, PlanOf(files, was, keys, nodes, force).dirs)
  {
    hide TakeEntries, TakeRecords, Decide, Directories, EntriesOf, DirFor;
    var entries := EntriesOf(files);
    var half := TakeEntries(was, nodes, force, entries, |entries|);
    RecordsDirs(files, was, nodes, half, keys, |keys|);
    var dirs := PlanOf(files, was, keys, nodes, force).dirs;
    assert half.dirs <= dirs <= half.dirs + {GUEST_ROOT};
    forall q | q in dirs && q != GUEST_ROOT ensures exists d :: DirFor(files, was, nodes, force, q, d) {
      var d := DirWhy(files, was, nodes, force, |entries|, q);
    }
    forall d | File(d) in entries && Decide(was, nodes, force, d).action.Create?
      ensures forall i :: 0 < i < |d.entry.path| && !NodeAt(nodes, d.entry.path[..i]).Dir? ==> d.entry.path[..i] in dirs
    {
      var x :| 0 <= x < |entries| && entries[x] == File(d);
      forall i | 0 < i < |d.entry.path| && !NodeAt(nodes, d.entry.path[..i]).Dir? ensures d.entry.path[..i] in dirs {
        IsNeeded(nodes, d.entry.path, i);
        DirThere(files, was, nodes, force, |entries|, x, d.entry.path[..i]);
      }
    }
  }

  lemma IsNeeded(nodes: Nodes, p: FilePath, i: nat)
    requires 0 < i < |p| && !NodeAt(nodes, p[..i]).Dir?
    ensures p[..i] in Needs(nodes, p)
  {
  }

  // ---------------------------------------------------------------- no two operations on one path

  ghost predicate DistinctPaths(ops: seq<Op>) {
    forall i, j :: 0 <= i < j < |ops| ==> ops[i].path != ops[j].path
  }

  lemma {:induction false} EntryOfOp(was: Manifest, nodes: Nodes, force: bool, entries: seq<Resolved>, n: nat, op: Op) returns (i: nat)
    requires n <= |entries| && op in TakeEntries(was, nodes, force, entries, n).ops
    ensures i < n && entries[i].File? && entries[i].d.entry.path == op.path
  {
    hide Decide;
    if op in TakeEntries(was, nodes, force, entries, n - 1).ops {
      i := EntryOfOp(was, nodes, force, entries, n - 1, op);
    } else {
      i := n - 1;
    }
  }

  lemma OneMorePath(ops: seq<Op>, op: Op)
    requires DistinctPaths(ops) && forall o :: o in ops ==> o.path != op.path
    ensures DistinctPaths(ops + [op])
  {
  }

  lemma {:induction false} EntriesDistinct(was: Manifest, nodes: Nodes, force: bool, entries: seq<Resolved>, n: nat)
    requires n <= |entries| && NoCollisions(entries)
    ensures DistinctPaths(TakeEntries(was, nodes, force, entries, n).ops)
  {
    hide Decide, DistinctPaths;
    if n == 0 {
      NoPaths();
    } else {
      EntriesDistinct(was, nodes, force, entries, n - 1);
      var ops := TakeEntries(was, nodes, force, entries, n - 1).ops;
      if entries[n - 1].File? && Decide(was, nodes, force, entries[n - 1].d).expects.Some? {
        var d := entries[n - 1].d;
        forall o | o in ops ensures o.path != d.entry.path {
          var i := EntryOfOp(was, nodes, force, entries, n - 1, o);
          assert !Collide(entries[i].d.entry.path, d.entry.path);
        }
        OneMorePath(ops, OpFor(was, nodes, force, d));
      }
    }
  }

  lemma NoPaths()
    ensures DistinctPaths([])
  {
  }

  lemma {:induction false} RecordsDistinct(files: GuestFiles, was: Manifest, nodes: Nodes, half: Plan, keys: seq<FilePath>, n: nat)
    requires n <= |keys| && Enumerates(keys, was) && DistinctPaths(half.ops)
    requires forall op :: op in half.ops ==> Wants(EntriesOf(files), op.path)
    ensures var ops := TakeRecords(files, was, nodes, half, keys, n).ops;
            DistinctPaths(ops) && forall op :: op in ops ==> Wants(EntriesOf(files), op.path) || op.path in keys[..n]
  {
    hide FateOf, Wants, DistinctPaths;
    if n > 0 {
      RecordsDistinct(files, was, nodes, half, keys, n - 1);
      var before := TakeRecords(files, was, nodes, half, keys, n - 1);
      var k := keys[n - 1];
      assert keys[..n] == keys[..n - 1] + [k];
      if C.ToDelete(files, was, nodes, k) {
        OneMorePath(before.ops, RemoveFile(k, was[k].sha));
      } else {
        assert TakeRecords(files, was, nodes, half, keys, n).ops == before.ops;
      }
    }
  }

  lemma PlanDistinct(files: GuestFiles, was: Manifest, keys: seq<FilePath>, nodes: Nodes, force: bool)
    requires Enumerates(keys, was) && NoCollisions(EntriesOf(files))
    ensures DistinctPaths(PlanOf(files, was, keys, nodes, force).ops)
  {
    hide TakeEntries, TakeRecords, DistinctPaths, Enumerates;
    var entries := EntriesOf(files);
    var half := TakeEntries(was, nodes, force, entries, |entries|);
    NoPaths();
    EntriesDistinct(was, nodes, force, entries, |entries|);
    forall op | op in half.ops ensures Wants(entries, op.path) {
      var i := EntryOfOp(was, nodes, force, entries, |entries|, op);
    }
    RecordsDistinct(files, was, nodes, half, keys, |keys|);
  }

  lemma {:induction false} UntouchedSoFar(fs: Fs, ops: seq<Op>, q: FilePath)
    requires forall op :: op in ops ==> op.path != q
    ensures Look(AllDone(fs, ops), q) == Look(fs, q)
  {
    if ops != [] { UntouchedSoFar(fs, ops[..|ops| - 1], q); }
  }

  // ---------------------------------------------------------------- the theorems

  /** A guest as guests are, and files as they are resolved. */
  ghost predicate Setting(h: Hash, files: GuestFiles, was: Manifest, fs: Fs) {
    && NoCollisions(EntriesOf(files)) && Honest(h, files) && !files.Held?
    && C.AllPlaceable(files, was)
    && C.Rooted(Everything(h, fs)) && C.Habitable(Everything(h, fs))
  }

  function PlanFor(h: Hash, files: GuestFiles, was: Manifest, keys: seq<FilePath>, fs: Fs, force: bool): Plan
    requires forall i :: 0 <= i < |keys| ==> keys[i] in was
  {
    PlanOf(files, was, keys, Seen(h, fs, files, was), force)
  }

  /** The guest's files after a sync of which every operation was done and nobody interfered. */
  function Result(fs: Fs, p: Plan): Fs {
    AllDone(MakeDirs(fs, p.dirs), p.ops)
  }

  lemma {:induction false} NothingWantedSame(was: Manifest, a: Nodes, b: Nodes, force: bool, entries: seq<Resolved>, n: nat)
    requires n <= |entries| && forall i :: 0 <= i < |entries| ==> !entries[i].File?
    ensures TakeEntries(was, a, force, entries, n) == TakeEntries(was, b, force, entries, n)
    ensures TakeEntries(was, a, force, entries, n).ops == [] && TakeEntries(was, a, force, entries, n).manifest == map[]
  {
    if n > 0 { NothingWantedSame(was, a, b, force, entries, n - 1); }
  }

  /** The sync's own probe is as good as seeing everything. */
  lemma SeenIsEnough(h: Hash, files: GuestFiles, was: Manifest, keys: seq<FilePath>, fs: Fs, force: bool)
    requires Enumerates(keys, was) && Setting(h, files, was, fs)
    ensures PlanFor(h, files, was, keys, fs, force) == PlanOf(files, was, keys, Everything(h, fs), force)
    ensures !OnHold(files, Everything(h, fs))
  {
    hide TakeEntries, TakeRecords, ProbePaths, EntriesOf, NoCollisions, Honest, C.AllPlaceable, C.Rooted;
    var all := Everything(h, fs);
    if WantsFiles(files) || was != map[] {
      assert AgreeOn(ProbePaths(files, was), Seen(h, fs, files, was), all);
      ProbeSuffices(files, was, keys, Seen(h, fs, files, was), all, force);
    } else {
      var entries := EntriesOf(files);
      NothingWantedSame(was, map[], all, force, entries, |entries|);
      FirstKey(keys, was);
      assert keys == [];
      NoRecords(files, was, map[], TakeEntries(was, map[], force, entries, |entries|));
      NoRecords(files, was, all, TakeEntries(was, all, force, entries, |entries|));
    }
  }

  lemma FirstKey(keys: seq<FilePath>, m: Manifest)
    requires Enumerates(keys, m)
    ensures |keys| > 0 ==> keys[0] in m
  {
  }

  lemma NoRecords(files: GuestFiles, was: Manifest, nodes: Nodes, p: Plan)
    ensures TakeRecords(files, was, nodes, p, [], 0) == p
  {
  }

  /** Undisturbed, nothing stands where a directory is to be made, and every operation finds
      its file as it expects it: none is skipped. */
  lemma NoneSkipped(h: Hash, files: GuestFiles, was: Manifest, keys: seq<FilePath>, fs: Fs, force: bool, i: nat)
    requires Enumerates(keys, was) && Setting(h, files, was, fs)
    requires i < |PlanFor(h, files, was, keys, fs, force).ops|
    ensures var p := PlanFor(h, files, was, keys, fs, force);
            StillAsExpected(h, AllDone(MakeDirs(fs, p.dirs), p.ops[..i]), p.ops[i])
  {
    hide PlanOf, PlanFor, AllDone, DirsOnly;
    SeenIsEnough(h, files, was, keys, fs, force);
    var nodes, p := Everything(h, fs), PlanFor(h, files, was, keys, fs, force);
    var op := p.ops[i];
    assert op in p.ops;
    PlanReasoned(files, was, keys, nodes, force, op);
    PlanDistinct(files, was, keys, nodes, force);
    PlanDirs(files, was, keys, nodes, force);
    UntouchedSoFar(MakeDirs(fs, p.dirs), p.ops[..i], op.path);
    if op.Place? {
      var d :| File(d) in EntriesOf(files) && PlacedFor(was, nodes, force, d, op);
      if op.expects.ExpectMissing? {
        C.GoneMeans(op.path, nodes);
        NotADirectory(h, files, was, fs, force, p.dirs, d);
      } else {
        C.PresentMeans(op.path, nodes);
      }
    } else {
      C.PresentMeans(op.path, nodes);
    }
  }

  lemma NotADirectory(h: Hash, files: GuestFiles, was: Manifest, fs: Fs, force: bool, dirs: set<FilePath>, d: Desired)
    requires Setting(h, files, was, fs) && File(d) in EntriesOf(files)
    requires DirsOnly(files, was, Everything(h, fs), force, dirs)
    ensures d.entry.path !in dirs
  {
    hide NoCollisions, Honest, C.Rooted, EntriesOf, Decide;
    if d.entry.path in dirs {
      assert C.Placeable(d.entry.path);
      if e :| DirFor(files, was, Everything(h, fs), force, d.entry.path, e) {
        C.NoOther(files, d, e);
      }
    }
  }

  /** And nothing stands where a directory is to be made. */
  lemma NothingInTheWay(h: Hash, files: GuestFiles, was: Manifest, keys: seq<FilePath>, fs: Fs, force: bool)
    requires Enumerates(keys, was) && Setting(h, files, was, fs)
    ensures DirsPossible(fs, PlanFor(h, files, was, keys, fs, force).dirs)
  {
    hide PlanOf, NoCollisions, Honest, C.AllPlaceable, EntriesOf, PlanFor;
    SeenIsEnough(h, files, was, keys, fs, force);
    var nodes, dirs := Everything(h, fs), PlanFor(h, files, was, keys, fs, force).dirs;
    PlanDirs(files, was, keys, nodes, force);
    forall q | q in dirs && q in fs ensures fs[q].FsDir? {
      assert !NodeAt(nodes, q).Missing?;
      if q == GUEST_ROOT {
        assert !InTheWay(NodeAt(nodes, q));
      } else {
        var d :| DirFor(files, was, nodes, force, q, d);
        assert Assess(d.entry.path, nodes).Gone?;
        C.GoneMeans(d.entry.path, nodes);
        assert q == d.entry.path[..|q|];
      }
    }
  }

  /** What the undisturbed sync leaves, as the next one will see it. */
  lemma SyncedNow(h: Hash, files: GuestFiles, was: Manifest, keys: seq<FilePath>, fs: Fs, force: bool)
    requires Enumerates(keys, was) && Setting(h, files, was, fs)
    ensures var p := PlanFor(h, files, was, keys, fs, force);
            C.Synced(files, was, Everything(h, fs), force, p.dirs, Everything(h, Result(fs, p)), p.manifest)
  {
    hide PlanOf, NoCollisions, C.Rooted, C.DirsCover, PlanFor, C.AllPlaceable, AllDone, Decide, FateOf, Wants, C.Carried;
    SeenIsEnough(h, files, was, keys, fs, force);
    var nodes, p := Everything(h, fs), PlanFor(h, files, was, keys, fs, force);
    PlanDirs(files, was, keys, nodes, force);
    IsCarried(h, files, was, keys, fs, force);
    forall d | File(d) in EntriesOf(files)
      ensures Recorded(p.manifest, d.entry.path) ==
                if Decide(was, nodes, force, d).action.Records() then Some(RecordOf(d)) else Recorded(was, d.entry.path)
    {
      WantedRecord(files, was, keys, nodes, force, d);
    }
    forall q | !Wants(EntriesOf(files), q)
      ensures Recorded(p.manifest, q) == if q in was && FateOf(files, nodes, was[q], q).Stays? then Some(was[q]) else None
    {
      UnwantedRecord(files, was, keys, nodes, force, q);
    }
  }

  lemma IsCarried(h: Hash, files: GuestFiles, was: Manifest, keys: seq<FilePath>, fs: Fs, force: bool)
    requires Enumerates(keys, was) && Setting(h, files, was, fs)
    ensures var p := PlanFor(h, files, was, keys, fs, force);
            C.Carried(files, was, Everything(h, fs), force, p.dirs, Everything(h, Result(fs, p)))
  {
    hide PlanOf, NoCollisions, C.Rooted, C.AllPlaceable, PlanFor, AllDone, C.ToPlace, C.ToDelete, Decide;
    SeenIsEnough(h, files, was, keys, fs, force);
    var nodes, p := Everything(h, fs), PlanFor(h, files, was, keys, fs, force);
    var made := MakeDirs(fs, p.dirs);
    var after := Everything(h, Result(fs, p));
    forall q, d | C.ToPlace(files, was, nodes, force, q, d)
      ensures NodeAt(after, q) == Regular(d.entry.owner, d.entry.mode, d.sha)
    {
      PlanTouches(made, files, was, keys, nodes, force, q);
      TruePlace(h, files, was, nodes, force, q, d);
    }
    forall q | C.ToDelete(files, was, nodes, q) ensures NodeAt(after, q).Missing? {
      PlanTouches(made, files, was, keys, nodes, force, q);
    }
    forall q | !C.ToDelete(files, was, nodes, q) && (forall d :: !C.ToPlace(files, was, nodes, force, q, d))
      ensures NodeAt(after, q) == if q in p.dirs && NodeAt(nodes, q).Missing? then Dir else NodeAt(nodes, q)
    {
      PlanTouches(made, files, was, keys, nodes, force, q);
    }
  }

  lemma TruePlace(h: Hash, files: GuestFiles, was: Manifest, nodes: Nodes, force: bool, q: FilePath, d: Desired)
    requires Honest(h, files) && C.ToPlace(files, was, nodes, force, q, d)
    ensures d.sha == h(d.content)
  {
    hide Decide;
  }

  /** What such a sync leaves asks for nothing more exactly when it deletes no file that was in
      the way of a path somebody still cares about. */
  lemma ResultQuietIff(h: Hash, files: GuestFiles, was: Manifest, keys: seq<FilePath>, fs: Fs, force: bool, keys': seq<FilePath>)
    requires Enumerates(keys, was) && Setting(h, files, was, fs)
    requires Enumerates(keys', PlanFor(h, files, was, keys, fs, force).manifest)
    ensures var p := PlanFor(h, files, was, keys, fs, force);
            C.Quiet(PlanFor(h, files, p.manifest, keys', Result(fs, p), force), p.manifest)
            <==> C.NothingUncovered(files, was, Everything(h, fs))
  {
    hide PlanFor, Result, C.Synced, C.NothingUncovered, Everything, Setting, OnHold, C.Quiet;
    var p := PlanFor(h, files, was, keys, fs, force);
    SyncedNow(h, files, was, keys, fs, force);
    StillSetting(h, files, was, keys, fs, force);
    SeenIsEnough(h, files, p.manifest, keys', Result(fs, p), force);
    C.QuietIff(files, was, Everything(h, fs), force, p.dirs, Everything(h, Result(fs, p)), p.manifest, keys');
  }

  /** What two of them leave never does. */
  lemma SecondResultQuiet(h: Hash, files: GuestFiles, was: Manifest, keys: seq<FilePath>, fs: Fs, force: bool,
                       keys': seq<FilePath>, keys'': seq<FilePath>)
    requires Enumerates(keys, was) && Setting(h, files, was, fs)
    requires Enumerates(keys', PlanFor(h, files, was, keys, fs, force).manifest)
    requires var p := PlanFor(h, files, was, keys, fs, force);
             Enumerates(keys'', PlanFor(h, files, p.manifest, keys', Result(fs, p), force).manifest)
    ensures var p := PlanFor(h, files, was, keys, fs, force);
            var q := PlanFor(h, files, p.manifest, keys', Result(fs, p), force);
            C.Quiet(PlanFor(h, files, q.manifest, keys'', Result(Result(fs, p), q), force), q.manifest)
  {
    hide PlanFor, Result, C.Synced, C.NothingUncovered, Everything, Setting, C.Quiet;
    var p := PlanFor(h, files, was, keys, fs, force);
    SyncedNow(h, files, was, keys, fs, force);
    StillSetting(h, files, was, keys, fs, force);
    C.SecondDeletesNothing(files, was, Everything(h, fs), force, p.dirs, Everything(h, Result(fs, p)), p.manifest);
    ResultQuietIff(h, files, p.manifest, keys', Result(fs, p), force, keys'');
  }

  /** The guest an undisturbed sync leaves is again a guest as guests are. */
  lemma StillSetting(h: Hash, files: GuestFiles, was: Manifest, keys: seq<FilePath>, fs: Fs, force: bool)
    requires Enumerates(keys, was) && Setting(h, files, was, fs)
    ensures var p := PlanFor(h, files, was, keys, fs, force);
            Setting(h, files, p.manifest, Result(fs, p))
  {
    hide PlanOf, PlanFor, Result, Everything, Honest, NoCollisions, DirsOnly;
    var p := PlanFor(h, files, was, keys, fs, force);
    SeenIsEnough(h, files, was, keys, fs, force);
    SyncedNow(h, files, was, keys, fs, force);
    PlanDirs(files, was, keys, Everything(h, fs), force);
    var before, after := Everything(h, fs), Everything(h, Result(fs, p));
    assert C.AllPlaceable(files, p.manifest) by {
      forall q | q in p.manifest ensures C.Placeable(q) {
        if Wants(EntriesOf(files), q) { var d := Wanted(files, q); }
        else { assert Recorded(p.manifest, q).Some?; }
      }
    }
    forall a: FilePath, b: FilePath | [] < b < a && !NodeAt(after, a).Missing?
      ensures !NodeAt(after, b).Missing? && !NodeAt(after, b).Regular?
    {
      StillRooted(files, was, before, force, p.dirs, after, p.manifest, a, b);
    }
    StillHabitable(files, was, before, force, p.dirs, after, p.manifest);
  }

  lemma StillHabitable(files: GuestFiles, was: Manifest, before: Nodes, force: bool, dirs: set<FilePath>, after: Nodes, now: Manifest)
    requires C.Synced(files, was, before, force, dirs, after, now) && C.Habitable(before)
    ensures C.Habitable(after)
  {
    hide NoCollisions, C.Rooted, C.DirsCover, Decide, FateOf;
    C.NodeStays(files, was, before, force, dirs, after, ETC);
    C.NodeStays(files, was, before, force, dirs, after, GUEST_ROOT);
    assert !C.Placeable(GUEST_ROOT);
    assert forall d :: !C.ToPlace(files, was, before, force, GUEST_ROOT, d);
    assert !C.ToDelete(files, was, before, GUEST_ROOT);
  }

  lemma StillRooted(files: GuestFiles, was: Manifest, before: Nodes, force: bool, dirs: set<FilePath>, after: Nodes, now: Manifest,
                    a: FilePath, b: FilePath)
    requires C.Synced(files, was, before, force, dirs, after, now) && C.Habitable(before)
    requires DirsOnly(files, was, before, force, dirs)
    requires [] < b < a && !NodeAt(after, a).Missing?
    ensures !NodeAt(after, b).Missing? && !NodeAt(after, b).Regular?
  {
    hide NoCollisions, C.DirsCover, C.AllPlaceable, Decide, FateOf, Wants, Recorded, C.ToPlace, C.ToDelete, DirsOnly;
    if d :| C.ToPlace(files, was, before, force, a, d) {
      PlacedDirs(files, was, before, force, dirs, after, now, d, a, b);
    } else if !NodeAt(before, a).Missing? {
      C.NodeStays(files, was, before, force, dirs, after, b);
    } else {
      assert a in dirs by { assert !C.ToDelete(files, was, before, a); }
      MadeDirs(files, was, before, force, dirs, after, now, a, b);
    }
  }

  lemma PlacedDirs(files: GuestFiles, was: Manifest, before: Nodes, force: bool, dirs: set<FilePath>, after: Nodes, now: Manifest,
                   d: Desired, c: FilePath, b: FilePath)
    requires C.Synced(files, was, before, force, dirs, after, now)
    requires C.ToPlace(files, was, before, force, c, d) && [] < b < c
    ensures NodeAt(after, b).Dir?
  {
    hide NoCollisions, C.DirsCover, Decide, FateOf, C.Carried, C.Rooted;
    C.PlacedIsThere(files, was, before, force, dirs, after, d);
    C.PresentMeans(d.entry.path, after);
    assert b == d.entry.path[..|b|];
  }

  lemma MadeDirs(files: GuestFiles, was: Manifest, before: Nodes, force: bool, dirs: set<FilePath>, after: Nodes, now: Manifest,
                 a: FilePath, b: FilePath)
    requires C.Synced(files, was, before, force, dirs, after, now) && C.Habitable(before)
    requires DirsOnly(files, was, before, force, dirs)
    requires [] < b < a && a in dirs
    ensures NodeAt(after, b).Dir?
  {
    hide NoCollisions, C.DirsCover, Decide, FateOf, C.Carried, C.Rooted;
    if a == GUEST_ROOT {
      assert b == ETC;
      C.NodeStays(files, was, before, force, dirs, after, ETC);
    } else {
      var d :| DirFor(files, was, before, force, a, d);
      C.CreatePlaces(was, before, force, d);
      PlacedDirs(files, was, before, force, dirs, after, now, d, d.entry.path, b);
    }
  }

  /** Guests that differ only in that one sync does not settle them: nothing is wanted, and
      deleting the document's file clears the way of an operator's record. */
  const TOP: FilePath := ["srv"]
  const BELOW: FilePath := ["srv", "b"]
  const NestedFiles: Fs := map[ETC := FsDir, TOP := FsFile([], Owner(0, 0), 292)]

  function NestedRecords(h: Hash): Manifest {
    map[TOP := Record("a", TOP, h([]), "user/a"), BELOW := Record("b", BELOW, h([]), "managed/op/b")]
  }

  lemma OutsideEtc(p: FilePath)
    requires p != [] && p[0] != MANIFEST[0]
    ensures C.Placeable(p)
  {
  }

  lemma FlatIsRooted(nodes: Nodes)
    requires forall p: FilePath | |p| != 1 :: NodeAt(nodes, p).Missing?
    ensures C.Rooted(nodes)
  {
    hide NodeAt;
  }

  lemma NestedPlaceable()
    ensures C.Placeable(TOP) && C.Placeable(BELOW)
  {
    assert "etc"[0] == 'e' && "srv"[0] == 's';
    OutsideEtc(TOP);
    OutsideEtc(BELOW);
  }

  lemma NestedRooted(h: Hash)
    ensures C.Rooted(Everything(h, NestedFiles))
  {
    hide C.Rooted;
    FlatIsRooted(Everything(h, NestedFiles));
  }

  lemma NestedSetting(h: Hash)
    ensures Setting(h, Nothing, NestedRecords(h), NestedFiles)
  {
    hide C.Placeable, C.Rooted, InTheWay;
    NestedPlaceable();
    NestedRooted(h);
    NotThere(h);
  }

  /** There is no directory for the manifest yet. */
  lemma NotThere(h: Hash)
    ensures !InTheWay(NodeAt(Everything(h, NestedFiles), GUEST_ROOT))
  {
    assert |GUEST_ROOT| == 2;
  }

  lemma NestedUncovers(h: Hash)
    ensures !C.NothingUncovered(Nothing, NestedRecords(h), Everything(h, NestedFiles))
  {
    hide Setting;
    var was, nodes := NestedRecords(h), Everything(h, NestedFiles);
    assert TOP[..1] == TOP && BELOW[..1] == TOP;
    assert !IsManaged("user/a") by { assert "user/a"[0] == 'u'; }
    assert IsManaged("managed/op/b") by { assert "managed/" == "managed/op/b"[..8]; }
    assert C.ToDelete(Nothing, was, nodes, TOP);
    assert TOP < BELOW;
    assert C.Uncovers(Nothing, was, nodes, BELOW);
    assert FateOf(Nothing, nodes, was[BELOW], BELOW).Stays?;
    assert C.Concerned(Nothing, was, nodes, BELOW);
  }
}
