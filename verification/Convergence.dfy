/** When one undisturbed sync is enough, and that two always are. */
module Convergence {
  import opened Values
  import opened GuestPlan
  import opened PlanLaws
  import opened Manifests

  // ---------------------------------------------------------------- the setting

  /** Nothing lies below a missing path or a regular file. */
  ghost predicate Rooted(nodes: Nodes) {
    forall p: FilePath, q: FilePath :: [] < q < p && !NodeAt(nodes, p).Missing? ==>
      !NodeAt(nodes, q).Missing? && !NodeAt(nodes, q).Regular?
  }

  /** A path an entry may name: not the manifest, nothing under it, no directory above it. */
  predicate Placeable(p: FilePath) {
    p != [] && !(p <= MANIFEST) && !(MANIFEST <= p)
  }

  ghost predicate AllPlaceable(files: GuestFiles, was: Manifest) {
    && (forall d :: File(d) in EntriesOf(files) ==> Placeable(d.entry.path))
    && (forall p :: p in was ==> Placeable(p))
  }

  /** The guest has an `/etc`, and nothing odd in place of the manifest's directory. */
  predicate Habitable(nodes: Nodes) {
    NodeAt(nodes, ETC).Dir? && !InTheWay(NodeAt(nodes, GUEST_ROOT))
  }

  predicate ToDelete(files: GuestFiles, was: Manifest, nodes: Nodes, q: FilePath) {
    q in was && !Wants(EntriesOf(files), q) && FateOf(files, nodes, was[q], q).Deleted?
  }

  ghost predicate ToPlace(files: GuestFiles, was: Manifest, nodes: Nodes, force: bool, q: FilePath, d: Desired) {
    File(d) in EntriesOf(files) && d.entry.path == q && Decide(was, nodes, force, d).expects.Some?
  }

  /** The guest afterwards, if all operations succeed and nobody else does anything. */
  ghost predicate Carried(files: GuestFiles, was: Manifest, before: Nodes, force: bool, dirs: set<FilePath>, after: Nodes) {
    && (forall q, d :: ToPlace(files, was, before, force, q, d) ==>
          NodeAt(after, q) == Regular(d.entry.owner, d.entry.mode, d.sha))
    && (forall q :: ToDelete(files, was, before, q) ==> NodeAt(after, q).Missing?)
    && (forall q :: !ToDelete(files, was, before, q) && (forall d :: !ToPlace(files, was, before, force, q, d)) ==>
          NodeAt(after, q) == if q in dirs && NodeAt(before, q).Missing? then Dir else NodeAt(before, q))
  }

  /** A deletion that clears the way for something below it. */
  ghost predicate Uncovers(files: GuestFiles, was: Manifest, nodes: Nodes, p: FilePath) {
    exists q: FilePath :: q < p && ToDelete(files, was, nodes, q)
  }

  /** The paths a next sync still cares about: wanted and not somebody else's, or recorded
      and kept. */
  ghost predicate Concerned(files: GuestFiles, was: Manifest, nodes: Nodes, p: FilePath) {
    || (exists d :: File(d) in EntriesOf(files) && d.entry.path == p && !Conflicted(was, d))
    || (p in was && !Wants(EntriesOf(files), p) && FateOf(files, nodes, was[p], p).Stays?)
  }

  /** Nothing to do: no operation, no directory, the manifest as it is. */
  predicate Quiet(p: Plan, was: Manifest) {
    p.ops == [] && p.dirs == {} && p.manifest == was
  }

  // ---------------------------------------------------------------- assessing a path

  /** Every directory above `p`, up to `depth`, is one. */
  ghost predicate DirsUpTo(p: FilePath, nodes: Nodes, depth: nat) {
    forall i :: 0 < i < depth && i < |p| ==> NodeAt(nodes, p[..i]).Dir?
  }

  /** Assessing stops at the first path that is no directory. */
  lemma {:induction false} AssessStops(p: FilePath, nodes: Nodes, depth: nat, k: nat)
    requires 0 < depth <= k <= |p|
    requires forall i :: depth <= i < k ==> NodeAt(nodes, p[..i]).Dir?
    ensures AssessFrom(p, nodes, depth) == AssessFrom(p, nodes, k)
    decreases k - depth
  {
    if depth < k { AssessStops(p, nodes, depth + 1, k); }
  }

  lemma {:induction false} AssessStopsAt(p: FilePath, nodes: Nodes, depth: nat) returns (k: nat)
    requires 0 < depth <= |p|
    ensures depth <= k <= |p| && (k < |p| ==> !NodeAt(nodes, p[..k]).Dir?)
    ensures forall i :: depth <= i < k ==> NodeAt(nodes, p[..i]).Dir?
    ensures AssessFrom(p, nodes, depth) == AssessFrom(p, nodes, k)
    decreases |p| - depth
  {
    k := depth;
    if depth < |p| && NodeAt(nodes, p[..depth]).Dir? {
      k := AssessStopsAt(p, nodes, depth + 1);
    }
  }

  lemma PresentMeans(p: FilePath, nodes: Nodes)
    requires Assess(p, nodes).Present?
    ensures p != [] && DirsUpTo(p, nodes, |p|) && NodeAt(nodes, p).Regular?
    ensures Assess(p, nodes) == Present(NodeAt(nodes, p).sha, NodeAt(nodes, p).mode, NodeAt(nodes, p).owner)
  {
    var k := AssessStopsAt(p, nodes, 1);
    assert p[..|p|] == p;
  }

  lemma PresentIf(p: FilePath, nodes: Nodes)
    requires p != [] && DirsUpTo(p, nodes, |p|) && NodeAt(nodes, p).Regular?
    ensures Assess(p, nodes) == Present(NodeAt(nodes, p).sha, NodeAt(nodes, p).mode, NodeAt(nodes, p).owner)
  {
    AssessStops(p, nodes, 1, |p|);
    assert p[..|p|] == p;
  }

  lemma GoneMeans(p: FilePath, nodes: Nodes)
    requires Rooted(nodes) && Assess(p, nodes).Gone?
    ensures NodeAt(nodes, p).Missing?
    ensures forall i :: 0 < i < |p| ==> NodeAt(nodes, p[..i]).Dir? || NodeAt(nodes, p[..i]).Missing?
  {
    var k := AssessStopsAt(p, nodes, 1);
    assert p[..|p|] == p;
    assert NodeAt(nodes, p[..k]).Missing?;
    forall i | k < i <= |p| ensures NodeAt(nodes, p[..i]).Missing? {
      assert [] < p[..k] < p[..i];
    }
  }

  // ---------------------------------------------------------------- what a sync leaves of each node

  lemma PlaceNode(files: GuestFiles, was: Manifest, nodes: Nodes, force: bool, q: FilePath, d: Desired)
    requires Rooted(nodes) && ToPlace(files, was, nodes, force, q, d)
    ensures NodeAt(nodes, q).Missing? || NodeAt(nodes, q).Regular?
    ensures Assess(q, nodes).Gone? || Assess(q, nodes).Present?
  {
    hide Rooted, Assess;
    if Assess(q, nodes).Gone? { GoneMeans(q, nodes); }
    if Assess(q, nodes).Present? { PresentMeans(q, nodes); }
  }

  lemma DeleteNode(files: GuestFiles, was: Manifest, nodes: Nodes, q: FilePath)
    requires ToDelete(files, was, nodes, q)
    ensures NodeAt(nodes, q).Regular? && Assess(q, nodes).Present? && DirsUpTo(q, nodes, |q|) && q != []
  {
    hide Assess, Wants, HoldsBack;
    PresentMeans(q, nodes);
  }

  /** Directories, symlinks and the rest stay what they are; a regular file stays one unless
      it is deleted. */
  lemma NodeStays(files: GuestFiles, was: Manifest, before: Nodes, force: bool, dirs: set<FilePath>, after: Nodes, q: FilePath)
    requires Rooted(before) && Carried(files, was, before, force, dirs, after)
    ensures NodeAt(before, q).Dir? || NodeAt(before, q).Symlink? || NodeAt(before, q).Other? ==>
              NodeAt(after, q) == NodeAt(before, q)
    ensures NodeAt(before, q).Regular? && !ToDelete(files, was, before, q) ==> NodeAt(after, q).Regular?
  {
    hide Rooted, ToPlace, ToDelete;
    if ToDelete(files, was, before, q) {
      DeleteNode(files, was, before, q);
    } else if d :| ToPlace(files, was, before, force, q, d) {
      PlaceNode(files, was, before, force, q, d);
    }
  }

  lemma DirsStay(files: GuestFiles, was: Manifest, before: Nodes, force: bool, dirs: set<FilePath>, after: Nodes, p: FilePath, depth: nat)
    requires Rooted(before) && Carried(files, was, before, force, dirs, after)
    requires DirsUpTo(p, before, depth)
    ensures DirsUpTo(p, after, depth)
  {
    hide Rooted, Carried;
    forall i | 0 < i < depth && i < |p| ensures NodeAt(after, p[..i]).Dir? {
      NodeStays(files, was, before, force, dirs, after, p[..i]);
    }
  }

  /** A file nobody touches is assessed as before. */
  lemma PresentStays(files: GuestFiles, was: Manifest, before: Nodes, force: bool, dirs: set<FilePath>, after: Nodes, p: FilePath)
    requires Rooted(before) && Carried(files, was, before, force, dirs, after)
    requires Assess(p, before).Present? && !ToDelete(files, was, before, p)
    requires forall d :: !ToPlace(files, was, before, force, p, d)
    ensures Assess(p, after) == Assess(p, before)
  {
    hide Rooted, ToPlace, ToDelete, Assess;
    PresentMeans(p, before);
    DirsStay(files, was, before, force, dirs, after, p, |p|);
    PresentIf(p, after);
  }

  /** What was in the way stays in the way, unless it is deleted. */
  lemma UnsafeStays(files: GuestFiles, was: Manifest, before: Nodes, force: bool, dirs: set<FilePath>, after: Nodes, p: FilePath)
    requires Rooted(before) && Carried(files, was, before, force, dirs, after)
    requires p != [] && Assess(p, before).Unsafe? && !Uncovers(files, was, before, p)
    ensures Assess(p, after).Unsafe?
  {
    hide Rooted, Carried, ToDelete;
    var k := AssessStopsAt(p, before, 1);
    var q := p[..k];
    assert p[..|p|] == p;
    assert k < |p| ==> q < p && !ToDelete(files, was, before, q);
    NodeStays(files, was, before, force, dirs, after, q);
    assert DirsUpTo(p, before, k);
    DirsStay(files, was, before, force, dirs, after, p, k);
    AssessStops(p, after, 1, k);
  }

  /** Below a deleted file there is nothing left in the way. */
  lemma Uncovered(files: GuestFiles, was: Manifest, before: Nodes, force: bool, dirs: set<FilePath>, after: Nodes, p: FilePath)
    requires Rooted(before) && Carried(files, was, before, force, dirs, after)
    requires Uncovers(files, was, before, p)
    ensures Assess(p, after).Gone?
  {
    hide Rooted, ToDelete, ToPlace;
    var q: FilePath :| q < p && ToDelete(files, was, before, q);
    DeleteNode(files, was, before, q);
    DirsStay(files, was, before, force, dirs, after, q, |q|);
    assert p[..|q|] == q;
    forall i | 1 <= i < |q| ensures NodeAt(after, p[..i]).Dir? { assert p[..i] == q[..i]; }
    AssessStops(p, after, 1, |q|);
  }

  /** The directories a created file needs are among those to be made. */
  ghost predicate DirsCover(files: GuestFiles, was: Manifest, nodes: Nodes, force: bool, dirs: set<FilePath>) {
    forall d :: File(d) in EntriesOf(files) && Decide(was, nodes, force, d).action.Create? ==>
      forall i :: 0 < i < |d.entry.path| && !NodeAt(nodes, d.entry.path[..i]).Dir? ==> d.entry.path[..i] in dirs
  }

  /** Two wanted paths that collide are one and the same entry's. */
  lemma NoOther(files: GuestFiles, d: Desired, e: Desired)
    requires NoCollisions(EntriesOf(files)) && File(d) in EntriesOf(files) && File(e) in EntriesOf(files)
    requires Collide(d.entry.path, e.entry.path)
    ensures d == e
  {
    var entries := EntriesOf(files);
    var i :| 0 <= i < |entries| && entries[i] == File(d);
    var j :| 0 <= j < |entries| && entries[j] == File(e);
  }

  lemma NoOpAbove(files: GuestFiles, was: Manifest, nodes: Nodes, force: bool, d: Desired, q: FilePath)
    requires NoCollisions(EntriesOf(files)) && File(d) in EntriesOf(files) && q < d.entry.path
    ensures forall e :: !ToPlace(files, was, nodes, force, q, e)
  {
    hide Decide, NoCollisions, EntriesOf;
    forall e | ToPlace(files, was, nodes, force, q, e) ensures d == e {
      NoOther(files, d, e);
    }
  }

  /** A placed file is there as wanted. */
  lemma PlacedIsThere(files: GuestFiles, was: Manifest, before: Nodes, force: bool, dirs: set<FilePath>, after: Nodes, d: Desired)
    requires Rooted(before) && Carried(files, was, before, force, dirs, after)
    requires NoCollisions(EntriesOf(files)) && DirsCover(files, was, before, force, dirs)
    requires d.entry.path != [] && ToPlace(files, was, before, force, d.entry.path, d)
    ensures Assess(d.entry.path, after) == Present(d.sha, d.entry.mode, d.entry.owner)
  {
    hide Rooted, NoCollisions, Assess, ToDelete;
    var p := d.entry.path;
    PlaceNode(files, was, before, force, p, d);
    if Assess(p, before).Present? {
      PresentMeans(p, before);
      DirsStay(files, was, before, force, dirs, after, p, |p|);
    } else {
      GoneMeans(p, before);
      forall i | 0 < i < |p| ensures NodeAt(after, p[..i]).Dir? {
        NodeStays(files, was, before, force, dirs, after, p[..i]);
        NoOpAbove(files, was, before, force, d, p[..i]);
        if ToDelete(files, was, before, p[..i]) { DeleteNode(files, was, before, p[..i]); }
      }
    }
    PresentIf(p, after);
  }

  // ---------------------------------------------------------------- the next plan

  /** Everything one undisturbed sync starts from and leaves. */
  ghost predicate Synced(files: GuestFiles, was: Manifest, before: Nodes, force: bool, dirs: set<FilePath>, after: Nodes, now: Manifest) {
    && NoCollisions(EntriesOf(files)) && AllPlaceable(files, was)
    && Rooted(before)
    && DirsCover(files, was, before, force, dirs)
    && Carried(files, was, before, force, dirs, after)
    && (forall d :: File(d) in EntriesOf(files) ==>
          Recorded(now, d.entry.path) ==
            if Decide(was, before, force, d).action.Records() then Some(RecordOf(d)) else Recorded(was, d.entry.path))
    && (forall p :: !Wants(EntriesOf(files), p) ==>
          Recorded(now, p) == if p in was && FateOf(files, before, was[p], p).Stays? then Some(was[p]) else None)
  }

  lemma RecordedThere(files: GuestFiles, was: Manifest, before: Nodes, force: bool, dirs: set<FilePath>, after: Nodes, now: Manifest, d: Desired)
    requires Synced(files, was, before, force, dirs, after, now) && File(d) in EntriesOf(files)
    ensures Recorded(now, d.entry.path) ==
              if Decide(was, before, force, d).action.Records() then Some(RecordOf(d)) else Recorded(was, d.entry.path)
    ensures d.entry.path != []
  {
    hide NoCollisions, Rooted, DirsCover, Carried;
  }

  /** A wanted path, one sync later: in sync or left as it was, unless a deletion has cleared
      its way meanwhile. */
  lemma NextDecision(files: GuestFiles, was: Manifest, before: Nodes, force: bool, dirs: set<FilePath>, after: Nodes, now: Manifest, d: Desired)
    requires Synced(files, was, before, force, dirs, after, now) && File(d) in EntriesOf(files)
    ensures var c := Decide(now, after, force, d);
            if Uncovers(files, was, before, d.entry.path) && !Conflicted(was, d) then c.expects.Some?
            else c.expects.None? && (c.action.Records() ==> Recorded(now, d.entry.path) == Some(RecordOf(d)))
  {
    hide NoCollisions, Rooted, Carried, DirsCover, Assess, ToDelete, Uncovers, SourcesConflict, EntriesOf, AllPlaceable;
    var p, c0 := d.entry.path, Decide(was, before, force, d);
    RecordedThere(files, was, before, force, dirs, after, now, d);
    SameSource(d.entry.source);
    if Uncovers(files, was, before, p) {
      Uncovered(files, was, before, force, dirs, after, p);
      CoveredIsUnsafe(files, was, before, p);
    } else if Conflicted(was, d) {
    } else if c0.expects.Some? {
      PlacedIsThere(files, was, before, force, dirs, after, d);
    } else if Assess(p, before).Unsafe? {
      UnsafeStays(files, was, before, force, dirs, after, p);
    } else {
      forall e ensures !ToPlace(files, was, before, force, p, e) {
        if ToPlace(files, was, before, force, p, e) { NoOther(files, d, e); }
      }
      WantedNotDeleted(files, was, before, d);
      PresentStays(files, was, before, force, dirs, after, p);
    }
  }

  lemma SameSource(s: string)
    ensures !SourcesConflict(s, s)
  {
  }

  lemma WantedNotDeleted(files: GuestFiles, was: Manifest, nodes: Nodes, d: Desired)
    requires File(d) in EntriesOf(files)
    ensures !ToDelete(files, was, nodes, d.entry.path)
  {
    var entries := EntriesOf(files);
    var i :| 0 <= i < |entries| && entries[i] == File(d);
    assert Wants(entries, d.entry.path);
  }

  /** Below a regular file nothing is safe. */
  lemma CoveredIsUnsafe(files: GuestFiles, was: Manifest, nodes: Nodes, p: FilePath)
    requires Uncovers(files, was, nodes, p)
    ensures Assess(p, nodes).Unsafe?
  {
    hide ToDelete;
    var q: FilePath :| q < p && ToDelete(files, was, nodes, q);
    DeleteNode(files, was, nodes, q);
    assert p[..|q|] == q;
    forall i | 1 <= i < |q| ensures NodeAt(nodes, p[..i]).Dir? { assert p[..i] == q[..i]; }
    AssessStops(p, nodes, 1, |q|);
  }

  /** A kept record, one sync later: kept again, or forgotten when its way has been cleared;
      nothing is deleted. */
  lemma NextFate(files: GuestFiles, was: Manifest, before: Nodes, force: bool, dirs: set<FilePath>, after: Nodes, now: Manifest, p: FilePath)
    requires Synced(files, was, before, force, dirs, after, now)
    requires p in now && !Wants(EntriesOf(files), p)
    ensures p in was && FateOf(files, before, was[p], p).Stays? && now[p] == was[p]
    ensures FateOf(files, after, now[p], p) == if Uncovers(files, was, before, p) then Forgotten else Stays
  {
    hide NoCollisions, Rooted, Carried, DirsCover, Assess, ToPlace, Uncovers, Wants;
    assert Recorded(now, p).Some?;
    if Uncovers(files, was, before, p) {
      Uncovered(files, was, before, force, dirs, after, p);
    } else if Assess(p, before).Present? {
      forall e ensures !ToPlace(files, was, before, force, p, e) {
        NotWantedNotPlaced(files, was, before, force, p, e);
      }
      PresentStays(files, was, before, force, dirs, after, p);
    } else {
      assert p != [];
      UnsafeStays(files, was, before, force, dirs, after, p);
    }
  }

  lemma NotWantedNotPlaced(files: GuestFiles, was: Manifest, nodes: Nodes, force: bool, p: FilePath, e: Desired)
    requires !Wants(EntriesOf(files), p)
    ensures !ToPlace(files, was, nodes, force, p, e)
  {
    hide Decide;
  }

  // ---------------------------------------------------------------- no operation at all

  lemma {:induction false} EntriesIdle(was: Manifest, nodes: Nodes, force: bool, entries: seq<Resolved>, n: nat)
    requires n <= |entries|
    requires forall d :: File(d) in entries ==> Decide(was, nodes, force, d).expects.None?
    ensures TakeEntries(was, nodes, force, entries, n).ops == [] && TakeEntries(was, nodes, force, entries, n).dirs == {}
  {
    hide Decide;
    if n > 0 {
      EntriesIdle(was, nodes, force, entries, n - 1);
      if entries[n - 1].File? {
        assert File(entries[n - 1].d) in entries;
        CreatePlaces(was, nodes, force, entries[n - 1].d);
      }
    }
  }

  lemma CreatePlaces(was: Manifest, nodes: Nodes, force: bool, d: Desired)
    ensures Decide(was, nodes, force, d).action.Create? ==> Decide(was, nodes, force, d).expects.Some?
  {
  }

  lemma {:induction false} RecordsIdle(files: GuestFiles, was: Manifest, nodes: Nodes, half: Plan, keys: seq<FilePath>, n: nat)
    requires n <= |keys| && forall i :: 0 <= i < |keys| ==> keys[i] in was
    requires forall p :: p in was && !Wants(EntriesOf(files), p) ==> !FateOf(files, nodes, was[p], p).Deleted?
    ensures TakeRecords(files, was, nodes, half, keys, n).ops == half.ops
    ensures TakeRecords(files, was, nodes, half, keys, n).dirs == half.dirs
  {
    hide FateOf, Wants;
    if n > 0 { RecordsIdle(files, was, nodes, half, keys, n - 1); }
  }

  lemma PlanIdle(files: GuestFiles, was: Manifest, keys: seq<FilePath>, nodes: Nodes, force: bool)
    requires Enumerates(keys, was)
    requires forall d :: File(d) in EntriesOf(files) ==> Decide(was, nodes, force, d).expects.None?
    requires forall p :: p in was && !Wants(EntriesOf(files), p) ==> !FateOf(files, nodes, was[p], p).Deleted?
    ensures PlanOf(files, was, keys, nodes, force).ops == []
    ensures PlanOf(files, was, keys, nodes, force).manifest == was ==> PlanOf(files, was, keys, nodes, force).dirs == {}
  {
    hide TakeEntries, TakeRecords, Decide, FateOf, Wants;
    var entries := EntriesOf(files);
    EntriesIdle(was, nodes, force, entries, |entries|);
    RecordsIdle(files, was, nodes, TakeEntries(was, nodes, force, entries, |entries|), keys, |keys|);
  }

  lemma SameRecords(a: Manifest, b: Manifest)
    requires forall p :: Recorded(a, p) == Recorded(b, p)
    ensures a == b
  {
    assert forall p :: p in a <==> Recorded(a, p).Some?;
    assert forall p :: p in b <==> Recorded(b, p).Some?;
    forall p | p in a ensures a[p] == b[p] { assert Recorded(a, p) == Recorded(b, p); }
  }

  // ---------------------------------------------------------------- one sync later

  ghost predicate NothingUncovered(files: GuestFiles, was: Manifest, nodes: Nodes) {
    forall p :: Concerned(files, was, nodes, p) ==> !Uncovers(files, was, nodes, p)
  }

  lemma QuietIf(files: GuestFiles, was: Manifest, before: Nodes, force: bool, dirs: set<FilePath>, after: Nodes, now: Manifest, keys: seq<FilePath>)
    requires Synced(files, was, before, force, dirs, after, now) && Enumerates(keys, now) && !OnHold(files, after)
    requires NothingUncovered(files, was, before)
    ensures Quiet(PlanOf(files, now, keys, after, force), now)
  {
    hide Synced, PlanOf, Decide, FateOf, Wants, Uncovers, OnHold;
    var next := PlanOf(files, now, keys, after, force);
    Collisions(files, was, before, force, dirs, after, now);
    forall d | File(d) in EntriesOf(files)
      ensures Decide(now, after, force, d).expects.None?
      ensures Recorded(next.manifest, d.entry.path) == Recorded(now, d.entry.path)
    {
      if !Conflicted(was, d) { assert Concerned(files, was, before, d.entry.path); }
      NextDecision(files, was, before, force, dirs, after, now, d);
      WantedRecord(files, now, keys, after, force, d);
    }
    forall p | !Wants(EntriesOf(files), p)
      ensures p in now ==> FateOf(files, after, now[p], p).Stays?
      ensures Recorded(next.manifest, p) == Recorded(now, p)
    {
      if p in now {
        NextFate(files, was, before, force, dirs, after, now, p);
        assert Concerned(files, was, before, p);
      }
      UnwantedRecord(files, now, keys, after, force, p);
    }
    PlanIdle(files, now, keys, after, force);
    forall p ensures Recorded(next.manifest, p) == Recorded(now, p) {
      if Wants(EntriesOf(files), p) { var d := Wanted(files, p); }
    }
    SameRecords(next.manifest, now);
  }

  lemma Collisions(files: GuestFiles, was: Manifest, before: Nodes, force: bool, dirs: set<FilePath>, after: Nodes, now: Manifest)
    requires Synced(files, was, before, force, dirs, after, now)
    ensures NoCollisions(EntriesOf(files))
  {
  }

  lemma QuietOnlyIf(files: GuestFiles, was: Manifest, before: Nodes, force: bool, dirs: set<FilePath>, after: Nodes, now: Manifest,
                    keys: seq<FilePath>, p: FilePath)
    requires Synced(files, was, before, force, dirs, after, now) && Enumerates(keys, now) && !OnHold(files, after)
    requires Concerned(files, was, before, p) && Uncovers(files, was, before, p)
    ensures !Quiet(PlanOf(files, now, keys, after, force), now)
  {
    hide PlanOf, Decide, FateOf, Wants, Uncovers, OnHold, NoCollisions, Rooted, Carried, DirsCover, AllPlaceable, SourcesConflict;
    if d :| File(d) in EntriesOf(files) && d.entry.path == p && !Conflicted(was, d) {
      NextDecision(files, was, before, force, dirs, after, now, d);
      WantedOp(files, now, keys, after, force, d);
    } else {
      assert Recorded(now, p) == Some(was[p]);
      NextFate(files, was, before, force, dirs, after, now, p);
      UnwantedRecord(files, now, keys, after, force, p);
      assert Recorded(PlanOf(files, now, keys, after, force).manifest, p) != Recorded(now, p);
    }
  }

  /** After one undisturbed sync the next has nothing to do, exactly when no file it deletes
      was in the way of a path somebody still cares about. */
  lemma QuietIff(files: GuestFiles, was: Manifest, before: Nodes, force: bool, dirs: set<FilePath>, after: Nodes, now: Manifest, keys: seq<FilePath>)
    requires Synced(files, was, before, force, dirs, after, now) && Enumerates(keys, now) && !OnHold(files, after)
    ensures Quiet(PlanOf(files, now, keys, after, force), now) <==> NothingUncovered(files, was, before)
  {
    hide Synced, Enumerates, OnHold, Quiet, Concerned, Uncovers;
    if NothingUncovered(files, was, before) {
      QuietIf(files, was, before, force, dirs, after, now, keys);
    } else {
      var p :| Concerned(files, was, before, p) && Uncovers(files, was, before, p);
      QuietOnlyIf(files, was, before, force, dirs, after, now, keys, p);
    }
  }

  /** A second sync deletes nothing, so it uncovers nothing. */
  lemma SecondDeletesNothing(files: GuestFiles, was: Manifest, before: Nodes, force: bool, dirs: set<FilePath>, after: Nodes, now: Manifest)
    requires Synced(files, was, before, force, dirs, after, now)
    ensures NothingUncovered(files, now, after)
  {
    hide Synced, FateOf, Concerned, Wants;
    forall q ensures !ToDelete(files, now, after, q) {
      if q in now && !Wants(EntriesOf(files), q) {
        NextFate(files, was, before, force, dirs, after, now, q);
      }
    }
  }
}
