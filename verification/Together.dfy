/** Several writers sharing one guest: the document and any number of operators' lists, syncing
    in turn while nobody else touches the guest. What each sync can change shrinks until
    nothing is left to do. */
module Together {
  import opened Values
  import opened GuestPlan
  import opened PlanLaws
  import opened Manifests
  import opened SyncProtocol
  import opened Undisturbed
  import opened Settling
  import C = Convergence

  datatype Writer = Writer(files: GuestFiles, force: bool)

  /** The document first; everybody else is an operator. Sources say which. */
  ghost predicate Crew(ws: seq<Writer>) {
    && |ws| > 0 && !ws[0].files.Managed?
    && (forall d :: File(d) in EntriesOf(ws[0].files) ==> !IsManaged(d.entry.source))
    && (forall i, d :: 0 < i < |ws| && File(d) in EntriesOf(ws[i].files) ==> IsManaged(d.entry.source))
    && (forall i :: 0 < i < |ws| ==> ws[i].files.Managed?)
  }

  ghost predicate WantedBy(ws: seq<Writer>, d: Desired) {
    exists i :: 0 <= i < |ws| && File(d) in EntriesOf(ws[i].files)
  }

  predicate Agree(d: Desired, e: Desired) {
    d.sha == e.sha && d.entry.mode == e.entry.mode && d.entry.owner == e.entry.owner && RecordOf(d) == RecordOf(e)
  }

  /** Where two wants of one path may both be granted, they want the same. */
  ghost predicate InAccord(ws: seq<Writer>) {
    forall d, e :: WantedBy(ws, d) && WantedBy(ws, e) && SamePlace(d, e) ==> Agree(d, e)
  }

  predicate SamePlace(d: Desired, e: Desired) {
    d.entry.path == e.entry.path && !SourcesConflict(d.entry.source, e.entry.source)
  }

  // ---------------------------------------------------------------- nothing to do

  /** A writer has nothing to do: no file to write, no record to change. */
  ghost predicate Idle(w: Writer, m: Manifest, nodes: Nodes) {
    && (forall d :: File(d) in EntriesOf(w.files) ==> Granted(w, m, nodes, d))
    && (forall p :: p in m && !Wants(EntriesOf(w.files), p) ==> FateOf(w.files, nodes, m[p], p).Stays?)
  }

  predicate Granted(w: Writer, m: Manifest, nodes: Nodes, d: Desired) {
    var c := Decide(m, nodes, w.force, d);
    c.expects.None? && (c.action.Records() ==> Recorded(m, d.entry.path) == Some(RecordOf(d)))
  }

  lemma IdleIsQuiet(w: Writer, m: Manifest, keys: seq<FilePath>, nodes: Nodes)
    requires Enumerates(keys, m) && NoCollisions(EntriesOf(w.files)) && !OnHold(w.files, nodes) && Idle(w, m, nodes)
    ensures C.Quiet(PlanOf(w.files, m, keys, nodes, w.force), m)
  {
    hide PlanOf, Decide, FateOf, Wants, OnHold, NoCollisions;
    var next := PlanOf(w.files, m, keys, nodes, w.force);
    forall d | File(d) in EntriesOf(w.files) ensures Decide(m, nodes, w.force, d).expects.None? {
      assert Granted(w, m, nodes, d);
    }
    C.PlanIdle(w.files, m, keys, nodes, w.force);
    forall p ensures Recorded(next.manifest, p) == Recorded(m, p) {
      if Wants(EntriesOf(w.files), p) {
        var d := Wanted(w.files, p);
        assert Granted(w, m, nodes, d);
        WantedRecord(w.files, m, keys, nodes, w.force, d);
      } else {
        UnwantedRecord(w.files, m, keys, nodes, w.force, p);
      }
    }
    C.SameRecords(next.manifest, m);
  }

  lemma QuietIsIdle(w: Writer, m: Manifest, keys: seq<FilePath>, nodes: Nodes)
    requires Enumerates(keys, m) && NoCollisions(EntriesOf(w.files)) && !OnHold(w.files, nodes)
    requires C.Quiet(PlanOf(w.files, m, keys, nodes, w.force), m)
    ensures Idle(w, m, nodes)
  {
    hide PlanOf, Decide, FateOf, Wants, OnHold, NoCollisions;
    forall d | File(d) in EntriesOf(w.files) ensures Granted(w, m, nodes, d) {
      if Decide(m, nodes, w.force, d).expects.Some? { WantedOp(w.files, m, keys, nodes, w.force, d); }
      WantedRecord(w.files, m, keys, nodes, w.force, d);
    }
    forall p | p in m && !Wants(EntriesOf(w.files), p) ensures FateOf(w.files, nodes, m[p], p).Stays? {
      UnwantedRecord(w.files, m, keys, nodes, w.force, p);
    }
  }

  // ---------------------------------------------------------------- what a sync may not undo

  /** No record of the document's waits to be collected. */
  ghost predicate Tidy(ws: seq<Writer>, m: Manifest)
    requires |ws| > 0
  {
    forall p :: p in m && !IsManaged(m[p].source) && !Wants(EntriesOf(ws[0].files), p) ==>
      HoldsBack(EntriesOf(ws[0].files), m[p].entry)
  }

  /** What one sync of writer `i` starts from and leaves, in sight of the others. */
  ghost predicate Move(ws: seq<Writer>, i: nat, was: Manifest, before: Nodes, dirs: set<FilePath>, after: Nodes, now: Manifest) {
    i < |ws| && Crew(ws) && InAccord(ws) && C.Synced(ws[i].files, was, before, ws[i].force, dirs, after, now)
  }

  /** Nobody collects but the document, and once it has there is nothing to collect. */
  lemma NothingCollected(ws: seq<Writer>, i: nat, m: Manifest, nodes: Nodes, p: FilePath)
    requires Crew(ws) && i < |ws| && (i > 0 || Tidy(ws, m)) && p in m && !Wants(EntriesOf(ws[i].files), p)
    ensures FateOf(ws[i].files, nodes, m[p], p) == if Assess(p, nodes).Gone? then Forgotten else Stays
  {
    hide Assess, Wants, HoldsBack, EntriesOf, IsManaged;
  }

  lemma NothingDeleted(ws: seq<Writer>, i: nat, m: Manifest, nodes: Nodes)
    requires Crew(ws) && i < |ws| && (i > 0 || Tidy(ws, m))
    ensures forall q :: !C.ToDelete(ws[i].files, m, nodes, q)
  {
    hide Crew, Tidy, FateOf, Wants;
    forall q | q in m && !Wants(EntriesOf(ws[i].files), q) ensures !FateOf(ws[i].files, nodes, m[q], q).Deleted? {
      NothingCollected(ws, i, m, nodes, q);
    }
  }

  /** Nothing disappears: what is there stays what it is. */
  ghost predicate Grown(before: Nodes, after: Nodes) {
    forall q :: (NodeAt(before, q).Dir? ==> NodeAt(after, q).Dir?) && (InTheWay(NodeAt(before, q)) ==> InTheWay(NodeAt(after, q)))
  }

  lemma MoveGrows(ws: seq<Writer>, i: nat, was: Manifest, before: Nodes, dirs: set<FilePath>, after: Nodes, now: Manifest)
    requires Move(ws, i, was, before, dirs, after, now) && (i > 0 || Tidy(ws, was))
    ensures Grown(before, after)
  {
    hide Crew, InAccord, Tidy, NoCollisions, C.Rooted, C.DirsCover, C.Carried, C.ToDelete, Decide, FateOf, Wants, NodeAt;
    NothingDeleted(ws, i, was, before);
    forall q ensures (NodeAt(before, q).Dir? ==> NodeAt(after, q).Dir?) && (InTheWay(NodeAt(before, q)) ==> InTheWay(NodeAt(after, q))) {
      C.NodeStays(ws[i].files, was, before, ws[i].force, dirs, after, q);
    }
  }

  lemma {:induction false} ThereFrom(p: FilePath, before: Nodes, after: Nodes, depth: nat)
    requires 0 < depth <= |p| && Grown(before, after)
    ensures !AssessFrom(p, before, depth).Gone? ==> !AssessFrom(p, after, depth).Gone?
    decreases |p| - depth
  {
    hide NodeAt;
    if depth < |p| { ThereFrom(p, before, after, depth + 1); }
  }

  /** What is not gone does not go. */
  lemma StaysThere(p: FilePath, before: Nodes, after: Nodes)
    requires Grown(before, after)
    ensures !Assess(p, before).Gone? ==> !Assess(p, after).Gone?
  {
    if p != [] { ThereFrom(p, before, after, 1); }
  }

  /** A file nobody places stays as it is. */
  lemma PresentStays(files: GuestFiles, was: Manifest, before: Nodes, force: bool, dirs: set<FilePath>, after: Nodes, p: FilePath)
    requires C.Rooted(before) && C.Carried(files, was, before, force, dirs, after) && Assess(p, before).Present?
    requires !C.ToDelete(files, was, before, p) && forall d :: !C.ToPlace(files, was, before, force, p, d)
    ensures Assess(p, after) == Assess(p, before)
  {
    hide C.Rooted, Assess, C.ToDelete, C.ToPlace;
    C.PresentMeans(p, before);
    C.DirsStay(files, was, before, force, dirs, after, p, |p|);
    C.PresentIf(p, after);
  }

  // ---------------------------------------------------------------- what has been reached for good

  /** The file at `p` is as one of the writers wants it, and recorded as that writer's. */
  ghost predicate Satisfied(ws: seq<Writer>, m: Manifest, nodes: Nodes, p: FilePath) {
    exists d :: SatisfiedBy(ws, m, nodes, p, d)
  }

  ghost predicate SatisfiedBy(ws: seq<Writer>, m: Manifest, nodes: Nodes, p: FilePath, d: Desired) {
    && WantedBy(ws, d) && d.entry.path == p && Recorded(m, p) == Some(RecordOf(d))
    && Assess(p, nodes) == Present(d.sha, d.entry.mode, d.entry.owner)
  }

  /** Whoever else wants it is granted or refused; nobody writes. */
  lemma SatisfiedIsGranted(ws: seq<Writer>, i: nat, m: Manifest, nodes: Nodes, d: Desired, e: Desired)
    requires InAccord(ws) && i < |ws| && File(e) in EntriesOf(ws[i].files)
    requires SatisfiedBy(ws, m, nodes, e.entry.path, d)
    ensures Decide(m, nodes, ws[i].force, e).expects.None?
    ensures Decide(m, nodes, ws[i].force, e).action.Records() ==> RecordOf(e) == RecordOf(d)
    ensures Granted(ws[i], m, nodes, e)
  {
    hide Assess, EntriesOf, SourcesConflict;
    assert WantedBy(ws, e);
    if !Conflicted(m, e) {
      ConflictTurns(e.entry.source, d.entry.source);
      assert SamePlace(e, d);
      assert Agree(e, d);
    }
  }

  lemma ConflictTurns(a: string, b: string)
    ensures SourcesConflict(a, b) <==> SourcesConflict(b, a)
  {
  }

  lemma SatisfiedStays(ws: seq<Writer>, i: nat, was: Manifest, before: Nodes, dirs: set<FilePath>, after: Nodes, now: Manifest, p: FilePath, d: Desired)
    requires Move(ws, i, was, before, dirs, after, now) && (i > 0 || Tidy(ws, was)) && SatisfiedBy(ws, was, before, p, d)
    ensures SatisfiedBy(ws, now, after, p, d)
  {
    hide Crew, InAccord, Tidy, NoCollisions, C.Rooted, C.DirsCover, C.Carried, C.AllPlaceable, Decide, FateOf, Wants, Assess, WantedBy;
    var files, force := ws[i].files, ws[i].force;
    NothingDeleted(ws, i, was, before);
    forall e ensures !C.ToPlace(files, was, before, force, p, e) {
      if File(e) in EntriesOf(files) && e.entry.path == p { SatisfiedIsGranted(ws, i, was, before, d, e); }
    }
    PresentStays(files, was, before, force, dirs, after, p);
    if Wants(EntriesOf(files), p) {
      var e := Wanted(files, p);
      SatisfiedIsGranted(ws, i, was, before, d, e);
    } else {
      InManifest(was, p);
      NothingCollected(ws, i, was, before, p);
    }
  }

  lemma InManifest(m: Manifest, p: FilePath)
    ensures Recorded(m, p).Some? <==> p in m
    ensures p in m ==> Recorded(m, p) == Some(m[p])
  {
  }

  /** A file placed or found in sync is satisfied afterwards. */
  lemma BecomesSatisfied(ws: seq<Writer>, i: nat, was: Manifest, before: Nodes, dirs: set<FilePath>, after: Nodes, now: Manifest, d: Desired)
    requires Move(ws, i, was, before, dirs, after, now) && (i > 0 || Tidy(ws, was)) && File(d) in EntriesOf(ws[i].files)
    requires Decide(was, before, ws[i].force, d).action.Records()
    ensures SatisfiedBy(ws, now, after, d.entry.path, d)
  {
    hide Crew, InAccord, Tidy, NoCollisions, C.Rooted, C.DirsCover, C.Carried, FateOf, Wants, Assess, SourcesConflict;
    var files, force, p := ws[i].files, ws[i].force, d.entry.path;
    assert C.Placeable(p);
    NothingDeleted(ws, i, was, before);
    if Decide(was, before, force, d).expects.Some? {
      C.PlacedIsThere(files, was, before, force, dirs, after, d);
    } else {
      forall e ensures !C.ToPlace(files, was, before, force, p, e) {
        if File(e) in EntriesOf(files) && e.entry.path == p { C.NoOther(files, d, e); }
      }
      PresentStays(files, was, before, force, dirs, after, p);
    }
  }

  // ---------------------------------------------------------------- three ways forward

  /** Not a record of something gone; not gone; as wanted for good. */
  ghost predicate Reached(ws: seq<Writer>, m: Manifest, nodes: Nodes, p: FilePath, stage: nat) {
    if stage == 0 then !(Assess(p, nodes).Gone? && p in m)
    else if stage == 1 then !Assess(p, nodes).Gone?
    else Satisfied(ws, m, nodes, p)
  }

  lemma ReachedStays(ws: seq<Writer>, i: nat, was: Manifest, before: Nodes, dirs: set<FilePath>, after: Nodes, now: Manifest, p: FilePath, stage: nat)
    requires Move(ws, i, was, before, dirs, after, now) && (i > 0 || Tidy(ws, was)) && Reached(ws, was, before, p, stage)
    ensures Reached(ws, now, after, p, stage)
  {
    hide Crew, InAccord, Tidy, NoCollisions, C.Rooted, C.DirsCover, C.Carried, C.AllPlaceable, FateOf, Wants, Assess, SatisfiedBy, SourcesConflict;
    MoveGrows(ws, i, was, before, dirs, after, now);
    StaysThere(p, before, after);
    if stage > 1 {
      var d :| SatisfiedBy(ws, was, before, p, d);
      SatisfiedStays(ws, i, was, before, dirs, after, now, p, d);
    } else if Assess(p, before).Gone? {
      InManifest(was, p);
      InManifest(now, p);
      if Wants(EntriesOf(ws[i].files), p) {
        var d := Wanted(ws[i].files, p);
        BecomesSatisfied(ws, i, was, before, dirs, after, now, d);
        SatisfiedIsThere(ws, now, after, p, d);
      }
    }
  }

  lemma SatisfiedIsThere(ws: seq<Writer>, m: Manifest, nodes: Nodes, p: FilePath, d: Desired)
    requires SatisfiedBy(ws, m, nodes, p, d)
    ensures Assess(p, nodes).Present? && Satisfied(ws, m, nodes, p)
  {
    hide Assess;
  }

  /** A writer that has something to do gets some path a stage further. */
  lemma Progress(ws: seq<Writer>, i: nat, was: Manifest, before: Nodes, dirs: set<FilePath>, after: Nodes, now: Manifest)
    returns (p: FilePath, stage: nat)
    requires Move(ws, i, was, before, dirs, after, now) && (i > 0 || Tidy(ws, was)) && !Idle(ws[i], was, before)
    ensures stage < 3 && !Reached(ws, was, before, p, stage) && Reached(ws, now, after, p, stage)
    ensures p in was || exists d :: WantedBy(ws, d) && d.entry.path == p
  {
    hide Crew, InAccord, Tidy, C.Synced, FateOf, Wants, Assess, SatisfiedBy, SourcesConflict, Decide;
    var w := ws[i];
    if d :| File(d) in EntriesOf(w.files) && !Granted(w, was, before, d) {
      p := d.entry.path;
      assert WantedBy(ws, d);
      WritesRecord(was, before, w.force, d);
      BecomesSatisfied(ws, i, was, before, dirs, after, now, d);
      SatisfiedIsThere(ws, now, after, p, d);
      stage := 2;
      if Satisfied(ws, was, before, p) {
        var e :| SatisfiedBy(ws, was, before, p, e);
        SatisfiedIsGranted(ws, i, was, before, e, d);
      }
    } else {
      p :| p in was && !Wants(EntriesOf(w.files), p) && !FateOf(w.files, before, was[p], p).Stays?;
      NothingCollected(ws, i, was, before, p);
      stage := 0;
      Forgets(ws, i, was, before, dirs, after, now, p);
    }
  }

  lemma WritesRecord(m: Manifest, nodes: Nodes, force: bool, d: Desired)
    ensures Decide(m, nodes, force, d).expects.Some? ==> Decide(m, nodes, force, d).action.Records()
  {
  }

  lemma Forgets(ws: seq<Writer>, i: nat, was: Manifest, before: Nodes, dirs: set<FilePath>, after: Nodes, now: Manifest, p: FilePath)
    requires Move(ws, i, was, before, dirs, after, now) && p in was && !Wants(EntriesOf(ws[i].files), p)
    requires !FateOf(ws[i].files, before, was[p], p).Stays?
    ensures p !in now
  {
    hide Crew, InAccord, NoCollisions, C.Rooted, C.DirsCover, C.Carried, C.AllPlaceable, FateOf, Wants, Decide;
    InManifest(now, p);
  }
}
