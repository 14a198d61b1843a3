/** A sync as it runs: probe, decide, commit operation by operation while others may edit
    the guest, write the manifest last. */
module SyncProtocol {
  import opened Values
  import opened GuestPlan
  import opened PlanLaws
  import opened Manifests
  import PlanDuties

  datatype FsNode = FsDir | FsLink | FsOther | FsFile(content: Content, owner: Owner, mode: nat)
  type Fs = map<FilePath, FsNode>

  /** The digest of a file's content; any function will do. */
  type Hash = Content -> Sha

  datatype Outcome = Done | Changed | Failed

  // ---------------------------------------------------------------- probing

  function NodeOf(h: Hash, fs: Fs, p: FilePath): Node {
    if p !in fs then Missing
    else match fs[p]
      case FsDir => Dir
      case FsLink => Symlink
      case FsOther => Other
      case FsFile(content, owner, mode) => Regular(owner, mode, h(content))
  }

  function WithDirectories(p: FilePath): set<FilePath> {
    Directories(p) + {p}
  }

  /** `probe_paths`: the wanted and the recorded files, all directories on the way to them, and
      those of the manifest. */
  function ProbePaths(files: GuestFiles, m: Manifest): set<FilePath> {
    {ETC, GUEST_ROOT}
    + (set r, q | r in EntriesOf(files) && r.File? && q in WithDirectories(r.d.entry.path) :: q)
    + (set p, q | p in m && q in WithDirectories(p) :: q)
  }

  function Probe(h: Hash, fs: Fs, paths: set<FilePath>): Nodes {
    map p | p in paths :: NodeOf(h, fs, p)
  }

  predicate WantsFiles(files: GuestFiles) {
    exists i :: 0 <= i < |EntriesOf(files)| && EntriesOf(files)[i].File?
  }

  /** What `inspect` knows of the guest; it does not look at all if there is neither a wanted
      file nor a record. */
  function Seen(h: Hash, fs: Fs, files: GuestFiles, m: Manifest): Nodes {
    if WantsFiles(files) || m != map[] then Probe(h, fs, ProbePaths(files, m)) else map[]
  }

  lemma {:induction false} AssessLocal(p: FilePath, a: Nodes, b: Nodes, depth: nat)
    requires 0 < depth <= |p|
    requires forall q :: q in WithDirectories(p) ==> NodeAt(a, q) == NodeAt(b, q)
    ensures AssessFrom(p, a, depth) == AssessFrom(p, b, depth)
    decreases |p| - depth
  {
    assert p[..|p|] == p;
    assert p[..depth] in WithDirectories(p);
    if depth < |p| { AssessLocal(p, a, b, depth + 1); }
  }

  /** Two probes that agree on the probed paths give the same plan: nothing else is needed. */
  ghost predicate AgreeOn(paths: set<FilePath>, a: Nodes, b: Nodes) {
    forall q :: q in paths ==> NodeAt(a, q) == NodeAt(b, q)
  }

  lemma AssessAgrees(paths: set<FilePath>, a: Nodes, b: Nodes, p: FilePath)
    requires AgreeOn(paths, a, b) && WithDirectories(p) <= paths
    ensures Assess(p, a) == Assess(p, b)
  {
    if p != [] { AssessLocal(p, a, b, 1); }
  }

  lemma {:induction false} EntriesAgree(was: Manifest, paths: set<FilePath>, a: Nodes, b: Nodes, force: bool, entries: seq<Resolved>, n: nat)
    requires n <= |entries| && AgreeOn(paths, a, b)
    requires forall r :: r in entries && r.File? ==> WithDirectories(r.d.entry.path) <= paths
    ensures TakeEntries(was, a, force, entries, n) == TakeEntries(was, b, force, entries, n)
  {
    if n > 0 {
      EntriesAgree(was, paths, a, b, force, entries, n - 1);
      EntryAgrees(was, paths, a, b, force, TakeEntries(was, a, force, entries, n - 1), entries[n - 1]);
    }
  }

  lemma EntryAgrees(was: Manifest, paths: set<FilePath>, a: Nodes, b: Nodes, force: bool, p: Plan, r: Resolved)
    requires AgreeOn(paths, a, b)
    requires r.File? ==> WithDirectories(r.d.entry.path) <= paths
    ensures TakeEntry(was, a, force, p, r) == TakeEntry(was, b, force, p, r)
  {
    if r.File? {
      var path := r.d.entry.path;
      AssessAgrees(paths, a, b, path);
      assert (set q | q in Directories(path) && !NodeAt(a, q).Dir?) == (set q | q in Directories(path) && !NodeAt(b, q).Dir?) by {
        hide Assess;
        assert forall q :: q in Directories(path) ==> q in paths;
      }
      assert Decide(was, a, force, r.d) == Decide(was, b, force, r.d) by { hide Directories, Assess; }
    }
  }

  lemma {:induction false} RecordsAgree(files: GuestFiles, was: Manifest, paths: set<FilePath>, a: Nodes, b: Nodes, p: Plan, keys: seq<FilePath>, n: nat)
    requires n <= |keys| && (forall i :: 0 <= i < |keys| ==> keys[i] in was) && AgreeOn(paths, a, b)
    requires forall i :: 0 <= i < |keys| ==> WithDirectories(keys[i]) <= paths
    ensures TakeRecords(files, was, a, p, keys, n) == TakeRecords(files, was, b, p, keys, n)
  {
    hide Assess, Wants, HoldsBack, WithDirectories;
    if n > 0 {
      RecordsAgree(files, was, paths, a, b, p, keys, n - 1);
      AssessAgrees(paths, a, b, keys[n - 1]);
    }
  }

  /** What is probed is enough: the plan depends on nothing else in the guest. */
  lemma ProbeSuffices(files: GuestFiles, was: Manifest, keys: seq<FilePath>, a: Nodes, b: Nodes, force: bool)
    requires Enumerates(keys, was) && AgreeOn(ProbePaths(files, was), a, b)
    ensures PlanOf(files, was, keys, a, force) == PlanOf(files, was, keys, b, force)
  {
    hide TakeEntries, TakeRecords, WithDirectories, AgreeOn;
    var paths, entries := ProbePaths(files, was), EntriesOf(files);
    assert NodeAt(a, ETC) == NodeAt(b, ETC) && NodeAt(a, GUEST_ROOT) == NodeAt(b, GUEST_ROOT) by {
      AgreeAt(paths, a, b, ETC);
      AgreeAt(paths, a, b, GUEST_ROOT);
    }
    EntriesAgree(was, paths, a, b, force, entries, |entries|);
    RecordsAgree(files, was, paths, a, b, TakeEntries(was, a, force, entries, |entries|), keys, |keys|);
  }

  lemma AgreeAt(paths: set<FilePath>, a: Nodes, b: Nodes, q: FilePath)
    requires AgreeOn(paths, a, b) && q in paths
    ensures NodeAt(a, q) == NodeAt(b, q)
  {
  }

  // ---------------------------------------------------------------- one operation

  /** The file is still what the operation was planned for. */
  predicate StillAsExpected(h: Hash, fs: Fs, op: Op) {
    match op
    case Place(p, _, _, _, ex) =>
      (match ex
       case ExpectMissing => p !in fs
       case ExpectSha(sha) => p in fs && fs[p].FsFile? && h(fs[p].content) == sha
       case ExpectAny => true)
    case RemoveFile(p, sha) => p !in fs || (fs[p].FsFile? && h(fs[p].content) == sha)
  }

  function Carried(fs: Fs, op: Op): Fs {
    match op
    case Place(p, content, mode, owner, _) => fs[p := FsFile(content, owner, mode)]
    case RemoveFile(p, _) => fs - {p}
  }

  /** One operation as one step: done where the file is as expected, not done where it is
      not, or failed without touching it. */
  predicate OpStep(h: Hash, pre: Fs, op: Op, outcome: Outcome, post: Fs) {
    match outcome
    case Done => StillAsExpected(h, pre, op) && post == Carried(pre, op)
    case Changed => !StillAsExpected(h, pre, op) && post == pre
    case Failed => post == pre
  }

  /** A change to a file the sync may make, judged by what was in the guest at that moment:
      where nothing was, a file may be made. A file that was there may be overwritten or
      deleted if its digest is the probed one and, short of a request to overwrite, also the
      recorded one. */
  ghost predicate Rightful(h: Hash, files: GuestFiles, was: Manifest, nodes: Nodes, force: bool, op: Op, pre: Fs) {
    if op.path !in pre then op.Place? && Assess(op.path, nodes).Gone?
    else
      && pre[op.path].FsFile?
      && Assess(op.path, nodes).Present? && h(pre[op.path].content) == Assess(op.path, nodes).sha
      && ((op.path in was && h(pre[op.path].content) == was[op.path].sha)
          || (op.Place? && (force || exists d :: File(d) in EntriesOf(files) && d.entry.path == op.path
                                                  && d.entry.localEdits.OverwriteEdits?)))
  }

  /** Whatever others did since the probe, an operation changes its own path only, and only
      rightfully. */
  lemma RaceSafe(h: Hash, files: GuestFiles, was: Manifest, keys: seq<FilePath>, nodes: Nodes, force: bool,
                 op: Op, pre: Fs, outcome: Outcome, post: Fs)
    requires forall i :: 0 <= i < |keys| ==> keys[i] in was
    requires op in PlanOf(files, was, keys, nodes, force).ops
    requires OpStep(h, pre, op, outcome, post)
    ensures forall q :: q != op.path ==> (q in pre <==> q in post) && (q in pre ==> pre[q] == post[q])
    ensures pre != post ==> outcome.Done? && Rightful(h, files, was, nodes, force, op, pre)
  {
    hide PlanOf, Assess, Wants;
    PlanReasoned(files, was, keys, nodes, force, op);
    if pre != post && op.Place? {
      var d :| File(d) in EntriesOf(files) && PlacedFor(was, nodes, force, d, op);
    }
  }

  // ---------------------------------------------------------------- the guest

  /** What happens around one operation: somebody may have left the files otherwise just
      before it, and it may fail. */
  datatype Turn = Turn(edited: Option<Fs>, fails: bool)

  datatype Row = Row(item: Item, outcome: Option<Outcome>)

  function MakeDirs(fs: Fs, dirs: set<FilePath>): Fs {
    map p | p in fs.Keys + dirs :: if p in fs then fs[p] else FsDir
  }

  predicate DirsPossible(fs: Fs, dirs: set<FilePath>) {
    forall d :: d in dirs && d in fs ==> fs[d].FsDir?
  }

  /** How many items before `i` write: the place of item `i`'s operation among all of them. */
  function WritesBefore(items: seq<Item>, i: nat): nat
    requires i <= |items|
  {
    if i == 0 then 0 else WritesBefore(items, i - 1) + (if items[i - 1].action.Writes() then 1 else 0)
  }

  lemma {:induction false} WritesBeforeCounts(items: seq<Item>, i: nat)
    requires i <= |items|
    ensures |Writing(items[..i])| == WritesBefore(items, i)
  {
    if i > 0 {
      WritesBeforeCounts(items, i - 1);
      assert items[..i][..i - 1] == items[..i - 1];
    }
  }

  lemma {:induction false} WritingAt(items: seq<Item>, n: nat, i: nat)
    requires i < n <= |items| && items[i].action.Writes()
    ensures WritesBefore(items, i) < |Writing(items[..n])| && Writing(items[..n])[WritesBefore(items, i)] == items[i]
  {
    assert items[..n][..n - 1] == items[..n - 1];
    WritesBeforeCounts(items, n - 1);
    if i < n - 1 { WritingAt(items, n - 1, i); }
  }

  /** The outcome an item is reported with is that of the operation on its own path. */
  lemma RowsFit(files: GuestFiles, was: Manifest, keys: seq<FilePath>, nodes: Nodes, force: bool, i: nat)
    requires forall x :: 0 <= x < |keys| ==> keys[x] in was
    requires var p := PlanOf(files, was, keys, nodes, force); i < |p.items| && p.items[i].action.Writes()
    ensures var p := PlanOf(files, was, keys, nodes, force);
            WritesBefore(p.items, i) < |p.ops| && Matches(p.items[i], p.ops[WritesBefore(p.items, i)])
  {
    hide PlanOf, Matches;
    var p := PlanOf(files, was, keys, nodes, force);
    PlanLinesUp(files, was, keys, nodes, force);
    WritingAt(p.items, |p.items|, i);
    assert p.items[..|p.items|] == p.items;
  }

  function Arrived(fs: Fs, edited: Option<Fs>): Fs {
    match edited case Some(e) => e case None => fs
  }

  /** What happened around one operation: how it found the guest, what came of it, and how it
      left the guest. */
  datatype Event = Event(op: Op, turn: Turn, outcome: Outcome, pre: Fs, post: Fs)

  /** It finds the guest as it was left, or as somebody else made it, and fails exactly when
      its turn says so. */
  predicate Happened(h: Hash, left: Fs, e: Event) {
    && e.pre == Arrived(left, e.turn.edited)
    && OpStep(h, e.pre, e.op, e.outcome, e.post)
    && (e.outcome.Failed? <==> e.turn.fails)
  }

  /** How the guest is left by the first `i` events. */
  function LeftAt(start: Fs, events: seq<Event>, i: nat): Fs
    requires i <= |events|
  {
    if i == 0 then start else events[i - 1].post
  }

  /** The operations carried out one after the other from `start`, each once, to `end`. */
  ghost predicate Performed(h: Hash, start: Fs, ops: seq<Op>, turns: nat -> Turn, events: seq<Event>, end: Fs) {
    && |events| == |ops| && end == LeftAt(start, events, |events|)
    && forall i :: 0 <= i < |events| ==>
         events[i].op == ops[i] && events[i].turn == turns(i) && Happened(h, LeftAt(start, events, i), events[i])
  }

  /** What an operation found and what it left. Nothing is left otherwise unless it is done,
      and unless it fails it is done exactly if the path has what was expected there: nothing
      for a new file, the content of the probe for any other, and for a removal nothing is
      as good. */
  ghost predicate Forthright(h: Hash, e: Event) {
    var p := e.op.path;
    && (!e.outcome.Done? ==> e.post == e.pre)
    && (e.outcome.Done? ==> forall q :: q != p ==> (q in e.post <==> q in e.pre) && (q in e.pre ==> e.post[q] == e.pre[q]))
    && match e.op
       case RemoveFile(_, sha) =>
         && (e.outcome.Done? <==> !e.turn.fails && (p in e.pre ==> HasContent(h, e.pre, p, sha)))
         && (e.outcome.Done? ==> p !in e.post)
       case Place(_, content, mode, owner, expects) =>
         && (e.outcome.Done? ==> p in e.post && e.post[p] == FsFile(content, owner, mode))
         && (expects.ExpectMissing? ==> (e.outcome.Done? <==> !e.turn.fails && p !in e.pre))
         && (expects.ExpectSha? ==> (e.outcome.Done? <==> !e.turn.fails && HasContent(h, e.pre, p, expects.sha)))
  }

  /** A regular file whose content has this digest. */
  predicate HasContent(h: Hash, fs: Fs, p: FilePath, sha: Sha) {
    p in fs && fs[p].FsFile? && h(fs[p].content) == sha
  }

  lemma HappenedForthright(h: Hash, left: Fs, e: Event)
    requires Happened(h, left, e)
    ensures Forthright(h, e)
  {
  }

  lemma AllForthright(h: Hash, start: Fs, ops: seq<Op>, turns: nat -> Turn, events: seq<Event>, end: Fs)
    requires Performed(h, start, ops, turns, events, end)
    ensures forall e :: e in events ==> Forthright(h, e)
  {
    hide Happened, Forthright, LeftAt;
    forall i | 0 <= i < |events| ensures Forthright(h, events[i]) {
      HappenedForthright(h, LeftAt(start, events, i), events[i]);
    }
  }

  lemma LeftBy(start: Fs, events: seq<Event>, e: Event)
    ensures forall i :: 0 <= i <= |events| ==> LeftAt(start, events + [e], i) == LeftAt(start, events, i)
    ensures LeftAt(start, events + [e], |events + [e]|) == e.post
  {
  }

  /** The events of a run, one by one. */
  lemma EventAt(h: Hash, start: Fs, ops: seq<Op>, turns: nat -> Turn, events: seq<Event>, end: Fs, i: nat)
    requires Performed(h, start, ops, turns, events, end) && i < |ops|
    ensures |events| == |ops| && events[i].op == ops[i] && events[i].turn == turns(i)
    ensures Happened(h, LeftAt(start, events, i), events[i]) && LeftAt(start, events, i + 1) == events[i].post
  {
    hide Happened;
  }

  lemma PerformedNone(h: Hash, start: Fs, turns: nat -> Turn)
    ensures Performed(h, start, [], turns, [], start)
  {
  }

  lemma PerformedNext(h: Hash, start: Fs, ops: seq<Op>, turns: nat -> Turn, events: seq<Event>, left: Fs, op: Op, e: Event)
    requires Performed(h, start, ops, turns, events, left)
    requires e.op == op && e.turn == turns(|ops|) && Happened(h, left, e)
    ensures Performed(h, start, ops + [op], turns, events + [e], e.post)
  {
    hide Happened, LeftAt;
    var events' := events + [e];
    LeftBy(start, events, e);
    forall i | 0 <= i < |events'|
      ensures events'[i].op == (ops + [op])[i] && events'[i].turn == turns(i) && Happened(h, LeftAt(start, events', i), events'[i])
    {
      assert LeftAt(start, events', i) == LeftAt(start, events, i);
      if i < |events| { assert events'[i] == events[i]; }
    }
  }

  function OutcomesOf(events: seq<Event>): (r: seq<Outcome>)
    ensures |r| == |events|
  {
    seq(|events|, i requires 0 <= i < |events| => events[i].outcome)
  }

  function DoneOf(outcomes: seq<Outcome>): (r: seq<bool>)
    ensures |r| == |outcomes|
  {
    seq(|outcomes|, i requires 0 <= i < |outcomes| => outcomes[i].Done?)
  }

  /** One sync, from the guest it probed to the guest it leaves: nothing at all when the plan
      changes nothing; stopped before the first operation when a directory cannot be made;
      otherwise every operation in turn, and then the manifest those outcomes give, unless
      writing it fails. */
  ghost predicate SyncRuns(h: Hash, plan: Plan, meanwhile: Option<Fs>, turns: nat -> Turn, manifestFails: bool,
                           was: Manifest, fs: Fs, ok: bool, events: seq<Event>, now: Manifest, after: Fs) {
    var start := Arrived(fs, meanwhile);
    if !plan.Changes(was) then
      ok && events == [] && now == was && after == fs
    else if !DirsPossible(start, plan.dirs) then
      !ok && events == [] && now == was && after == start
    else
      var recorded := ManifestAfter(was, plan, DoneOf(OutcomesOf(events)));
      && Performed(h, MakeDirs(start, plan.dirs), plan.ops, turns, events, after)
      && (ok <==> recorded == was || !manifestFails)
      && now == if ok then recorded else was
  }

  class Guest {
    var fs: Fs
    /** The manifest as it reads back; one that is not there or not trusted reads as empty. */
    var manifest: Manifest

    constructor (fs: Fs)
      ensures this.fs == fs && this.manifest == map[]
    {
      this.fs, this.manifest := fs, map[];
    }

    /** `commit`: goes through the operations and collects their outcomes, while others may
        interfere. What happened is handed back for the record. */
    method Commit(h: Hash, ops: seq<Op>, turns: nat -> Turn) returns (outcomes: seq<Outcome>, ghost events: seq<Event>)
      modifies this`fs
      ensures Performed(h, old(fs), ops, turns, events, fs) && outcomes == OutcomesOf(events)
      ensures forall e :: e in events ==> Forthright(h, e)
    {
      hide Forthright, Performed, Happened, OpStep, StillAsExpected, Carried;
      outcomes, events := [], [];
      PerformedNone(h, fs, turns);
      assert ops[..0] == [];
      for i := 0 to |ops|
        invariant Performed(h, old(fs), ops[..i], turns, events, fs) && outcomes == OutcomesOf(events) && |events| == i
      {
        ghost var left := fs;
        if turns(i).edited.Some? {
          fs := turns(i).edited.value;
        }
        ghost var pre := fs;
        var outcome := Failed;
        if !turns(i).fails {
          if StillAsExpected(h, fs, ops[i]) {
            fs := Carried(fs, ops[i]);
            outcome := Done;
          } else {
            outcome := Changed;
          }
        }
        ghost var e := Event(ops[i], turns(i), outcome, pre, fs);
        OneStep(h, left, e);
        PerformedNext(h, old(fs), ops[..i], turns, events, left, ops[i], e);
        outcomes, events := outcomes + [outcome], events + [e];
        assert ops[..i + 1] == ops[..i] + [ops[i]];
      }
      assert ops[..|ops|] == ops;
      AllForthright(h, old(fs), ops, turns, events, fs);
    }

    /** `sync`: an idle plan leaves the guest alone. Otherwise the outcomes of the commit decide
        the new manifest, which replaces the old one at the very end, unless an error comes
        first. */
    method Sync(h: Hash, files: GuestFiles, keys: seq<FilePath>, force: bool,
                meanwhile: Option<Fs>, turns: nat -> Turn, manifestFails: bool)
      returns (ok: bool, rows: seq<Row>, ghost events: seq<Event>)
      requires Enumerates(keys, manifest)
      modifies this
      ensures var nodes := Seen(h, old(fs), files, old(manifest));
              var plan := PlanOf(files, old(manifest), keys, nodes, force);
              && SyncRuns(h, plan, meanwhile, turns, manifestFails, old(manifest), old(fs), ok, events, manifest, fs)
              && (forall e :: e in events ==> OnlyRightful(h, files, old(manifest), nodes, force, e.op, e.pre, e.post))
              && (ok ==> |events| == |plan.ops| && Reported(plan, rows, OutcomesOf(events)))
              && (plan.Changes(old(manifest)) && (exists d :: d in plan.dirs && NoDirectory(Arrived(old(fs), meanwhile), d)) ==>
                    !ok && events == [] && fs == Arrived(old(fs), meanwhile) && manifest == old(manifest))
      ensures files.Held? || NoDirectory(old(fs), ["etc"]) || NoDirectory(old(fs), ["etc", "pve-meta"]) ==>
                ok && events == [] && fs == old(fs) && manifest == old(manifest)
    {
      hide NoDirectory, PlanOf, OnlyRightful, Reported, Seen, LinedUp, Performed, DirsPossible, MakeDirs, SyncRuns, ManifestAfter;
      rows, events := [], [];
      if files.Held? || NoDirectory(fs, ["etc"]) || NoDirectory(fs, ["etc", "pve-meta"]) {
        NothingPlanned(h, files, manifest, keys, fs, force);
      }
      ghost var nodes, was, before := Seen(h, fs, files, manifest), manifest, fs;
      var p := MakePlan(files, manifest, keys, Seen(h, fs, files, manifest), force);
      var outcomes: seq<Outcome> := [];
      if p.Changes(manifest) {
        if meanwhile.Some? {
          fs := meanwhile.value;
        }
        DirsPossibleIff(fs, p.dirs);
        if !DirsPossible(fs, p.dirs) {
          StoppedEarly(h, p, meanwhile, turns, manifestFails, was, before);
          return false, [], [];
        }
        fs := MakeDirs(fs, p.dirs);
        ghost var start := fs;
        outcomes, events := Commit(h, p.ops, turns);
        AllRightful(h, files, was, keys, nodes, force, turns, start, events, fs);
        RanThrough(h, p, meanwhile, turns, manifestFails, was, before, events, fs);
        var after := ManifestAfter(manifest, p, DoneOf(outcomes));
        if after != manifest && manifestFails {
          return false, [], events;
        }
        manifest := after;
      } else {
        NothingToDo(h, p, meanwhile, turns, manifestFails, was, before);
      }
      ok := true;
      PlanLinesUp(files, was, keys, nodes, force);
      rows := Report(p, outcomes);
    }
  }

  /** Something that is no directory is at `dir`. */
  predicate NoDirectory(fs: Fs, dir: FilePath) {
    dir in fs && !fs[dir].FsDir?
  }

  lemma DirsPossibleIff(fs: Fs, dirs: set<FilePath>)
    ensures DirsPossible(fs, dirs) <==> forall d :: d in dirs ==> !NoDirectory(fs, d)
  {
  }

  /** While the document is held, or its own directory cannot be one, a sync plans nothing. */
  lemma NothingPlanned(h: Hash, files: GuestFiles, was: Manifest, keys: seq<FilePath>, fs: Fs, force: bool)
    requires Enumerates(keys, was)
    requires files.Held? || NoDirectory(fs, ["etc"]) || NoDirectory(fs, ["etc", "pve-meta"])
    ensures !PlanOf(files, was, keys, Seen(h, fs, files, was), force).Changes(was)
  {
    hide PlanOf;
    var nodes := Seen(h, fs, files, was);
    if files.Held? || WantsFiles(files) || was != map[] {
      PlanDuties.PlanServes(files, was, keys, nodes, force);
    } else {
      NothingWanted(files, keys, nodes, force);
    }
  }

  lemma NothingWanted(files: GuestFiles, keys: seq<FilePath>, nodes: Nodes, force: bool)
    requires Enumerates(keys, map[]) && !WantsFiles(files)
    ensures !PlanOf(files, map[], keys, nodes, force).Changes(map[])
  {
    hide PlanOf, Assess;
    var p := PlanOf(files, map[], keys, nodes, force);
    if p.ops != [] { PlanReasoned(files, map[], keys, nodes, force, p.ops[0]); }
    if OnHold(files, nodes) {
      PlanDuties.PlanServes(files, map[], keys, nodes, force);
      PlanDuties.HoldMeans(files, nodes);
    } else {
      forall q ensures q !in p.manifest { UnwantedRecord(files, map[], keys, nodes, force, q); }
      assert p.manifest == map[];
    }
  }

  lemma OneStep(h: Hash, left: Fs, e: Event)
    requires e.pre == Arrived(left, e.turn.edited)
    requires if e.turn.fails then e.outcome.Failed? && e.post == e.pre
             else if StillAsExpected(h, e.pre, e.op) then e.outcome.Done? && e.post == Carried(e.pre, e.op)
             else e.outcome.Changed? && e.post == e.pre
    ensures Happened(h, left, e)
  {
  }

  lemma NothingToDo(h: Hash, plan: Plan, meanwhile: Option<Fs>, turns: nat -> Turn, manifestFails: bool, was: Manifest, fs: Fs)
    requires !plan.Changes(was)
    ensures SyncRuns(h, plan, meanwhile, turns, manifestFails, was, fs, true, [], was, fs)
  {
  }

  lemma StoppedEarly(h: Hash, plan: Plan, meanwhile: Option<Fs>, turns: nat -> Turn, manifestFails: bool, was: Manifest, fs: Fs)
    requires plan.Changes(was) && !DirsPossible(Arrived(fs, meanwhile), plan.dirs)
    ensures SyncRuns(h, plan, meanwhile, turns, manifestFails, was, fs, false, [], was, Arrived(fs, meanwhile))
  {
  }

  lemma RanThrough(h: Hash, plan: Plan, meanwhile: Option<Fs>, turns: nat -> Turn, manifestFails: bool, was: Manifest, fs: Fs,
                   events: seq<Event>, after: Fs)
    requires plan.Changes(was) && DirsPossible(Arrived(fs, meanwhile), plan.dirs)
    requires Performed(h, MakeDirs(Arrived(fs, meanwhile), plan.dirs), plan.ops, turns, events, after)
    ensures |events| == |plan.ops|
    ensures var recorded := ManifestAfter(was, plan, DoneOf(OutcomesOf(events)));
            var ok := recorded == was || !manifestFails;
            SyncRuns(h, plan, meanwhile, turns, manifestFails, was, fs, ok, events, if ok then recorded else was, after)
  {
    hide DirsPossible, MakeDirs, ManifestAfter, Happened, LeftAt;
  }

  /** A sync, however it ends, is a step of the runs that writers share the manifest over. */
  lemma SyncIsStep(h: Hash, files: GuestFiles, keys: seq<FilePath>, nodes: Nodes, force: bool, meanwhile: Option<Fs>, turns: nat -> Turn,
                   manifestFails: bool, was: Manifest, fs: Fs, ok: bool, events: seq<Event>, now: Manifest, after: Fs)
    returns (s: Sync)
    requires Enumerates(keys, was) && NoCollisions(EntriesOf(files))
    requires SyncRuns(h, PlanOf(files, was, keys, nodes, force), meanwhile, turns, manifestFails, was, fs, ok, events, now, after)
    ensures s.files == files && s.nodes == nodes && SyncStep(was, s, now)
  {
    hide PlanOf, NoCollisions, DirsPossible, MakeDirs, ManifestAfter, Happened, LeftAt;
    var plan := PlanOf(files, was, keys, nodes, force);
    var done := if |events| == |plan.ops| then DoneOf(OutcomesOf(events)) else seq(|plan.ops|, _ => false);
    s := Sync(files, keys, nodes, force, done);
  }

  lemma AllRightful(h: Hash, files: GuestFiles, was: Manifest, keys: seq<FilePath>, nodes: Nodes, force: bool, turns: nat -> Turn,
                    start: Fs, events: seq<Event>, end: Fs)
    requires forall i :: 0 <= i < |keys| ==> keys[i] in was
    requires Performed(h, start, PlanOf(files, was, keys, nodes, force).ops, turns, events, end)
    ensures forall e :: e in events ==> OnlyRightful(h, files, was, nodes, force, e.op, e.pre, e.post)
  {
    hide PlanOf, OnlyRightful, OpStep, LeftAt;
    var ops := PlanOf(files, was, keys, nodes, force).ops;
    forall i | 0 <= i < |events|
      ensures OnlyRightful(h, files, was, nodes, force, events[i].op, events[i].pre, events[i].post)
    {
      assert ops[i] in ops && Happened(h, LeftAt(start, events, i), events[i]);
      StepRightful(h, files, was, keys, nodes, force, ops[i], events[i].pre, events[i].outcome, events[i].post);
    }
  }

  /** One operation's doing: nothing but its own path, and that rightfully. */
  ghost predicate OnlyRightful(h: Hash, files: GuestFiles, was: Manifest, nodes: Nodes, force: bool, op: Op, pre: Fs, post: Fs) {
    && (forall q :: q != op.path ==> (q in pre <==> q in post) && (q in pre ==> pre[q] == post[q]))
    && (pre != post ==> Rightful(h, files, was, nodes, force, op, pre))
  }

  lemma StepRightful(h: Hash, files: GuestFiles, was: Manifest, keys: seq<FilePath>, nodes: Nodes, force: bool,
                     op: Op, pre: Fs, outcome: Outcome, post: Fs)
    requires forall i :: 0 <= i < |keys| ==> keys[i] in was
    requires op in PlanOf(files, was, keys, nodes, force).ops
    requires OpStep(h, pre, op, outcome, post)
    ensures OnlyRightful(h, files, was, nodes, force, op, pre, post)
  {
    hide PlanOf, Rightful, OpStep;
    RaceSafe(h, files, was, keys, nodes, force, op, pre, outcome, post);
  }

  /** A row per item; one that writes has the outcome of its own operation, the others none. */
  ghost predicate Reported(p: Plan, rows: seq<Row>, outcomes: seq<Outcome>) {
    |rows| == |p.items| && forall i :: 0 <= i < |rows| ==>
      && rows[i].item == p.items[i]
      && (if p.items[i].action.Writes()
          then WritesBefore(p.items, i) < |outcomes| && rows[i].outcome == Some(outcomes[WritesBefore(p.items, i)])
          else rows[i].outcome == None)
  }

  /** The rows of a report: the outcomes handed out, in order, to the items that write. */
  method Report(p: Plan, outcomes: seq<Outcome>) returns (rows: seq<Row>)
    requires LinedUp(p) && |outcomes| == |p.ops|
    ensures Reported(p, rows, outcomes)
  {
    hide Writing, Matches;
    rows := [];
    var next := 0;
    for i := 0 to |p.items|
      invariant |rows| == i && next == WritesBefore(p.items, i) <= |outcomes|
      invariant forall x :: 0 <= x < i ==>
                  && rows[x].item == p.items[x]
                  && (if p.items[x].action.Writes()
                      then WritesBefore(p.items, x) < |outcomes| && rows[x].outcome == Some(outcomes[WritesBefore(p.items, x)])
                      else rows[x].outcome == None)
    {
      if p.items[i].action.Writes() {
        WritingAt(p.items, |p.items|, i);
        assert p.items[..|p.items|] == p.items;
        rows := rows + [Row(p.items[i], Some(outcomes[next]))];
        next := next + 1;
      } else {
        rows := rows + [Row(p.items[i], None)];
      }
    }
  }
}
