/** How many syncs it takes until there is nothing left to do, for syncs as they run when
    nobody interferes. */
module Settling {
  import opened Values
  import opened GuestPlan
  import opened Manifests
  import opened SyncProtocol
  import opened Undisturbed
  import C = Convergence

  /** Nobody edits the guest, nothing fails. */
  function Alone(i: nat): Turn {
    Turn(None, false)
  }

  /** A sync nobody interferes with takes the guest from one state to the next. */
  ghost predicate SyncsAlone(h: Hash, files: GuestFiles, keys: seq<FilePath>, force: bool, was: Manifest, fs: Fs,
                             ok: bool, events: seq<Event>, now: Manifest, after: Fs)
    requires forall i :: 0 <= i < |keys| ==> keys[i] in was
  {
    SyncRuns(h, PlanFor(h, files, was, keys, fs, force), None, Alone, false, was, fs, ok, events, now, after)
  }

  // ---------------------------------------------------------------- it does what it planned

  lemma {:induction false} DoneSoFar(h: Hash, files: GuestFiles, was: Manifest, keys: seq<FilePath>, fs: Fs, force: bool,
                                     events: seq<Event>, after: Fs, i: nat)
    requires Enumerates(keys, was) && Setting(h, files, was, fs)
    requires var p := PlanFor(h, files, was, keys, fs, force);
             Performed(h, MakeDirs(fs, p.dirs), p.ops, Alone, events, after)
    requires i <= |events|
    ensures var p := PlanFor(h, files, was, keys, fs, force);
            var start := MakeDirs(fs, p.dirs);
            && |events| == |p.ops| && LeftAt(start, events, i) == AllDone(start, p.ops[..i])
            && (forall x :: 0 <= x < i ==> events[x].outcome.Done?)
  {
    hide PlanFor, Setting, MakeDirs, StillAsExpected, Carried, Performed, LeftAt, AllDone;
    var p := PlanFor(h, files, was, keys, fs, force);
    var start := MakeDirs(fs, p.dirs);
    PerformedAll(h, start, p.ops, Alone, events, after);
    if i == 0 {
      assert p.ops[..0] == [];
      NoneYet(start, events);
    } else {
      DoneSoFar(h, files, was, keys, fs, force, events, after, i - 1);
      NoneSkipped(h, files, was, keys, fs, force, i - 1);
      EventAt(h, start, p.ops, Alone, events, after, i - 1);
      DoneNext(start, p.ops[..i - 1], p.ops[i - 1]);
      assert p.ops[..i] == p.ops[..i - 1] + [p.ops[i - 1]];
    }
  }

  lemma NoneYet(start: Fs, events: seq<Event>)
    ensures LeftAt(start, events, 0) == start && AllDone(start, []) == start
  {
  }

  lemma {:induction false} AllDoneRecords(was: Manifest, m: Manifest, ops: seq<Op>, done: seq<bool>, n: nat)
    requires n <= |ops| && n <= |done| && forall i :: 0 <= i < n ==> done[i]
    ensures UndoFirst(was, m, ops, done, n) == m
  {
    if n > 0 { AllDoneRecords(was, m, ops, done, n - 1); }
  }

  /** A plan that changes nothing makes no directory. */
  lemma NoChangeNoDirs(files: GuestFiles, was: Manifest, keys: seq<FilePath>, nodes: Nodes, force: bool)
    requires Enumerates(keys, was) && !OnHold(files, nodes) && !PlanOf(files, was, keys, nodes, force).Changes(was)
    ensures PlanOf(files, was, keys, nodes, force).dirs == {}
  {
    hide TakeEntries, TakeRecords, Decide, DirFor;
    var entries := EntriesOf(files);
    RecordsDirs(files, was, nodes, TakeEntries(was, nodes, force, entries, |entries|), keys, |keys|);
    var dirs := PlanOf(files, was, keys, nodes, force).dirs;
    if dirs != {} {
      var q :| q in dirs;
      var d := DirWhy(files, was, nodes, force, |entries|, q);
      CreatedFor(files, was, keys, nodes, force, q, d);
    }
  }

  lemma CreatedFor(files: GuestFiles, was: Manifest, keys: seq<FilePath>, nodes: Nodes, force: bool, q: FilePath, d: Desired)
    requires Enumerates(keys, was) && !OnHold(files, nodes) && DirFor(files, was, nodes, force, q, d)
    ensures PlanOf(files, was, keys, nodes, force).ops != []
  {
    hide PlanOf, Decide;
    C.CreatePlaces(was, nodes, force, d);
    WantedOp(files, was, keys, nodes, force, d);
  }

  /** Left alone, a sync succeeds, does every operation it planned, and leaves the guest and
      the manifest as planned. */
  lemma SyncAlone(h: Hash, files: GuestFiles, was: Manifest, keys: seq<FilePath>, fs: Fs, force: bool,
                  ok: bool, events: seq<Event>, now: Manifest, after: Fs)
    requires Enumerates(keys, was) && Setting(h, files, was, fs)
    requires SyncsAlone(h, files, keys, force, was, fs, ok, events, now, after)
    ensures var p := PlanFor(h, files, was, keys, fs, force);
            && ok && |events| == |p.ops| && (forall e :: e in events ==> e.outcome.Done?)
            && after == Result(fs, p) && now == p.manifest
  {
    hide PlanOf, PlanFor, Setting, MakeDirs, AllDone, Performed, DirsPossible, OnHold;
    var p := PlanFor(h, files, was, keys, fs, force);
    SeenIsEnough(h, files, was, keys, fs, force);
    if !p.Changes(was) {
      NoChangeNoDirs(files, was, keys, Everything(h, fs), force);
      NothingDone(fs);
    } else {
      NothingInTheWay(h, files, was, keys, fs, force);
      var start := MakeDirs(fs, p.dirs);
      PerformedAll(h, start, p.ops, Alone, events, after);
      DoneSoFar(h, files, was, keys, fs, force, events, after, |events|);
      assert p.ops[..|events|] == p.ops;
      AllDoneRecords(was, p.manifest, p.ops, DoneOf(OutcomesOf(events)), |p.ops|);
    }
  }

  lemma PerformedAll(h: Hash, start: Fs, ops: seq<Op>, turns: nat -> Turn, events: seq<Event>, end: Fs)
    requires Performed(h, start, ops, turns, events, end)
    ensures |events| == |ops| && end == LeftAt(start, events, |events|)
  {
  }

  lemma NothingDone(fs: Fs)
    ensures AllDone(MakeDirs(fs, {}), []) == fs
  {
  }

  // ---------------------------------------------------------------- how many it takes

  /** The next sync has nothing to do. */
  ghost predicate Settled(h: Hash, files: GuestFiles, keys: seq<FilePath>, force: bool, m: Manifest, fs: Fs)
    requires forall i :: 0 <= i < |keys| ==> keys[i] in m
  {
    C.Quiet(PlanFor(h, files, m, keys, fs, force), m)
  }

  /** One sync is enough exactly when it deletes no file that was in the way of a path
      somebody still cares about. */
  lemma OneSyncIff(h: Hash, files: GuestFiles, force: bool,
                   keys: seq<FilePath>, was: Manifest, fs: Fs, ok: bool, events: seq<Event>, now: Manifest, after: Fs, keys': seq<FilePath>)
    requires Enumerates(keys, was) && Setting(h, files, was, fs)
    requires SyncsAlone(h, files, keys, force, was, fs, ok, events, now, after) && Enumerates(keys', now)
    ensures Settled(h, files, keys', force, now, after) <==> C.NothingUncovered(files, was, Everything(h, fs))
  {
    hide PlanFor, Setting, SyncsAlone, C.Quiet, C.NothingUncovered, Everything, Result, Enumerates;
    SyncAlone(h, files, was, keys, fs, force, ok, events, now, after);
    ResultQuietIff(h, files, was, keys, fs, force, keys');
  }

  /** Two are always enough. */
  lemma TwoSyncsAlways(h: Hash, files: GuestFiles, force: bool,
                       keys: seq<FilePath>, was: Manifest, fs: Fs, ok: bool, events: seq<Event>,
                       keys': seq<FilePath>, mid: Manifest, between: Fs, ok': bool, events': seq<Event>,
                       now: Manifest, after: Fs, keys'': seq<FilePath>)
    requires Enumerates(keys, was) && Setting(h, files, was, fs)
    requires SyncsAlone(h, files, keys, force, was, fs, ok, events, mid, between) && Enumerates(keys', mid)
    requires SyncsAlone(h, files, keys', force, mid, between, ok', events', now, after) && Enumerates(keys'', now)
    ensures Settled(h, files, keys'', force, now, after)
  {
    hide PlanFor, Setting, SyncsAlone, C.Quiet, Result, Enumerates;
    SyncAlone(h, files, was, keys, fs, force, ok, events, mid, between);
    StillSetting(h, files, was, keys, fs, force);
    SyncAlone(h, files, mid, keys', between, force, ok', events', now, after);
    SecondResultQuiet(h, files, was, keys, fs, force, keys', keys'');
  }

  /** And once settled, whatever happens around it, a sync touches nothing. */
  lemma SettledStays(h: Hash, files: GuestFiles, force: bool, keys: seq<FilePath>, m: Manifest, fs: Fs,
                     meanwhile: Option<Fs>, turns: nat -> Turn, manifestFails: bool, ok: bool, events: seq<Event>, now: Manifest, after: Fs)
    requires forall i :: 0 <= i < |keys| ==> keys[i] in m
    requires Settled(h, files, keys, force, m, fs)
    requires SyncRuns(h, PlanFor(h, files, m, keys, fs, force), meanwhile, turns, manifestFails, m, fs, ok, events, now, after)
    ensures ok && events == [] && now == m && after == fs
  {
    hide PlanFor, Performed, DirsPossible, MakeDirs;
  }

  /** In particular one is enough when no recorded path lies above a wanted one or above
      another recorded one. */
  lemma FlatSettlesAtOnce(h: Hash, files: GuestFiles, force: bool,
                          keys: seq<FilePath>, was: Manifest, fs: Fs, ok: bool, events: seq<Event>, now: Manifest, after: Fs, keys': seq<FilePath>)
    requires Enumerates(keys, was) && Setting(h, files, was, fs)
    requires SyncsAlone(h, files, keys, force, was, fs, ok, events, now, after) && Enumerates(keys', now)
    requires forall a, b :: a in was && (b in was || Wants(EntriesOf(files), b)) ==> !(a < b)
    ensures Settled(h, files, keys', force, now, after)
  {
    hide Settled, Setting, SyncsAlone, FateOf, Enumerates;
    OneSyncIff(h, files, force, keys, was, fs, ok, events, now, after, keys');
    forall p | C.Concerned(files, was, Everything(h, fs), p) ensures !C.Uncovers(files, was, Everything(h, fs), p) {
      assert p in was || Wants(EntriesOf(files), p);
    }
  }

  /** That no recorded path nests with a wanted one is not enough: here nothing is wanted at
      all, and deleting the document's file clears the way of an operator's record. */
  lemma NestedRecordsNeedTwo(h: Hash, force: bool, keys: seq<FilePath>, ok: bool, events: seq<Event>, now: Manifest, after: Fs, keys': seq<FilePath>)
    requires Enumerates(keys, NestedRecords(h))
    requires SyncsAlone(h, Nothing, keys, force, NestedRecords(h), NestedFiles, ok, events, now, after) && Enumerates(keys', now)
    ensures Setting(h, Nothing, NestedRecords(h), NestedFiles)
    ensures !Settled(h, Nothing, keys', force, now, after)
  {
    hide Settled, Setting, SyncsAlone, Enumerates, C.NothingUncovered, Everything, NestedRecords;
    NestedSetting(h);
    NestedUncovers(h);
    OneSyncIff(h, Nothing, force, keys, NestedRecords(h), NestedFiles, ok, events, now, after, keys');
  }

  // ---------------------------------------------------------------- on the guest itself

  /** The manifest's paths in some order. */
  method PathsOf(m: Manifest) returns (keys: seq<FilePath>)
    ensures Enumerates(keys, m)
  {
    keys := [];
    var left := m.Keys;
    while left != {}
      invariant left <= m.Keys
      invariant forall p :: p in keys <==> p in m && p !in left
      invariant forall i, j :: 0 <= i < j < |keys| ==> keys[i] != keys[j]
      decreases |left|
    {
      var p :| p in left;
      keys, left := keys + [p], left - {p};
    }
    assert forall i :: 0 <= i < |keys| ==> keys[i] in keys;
  }

  /** One sync that nobody disturbs. */
  method SyncOnce(g: Guest, h: Hash, files: GuestFiles, force: bool)
    returns (ok: bool, keys: seq<FilePath>, ghost events: seq<Event>)
    requires Setting(h, files, g.manifest, g.fs)
    modifies g
    ensures Enumerates(keys, old(g.manifest)) && ok
    ensures SyncsAlone(h, files, keys, force, old(g.manifest), old(g.fs), ok, events, g.manifest, g.fs)
    ensures Setting(h, files, g.manifest, g.fs)
  {
    hide Setting, SyncRuns, PlanOf, Seen, Reported, OnlyRightful, NoDirectory;
    ghost var was, fs := g.manifest, g.fs;
    keys := PathsOf(g.manifest);
    var rows;
    ok, rows, events := g.Sync(h, files, keys, force, None, Alone, false);
    SyncAlone(h, files, was, keys, fs, force, ok, events, g.manifest, g.fs);
    StillSetting(h, files, was, keys, fs, force);
  }

  /** Two syncs of a guest nobody else touches both succeed and leave nothing to do. */
  method SettleGuest(g: Guest, h: Hash, files: GuestFiles, force: bool) returns (ok: bool)
    requires Setting(h, files, g.manifest, g.fs)
    modifies g
    ensures ok && Setting(h, files, g.manifest, g.fs)
    ensures forall keys :: Enumerates(keys, g.manifest) ==> Settled(h, files, keys, force, g.manifest, g.fs)
  {
    hide Setting, Settled, SyncsAlone;
    ghost var was, fs := g.manifest, g.fs;
    var first, keys, events := SyncOnce(g, h, files, force);
    ghost var mid, between := g.manifest, g.fs;
    var second, keys', events' := SyncOnce(g, h, files, force);
    forall keys'' | Enumerates(keys'', g.manifest) ensures Settled(h, files, keys'', force, g.manifest, g.fs) {
      TwoSyncsAlways(h, files, force, keys, was, fs, first, events, keys', mid, between, second, events', g.manifest, g.fs, keys'');
    }
    ok := first && second;
  }
}
