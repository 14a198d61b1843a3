/** Rounds of syncs by several writers: however the turns of a round are ordered, after finitely
    many rounds nobody has anything left to do. */
module TogetherRuns {
  import opened Values
  import opened GuestPlan
  import opened PlanLaws
  import opened Manifests
  import opened SyncProtocol
  import opened Undisturbed
  import opened Settling
  import opened Together
  import C = Convergence

  // ---------------------------------------------------------------- how far the paths have got

  ghost function At(ws: seq<Writer>, paths: set<FilePath>, m: Manifest, nodes: Nodes, stage: nat): set<FilePath> {
    set p | p in paths && Reached(ws, m, nodes, p, stage)
  }

  ghost function Potential(ws: seq<Writer>, paths: set<FilePath>, m: Manifest, nodes: Nodes): nat {
    |At(ws, paths, m, nodes, 0)| + |At(ws, paths, m, nodes, 1)| + |At(ws, paths, m, nodes, 2)|
  }

  lemma PotentialBounded(ws: seq<Writer>, paths: set<FilePath>, m: Manifest, nodes: Nodes)
    ensures Potential(ws, paths, m, nodes) <= 3 * |paths|
  {
    hide Reached;
    forall stage ensures |At(ws, paths, m, nodes, stage)| <= |paths| { SubsetSize(At(ws, paths, m, nodes, stage), paths); }
  }

  lemma StageGrows(ws: seq<Writer>, i: nat, paths: set<FilePath>, was: Manifest, before: Nodes, dirs: set<FilePath>, after: Nodes, now: Manifest, stage: nat)
    requires Move(ws, i, was, before, dirs, after, now) && (i > 0 || Tidy(ws, was))
    ensures At(ws, paths, was, before, stage) <= At(ws, paths, now, after, stage)
    ensures |At(ws, paths, was, before, stage)| <= |At(ws, paths, now, after, stage)|
  {
    hide Move, Tidy, Reached;
    forall p | p in At(ws, paths, was, before, stage) ensures p in At(ws, paths, now, after, stage) {
      ReachedStays(ws, i, was, before, dirs, after, now, p, stage);
    }
    SubsetSize(At(ws, paths, was, before, stage), At(ws, paths, now, after, stage));
  }

  /** Every sync keeps what has been reached, and one with something to do adds to it. */
  lemma PotentialGrows(ws: seq<Writer>, i: nat, paths: set<FilePath>, was: Manifest, before: Nodes, dirs: set<FilePath>, after: Nodes, now: Manifest)
    requires i < |ws| && Move(ws, i, was, before, dirs, after, now) && (i > 0 || Tidy(ws, was))
    requires (forall p :: p in was ==> p in paths) && (forall d :: WantedBy(ws, d) ==> d.entry.path in paths)
    ensures Potential(ws, paths, was, before) <= Potential(ws, paths, now, after)
    ensures !Idle(ws[i], was, before) ==> Potential(ws, paths, was, before) < Potential(ws, paths, now, after)
  {
    hide Move, Tidy, Reached, Idle, At, WantedBy;
    StageGrows(ws, i, paths, was, before, dirs, after, now, 0);
    StageGrows(ws, i, paths, was, before, dirs, after, now, 1);
    StageGrows(ws, i, paths, was, before, dirs, after, now, 2);
    if !Idle(ws[i], was, before) {
      var p, stage := Progress(ws, i, was, before, dirs, after, now);
      OneMoreAt(ws, paths, was, before, now, after, p, stage);
    }
  }

  lemma OneMoreAt(ws: seq<Writer>, paths: set<FilePath>, was: Manifest, before: Nodes, now: Manifest, after: Nodes, p: FilePath, stage: nat)
    requires p in paths && !Reached(ws, was, before, p, stage) && Reached(ws, now, after, p, stage)
    requires At(ws, paths, was, before, stage) <= At(ws, paths, now, after, stage)
    ensures |At(ws, paths, was, before, stage)| < |At(ws, paths, now, after, stage)|
  {
    hide Reached;
    var a, b := At(ws, paths, was, before, stage), At(ws, paths, now, after, stage);
    assert p in b && p !in a;
    SubsetSize(a + {p}, b);
  }

  // ---------------------------------------------------------------- one turn

  /** A guest all the writers can work on, and paths enough for all they do. */
  ghost predicate World(h: Hash, ws: seq<Writer>, paths: set<FilePath>, m: Manifest, fs: Fs) {
    && Crew(ws) && InAccord(ws)
    && (forall i :: 0 <= i < |ws| ==> Setting(h, ws[i].files, m, fs))
    && (forall p :: p in m ==> p in paths) && (forall d :: WantedBy(ws, d) ==> d.entry.path in paths)
  }

  /** One writer's sync, undisturbed. */
  datatype Turn = Turn(who: nat, keys: seq<FilePath>, ok: bool, events: seq<Event>, now: Manifest, after: Fs)

  ghost predicate Plays(h: Hash, ws: seq<Writer>, t: Turn, m: Manifest, fs: Fs) {
    && t.who < |ws| && Enumerates(t.keys, m)
    && SyncsAlone(h, ws[t.who].files, t.keys, ws[t.who].force, m, fs, t.ok, t.events, t.now, t.after)
  }

  lemma TurnMoves(h: Hash, ws: seq<Writer>, paths: set<FilePath>, t: Turn, m: Manifest, fs: Fs) returns (dirs: set<FilePath>)
    requires World(h, ws, paths, m, fs) && Plays(h, ws, t, m, fs)
    ensures Move(ws, t.who, m, Everything(h, fs), dirs, Everything(h, t.after), t.now)
    ensures Setting(h, ws[t.who].files, t.now, t.after)
  {
    hide Crew, InAccord, Setting, SyncRuns, C.Synced, PlanFor, Result, Everything, WantedBy;
    var w := ws[t.who];
    SyncAlone(h, w.files, m, t.keys, fs, w.force, t.ok, t.events, t.now, t.after);
    SyncedNow(h, w.files, m, t.keys, fs, w.force);
    StillSetting(h, w.files, m, t.keys, fs, w.force);
    dirs := PlanFor(h, w.files, m, t.keys, fs, w.force).dirs;
  }

  lemma RecordsWithin(ws: seq<Writer>, i: nat, was: Manifest, before: Nodes, dirs: set<FilePath>, after: Nodes, now: Manifest, p: FilePath)
    requires Move(ws, i, was, before, dirs, after, now) && p in now
    ensures p in was || exists d :: WantedBy(ws, d) && d.entry.path == p
  {
    hide Crew, InAccord, NoCollisions, C.Rooted, C.DirsCover, C.Carried, C.AllPlaceable, FateOf, Wants, Decide;
    InManifest(now, p);
    if Wants(EntriesOf(ws[i].files), p) {
      var d := Wanted(ws[i].files, p);
      assert WantedBy(ws, d);
    }
  }

  lemma SettingFor(h: Hash, a: GuestFiles, b: GuestFiles, was: Manifest, fs: Fs, now: Manifest, after: Fs)
    requires Setting(h, a, was, fs) && Setting(h, b, now, after)
    ensures Setting(h, a, now, after)
  {
    hide NoCollisions, Honest, C.Rooted, C.Habitable, EntriesOf, C.Placeable, Everything;
  }

  lemma StillWorld(h: Hash, ws: seq<Writer>, paths: set<FilePath>, t: Turn, m: Manifest, fs: Fs)
    requires World(h, ws, paths, m, fs) && Plays(h, ws, t, m, fs)
    ensures World(h, ws, paths, t.now, t.after)
  {
    hide Crew, InAccord, Setting, Move, Plays, WantedBy;
    var who := t.who;
    assert who < |ws| by { InRange(h, ws, t, m, fs); }
    var dirs := TurnMoves(h, ws, paths, t, m, fs);
    forall i | 0 <= i < |ws| ensures Setting(h, ws[i].files, t.now, t.after) {
      SettingFor(h, ws[i].files, ws[who].files, m, fs, t.now, t.after);
    }
    forall p | p in t.now ensures p in paths {
      RecordsWithin(ws, who, m, Everything(h, fs), dirs, Everything(h, t.after), t.now, p);
    }
  }

  lemma InRange(h: Hash, ws: seq<Writer>, t: Turn, m: Manifest, fs: Fs)
    requires Plays(h, ws, t, m, fs)
    ensures t.who < |ws|
  {
  }

  /** The document's turn tidies up, and nobody untidies. */
  lemma TidyAfter(ws: seq<Writer>, i: nat, was: Manifest, before: Nodes, dirs: set<FilePath>, after: Nodes, now: Manifest)
    requires Move(ws, i, was, before, dirs, after, now) && (i == 0 || Tidy(ws, was))
    ensures Tidy(ws, now)
  {
    hide InAccord, NoCollisions, C.Rooted, C.DirsCover, C.Carried, C.AllPlaceable, Wants, Decide, Assess, HoldsBack, IsManaged, EntriesOf;
    forall p | p in now && !IsManaged(now[p].source) && !Wants(EntriesOf(ws[0].files), p)
      ensures HoldsBack(EntriesOf(ws[0].files), now[p].entry)
    {
      InManifest(now, p);
      InManifest(was, p);
      if Wants(EntriesOf(ws[i].files), p) { var d := Wanted(ws[i].files, p); }
    }
  }

  lemma IdleStays(h: Hash, ws: seq<Writer>, paths: set<FilePath>, t: Turn, m: Manifest, fs: Fs)
    requires World(h, ws, paths, m, fs) && Plays(h, ws, t, m, fs) && Idle(ws[t.who], m, Everything(h, fs))
    ensures t.now == m && t.after == fs
  {
    hide Crew, InAccord, Setting, Idle, PlanOf, Everything, OnHold, WantedBy, NoCollisions;
    var w := ws[t.who];
    SeenIsEnough(h, w.files, m, t.keys, fs, w.force);
    Apart(h, w.files, m, fs);
    IdleIsQuiet(w, m, t.keys, Everything(h, fs));
    SettledStays(h, w.files, w.force, t.keys, m, fs, None, Alone, false, t.ok, t.events, t.now, t.after);
  }

  lemma Apart(h: Hash, files: GuestFiles, m: Manifest, fs: Fs)
    requires Setting(h, files, m, fs)
    ensures NoCollisions(EntriesOf(files))
  {
  }

  // ---------------------------------------------------------------- many turns

  ghost predicate Played(h: Hash, ws: seq<Writer>, ts: seq<Turn>, m: Manifest, fs: Fs)
    decreases |ts|
  {
    ts == [] || (Plays(h, ws, ts[0], m, fs) && Played(h, ws, ts[1..], ts[0].now, ts[0].after))
  }

  function EndManifest(ts: seq<Turn>, m: Manifest): Manifest {
    if ts == [] then m else ts[|ts| - 1].now
  }

  function EndFiles(ts: seq<Turn>, fs: Fs): Fs {
    if ts == [] then fs else ts[|ts| - 1].after
  }

  ghost predicate AllIdle(h: Hash, ws: seq<Writer>, m: Manifest, fs: Fs) {
    forall i :: 0 <= i < |ws| ==> Idle(ws[i], m, Everything(h, fs))
  }

  ghost function Value(h: Hash, ws: seq<Writer>, paths: set<FilePath>, m: Manifest, fs: Fs): nat {
    Potential(ws, paths, m, Everything(h, fs))
  }

  /** One turn in a tidy world. */
  lemma TurnGrows(h: Hash, ws: seq<Writer>, paths: set<FilePath>, t: Turn, m: Manifest, fs: Fs)
    requires World(h, ws, paths, m, fs) && Plays(h, ws, t, m, fs) && Tidy(ws, m)
    ensures World(h, ws, paths, t.now, t.after) && Tidy(ws, t.now)
    ensures Value(h, ws, paths, m, fs) <= Value(h, ws, paths, t.now, t.after)
    ensures Value(h, ws, paths, m, fs) == Value(h, ws, paths, t.now, t.after) ==>
              Idle(ws[t.who], m, Everything(h, fs)) && t.now == m && t.after == fs
  {
    hide Crew, InAccord, Setting, Idle, Move, Tidy, Potential, Everything, SyncsAlone;
    StillWorld(h, ws, paths, t, m, fs);
    var dirs := TurnMoves(h, ws, paths, t, m, fs);
    TidyAfter(ws, t.who, m, Everything(h, fs), dirs, Everything(h, t.after), t.now);
    PotentialGrows(ws, t.who, paths, m, Everything(h, fs), dirs, Everything(h, t.after), t.now);
    if Idle(ws[t.who], m, Everything(h, fs)) { IdleStays(h, ws, paths, t, m, fs); }
  }

  /** Any number of turns: what has been reached stays, and if nothing was added, then nothing
      happened and everybody who had a turn had nothing to do. */
  lemma {:induction false} TurnsGrow(h: Hash, ws: seq<Writer>, paths: set<FilePath>, ts: seq<Turn>, m: Manifest, fs: Fs)
    requires World(h, ws, paths, m, fs) && Played(h, ws, ts, m, fs) && Tidy(ws, m)
    ensures World(h, ws, paths, EndManifest(ts, m), EndFiles(ts, fs)) && Tidy(ws, EndManifest(ts, m))
    ensures Value(h, ws, paths, m, fs) <= Value(h, ws, paths, EndManifest(ts, m), EndFiles(ts, fs))
    ensures Value(h, ws, paths, m, fs) == Value(h, ws, paths, EndManifest(ts, m), EndFiles(ts, fs)) ==>
              && EndManifest(ts, m) == m && EndFiles(ts, fs) == fs
              && forall k :: 0 <= k < |ts| ==> ts[k].who < |ws| && Idle(ws[ts[k].who], m, Everything(h, fs))
    decreases |ts|
  {
    hide World, Idle, Tidy, Value, Everything, Plays;
    if ts != [] {
      var t, rest := ts[0], ts[1..];
      InRange(h, ws, t, m, fs);
      WorldHasWriters(h, ws, paths, m, fs);
      TurnGrows(h, ws, paths, t, m, fs);
      TurnsGrow(h, ws, paths, rest, t.now, t.after);
      assert EndManifest(ts, m) == EndManifest(rest, t.now) && EndFiles(ts, fs) == EndFiles(rest, t.after);
      assert forall k :: 0 < k < |ts| ==> ts[k] == rest[k - 1];
    }
  }

  lemma WorldHasWriters(h: Hash, ws: seq<Writer>, paths: set<FilePath>, m: Manifest, fs: Fs)
    requires World(h, ws, paths, m, fs)
    ensures |ws| > 0
  {
    hide Setting, InAccord, WantedBy;
  }

  // ---------------------------------------------------------------- rounds

  /** Everybody has a turn in it, in any order and as often as they like. */
  ghost predicate Covers(ws: seq<Writer>, ts: seq<Turn>) {
    forall i :: 0 <= i < |ws| ==> HasTurn(ts, i)
  }

  ghost predicate HasTurn(ts: seq<Turn>, i: nat) {
    exists k :: 0 <= k < |ts| && ts[k].who == i
  }

  ghost predicate Rounds(h: Hash, ws: seq<Writer>, rounds: seq<seq<Turn>>, m: Manifest, fs: Fs)
    decreases |rounds|
  {
    rounds == [] ||
    (&& Played(h, ws, rounds[0], m, fs) && Covers(ws, rounds[0])
     && Rounds(h, ws, rounds[1..], EndManifest(rounds[0], m), EndFiles(rounds[0], fs)))
  }

  function LastManifest(rounds: seq<seq<Turn>>, m: Manifest): Manifest {
    if rounds == [] then m else LastManifest(rounds[1..], EndManifest(rounds[0], m))
  }

  function LastFiles(rounds: seq<seq<Turn>>, fs: Fs): Fs {
    if rounds == [] then fs else LastFiles(rounds[1..], EndFiles(rounds[0], fs))
  }

  /** A round in a tidy world adds to what has been reached, or finds everybody idle. */
  lemma RoundGrows(h: Hash, ws: seq<Writer>, paths: set<FilePath>, ts: seq<Turn>, m: Manifest, fs: Fs)
    requires World(h, ws, paths, m, fs) && Played(h, ws, ts, m, fs) && Tidy(ws, m) && Covers(ws, ts)
    ensures Value(h, ws, paths, EndManifest(ts, m), EndFiles(ts, fs)) > Value(h, ws, paths, m, fs) ||
            (EndManifest(ts, m) == m && EndFiles(ts, fs) == fs && AllIdle(h, ws, m, fs))
  {
    hide World, Tidy, Value, Idle, Everything, Played, EndManifest, EndFiles;
    TurnsGrow(h, ws, paths, ts, m, fs);
    if Value(h, ws, paths, EndManifest(ts, m), EndFiles(ts, fs)) == Value(h, ws, paths, m, fs) {
      forall i | 0 <= i < |ws| ensures Idle(ws[i], m, Everything(h, fs)) {
        assert HasTurn(ts, i);
        var k :| 0 <= k < |ts| && ts[k].who == i;
      }
    }
  }

  /** Where everybody is idle, turns change nothing. */
  lemma {:induction false} IdleTurns(h: Hash, ws: seq<Writer>, paths: set<FilePath>, ts: seq<Turn>, m: Manifest, fs: Fs)
    requires World(h, ws, paths, m, fs) && Played(h, ws, ts, m, fs) && AllIdle(h, ws, m, fs)
    ensures EndManifest(ts, m) == m && EndFiles(ts, fs) == fs
    decreases |ts|
  {
    hide World, Idle, Everything, Plays;
    if ts != [] {
      InRange(h, ws, ts[0], m, fs);
      IdleStays(h, ws, paths, ts[0], m, fs);
      IdleTurns(h, ws, paths, ts[1..], m, fs);
    }
  }

  /** Round after round in a tidy world: everybody is idle in the end, or every round has added
      something. */
  lemma {:induction false} RoundsGrow(h: Hash, ws: seq<Writer>, paths: set<FilePath>, rounds: seq<seq<Turn>>, m: Manifest, fs: Fs)
    requires World(h, ws, paths, m, fs) && Rounds(h, ws, rounds, m, fs) && Tidy(ws, m)
    ensures AllIdle(h, ws, LastManifest(rounds, m), LastFiles(rounds, fs)) ||
            Value(h, ws, paths, LastManifest(rounds, m), LastFiles(rounds, fs)) >= Value(h, ws, paths, m, fs) + |rounds|
    decreases |rounds|
  {
    hide World, Tidy, Value, AllIdle, Played, Covers, EndManifest, EndFiles;
    if rounds != [] {
      var ts, rest := rounds[0], rounds[1..];
      WorldHasWriters(h, ws, paths, m, fs);
      TurnsGrow(h, ws, paths, ts, m, fs);
      RoundGrows(h, ws, paths, ts, m, fs);
      var m', fs' := EndManifest(ts, m), EndFiles(ts, fs);
      RoundsGrow(h, ws, paths, rest, m', fs');
      if AllIdle(h, ws, m', fs') { IdleRounds(h, ws, paths, rest, m', fs'); }
    }
  }

  lemma {:induction false} IdleRounds(h: Hash, ws: seq<Writer>, paths: set<FilePath>, rounds: seq<seq<Turn>>, m: Manifest, fs: Fs)
    requires World(h, ws, paths, m, fs) && Rounds(h, ws, rounds, m, fs) && AllIdle(h, ws, m, fs)
    ensures LastManifest(rounds, m) == m && LastFiles(rounds, fs) == fs
    decreases |rounds|
  {
    hide World, AllIdle, Played, Covers, EndManifest, EndFiles;
    if rounds != [] {
      IdleTurns(h, ws, paths, rounds[0], m, fs);
      IdleRounds(h, ws, paths, rounds[1..], m, fs);
    }
  }

  // ---------------------------------------------------------------- the first round

  lemma TurnKeeps(h: Hash, ws: seq<Writer>, paths: set<FilePath>, t: Turn, m: Manifest, fs: Fs)
    requires World(h, ws, paths, m, fs) && Plays(h, ws, t, m, fs) && |ws| > 0
    ensures World(h, ws, paths, t.now, t.after)
    ensures t.who == 0 || Tidy(ws, m) ==> Tidy(ws, t.now)
  {
    hide World, Move, Tidy, Plays, Everything;
    StillWorld(h, ws, paths, t, m, fs);
    var dirs := TurnMoves(h, ws, paths, t, m, fs);
    if t.who == 0 || Tidy(ws, m) { TidyAfter(ws, t.who, m, Everything(h, fs), dirs, Everything(h, t.after), t.now); }
  }

  /** Once the document has had its turn, its own leftovers are gone for good. */
  lemma {:induction false} TurnsTidy(h: Hash, ws: seq<Writer>, paths: set<FilePath>, ts: seq<Turn>, m: Manifest, fs: Fs)
    requires World(h, ws, paths, m, fs) && Played(h, ws, ts, m, fs) && |ws| > 0
    ensures World(h, ws, paths, EndManifest(ts, m), EndFiles(ts, fs))
    ensures Tidy(ws, m) || HasTurn(ts, 0) ==> Tidy(ws, EndManifest(ts, m))
    decreases |ts|
  {
    hide World, Tidy, Plays;
    if ts != [] {
      var t, rest := ts[0], ts[1..];
      TurnKeeps(h, ws, paths, t, m, fs);
      TurnsTidy(h, ws, paths, rest, t.now, t.after);
      assert EndManifest(ts, m) == EndManifest(rest, t.now) && EndFiles(ts, fs) == EndFiles(rest, t.after);
      if HasTurn(ts, 0) {
        var k :| 0 <= k < |ts| && ts[k].who == 0;
        assert k > 0 ==> rest[k - 1].who == 0;
      }
    }
  }

  // ---------------------------------------------------------------- the theorem

  /** Writers in accord, syncing in rounds while nobody else touches the guest, are done after
      at most three rounds for every path and two more: from then on nobody has anything to do. */
  lemma AllSettle(h: Hash, ws: seq<Writer>, paths: set<FilePath>, rounds: seq<seq<Turn>>, m: Manifest, fs: Fs)
    requires World(h, ws, paths, m, fs) && Rounds(h, ws, rounds, m, fs) && |rounds| >= 3 * |paths| + 2
    ensures AllIdle(h, ws, LastManifest(rounds, m), LastFiles(rounds, fs))
    ensures World(h, ws, paths, LastManifest(rounds, m), LastFiles(rounds, fs))
  {
    hide World, Tidy, Value, AllIdle, Played, Covers, EndManifest, EndFiles;
    WorldHasWriters(h, ws, paths, m, fs);
    RoundsKeep(h, ws, paths, rounds, m, fs);
    var ts, rest := rounds[0], rounds[1..];
    TurnsTidy(h, ws, paths, ts, m, fs);
    DocumentHadTurn(ws, ts);
    var m', fs' := EndManifest(ts, m), EndFiles(ts, fs);
    RoundsGrow(h, ws, paths, rest, m', fs');
    Bounded(h, ws, paths, LastManifest(rest, m'), LastFiles(rest, fs'));
  }

  lemma DocumentHadTurn(ws: seq<Writer>, ts: seq<Turn>)
    requires |ws| > 0 && Covers(ws, ts)
    ensures HasTurn(ts, 0)
  {
  }

  lemma Bounded(h: Hash, ws: seq<Writer>, paths: set<FilePath>, m: Manifest, fs: Fs)
    ensures Value(h, ws, paths, m, fs) <= 3 * |paths|
  {
    hide Potential;
    PotentialBounded(ws, paths, m, Everything(h, fs));
  }

  lemma {:induction false} RoundsKeep(h: Hash, ws: seq<Writer>, paths: set<FilePath>, rounds: seq<seq<Turn>>, m: Manifest, fs: Fs)
    requires World(h, ws, paths, m, fs) && Rounds(h, ws, rounds, m, fs) && |ws| > 0
    ensures World(h, ws, paths, LastManifest(rounds, m), LastFiles(rounds, fs))
    decreases |rounds|
  {
    hide World, Tidy, Played, Covers, EndManifest, EndFiles;
    if rounds != [] {
      TurnsTidy(h, ws, paths, rounds[0], m, fs);
      RoundsKeep(h, ws, paths, rounds[1..], EndManifest(rounds[0], m), EndFiles(rounds[0], fs));
    }
  }

  /** Idle is what it says: a sync has an empty plan, whatever order it goes through the
      records in. */
  lemma IdleIsSettled(h: Hash, ws: seq<Writer>, paths: set<FilePath>, i: nat, keys: seq<FilePath>, m: Manifest, fs: Fs)
    requires World(h, ws, paths, m, fs) && i < |ws| && Enumerates(keys, m)
    ensures Settled(h, ws[i].files, keys, ws[i].force, m, fs) <==> Idle(ws[i], m, Everything(h, fs))
  {
    hide Crew, InAccord, Setting, Idle, PlanOf, Everything, OnHold, WantedBy, NoCollisions, C.Quiet;
    var w := ws[i];
    SeenIsEnough(h, w.files, m, keys, fs, w.force);
    Apart(h, w.files, m, fs);
    if Idle(w, m, Everything(h, fs)) { IdleIsQuiet(w, m, keys, Everything(h, fs)); }
    if Settled(h, w.files, keys, w.force, m, fs) { QuietIsIdle(w, m, keys, Everything(h, fs)); }
  }

  // ---------------------------------------------------------------- without accord

  /** Accord is needed wherever a want is granted: two wants of one path that do not exclude
      each other and differ are never both content, so two lists of one operator that disagree
      overwrite each other for ever. */
  lemma QuarrelNeverEnds(ws: seq<Writer>, j: nat, m: Manifest, nodes: Nodes, d: Desired, e: Desired)
    requires j < |ws| && File(e) in EntriesOf(ws[j].files) && SamePlace(e, d) && !Agree(e, d)
    requires SatisfiedBy(ws, m, nodes, d.entry.path, d)
    ensures !Idle(ws[j], m, nodes)
  {
    hide Assess, EntriesOf, SourcesConflict, FateOf, Wants;
    assert !Granted(ws[j], m, nodes, e);
  }
}
