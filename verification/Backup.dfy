/** A document carried through a backup: exported into the notes, imported from them.
    Source: crates/pve-meta-core/src/backup.rs. */
module Backup {
  import opened Values
  import opened Text
  import opened StoreNames
  import opened Store
  import CivilDate
  import N = NotesBlock
  import P = NotesProgram
  import B = BlockRoundTrip
  import S = BlockStrip

  datatype Mode = Restore | Install

  datatype Action = NoneFound | Imported | Stripped

  /** What an import answers: an error that leaves everything as it is, or what was done and
      the notes to write, if they change. */
  datatype Answer = Failed | Did(action: Action, notes: Option<string>)

  datatype Export = NothingStored | Unreadable | TooBig | Carried(block: string)

  /** `export`. */
  function ExportOf(rules: Rules, fs: Files, v: nat, now: CivilDate.u64): Export {
    match DocOf(fs, v)
    case None => NothingStored
    case Some(raw) =>
      if !rules.parses(raw) then Unreadable
      else match N.Render(v, raw, rules.digest(raw), CivilDate.Rfc3339Utc(now))
        case None => TooBig
        case Some(block) => Carried(block)
  }

  /** What is left of notes once the search finds no more. */
  function Bare(notes: string): string
    requires N.FindIn(notes).Block?
  {
    S.StripShortens(notes);
    S.StripAll(N.Strip(notes, N.FindIn(notes).found))
  }

  function ImportAnswer(rules: Rules, fs: Files, v: nat, notes: string, mode: Mode): Answer {
    match N.FindIn(notes)
    case NoBlock => Did(NoneFound, None)
    case Malformed => Failed
    case Block(f) =>
      if mode.Install? && DocOf(fs, v).Some? then Did(Stripped, Some(Bare(notes)))
      else if PutOutcome(rules, fs, v, f.yaml + "\n", None).Written? then Did(Imported, Some(Bare(notes)))
      else Failed
  }

  /** A restored guest has the document of its backup and no snapshots; at install only the
      document is written. */
  ghost function ImportLeaves(rules: Rules, fs: Files, v: nat, notes: string, mode: Mode): Files {
    if ImportAnswer(rules, fs, v, notes, mode) == Failed || ImportAnswer(rules, fs, v, notes, mode).action != Imported
    then fs
    else
      var f := N.FindIn(notes).found;
      With(if mode.Restore? then Apply(rules, fs, Purge(v)) else fs, DocName(v), Some(Normalized(f.yaml + "\n")))
  }

  /** A document is carried when it can be read and is not too large without its final
      newlines; the block then says whose it is, when it was taken, and the digest of the whole
      text. */
  lemma ExportMeans(rules: Rules, fs: Files, v: nat, now: CivilDate.u64)
    ensures ExportOf(rules, fs, v, now).NothingStored? <==> DocName(v) !in fs
    ensures ExportOf(rules, fs, v, now).Unreadable? <==> DocName(v) in fs && !rules.parses(fs[DocName(v)])
    ensures ExportOf(rules, fs, v, now).Carried? <==>
              DocName(v) in fs && rules.parses(fs[DocName(v)]) && Utf8Length(TrimEndOf(fs[DocName(v)], '\n')) <= 16 * 1024
    ensures ExportOf(rules, fs, v, now).Carried? ==>
              ExportOf(rules, fs, v, now).block
              == Unlines(N.BlockLines(v, TrimEndOf(fs[DocName(v)], '\n'), rules.digest(fs[DocName(v)]), CivilDate.Rfc3339Utc(now)))
  {
    hide N.Render, CivilDate.Rfc3339Utc, DocName, Utf8Length, Unlines, N.BlockLines;
    if DocName(v) in fs {
      B.RenderedLines(v, fs[DocName(v)], rules.digest(fs[DocName(v)]), CivilDate.Rfc3339Utc(now));
    }
  }

  /** The notes to write hold no block that could be read. */
  ghost predicate NoBlockLeft(notes: Option<string>) {
    notes.Some? && !N.FindIn(notes.value).Block?
  }

  /** The store takes the text: as it ends once, it is within the limit, parses and is clean. */
  ghost predicate Storable(rules: Rules, text: string) {
    exists stored :: EndsOnce(text, stored)
      && Utf8Length(stored) <= 512 * 1024 && rules.parses(stored) && rules.clean(stored)
  }

  /** The text is the guest's document now. An install changed nothing else; a restore left
      the guest no other file, and other files as they were. */
  ghost predicate Placed(before: Files, after: Files, v: nat, text: string, mode: Mode) {
    && DocName(v) in after && EndsOnce(text, after[DocName(v)])
    && forall file :: file != DocName(v) ==>
         Lookup(after, file) == if mode.Restore? && Owns(v, file) then None else Lookup(before, file)
  }

  /** What an import does, by what is in the notes and in the store. Without a block that can
      be read, and when the store does not take its text, nothing changes. At install a
      document that is there stays, and its guest's notes are stripped. Otherwise the text of
      the block is stored. */
  ghost predicate ImportDoes(rules: Rules, before: Files, after: Files, v: nat, notes: string, mode: Mode, r: Answer) {
    match N.FindIn(notes)
    case NoBlock => r == Did(NoneFound, None) && after == before
    case Malformed => r == Failed && after == before
    case Block(f) =>
      if mode.Install? && DocName(v) in before
      then r.Did? && r.action.Stripped? && NoBlockLeft(r.notes) && after == before
      else if Storable(rules, f.yaml + "\n")
      then r.Did? && r.action.Imported? && NoBlockLeft(r.notes) && Placed(before, after, v, f.yaml + "\n", mode)
      else r == Failed && after == before
  }

  lemma ImportMeans(rules: Rules, fs: Files, v: nat, notes: string, mode: Mode)
    ensures ImportDoes(rules, fs, ImportLeaves(rules, fs, v, notes, mode), v, notes, mode, ImportAnswer(rules, fs, v, notes, mode))
  {
    hide N.FindIn, N.Strip, S.StripAll, DocName, Owns, EndsOnce, Utf8Length, Normalized, Placed;
    if N.FindIn(notes).Block? {
      var f := N.FindIn(notes).found;
      S.StripShortens(notes);
      S.StripAllEnds(N.Strip(notes, f));
      NormalizedIff(f.yaml + "\n");
      TextPlaced(rules, fs, v, f.yaml + "\n", mode);
    }
  }

  lemma TextPlaced(rules: Rules, fs: Files, v: nat, text: string, mode: Mode)
    ensures var others := if mode.Restore? then Apply(rules, fs, Purge(v)) else fs;
            Placed(fs, With(others, DocName(v), Some(Normalized(text))), v, text, mode)
  {
    hide DocName, Owns, EndsOnce, Normalized;
    NormalizedIff(text);
  }

  /** `import`. */
  method Import(store: MetaStore, v: nat, notes: string, mode: Mode) returns (r: Answer)
    modifies store
    ensures r == ImportAnswer(store.rules, old(store.files), v, notes, mode)
    ensures store.files == ImportLeaves(store.rules, old(store.files), v, notes, mode)
    ensures ImportDoes(store.rules, old(store.files), store.files, v, notes, mode, r)
  {
    hide ImportDoes, N.FindIn, N.Strip, P.StripBytes, DocName, SnapName, Owns, ListedName, ValidSnapshot, PutOutcome, Normalized, Copies, S.StripAll;
    ghost var before := store.files;
    ImportMeans(store.rules, before, v, notes, mode);
    var found := P.Find(notes);
    if found.NoBlock? { return Did(NoneFound, None); }
    if found.Malformed? { return Failed; }
    S.StripShortens(notes);
    P.StripsTheSame(notes, N.FindIn(notes).found);
    var stripped := P.StripAllBlocks(P.StripBytes(notes, found.found));
    if mode.Install? && DocOf(store.files, v).Some? {
      return Did(Stripped, Some(stripped));
    }
    var written := store.PutRaw(v, found.found.yaml + "\n", None);
    if !written.Written? { return Failed; }
    if mode.Restore? {
      ghost var put := store.files;
      var names := store.ListSnapshots(v);
      AllListedValid(put, v, names);
      var dropped := store.DropAll(v, names);
      CopiesGone(store.rules, before, put, store.files, v, names, Normalized(found.found.yaml + "\n"));
    }
    return Did(Imported, Some(stripped));
  }

  /** Writing the document and then deleting the listed copies is purging and then writing. */
  lemma CopiesGone(rules: Rules, before: Files, put: Files, after: Files, v: nat, names: seq<string>, text: string)
    requires put == before[DocName(v) := text] && Listing(put, v, names)
    requires after == put - Copies(v, names, |names|)
    ensures after == With(Apply(rules, before, Purge(v)), DocName(v), Some(text))
  {
    hide DocName, SnapName, ValidSnapshot, ListedName;
    var gone := before - {DocName(v)};
    assert put - {DocName(v)} == gone;
    assert Listing(gone, v, names);
    PurgedAll(rules, before, gone, gone - Copies(v, names, |names|), v, names);
    assert DocName(v) !in Copies(v, names, |names|) by {
      forall k | 0 <= k < |names| ensures DocName(v) != SnapName(v, names[k]) { NamesDisjoint(v, v, names[k]); }
    }
  }

  // ---------------------------------------------------------------- through a backup and back

  lemma NormalizedBody(text: string)
    ensures TrimEndOf(Normalized(text), '\n') == TrimEndOf(text, '\n')
    ensures Normalized(TrimEndOf(text, '\n') + "\n") == Normalized(text)
    ensures Normalized(Normalized(text)) == Normalized(text)
  {
    var t := TrimEndOf(text, '\n');
    assert (t + "\n")[..|t|] == t;
  }

  /** What `put_raw` stored for one guest and a backup carried is, restored to any guest of
      any store over anything, the same bytes again; the restored guest has no snapshots,
      other guests keep their files, and the notes come back without the block. */
  lemma RestoreGivesBack(rules: Rules, fs: Files, v: nat, text: string, now: CivilDate.u64,
                         to: Files, w: nat, notes: string)
    requires IsVmid(v) && NoSpace(rules.digest(Normalized(text)))
    requires DocOf(fs, v) == Some(Normalized(text)) && PutOutcome(rules, to, w, text, None).Written?
    requires B.Plain(TrimEndOf(text, '\n')) && ExportOf(rules, fs, v, now).Carried?
    ensures var sent := B.Appended(notes, ExportOf(rules, fs, v, now).block);
            var after := ImportLeaves(rules, to, w, sent, Restore);
            && ImportAnswer(rules, to, w, sent, Restore) == Did(Imported, Some(S.StripAll(TrimEnd(notes))))
            && DocOf(after, w) == DocOf(fs, v)
            && (forall name :: ValidSnapshot(name) ==> CopyOf(after, w, name).None?)
            && (forall file :: !Owns(w, file) ==> Lookup(after, file) == Lookup(to, file))
  {
    hide CivilDate.Rfc3339Utc, N.FindIn, N.Render, N.Strip, DocName, SnapName, ValidSnapshot, B.Plain, NoSpace, Utf8Length, TrimEnd, Normalized, S.StripAll, Owns;
    var raw := Normalized(text);
    NormalizedBody(text);
    CivilDate.OneWord(now);
    B.RoundTrip(notes, v, raw, rules.digest(raw), CivilDate.Rfc3339Utc(now));
    OwnCopy(w, "");
    forall name | ValidSnapshot(name) ensures Owns(w, SnapName(w, name)) && SnapName(w, name) != DocName(w) {
      OwnCopy(w, name);
      NamesDisjoint(w, w, name);
    }
  }
}
