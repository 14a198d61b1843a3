/** The store: guest documents and their snapshots as files of one directory.
    Source: crates/pve-meta-core/src/store.rs. */
module Store {
  import opened Values
  import opened Decimals
  import opened Text
  import opened StoreNames
  import Sorting

  /** The directory's files, by name. */
  type Files = map<string, string>

  const MAX_BYTES: nat := 524288

  /** What the store takes from outside: the digest of a text, whether the YAML reader can
      read it, and whether the lint has nothing against what it read. */
  datatype Rules = Rules(digest: string -> string, parses: string -> bool, clean: string -> bool) {
    predicate Accepts(text: string) { parses(text) && clean(text) }
  }

  /** `normalize_trailing_newline`. */
  function Normalized(text: string): string {
    TrimEndOf(text, '\n') + "\n"
  }

  /** The text with exactly one newline where its final ones were, if it had any. */
  ghost predicate EndsOnce(text: string, stored: string) {
    exists n: nat :: n <= |text| && AllNewlines(text[n..]) && (n > 0 ==> text[n - 1] != '\n') && stored == text[..n] + "\n"
  }

  predicate AllNewlines(s: string) {
    forall i :: 0 <= i < |s| ==> s[i] == '\n'
  }

  /** Normalizing gives that text and no other. */
  lemma NormalizedIff(text: string)
    ensures forall stored :: EndsOnce(text, stored) <==> stored == Normalized(text)
  {
    var t := TrimEndOf(text, '\n');
    TrimmedNewlines(text);
    forall stored | EndsOnce(text, stored) ensures stored == Normalized(text) {
      var n: nat :| n <= |text| && AllNewlines(text[n..]) && (n > 0 ==> text[n - 1] != '\n') && stored == text[..n] + "\n";
      CutIsLater(text, n, |t|);
      CutIsLater(text, |t|, n);
    }
    assert text[..|t|] == t;
  }

  lemma CutIsLater(text: string, n: nat, m: nat)
    requires n <= |text| && m <= |text| && AllNewlines(text[n..])
    requires m > 0 ==> text[m - 1] != '\n'
    ensures m <= n
  {
    assert forall i :: n <= i < |text| ==> text[i] == text[n..][i - n];
  }

  lemma {:induction false} TrimmedNewlines(text: string)
    ensures AllNewlines(text[|TrimEndOf(text, '\n')|..])
  {
    if text != "" && text[|text| - 1] == '\n' {
      var rest := text[..|text| - 1];
      TrimmedNewlines(rest);
      var n := |TrimEndOf(rest, '\n')|;
      assert text[n..] == rest[n..] + ['\n'];
    }
  }

  function Lookup(fs: Files, name: string): Option<string> {
    if name in fs then Some(fs[name]) else None
  }

  function With(fs: Files, name: string, content: Option<string>): (r: Files)
    ensures Lookup(r, name) == content
    ensures forall other :: other != name ==> Lookup(r, other) == Lookup(fs, other)
  {
    if content.Some? then fs[name := content.value] else fs - {name}
  }

  function DocOf(fs: Files, v: nat): Option<string> { Lookup(fs, DocName(v)) }

  function CopyOf(fs: Files, v: nat, name: string): Option<string> { Lookup(fs, SnapName(v, name)) }

  // ---------------------------------------------------------------- operations on the directory

  datatype Op =
    | PutRaw(vmid: nat, text: string, expected: Option<string>)
    | Delete(vmid: nat)
    | Snapshot(vmid: nat, name: string)
    | Rollback(vmid: nat, name: string)
    | DeleteSnapshot(vmid: nat, name: string)
    | Purge(vmid: nat)

  datatype PutResult = Written | DigestMismatch | TooLarge | Refused

  /** `check_digest`: no expectation always holds, and an empty one means "not there". */
  predicate DigestMatches(rules: Rules, current: Option<string>, expected: Option<string>) {
    expected.None? || expected.value == if current.Some? then rules.digest(current.value) else ""
  }

  function PutOutcome(rules: Rules, fs: Files, v: nat, text: string, expected: Option<string>): PutResult {
    if !DigestMatches(rules, DocOf(fs, v), expected) then DigestMismatch
    else if Utf8Length(Normalized(text)) > MAX_BYTES then TooLarge
    else if !rules.Accepts(Normalized(text)) then Refused
    else Written
  }

  /** What an operation leaves of the directory. An invalid snapshot name is refused. */
  ghost function Apply(rules: Rules, fs: Files, op: Op): Files {
    match op
    case PutRaw(v, text, expected) =>
      if PutOutcome(rules, fs, v, text, expected).Written? then With(fs, DocName(v), Some(Normalized(text))) else fs
    case Delete(v) => With(fs, DocName(v), None)
    case Snapshot(v, name) =>
      if ValidSnapshot(name) && DocOf(fs, v).Some? then With(fs, SnapName(v, name), DocOf(fs, v)) else fs
    case Rollback(v, name) => if ValidSnapshot(name) then With(fs, DocName(v), CopyOf(fs, v, name)) else fs
    case DeleteSnapshot(v, name) => if ValidSnapshot(name) then With(fs, SnapName(v, name), None) else fs
    case Purge(v) => map file | file in fs && !Owns(v, file) :: fs[file]
  }

  ghost function ApplyAll(rules: Rules, fs: Files, ops: seq<Op>): Files
    decreases |ops|
  {
    if ops == [] then fs else ApplyAll(rules, Apply(rules, fs, ops[0]), ops[1..])
  }

  // ---------------------------------------------------------------- the store itself

  datatype RollbackOutcome = Restored | RemovedNoSnapshot | NoOp | InvalidName

  class MetaStore {
    var files: Files
    const rules: Rules

    constructor (rules: Rules)
      ensures files == map[] && this.rules == rules
    {
      this.rules := rules;
      files := map[];
    }

    method PutRaw(v: nat, text: string, expected: Option<string>) returns (r: PutResult)
      modifies this
      ensures r == PutOutcome(rules, old(files), v, text, expected)
      ensures files == Apply(rules, old(files), Op.PutRaw(v, text, expected))
      ensures r.DigestMismatch? <==>
                expected.Some? && expected.value != if DocName(v) in old(files) then rules.digest(old(files)[DocName(v)]) else ""
      ensures !r.Written? ==> files == old(files)
      ensures r.Written? ==>
                && DocName(v) in files && files == old(files)[DocName(v) := files[DocName(v)]]
                && EndsOnce(text, files[DocName(v)])
                && Utf8Length(files[DocName(v)]) <= 512 * 1024
                && rules.parses(files[DocName(v)]) && rules.clean(files[DocName(v)])
      ensures r.TooLarge? ==> forall stored :: EndsOnce(text, stored) ==> Utf8Length(stored) > 512 * 1024
      ensures r.Refused? ==> forall stored :: EndsOnce(text, stored) ==> !(rules.parses(stored) && rules.clean(stored))
    {
      hide DocName, Owns, Utf8Length, Normalized, EndsOnce;
      NormalizedIff(text);
      var current := DocOf(files, v);
      var actual := if current.Some? then rules.digest(current.value) else "";
      if expected.Some? && actual != expected.value { return DigestMismatch; }
      var normalized := Normalized(text);
      if Utf8Length(normalized) > MAX_BYTES { return TooLarge; }
      if !rules.Accepts(normalized) { return Refused; }
      files := files[DocName(v) := normalized];
      return Written;
    }

    method Delete(v: nat) returns (removed: bool)
      modifies this
      ensures removed == DocOf(old(files), v).Some?
      ensures files == old(files) - {DocName(v)}
      ensures files == Apply(rules, old(files), Op.Delete(v))
    {
      hide DocName, Owns;
      removed := DocName(v) in files;
      files := files - {DocName(v)};
    }

    /** Copies the document as it is, or nothing if there is none. */
    method Snapshot(v: nat, name: string) returns (r: Option<bool>)
      modifies this
      ensures r == if ValidSnapshot(name) then Some(DocOf(old(files), v).Some?) else None
      ensures files == Apply(rules, old(files), Op.Snapshot(v, name))
      ensures files == if r == Some(true) then old(files)[SnapName(v, name) := old(files)[DocName(v)]] else old(files)
    {
      hide DocName, SnapName, Owns, ValidSnapshot;
      if !ValidSnapshot(name) { return None; }
      if DocName(v) !in files { return Some(false); }
      files := files[SnapName(v, name) := files[DocName(v)]];
      return Some(true);
    }

    /** Back to the copy, or to no document if there is no copy. */
    method Rollback(v: nat, name: string) returns (r: RollbackOutcome)
      modifies this
      ensures r == if !ValidSnapshot(name) then InvalidName
                   else if CopyOf(old(files), v, name).Some? then Restored
                   else if DocOf(old(files), v).Some? then RemovedNoSnapshot
                   else NoOp
      ensures files == Apply(rules, old(files), Op.Rollback(v, name))
      ensures files == if r.Restored? then old(files)[DocName(v) := old(files)[SnapName(v, name)]]
                       else if r.RemovedNoSnapshot? then old(files) - {DocName(v)}
                       else old(files)
    {
      hide DocName, SnapName, Owns, ValidSnapshot;
      if !ValidSnapshot(name) { return InvalidName; }
      if SnapName(v, name) in files {
        files := files[DocName(v) := files[SnapName(v, name)]];
        return Restored;
      }
      if DocName(v) in files {
        files := files - {DocName(v)};
        return RemovedNoSnapshot;
      }
      assert files - {DocName(v)} == files;
      return NoOp;
    }

    method DeleteSnapshot(v: nat, name: string) returns (r: Option<bool>)
      modifies this
      ensures r == if ValidSnapshot(name) then Some(CopyOf(old(files), v, name).Some?) else None
      ensures files == Apply(rules, old(files), Op.DeleteSnapshot(v, name))
      ensures files == if r == Some(true) then old(files) - {SnapName(v, name)} else old(files)
    {
      hide SnapName, Owns, ValidSnapshot;
      if !ValidSnapshot(name) { return None; }
      r := Some(SnapName(v, name) in files);
      assert SnapName(v, name) !in files ==> files - {SnapName(v, name)} == files;
      files := files - {SnapName(v, name)};
    }

    /** Every name read out of the directory, in whatever order it gives them, sorted. */
    method ListSnapshots(v: nat) returns (out: seq<string>)
      ensures forall name :: name in out <==> exists file :: file in files && ListedName(v, file) == Some(name)
      ensures Sorting.Sorted(Sorting.StrLe, out)
    {
      hide ListedName, Sorting.Sort, Sorting.Sorted, Sorting.StrLe, Sorting.IsOrder;
      out := [];
      var left := files.Keys;
      while left != {}
        invariant left <= files.Keys
        invariant forall name :: name in out <==> exists file :: file in files && file !in left && ListedName(v, file) == Some(name)
        decreases |left|
      {
        var file :| file in left;
        var name := ListedName(v, file);
        if name.Some? { out := out + [name.value]; }
        left := left - {file};
      }
      Sorting.StrIsOrder();
      Sorting.SortSorts(Sorting.StrLe, out);
      forall name ensures name in Sorting.Sort(Sorting.StrLe, out) <==> name in out {
        Sorting.SameMembers(Sorting.StrLe, out, name);
      }
      out := Sorting.Sort(Sorting.StrLe, out);
    }

    /** Deletes the snapshots of these names, and counts the files that were there. */
    method DropAll(v: nat, names: seq<string>) returns (removed: nat)
      requires forall i :: 0 <= i < |names| ==> ValidSnapshot(names[i])
      modifies this
      ensures files == old(files) - Copies(v, names, |names|)
      ensures removed + |files| == |old(files)|
    {
      hide SnapName, ValidSnapshot, Apply, Copies;
      removed := 0;
      NoCopies(files, v, names);
      for i := 0 to |names|
        invariant removed + |files| == |old(files)|
        invariant files == old(files) - Copies(v, names, i)
      {
        SnapshotGone(rules, files, v, names[i]);
        OneMoreCopy(old(files), v, names, i);
        var gone := DeleteSnapshot(v, names[i]);
        if gone == Some(true) { removed := removed + 1; }
      }
    }

    /** The document, and every snapshot the listing names. */
    method Purge(v: nat) returns (removed: nat)
      modifies this
      ensures files == Apply(rules, old(files), Op.Purge(v))
      ensures removed + |files| == |old(files)|
    {
      hide DocName, SnapName, Owns, ValidSnapshot, ListedName, Copies, Apply;
      ghost var before := files;
      DocGone(rules, files, v);
      var had := Delete(v);
      ghost var listed := files;
      var names := ListSnapshots(v);
      AllListedValid(listed, v, names);
      removed := DropAll(v, names);
      if had { removed := removed + 1; }
      PurgedAll(rules, before, listed, files, v, names);
    }
  }

  lemma SnapshotGone(rules: Rules, fs: Files, v: nat, name: string)
    requires ValidSnapshot(name)
    ensures var after := Apply(rules, fs, DeleteSnapshot(v, name));
            after == fs - {SnapName(v, name)} && |after| + (if CopyOf(fs, v, name).Some? then 1 else 0) == |fs|
  {
    hide ValidSnapshot, SnapName;
    OneLess(fs, SnapName(v, name));
  }

  lemma DocGone(rules: Rules, fs: Files, v: nat)
    ensures var after := Apply(rules, fs, Delete(v));
            after == fs - {DocName(v)} && |after| + (if DocOf(fs, v).Some? then 1 else 0) == |fs|
  {
    hide DocName;
    OneLess(fs, DocName(v));
  }

  lemma NoCopies(fs: Files, v: nat, names: seq<string>)
    ensures fs - Copies(v, names, 0) == fs
  {
  }

  lemma OneMoreCopy(fs: Files, v: nat, names: seq<string>, n: nat)
    requires n < |names|
    ensures fs - Copies(v, names, n) - {SnapName(v, names[n])} == fs - Copies(v, names, n + 1)
  {
    hide SnapName;
  }

  function Copies(v: nat, names: seq<string>, n: nat): (r: set<string>)
    requires n <= |names|
    ensures forall file :: file in r <==> exists k :: 0 <= k < n && file == SnapName(v, names[k])
  {
    if n == 0 then {} else Copies(v, names, n - 1) + {SnapName(v, names[n - 1])}
  }

  lemma OneLess(fs: Files, name: string)
    ensures |fs - {name}| + (if name in fs then 1 else 0) == |fs|
  {
    if name in fs {
      assert fs.Keys == (fs - {name}).Keys + {name};
    } else {
      assert fs - {name} == fs;
    }
  }

  predicate Listing(fs: Files, v: nat, names: seq<string>) {
    && (forall file :: file in fs && ListedName(v, file).Some? ==> ListedName(v, file).value in names)
    && (forall i :: 0 <= i < |names| ==> ValidSnapshot(names[i]))
  }

  lemma AllListedValid(fs: Files, v: nat, names: seq<string>)
    requires forall name :: name in names <==> exists file :: file in fs && ListedName(v, file) == Some(name)
    ensures Listing(fs, v, names)
  {
    hide ListedName, ValidSnapshot;
    forall i | 0 <= i < |names| ensures ValidSnapshot(names[i]) {
      assert names[i] in names;
      var file :| file in fs && ListedName(v, file) == Some(names[i]);
      ListedIsValid(v, file);
    }
  }

  lemma ListedIsValid(v: nat, file: string)
    ensures ListedName(v, file).Some? ==> ValidSnapshot(ListedName(v, file).value)
  {
    hide ValidSnapshot, SplitLast, FromExt;
  }

  /** Deleting by listing leaves exactly what is not the guest's. */
  lemma PurgedAll(rules: Rules, before: Files, listed: Files, after: Files, v: nat, names: seq<string>)
    requires listed == before - {DocName(v)} && Listing(listed, v, names)
    requires after == listed - Copies(v, names, |names|)
    ensures after == Apply(rules, before, Purge(v))
  {
    hide DocName, SnapName, ValidSnapshot, ListedName;
    forall file | file in before ensures file in after <==> !Owns(v, file) {
      if file != DocName(v) && Owns(v, file) {
        var name :| ValidSnapshot(name) && file == SnapName(v, name);
        SnapshotIsListed(v, name);
        var k :| 0 <= k < |names| && names[k] == name;
      }
    }
  }

  // ---------------------------------------------------------------- writers who expect a digest

  /** The operation leaves the document of `v` alone, unless it is another one's or a copy's. */
  predicate LeavesDoc(op: Op, v: nat) {
    op.vmid != v || op.Snapshot? || op.DeleteSnapshot?
  }

  lemma {:induction false} DocStays(rules: Rules, fs: Files, ops: seq<Op>, v: nat)
    requires forall i :: 0 <= i < |ops| ==> LeavesDoc(ops[i], v)
    ensures DocOf(ApplyAll(rules, fs, ops), v) == DocOf(fs, v)
    decreases |ops|
  {
    hide Apply, DocOf, LeavesDoc;
    if ops != [] {
      DocStaysOnce(rules, fs, ops[0], v);
      DocStays(rules, Apply(rules, fs, ops[0]), ops[1..], v);
    }
  }

  lemma DocStaysOnce(rules: Rules, fs: Files, op: Op, v: nat)
    requires LeavesDoc(op, v)
    ensures DocOf(Apply(rules, fs, op), v) == DocOf(fs, v)
  {
    hide Apply, DocName, SnapName, Owns, ValidSnapshot;
    if op.vmid != v {
      OthersLeaveIt(rules, fs, op, v);
      OwnCopy(v, "");
    } else {
      NamesDisjoint(v, v, op.name);
      CopyOpsLeaveDoc(rules, fs, op, v);
    }
  }

  lemma CopyOpsLeaveDoc(rules: Rules, fs: Files, op: Op, v: nat)
    requires op.vmid == v && (op.Snapshot? || op.DeleteSnapshot?) && DocName(v) != SnapName(v, op.name)
    ensures DocOf(Apply(rules, fs, op), v) == DocOf(fs, v)
  {
    hide DocName, SnapName, Owns, ValidSnapshot;
  }

  /** Of two writers who both expect the document as they read it, with nobody writing it in
      between, the second is refused exactly when the first changed its digest: no edit is
      overwritten unseen. */
  lemma LateWriterRefused(rules: Rules, fs: Files, v: nat, first: string, between: seq<Op>, second: string, read: string)
    requires PutOutcome(rules, fs, v, first, Some(read)).Written?
    requires forall i :: 0 <= i < |between| ==> LeavesDoc(between[i], v)
    ensures var later := ApplyAll(rules, Apply(rules, fs, PutRaw(v, first, Some(read))), between);
            && PutOutcome(rules, later, v, second, Some(read)).DigestMismatch? <==>
                 rules.digest(Normalized(first)) != read
  {
    hide DocName, Owns, Utf8Length, Normalized, ApplyAll;
    DocStays(rules, Apply(rules, fs, PutRaw(v, first, Some(read))), between, v);
  }

  /** An accepted write replaces the very text its writer read, whatever ran in between, as
      long as different texts have different digests and none has the empty one. */
  lemma ReplacesWhatWasRead(rules: Rules, fs: Files, ops: seq<Op>, v: nat, text: string)
    requires forall a, b :: rules.digest(a) == rules.digest(b) ==> a == b
    requires forall a :: rules.digest(a) != ""
    ensures var read, later := DocOf(fs, v), ApplyAll(rules, fs, ops);
            var expected := if read.Some? then rules.digest(read.value) else "";
            PutOutcome(rules, later, v, text, Some(expected)).DigestMismatch? <==> DocOf(later, v) != read
  {
    hide DocOf, Utf8Length, Normalized, ApplyAll;
  }

  // ---------------------------------------------------------------- rolling back

  /** The operation is not about this one copy. */
  predicate LeavesCopy(op: Op, v: nat, name: string) {
    op != Snapshot(v, name) && op != DeleteSnapshot(v, name) && op != Purge(v)
  }

  lemma CopyStays(rules: Rules, fs: Files, op: Op, v: nat, name: string)
    requires LeavesCopy(op, v, name) && ValidSnapshot(name)
    ensures CopyOf(Apply(rules, fs, op), v, name) == CopyOf(fs, v, name)
  {
    hide DocName, SnapName, ValidSnapshot, PutOutcome, Owns;
    NamesDisjoint(op.vmid, v, name);
    if op.Snapshot? || op.DeleteSnapshot? {
      NamesInjective(op.vmid, op.name, v, name);
    } else if op.Purge? {
      OwnCopy(v, name);
      if Owns(op.vmid, SnapName(v, name)) { OwnsOne(op.vmid, v, SnapName(v, name)); }
    }
  }

  lemma OwnCopy(v: nat, name: string)
    ensures Owns(v, DocName(v)) && (ValidSnapshot(name) ==> Owns(v, SnapName(v, name)))
  {
  }

  lemma {:induction false} CopyKept(rules: Rules, fs: Files, ops: seq<Op>, v: nat, name: string)
    requires ValidSnapshot(name) && forall i :: 0 <= i < |ops| ==> LeavesCopy(ops[i], v, name)
    ensures CopyOf(ApplyAll(rules, fs, ops), v, name) == CopyOf(fs, v, name)
    decreases |ops|
  {
    hide Apply, CopyOf, ValidSnapshot, LeavesCopy;
    if ops != [] {
      CopyStays(rules, fs, ops[0], v, name);
      CopyKept(rules, Apply(rules, fs, ops[0]), ops[1..], v, name);
    }
  }

  /** A snapshot, then anything that leaves that copy alone, then a rollback: the document
      is again what it was, bytes or absence, exactly if there was a document to copy or no
      older copy of that name to be mistaken for one. */
  lemma RollbackRestoresIff(rules: Rules, fs: Files, ops: seq<Op>, v: nat, name: string)
    requires ValidSnapshot(name) && forall i :: 0 <= i < |ops| ==> LeavesCopy(ops[i], v, name)
    ensures var later := ApplyAll(rules, Apply(rules, fs, Snapshot(v, name)), ops);
            DocOf(Apply(rules, later, Rollback(v, name)), v) == DocOf(fs, v)
            <==> DocOf(fs, v).Some? || CopyOf(fs, v, name).None?
  {
    hide ApplyAll, DocName, SnapName, ValidSnapshot, LeavesCopy, Owns;
    CopyKept(rules, Apply(rules, fs, Snapshot(v, name)), ops, v, name);
  }

  // ---------------------------------------------------------------- guests apart

  /** Two directories hold the same files of guest `v`. */
  ghost predicate SameFor(v: nat, a: Files, b: Files) {
    forall file :: Owns(v, file) ==> Lookup(a, file) == Lookup(b, file)
  }

  /** An operation on another guest does not touch `v`'s files... */
  lemma OthersLeaveIt(rules: Rules, fs: Files, op: Op, v: nat)
    requires op.vmid != v
    ensures SameFor(v, fs, Apply(rules, fs, op))
  {
    hide DocName, SnapName, ValidSnapshot, PutOutcome, Owns;
    forall file | Owns(v, file) ensures Lookup(fs, file) == Lookup(Apply(rules, fs, op), file) {
      if Owns(op.vmid, file) { OwnsOne(op.vmid, v, file); }
      OwnCopy(op.vmid, if op.Snapshot? || op.Rollback? || op.DeleteSnapshot? then op.name else "");
    }
  }

  /** ...and one on `v` does to them what it does whatever else there is. */
  lemma OwnFilesDecide(rules: Rules, a: Files, b: Files, op: Op, v: nat)
    requires op.vmid == v && SameFor(v, a, b)
    ensures SameFor(v, Apply(rules, a, op), Apply(rules, b, op))
  {
    hide DocName, SnapName, ValidSnapshot, Owns, Utf8Length, Normalized;
    OwnCopy(v, if op.Snapshot? || op.Rollback? || op.DeleteSnapshot? then op.name else "");
    assert DocOf(a, v) == DocOf(b, v);
  }

  /** The operations of a run that are on `v`. */
  function Only(ops: seq<Op>, v: nat): seq<Op> {
    if ops == [] then [] else (if ops[0].vmid == v then [ops[0]] else []) + Only(ops[1..], v)
  }

  lemma SameForAcross(v: nat, a: Files, b: Files, c: Files)
    requires SameFor(v, a, b) && SameFor(v, b, c)
    ensures SameFor(v, a, c)
  {
    hide Owns, Lookup;
  }

  lemma {:induction false} NonInterferenceFrom(rules: Rules, a: Files, b: Files, ops: seq<Op>, v: nat)
    requires SameFor(v, a, b)
    ensures SameFor(v, ApplyAll(rules, a, ops), ApplyAll(rules, b, Only(ops, v)))
    decreases |ops|
  {
    hide Apply, SameFor;
    if ops != [] {
      var op, rest := ops[0], ops[1..];
      if op.vmid == v {
        OwnFilesDecide(rules, a, b, op, v);
        NonInterferenceFrom(rules, Apply(rules, a, op), Apply(rules, b, op), rest, v);
        assert Only(ops, v)[1..] == Only(rest, v);
      } else {
        OthersLeaveIt(rules, a, op, v);
        SameForBack(v, a, Apply(rules, a, op));
        SameForAcross(v, Apply(rules, a, op), a, b);
        NonInterferenceFrom(rules, Apply(rules, a, op), b, rest, v);
        assert Only(ops, v) == Only(rest, v);
      }
    }
  }

  lemma SameForBack(v: nat, a: Files, b: Files)
    requires SameFor(v, a, b)
    ensures SameFor(v, b, a)
  {
    hide Owns, Lookup;
  }

  /** Over any run, a guest's files end up as if only its own operations had run. */
  lemma NonInterference(rules: Rules, fs: Files, ops: seq<Op>, v: nat)
    ensures SameFor(v, ApplyAll(rules, fs, ops), ApplyAll(rules, fs, Only(ops, v)))
  {
    NonInterferenceFrom(rules, fs, fs, ops, v);
  }

  // ---------------------------------------------------------------- reached directories

  /** Every file is some guest's, named as the store names it. */
  ghost predicate AllOwned(fs: Files) {
    forall file :: file in fs ==> exists v :: IsVmid(v) && Owns(v, file)
  }

  lemma StaysOwned(rules: Rules, fs: Files, op: Op)
    requires AllOwned(fs) && IsVmid(op.vmid)
    ensures AllOwned(Apply(rules, fs, op))
  {
    hide DocName, SnapName, ValidSnapshot, Owns, PutOutcome, IsVmid;
    var v := op.vmid;
    OwnCopy(v, if op.Snapshot? then op.name else "");
    forall file | file in Apply(rules, fs, op) ensures exists w :: IsVmid(w) && Owns(w, file) {
      if file !in fs { assert IsVmid(v) && Owns(v, file); }
    }
  }

  lemma {:induction false} ReachedOwned(rules: Rules, fs: Files, ops: seq<Op>)
    requires AllOwned(fs) && forall i :: 0 <= i < |ops| ==> IsVmid(ops[i].vmid)
    ensures AllOwned(ApplyAll(rules, fs, ops))
    decreases |ops|
  {
    hide Apply, AllOwned;
    if ops != [] {
      StaysOwned(rules, fs, ops[0]);
      ReachedOwned(rules, Apply(rules, fs, ops[0]), ops[1..]);
    }
  }

  /** In any directory, purging a guest leaves no file that names it exactly when all that name
      it spell its vmid as the store does... */
  lemma PurgeLeavesNoneIff(rules: Rules, fs: Files, v: nat)
    requires IsVmid(v)
    ensures (forall file :: file in Apply(rules, fs, Purge(v)) ==> VmidOfFile(file) != Some(v)) <==>
            (forall file :: file in fs && VmidOfFile(file) == Some(v) ==> Decimal(v) + "." <= file)
  {
    hide VmidOfFile, Owns, Decimal;
    var after := Apply(rules, fs, Purge(v));
    forall file ensures Owns(v, file) <==> VmidOfFile(file) == Some(v) && Decimal(v) + "." <= file { OwnsIff(v, file); }
    forall file | file in fs ensures file in after <==> !Owns(v, file) {}
    if forall file :: file in after ==> VmidOfFile(file) != Some(v) {
      forall file | file in fs && VmidOfFile(file) == Some(v) ensures Decimal(v) + "." <= file {
        assert file !in after;
      }
    }
  }

  /** ...and whatever does not name it stays as it is. */
  lemma PurgeSpares(rules: Rules, fs: Files, v: nat, file: string)
    requires IsVmid(v) && file in fs && VmidOfFile(file) != Some(v)
    ensures file in Apply(rules, fs, Purge(v)) && Apply(rules, fs, Purge(v))[file] == fs[file]
  {
    hide VmidOfFile, Owns, Decimal;
    OwnsIff(v, file);
  }

  /** After any run from an empty directory, purging a guest leaves no file that names it, and
      every other guest's files as they were. */
  lemma PurgeIsComplete(rules: Rules, ops: seq<Op>, v: nat)
    requires IsVmid(v) && forall i :: 0 <= i < |ops| ==> IsVmid(ops[i].vmid)
    ensures var fs := ApplyAll(rules, map[], ops);
            var after := Apply(rules, fs, Purge(v));
            && (forall file :: file in after ==> VmidOfFile(file) != Some(v))
            && (forall file :: file in fs && VmidOfFile(file) != Some(v) ==> file in after && after[file] == fs[file])
  {
    hide ApplyAll, Apply, VmidOfFile, Owns, IsVmid, Decimal;
    ReachedOwned(rules, map[], ops);
    var fs := ApplyAll(rules, map[], ops);
    forall file | file in fs && VmidOfFile(file) == Some(v) ensures Decimal(v) + "." <= file {
      var w :| IsVmid(w) && Owns(w, file);
      OwnsIff(w, file);
    }
    PurgeLeavesNoneIff(rules, fs, v);
    forall file | file in fs && VmidOfFile(file) != Some(v)
      ensures file in Apply(rules, fs, Purge(v)) && Apply(rules, fs, Purge(v))[file] == fs[file]
    {
      PurgeSpares(rules, fs, v, file);
    }
  }
}
