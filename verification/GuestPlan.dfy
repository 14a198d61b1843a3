/** Deciding a sync. From the wanted files, the records of earlier syncs and a probe of the
    guest it derives a list of file operations and the records to keep afterwards. */
module GuestPlan {
  import opened Values

  type Content = seq<Byte>
  type Sha = string

  /** Where a file is in the guest: the segments of its absolute path. */
  type FilePath = seq<string>

  datatype Owner = Owner(uid: nat, gid: nat)
  datatype LocalEdits = KeepEdits | OverwriteEdits
  datatype Entry = Entry(name: string, path: FilePath, mode: nat, owner: Owner, localEdits: LocalEdits, source: string)

  /** An entry with the content it wants and its digest. */
  datatype Desired = Desired(entry: Entry, content: Content, sha: Sha)

  datatype Resolved = File(d: Desired) | Absent(name: string) | Invalid(name: string)

  datatype GuestFiles =
    | Nothing
    | Held
    | Entries(entries: seq<Resolved>)
    | Managed(items: seq<Desired>)

  datatype Record = Record(entry: string, path: FilePath, sha: Sha, source: string)
  type Manifest = map<FilePath, Record>

  /** What a probe answers about a path; links are not followed. */
  datatype Node = Missing | Symlink | Dir | Regular(owner: Owner, mode: nat, sha: Sha) | Other
  type Nodes = map<FilePath, Node>

  datatype FileState = Gone | Present(sha: Sha, mode: nat, owner: Owner) | Unsafe

  datatype Action =
    | InSync | Create | Update | Overwrite | KeptLocalEdit | Delete | Forget | Left | Refused
  {
    predicate Writes() {
      this in {Create, Update, Overwrite, Delete}
    }

    /** The file is, or is about to be, what the entry wants. */
    predicate Records() {
      this in {InSync, Create, Update, Overwrite}
    }
  }

  datatype Item = Item(entry: string, path: Option<FilePath>, action: Action)

  /** The precondition a placement carries, tested again when it is carried out. */
  datatype Expect = ExpectMissing | ExpectSha(sha: Sha) | ExpectAny

  datatype Op =
    | Place(path: FilePath, content: Content, mode: nat, owner: Owner, expects: Expect)
    | RemoveFile(path: FilePath, sha: Sha)

  datatype Plan = Plan(items: seq<Item>, ops: seq<Op>, dirs: set<FilePath>, manifest: Manifest)
  {
    predicate Changes(was: Manifest) {
      ops != [] || manifest != was
    }
  }

  const ETC: FilePath := ["etc"]
  const GUEST_ROOT: FilePath := ["etc", "pve-meta"]
  const MANIFEST: FilePath := ["etc", "pve-meta", ".guest-files"]

  // ---------------------------------------------------------------- sources

  /** What comes before the first `/`. */
  function UpToSlash(s: string): string {
    if s == "" || s[0] == '/' then "" else [s[0]] + UpToSlash(s[1..])
  }

  /** Which operator a source belongs to, if it is an operator's: the segment after `managed/`. */
  function ManagedOperator(source: string): Option<string> {
    if "managed/" <= source then Some(UpToSlash(source[8..])) else None
  }

  predicate IsManaged(source: string) {
    "managed/" <= source
  }

  /** Different sources of different writers: one of them may not take over the other's path. */
  predicate SourcesConflict(a: string, b: string) {
    a != b && ManagedOperator(a) != ManagedOperator(b)
  }

  // ---------------------------------------------------------------- what is there

  function NodeAt(nodes: Nodes, p: FilePath): Node {
    if p in nodes then nodes[p] else Missing
  }

  predicate InTheWay(n: Node) {
    n.Symlink? || n.Regular? || n.Other?
  }

  /** Walks down to a file: the first directory that is missing or no directory decides, or
      else what is found in the file's own place. */
  function AssessFrom(p: FilePath, nodes: Nodes, depth: nat): FileState
    requires 0 < depth <= |p|
    decreases |p| - depth
  {
    var n := NodeAt(nodes, p[..depth]);
    if depth < |p| then
      if InTheWay(n) then Unsafe
      else if n.Missing? then Gone
      else AssessFrom(p, nodes, depth + 1)
    else match n
      case Missing => Gone
      case Regular(owner, mode, sha) => Present(sha, mode, owner)
      case _ => Unsafe
  }

  function Assess(p: FilePath, nodes: Nodes): FileState {
    if p == [] then Unsafe else AssessFrom(p, nodes, 1)
  }

  function Directories(p: FilePath): set<FilePath> {
    set i | 0 < i < |p| :: p[..i]
  }

  // ---------------------------------------------------------------- one entry

  datatype Decision = Decision(action: Action, expects: Option<Expect>)

  function RecordOf(d: Desired): Record {
    Record(d.entry.name, d.entry.path, d.sha, d.entry.source)
  }

  function Recorded(m: Manifest, p: FilePath): Option<Record> {
    if p in m then Some(m[p]) else None
  }

  predicate Conflicted(was: Manifest, d: Desired) {
    d.entry.path in was && SourcesConflict(d.entry.source, was[d.entry.path].source)
  }

  /** What to do about one wanted file. */
  function Decide(was: Manifest, nodes: Nodes, force: bool, d: Desired): Decision {
    var e := d.entry;
    if Conflicted(was, d) then Decision(Refused, None)
    else match Assess(e.path, nodes)
      case Unsafe => Decision(Refused, None)
      case Gone => Decision(Create, Some(ExpectMissing))
      case Present(sha, mode, owner) =>
        if sha == d.sha && mode == e.mode && owner == e.owner then Decision(InSync, None)
        else if e.path in was && was[e.path].sha == sha then Decision(Update, Some(ExpectSha(sha)))
        else if e.localEdits.OverwriteEdits? || force then Decision(Overwrite, Some(ExpectSha(sha)))
        else Decision(KeptLocalEdit, None)
  }

  function SetRecord(m: Manifest, p: FilePath, r: Option<Record>): Manifest {
    if r.Some? then m[p := r.value] else m
  }

  /** One turn of the loop over the entries. */
  function TakeEntry(was: Manifest, nodes: Nodes, force: bool, p: Plan, r: Resolved): Plan {
    match r
    case Absent(_) => p
    case Invalid(name) => p.(items := p.items + [Item(name, None, Refused)])
    case File(d) =>
      var e := d.entry;
      var c := Decide(was, nodes, force, d);
      Plan(
        p.items + [Item(e.name, Some(e.path), c.action)],
        if c.expects.Some? then p.ops + [Place(e.path, d.content, e.mode, e.owner, c.expects.value)] else p.ops,
        if c.action.Create? then p.dirs + (set q | q in Directories(e.path) && !NodeAt(nodes, q).Dir?) else p.dirs,
        SetRecord(p.manifest, e.path, if c.action.Records() then Some(RecordOf(d)) else Recorded(was, e.path)))
  }

  function TakeEntries(was: Manifest, nodes: Nodes, force: bool, entries: seq<Resolved>, n: nat): Plan
    requires n <= |entries|
  {
    if n == 0 then Plan([], [], {}, map[])
    else TakeEntry(was, nodes, force, TakeEntries(was, nodes, force, entries, n - 1), entries[n - 1])
  }

  // ---------------------------------------------------------------- one record nobody wants

  function EntriesOf(files: GuestFiles): seq<Resolved> {
    match files
    case Entries(entries) => entries
    case Managed(items) => seq(|items|, i requires 0 <= i < |items| => File(items[i]))
    case _ => []
  }

  predicate Wants(entries: seq<Resolved>, p: FilePath) {
    exists i :: 0 <= i < |entries| && entries[i].File? && entries[i].d.entry.path == p
  }

  /** The entry is there and not valid: what it wrote before is held. */
  predicate HoldsBack(entries: seq<Resolved>, name: string) {
    exists i :: 0 <= i < |entries| && entries[i].Invalid? && entries[i].name == name
  }

  /** Only the document collects, and only its own files. */
  predicate DeletionOwner(files: GuestFiles, source: string) {
    !files.Managed? && !IsManaged(source)
  }

  datatype Fate = Forgotten | Stays | Deleted | LeftAlone

  /** What becomes of a record whose path no entry wants. */
  function FateOf(files: GuestFiles, nodes: Nodes, r: Record, p: FilePath): Fate {
    var state := Assess(p, nodes);
    if state.Gone? then Forgotten
    else if !DeletionOwner(files, r.source) || HoldsBack(EntriesOf(files), r.entry) then Stays
    else if state.Present? && state.sha == r.sha then Deleted
    else LeftAlone
  }

  /** One turn of the loop over the records. */
  function TakeRecord(files: GuestFiles, was: Manifest, nodes: Nodes, p: Plan, path: FilePath): Plan
    requires path in was
  {
    var r := was[path];
    if Wants(EntriesOf(files), path) then p
    else match FateOf(files, nodes, r, path)
      case Forgotten => p.(items := p.items + [Item(r.entry, Some(path), Forget)])
      case Stays => p.(manifest := p.manifest[path := r])
      case Deleted => p.(items := p.items + [Item(r.entry, Some(path), Delete)],
                         ops := p.ops + [RemoveFile(path, r.sha)])
      case LeftAlone => p.(items := p.items + [Item(r.entry, Some(path), Left)])
  }

  function TakeRecords(files: GuestFiles, was: Manifest, nodes: Nodes, p: Plan, keys: seq<FilePath>, n: nat): Plan
    requires n <= |keys| && forall i :: 0 <= i < |keys| ==> keys[i] in was
  {
    if n == 0 then p
    else TakeRecord(files, was, nodes, TakeRecords(files, was, nodes, p, keys, n - 1), keys[n - 1])
  }

  // ---------------------------------------------------------------- the plan

  /** Nothing is planned while the document is held, or while something stands where the
      manifest's directories should be. */
  predicate OnHold(files: GuestFiles, nodes: Nodes) {
    files.Held? || InTheWay(NodeAt(nodes, ETC)) || InTheWay(NodeAt(nodes, GUEST_ROOT))
  }

  /** `keys` lists the manifest's paths, each once, in the order they are gone through. */
  ghost predicate Enumerates(keys: seq<FilePath>, m: Manifest) {
    && (forall i :: 0 <= i < |keys| ==> keys[i] in m)
    && (forall p :: p in m ==> p in keys)
    && (forall i, j :: 0 <= i < j < |keys| ==> keys[i] != keys[j])
  }

  function AllRefused(was: Manifest, keys: seq<FilePath>): seq<Item>
    requires forall i :: 0 <= i < |keys| ==> keys[i] in was
  {
    seq(|keys|, i requires 0 <= i < |keys| => Item(was[keys[i]].entry, Some(keys[i]), Refused))
  }

  /** Both loops and the directory of the manifest. */
  function PlanOf(files: GuestFiles, was: Manifest, keys: seq<FilePath>, nodes: Nodes, force: bool): Plan
    requires forall i :: 0 <= i < |keys| ==> keys[i] in was
  {
    if OnHold(files, nodes) then Plan(AllRefused(was, keys), [], {}, was)
    else
      var entries := EntriesOf(files);
      var p := TakeRecords(files, was, nodes, TakeEntries(was, nodes, force, entries, |entries|), keys, |keys|);
      if p.Changes(was) && !NodeAt(nodes, GUEST_ROOT).Dir? then p.(dirs := p.dirs + {GUEST_ROOT}) else p
  }

  /** The records to write after a commit: as planned, except that an operation which was not
      done leaves its path with whatever record it had. */
  function ManifestAfter(was: Manifest, p: Plan, done: seq<bool>): Manifest {
    UndoFirst(was, p.manifest, p.ops, done, if |done| < |p.ops| then |done| else |p.ops|)
  }

  function UndoFirst(was: Manifest, m: Manifest, ops: seq<Op>, done: seq<bool>, n: nat): Manifest
    requires n <= |ops| && n <= |done|
  {
    if n == 0 then m
    else
      var before := UndoFirst(was, m, ops, done, n - 1);
      var path := ops[n - 1].path;
      if done[n - 1] then before
      else if path in was then before[path := was[path]]
      else before - {path}
  }
}
