# pve-meta: a verified model

pve-meta keeps one metadata document per Proxmox guest, lets declared prefixes with schemas
guard parts of it, places files in guests from it, and carries it through snapshots and
backups. This project models the parts of it where a mistake is hard to see by reading one
function, and proves what they promise together. `dafny verify dfyconfig.toml` checks it all.

## How it is laid out

A document is a `Value`: what the store holds, with maps in insertion order. Its `Meaning` is
a `Tree`, the same document with the order forgotten, so that the source's order-insensitive
`==` is Dafny's equality on trees (`Values.SameIsMeaning`). Code that builds or searches is
functions; code that loops or updates is methods and classes, proved against those functions.

| files | what they hold |
|---|---|
| `Values`, `Touched`, `KeyOrder`, `Verbatim` | documents; what it means for a touched list to be exact; the order of keys; what an edit leaves exactly as it was |
| `Patch`, `Diff`, `View`, `MergePatch` | merge patch, diff, replace, remove; RFC 7386 |
| `Schema`, `Conformance`, `Shape`, `Sorting`, `Prefixes`, `SchemaIndex`, `Pointwise` | the schema dialect, what conforming means, governing prefixes and their order, findings, the schema index |
| `Gate`, `Api` | locality of findings, the write gate, PUT and DELETE |
| `Notes`, `NotesRoundTrip` | taking comment keys out and putting them back |
| `GuestPlan`, `PlanDuties`, `PlanLaws`, `Manifests`, `Sync`, `Convergence`, `Undisturbed`, `Settling`, `Together`, `TogetherRuns` | guest files: plan, compare-and-swap commit, manifest, runs of one and of several writers |
| `Text`, `Decimals`, `CivilDate`, `NotesBlock`, `BlockShape`, `BlockRoundTrip`, `BlockStrip`, `NotesProgram`, `BottomUp`, `EveryBlock`, `Backup` | the notes block, its date, finding and stripping it, export and import |
| `StoreNames`, `Store` | the store as a directory of files |
| `YamlScan`, `Base64`, `CommitScript` | the YAML safety scan; commit scripts and the content inside them |

## What turned out different from what one might expect

- A sync does not always settle in one round even when no recorded path nests with a wanted
  one: deleting the document's file at `/srv` clears the way of an operator's record at
  `/srv/b` (`Settling.NestedRecordsNeedTwo`). `Settling.OneSyncIff` gives the exact
  condition, a deletion above a path the next sync still cares about, and
  `Settling.TwoSyncsAlways` shows that a second sync always suffices.
- Several writers settle together if wants that may both be granted agree
  (`TogetherRuns.AllSettle`); two lists of one operator that want different content at one path
  overwrite each other for ever (`TogetherRuns.QuarrelNeverEnds`).
- A merge never stores a delete marker as a null where maps lead, but it stores lists as they
  come: `{"x": [{"a": null}]}` puts a null into the document (`MergePatch.NullInAList`;
  `MergePatch.CleanIff` is exact).
- The notes round trip holds exactly for documents whose notes are anchored and not inside
  arrays (`NotesRoundTrip.RoundTrip`).
- `strip_all` is documented to remove every well-formed block; a malformed last block hides
  the ones before it, which all stay (`BlockStrip.MalformedHidesEarlier`). Exactly when no
  block is left can be told by reading the lines once from the bottom up
  (`EveryBlock.NoneLeftIff`): a stray end line can close an earlier header, and trimming can
  make a line a header that was none. Notes with only printed blocks in them come out clean
  (`EveryBlock.EveryPrintedBlockGoes`).
- A snapshot of a guest without a document leaves an older copy of that name in place, and a
  rollback then restores that copy; `Store.RollbackRestoresIff` has the exact condition.
- `vmid_of_file` reads `007.yaml` as guest 7, a file no operation on guest 7 touches
  (`StoreNames.ForeignName`). A file is a guest's exactly when its name also spells the vmid
  as the store does (`StoreNames.OwnsIff`), and purging is complete in a directory exactly
  when every file that names the guest does (`Store.PurgeLeavesNoneIff`).

## Model

| member | source | states |
|---|---|---|
| `Values.SameIsMeaning` | crates/pve-meta-core/src/model.rs:8-11 | the order-insensitive comparison of two stored values holds exactly when they mean the same tree |
| `TouchedPaths.ExactEmpty` | crates/pve-meta-core/src/patch.rs:40-57 | an exact touched list is empty if and only if nothing changed |
| `TouchedPaths.Extend` | crates/pve-meta-core/src/patch.rs:58-124 | exact lists of different keys concatenate to an exact list of the map: sound, complete, no path a prefix of another |
| `KeyOrder.OrderedWrite` | crates/pve-meta-core/src/patch.rs:65-122 | setting or dropping one key leaves the others in order, a new key at the end |
| `KeyOrder.ArrangedEnd` | crates/pve-meta-core/src/patch.rs:58-124 | an edit made key by key leaves, at every depth, what was there in its old order and before what was added |
| `Verbatim.UnalteredWrite` | crates/pve-meta-core/src/patch.rs:65-122 | one key written leaves, away from the touched paths, the very same values: key order included, inside lists too |
| `Patch.ApplyObj` | crates/pve-meta-core/src/patch.rs:58-124 | the loop over the patch computes the key-by-key result for every order of the patch's keys, reports an exact touched list, leaves every value no touched path answers for exactly as it was (all of the document when the list is empty), and keeps the order of the keys of every map reached through maps |
| `Patch.ApplyAt` | crates/pve-meta-core/src/patch.rs:58-124 | one key of the patch: deletion, nested patch or replacement, with an exact list |
| `Diff.DiffAt` | crates/pve-meta-core/src/patch.rs:131-177 | the diff of any two documents is an exact touched list between them |
| `View.Descend` | crates/pve-meta-core/src/view.rs:21-35 | a path is invalid exactly when it runs through something that is no map; otherwise what is found there is what the tree has there |
| `Verbatim.KeptByInsert` | crates/pve-meta-core/src/view.rs:54-75 | a key inserted, or replaced where it stands, leaves the map's other keys with the same values in the same order |
| `View.Splice` | crates/pve-meta-core/src/view.rs:54-75 | missing maps are created on the way and the value lands at the path; in every map on the way all other keys keep their values and their order, whatever the value is |
| `View.Replace` | crates/pve-meta-core/src/view.rs:91-141 | wholesale replacement at the prefix, refused exactly on a blocked path, with an exact touched list; the payload lands as it is, and everything beside it keeps its value and its order |
| `Verbatim.UnalteredAbove` | crates/pve-meta-core/src/view.rs:142-196 | an edit below a path leaves the whole document as it was away from the touched paths |
| `View.Merge` | crates/pve-meta-core/src/view.rs:142-196 | a patch merged at the prefix with an exact touched list: applied to the map that is there or to an empty one in place of anything else, and where there is nothing and nothing to write the document is left as it is, no map created; every value no touched path answers for is exactly as it was; key order kept |
| `View.Remove` | crates/pve-meta-core/src/view.rs:197-247 | what is at the prefix and its note are gone, every path comparable with neither holds what it held, the maps above are still there, and the root leaves the empty map; with an exact touched list, and every value no touched path answers for exactly as it was, in its order |
| `View.RemovedIffWithout` | crates/pve-meta-core/src/view.rs:197-247 | those clauses leave no choice: one document meets them |
| `MergePatch.AgreesWithRfc` | crates/pve-meta-core/src/patch.rs:58-124 | the result equals MergePatch of section 2 of RFC 7386 if and only if neither departure applies: an absent container only deleted in, a note whose key is deleted without being named |
| `MergePatch.DeletesWriteNothing` | crates/pve-meta-core/src/patch.rs:58-124 | a patch creates nothing in an empty map exactly when it only deletes, at any depth |
| `MergePatch.NotesGoWithKeys` | crates/pve-meta-core/src/patch.rs:69-86 | a deleted key takes its note with it unless the patch names the note, and a key neither named nor so deleted stays as it was |
| `MergePatch.AppliedTwice` | crates/pve-meta-core/src/patch.rs:58-124 | applying a patch again changes nothing |
| `MergePatch.MergeTwice` | crates/pve-meta-core/src/view.rs:142-196 | the same for the meaning of a merge at any prefix |
| `MergePatch.MergeAgain` | crates/pve-meta-core/src/view.rs:142-196 | on stored documents: a second merge touches nothing and returns the document itself |
| `MergePatch.NoNullStored` | crates/pve-meta-core/src/patch.rs:58-124 | a document without nulls as far as maps lead has none there after any patch; lists are not looked into |
| `MergePatch.CleanIff` | crates/pve-meta-core/src/patch.rs:58-124 | with the maps inside lists looked at too: a document without nulls has none after a patch if and only if no list of the patch holds one |
| `MergePatch.MergeCleanIff` | crates/pve-meta-core/src/view.rs:142-196 | and so for a merge at any prefix that is not barred |
| `MergePatch.NullInAList` | crates/pve-meta-core/src/patch.rs:111-120 | a patch with a delete marker inside a list stores it as a null |
| `Conformance.FlagMeans` | crates/pve-meta-core/src/registry.rs:215-222 | `true`/`1` and `false`/`0` are the flags, and nothing else is one |
| `Conformance.FlagStated` | crates/pve-meta-core/src/shape.rs:317-319 | a node's readable flag decides, and otherwise what is inherited |
| `Conformance.TypeFits` | crates/pve-meta-core/src/shape.rs:412-422 | each declared type admits exactly its values, an unknown one all |
| `Conformance.EnumFits` | crates/pve-meta-core/src/shape.rs:395-403 | an enum admits exactly the values equal to a member, or the same flag where a boolean is declared |
| `Conformance.BoundsFit` | crates/pve-meta-core/src/shape.rs:374-385 | a number below the minimum or above the maximum is exactly what the bounds object to, integers and floats compared as numbers |
| `Conformance.CheckMeans` | crates/pve-meta-core/src/shape.rs:361-387 | for every schema and value: no objection if and only if declared type, enum, minimum and maximum all hold, each said without the check; and the objection is always the first constraint of the four that is violated, with its own bound or members |
| `Schema.MapsLookAlike` | crates/pve-meta-core/src/registry.rs:259-340 | a dialect-valid schema says the same of every two maps, since enum members are scalars |
| `Shape.GoverningIsMostSpecific` | crates/pve-meta-core/src/shape.rs:175-182 | the first prefix in order that contains a path is the most specific one, and none is found only when none contains it |
| `Prefixes.NewIsOrdered` | crates/pve-meta-core/src/shape.rs:136-140 | the sort of `Shape::new` puts any prefixes most specific first and keeps each of them |
| `Prefixes.NewUnordered` | crates/pve-meta-core/src/registry.rs:100-105 | every permutation of distinct prefixes is sorted into one and the same list |
| `Prefixes.FindingsUnordered` | crates/pve-meta-core/src/shape.rs:239-253 | so the sorted list of findings is the same for every permutation |
| `Prefixes.GoverningUnordered` | crates/pve-meta-core/src/shape.rs:136-182 | which prefix governs does not depend on the order they were given in, for distinct prefixes of any spelling |
| `Prefixes.ReportsUnordered` | crates/pve-meta-core/src/shape.rs:136-140 | nor does what is reported |
| `Shape.Walk` | crates/pve-meta-core/src/shape.rs:264-311 | the recursive walk pushes exactly the reports of the values it can step down to (what a step and a report are: `Pointwise.DownMeans`, `Pointwise.ReportMeans`) |
| `Shape.Reach` | crates/pve-meta-core/src/model.rs:111-122 | a path of keys and indices leads to what the tree has there |
| `Shape.Findings` | crates/pve-meta-core/src/shape.rs:239-253 | a report is in the result exactly when some prefix's walk makes it, and the result is sorted by path, ties in walking order |
| `Pointwise.FindsPointwise` | crates/pve-meta-core/src/shape.rs:239-311 | on a path of maps there is a finding if and only if the governing schema describes the path, every value above conforms, and the value there does not; its message is the first constraint violated and its flag the enforcement in force there |
| `Pointwise.NothingFoundIff` | crates/pve-meta-core/src/shape.rs:264-286 | where a value is described and all above it conform, there is no finding if and only if it conforms |
| `Pointwise.ObeysIff` | crates/pve-meta-core/src/shape.rs:254-263 | no enforced finding is at a path exactly when its value, if an enforced schema judges it, conforms |
| `Pointwise.DownMeans` | crates/pve-meta-core/src/shape.rs:287-311 | the walk goes on below conforming values only: into every described member of an array, and every described key of a map that no more specific prefix owns |
| `Pointwise.ReportMeans` | crates/pve-meta-core/src/shape.rs:276-288 | a value is reported for its first violated constraint, or, when it conforms, as a string whose format is to be judged |
| `Pointwise.PathStep` | crates/pve-meta-core/src/model.rs:111-122 | one more segment leads to a map's entry or to the array member it numbers, and nowhere from anything else |
| `Pointwise.NodeIsLookedUp` | crates/pve-meta-core/src/shape.rs:183-195 | the node for a path is what the schema document holds at `properties`, key, `properties`, key |
| `Pointwise.NearestFlag` | crates/pve-meta-core/src/shape.rs:312-319 | the nearest node at or above a path that states a flag decides it, and where none does it is inherited |
| `SchemaIndex.GovernsOnTheWay` | crates/pve-meta-core/src/shape.rs:208-231 | a prefix that governs a path governs everything between, so pruning loses nothing |
| `SchemaIndex.ListedIsDescribed` | crates/pve-meta-core/src/shape.rs:183-231 | one prefix's entries are exactly the paths it governs and its schema describes, with their node and flag |
| `SchemaIndex.Collect` | crates/pve-meta-core/src/shape.rs:208-231 | the pre-order recursion lists exactly those, parents before children |
| `SchemaIndex.SchemaIndexOf` | crates/pve-meta-core/src/shape.rs:196-207 | the index is exactly the domain of `schema_at`, each path once, with its node and nearest `hidden` flag, parents first within a prefix |
| `Gate.Locality` | crates/pve-meta-core/src/shape.rs:264-339 | for every stored and planned document with an exact touched list, a finding on a path comparable with no touched path was a finding before, same message and flag |
| `Gate.RemovalFindsNothingNew` | crates/pve-meta-core/src/view.rs:197-247 | removing keys can neither introduce nor expose a finding |
| `Gate.Introduced` | crates/pve-meta-core/src/shape.rs:328-339 | the findings that are new or sit on a changed path |
| `Gate.CheckEnforced` | crates/pve-meta-core/src/api.rs:649-666 | the gate refuses exactly the planned document's enforced findings on touched-comparable paths: on map paths, those whose value violates an enforced constraint, named by the first; and when it refuses nothing, every judged and enforced value there conforms |
| `Gate.StepKeeps` | crates/pve-meta-core/src/api.rs:584-606 | an accepted unforced PUT or a view DELETE adds no enforced finding |
| `Gate.NeverGrows` | crates/pve-meta-core/src/api.rs:740-743 | over every run of them the set of enforced findings never grows |
| `Gate.StaysClean` | crates/pve-meta-core/src/api.rs:587-606 | so a clean document stays clean |
| `Gate.StaysConforming` | crates/pve-meta-core/src/api.rs:587-606 | from a clean document, after any run of accepted unforced writes and deletes, every value an enforced schema judges conforms to it |
| `Api.Guest.Put` | crates/pve-meta-core/src/api.rs:544-647 | each answer exactly when it is due; nothing changes unless accepted; what is stored is the plan, a replace leaving everything beside the view and a merge everything untouched exactly as it was; unforced it passed the gate, so every enforced touched value conforms, and a refusal lists the violations |
| `Api.Guest.Delete` | crates/pve-meta-core/src/api.rs:702-760 | the same for DELETE, which needs no gate: the view and its note are gone and nothing else, the root leaves the empty map, and a document that could be stored still can |
| `Api.StorableIff` | crates/pve-meta-core/src/model.rs:53-106 | refused as not storable is exactly a document that is no map, or holds at any depth, lists included, a null, a key that is no segment or a note that is no string |
| `Api.Plan` | crates/pve-meta-core/src/api.rs:587-600 | the planned copy, by mode, with an exact touched list; values and key order outside the edit as stored |
| `Notes.KeepComments` | crates/pve-meta-core/src/view.rs:280-308 | whatever was stored, the result without its notes is the payload without its notes, order included; keys stay distinct; and it is the value the rule and the round trip below are about |
| `Notes.StripKeep` | crates/pve-meta-core/src/view.rs:252-308 | for every old and new value, stripping what was kept gives the stripped new value, order included |
| `Notes.KeepRule` | crates/pve-meta-core/src/view.rs:268-308 | key by key: the payload's own keys and notes win; a stored note is there, as it was, if and only if it is about the map, a key on both sides, or a note stored before it that is there itself |
| `Notes.KeepWF` | crates/pve-meta-core/src/view.rs:280-308 | keys stay distinct |
| `NotesRoundTrip.StripIsId` | crates/pve-meta-core/src/view.rs:252-263 | stripping changes nothing exactly when there are no notes |
| `NotesRoundTrip.RoundTrip` | crates/pve-meta-core/src/view.rs:252-308 | keeping the stored notes over the stripped document gives the document back, key order included, if and only if every note is anchored and none sits inside an array |
| `PlanLaws.MakePlan` | crates/pve-meta-guest-files/src/plan.rs:229-393 | while the document is held, or a link, file or other node stands at `/etc` or `/etc/pve-meta`, the plan does nothing, keeps every record and refuses each; otherwise its items, operations and directories are exactly those its entries and records call for, told from what is found at their paths; one operation per writing item, each justified |
| `PlanDuties.HoldMeans` | crates/pve-meta-guest-files/src/plan.rs:244-257 | when a sync must wait |
| `PlanDuties.AssessMeans` | crates/pve-meta-guest-files/src/plan.rs:189-210 | a file is gone if and only if its place or a directory on the way is missing below directories only, and present with this digest, mode and owner if and only if it is a regular file below directories only |
| `PlanDuties.WhoConflicts` | crates/pve-meta-guest-files/src/entry.rs:247-265 | sources conflict across operators and between an operator and anyone else, and never within one operator or among the rest |
| `PlanDuties.DecideMeans` | crates/pve-meta-guest-files/src/plan.rs:290-323 | what becomes of a wanted file, case by case; a local edit is overwritten if and only if force is given or the entry allows it, and kept otherwise |
| `PlanDuties.FateMeans` | crates/pve-meta-guest-files/src/plan.rs:357-386 | what becomes of a record nobody wants, case by case |
| `PlanDuties.PlanServes` | crates/pve-meta-guest-files/src/plan.rs:229-393 | every plan waits when it must, and otherwise has exactly the items, operations and directories due |
| `PlanLaws.RefuseCollisions` | crates/pve-meta-guest-files/src/entry.rs:428-453 | exactly the entries whose path equals or nests with another's are refused, and none collide afterwards |
| `PlanLaws.ManagedFiles` | crates/pve-meta-guest-files/src/entry.rs:377-391 | a managed list is taken exactly when no two of its paths collide |
| `PlanLaws.PlanLinesUp` | crates/pve-meta-guest-files/src/plan.rs:324-355 | operations line up one to one, in order, with the items that write |
| `PlanLaws.PlanReasoned` | crates/pve-meta-guest-files/src/plan.rs:309-385 | every operation of every plan has a decision behind it that justifies what it expects |
| `Manifests.WantedRecord` | crates/pve-meta-guest-files/src/plan.rs:290-355 | the planned record of a wanted path: the new one when placed or adopted, else the old |
| `Manifests.UnwantedRecord` | crates/pve-meta-guest-files/src/plan.rs:357-386 | the planned record of any other path: kept or gone, never changed |
| `Manifests.UndoneRecord` | crates/pve-meta-guest-files/src/plan.rs:141-151 | an operation not done leaves the old record, every other path its planned one |
| `Manifests.ManifestTruth` | crates/pve-meta-guest-files/src/plan.rs:141-151 | for any mix of outcomes every record is the old one or names the hash adopted at probe or placed and done |
| `Manifests.WriterKept` | crates/pve-meta-guest-files/src/entry.rs:251-269 | a sync never changes who writes a recorded path |
| `Manifests.ManagedKept` | crates/pve-meta-guest-files/src/plan.rs:357-386 | a managed record goes only when its file was seen missing |
| `Manifests.NothingManagedRemoved` | crates/pve-meta-guest-files/src/plan.rs:220-225 | managed syncs delete nothing, and nobody deletes a managed file |
| `Manifests.WriterOverRuns` | crates/pve-meta-guest-files/src/plan.rs:290-308 | over every mix of syncs a path's writer stays while its record stands |
| `Manifests.ManagedOverRuns` | crates/pve-meta-guest-files/src/plan.rs:357-386 | over every run, a lost managed record was lost in a sync that saw its file missing |
| `SyncProtocol.ProbeSuffices` | crates/pve-meta-guest-files/src/plan.rs:156-175 | the probed paths decide the plan: two guests alike on them get the same plan |
| `SyncProtocol.RaceSafe` | crates/pve-meta-guest-files/src/pct.rs:178-196 | whatever happened since the probe, an operation changes only its own path, creates only where nothing is, and replaces or removes only what still is what the probe saw and, unless overwriting was asked for, what the manifest recorded |
| `SyncProtocol.RowsFit` | crates/pve-meta-guest-files/src/guest.rs:97-126 | each writing item is reported with the outcome of its own operation |
| `SyncProtocol.Report` | crates/pve-meta-guest-files/src/guest.rs:107-126 | consuming the outcomes in item order gives every item its own |
| `SyncProtocol.Guest.Commit` | crates/pve-meta-guest-files/src/guest.rs:33-45 | every operation is one step from how the one before or somebody else left the guest; it changes its own path alone, leaves there what it was to leave, is done exactly if the path has what was expected and its turn does not fail, and otherwise changes nothing; the guest is left as the last one left it |
| `SyncProtocol.Guest.Sync` | crates/pve-meta-guest-files/src/guest.rs:94-129 | for every interference: nothing happens when the plan changes nothing, nothing but the interference when a directory cannot be made, and otherwise every operation in order from the made directories to the files it leaves; every change is rightful, each row has its own operation's outcome, and the manifest is what those outcomes give, or the old one on an error; while the document is held, or anything but a directory stands at `/etc` or `/etc/pve-meta`, files and manifest stay as they are |
| `SyncProtocol.SyncIsStep` | crates/pve-meta-guest-files/src/guest.rs:94-129 | however it ends, a sync is a step of the runs the writer laws are about |
| `Convergence.NextDecision` | crates/pve-meta-guest-files/src/plan.rs:290-355 | after an undisturbed sync the next one writes a wanted path exactly when the first deleted something above it |
| `Convergence.NextFate` | crates/pve-meta-guest-files/src/plan.rs:357-386 | and forgets a kept record exactly then |
| `Convergence.QuietIff` | crates/pve-meta-guest-files/src/plan.rs:135-139 | the next plan has nothing to do if and only if no deletion uncovered a path still cared about |
| `Undisturbed.NoneSkipped` | crates/pve-meta-guest-files/src/pct.rs:178-196 | undisturbed, every operation finds its file as it expects it |
| `Undisturbed.NothingInTheWay` | crates/pve-meta-guest-files/src/pct.rs:171-176 | and every directory can be made |
| `Undisturbed.StillSetting` | crates/pve-meta-guest-files/src/plan.rs:229-393 | what a sync leaves is again a guest the next one can start from |
| `Settling.SyncAlone` | crates/pve-meta-guest-files/src/guest.rs:94-129 | a sync nobody interferes with succeeds, does every operation, and leaves files and manifest as planned |
| `Settling.OneSyncIff` | crates/pve-meta-guest-files/src/plan.rs:229-393 | after such a sync the next plan is empty (no operation, no directory, same manifest) if and only if no deletion uncovered a path still cared about |
| `Settling.FlatSettlesAtOnce` | crates/pve-meta-guest-files/src/plan.rs:229-393 | so one suffices when no recorded path lies above a wanted or another recorded one |
| `Settling.TwoSyncsAlways` | crates/pve-meta-guest-files/src/plan.rs:229-393 | two always suffice |
| `Settling.SettleGuest` | crates/pve-meta-guest-files/src/guest.rs:94-129 | two syncs run on a guest both succeed and leave it settled |
| `Settling.NestedRecordsNeedTwo` | crates/pve-meta-guest-files/src/plan.rs:357-386 | a concrete guest with nothing wanted that no undisturbed sync settles at once |
| `Together.ReachedStays` | crates/pve-meta-guest-files/src/plan.rs:229-393 | several writers on one guest: no sync undoes that a path is not a record of something gone, is not gone, or is as one of them wants it |
| `Together.Progress` | crates/pve-meta-guest-files/src/plan.rs:229-393 | and a sync with something to do gets some path one of these stages further |
| `TogetherRuns.AllSettle` | crates/pve-meta-guest-files/src/plan.rs:229-393 | the document and any number of operators' lists, syncing undisturbed in rounds with turns in any order, are all done after at most 3 rounds per path and 2, if wants that do not exclude each other agree |
| `TogetherRuns.IdleIsSettled` | crates/pve-meta-guest-files/src/plan.rs:135-139 | done means: each writer's next plan is empty |
| `TogetherRuns.QuarrelNeverEnds` | crates/pve-meta-guest-files/src/entry.rs:245-260 | and they must agree: of two different wants of one path by one writer class, the one not granted always has something to do |
| `CivilDate.InstantIsRight` | crates/pve-meta-core/src/backup.rs:390-409 | for every u64 of seconds, without i64 overflow, the fields are a valid Gregorian instant that many seconds after the epoch, counted year by year and month by month |
| `CivilDate.InstantUnique` | crates/pve-meta-core/src/backup.rs:390-409 | no other valid instant is, so the two are inverse |
| `CivilDate.TextIsRfc3339` | crates/pve-meta-core/src/backup.rs:402-409 | the text has the date-time form of section 5.6 of RFC 3339 exactly before the year 10000, and then says those fields |
| `CivilDate.OneWord` | crates/pve-meta-core/src/backup.rs:402-409 | it never contains white space, so it is one header field |
| `NotesProgram.LastHeader` | crates/pve-meta-core/src/backup.rs:334-347 | one forward pass finds the byte offset of the last header line with an end line after it |
| `NotesProgram.Find` | crates/pve-meta-core/src/backup.rs:154-215 | no block exactly when no header line is closed by a later end line; a block exactly when the last closed one has version, fences and end line in place, with the document between the fences and the byte offsets of its first and last line; malformed otherwise |
| `BlockShape.FindMeans` | crates/pve-meta-core/src/backup.rs:154-215 | the same of the search on characters, every delimiter spelled out: fields, document and offsets are those of the last closed header's block |
| `BlockShape.OtherVersion` | crates/pve-meta-core/src/backup.rs:162-170 | a last closed header of another version makes the block malformed whatever else is in it |
| `BlockRoundTrip.HeaderReads` | crates/pve-meta-core/src/backup.rs:362-387 | the printed header line reads back field by field |
| `BlockRoundTrip.FoundAgain` | crates/pve-meta-core/src/backup.rs:117-215 | among any other notes, with no block after it, a printed block is found as printed |
| `BlockRoundTrip.FoundIffPlain` | crates/pve-meta-core/src/backup.rs:117-215 | if and only if no line of the document would be taken for a delimiter |
| `BlockRoundTrip.RoundTrip` | crates/pve-meta-core/src/backup.rs:117-231 | for any notes: document, guest, time and digest come back, the span is exactly the block, and stripping leaves the right-trimmed notes |
| `NotesProgram.RoundTrip` | crates/pve-meta-core/src/backup.rs:117-215 | in bytes: the block is found from the byte after the notes' newline to the last byte |
| `BlockRoundTrip.RenderedLines` | crates/pve-meta-core/src/backup.rs:117-142 | the block is refused exactly above the size limit, and is otherwise these lines |
| `BlockStrip.StripShortens` | crates/pve-meta-core/src/backup.rs:221-231 | stripping a block found makes the notes shorter |
| `BlockStrip.StripKeepsInk` | crates/pve-meta-core/src/backup.rs:221-231 | and loses nothing but the block and white space |
| `NotesProgram.StripsTheSame` | crates/pve-meta-core/src/backup.rs:221-231 | cutting at the byte offsets is cutting at the characters |
| `NotesProgram.StripAllBlocks` | crates/pve-meta-core/src/backup.rs:352-358 | the loop terminates and computes the repeated stripping |
| `BlockStrip.StripAllEnds` | crates/pve-meta-core/src/backup.rs:352-358 | it ends where there is no block or a malformed last one |
| `BlockStrip.MalformedHidesEarlier` | crates/pve-meta-core/src/backup.rs:349-358 | a malformed last block keeps every well-formed one before it in the notes |
| `EveryBlock.NoneLeftIff` | crates/pve-meta-core/src/backup.rs:349-358 | no block is left if and only if the lines, read once from the bottom up, never meet a closed header that heads no block |
| `EveryBlock.StripAllReads` | crates/pve-meta-core/src/backup.rs:349-358 | and whether it gets stuck or not, what that reading leaves is what is left of the notes, white space at the end aside |
| `EveryBlock.EveryWellFormedIff` | crates/pve-meta-core/src/backup.rs:349-358 | every well-formed block is gone if and only if the reading meets no malformed one, or leaves none above and in the lines it is stuck at |
| `EveryBlock.EveryPrintedBlockGoes` | crates/pve-meta-core/src/backup.rs:349-358 | from notes without delimiters of their own, every one of any number of printed blocks goes, and only white space of the notes with them |
| `Backup.Import` | crates/pve-meta-core/src/backup.rs:270-330 | without a readable block, or when the store does not take its text, no file changes and the answer says so; at install a guest that has a document keeps every file and only its notes are stripped; otherwise the document is the block's text, an install changing no other file and a restore leaving the guest no snapshots; notes to write hold no readable block |
| `Backup.ExportMeans` | crates/pve-meta-core/src/backup.rs:241-252 | a document is carried exactly if it is there, parses and is within the limit, by a block with its own text, digest and time |
| `Backup.RestoreGivesBack` | crates/pve-meta-core/src/backup.rs:241-330 | a stored document exported, appended to any notes and restored to any guest is the same bytes, with no snapshots, other guests untouched and the notes free of blocks that can be read |
| `StoreNames.NamesTheirGuest` | crates/pve-meta-core/src/store.rs:598-608 | document and snapshot names are read back to their vmid |
| `StoreNames.NamesInjective` | crates/pve-meta-core/src/store.rs:213-236 | different guests or snapshots have different files |
| `StoreNames.NamesDisjoint` | crates/pve-meta-core/src/store.rs:213-236 | no document has a snapshot's name |
| `StoreNames.SnapshotIsListed` | crates/pve-meta-core/src/store.rs:461-486 | every snapshot's file is listed under its name |
| `StoreNames.OwnsIff` | crates/pve-meta-core/src/store.rs:598-608 | a file is a guest's exactly when its name reads as the guest's vmid and spells it as the store does |
| `StoreNames.ForeignName` | crates/pve-meta-core/src/store.rs:598-608 | a name that reads as a guest without being one of its files: leading zeros |
| `Store.MetaStore.PutRaw` | crates/pve-meta-core/src/store.rs:363-400 | refused for the digest if and only if one is expected that is not the stored text's, or not the empty one where nothing is stored; unless written no file changes; written, only the document does, to the text with one final newline, which is within the limit, parses and is clean; and it is refused for those only when it is not |
| `Store.LateWriterRefused` | crates/pve-meta-core/src/store.rs:341-376 | of two writers who expect the same digest, with no other write of that document between them, the second is refused if and only if the first changed the digest |
| `Store.ReplacesWhatWasRead` | crates/pve-meta-core/src/store.rs:341-376 | after any run, a write that expects the digest of what its writer read passes the check exactly if that very text, or its absence, is what it replaces, for digests that tell texts apart |
| `Store.NormalizedIff` | crates/pve-meta-core/src/store.rs:632-635 | the stored form is the one text with exactly one newline for the final ones |
| `Store.MetaStore.Delete` | crates/pve-meta-core/src/store.rs:402-406 | the document goes, nothing else |
| `Store.MetaStore.Snapshot` | crates/pve-meta-core/src/store.rs:488-498 | the copy is the document's bytes; without a document nothing changes |
| `Store.MetaStore.Rollback` | crates/pve-meta-core/src/store.rs:501-516 | the document becomes the copy, or goes when there is no copy, with the outcome that says which |
| `Store.MetaStore.DeleteSnapshot` | crates/pve-meta-core/src/store.rs:519-525 | one copy goes, idempotently |
| `Store.MetaStore.ListSnapshots` | crates/pve-meta-core/src/store.rs:461-486 | sorted, and a name is listed exactly when some file reads as that snapshot |
| `Store.MetaStore.Purge` | crates/pve-meta-core/src/store.rs:528-539 | in any directory exactly the guest's own files go, and the count is theirs |
| `Store.RollbackRestoresIff` | crates/pve-meta-core/src/store.rs:488-516 | after a snapshot and any operations that leave that copy alone, rollback restores the bytes or absence of that moment if and only if there was a document or no older copy |
| `Store.NonInterference` | crates/pve-meta-core/src/store.rs:368-539 | over any run, a guest's files are what its own operations alone would have left |
| `Store.PurgeLeavesNoneIff` | crates/pve-meta-core/src/store.rs:528-539 | in any directory, purging leaves no file that names the guest if and only if all that name it spell its vmid as the store does |
| `Store.PurgeSpares` | crates/pve-meta-core/src/store.rs:528-539 | and every file that does not name it stays |
| `Store.PurgeIsComplete` | crates/pve-meta-core/src/store.rs:528-539 | so in every state reached it is complete and spares all others |
| `YamlScan.Scan` | crates/pve-meta-core/src/format.rs:154-222 | the loop with its stack stops where the event-by-event definition does |
| `YamlScan.StreamRuns` | crates/pve-meta-core/src/format.rs:154-222 | over the events of any documents it stops exactly at their first offence, with the right fault, found by reading them as trees |
| `YamlScan.AcceptsIffSafe` | crates/pve-meta-core/src/format.rs:154-222 | it accepts if and only if there is no alias, anchor or tag and every key at every depth is a scalar |
| `YamlScan.StackMirrors` | crates/pve-meta-core/src/format.rs:141-146 | at every point of a safe node the stack is exactly the open collections, each mapping waiting for a key or a value as it should |
| `Base64.Base64Text` | crates/pve-meta-guest-files/src/pct.rs:208-226 | the chunk loop computes the encoding of section 4 of RFC 4648, given as groups of six bits, in lines of 76 |
| `Base64.AlphabetIsTheTable` | crates/pve-meta-guest-files/src/pct.rs:209-209 | the alphabet is table 1 of the RFC |
| `Base64.RoundTrip` | crates/pve-meta-guest-files/src/pct.rs:208-226 | decoding gives back every byte sequence |
| `Base64.LinesOfEncoding` | crates/pve-meta-guest-files/src/pct.rs:199-226 | every line is at most 76 letters, only the last shorter, and none is the heredoc's end mark |
| `Base64.ContentArrives` | crates/pve-meta-guest-files/src/pct.rs:276-291 | whatever the content, the shell's heredoc holds all of it, decodes to it, and the script goes on where it was written to |
| `CommitScript.Write` | crates/pve-meta-guest-files/src/pct.rs:269-300 | the script as it is written out, loop by loop, is one the shell runs as asked |
| `CommitScript.ScriptRuns` | crates/pve-meta-guest-files/src/pct.rs:269-300 | for any directories and operations the shell meets every command in order and nothing else, and every content it is handed decodes to the file's |

## Left out

- The document is updated in place in the source; here its operations return the new value,
  and only the guest's stored document is a field. Aliasing is not captured.
- Floats are reals, so rounding and NaN are not modelled; array indices of a path are not
  bounded by the machine's word.
- Error texts, HTTP statuses, ACLs, `dry_run`, audit lines and warnings: each is settled by
  reading one function. A finding's message is kept as its kind and arguments.
- The YAML and JSON readers and writers, and SHA-256, are parameters (a predicate or an
  arbitrary function). The API model starts at the parsed payload; whether a text parses or is
  lint-clean is asked of the parameter in the store model. Files are text: bytes that are not
  UTF-8 and the read size limit are not modelled.
- Registry files, their layering per directory, node and tag selectors: prefixes come as a list
  that has passed the dialect check.
- Guest paths are sequences of segments; parsing them from strings, temporary names, and the
  rendering and parsing of the manifest file are not modelled. An unreadable manifest is the
  empty one.
- SyncProtocol.Guest.Commit: each operation is one atomic step; the window between hashing and
  `mv` inside the shell, symlinks on the way to a path, and directories made by a commit that
  fails later are not modelled.
- YamlScan.Scan: the events are those of well-formed documents; a syntax error the parser itself
  reports in the middle of them ends the scan in the source and is not modelled.
- Backup.RestoreGivesBack: asks that the document has no line the reader would take for a
  delimiter; that a linted document has none is a property of YAML, which is not modelled.
- Api.Guest.Put: the digest a caller may give is checked by the store's write
  (`Store.MetaStore.PutRaw`), not in the API model.
- Gate.CheckEnforced: what it says through conforming is on paths of maps; a finding inside an
  array is settled step by step (`Pointwise.DownMeans`).
- Temporary files, the cluster marker check and I/O errors of the store: a write is one step on
  the directory.
- CommitScript.ScriptRuns: the shell is its reading of lines and heredocs; how it splits a line
  into words, and the script's fixed functions, are not part of it.
- The version token, `stored_vmids`, the daemon, locking, process handling, the Perl and wasm
  bindings and the user interface.
