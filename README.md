# Mocha watch mode: module map, node record and re-run scheduler

This project models the core of Mocha's incremental watch mode in Dafny:

- **The module map** (`lib/cli/module-map.js`, class `ModuleMap`). This is the
  dependency graph of the project's files, keyed by filename. Each node lists
  three things: its dependencies (`children`), its dependants (`parents`) and
  the entry (test) files whose dependency closure reaches it. The map is
  modelled as a class whose field `nodes` is a `map<string, Node>`. Node records
  refer to each other by filename. The class covers the following operations:
  - It initialises itself from the module-map cache (`_init`, `mergeFromCache`).
  - It repopulates from changed files with a depth-first walk (`_populate`).
  - It deletes a file and cascades to its orphaned children (`delete`).
  - It answers which files, and which entry files, a change affects
    (`findAffectedFiles`).
  - It saves its state to two caches:
    - the *module-map cache*, which holds the nodes as serialised records;
    - the *file-entry cache*, which records which files are up to date.
- **The node record** (`lib/cli/module-map-node.js`, class `ModuleMapNode`).
  It holds a filename and three sets. Each setter copies its argument into a
  new set, and `toJSON` gives sorted arrays.
- **The re-run scheduler** (`lib/cli/rerunner.js`, class `Rerunner`). It has
  two queues (test files and affected files), a `running` flag and a debounce
  timer. The timer and the asynchronous test run become explicit events: the
  timer fires, the run completes, the run fails. Each event is a step of a
  state machine (`Rerunners.Step`) and a method of the class.

Abstractions:

- The dependency extractor (`findDependencies`) is a parameter
  `deps: map<string, set<string>>`.
- The file-entry cache is the set `upToDate`:
  - `hasFileChanged(f)` is `f !in upToDate`;
  - `removeEntry` removes a file from the set;
  - persisting adds files to it;
  - `destroy` empties it.
- The module-map cache is a field `cache` of decoded node records.
  `MapJsons.CacheRoundTrip` shows that storing and reading back loses nothing,
  which is why decoded records can stand in for the stored form.

Files:

| file | module | models |
|---|---|---|
| `wrappers.dfy` | `Wrappers` | `Option`, `Result`, `Outcome` |
| `string_order.dfy` | `StringOrder` | the default string sort, sorted arrays of a set |
| `module_map_node.dfy` | `ModuleMapNodes` | the node record and the `ModuleMapNode` class |
| `graph.dfy` | `Graphs` | the map as a graph; consistency (`Linked`) |
| `removal.dfy` | `Removals` | what `delete` does to the graph, and its proof steps |
| `populate.dfy` | `Populations` | what `_populate` does to the graph, and its loop invariant |
| `ancestry.dfy` | `Ancestries` | the ancestor climb of `findAffectedFiles` |
| `affected.dfy` | `AffectedFiles` | the answer of `findAffectedFiles`; `filterEntryFiles` |
| `module_map.dfy` | `ModuleMaps` | the `ModuleMap` class |
| `map_json.dfy` | `MapJsons` | `toJSON()` of the map; reading the cache back |
| `delete_as_written.dfy` | `DeletesAsWritten` | `delete` exactly as written (see Findings) |
| `rerunner.dfy` | `Rerunners` | the scheduler state machine and the `Rerunner` class |

## Model

| member | source | states |
|---|---|---|
| ModuleMapNodes.NewNode | lib/cli/module-map-node.js:16-45 | A new node keeps the filename as given. Each set holds exactly the items of its list, so it has no more members than the list has items (duplicates collapse). |
| ModuleMapNodes.ElementsCount | lib/cli/module-map-node.js:27-29 | Copying a list into a set keeps at most as many members as the list has items, and exactly as many iff no item repeats. |
| ModuleMapNodes.BareNodeIsEmpty | lib/cli/module-map-node.js:16-21 | A node created without options has empty `entryFiles`, `children` and `parents`. |
| ModuleMapNodes.ToJson | lib/cli/module-map-node.js:47-54 | The serialised node has the same filename. Each array is strictly ascending and holds exactly the members of its set. |
| ModuleMapNodes.ToJsonCanonical | lib/cli/module-map-node.js:50-52 | Any record with sorted arrays of the node's members is the serialisation, however the sets were built (insertion order does not matter). |
| ModuleMapNodes.JsonRoundTrip | lib/cli/module-map.js:252-255 | Creating a node from a node's serialised record gives back the same node. |
| ModuleMapNodes.ModuleMapNode.constructor | lib/cli/module-map-node.js:16-21 | The new object holds `NewNode(filename, opts)`. |
| ModuleMapNodes.ModuleMapNode.Create | lib/cli/module-map-node.js:60-62 | `create` gives a fresh object equal to what the constructor builds. |
| ModuleMapNodes.ModuleMapNode.SetParents | lib/cli/module-map-node.js:27-29 | `parents` becomes the set of the given items; the other sets are unchanged. |
| ModuleMapNodes.ModuleMapNode.SetChildren | lib/cli/module-map-node.js:35-37 | `children` becomes the set of the given items; the other sets are unchanged. |
| ModuleMapNodes.ModuleMapNode.SetEntryFiles | lib/cli/module-map-node.js:43-45 | `entryFiles` becomes the set of the given items; the other sets are unchanged. |
| ModuleMapNodes.ModuleMapNode.ToJSON | lib/cli/module-map-node.js:47-54 | The object's serialisation: its filename and its three sets as strictly ascending arrays of exactly their members. |
| StringOrder.SortedElements | lib/cli/module-map-node.js:50-52 | `[...s].sort()`: strictly ascending (in code-point order), exactly the members of `s`, one entry per member. |
| StringOrder.SortedUnique | lib/cli/module-map-node.js:50-52 | Two strictly sorted arrays with the same members are equal, so the sorted form depends only on the set. |
| Removals.RemovalDetermined | lib/cli/module-map.js:266-284 | A finished deletion that satisfies `Removal` and `Minimal` is unique: the map before it and the deleted file fix the result. |
| Removals.RemovedClosed | lib/cli/module-map.js:270-276 | The files a finished deletion removed are closed under the cascade: every child they all orphan is among them. |
| Removals.MinimalCascade | lib/cli/module-map.js:270-276 | Deleting an orphaned child in turn removes only files that every cascade-closed set holds. |
| Removals.RemovalKeepsLinked | lib/cli/module-map.js:266-284 | After a deletion, a consistent map stays consistent. Each survivor's children are its old children minus the deleted files. |
| Populations.RepopulatedLinked | lib/cli/module-map.js:338-349 | After a run, every listed child of a node is in the map and lists that node as a parent, provided the unvisited nodes already were like that. |
| Populations.LinkedKept | lib/cli/module-map.js:338-349 | A run of `_populate` keeps a consistent map consistent. |
| Populations.NoRun | lib/cli/module-map.js:183-185 | With no seeds, nothing is visited and the map is unchanged. |
| Ancestries.AncestorsClosed | lib/cli/module-map.js:416-423 | The climbed files contain every start file outside `stop`, and every parent outside `stop` of a climbed file. They avoid `stop`. |
| Ancestries.AncestorsLeast | lib/cli/module-map.js:416-423 | The climbed files lie within every set closed in that way (they are the least such set). |
| Ancestries.AncestorsUnique | lib/cli/module-map.js:416-423 | A closed set within the climbed files is exactly the climbed files. |
| Ancestries.DependantsAreAncestors | lib/cli/module-map.js:416-423 | On a consistent map, every file that imports `s`, directly or through a chain of imports, is reached by climbing from the parents of `s`. |
| Ancestries.StopPrunesNothing | lib/cli/module-map.js:411-423 | Stopping at files already counted loses nothing when those files have no parents. |
| AffectedFiles.DependantsAffected | lib/cli/module-map.js:409-429 | On a consistent map whose tagged entry files nothing imports, every transitive importer of a changed file is in `allFiles`. |
| AffectedFiles.ChangedAreAffected | lib/cli/module-map.js:407-409 | The changed files are always in `allFiles`, and the changed entry files are in the returned `entryFiles`. |
| AffectedFiles.LoneEntryFile | lib/cli/module-map.js:411-415 | A changed entry file that nothing imports and that has no other tags affects only itself. |
| AffectedFiles.Filtered | lib/cli/module-map.js:366-368 | The filtered list holds exactly the items that are in `keep`, and is no longer than the input. |
| AffectedFiles.FilteredAppend | lib/cli/module-map.js:366-368 | Filtering a concatenation filters each part, keeping the order. |
| AffectedFiles.FilteredKeeps | lib/cli/module-map.js:366-368 | A list whose items all pass is returned unchanged. |
| AffectedFiles.FilteredIdempotent | lib/cli/module-map.js:366-368 | Filtering twice is the same as filtering once. |
| AffectedFiles.Spread | lib/cli/module-map.js:416 | Spreading a set into an array gives each member exactly once. |
| ModuleMaps.ModuleMap.constructor | lib/cli/module-map.js:28-49 | A new map is initialised: its entry files are as given, every entry file is a node, and every node is up to date. The map is the module-map cache (empty after `reset`) plus a bare node per missing entry file, repopulated by a forced run from exactly the files not up to date (`Repopulated` and `Reached`). The module-map cache becomes the old one overlaid by the map, and the up-to-date files gain every node. After `reset`, the map is consistent and both caches hold exactly the map. |
| ModuleMaps.ModuleMap.Init | lib/cli/module-map.js:158-192 | A second call fails with "already initialized" and changes nothing. Otherwise it sets the flag and rebuilds from the cache plus bare entry-file nodes. It then forces a run from exactly the changed files that are nodes, and saves both caches. After a reset the map is consistent. |
| ModuleMaps.ModuleMap.Rebuild | lib/cli/module-map.js:165-174 | The map becomes the module-map cache, plus a bare node for each missing entry file. |
| ModuleMaps.ModuleMap.AddMissingEntryFiles | lib/cli/module-map.js:168-174 | Each entry file without a node gets a bare one. Existing nodes are kept. |
| ModuleMaps.ModuleMap.PopulateChanged | lib/cli/module-map.js:175-185 | A forced run from exactly the nodes not up to date; no run when there are none. With an empty file-entry cache, the map ends consistent. |
| ModuleMaps.ModuleMap.Save | lib/cli/module-map.js:194-198 | The module-map cache gains every node, and every file becomes up to date. |
| ModuleMaps.ModuleMap.PersistFileEntryCache | lib/cli/module-map.js:204-209 | The given files become up to date. |
| ModuleMaps.ModuleMap.ResetFileEntryCache | lib/cli/module-map.js:211-215 | No file is up to date. |
| ModuleMaps.ModuleMap.ResetModuleMapCache | lib/cli/module-map.js:217-221 | The module-map cache is empty. |
| ModuleMaps.ModuleMap.PersistModuleMapCache | lib/cli/module-map.js:290-305 | The cache becomes the old cache overridden by the map: it gains every node and drops nothing. |
| ModuleMaps.ModuleMap.MergeFromCache | lib/cli/module-map.js:244-260 | The map becomes the cache laid over the old map, or the cache alone when `destructive`. |
| ModuleMaps.ModuleMap.AddEntryFile | lib/cli/module-map.js:227-238 | `f` ends up an entry file and a node. An existing node leaves the map untouched. A new bare node is populated from `f` alone, without force, and tags everything it visits with `f`. |
| ModuleMaps.ModuleMap.Delete | lib/cli/module-map.js:266-284 | The result is whether `f` was a node; an absent `f` changes nothing. Otherwise `f` is removed and no survivor refers to it. A child left with no parent is removed in turn. `Minimal` states that only such children are: the removed files lie within every set that holds `f` and each child it orphans, so a file that keeps a parent outside the cascade survives. The removed files leave the entry files. |
| ModuleMaps.ModuleMap.DetachChild | lib/cli/module-map.js:270-277 | One child stops listing `f` as a parent and, left with none, is deleted. The partial deletion stays described by `Removal` and stays `Minimal`: only orphaned files are removed. |
| ModuleMaps.ModuleMap.ForgetChild | lib/cli/module-map.js:278-280 | Each listed parent that is in the map stops listing `f` as a child; nothing else changes. A listed parent missing from the map is skipped, where the code throws (corrected behaviour; see Findings). |
| ModuleMaps.ModuleMap.Populate | lib/cli/module-map.js:311-351 | The visited files are the seeds plus everything their resolved children reach, and nothing more. A visited node's children are replaced by the extractor's answer when forced or changed, and kept otherwise. Unvisited nodes are untouched, and parents are only added. Only entry seeds add tags, and a single entry seed tags every file it reaches. |
| ModuleMaps.ModuleMap.SeedStack | lib/cli/module-map.js:319-325 | One frame per seed. A frame carries the seed as its entry file exactly when the seed is an entry file. |
| ModuleMaps.ModuleMap.Walk | lib/cli/module-map.js:326-350 | The loop of `_populate` keeps its invariant until the stack is empty. |
| ModuleMaps.ModuleMap.VisitTop | lib/cli/module-map.js:327-349 | Visiting the top frame keeps the invariant. Either a new file becomes seen or the stack shrinks. |
| ModuleMaps.ModuleMap.Resolve | lib/cli/module-map.js:328-335 | The children used for a visit are the extractor's answer when forced or changed, and otherwise the node's current children. Only that node's children change. |
| ModuleMaps.ModuleMap.LinkChildren | lib/cli/module-map.js:338-349 | Every child becomes a node listing the visited file as a parent, tagged with the walk's entry file. Unseen children are pushed. |
| ModuleMaps.ModuleMap.LinkChild | lib/cli/module-map.js:339-348 | One child is linked and, if unseen, pushed and marked seen. |
| ModuleMaps.ModuleMap.Files | lib/cli/module-map.js:98-107 | The set of the map's keys. |
| ModuleMaps.ModuleMap.EntryDirs | lib/cli/module-map.js:122-124 | Exactly the directories of the entry files. |
| ModuleMaps.ModuleMap.FilterEntryFiles | lib/cli/module-map.js:366-368 | Exactly the given files that are entry files. |
| ModuleMaps.ModuleMap.MarkFileAsChanged | lib/cli/module-map.js:370-373 | The file is no longer up to date. |
| ModuleMaps.ModuleMap.MarkFilesAsChanged | lib/cli/module-map.js:383-387 | None of the given files is up to date any more. |
| ModuleMaps.ModuleMap.ChangedFiles | lib/cli/module-map.js:438-448 | The known files that are not up to date. |
| ModuleMaps.ModuleMap.GetChangedFiles | lib/cli/module-map.js:454-458 | Returns the changed files, then marks every known file up to date. |
| ModuleMaps.ModuleMap.AncestorWalk | lib/cli/module-map.js:416-423 | Succeeds iff every climbed file is in the map, and then returns `stop` plus exactly the climbed files. Otherwise it throws the TypeError of reading `parents` of `undefined`. |
| ModuleMaps.ModuleMap.AccumulateAffected | lib/cli/module-map.js:409-429 | Succeeds iff no climb reaches a missing file. It then returns the changed files plus everything each one affects. |
| ModuleMaps.ModuleMap.FindAffectedFiles | lib/cli/module-map.js:380-436 | Marked files stop being up to date. Without files it uses (and persists) the changed files. Names not in the map are dropped, and the nodes are repopulated without force. On success `allFiles` is the affected closure and `entryFiles` is `allFiles` ∩ entry files, both empty when nothing is known to change. A missing ancestor throws. |
| ModuleMaps.ModuleMap.AffectedFrom | lib/cli/module-map.js:391-431 | A run from the changed nodes, then the answer on the repopulated map. |
| ModuleMaps.ModuleMap.Answer | lib/cli/module-map.js:407-431 | The two sets of the answer, or the TypeError. |
| MapJsons.ToJson | lib/cli/module-map.js:466-473 | The map's serialisation lists each file once, in strictly ascending filename order. |
| MapJsons.CacheRoundTrip | lib/cli/module-map.js:244-260 | Reading back the serialised map, as `mergeFromCache` does, gives the map again. |
| MapJsons.ToJsonInjective | lib/cli/module-map.js:466-473 | Maps with equal serialisations are equal. |
| MapJsons.DecodeIsCreate | lib/cli/module-map.js:252-255 | Decoding a cached record is `ModuleMapNode.create` with its arrays. |
| DeletesAsWritten.CycleNeverFinishes | lib/cli/module-map.js:266-284 | As written, deleting one file of a two-file import cycle never finishes, whatever the budget. |
| DeletesAsWritten.OrphanedNeverFinishes | lib/cli/module-map.js:270-276 | Once both cycle files have lost their parents, deleting either recurses into the other forever. |
| DeletesAsWritten.TwoCycleLinked | lib/cli/module-map.js:338-349 | The two-file cycle is a consistent map: each file is a node and lists the other as a parent, as `_populate` links them. |
| DeletesAsWritten.CycleRemovedWhole | lib/cli/module-map.js:266-284 | The corrected deletion removes the whole cycle. |
| DeletesAsWritten.StaleLinked | lib/cli/module-map.js:328-349 | A file `c` that lists a parent `p` which no longer imports it is a consistent map, with `p` present or deleted: consistency runs from children to parents only. |
| DeletesAsWritten.StaleAfterDelete | lib/cli/module-map.js:266-284 | As written, deleting `p` from that map leaves `c` listing `p` as a parent. |
| DeletesAsWritten.StaleParentThrows | lib/cli/module-map.js:278-280 | As written, deleting `c` afterwards throws: the parents loop reads `children` of the missing `p`. |
| DeletesAsWritten.StaleParentRemoved | lib/cli/module-map.js:266-284 | The corrected deletion removes `c` and ends. |
| Rerunners.InitialInv | lib/cli/rerunner.js:28-40 | A new scheduler satisfies the invariant. |
| Rerunners.StepInv | lib/cli/rerunner.js:47-112 | Every step keeps the invariant: no timer while running, the flag tracks the run, and queued test files always have a run coming. |
| Rerunners.RunInv | lib/cli/rerunner.js:47-112 | The invariant holds after any feasible sequence of events. |
| Rerunners.DuplicateEnqueueIsNoOp | lib/cli/rerunner.js:47-60 | Enqueuing only files already queued changes nothing and does not restart the debounce window. |
| Rerunners.EnqueueTimer | lib/cli/rerunner.js:47-60 | After `enqueue`, each queue is its old contents united with the given files. The timer is restarted iff something new arrived and no run is in progress. |
| Rerunners.NoLostWork | lib/cli/rerunner.js:47-112 | After any events, every file ever enqueued is still queued or went to a run that started. |
| Rerunners.ThreeEnqueuesOneRun | lib/cli/rerunner.js:57-84 | Three enqueues on an idle scheduler, then the timer: exactly one run, with the union of everything enqueued, and both queues empty afterwards. |
| Rerunners.EnqueueDuringRun | lib/cli/rerunner.js:57-111 | Work enqueued during a run starts no second run. Completion re-arms the timer, and the next run carries that work. |
| Rerunners.AffectedOnlyWorkWaits | lib/cli/rerunner.js:109-111 | Affected files alone, queued during a run, do not re-arm the timer at completion. |
| Rerunners.FailureBreaksInvariant | lib/cli/rerunner.js:64-68 | As written, a failed run leaves `running` set with no run in flight and no timer. |
| Rerunners.StuckAfterFailure | lib/cli/rerunner.js:57-68 | As written, after a failed run no further run ever starts, whatever is enqueued. |
| Rerunners.DirectRunOverlaps | lib/cli/rerunner.js:57-105 | A direct `run()` on an idle scheduler leaves `running` clear while its run is in flight, so the invariant fails. An enqueue then arms the timer, and the timer's run starts while the first is still in flight. |
| Rerunners.RecoversAfterFailure | lib/cli/rerunner.js:64-68 | With the clean-up done, the invariant holds after a failure and new test files re-arm the timer. |
| Rerunners.Rerunner.constructor | lib/cli/rerunner.js:28-40 | Empty queues, not running, no timer; the delay is the given one or 100. |
| Rerunners.Rerunner.ValidateAdd | lib/cli/rerunner.js:147-151 | The result is true iff the value was not in the set; the value is in the set afterwards. |
| Rerunners.Rerunner.AddEach | lib/cli/rerunner.js:49-55 | The queue gains exactly the given files, and the flag says whether any was new. |
| Rerunners.Rerunner.Enqueue | lib/cli/rerunner.js:47-60 | The new state is `Enqueued` of the old one (see `EnqueueTimer`). |
| Rerunners.Rerunner.ResetDrainTimer | lib/cli/rerunner.js:62-72 | A new timer replaces any pending one. |
| Rerunners.Rerunner.BlastRequireCache | lib/cli/rerunner.js:118-126 | Exactly the given files leave the require cache; nothing else changes. |
| Rerunners.Rerunner.TimerFires | lib/cli/rerunner.js:64-67 | `running` is set, the timer is spent, and the queues are drained into a new run. |
| Rerunners.Rerunner.Drain | lib/cli/rerunner.js:77-84 | Both queues end empty, and the run receives exactly their contents from before. |
| Rerunners.Rerunner.Run | lib/cli/rerunner.js:91-105 | The new state is `Started` of the old one. The affected files leave the require cache. The runner is replaced by the hook's result when there is one and kept otherwise. A run starts with the given files, and `running` is left as it was. |
| Rerunners.Rerunner.RunCompletes | lib/cli/rerunner.js:105-112 | The timer is re-armed iff test files are queued, and then `running` is cleared. |
| Rerunners.Rerunner.RunFails | lib/cli/rerunner.js:64-68 | A failed run is cleaned up like a completed one (the corrected behaviour; see Findings). |

## Left out

- Disk I/O, `flat-cache` and `file-entry-cache` are abstract state. File
  fingerprinting (mtime or hash) is reduced to membership in `upToDate`.
- `resolver.js` (`findDependencies`) is the parameter `deps`. A file `deps`
  does not mention has no dependencies.
- Paths are assumed absolute, so `path.resolve` and `path.isAbsolute` are the
  identity. `path.dirname` is a parameter of `EntryDirs`.
- `ignore`, `cwd`, the cache filenames and the cache directory are left out.
  They only reach the extractor and the file system.
- `toString`, `debug` logging and `eraseLine` are left out as output only.
- `ModuleMap.create` and `Rerunner.create` only call the constructor.
- The ordering in the map's `toJSON` uses `localeCompare`. It is modelled as
  code-point order (`StringOrder.Below`), because locale collation is not
  modelled.
- StringOrder.SortedElements, ModuleMapNodes.ToJson: the arrays are sorted in
  code-point order (a Dafny `char` is a Unicode scalar value), where the
  default `.sort()` compares UTF-16 code units. The two orders agree on
  strings made of characters up to U+FFFF, and on characters above U+FFFF
  compared among themselves. They differ when a character above U+FFFF meets
  one in U+E000 to U+FFFF at the same position: code-point order puts
  U+E000 first, UTF-16 order puts U+1F600 (surrogate 0xD83D) first. File paths
  with such characters get their array entries in a different order; the
  members of each array are the same either way.
- JavaScript sets and arrays passed as options are modelled as sets or
  sequences. Iteration order is not modelled: each loop over a set picks its
  elements in an arbitrary order. The contracts hold for every order.
- Aliasing is not modelled. The setters take immutable sequences, so "later
  changes to the argument do not affect the node" holds by construction and is
  not a separate statement.
- Timers, `async`/`await` and real time in the scheduler are replaced by the
  events `TimerFires`, `RunCompletes` and `RunFails`. The `watcher` and the
  arguments of the `setupRun` hook are left out; the hook's result is a
  parameter. `require.cache` is a set of filenames.
- ModuleMaps.ModuleMap.Populate: entry-file tagging is stated only as bounds
  (tags are never dropped, only entry seeds are added). It is stated exactly
  only for a single entry seed. With several seeds, a file reached from two
  entry files can keep only the first tag, because `seen` stops the second
  walk (the source marks this with a TODO at module-map.js:336).
- ModuleMaps.ModuleMap.Populate: "each node is pushed at most once" does not
  hold for seeds. They are not in `seen` before they are popped, so a seed
  also reached as a child is visited twice. The model follows the code. It
  proves termination and the exact visited set, not a single visit.
- ModuleMaps.ModuleMap.Populate: the consistency of the map (`Linked`) after a
  run is a separate lemma (`Populations.LinkedKept`), not part of the method's
  contract. Consistency is only one-directional, because stale parent entries
  are never withdrawn when a file drops an import.
- ModuleMaps.ModuleMap.Delete: models the corrected deletion (see Findings).
  It also skips a listed child that is not in the map, where the code would
  throw on `this.get(child)`. On a consistent map that case cannot arise.
- ModuleMaps.ModuleMap.Delete: a listed parent that is not in the map is
  skipped (`ForgetChild`), where the code throws a TypeError on
  `this.get(parent).children`. This case does arise on a consistent map.
  `_populate` replaces a re-read file's children but never withdraws the
  parent entries they held, and deleting that file then leaves a parent
  entry naming a missing file. The second Findings row records it.
- Rerunners.StepInv: a direct call of `run()` (as `watch-run.js` makes at
  start-up, and the unit tests make) is not an event of the machine. The
  invariant holds only for runs the timer started.
  `Rerunners.DirectRunOverlaps` shows what a direct run breaks.
- Rerunners.EnqueueDuringRun: "no second run while one is in flight" holds
  only for runs the timer started. During a direct run an enqueue arms the
  timer, and a second run can overlap the first (`Rerunners.DirectRunOverlaps`).
- ModuleMaps.ModuleMap.FindAffectedFiles: only `files` and `markChangedFiles`
  are options. The integration tests also pass `knownChangedFiles`, which the
  code never reads; the model follows the code.
- ModuleMaps.ModuleMap.FindAffectedFiles: the changed nodes are repopulated
  without force. When no files are given, `getChangedFiles` first marks every
  file up to date, so that run keeps the changed files' old children. The
  model states exactly this: `Repopulated` with the updated `upToDate`.
- `watch-run.js`, `signals.js`, the ESM helpers and the test helpers are not
  part of this model.

## Findings

| source | as written | input that shows it | evidently intended | confidence | as-written member | corrected member |
|---|---|---|---|---|---|---|
| lib/cli/module-map.js:266-284 | `delete` recurses into each orphaned child while the file being deleted is still in the map and still lists its children. There is no visited set. | Two files `a` and `b` that import each other and nothing else imports (a consistent map). `delete(a)` empties `b`'s parents and deletes `b`. That empties `a`'s parents and deletes `a` again, and so on until the call stack overflows. | The deletion finishes and removes both files. | high for the loop on this input; not executed | DeletesAsWritten.CycleNeverFinishes | ModuleMaps.ModuleMap.Delete |
| lib/cli/module-map.js:278-280 | The parents loop of `delete` calls `this.get(parent)` for every listed parent, with no check that the map still holds it. | `p` imports `c`, and both are cached. `p` is edited to drop the import, and `_init`'s forced `_populate` re-reads `p`: `p`'s children become empty, but `c` still lists `p` as a parent. `delete(p)` succeeds. `delete(c)` then throws a TypeError on `this.get("p").children`. | Deleting `c` skips the parent that is gone and removes `c`. | medium (needs the stale parent entry, which `_populate` leaves); not executed | DeletesAsWritten.StaleParentThrows | ModuleMaps.ModuleMap.Delete |
| lib/cli/rerunner.js:64-68 | `running = false` follows `await this.drain()` with no `try`/`finally`. A run that rejects leaves `running` true for good. | A run whose `runAsync` rejects, then `enqueue(["t.spec.js"])`. `added` is true but `running` is still true, so the timer is never armed and no run ever starts again. | A failed run is cleaned up like a completed one: `running` is cleared and queued test files re-arm the timer. | medium (depends on `runAsync` rejecting); not executed | Rerunners.StuckAfterFailure | Rerunners.RecoversAfterFailure |
