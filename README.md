# SoyCacheUpdater, modelled in Dafny

`SoyCacheUpdater` keeps the template caches of a Closure Templates (Soy)
editor plugin up to date. Each workspace module has two caches:

- a namespace cache, which maps each namespace to a template bucket (`TemplateCache`);
- a delegate-package cache, which maps each delegate package to a bucket (`DelegateTemplateCache`).

A bucket records which files contribute to it and, under each template name, the entries those files declare. A file points back to the bucket it last registered in.

This project models four things:

- **The directive pass** of `updateCacheImpl`. It reads the `{namespace}`, `{delpackage}`, `{template}` and `{deltemplate}` commands of a file in document order. Namespace and delegate package are first-wins and default when absent. Every other command's operand becomes a template name or a delegate-template name (module `Directives`, file `directives.dfy`).
- **The cache protocol.** This covers:
  - the eligibility gate (`isCacheableSoyFile`);
  - `updateCache`, which removes the file's old bucket from both caches, then adds its new directives to both;
  - `removeFromCache`, which falls back to every module when the file has no module;
  - the remove phase of each cache kind;
  - the `disposed` latch and the last-update stamp.

  Modules `Caches` (`caches.dfy`) and `Updater` (`updater.dfy`) hold it. The value-level phases are functions with lemmas. `CacheStore` and `SoyCacheUpdater` are classes whose methods are proved to perform those functions.
- **The cache debugger's diff walk.** `CacheDebugger.logChanges` merges two key-ordered maps whose values are leaves or nested maps. It counts the changes and logs `+`/`-` lines and a "recorded N change(s) to ..." trailer, labelled by `getLabel` (module `CacheDebugger`, file `debugger.dfy`).
- **Helpers** for string comparison and decimal text (module `Text`, file `text.dfy`), and an `Option` type (module `Wrappers`).

The host's lookups are parameters of the methods:

- the file's module (`fileModule`, `None` for a file outside every module);
- the file's document, as its sequence of regular-expression matches (`None` when the host has no document);
- the list of workspace modules;
- the file's validity, length and extension;
- the clock reading stored in the last-update stamp (`now`).

A cache object is named by the module it belongs to. The identity of a bucket, which the namespace remove phase compares with `==`, is a number drawn from a counter in the store.

## Model

All source paths are relative to the repository root; `U` below stands for `src/net/venaglia/nondairy/soylang/cache/SoyCacheUpdater.java`.

| member | source | states |
|---|---|---|
| Directives.Extract | src/net/venaglia/nondairy/soylang/cache/SoyCacheUpdater.java:149-167 | definition, no contract: the reference fold over the matches (first namespace and first delegate package with their defaults, every template and deltemplate operand in order); its partners are FirstOperandIsFirst, OperandsMembership and ExtractDirectives |
| Directives.FirstOperandIsFirst | src/net/venaglia/nondairy/soylang/cache/SoyCacheUpdater.java:153-160 | the namespace or delegate package the fold keeps is absent exactly when no match of that command exists, and otherwise is the operand of the first such match |
| Directives.FirstOperandSnoc | src/net/venaglia/nondairy/soylang/cache/SoyCacheUpdater.java:153-160 | one more match sets the namespace or delegate package only if none was set before |
| Directives.OperandsAppend | src/net/venaglia/nondairy/soylang/cache/SoyCacheUpdater.java:161-165 | templates and deltemplates collect operands in match order: the list of a concatenation is the concatenation of the lists |
| Directives.OperandsMembership | src/net/venaglia/nondairy/soylang/cache/SoyCacheUpdater.java:161-165 | an operand is collected exactly when some match of that kind carries it |
| Directives.LaterMatchesKeepNamespace | src/net/venaglia/nondairy/soylang/cache/SoyCacheUpdater.java:157-160 | first wins: once a namespace command has been seen, later matches never change the namespace |
| Directives.LaterMatchesKeepDelegate | src/net/venaglia/nondairy/soylang/cache/SoyCacheUpdater.java:153-156 | first wins for the delegate package |
| Directives.ExtractSnoc | src/net/venaglia/nondairy/soylang/cache/SoyCacheUpdater.java:151-166 | one more match changes the extracted directives exactly as one turn of the loop does, for each of the four branches |
| Directives.UpperCaseNamespaceIsTemplate | src/net/venaglia/nondairy/soylang/cache/SoyCacheUpdater.java:153-165 | the command comparisons are exact and case-sensitive: `NAMESPACE` is filed as a template and sets no namespace |
| Directives.ExtractDirectives | src/net/venaglia/nondairy/soylang/cache/SoyCacheUpdater.java:144-167 | the loop yields the first-wins namespace and delegate package (defaults when absent or when there is no document) and every other operand in order |
| Caches.RemoveNamespaceBucket | src/net/venaglia/nondairy/soylang/cache/SoyCacheUpdater.java:214-225 | a key is dropped exactly when the back-linked bucket is the very bucket stored under it; nothing else changes |
| Caches.RemoveDelegateBucket | src/net/venaglia/nondairy/soylang/cache/SoyCacheUpdater.java:227-232 | the back-linked bucket's key is dropped whatever is stored there; nothing else changes |
| Caches.AddEntriesContents | src/net/venaglia/nondairy/soylang/cache/SoyCacheUpdater.java:172-176 | every listed template gets its entry, no entry is lost, and nothing else is added |
| Caches.AddEntriesSnoc | src/net/venaglia/nondairy/soylang/cache/SoyCacheUpdater.java:172-176 | loop-step helper: one more template adds its entry to what the templates before it gave |
| Caches.AddPhase | src/net/venaglia/nondairy/soylang/cache/SoyCacheUpdater.java:168-189 | the owner's bucket exists, lists the file, links back from it and holds an entry per template; other keys are unchanged; a fresh identity is issued only for a new bucket |
| Caches.AddKeepsConsistent | src/net/venaglia/nondairy/soylang/cache/SoyCacheUpdater.java:168-189 | the add phase keeps every entry under its own name, owner and delegate flag, from a contributing file |
| Caches.UpdateKeepsConsistent | src/net/venaglia/nondairy/soylang/cache/SoyCacheUpdater.java:116-127 | the remove and add phases of an update keep a cache consistent |
| Caches.UpdateKeepsIdsIssued | src/net/venaglia/nondairy/soylang/cache/SoyCacheUpdater.java:116-127 | an update never reuses a bucket identity |
| Caches.RemoveClearsFile | src/net/venaglia/nondairy/soylang/cache/SoyCacheUpdater.java:214-232 | with coherent back-links, the remove phase removes every bucket the file contributes to |
| Caches.UpdateKeepsCoherent | src/net/venaglia/nondairy/soylang/cache/SoyCacheUpdater.java:116-127 | after an update every contributing file links back to its bucket |
| Caches.UpdateThenRemoveForgetsFile | src/net/venaglia/nondairy/soylang/cache/SoyCacheUpdater.java:192-232 | update then remove leaves no bucket listing the file and no entry from it |
| Caches.UpdateTwiceWhenUnshared | src/net/venaglia/nondairy/soylang/cache/SoyCacheUpdater.java:116-127 | updating a file twice gives the contents of one update when the owner's bucket is not shared |
| Caches.RemovingOneFileDropsSharedBucket | src/net/venaglia/nondairy/soylang/cache/SoyCacheUpdater.java:214-225 | two files in one namespace share a bucket, and removing one drops the bucket with the other's entries |
| Updater.IsCacheableSoyFile | src/net/venaglia/nondairy/soylang/cache/SoyCacheUpdater.java:132-138 | definition, no contract: a file is eligible when it is valid, shorter than 1000000 bytes and has the template extension; its partner is CacheableLengthBoundary, and UpdateCache is specified by it |
| Updater.CacheableLengthBoundary | src/net/venaglia/nondairy/soylang/cache/SoyCacheUpdater.java:132-138 | for every file: an invalid one, one of 1000000 bytes or more, or one without the "soy" extension is never eligible, and a valid "soy" file under the limit always is; the limit is strict (999999 bytes is eligible, 1000000 is not) |
| Updater.UpdateStore | src/net/venaglia/nondairy/soylang/cache/SoyCacheUpdater.java:116-127 | definition, no contract: the namespace remove, the delegate remove, the namespace add and the delegate add on the file's module, in that order; its partners are the UpdateStore lemmas below and UpdateCache |
| Updater.AddToCache | src/net/venaglia/nondairy/soylang/cache/SoyCacheUpdater.java:168-189 | the getOrCreate / addFile / per-template loop performs the add phase |
| Updater.RemoveNamespaceAtKeepsValid | src/net/venaglia/nondairy/soylang/cache/SoyCacheUpdater.java:214-225 | the namespace remove phase keeps the store valid |
| Updater.RemoveDelegateAtKeepsValid | src/net/venaglia/nondairy/soylang/cache/SoyCacheUpdater.java:227-232 | the delegate remove phase keeps the store valid |
| Updater.AddNamespaceAtKeepsValid | src/net/venaglia/nondairy/soylang/cache/SoyCacheUpdater.java:168-178 | the namespace add phase keeps the store valid |
| Updater.AddDelegateAtKeepsValid | src/net/venaglia/nondairy/soylang/cache/SoyCacheUpdater.java:179-189 | the delegate add phase keeps the store valid |
| Updater.UpdateStoreKeepsValid | src/net/venaglia/nondairy/soylang/cache/SoyCacheUpdater.java:116-127 | an eligible update keeps the store valid |
| Updater.UpdateStoreRegistersNamespace | src/net/venaglia/nondairy/soylang/cache/SoyCacheUpdater.java:116-127 | after an update the file is registered in the bucket of its namespace, with an entry per declared template |
| Updater.UpdateStoreRegistersDelegate | src/net/venaglia/nondairy/soylang/cache/SoyCacheUpdater.java:116-127 | after an update the file is registered in the bucket of its delegate package, with an entry per declared delegate template |
| Updater.UpdateStoreLeavesOtherNamespaceCaches | src/net/venaglia/nondairy/soylang/cache/SoyCacheUpdater.java:116-127 | an update leaves the namespace caches of other modules untouched |
| Updater.UpdateStoreLeavesOtherDelegateCaches | src/net/venaglia/nondairy/soylang/cache/SoyCacheUpdater.java:116-127 | an update leaves the delegate-package caches of other modules untouched |
| Updater.UpdateStoreIsUpdatePhases | src/net/venaglia/nondairy/soylang/cache/SoyCacheUpdater.java:116-127 | on the file's module, both caches and both back-link maps are the single-cache remove-then-add update of their old state; the delegate update draws identities from the counter the namespace update left |
| Updater.RemoveNamespaceInStep | src/net/venaglia/nondairy/soylang/cache/SoyCacheUpdater.java:200-202 | each turn of the fallback loop adds one module to those removed from |
| Updater.RemoveDelegateInStep | src/net/venaglia/nondairy/soylang/cache/SoyCacheUpdater.java:208-210 | likewise for the delegate-package caches |
| Updater.RemoveInKeepsValid | src/net/venaglia/nondairy/soylang/cache/SoyCacheUpdater.java:199-211 | removing from any set of modules keeps the store valid |
| Updater.RemoveAtIsRemoveIn | src/net/venaglia/nondairy/soylang/cache/SoyCacheUpdater.java:196-211 | removing from the file's module is the fallback restricted to that module |
| Updater.RemoveInNothing | src/net/venaglia/nondairy/soylang/cache/SoyCacheUpdater.java:199-211 | the fallback over no module changes nothing |
| Updater.AddKeepsValid | src/net/venaglia/nondairy/soylang/cache/SoyCacheUpdater.java:168-189 | the add phase keeps a cache consistent, issues identities in order and never lowers the counter |
| Updater.CacheStore.RemoveNamespaceBucketOf | src/net/venaglia/nondairy/soylang/cache/SoyCacheUpdater.java:214-225 | removeFromCacheImpl, including its second remove when the cache is empty, performs the namespace remove phase on one module |
| Updater.CacheStore.RemoveDelegateBucketOf | src/net/venaglia/nondairy/soylang/cache/SoyCacheUpdater.java:227-232 | removeFromCacheImpl performs the delegate remove phase on one module |
| Updater.CacheStore.RemoveNamespaceBucketsOf | src/net/venaglia/nondairy/soylang/cache/SoyCacheUpdater.java:199-203 | the fallback loop removes from the namespace cache of every listed module and of no other |
| Updater.CacheStore.RemoveDelegateBucketsOf | src/net/venaglia/nondairy/soylang/cache/SoyCacheUpdater.java:207-211 | the fallback loop removes from the delegate-package cache of every listed module and of no other |
| Updater.CacheStore.AddToNamespaceCache | src/net/venaglia/nondairy/soylang/cache/SoyCacheUpdater.java:168-178 | performs the namespace add phase on one module |
| Updater.CacheStore.AddToDelegateCache | src/net/venaglia/nondairy/soylang/cache/SoyCacheUpdater.java:179-189 | performs the delegate add phase on one module |
| Updater.SoyCacheUpdater.constructor | src/net/venaglia/nondairy/soylang/cache/SoyCacheUpdater.java:70-82 | a new updater is not disposed and has no last update |
| Updater.SoyCacheUpdater.GetNamespaceCache | src/net/venaglia/nondairy/soylang/cache/SoyCacheUpdater.java:234-241 | a cache is returned exactly when the updater is not disposed and the file has a module, and it is that module's |
| Updater.SoyCacheUpdater.GetDelegatePackageCache | src/net/venaglia/nondairy/soylang/cache/SoyCacheUpdater.java:243-250 | likewise for the delegate-package cache |
| Updater.SoyCacheUpdater.UpdateCacheImpl | src/net/venaglia/nondairy/soylang/cache/SoyCacheUpdater.java:140-190 | the extracted directives are added to each cache that is present, namespace first |
| Updater.SoyCacheUpdater.UpdateCache | src/net/venaglia/nondairy/soylang/cache/SoyCacheUpdater.java:112-138 | disposed or ineligible: nothing changes; eligible: the store is the remove-then-add update of the file's module (unchanged without a module) and the stamp is set; validity is kept |
| Updater.SoyCacheUpdater.ProcessFile | src/net/venaglia/nondairy/soylang/cache/SoyCacheUpdater.java:96-102 | the same contract as updateCache |
| Updater.SoyCacheUpdater.RemoveFromCache | src/net/venaglia/nondairy/soylang/cache/SoyCacheUpdater.java:192-211 | disposed: nothing changes; with a module: both remove phases on that module; without: both remove phases on every listed module; validity is kept |
| Updater.SoyCacheUpdater.Dispose | src/net/venaglia/nondairy/soylang/cache/SoyCacheUpdater.java:252-254 | sets the latch and leaves the stamp alone |
| CacheDebugger.GetLabel | src/net/venaglia/nondairy/soylang/cache/SoyCacheUpdater.java:325-338 | a template cache is labelled "TemplateCache for ...", a namespace cache by its module name in quotes, anything else by its text |
| CacheDebugger.TemplateLabelsDistinct | src/net/venaglia/nondairy/soylang/cache/SoyCacheUpdater.java:326-332 | template caches of different namespaces get different labels, the default namespace included |
| CacheDebugger.CacheLabelsDistinct | src/net/venaglia/nondairy/soylang/cache/SoyCacheUpdater.java:326-334 | a template cache's label never equals a namespace cache's (a sanity check: the two forms differ in their first character) |
| CacheDebugger.TrailerText | src/net/venaglia/nondairy/soylang/cache/SoyCacheUpdater.java:419-425 | definition, no contract: "recorded N change to" for one change and "recorded N changes to" otherwise, then the label; its partner is TrailerTextDeterminesCount |
| CacheDebugger.TrailerTextDeterminesCount | src/net/venaglia/nondairy/soylang/cache/SoyCacheUpdater.java:419-425 | different change counts give different trailers |
| CacheDebugger.Merge | src/net/venaglia/nondairy/soylang/cache/SoyCacheUpdater.java:360-418 | definition, no contract: the three loops of one map level as a reference function; the lemmas below state its properties and MergeBoth, DrainCurrent and DrainPrevious are proved to compute it |
| CacheDebugger.Walk | src/net/venaglia/nondairy/soylang/cache/SoyCacheUpdater.java:349-427 | definition, no contract: the merge one level deeper, then the trailer when a change was counted and there is a parent; LogChanges is proved to compute it |
| CacheDebugger.MergeIdentical | src/net/venaglia/nondairy/soylang/cache/SoyCacheUpdater.java:360-418 | identical maps: no change counted, nothing logged |
| CacheDebugger.WalkIdentical | src/net/venaglia/nondairy/soylang/cache/SoyCacheUpdater.java:349-427 | identical maps: no change and no trailer |
| CacheDebugger.MergeCountsWhatItLogs | src/net/venaglia/nondairy/soylang/cache/SoyCacheUpdater.java:360-418 | the merge counts a change exactly when it logs a line |
| CacheDebugger.WalkCountsWhatItLogs | src/net/venaglia/nondairy/soylang/cache/SoyCacheUpdater.java:349-427 | the walk returns zero exactly when it logs nothing |
| CacheDebugger.MergeAllAdded | src/net/venaglia/nondairy/soylang/cache/SoyCacheUpdater.java:397-407 | against an empty previous map every leaf of current is one change |
| CacheDebugger.WalkAllAdded | src/net/venaglia/nondairy/soylang/cache/SoyCacheUpdater.java:397-407 | the same for the walk with its trailer |
| CacheDebugger.MergeAllRemoved | src/net/venaglia/nondairy/soylang/cache/SoyCacheUpdater.java:408-418 | against an empty current map every leaf of previous is one change |
| CacheDebugger.WalkAllRemoved | src/net/venaglia/nondairy/soylang/cache/SoyCacheUpdater.java:408-418 | the same for the walk with its trailer |
| CacheDebugger.LeafCountPositive | src/net/venaglia/nondairy/soylang/cache/SoyCacheUpdater.java:397-418 | a non-empty map without empty nested maps has a leaf to count |
| CacheDebugger.MergeCountsZeroIffEqual | src/net/venaglia/nondairy/soylang/cache/SoyCacheUpdater.java:360-418 | with no empty nested map on either side, no change is counted exactly when the maps are equal |
| CacheDebugger.EmptyNestedMapGoesUnnoticed | src/net/venaglia/nondairy/soylang/cache/SoyCacheUpdater.java:408-418 | a vanished empty nested map is walked, finds nothing and is not reported |
| CacheDebugger.MergePaths | src/net/venaglia/nondairy/soylang/cache/SoyCacheUpdater.java:360-418 | every line lies one level down, under a key of one of the maps, at the next indent or deeper |
| CacheDebugger.WalkPaths | src/net/venaglia/nondairy/soylang/cache/SoyCacheUpdater.java:349-427 | every line of a walk lies under its key chain at its indent or deeper |
| CacheDebugger.MergeAscending | src/net/venaglia/nondairy/soylang/cache/SoyCacheUpdater.java:360-418 | over sorted maps the lines follow ascending key order |
| CacheDebugger.AddedWhenOnlyInCurrent | src/net/venaglia/nondairy/soylang/cache/SoyCacheUpdater.java:370-376 | an entry under a key previous lacks is logged: a leaf as one "+" line; a nested map either whole as one "+" line (while previous still has entries) or by a walk against nothing, every line of which is in the log |
| CacheDebugger.RemovedWhenOnlyInPrevious | src/net/venaglia/nondairy/soylang/cache/SoyCacheUpdater.java:377-383 | an entry under a key current lacks is logged: a leaf as one "-" line; a nested map either whole as one "-" line (while current still has entries) or by a walk against nothing, every line of which is in the log |
| CacheDebugger.ReplacedWhenValuesDiffer | src/net/venaglia/nondairy/soylang/cache/SoyCacheUpdater.java:384-392 | a key whose values differ, and are not both maps, logs "-" of the old value and "+" of the new |
| CacheDebugger.NothingLoggedWhenValuesEqual | src/net/venaglia/nondairy/soylang/cache/SoyCacheUpdater.java:385-386 | a key whose values are equal logs no line |
| CacheDebugger.WalkTrailer | src/net/venaglia/nondairy/soylang/cache/SoyCacheUpdater.java:419-425 | the trailer is the last line, at the walk's indent, exactly when a change was counted and there is a parent, and it names the count and the parent's label |
| CacheDebugger.StartAsWritten | src/net/venaglia/nondairy/soylang/cache/SoyCacheUpdater.java:356-359 | as written, the start throws exactly when previous is non-empty and current has fewer than two entries; otherwise p is current's second entry |
| CacheDebugger.UnchangedSingleEntryThrowsAsWritten | src/net/venaglia/nondairy/soylang/cache/SoyCacheUpdater.java:356-359 | a module cache with one namespace holding one template, compared with an unchanged copy, makes the start as written throw, while the corrected walk reports no change |
| CacheDebugger.UnchangedSnapshotMisalignedAsWritten | src/net/venaglia/nondairy/soylang/cache/SoyCacheUpdater.java:356-366 | with two or more sorted entries, the start as written pairs current's first entry with current's second, so its first comparison finds c's key smaller and logs c as added, while the corrected merge of an unchanged map logs nothing |
| CacheDebugger.BothTurn | src/net/venaglia/nondairy/soylang/cache/SoyCacheUpdater.java:360-396 | loop-step helper: one turn of the first loop logs the smaller key, or compares the values of a shared key, and leaves the rest of the merge |
| CacheDebugger.CurrentTurn | src/net/venaglia/nondairy/soylang/cache/SoyCacheUpdater.java:397-407 | loop-step helper: one turn of the second loop walks a nested map against nothing or logs a leaf as added |
| CacheDebugger.PreviousTurn | src/net/venaglia/nondairy/soylang/cache/SoyCacheUpdater.java:408-418 | loop-step helper: one turn of the third loop walks a nested map against nothing or logs a leaf as removed |
| CacheDebugger.MergeBoth | src/net/venaglia/nondairy/soylang/cache/SoyCacheUpdater.java:360-396 | the first loop stops when either side is exhausted, having logged the merge of what it passed |
| CacheDebugger.DrainCurrent | src/net/venaglia/nondairy/soylang/cache/SoyCacheUpdater.java:397-407 | the second loop logs the merge of the rest of current against nothing |
| CacheDebugger.DrainPrevious | src/net/venaglia/nondairy/soylang/cache/SoyCacheUpdater.java:408-418 | the third loop logs the merge of the rest of previous against nothing |
| CacheDebugger.LogChanges | src/net/venaglia/nondairy/soylang/cache/SoyCacheUpdater.java:349-427 | the three loops, the recursive calls and the trailer compute the walk |

## Left out

- The background thread, its 250 ms sleep, the debounce on the last-update stamp and `checkForUpdate` (`U`:274-304). They are timing and I/O. The clock reading is the `now` parameter of `UpdateCache`.
- The top-level `logChanges(project, log)` (`U`:306-323). This is the per-module snapshot bookkeeping in `lastVersions` and the cloning of caches (`cloneOf`, `U`:429-438). The walk is modelled for one pair of maps.
- The writes into the previous snapshot inside the walk (`U`:373-375 and 380-382). The walk's logged lines and count are modelled as if those writes did not happen. The write at 374 can affect the later comparison of the same `p` within the same walk, and that effect is not modelled. The write at 381 removes `c.getKey()` where `p.getKey()` is evidently meant; since the writes are left out, that slip is not modelled.
- The regular expression and its `UNICODE_CASE` flag: the matches of a document are the input of the directive pass.
- The project's module index, the document and module lookups, and the file's extension and length: these are host calls and become parameters.
- `queryNeededFiles`, `getNumberOfPendingUpdateJobs`, `updatingDone` and `canceled` (`U`:84-110). These are a host query, a constant and empty hooks.
- Starting the debugger thread when a system property is set (`U`:76-81). The constructor is modelled without it.
- The `added` notifications (`U`:177, 188). They go to listener code that is not part of this model.
- The text of logged values (`println(value)`) and indentation as spaces. A line carries its value, its depth (one step is four spaces) and the chain of keys leading to it. The chain is a model annotation that the log does not print.
- CacheDebugger.Merge: nested maps below the first level are labelled as template caches. In the caches the walk is run on, the values of a template cache are sets of entries (leaves), so no deeper map occurs.
- CacheDebugger.Merge: the value equality of line 385 is modelled as structural equality of the entry sequences, which for maps with ascending keys is map equality.
- Text.Compare: `String.compareTo` is modelled by its sign only, which is all the walk uses.
- Updater.SoyCacheUpdater.UpdateCache: the stamp is an `AtomicLong`. Concurrent updates and removals are not modelled.

Behaviour of the code that a reader might not expect (the model follows the code):

- Both remove phases drop the whole bucket the file last registered in, so the other files that share it lose their entries too (`Caches.RemovingOneFileDropsSharedBucket`). Updating a file twice is therefore idempotent only when the bucket is not shared (`Caches.UpdateTwiceWhenUnshared`).
- When the file has no module, the delegate fallback (`U`:207-210, through `U`:230) drops the file's back-linked delegate-package key from the delegate cache of every listed module, whoever registered it there. There is no identity test, so a module the file never registered in loses its bucket under that key too (`Updater.RemoveDelegateIn`, built from `Caches.RemoveDelegateBucket`).
- A bucket whose file set becomes empty is not removed. The second `remove` call after `isEmpty` (`U`:220-222) is kept and has no effect.
- `removeFromCache` guards the delegate removal (`U`:205) with the namespace cache's null test where the delegate cache's is evidently meant. Both getters answer from the same module lookup and the same disposed latch, so the two tests always agree. The model uses the delegate cache's test, and `Updater.SoyCacheUpdater.RemoveFromCache` asserts that the two agree.
- The fold tests "not yet set" by reference comparison with the default strings (`U`:154, 158). A matched group is always a new string, so the model uses a flag.

## Findings

| source | as written | input that shows it | evidently intended | confidence | as-written member | corrected member |
|---|---|---|---|---|---|---|
| src/net/venaglia/nondairy/soylang/cache/SoyCacheUpdater.java:359 | `p` is drawn from the iterator over `current` (`cIter.next()`), after `pIter.hasNext()` is tested | a module cache with one namespace compared against an unchanged snapshot of itself: `next()` throws `NoSuchElementException`, which `run()` catches by leaving its loop, so the debugger stops; with two or more entries, `p` becomes current's second entry and the diff is wrong | `p = pIter.hasNext() ? pIter.next() : null` | high (not executed) | CacheDebugger.StartAsWritten, CacheDebugger.UnchangedSingleEntryThrowsAsWritten, CacheDebugger.UnchangedSnapshotMisalignedAsWritten | CacheDebugger.LogChanges, CacheDebugger.WalkIdentical |
