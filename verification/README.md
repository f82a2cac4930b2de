# Ferridriver: a verified model of its configuration stack, BDD runner and matchers

Ferridriver drives browsers and runs Gherkin scenarios. This project models, in Dafny, the parts of it
whose behaviour cannot be read off one function body, and proves what they promise.

| file | what it models |
|---|---|
| `json.dfy` | JSON documents |
| `merge.dfy`, `merge_laws.dfy`, `ledger.dfy`, `merge_reads.dfy` | the deep merge of configuration layers, its algebra, the ledger that says which layer won a path and which layers supplied an additive array, and what every path of a merged document holds |
| `extends_walk.dfy`, `extends_graph.dfy`, `extends_order.dfy` | the depth-first `extends` walk over any finite graph of files, and the order it merges them in |
| `paths.dfy`, `anchor.dfy`, `anchor_reach.dfy` | lexical path normalization, the anchoring of a document's paths, and what becomes of each value |
| `browser_defaults.dfy`, `browser_reads.dfy` | handing the top-level `[browser]` keys down to the sections, the ledger of it, and what every path reads afterwards |
| `startup_resolve.dfy`, `startup_normalize.dfy` | one resolve of the whole stack, which part of it wins, and what normalizing makes of a document |
| `startup.dfy`, `startup_phases.dfy`, `startup_exact.dfy`, `startup_limits.dfy` | the two-phase startup: documents first, then the whole stack; when the two agree, and where they part |
| `command_cache.dfy` | the single-flight cache of command output, as a transition system and as a class |
| `tag_filter.dfy`, `tag_lexing.dfy`, `tag_meaning.dfy` | tag expressions: tokenizer, parser, grammar, printer, which texts tokenize, and what filters select |
| `command_spec.dfy`, `command_filling.dfy`, `command_words.dfy` | `${name}` substitution in commands, how a template reads, and what a POSIX shell makes of the result |
| `scanning.dfy` | what the hand-written scanners share |
| `templates.dfy`, `template_reading.dfy` | `<column>` templates of Scenario Outlines |
| `world.dfy` | `$name` interpolation, by the executor and by the dry run |
| `registry.dfy`, `executor.dfy`, `executor_laws.dfy`, `dry_run.dfy` | step matching, the scenario run with its observer, what each step sees and leaves, and the dry run that predicts it |
| `expression.dfy` | mapping parameters onto capture groups |
| `splitmix.dfy`, `shuffle.dfy` | the random generator and the seeded shuffle of the test order |
| `asymmetric.dfy`, `asymmetric_meaning.dfy` | structural comparison with embedded matchers, and which values each matcher accepts |
| `polling.dfy` | retrying against a deadline |

Code that updates things in place is modelled by methods and classes, each proved against a function or a
transition of its old state; the properties are then proved of those functions and transitions. Whatever
the code takes from outside is a parameter: the files on disk and their documents, the order in which a map
is walked, the results and durations of commands and attempts, the step handlers and hooks, the regex
engine, and the Unicode classes beyond ASCII. So every theorem holds for all of them.

`dafny verify dfyconfig.toml` checks the project.

## Where the code and its description differ

- `normalize_path` says a relative path keeps the `..` it needs. `pop` also removes a `..` that was kept, so
  `../..` comes out empty. `Paths.NormalizedRelative` gives the exact condition: the meaning survives if and
  only if the path climbs at most one level. Rooted paths always keep it.
- `evict` says the next call re-runs the command. An execution that is under way when the eviction happens
  stores its older result afterwards, and that result is then served; a flush is no different.
  `CommandCache.EvictionIsEffective` gives the exact condition: no execution of the key is under way.
- Folding the documents alone is said to settle every key that a module may not set. The check behind this sees
  the module's own document only, and it lets two things through:
  - a module that sets `test` to a scalar wipes `test.moduleAliases` (`StartupLimits.ScalarTestWipesAliases`);
    of the module's own document, nothing else does harm (`StartupLimits.CheckedModuleIsHarmless`);
  - a file the module names in `extends` is merged unchecked, so a module that sets nothing itself can bring
    `[bundler]` or any other of the keys with it (`StartupLimits.ExtendedFileIsUnchecked`).

  `Startup.LayersAreHarmless` and `StartupExact.ModuleIsHarmless` give the exact condition: whatever the document
  beside a module says, the two phases settle the same if and only if the module and every file it brings set none
  of the keys and keep `test` a table. `StartupPhases.PhasesAgree` shows that this suffices in any stack. A file
  that was merged before the module is not brought by it. Where a brought file has several paths the theorem
  assumes it of each path, and that none of them extends more than the path visited.
- The documents alone may be refused although the whole stack resolves: they are deserialized and validated by
  themselves, so when a module repairs what a document breaks it is never compiled
  (`StartupLimits.DocumentsAloneMayBeRefused`); and there is no module loader yet, so a document that extends a
  module cannot be read (`StartupLimits.ExtendedModuleNeedsLoader`). `StartupPhases.PhasesAgree` says that when
  the discovered documents and all they reach are documents, at readable paths where the file is readable at all,
  they are refused exactly when their own merged document is.
- `apply_global_browser_defaults` says provenance records the top-level key as the source of a copy. It does so only
  for a key that is a leaf: a copied `viewport` table brings leaves without a winner, and an empty section that is
  copied into keeps its winner. `BrowserDefaults.DefaultsKeepLedgerExact` gives the exact condition.
- The cache is said to be keyed by the resolved command. Its key leaves out the output mode and the timeout,
  so one command line declared with `output = "json"` and with `output = "lines"` shares one entry, in the
  shape of whichever ran first. `CommandCache.KeyIdentifies` says exactly what the key tells apart.
- `extends` is resolved against the directory of a path, while files are told apart by canonical path. A file
  reached directly and through a link in another directory extends what the path visited first names, and
  what only the other names stays unmerged (`ExtendsGraph.LinkedFileHidesParents`). `ExtendsGraph.Coherent`
  says that paths to one file agree; only the theorems that need it assume it. It is sufficient, not necessary:
  on a disk where paths disagree, it depends on the order of the walk whether anything is missed.
- The merge's ledger goes stale when a member turns from a non-empty object into something else, or back.
  `LayerLedger.MergeKeepsLedgerExact` gives the exact condition.
- In shell form every value is single-quoted, so that whatever it holds stays one piece of its word
  (crates/ferridriver-config/src/browser.rs:23-28). Between the template's own quotes it does not
  (`CommandSpec.QuotedHoleSplits`). `CommandWords.WordsKeptIffHolesUnquoted` gives the exact condition: no
  placeholder stands between quotes.
- The dry run leaves a doubled dollar alone when the row has no values, and the executor always halves it.
  `World.SubstituteAgrees` gives the exact condition under which both read a step alike.

## Model

| member | source | states |
|---|---|---|
| LayerMerge.AppendUnique | crates/ferridriver-config/src/layer.rs:1277-1290 | the additive concatenation drops entries already present, keeps order, replaces on a kind mismatch, and reports whether an entry was new |
| LayerMerge.RecordLeaves | crates/ferridriver-config/src/layer.rs:1293-1316 | every leaf path of an inserted subtree, and no other path, is recorded as won; its additive arrays, and nothing else, are credited |
| LayerMerge.Merge | crates/ferridriver-config/src/layer.rs:1235-1269 | one in-place merge gives the merged document and changes the ledger at exactly the paths the overlay wins or contributes to |
| LayerMerge.MergeMember | crates/ferridriver-config/src/layer.rs:1238-1262 | one round of the member loop, for members visited in any order |
| LayerMerge.MergeAppended | crates/ferridriver-config/src/layer.rs:1246-1252 | an additive array already there grows, is won by the overlay, and credits it exactly when an entry was new |
| LayerMerge.MergeNewMember | crates/ferridriver-config/src/layer.rs:1254-1260 | a new member has every leaf recorded and every additive array credited once |
| LayerMerge.Provenance.Win | crates/ferridriver-config/src/layer.rs:212-214 | the winner of one path is replaced and no other path changes |
| LayerMerge.Provenance.Contributed | crates/ferridriver-config/src/layer.rs:216-222 | a contributor is appended unless it is the latest one already, at one path only |
| MergeLaws.AppendItemsMembers | crates/ferridriver-config/src/layer.rs:1277-1290 | the concatenation holds exactly the entries of both arrays |
| MergeLaws.AppendItemsKeepsOrder | crates/ferridriver-config/src/layer.rs:1271-1290 | earlier entries keep their places and no entry is repeated that was not already |
| MergeLaws.AppendItemsAssociative | crates/ferridriver-config/src/layer.rs:1277-1290 | the de-duplicating concatenation is associative |
| MergeLaws.MergeSelf | crates/ferridriver-config/src/layer.rs:1235-1290 | merging any document onto itself changes nothing |
| MergeLaws.MergeAbsorbs | crates/ferridriver-config/src/layer.rs:1235-1290 | merging a layer twice is merging it once, for all documents, so a diamond cannot duplicate an entry |
| MergeLaws.MergeAssociative | crates/ferridriver-config/src/layer.rs:1235-1290 | layers that agree on which paths hold objects, with arrays under additive keys, may be grouped in any way |
| MergeLaws.MergeNotAssociativeAcrossKinds | crates/ferridriver-config/src/layer.rs:1264-1267 | without agreement the grouping matters: three documents that show it |
| MergeReads.MergedReads | crates/ferridriver-config/src/layer.rs:1235-1290 | any two documents, any path: the merge reads the overlay's value there, an additive array as all of the base's entries in their order and then the overlay's new ones in theirs, and the base's value where the overlay neither speaks nor cuts the path off |
| MergeReads.FoldedInOrder | crates/ferridriver-config/src/layer.rs:1277-1290 | over a stack of kind-agreeing layers an additive array stands in the order of the layers that first brought its entries, and what one layer brought in that layer's order |
| LayerLedger.MergeKeepsLedgerExact | crates/ferridriver-config/src/layer.rs:1235-1269 | after a merge the winners are exactly the leaf paths of the document if and only if no member changes between a non-empty object and something else |
| LayerLedger.LeavesAddUp | crates/ferridriver-config/src/layer.rs:1235-1316 | on agreeing documents the merge's leaves are those of both, and the overlay wins exactly its own |
| LayerLedger.ItemsAddUp | crates/ferridriver-config/src/layer.rs:1244-1258 | an additive array collects both sides' entries, and the overlay contributes when it is first or brings a new one |
| LayerLedger.FoldedAt | crates/ferridriver-config/src/layer.rs:528-577 | which paths are leaves of a fold of layers, and which entries its additive arrays hold, is what the layers hold there |
| LayerLedger.LastHolderDecides | crates/ferridriver-config/src/layer.rs:528-577 | at any other leaf the folded document holds the value of the last layer holding one there |
| LayerLedger.LedgerIsExact | crates/ferridriver-config/src/layer.rs:202-222 | after any list of kind-agreeing layers each leaf is won by the last layer holding it, nothing else has a winner, and contributors are exactly the supplying layers in order |
| LayerLedger.WinnerHoldsTheValue | crates/ferridriver-config/src/layer.rs:204-214 | the winner of a path is the origin of a layer whose own value there is the one the document holds |
| LayerLedger.IndicesOfSuppliers | crates/ferridriver-config/src/layer.rs:216-222 | the supplying layers, each once, in layer order |
| LayerLedger.SuppliersOfDistinctLayers | crates/ferridriver-config/src/layer.rs:216-222 | with distinct origins the contributors are the origins of those layers one by one |
| LayerLedger.SuppliersCollapse | crates/ferridriver-config/src/layer.rs:216-222 | whatever the origins, the contributors are those of the supplying layers in order, equal neighbours once |
| ExtendsWalk.Fold.constructor | crates/ferridriver-config/src/layer.rs:532-551 | a fold starts as the extension defaults, merged in order, with nothing walked |
| ExtendsWalk.Fold.MergeOnTop | crates/ferridriver-config/src/layer.rs:544-550 | one more document on top: document and ledger stay the fold of all layers so far |
| ExtendsWalk.Fold.ApplyLayer | crates/ferridriver-config/src/layer.rs:817-859 | the recursive in-place walk of one layer is the walk on values, fails at the same file, and terminates on cyclic graphs |
| ExtendsWalk.Fold.ApplyAll | crates/ferridriver-config/src/layer.rs:837-845 | the same for a list of layers |
| ExtendsWalk.Fold.MergeFile | crates/ferridriver-config/src/layer.rs:847-857 | merging a file whose parents are in place keeps document, ledger and layer list in step |
| ExtendsGraph.WalkMergesOnce | crates/ferridriver-config/src/layer.rs:817-859 | any list of roots in any graph: no file is merged twice, the roots and only reachable files are merged, and what a merged path extends is merged before it unless it reaches it back |
| ExtendsGraph.WalkMergesReachable | crates/ferridriver-config/src/layer.rs:817-859 | where paths to one file agree, exactly the reachable files are merged, and for every edge the extended file before the extending one unless it reaches it itself |
| ExtendsGraph.WalkSucceeds | crates/ferridriver-config/src/layer.rs:826-828 | the walk fails only at an unreadable path to a reachable file, succeeds when there is none, and where paths to one file agree succeeds exactly then |
| ExtendsGraph.LinkedFileHidesParents | crates/ferridriver-config/src/layer.rs:832-837 | a link in another directory names other parents: a reachable file that is not merged, readable or not |
| ExtendsGraph.ReachedFileIsBelow | crates/ferridriver-config/src/layer.rs:837-858 | without cycles every file on a chain of `extends` from a merged file lies strictly below it |
| ExtendsGraph.ReachableIsChained | crates/ferridriver-config/src/layer.rs:837-858 | where paths to one file agree, every other file reachable from a merged file is on such a chain |
| ExtendsGraph.ExtendingFileWins | crates/ferridriver-config/src/layer.rs:837-858 | without cycles, in the ledger of the fold, no file reached from a merged file wins a leaf that file sets |
| ExtendsOrder.RootsInOrder | crates/ferridriver-config/src/layer.rs:553-571 | an earlier root is merged before a later one, unless it or a root before it reaches that one |
| ExtendsOrder.ParentsInOrder | crates/ferridriver-config/src/layer.rs:837-845 | wherever a file is entered, what its `extends` lists first is merged first, unless an entry listed no later reaches the other, and the file itself last |
| ExtendsOrder.AllComeIn | crates/ferridriver-config/src/layer.rs:837-845 | a merged layer is a root as it was discovered, or came in as a file that another extends |
| Paths.NormalizePath | crates/ferridriver-config/src/layer.rs:1213-1231 | the loop over the components computes the fold that the lemmas below are about |
| Paths.NormalizedIs | crates/ferridriver-config/src/layer.rs:1205-1231 | its result, rooted or relative, in terms of the names that survive cancelling from the right and of how far the path climbs |
| Paths.NormalizedRooted | crates/ferridriver-config/src/layer.rs:1205-1231 | a rooted path keeps its lexical meaning with `..` dropped at the root, and holds names only |
| Paths.NormalizedRelative | crates/ferridriver-config/src/layer.rs:1219-1223 | a relative path keeps its meaning if and only if it climbs at most one level |
| Paths.DeepClimbIsLost | crates/ferridriver-config/src/layer.rs:1219-1223 | `../..` comes out empty |
| Paths.NormalizedIdempotent | crates/ferridriver-config/src/layer.rs:1213-1231 | normalizing twice is normalizing once, rooted or not |
| Paths.ComponentsOfRendered | crates/ferridriver-config/src/layer.rs:1192 | a normalized path rendered to text reads back as the same components |
| Paths.NormalizedTextIdempotent | crates/ferridriver-config/src/layer.rs:1192 | idempotence from text to text |
| Anchor.AnchorPaths | crates/ferridriver-config/src/layer.rs:1083-1122 | the in-place rewriting of a document, members in any order |
| Anchor.AnchorArray | crates/ferridriver-config/src/layer.rs:1139-1154 | every text of an array is anchored and everything else kept |
| Anchor.AnchorMember | crates/ferridriver-config/src/layer.rs:1086-1113 | what each kind of key says about the value under it |
| Anchor.AnchorMapValues | crates/ferridriver-config/src/layer.rs:1131-1137 | every text value of a map is anchored and its keys are kept |
| Anchor.AnchorExtensionSpecs | crates/ferridriver-config/src/layer.rs:1156-1174 | only specifiers that look like paths are anchored, `~` is expanded |
| Anchor.InPlaceFinal | crates/ferridriver-config/src/layer.rs:1176-1193 | an anchored text is absolute or was left alone from every directory |
| Anchor.AnchoredMeans | crates/ferridriver-config/src/layer.rs:1188-1193 | an anchored text is absolute and reads as the directory and the text joined, with every dot segment resolved |
| Anchor.AnchoringIsFinal | crates/ferridriver-config/src/layer.rs:1083-1193 | after anchoring a document against an absolute directory, anchoring against any directory changes nothing |
| Anchor.OpaqueMapsUntouched | crates/ferridriver-config/src/layer.rs:124-127 | nothing strictly inside a map whose keys belong to the operator ever changes |
| AnchorReach.RulePlaces | crates/ferridriver-config/src/layer.rs:1086-1113 | what each rule does to a value, with a text at a path key made absolute below the directory or exempt: empty, absolute, `~` or a template |
| AnchorReach.AnchoredEverywhere | crates/ferridriver-config/src/layer.rs:1083-1193 | at any depth outside the maps set aside, every table keeps its keys and each member becomes what the list of its key asks |
| BrowserDefaults.CopyInto | crates/ferridriver-config/src/layer.rs:486-515 | the copies into one section, document and ledger together |
| BrowserDefaults.ApplyGlobalBrowserDefaults | crates/ferridriver-config/src/layer.rs:471-516 | the whole copying changes document and winners as the functions below say and credits nobody |
| BrowserDefaults.DefaultsKeepLedgerExact | crates/ferridriver-config/src/layer.rs:471-516 | from an exact ledger, the winners are the leaf paths again after the copying if and only if no copied value is a non-empty table and nothing copied into was an empty table |
| BrowserReads.HandedDown | crates/ferridriver-config/src/layer.rs:471-516 | each section reads at the four keys its own value, or the top level's where it has none and can hold one, but never a `backend` meant for another browser |
| BrowserReads.DefaultsKeepTheRest | crates/ferridriver-config/src/layer.rs:471-516 | anywhere else every value stays, and none but tables appear |
| StartupResolve.Resolve | crates/ferridriver-config/src/layer.rs:528-603 | one resolve merges contributions, files and overrides in turn in place; its document is the model's, and its ledger that of the merged parts with the copied keys attributed |
| StartupResolve.Precedence | crates/ferridriver-config/src/layer.rs:528-577 | for kind-agreeing parts and a path the copying does not write that holds no additive array: the last override holding the path decides it, else the last merged file, else the last contribution |
| StartupResolve.MergesWhen | crates/ferridriver-config/src/layer.rs:528-577 | the parts merge if and only if every contribution refrains from the settled keys and is valid and the walk meets no unreadable file; and which files can be read in which phase |
| StartupNormalize.NormalizedMembers | crates/ferridriver-config/src/layer.rs:1005-1018 | the array shorthand of `extensions` becomes its table, and every key but `test` is kept |
| StartupNormalize.TestNormalized | crates/ferridriver-config/src/layer.rs:1033-1074 | the `use` bag of `test` moves to its browser, whose own keys win, devices are expanded in every section, and all else is kept |
| StartupNormalize.ExtendedMeans | crates/ferridriver-config/src/layer.rs:962-985 | a document extends one text or the texts of an array in order, and loses the key and nothing else |
| StartupNormalize.ResolvedMeans | crates/ferridriver-config/src/layer.rs:1195-1203 | an entry with `~` expanded leads to itself if absolute, else to the path it means below the absolute directory of its file |
| Startup.BrowserDefaultsKeepSettings | crates/ferridriver-config/src/layer.rs:471-516 | the copying never touches a settled key |
| Startup.OverlayKeepsSettings | crates/ferridriver-config/src/layer.rs:1235-1269 | one layer on top of two documents with the same settings leaves the settings the same |
| Startup.PreparedAsSilent | crates/ferridriver-config/src/layer.rs:837-848 | taking `extends`, normalizing and anchoring a file neither add nor remove a settled key, nor make `test` a table or stop it being one |
| Startup.DroppingSilent | crates/ferridriver-config/src/layer.rs:553-560 | leaving silent layers out, and changing what lies beneath, changes no settled key |
| Startup.LayersAreHarmless | crates/ferridriver-config/src/layer.rs:1235-1269 | for any list of layers, every document keeps its settings under them if and only if each layer sets none of the settled keys and keeps `test` a table |
| StartupPhases.SameRootWalk | crates/ferridriver-config/src/layer.rs:553-577 | if what each module newly brings to the walk is silent, the documents-only walk, when it succeeds, merges the same files that are not silent in the same order, cycles and files shared between modules and documents included; it succeeds when the discovered documents and all they reach are documents, at readable paths where the file is readable at all |
| StartupPhases.ClosedBringsQuiet | crates/ferridriver-config/src/layer.rs:837-845 | modules bring silent files only, in any stack, when every path in some set closed under `extends` and holding the modules is silent |
| StartupPhases.PhasesMergeAlike | crates/ferridriver-config/src/layer.rs:528-577 | if what each module newly brings is silent and both phases merge, they merge to the same settings, whatever the packages contribute in either |
| StartupPhases.PhasesAgree | crates/ferridriver-config/src/lib.rs:802-825 | if what each module newly brings is silent and both phases resolve, they agree at `extensions`, `bundler`, `scripting` and `test.moduleAliases`; if also the discovered documents reach documents only and can be read, the documents alone resolve exactly when their own merged document deserializes and validates |
| StartupExact.ModuleIsHarmless | crates/ferridriver-config/src/lib.rs:802-808 | for a document and a module that extends anything: both phases settle the same whatever the document says if and only if the module and all it brings set none of the settled keys and keep `test` a table |
| StartupLimits.DocumentsAloneMayBeRefused | crates/ferridriver-config/src/layer.rs:576-581 | a document and a module beside it whose whole stack resolves while the documents alone are refused |
| StartupLimits.ExtendedModuleNeedsLoader | crates/ferridriver-config/src/layer.rs:288-297 | a document that extends a module is refused in the first phase, which has no loader, while the whole stack resolves |
| StartupLimits.ExtendedFileIsUnchecked | crates/ferridriver-config/src/layer.rs:830-845 | a module that only extends one file passes the check, both phases resolve, and they settle the same if and only if that file sets none of the keys |
| StartupLimits.CheckedModuleIsHarmless | crates/ferridriver-config/src/layer.rs:893-915 | of a module's own document, without what it extends: if it passes the check, it leaves the settings of every document alone if and only if it does not set `test` to something other than a table |
| StartupLimits.ScalarTestWipesAliases | crates/ferridriver-config/src/layer.rs:893-915 | a module that passes the check and wipes the alias table |
| CommandCache.InvAlways | crates/ferridriver-config/src/browser.rs:958-1006 | in every reachable state each key has its own gate and a gate is locked by exactly the call past it |
| CommandCache.OneExecutionPerKey | crates/ferridriver-config/src/browser.rs:964-978 | over every interleaving at most one call per key is past its gate |
| CommandCache.EntryOrigin | crates/ferridriver-config/src/browser.rs:980-988 | every entry was stored by an execution of its own key and neither dropped nor replaced since |
| CommandCache.ServedIsFresh | crates/ferridriver-config/src/browser.rs:947-976 | a served value is the latest stored under the caller's key, with no eviction since, and younger than the caller's time-to-live |
| CommandCache.ResultOrigin | crates/ferridriver-config/src/browser.rs:958-990 | every value returned is the call's own result or was served |
| CommandCache.SuccessesAreSeparated | crates/ferridriver-config/src/browser.rs:958-1006 | between two successful executions of a key lies an eviction of it or the full time-to-live |
| CommandCache.Progress | crates/ferridriver-config/src/browser.rs:964-990 | while a call has not returned, it or the call it waits for can take a step |
| CommandCache.CallsFinish | crates/ferridriver-config/src/browser.rs:958-990 | no reachable state deadlocks, and the calls in progress take a bounded number of steps in every interleaving |
| CommandCache.EvictionHolds | crates/ferridriver-config/src/browser.rs:992-1006 | what was computed before an eviction or a flush is served after it only if it was still being executed then |
| CommandCache.EvictionRaces | crates/ferridriver-config/src/browser.rs:978-1006 | an execution under way at an eviction or a flush: a run in which its result is stored and served afterwards |
| CommandCache.EvictionIsEffective | crates/ferridriver-config/src/browser.rs:992-1006 | an eviction, and a flush, makes the next served value a newer one if and only if no execution of the key is under way |
| CommandCache.KeyIdentifies | crates/ferridriver-config/src/browser.rs:939-945 | clean commands share a key if and only if they run the same line or argv in the same directory |
| CommandCache.KeyCollisions | crates/ferridriver-config/src/browser.rs:939-945 | each part of "clean" is needed, and the output mode is no part of the key: four pairs of different commands under one key |
| CommandCache.Cache.Look | crates/ferridriver-config/src/browser.rs:947-962 | the first look at the entries is one step of the transition system |
| CommandCache.Cache.EnterGate | crates/ferridriver-config/src/browser.rs:964-970 | finding or making the gate of a key, under the lock of the gates |
| CommandCache.Cache.LockGate | crates/ferridriver-config/src/browser.rs:971 | a gate is taken only when nobody holds it |
| CommandCache.Cache.Recheck | crates/ferridriver-config/src/browser.rs:973-976 | the second look, behind the gate |
| CommandCache.Cache.Insert | crates/ferridriver-config/src/browser.rs:980-988 | a success is stored with the time of its storing |
| CommandCache.Cache.EvictKey | crates/ferridriver-config/src/browser.rs:993-997 | only the entry of this key is dropped, without a gate |
| CommandCache.Cache.FlushAll | crates/ferridriver-config/src/browser.rs:1002-1006 | all entries are dropped, without a gate |
| CommandCache.Cache.GetOrExec | crates/ferridriver-config/src/browser.rs:958-990 | a whole undisturbed call: a fresh entry is served and nothing changes, otherwise the command runs and only a success is stored |
| TagFilter.Tokenize | crates/ferridriver-bdd/src/filter.rs:71-125 | the tokenizing loop gives the token list of the recursive lexer, or its error |
| TagFilter.Parse | crates/ferridriver-bdd/src/filter.rs:38-46 | tokenizing, parsing and the check that nothing is left over |
| TagFilter.ParseOr | crates/ferridriver-bdd/src/filter.rs:130-138 | the loop that rebuilds `left` gives the left-nested tree and moves the cursor past it |
| TagFilter.ParserIsTheGrammar | crates/ferridriver-bdd/src/filter.rs:29-46 | a token list parses to a tree if and only if the documented grammar derives that tree from all of it |
| TagFilter.GrammarIsUnambiguous | crates/ferridriver-bdd/src/filter.rs:29-46 | no token list derives two trees |
| TagFilter.TokensDerive | crates/ferridriver-bdd/src/filter.rs:127-181 | the tokens of an expression printed with as few parentheses as its precedence allows derive that expression |
| TagFilter.LexRendered | crates/ferridriver-bdd/src/filter.rs:71-125 | the printed text tokenizes to exactly those tokens |
| TagFilter.ParsingUndoesPrinting | crates/ferridriver-bdd/src/filter.rs:38-181 | for every expression with legal tag names, parsing its printed text gives the same tree back |
| TagLexing.LexIsSpelling | crates/ferridriver-bdd/src/filter.rs:71-125 | a text tokenizes to a list of tokens if and only if it spells them out with blanks between where needed |
| TagMeaning.LexConcat | crates/ferridriver-bdd/src/filter.rs:71-125 | a text that tokenizes does so to the same tokens before any text that no name or keyword runs on into |
| TagMeaning.FiltersJoinWithOr | crates/ferridriver-bdd/src/filter.rs:38-57 | any two filters joined by ` or `, without parentheses, parse to one that matches what either matches, although the tree is regrouped |
| TagMeaning.FiltersJoinWithAnd | crates/ferridriver-bdd/src/filter.rs:38-57 | any two filters in parentheses joined by ` and ` parse to the conjunction of both, which matches exactly the tag lists both match |
| TagMeaning.FiltersNegate | crates/ferridriver-bdd/src/filter.rs:38-57 | `not` before any filter in parentheses parses to its negation, which matches exactly the tag lists the filter does not |
| TagMeaning.TagSelects | crates/ferridriver-bdd/src/filter.rs:48-57 | a text that is a legal tag name selects exactly the scenarios carrying that tag |
| TagMeaning.OnlyTagsCount | crates/ferridriver-bdd/src/filter.rs:48-57 | matching depends on which tags there are, not on their order or repetition |
| CommandSpec.Subst | crates/ferridriver-config/src/command_spec.rs:222-243 | the index loop fills the placeholders in one pass: values are never looked at again |
| CommandSpec.FilledFails | crates/ferridriver-config/src/command_spec.rs:222-243 | filling fails if and only if some placeholder has no scalar value, with the error of the first |
| CommandFilling.PlainStays | crates/ferridriver-config/src/command_spec.rs:222-243 | text without a dollar stays as it is, before any template |
| CommandFilling.HoleFilled | crates/ferridriver-config/src/command_spec.rs:222-243 | a placeholder becomes what its name looks up, which is never read again, or is the error |
| CommandFilling.DollarStays | crates/ferridriver-config/src/command_spec.rs:222-243 | a dollar that opens no placeholder, or one that never closes, is a dollar |
| CommandFilling.ScalarTexts | crates/ferridriver-config/src/command_spec.rs:187-195 | the text of each scalar; a missing name and a value of another kind are refused by name |
| CommandSpec.Resolve | crates/ferridriver-config/src/command_spec.rs:186-215 | shell form quotes every value, argv form inserts it as it is entry by entry, and an error is that of the first entry that fails |
| CommandSpec.QuotedScans | crates/ferridriver-config/src/command_spec.rs:245-247 | read by the shell, a quoted value adds exactly its own characters to the current word |
| CommandSpec.ResolvingKeepsWords | crates/ferridriver-config/src/command_spec.rs:186-247 | when every placeholder stands unquoted, the words of the resolved line are the template's words with the values in them verbatim, under the quoting rules of sections 2.2.1 and 2.2.2 of POSIX.1-2017 XCU |
| CommandSpec.QuotedHoleSplits | crates/ferridriver-config/src/command_spec.rs:197-198 | inside the template's own quotes a value can split the word |
| CommandWords.WordsKeptIffHolesUnquoted | crates/ferridriver-config/src/command_spec.rs:186-247 | of the templates whose quotations close and that escape no placeholder, exactly those keep their words under all values that put no placeholder between quotes |
| Templates.FillTemplate | crates/ferridriver-bdd/src/scenario.rs:218-243 | the one-pass filler replaces known columns and leaves everything else as written |
| Templates.TemplateParams | crates/ferridriver-bdd/src/scenario.rs:198-214 | the parameters of a title are the placeholders the filler sees, in order |
| TemplateReading.PlainStays | crates/ferridriver-bdd/src/scenario.rs:198-243 | text without an opening bracket stays and names no column |
| TemplateReading.ColumnShown | crates/ferridriver-bdd/src/scenario.rs:198-243 | a placeholder is one column in its place and becomes its value, which is never read again, or stays when there is none |
| TemplateReading.BracketStays | crates/ferridriver-bdd/src/scenario.rs:198-243 | a bracket that closes at once, or never, is a bracket |
| Templates.SubstitutePlaceholders | crates/ferridriver-bdd/src/scenario.rs:488-494 | one replacement per key, in any order of the keys |
| Templates.ReplacePuts | crates/ferridriver-bdd/src/scenario.rs:490-492 | one textual replacement puts the value at the places of its column and touches nothing else |
| Templates.ReplacingIsFilling | crates/ferridriver-bdd/src/scenario.rs:488-494 | without nested brackets in the text or brackets in columns and values, every order of the keys gives the text of the one-pass filler |
| Templates.BracketedValueMakesOrderMatter | crates/ferridriver-bdd/src/scenario.rs:488-494 | a value that reads like a column makes the order of the map show |
| Templates.NestingTellsThemApart | crates/ferridriver-bdd/src/scenario.rs:218-243 | where brackets nest the two fillers differ |
| World.BrowserWorld.SetVars | crates/ferridriver-bdd/src/executor.rs:116-122 | the row's values become variables, the rest of the world stays |
| World.BrowserWorld.Interpolate | crates/ferridriver-bdd/src/world.rs:234-266 | the cursor loop reads `$$`, `$name` and everything else as the specification does |
| World.PlainStays | crates/ferridriver-bdd/src/world.rs:234-266 | text without a dollar stays as it is |
| World.VariableShown | crates/ferridriver-bdd/src/world.rs:243-259 | `$name` up to the first character that is no part of a name becomes the variable's value verbatim, never read again, or stays when there is none |
| World.DollarHalved | crates/ferridriver-bdd/src/world.rs:240-242 | a doubled dollar is one |
| World.Substitute | crates/ferridriver-bdd/src/dry_run.rs:85-119 | the dry run's own loop, with its early return |
| World.SubstituteAgrees | crates/ferridriver-bdd/src/dry_run.rs:85-119 | the dry run reads a text as the executor does if and only if the row has values or the text doubles no dollar |
| Registry.StepRegistry.Register | crates/ferridriver-bdd/src/registry.rs:153-156 | definitions keep their registration order |
| Registry.StepRegistry.FindMatch | crates/ferridriver-bdd/src/registry.rs:251-315 | the scan that stops at the second match answers as the collection of all matches does |
| Registry.FoundMeans | crates/ferridriver-bdd/src/registry.rs:245-315 | none of the definitions matches and extracts: undefined; exactly one: that one with its parameters; several: ambiguous, listing precisely all of them in registration order |
| Executor.RunScenarioObserved | crates/ferridriver-bdd/src/executor.rs:97-280 | a whole run: results, hooks, final world and the observer's log, or nothing run when a BeforeScenario hook fails |
| Executor.RunSteps | crates/ferridriver-bdd/src/executor.rs:149-237 | the loop over the steps, with the world and the observer updated in place |
| Executor.RunStep | crates/ferridriver-bdd/src/executor.rs:150-237 | one step: skipped after a failure, else interpolated, matched, run between its hooks and judged |
| Executor.TestInfoObserver.OnStepStart | crates/ferridriver-bdd/src/translate.rs:502-516 | a started step opens one handle and keeps it |
| Executor.TestInfoObserver.OnStep | crates/ferridriver-bdd/src/translate.rs:518-545 | the open handle, or a new one for a step that never started, is closed and none stays open |
| Executor.RunShape | crates/ferridriver-bdd/src/executor.rs:149-237 | for every run the results answer the steps one to one and read (Passed or Pending)*, then at most one Failed followed only by Skipped |
| Executor.StatusDecided | crates/ferridriver-bdd/src/executor.rs:240-280 | the scenario failed if and only if a step failed and passed if and only if every step passed |
| Executor.HooksDispatched | crates/ferridriver-bdd/src/executor.rs:149-250 | step hooks run in pairs around exactly the steps that are not skipped |
| ExecutorLaws.EveryStep | crates/ferridriver-bdd/src/executor.rs:149-237 | each step of any run: after a failure it is skipped and touches nothing; else its text is read in the world before it, its handler gets the world `BeforeStep` leaves and the next step the one `AfterStep` leaves, and it is judged by its answer and by whether the run is strict |
| ExecutorLaws.StrictNeverPends | crates/ferridriver-bdd/src/executor.rs:199-217 | no step of a strict run is pending and its scenario is never undefined |
| ExecutorLaws.PendingFailsStrict | crates/ferridriver-bdd/src/executor.rs:199-217 | the step whose handler answers that it is pending fails exactly when the run is strict, and then ends it |
| ExecutorLaws.UndefinedMeans | crates/ferridriver-bdd/src/executor.rs:260-266 | a scenario is undefined exactly when some step is pending and none failed |
| ExecutorLaws.RowValuesWin | crates/ferridriver-bdd/src/executor.rs:116-122 | the row's values are variables from the start and no other variable changes |
| Executor.OneHandlePerStep | crates/ferridriver-bdd/src/translate.rs:472-545 | the log is one open and one close per step, in order, so no handle is held between steps |
| DryRun.DryRunBody | crates/ferridriver-bdd/src/dry_run.rs:187-227 | the body's loop reports every step as the specification does |
| DryRun.OwnIssue | crates/ferridriver-bdd/src/dry_run.rs:47-81 | with distinct lines the issue looked up by line is the step's own |
| DryRun.StepPredicted | crates/ferridriver-bdd/src/dry_run.rs:210-219 | the report of one step predicts its result |
| DryRun.DryRunPredictsRun | crates/ferridriver-bdd/src/dry_run.rs:187-227 | without hooks, with handlers that succeed and set no variables, distinct lines and texts read alike, the dry run fails if and only if the run does, at the same step with the same message, and pending and skipped steps are the same |
| Expression.AssignSlots | crates/ferridriver-bdd/src/expression.rs:172-215 | the nested loops give the recursive assignment, or its error |
| Expression.AcceptedIsContiguous | crates/ferridriver-bdd/src/expression.rs:167-215 | an accepted assignment gives the parameters contiguous, ascending, disjoint groups from group 1 on, each unnamed or named after its parameter |
| Expression.RejectedAt | crates/ferridriver-bdd/src/expression.rs:172-215 | a refused assignment names the first parameter that cannot be served: those before it are, and the group after theirs is missing or another's |
| Expression.PrefixTells | crates/ferridriver-bdd/src/expression.rs:178-184 | a group name belongs to the parameter whose id it carries and to no other, whatever the ids |
| Expression.LayoutRecovered | crates/ferridriver-bdd/src/expression.rs:172-215 | the assignment recovers the expander's layout if and only if no two named runs of one id touch |
| Expression.DistinctIdsRecovered | crates/ferridriver-bdd/src/expression.rs:172-215 | with distinct ids it always does |
| Expression.OwnGroupsRead | crates/ferridriver-bdd/src/expression.rs:234-254 | after an accepted assignment each parameter reads the first of its own groups that took part in the match |
| Splitmix.XorBit | crates/ferridriver-bdd/src/translate.rs:637-640 | `Xor` is the bitwise operation: each bit compares the same bit of its operands |
| Splitmix.ShrBit | crates/ferridriver-bdd/src/translate.rs:637-640 | `Shr` is the right shift: it drops the lowest k bits |
| Splitmix.XorUndone | crates/ferridriver-bdd/src/translate.rs:637-640 | the exclusive or with one number is undone by itself |
| Splitmix.MixedInjective | crates/ferridriver-bdd/src/translate.rs:637-640 | no two numbers give the same `z ^ (z >> k)` |
| Splitmix.ScrambledInjective | crates/ferridriver-bdd/src/translate.rs:634-640 | the output function is one to one on 64-bit words |
| Splitmix.OutputUndone | crates/ferridriver-bdd/src/translate.rs:634-640 | the state an output came from, by the rounds undone in reverse with the inverse factors |
| Splitmix.OutputsDistinct | crates/ferridriver-bdd/src/translate.rs:634-640 | from any seed the generator gives 2^64 different outputs before it repeats one |
| Shuffle.FisherYatesShuffle | crates/ferridriver-bdd/src/translate.rs:627-645 | the swaps in place are the rounds for the generator's draws, each of which is in range |
| Shuffle.DrawsInRange | crates/ferridriver-bdd/src/translate.rs:634-643 | the draw for position i never exceeds i, for every seed and every output function |
| Shuffle.DrawsAre | crates/ferridriver-bdd/src/translate.rs:634-643 | the draw for position i - k of the rounds from i is the (k + 1)-st output modulo the number of positions left |
| Shuffle.RoundPlaces | crates/ferridriver-bdd/src/translate.rs:634-644 | the round for a position swaps the drawn item there, and no later round moves it |
| Shuffle.RoundsPermute | crates/ferridriver-bdd/src/translate.rs:634-644 | whatever is drawn, the result is a permutation |
| Shuffle.RoundsInjective | crates/ferridriver-bdd/src/translate.rs:634-644 | on distinct items different draws give different orders |
| Shuffle.RoundsSurjective | crates/ferridriver-bdd/src/translate.rs:634-644 | every permutation is reached by the draws computed for it |
| Shuffle.ShufflesAreThePermutations | crates/ferridriver-bdd/src/translate.rs:627-645 | on distinct items draws in range and permutations correspond one to one |
| Shuffle.ShuffleIgnoresItems | crates/ferridriver-bdd/src/translate.rs:627-645 | the order depends on seed and length alone, never on the items |
| Asymmetric.DecodingUndoesEncoding | crates/ferridriver-expect/src/asymmetric.rs:102-156 | decoding the tagged object the script side builds for a matcher, negated ones included, gives that matcher back |
| Asymmetric.NotNegates | crates/ferridriver-expect/src/asymmetric.rs:164-190 | as an expected value, a negated matcher accepts exactly what the matcher rejects, in both comparisons |
| AsymmetricMeaning.ObjectContainingMeans | crates/ferridriver-expect/src/asymmetric.rs:174-180 | objectContaining accepts exactly the objects that have every key of the subset with a deeply equal value |
| AsymmetricMeaning.ObjectContainingRestricts | crates/ferridriver-expect/src/asymmetric.rs:174-180 | so, when the subset is no matcher itself, exactly those whose restriction to its keys deeply equals it |
| AsymmetricMeaning.ArrayContainingMeans | crates/ferridriver-expect/src/asymmetric.rs:168-173 | arrayContaining accepts exactly the arrays with a deeply equal entry for each item |
| AsymmetricMeaning.ArrayOfMeans | crates/ferridriver-expect/src/asymmetric.rs:184-186 | arrayOf accepts exactly the arrays each of whose entries deeply equals the sample |
| AsymmetricMeaning.TypesMean | crates/ferridriver-expect/src/asymmetric.rs:73-85 | anything but null, and for each type tag the values it accepts |
| AsymmetricMeaning.TextsMean | crates/ferridriver-expect/src/asymmetric.rs:181-182 | the texts that hold the needle somewhere, equal the pattern or match the regex |
| AsymmetricMeaning.MissingParts | crates/ferridriver-expect/src/asymmetric.rs:102-156 | what stands in for a missing part of a tagged object |
| AsymmetricMeaning.OthersAreValues | crates/ferridriver-expect/src/asymmetric.rs:102-156 | a value without a tag, or with one that names no matcher, is a plain value |
| Asymmetric.DeepEqualIsSameImage | crates/ferridriver-expect/src/asymmetric.rs:321-346 | against an expected value without matchers, deep equality is equality of the documents with numbers replaced by their f64 image |
| AsymmetricMeaning.DeepEqualByParts | crates/ferridriver-expect/src/asymmetric.rs:321-346 | against an expected value that is no matcher itself: the same kind and scalar, entries one by one, or the same keys with equal members, matchers inside included |
| Asymmetric.DeepEqualIsEquivalence | crates/ferridriver-expect/src/asymmetric.rs:316-346 | so it is an equivalence relation on values without matchers |
| Asymmetric.MatchersAreOneSided | crates/ferridriver-expect/src/asymmetric.rs:321-324 | with a matcher in the expected value it is not symmetric |
| Asymmetric.MatchObjectIsPrunedEquality | crates/ferridriver-expect/src/asymmetric.rs:348-366 | for all values, subset matching is deep equality after dropping the members the expected objects do not name |
| Asymmetric.DeepEqualImpliesMatchObject | crates/ferridriver-expect/src/asymmetric.rs:316-366 | for all values, tagged or not, what deep equality accepts subset matching accepts under the same host |
| Polling.ToEqual | crates/ferridriver-expect/src/builder.rs:166-191 | the loop ends at the first attempt that is equal or ends at or after the deadline, and reports the value of that attempt |
| Polling.ToSatisfy | crates/ferridriver-expect/src/builder.rs:194-221 | the same for a predicate |
| Polling.ToPassWithOptions | crates/ferridriver-expect/src/builder.rs:262-310 | the same for a body that may fail, with its last error and the number of attempts |
| Polling.BudgetMeans | crates/ferridriver-expect/src/builder.rs:173-178 | the first k intervals are the first k of the list, then its last one repeated, and a second each when it is empty |
| Polling.EndIsUnique | crates/ferridriver-expect/src/builder.rs:166-191 | that end is unique, so the three contracts determine the outcome |
| Polling.EndsUnlessRetried | crates/ferridriver-expect/src/builder.rs:169-190 | a loop goes on for ever if and only if every attempt fails with time left |
| Polling.ProgressEnds | crates/ferridriver-expect/src/builder.rs:169-190 | it ends whatever the attempts yield when every round takes time |
| Polling.AttemptsFitBudget | crates/ferridriver-expect/src/builder.rs:173-189 | once the first k intervals add up to the timeout there are at most k + 1 attempts |
| Polling.AttemptsBounded | crates/ferridriver-expect/src/builder.rs:173-189 | with intervals of at least m > 0 there are at most ceil(timeout / m) + 1 attempts |
| Polling.SleepsEndInTime | crates/ferridriver-expect/src/builder.rs:178-189 | no sleep is requested past the deadline, and a failing run tried at or after it |
| Polling.LastAttemptAtDeadline | crates/ferridriver-expect/src/builder.rs:178-189 | with exact sleeps and instant attempts a failing run's last attempt starts exactly at the deadline, and no earlier attempt could have been the last |

## Left out

- Reading files, spawning commands, pipes, TCP probes, globbing and browser discovery: I/O. A disk is a map from paths to documents, a command an arbitrary outcome after an arbitrary time.
- `discover_layers` and the precedence lookups: which roots a stack has is a parameter; every theorem is about any list of roots.
- `apply_env` and `parse_env_value`: an environment override is an arbitrary layer on top.
- `deserialize_document`, `validate` and `expand_device`: which contributions and which merged documents are accepted, and the device table, are parameters of `Startup.Stack`.
- `source_dir`, `config_dir` and the extension bases of a resolved configuration: recorded beside the document, which `StartupResolve.Resolve` is about.
- Keys that hold a dot, and an empty key at the top level: the source joins the keys of a ledger path with dots, the model keeps them apart.
- The messages of errors, warnings, suggestions and descriptions, except those that say which step failed.
- `stringMatching` with a plain text: modelled as the source has it, comparing for equality (`Asymmetric.Pattern.Text`).
- The regex engine, the cucumber-expressions parser and number parsing of parameters: a match is an arbitrary attempt, and the expander is the layout of `Expression.Emission`.
- `check_scenario` without interpolation, which the JavaScript executor uses: texts are matched as written.
- Operators, expansions, globs, `~` and comments of the shell: the scanner of `CommandSpec` knows blanks, both kinds of quotes and the backslash, and treats every other character as itself, so a template that relies on the rest is outside `ResolvingKeepsWords`.
- CommandSpec.Subst: counts characters where the source counts UTF-8 bytes; both find the same placeholders.
- Poisoned locks of `CommandCache`, and panics while a gate is held.
- Windows path prefixes, and paths that are not Unicode.
- serde_json's equality of `0.0` and `-0.0` inside additive arrays: entries are compared as values here.
- Templates of `title-format` comments and the expansion of features into scenarios.
- Step timeouts, screenshots, attachments and reporters: a handler that times out is one that fails.
- A polling loop that never ends: the methods of `Polling` are about runs with a last attempt (`Polling.Ends`), and `Polling.EndsUnlessRetried` says which runs have none.
- The 32-bit wrap-around of the attempt counter in `to_pass_with_options`, out of reach within any timeout.
- `z as usize` on 32-bit targets: `Shuffle.Draw` takes the whole 64-bit value.
- `matches_live`, `close_enough` and the compilation of JavaScript regexes: live values are not documents; closeness and regexes are parameters of `Asymmetric.Env`.
- World.BrowserWorld.Interpolate: whether a character beyond ASCII is alphanumeric is the parameter `wide`.
