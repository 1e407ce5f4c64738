# fino, in Dafny

A model of the parts of the fino runtime modules where a simple promise is kept by intricate code, with
machine-checked proofs of those promises. `dafny verify dfyconfig.toml` checks the whole project.

- **Keyed UI reconciler and lowering** (`UiTree`, `UiMounted`, `UiReconcile`, `UiRenderer`, `UiLowering`). The
  host is an object whose node table the reconciler changes in place. After a render the root lists the one
  element rendered last, and that element is what a fresh mount would show, exactly when no kept node had stray
  children or mounted children with clashing keys.
- **Signals** (`Signals`). Writes, nested batches, flushes over subscriber snapshots and re-tracked
  dependencies. Outside a batch every derived value equals its derivation, whatever happened before, and a batch tells
  each signal written in it once.
- **Durable workflows** (`WorkflowLog`, `WorkflowReplay`, `WorkflowRun`, `WorkflowRuns`, `WorkflowHoles`,
  `WorkflowRetry`). A deterministic body, which may catch what its calls throw, is replayed over a persisted log with
  crashes and signals at any point. The part of the log the body stands by never changes and never runs again.
- **Store** (`StoreSpec`, `StoreMemory`, `StoreSqlite`, `StoreRefinement`, `StoreHistory`, `StoreRuns`, `Base64`,
  `StoreCodec`). One checked commit, two providers that refine it, optimistic concurrency over whole histories
  that both providers follow answer by answer, and the default value codec on object graphs.
- **Cache** (`CacheLog`, `Cache`). Least-recently-used order and expiry over a store, against the log of what
  was done.
- **Archives** (`Utf8`, `ArchivePath`, `Octal`, `Tar`, `Zip`, `Bytes`, `Crc32`, `ArchiveReading`). Printers and
  parsers over byte buffers. Names are UTF-16 code units that are encoded and decoded as UTF-8. Both round trips are
  stated as an if-and-only-if, and so is what the readers accept.
- **JSON-RPC peers** (`JsonRpc`). Two peers over ordered channels with cancellation, send failures and close.
- **Semantic versions** (`Decimal`, `SemverOrder`, `SemverText`, `SemverRange`, `SemverRangeText`,
  `SemverRangeParse`, `SemverSatisfies`). Precedence, parsing as the inverse of printing, and what range texts accept.
- **UUID version 7** (`Uuid`, `UuidText`). A monotonic counter under any clock, and the text form.

Clocks, random bytes, version tokens, transport outcomes, compression and JSON text are parameters. Thrown
errors are `None`, `false` or a failing result. Values that are only compared or copied are numbers.

Where the code and its documentation disagree, the code is modelled:

- `js/workflow.ts:200-204` says a queued signal is consumed by a matching wait. It stays in the store and answers
  later waits of the same name too (`WorkflowRuns.OneSignalAnswersTwoWaits`).
- A signal accepted while a driver is at work is lost when that driver is parking
  (`WorkflowRuns.SignalLostWhileParking`) or has just been resumed and waits (`WorkflowRuns.SignalLostAfterResume`).
  It stays exactly when no driver was at work, or the driver's next save records a completed call, or there is no next
  save (`WorkflowRun.Engine.Deliver`, `WorkflowRuns.DriveOn`).
- `js/workflow.ts:11-14` says that results of steps are saved and reused on resume. A body that catches a failed call
  and goes on records calls beyond the cursor. On a resume such a call runs again over its record
  (`WorkflowHoles.StepRunsAgain`), or, once the hole is filled, meets the mismatch error
  (`WorkflowHoles.StepMismatch`), or rewrites an entry below the cursor (`WorkflowHoles.SleepRewritesBelowCursor`).
  Entries of the settled part of the log, which the body asks for when it is given just these answers, are safe in
  every run (`WorkflowRuns.RunOn`). Beyond it, an entry past the cursor can be replaced by any value
  (`WorkflowHoles.RunsAgain`), and the first entry below the cursor is refused or rewritten
  (`WorkflowHoles.RefusesUnsettled`, `WorkflowHoles.RewritesUnsettled`). A log without holes is all settled, and it
  stays one exactly when nothing was caught before the next call that is recorded (`WorkflowRun.Engine.Checkpoint`).
- `js/signals.ts:127-131` says that each changed signal notifies at most once for a batch. That holds of the signals
  written in it and of computed signals that read only such signals (`Signals.Kernel.BatchEnd`). The
  difference of two copies of one signal tells twice, at first a value it does not keep (`Signals.DiamondTellsTwice`).
- Rendering is a fresh mount only as long as mounted siblings have different keys
  (`UiRenderer.ClashingSiblingsLeaveStrays`).
- Recency keys of two namespaces can clash when a name or key contains a NUL (`Cache.RecencyKeysClash`). They are
  the same exactly when the NUL-separated parts are (`Cache.SameRecencyKey`). A clash leaves a live key untracked, held
  beyond the limit (`Cache.ClashLeavesUntracked`).
- With a clock that goes back, a store that has met a record expired does not show it again
  (`StoreRuns.ClockBackForgets`).
- Tar names are written one byte per code unit and read as UTF-8. A name comes back exactly when it is ASCII, up to
  U+FFFD, and is not cut at a NUL (`Tar.NameComesBack`, `Tar.AccentIsReplaced`).
- A caret on a partial version such as `^0.x` admits only its own patch (`SemverSatisfies.CaretTextMeans` counts
  missing parts as zero).
- The range `x` accepts nothing, and so does `*` beside another alternative, because alternatives that compare nothing
  are dropped (`SemverSatisfies.WildRange`, `SemverSatisfies.XAcceptsNothing`).

## Model

| member | source | states |
|---|---|---|
| UiTree.KeylessTreesHaveUniqueKeys | js/ui.ts:538-540 | children matched by position never share an effective key, at any depth |
| UiTree.EffectiveKeysMean | js/ui.ts:538-540 | two children have one effective key exactly when their given keys are the same, or both have none and stand at one position, or one is given the position key of the other |
| UiMounted.ReadsIsFunctional | js/ui.ts:541-583 | a host node shows at most one tree |
| UiMounted.ReadsIffClean | js/ui.ts:541-583 | a host that shows a mirror of a tree reads back as that tree exactly when no stray host children are left |
| UiMounted.FindLastIsLast | js/ui.ts:625-626 | the entry a key leads to is the last mounted child with that key |
| UiMounted.MatchMeans | js/ui.ts:620-633 | a new child takes over exactly the last mounted child with its key, and only if no new child before it has that key; said on the given keys |
| UiMounted.IdentityMeans | js/ui.ts:591-640 | which host nodes are reused, at every depth, said on types, given keys and positions alone; all others are new |
| UiMounted.KeyedChildKept | js/ui.ts:620-640 | a mounted child and a new child of its type that alone have a key share the host node, wherever they stand |
| UiMounted.PlacedChildKept | js/ui.ts:620-640 | so do children without a key at one position, of one type |
| UiMounted.UniqueKeysMean | js/ui.ts:538-540 | mounted keys are unique exactly when no two given keys or positions clash |
| UiMounted.UniqueKeysKeepClean | js/ui.ts:620-640 | after a tree with sibling-unique keys, any next render leaves no strays |
| UiReconcile.IndexExisting | js/ui.ts:625-626 | the `existing` map holds, for each key, exactly the last mounted child with it |
| UiReconcile.Host.CreateNode | benchmarks/ui.bench.ts:78-110 | a new host element with a fresh identity and no children |
| UiReconcile.Host.CreateText | benchmarks/ui.bench.ts:78-110 | a new host text with a fresh identity |
| UiReconcile.Host.UpdateNode | benchmarks/ui.bench.ts:78-110 | replaces the props of one node only |
| UiReconcile.Host.SetText | benchmarks/ui.bench.ts:78-110 | replaces the text of one node only |
| UiReconcile.Host.InsertChild | benchmarks/ui.bench.ts:78-110 | inserts at the clamped index, shifting the rest |
| UiReconcile.Host.MoveChild | benchmarks/ui.bench.ts:78-110 | removes the child, then inserts it at the clamped index |
| UiReconcile.Host.RemoveChild | benchmarks/ui.bench.ts:78-110 | removes the child if it is there |
| UiReconcile.Host.Mount | js/ui.ts:541-583 | fails exactly on an unlowered component; otherwise new nodes show the tree, inserted at the index, and nothing else changes |
| UiReconcile.Host.MountChildren | js/ui.ts:541-583 | mounts the children of a new node in order |
| UiReconcile.Host.Replace | js/ui.ts:584-613 | unmounts the old node and mounts the new tree in its place |
| UiReconcile.Host.Reconcile | js/ui.ts:591-619 | the mirror records the new tree, the host shows it, strays are left exactly when `KeepsClean` fails, kept nodes keep their identity, and only owned nodes and the parent's list change |
| UiReconcile.Host.Patch | js/ui.ts:614-619 | the same for the branch that keeps an element |
| UiReconcile.Host.ReconcileChildren | js/ui.ts:620-640 | new children in order, matched by key, leftovers removed; strays exactly where keys clashed |
| UiReconcile.Host.PlaceChild | js/ui.ts:628-637 | one child is reconciled with the mounted child its key leads to, or mounted, and stands next in order |
| UiReconcile.Host.RemoveStale | js/ui.ts:638-640 | removes every mounted child no new child took over |
| UiRenderer.Renderer.Render | js/ui.ts:658-676 | over any sequence of renders: fails exactly on unlowered trees; the root then lists the rendered element followed by what it held beside the previous one; that element equals a fresh mount exactly when no kept node clashed; unique keys suffice; the host nodes reused are exactly those the given keys, positions and types say; other roots are untouched |
| UiRenderer.Renderer.ListsOnlyItsElement | js/ui.ts:658-676 | a root that held nothing else lists exactly the element rendered last |
| UiRenderer.ClashingSiblingsLeaveStrays | js/ui.ts:620-640 | render any element with two children of one key, then any element of the same type and key: the host is not what a fresh mount shows |
| UiRenderer.OtherRoots | js/ui.ts:658-676 | rendering one root leaves what another root shows as it was |
| UiLowering.Registry.Register | js/ui.ts:267-284 | appends a registration for its pair |
| UiLowering.Registry.Dispose | js/ui.ts:245-266 | removes just that registration, also when disposed twice or out of order |
| UiLowering.Registry.Lookup | js/ui.ts:380-389 | the answer is the most recent undisposed registration of the pair, and none exactly when all are disposed; a lowering target that serves the registry gets this answer |
| UiLowering.ActiveIsMostRecent | js/ui.ts:286-288 | the last of the undisposed list is the most recent undisposed registration |
| UiLowering.UndisposedDrop | js/ui.ts:245-266 | one more disposal drops one entry and keeps the order |
| UiLowering.LoweringReachesTheFloor | js/ui.ts:428-476 | a returned tree has only accepted primitives without a lowering, at every node |
| UiLowering.ChainIsFollowed | js/ui.ts:438-476 | up to a hundred substitutions lead a node to its primitive, which is accepted or refused by name: the lowering registered for a type goes before the component itself, gets its props and children, and hands on its key |
| UiLowering.LongChainFails | js/ui.ts:444-449 | one substitution more fails, however the chain goes on |
| UiLowering.ChildrenAreLoweredAlone | js/ui.ts:468-476 | each element child is lowered by itself from depth zero, text stays, and the first failure is the failure |
| UiLowering.FloorIsLowered | js/ui.ts:428-476 | such a tree holds no component, so rendering it cannot fail |
| UiLowering.SameIffAtFloor | js/ui.ts:468-476 | the node itself is returned exactly when it was at the floor already, and a new one otherwise |
| UiLowering.OutermostKeyWins | js/ui.ts:438-476 | the result carries the outermost key given along its substitutions |
| UiLowering.FloorIsFixed | js/ui.ts:438-476 | a floor tree is returned itself, unchanged at every node |
| UiLowering.LoweringIsIdempotent | js/ui.ts:428-476 | lowering a result again returns that very result, by reference |
| UiLowering.OutcomeIsStable | js/ui.ts:438-476 | an outcome does not depend on how many more calls were allowed |
| Signals.ObserveReads | js/signals.ts:226-242 | the value, and each signal read once in first-read order |
| Signals.UniqueInOrder | js/signals.ts:226-242 | what is first read earlier is reported earlier |
| Signals.Unsubscribe | js/signals.ts:244-252 | takes one subscriber off exactly the given signals |
| Signals.SubscribeAll | js/signals.ts:244-252 | adds one subscriber to exactly the given signals |
| Signals.Kernel.Set | js/signals.ts:172-185 | stores the value; in a batch nothing is told and nothing runs, and a changed signal is dirty; otherwise it tells its change once and all that is told after that comes from derivations of higher rank; every derivation ends up to date or due; terminates by rank |
| Signals.Kernel.Flush | js/signals.ts:204-210 | tells the change, then runs the subscribers of a snapshot while they re-subscribe; the signal is clean and its subscribers are up to date |
| Signals.Kernel.CallAll | js/signals.ts:204-210 | the loop over the snapshot; after its first run every derivation that is not yet to run has told what it derives from the values of that moment |
| Signals.Kernel.Rerun | js/signals.ts:264-276 | one run of a derivation brings it up to date and subscribes it to what it read, and is counted |
| Signals.Kernel.Write | js/signals.ts:172-185 | a public write keeps the invariant, touches no other source signal and runs nothing that is disposed; in a batch nothing is told and nothing runs; otherwise the signal tells its change once, and each derivation that reads only source signals tells its change once or not at all |
| Signals.Kernel.CreateSignal | js/signals.ts:216-218 | a new signal disturbs nothing |
| Signals.Kernel.BatchBegin | js/signals.ts:133-141 | opens a batch; the outermost one remembers the values |
| Signals.Kernel.BatchEnd | js/signals.ts:121-141 | closes a batch; an inner one does nothing else; at the outermost each source signal changed in the batch tells exactly once, of its value now and of the one at the opening, no other source signal tells, and each derivation that reads only source signals tells its change once or not at all; then nothing is dirty; what is disposed does not run |
| Signals.Kernel.Computed | js/signals.ts:260-278 | a new computed is up to date from the start; in a batch nothing is told |
| Signals.Kernel.Effect | js/signals.ts:286-308 | a new effect has run on the present values; in a batch nothing is told |
| Signals.Kernel.DisposeEffect | js/signals.ts:302-307 | a disposed effect is subscribed to nothing; every later operation leaves its count of runs as it is |
| Signals.Kernel.Quiescent | js/signals.ts:121-278 | outside a batch each computed equals its derivation on the current values and is subscribed to exactly what it reads |
| Signals.Kernel.NothingUntold | js/signals.ts:172-210 | notifications are gapless, and the last one told the present value |
| Signals.DiamondTellsTwice | js/signals.ts:121-141 | a batch that writes one signal makes the difference of its two copies tell twice at least, while its value is 0 before and after |
| WorkflowLog.AdvanceCursor | js/workflow.ts:1062-1085 | the cursor is the length of the longest completed prefix |
| WorkflowLog.StepLog.Complete | js/workflow.ts:1062-1085 | records one completion; the cursor never goes back |
| WorkflowLog.PutAllAt | js/workflow.ts:1062-1085 | no completion is lost and nothing else is recorded |
| WorkflowLog.OrderIrrelevant | js/workflow.ts:1062-1085 | completions of distinct indexes in any order leave the same log |
| WorkflowLog.Confluence | js/workflow.ts:1062-1085 | and the same cursor |
| WorkflowReplay.AnsweredIff | js/workflow.ts:965-977 | until something is thrown, a call is answered from the log exactly within its settled part |
| WorkflowReplay.RecordedStep | js/workflow.ts:1062-1085 | recording a call leaves the settled part settled; a log without holes stays one exactly when nothing was caught before |
| WorkflowReplay.ExecuteSeen | js/workflow.ts:838-899 | a driver returns what one run of the body over the outcomes it has seen returns |
| WorkflowReplay.ResultIsUninterrupted | js/workflow.ts:838-899 | over a log without holes, that is an uninterrupted run over the recorded answers exactly when nothing was caught |
| WorkflowRun.Engine.Start | js/workflow.ts:785-804 | saves the first snapshot before the body runs |
| WorkflowRun.Engine.Crash | js/workflow.ts:808-822 | losing the driver at any point leaves the stored run valid |
| WorkflowRun.Engine.Resume | js/workflow.ts:808-822 | a finished run reports the result of one run of the body over the outcomes it was given, and of an uninterrupted run over the log if nothing was ever caught; any other is driven again from the log |
| WorkflowRun.Engine.Deliver | js/workflow.ts:712-736 | accepted exactly while the stored run waits for the name; queued at the end; kept for good when nobody drives, and unseen by a driver at work |
| WorkflowRuns.DriveOn | js/workflow.ts:838-899 | whatever a driver does until it first saves after a signal it has not seen: without a save the signal is stored, a save that records a call keeps it for good, and any other save drops it |
| WorkflowRun.Engine.Step | js/workflow.ts:965-977 | below the cursor a step is answered or refused by the name of the entry there, from the cursor on it runs; what it throws goes to the body; no settled step ever runs; every recorded step result was returned by a run of that step |
| WorkflowRun.Engine.Checkpoint | js/workflow.ts:1062-1085 | adds the record to the stored snapshot and advances the cursor; the settled part stays; over a log without holes nothing is overwritten, and it stays without holes exactly when nothing was caught before the call |
| WorkflowRun.Engine.SleepCall | js/workflow.ts:998-1022 | a sleep in the log is answered; otherwise it parks until the due time stored for this very call, or a new one; as long as nothing was caught, no due time ever changes and the step completes only once it has come |
| WorkflowRun.Engine.WaitCall | js/workflow.ts:1023-1061 | a wait in the log is answered; otherwise it takes the first queued signal of the name out of the driver's copy, else throws on timeout, else saves the wait and throws |
| WorkflowRun.Engine.Park | js/workflow.ts:838-899 | a wait that leaves the body: the second save overwrites what is stored with the driver's snapshot |
| WorkflowRun.Engine.Finish | js/workflow.ts:838-899 | the result is that of one run of the body over the outcomes seen; over a log without holes, of an uninterrupted run over the log exactly when nothing was caught |
| WorkflowRun.Engine.Fail | js/workflow.ts:838-899 | a thrown error ends the run as failed, the log kept |
| WorkflowRun.Engine.NoHoles | js/workflow.ts:1062-1085 | an entry at or beyond the cursor, or one the body does not stand by, exists only after the body has caught something and gone on |
| WorkflowRuns.Act | js/workflow.ts:838-1085 | the next move of a driver, whatever the body wants, and which stored signals each kind of save leaves |
| WorkflowRuns.RunOn | js/workflow.ts:785-1085 | over any run of any body, with crashes, resumes and signals: settled entries never change and never run again, kept signals stay, and in a log without holes every entry is settled |
| WorkflowHoles.ReplaySettled | js/workflow.ts:808-822 | a resumed driver answers exactly the settled part from the log before it makes any call |
| WorkflowHoles.RefusesUnsettled | js/workflow.ts:965-977 | a step at the first entry below the cursor that is not settled is refused and not run |
| WorkflowHoles.RewritesUnsettled | js/workflow.ts:998-1022 | a sleep there rewrites the entry under its own name |
| WorkflowHoles.RunsAgain | js/workflow.ts:965-1085 | whatever the body, an entry that a step recorded beyond the cursor can be replaced by any value in a later run |
| WorkflowHoles.StepRunsAgain | js/workflow.ts:965-977 | a caught failure lets a recorded step run twice |
| WorkflowHoles.StepMismatch | js/workflow.ts:965-977 | and, once the failed step succeeds, lets the body meet the mismatch error |
| WorkflowHoles.SleepRewritesBelowCursor | js/workflow.ts:998-1022 | or a sleep rewrite an entry below the cursor |
| WorkflowRuns.OneSignalAnswersTwoWaits | js/workflow.ts:1023-1085 | one delivered signal answers two waits and is still stored |
| WorkflowRuns.SignalLostWhileParking | js/workflow.ts:838-899 | a signal accepted between the two saves of parking is gone after the second |
| WorkflowRuns.SignalLostAfterResume | js/workflow.ts:808-899 | a signal accepted after a resume that read the run before it is gone once the run parks again |
| WorkflowRetry.RunWithRetry | js/workflow.ts:1087-1103 | stops at the first attempt that succeeds, may not be retried or uses up the allowance; at least one is made, and the last error is thrown |
| StoreSpec.ValidateMutation | js/store.ts:225-247 | accepts exactly mutations with distinct write, delete and check keys, disjoint writes and deletes, and finite lifetimes |
| StoreSpec.CommitsAgree | js/store.ts:327-351 | the verdict and the later view of a commit are determined by the view before |
| StoreSpec.DeletesAgree | js/store.ts:306-310 | and so are the answer and the later view of a delete |
| StoreSpec.CommitMeans | js/store.ts:327-351 | a commit seen from outside: it succeeds exactly when every check names the live version; a written value is shown with its token exactly until its lifetime after the commit is over, or always without one; deleted keys are gone and everything else is as before |
| StoreMemory.MemoryStore.Record | js/store.ts:286-295 | the live record; dropping an expired one changes no later view |
| StoreMemory.MemoryStore.Delete | js/store.ts:306-310 | reports whether the key was live, and the key is gone |
| StoreMemory.MemoryStore.Commit | js/store.ts:332-351 | succeeds exactly when all checks hold on live versions; then each written value is shown until the clock at the commit plus its lifetime, and deleted keys are not; otherwise nothing changes |
| StoreSqlite.ClaimAll | js/store.ts:605-623 | claiming in sorted order conflicts exactly when some check fails |
| StoreSqlite.RemoveUnused | js/store.ts:633-639 | removes exactly the placeholders nothing replaced |
| StoreSqlite.DistinctInAnyOrder | js/store.ts:608-610 | sorting the checks keeps them distinct |
| StoreSqlite.SqliteStore.GetEntry | js/store.ts:553-570 | the live record, with no later view changed |
| StoreSqlite.SqliteStore.Delete | js/store.ts:514-523 | as for the memory store |
| StoreSqlite.SqliteStore.Commit | js/store.ts:572-662 | the same commit, lifetimes included, by placeholders, purges and roll-back; refused exactly when a value cannot be encoded; no placeholder is ever shown afterwards |
| StoreRefinement.CommitBoth | js/store.ts:332-351 | the same commit on both providers gives the same result and they show the same at every later time, unless the codec of one refuses a value, which changes nothing there |
| StoreRefinement.DeleteBoth | js/store.ts:514-523 | the same for `delete` |
| StoreHistory.StepCommits | js/store.ts:327-351 | a step of a history is a commit in the providers' sense |
| StoreHistory.StepDeletes | js/store.ts:306-310 | and a delete step is a delete in their sense |
| StoreHistory.Provenance | js/store.ts:327-351 | every stored record was written by one event and untouched since |
| StoreHistory.NoStaleCommit | js/store.ts:327-351 | a checked commit succeeds only if nothing wrote, removed or re-created the record since it was read, and it has not expired |
| StoreHistory.SawItsPredecessor | js/store.ts:327-351 | a successful commit saw the last write to its key: its version exactly if that record is live, absence exactly if it has expired |
| StoreHistory.HasPredecessor | js/store.ts:327-351 | a commit that succeeded on a version has such a predecessor, so the commits on a key form one chain |
| StoreHistory.NoLostUpdate | js/store.ts:327-351 | of two successful commits on one version the first did not touch the key; of two on absence, what the first wrote is gone or expired |
| StoreRuns.DriveMemory | js/store.ts:286-351 | driven along any history, the memory store gives every answer the history gives and shows the same from then on |
| StoreRuns.DriveSqlite | js/store.ts:514-662 | so does the SQLite store, in whatever order it claims its checks, commits its codec refuses included |
| StoreRuns.ClockBackForgets | js/store.ts:286-295 | with a clock that goes back the memory store answers otherwise than the history |
| Base64.TextRoundTrip | js/store.ts:368-380 | bytes come back from their base64 text |
| StoreCodec.Encoder.EncodeNode | js/store.ts:381-401 | terminates on every graph, leaves the path set as it was, and computes `Encode` |
| StoreCodec.EncodeFailsIff | js/store.ts:381-401 | fails exactly when a cycle or a value without a form can be reached by following references |
| StoreCodec.EncodedForms | js/store.ts:381-401 | bytes, arrays and objects become a tagged pair whose tag names them, over the forms of their items |
| StoreCodec.RoundTrip | js/store.ts:381-408 | decoding an encoding gives the value with every reference followed |
| StoreCodec.ShowsIsFunctional | js/store.ts:403-408 | and there is only one such value: bytes, arrays and objects are not confused |
| StoreCodec.EncodeValue | js/store.ts:413-426 | the tagged bytes of a value |
| StoreCodec.StoredRoundTrip | js/store.ts:413-433 | what is stored reads back as the value, and is stored exactly when no fault is reachable |
| CacheLog.KeptIsLatest | js/cache.ts:133-175 | a record is held exactly when its last write was not undone, and it is that write's record |
| CacheLog.OrderIsByUse | js/cache.ts:119-131 | recency lists each held key once, in the order of last use |
| CacheLog.TrimmedKeepsRecent | js/cache.ts:123-130 | eviction leaves exactly the `maxEntries` keys used last |
| CacheLog.EvictsLeastRecentlyUsed | js/cache.ts:123-130 | everything evicted was used before everything kept |
| Cache.Cache.Touch | js/cache.ts:119-131 | moves the key to the end of the string-keyed index and evicts from the front, in the index and in the store, down to the limit; the key itself stays unless the limit is zero |
| Cache.Cache.Evict | js/cache.ts:123-130 | the loop that evicts: nothing within the limit, and only from the front |
| Cache.Cache.Get | js/cache.ts:133-146 | answers with the stored value exactly when there is one whose time has not come, which is the latest value written that was not deleted, invalidated or evicted; otherwise the record is gone; a hit evicts nothing; the index goes on tracking what is held exactly when the key is not another id's |
| Cache.Cache.Set | js/cache.ts:148-160 | stores the given value and tags, with an expiry of the clock plus the lifetime, not less than the clock; then evicts the least recently used down to the limit, others only; the index goes on tracking what is held exactly when the key is not another id's |
| Cache.Cache.Delete | js/cache.ts:162-165 | the key is held no more and every other key is as before; the index goes on tracking what is held exactly when the key is not another id's |
| Cache.Cache.InvalidateTags | js/cache.ts:167-175 | removes every record of the namespace that carries a wanted tag, and of the live records no other; the index goes on tracking what is held |
| Cache.WriteInvalidateRead | js/cache.ts:133-175 | set, invalidateTags, get: the value comes back exactly if the limit is not zero, its lifetime is not over and none of its tags was wanted |
| Cache.RecencyKeysDiffer | js/cache.ts:111-113 | without a NUL in them, keys share a recency key exactly when they are the same |
| Cache.SameRecencyKey | js/cache.ts:111-113 | in general, exactly when their NUL-separated parts are the same |
| Cache.RecencyKeysClash | js/cache.ts:111-113 | with a NUL they need not |
| Cache.PlainOwns | js/cache.ts:111-113 | without NULs no id has the recency key of another |
| Cache.ClashLeavesUntracked | js/cache.ts:119-160 | after two writes that clash two records are live, the index holds one, and the limit of one is not kept |
| Utf8.DecodeEncodeIff | js/globals/encoding.ts:983-1057 | text comes back from its UTF-8 form exactly when its surrogates are paired and it does not start with a byte order mark |
| Utf8.DecodeEncode | js/globals/encoding.ts:1003-1057 | in general it comes back with each lone surrogate replaced and the mark dropped |
| ArchivePath.NormalizeIdempotent | js/archive.ts:454-462 | normalizing twice is normalizing once |
| ArchivePath.NormalizeDropsTrailingSlash | js/archive.ts:454-462 | a directory's slash does not survive |
| ArchivePath.NormalizeShrinks | js/archive.ts:454-462 | a name never gets longer, and at the same length only its backslashes turn |
| ArchiveReading.NormalizeBelow | js/archive.ts:454-462 | either slash puts one name below another, and each side is normalized by itself |
| ArchiveReading.NormalizePart | js/archive.ts:454-462 | a part without a slash stays as it is, and a single dot goes |
| Octal.Write | js/archive.ts:587-596 | writes the field in place and nothing else |
| Octal.Parse | js/archive.ts:597-625 | accepts exactly digits followed by terminators, and returns their value |
| Octal.FieldRoundTrip | js/archive.ts:587-625 | a number comes back exactly when it has at most `width - 2` octal digits |
| ArchiveReading.FieldMeans | js/archive.ts:597-625 | a field is read exactly when it is octal digits before NULs and spaces, and as the number they spell |
| Tar.MakeHeader | js/archive.ts:1780-1803 | the 512-byte header with its checksum, built in place; the name one unit to a byte over its UTF-8 length |
| Tar.Serialize | js/archive.ts:1766-1815 | refuses exactly names over 100 bytes of UTF-8; otherwise aligned entries, then two zero blocks |
| Tar.Parse | js/archive.ts:1708-1765 | the loop computes `ParseFrom`, UTF-8 decoding of names and errors included |
| ArchiveReading.ChunkMeans | js/archive.ts:1711-1763 | one header: a zero block ends the archive; a wrong check sum, an unreadable number, an extension, an oversized file or missing data is an error; links are passed over; anything else is an entry made of those bytes, a directory exactly by its type flag |
| ArchiveReading.PrefixGoesFirst | js/archive.ts:1721-1730 | the name is the prefix field, then the name field, each normalized |
| ArchiveReading.CutNulMeans | js/archive.ts:1721 | a field is cut at its first NUL that has no line terminator after it |
| Tar.HeaderReadable | js/archive.ts:1711-1722 | the checksum of every written header fits its digits and verifies, and its number fields read |
| Tar.NameComesBack | js/archive.ts:1721-1781 | a normalized name is read back exactly when its units are ASCII or U+FFFD and every NUL has a line break after it |
| Tar.AccentIsReplaced | js/archive.ts:1721-1781 | the name "é" comes back as U+FFFD |
| Tar.ChunkMismatch | js/archive.ts:1708-1765 | an entry that does not fit is refused or comes back different |
| Tar.RoundTrip | js/archive.ts:1708-1815 | names, kinds, payloads, modes and times come back for every entry, in order, exactly when every entry fits |
| Crc32.BuildTable | js/archive.ts:564-574 | table entry i is eight bit-steps from i |
| Crc32.Compute | js/archive.ts:575-582 | one look-up per byte equals the bit-at-a-time reflected CRC |
| Crc32.TableHoldsPolynomial | js/archive.ts:564-574 | the table entry of 128 is the polynomial 0xEDB88320 |
| Crc32.KnownSums | js/archive.ts:575-582 | nothing has check sum 0 and the byte 255 has 0xFF000000 |
| Crc32.OneByteIsNoticed | js/archive.ts:575-582 | strings that differ in exactly one byte have different CRCs |
| Zip.DosRoundTrip | js/archive.ts:545-563 | a date survives exactly for the years 1980 to 2107 on an even second; otherwise the year is clamped and the second rounded down |
| Zip.Serialize | js/archive.ts:1634-1707 | local records, central directory and end record, each at its offset |
| Zip.FindEnd | js/archive.ts:1500-1508 | finds the last end record within reach of the end, or none exactly when there is none |
| Zip.Parse | js/archive.ts:1492-1633 | the loop over the central directory computes `Listing`, errors included |
| ArchiveReading.EntryIsListed | js/archive.ts:1513-1571 | an entry is listed exactly when its central header stands there, without data descriptor or ZIP64 mark, and its local header has the same flags, method, check sum, sizes and name, with the data within the archive |
| ArchiveReading.EntryMeans | js/archive.ts:1542-1632 | a listed entry is made of those bytes, a directory exactly by its name or its mode |
| ArchiveReading.LoadMeans | js/archive.ts:1587-1630 | the loader yields nothing for a directory, and for a file exactly bytes within the limit that have the stored size and check sum by a known method |
| Zip.EndIsLast | js/archive.ts:1695-1706 | in a written archive the end record is the last 22 bytes |
| Zip.EntryRoundTrip | js/archive.ts:1513-1586 | one entry comes back as itself when it fits its fields, and not when a normalized one does not |
| Zip.NameComesBack | js/archive.ts:1542-1586 | a normalized name comes back exactly when its surrogates are paired and it does not start with a byte order mark |
| Zip.RoundTrip | js/archive.ts:1492-1707 | all entries come back in order if there are fewer than 65536 and each fits, and for normalized names only then; the loader of each listed entry yields the bytes written exactly when they are within the limit and the method is known |
| Zip.LoaderReturnsData | js/archive.ts:1587-1630 | the loader yields the original bytes exactly within the size limit and for the known methods |
| JsonRpc.Connect | js/jsonrpc.ts:515-556 | two new peers satisfy the invariant all later steps keep |
| JsonRpc.Call | js/jsonrpc.ts:664-702 | refused exactly when closed or aborted; else the next id is pending with this method and params, and the request goes out if the send succeeds |
| JsonRpc.SendRejected | js/jsonrpc.ts:664-702 | a failed send rejects its call if it is still pending, and changes nothing else |
| JsonRpc.Abort | js/jsonrpc.ts:664-702 | rejects a pending call at once and tells the other side; a settled call stays as it is |
| JsonRpc.Receive | js/jsonrpc.ts:557-657 | field by field: a response settles its own pending call only; a cancellation aborts exactly the handlers of its request that run or are being answered; a request is served once, by a new handler under a new controller that is in flight under its id, and by none without a service |
| JsonRpc.HandlerDone | js/jsonrpc.ts:629-633 | handlers may finish in any order; the answer goes out under the id of the request, and its controller stays in flight until it is sent |
| JsonRpc.SendDone | js/jsonrpc.ts:634-636 | a finished send takes its own controller out of flight, and no other |
| JsonRpc.RejectPending | js/jsonrpc.ts:532-538 | every pending call is rejected, nothing settled changes |
| JsonRpc.Shut | js/jsonrpc.ts:557-657 | when the loop ends every pending call is rejected, nothing is in flight, and every handler that runs or is being answered is aborted |
| JsonRpc.Close | js/jsonrpc.ts:729-746 | closed means nothing pending and nothing in flight; every pending call was rejected and every handler aborted |
| JsonRpc.CallsResolveWithTheirOwnResult | js/jsonrpc.ts:515-746 | at any moment of any run: a resolved call has the result of the remote handler of its own request, and every id is pending or settled, never both |
| JsonRpc.CancelsHitTheirOwnRequest | js/jsonrpc.ts:557-657 | the controller in flight under an id is exactly the one that runs or is being answered for it, so a cancellation hits its own request and no other |
| Decimal.ReadPrint | js/semver.ts:69-76 | a number's digits read back as the number |
| Decimal.PrintRead | js/semver.ts:69-76 | canonical digits print back as themselves |
| SemverOrder.CompareParsed | js/semver.ts:145-162 | negative, zero and positive exactly as precedence says; zero exactly on versions equal up to build |
| SemverOrder.CompareTextMeans | js/semver.ts:116-123 | text comparison is the first-difference order |
| SemverOrder.PrecedesIsStrict | js/semver.ts:145-162 | precedence is transitive and irreflexive |
| SemverOrder.Trichotomy | js/semver.ts:145-162 | any two versions are ordered or equal up to build |
| SemverText.Scanner.IdentifierList | js/semver.ts:102-111 | the loop reads the dotted list its specification reads |
| SemverText.Parse | js/semver.ts:469-499 | computes `ParseText`, errors included |
| SemverText.ParseFormat | js/semver.ts:134-141 | a printed well-formed version parses to itself |
| SemverText.FormatParse | js/semver.ts:469-499 | an accepted text is the printed form of a well-formed version |
| SemverText.ParseIsInverse | js/semver.ts:69-141 | parsing yields v exactly for the printed form of a well-formed v |
| SemverRange.TestComparator | js/semver.ts:452-459 | decides each operator by precedence |
| SemverRange.XRangeMeans | js/semver.ts:242-276 | a release is accepted exactly when it has the parts the range names |
| SemverRange.FromPartsMeans | js/semver.ts:319-351 | each operator before a partial version: `>` above and `<=` up to everything it names, `>=` and `<` from and below its lowest version |
| SemverRange.TildeMeans | js/semver.ts:277-296 | at least the lower bound with the same major, and minor if named |
| SemverRange.CaretMeans | js/semver.ts:297-318 | at least the lower bound and equal up to its leftmost number that is not zero |
| SemverRange.HyphenMeans | js/semver.ts:402-413 | the closed interval up to everything the right end names |
| SemverRange.BaseKeyIsTriple | js/semver.ts:142-144 | base keys tell the three numbers apart |
| SemverRange.BuildSet | js/semver.ts:386-401 | collects the comparators in order and the bases of the prerelease ones |
| SemverRange.Satisfies | js/semver.ts:550-573 | some branch accepts; a prerelease only through a prerelease comparator of the same three numbers or an empty branch |
| SemverRange.MaxSatisfying | js/semver.ts:585-592 | the first of the greatest satisfying versions, none exactly when none satisfies, an error exactly on an invalid version |
| SemverRangeText.ParsePartial | js/semver.ts:163-195 | computes `ParseWords`, errors included |
| SemverRangeText.WordsAreInverse | js/semver.ts:163-195 | reading a partial version is exactly the inverse of spelling it |
| SemverRangeParse.Tokenize | js/semver.ts:371-385 | the stretches between whitespace |
| SemverRangeParse.TokensMean | js/semver.ts:371-385 | blanks hold no token, and each stretch without a space, tab, line feed or carriage return is one |
| SemverRangeParse.TokensOfJoin | js/semver.ts:371-413 | joined tokens are read as the same tokens |
| SemverRangeParse.NormalizeHyphens | js/semver.ts:402-413 | `a - b` becomes the two bounds, and all other tokens stay |
| SemverRangeParse.ExpandToken | js/semver.ts:352-370 | computes `Expand`, errors included |
| SemverRangeParse.ParseRangeSet | js/semver.ts:386-401 | the comparators of all tokens in order, and the bases of the prerelease ones; an error exactly if a token has one |
| SemverRangeParse.ParseRange | js/semver.ts:415-447 | the alternatives between double bars that compare something; an error exactly if one is empty or has an error |
| SemverSatisfies.SatisfiesText | js/semver.ts:550-573 | an error exactly on an invalid version or range; otherwise whether some alternative accepts |
| SemverSatisfies.MaxSatisfyingText | js/semver.ts:585-592 | the first of the greatest versions that meet the range text; the range is not looked at without versions |
| SemverSatisfies.CaretTextMeans | js/semver.ts:297-318 | a written caret range accepts a release exactly if it is not below the numbers written and has them up to the leftmost that is not zero |
| SemverSatisfies.TildeTextMeans | js/semver.ts:277-296 | a written tilde range: not below, with the major number and any minor number written |
| SemverSatisfies.HyphenTextMeans | js/semver.ts:402-413 | `a - b` is the interval from the numbers of a to everything b names |
| SemverSatisfies.ComparatorTextMeans | js/semver.ts:319-370 | each written operator before a partial version, for releases, on the numbers written |
| SemverSatisfies.WholeTextMeans | js/semver.ts:452-573 | each written operator before a whole version, for every version: by precedence, and a prerelease only beside a prerelease of the same three numbers |
| SemverSatisfies.PrereleaseTextMeans | js/semver.ts:277-318 | a prerelease is in a written caret or tilde range exactly if that names a prerelease of the same three numbers that does not come after it |
| SemverSatisfies.ConjunctionMeans | js/semver.ts:386-401 | the tokens of an alternative are conditions that all have to hold, and an error in one is an error |
| SemverSatisfies.NoHyphenStays | js/semver.ts:402-413 | without a lone hyphen the tokens are taken as they are |
| SemverSatisfies.ComparatorText | js/semver.ts:319-351 | an operator before a partial version stands for the comparators of the two |
| SemverSatisfies.OrText | js/semver.ts:415-447 | both alternatives around a double bar are tried, and an error in one is an error |
| SemverSatisfies.BlankIsError | js/semver.ts:415-442 | an alternative without a token is an error |
| SemverSatisfies.EverythingText | js/semver.ts:415-447 | everything is accepted exactly by nothing, a star or `latest` in any letter case, blanks around it aside |
| SemverSatisfies.WildRange | js/semver.ts:242-276 | a partial version alone accepts nothing exactly when it starts with a wildcard and is not `*` |
| SemverSatisfies.XAcceptsNothing | js/semver.ts:443-447 | `x` alone and two `*` with a double bar between them accept nothing |
| Uuid.Generator.V7 | js/uuid.ts:175-208 | extends a run whose values are ordered; the logical millisecond leads the largest reading by at most (n - 1) / 4096 |
| Uuid.RunIsIncreasing | js/uuid.ts:175-208 | any later value of a run is greater as bytes while time stamps stay below 2^48 |
| Uuid.OrderIsByRank | js/uuid.ts:192-206 | two values are ordered exactly as their 48-bit time stamps, then counters |
| Uuid.TimestampIsMillisecond | js/uuid.ts:319-331 | the time stamp is the logical millisecond modulo 2^48, the version 7 and the variant 1 |
| Uuid.TimestampWraps | js/uuid.ts:192-206 | at 2^48 the next value is smaller |
| UuidText.Parse | js/uuid.ts:46-54 | accepts exactly the canonical shape in either case, and reads its digits |
| UuidText.TextRoundTrip | js/uuid.ts:39-54 | the text of a value reads as that value and no other |
| UuidText.ReadPrintsBack | js/uuid.ts:39-54 | accepted text prints back in lower case |
| UuidText.TextOrder | js/uuid.ts:39-45 | text order is byte order |

## Left out

- UiRenderer.Renderer.Render: a render that throws leaves the host as far as it got; nothing is promised about it.
- UiReconcile.Host.Reconcile: the `Mounted` record is returned as a value instead of being updated in place; NaN as a key and host errors are not modelled.
- UiLowering.OutcomeIsStable: lowering is modelled with a bound on calls, because a lowering need not terminate; a finished outcome is independent of the bound.
- Signals.Kernel.Quiescent: derivations are pure and total, subscribers do not write, and the graph is acyclic by rank, as the kernel needs.
- Signals.Kernel.BatchEnd: that a computed signal tells at most once is stated for those that read only source signals; for deeper ones it can fail (Signals.DiamondTellsTwice), depending on the order of subscribers and the values in between.
- WorkflowRun.Engine.WaitCall: whether a relative timeout has passed is a parameter, since it is recomputed on each resume.
- WorkflowRun.Engine.Step: one driver at a time, whose body makes one call after another (completions in any order are in `WorkflowLog`); no nested workflows, no cancellation, and no `ctx.state` bag.
- WorkflowHoles.RunsAgain: the calls since the hole are steps and sleeps; a wait among them can take a signal that came later, and then comes out differently.
- StoreMemory.MemoryStore.Commit: one clock reading stands for the several the code takes during a commit.
- StoreSqlite.SqliteStore.Commit: the same single clock reading; the engine is an atomic table update with roll-back, and busy retries are not modelled.
- StoreRuns.DriveMemory: the clock does not go back, because the answers differ then (StoreRuns.ClockBackForgets).
- StoreRuns.DriveSqlite: the clock does not go back, as for StoreRuns.DriveMemory.
- StoreHistory.NoStaleCommit: version tokens are assumed fresh.
- StoreCodec.StoredRoundTrip: JSON text is an assumed inverse pair; negative zero and holes in arrays are not modelled.
- Cache.Cache.Get: operations run one at a time; with a store that has its own expiry and a clock that goes back, a record that was stale before may be gone.
- Utf8.DecodeEncodeIff: the native coder is modelled by section 8.1 of the WHATWG Encoding Standard, which TextEncoder and TextDecoder document; streaming and fatal decoding are not.
- Zip.RoundTrip: local records end below 4 GiB, beyond which the stored offsets wrap; the converse is for normalized names, as `Archive` keeps them.
- Zip.EntryRoundTrip: the converse is for normalized names, as `Archive` keeps them.
- Zip.LoaderReturnsData: deflate is assumed invertible on the data at hand.
- Zip.DosRoundTrip: calendar fields are plain numbers; the Date constructor's carrying and time zones are not modelled.
- JsonRpc.Receive: handler results are JSON values; the error-code table of `JsonRpcService.handle` and batches are not modelled.
- SemverText.Parse: the text is already trimmed.
- SemverRangeParse.ParseRange: the text is ASCII, and whitespace is space, tab, line feed and carriage return.
- Uuid.Generator.V7: clock readings are not negative.
- Store listing order, archive file access and extraction, gzip, HTTP and response caching, lazy and iterable signals, workflow watchers: they would add only plumbing or easy members.
