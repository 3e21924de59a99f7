# VOOM: a verified model of its policy pipeline and state keeping

VOOM manages a media library: policies written in its DSL are composed, compiled into ordered
phases and applied to files by executors, while scan sessions keep a database of what is on disk
and crash recovery repairs what an interrupted run left behind. This project models the parts of it
whose correctness depends on whole runs, whole chains or whole inputs.

| file | models |
|---|---|
| `PhaseScheduling.dfy` | the compiler's ordering of phases by `depends_on` (Kahn's algorithm) and its error report |
| `PolicyAst.dfy`, `PolicyMerge.dfy` | policies and the merge of one policy onto its resolved parent |
| `PolicyFlattening.dfy` | what a whole chain of merges means: the declarative reading of `extends` and `extend` |
| `PolicyResolution.dfy` | following `extends` through files and bundled policies with a cycle-detecting stack |
| `BackupNames.dfy`, `BackupWalk.dfy` | backup file names, how they are read back, and where recovery looks for them |
| `CrashRecovery.dfy` | the recovery run over disk, backups and pending operations, with failing steps |
| `CrashSafety.dfy` | which paths a recovery run can lose, exactly, and what it may do to other files |
| `RecoveryRuns.dfy`, `AmbiguousRuns.dfy` | several recovery runs, each cut off anywhere, over one disk, and what becomes of ambiguous backups |
| `WrittenBackups.dfy` | a backup from being written through being found to being restored |
| `ScanSessions.dfy` | the session tables and transactions of the SQLite store, and the invariant they keep |
| `ScanRuns.dfy` | every interleaving of scanners, heartbeats and executors over those tables |
| `ScanInterleaving.dfy` | one session's report among the steps of other processes |
| `ScanStore.dfy` | the store's methods with failing calls, and `reconcile_discovered_files` on top of them |
| `LoadBalancing.dfy`, `LongestFirst.dfy`, `BatchEta.dfy` | the batch ETA: greedy load balancing, longest job first, job accounting, smoothing |
| `EtaAccuracy.dfy` | what the estimate is worth: a steady pace is found exactly and the work left is handed out exactly |
| `PolicyMap.dfy`, `ScanRoots.dfy`, `Percentile.dfy` | prefix lookup, overlapping roots, nearest-rank percentile |
| `Common.dfy` | option and result types, facts about finite sequences and sets, the string order |

How the model is set up:

- The file system, the bundled policies, directory listings, the clock and the outcome of every
  fallible call are parameters, so a statement about a run is a statement about every listing order,
  every clock and every pattern of failures.
- The recovery run is specified twice. As a function of the outcome of every call (`AfterRun`), which
  the imperative code is proved to compute; and by a ghost log of its effects (`RunLog`), a predicate
  that also holds of every prefix, so that what is proved of logs holds wherever a crash cuts a run
  off. A log handles the selected backups in the order of the selection, each at most once, as the
  code does.
- Each transaction of the SQLite store is one step of `ScanRuns.Next`: it commits or leaves no
  trace. UUIDs are counters and hashes are opaque strings.
- `f64` is modelled as `real`; elapsed times are inputs. A `char` of a path or a name stands for one
  byte.
- The position at which the scheduler inserts a newly ready phase is an arbitrary function of the
  queue and the name that stays in bounds. The queue is first sorted ascending, while the search
  predicate presumes descending order, so no lexicographic order is claimed.

Where the code and what is said about it differ, the model follows the code:

- `topological_sort` compares lengths, so duplicate phase names always fail; with nothing else wrong
  they are reported as a circular dependency among no phases (`ScheduleFailureExact`). The validator
  rejects duplicates first.
- A sibling backup reads back to its original path only if the file name has no backslash: the
  backup manager replaces it (`SiblingRoundTrip`, `BackslashDoesNotRoundTrip`).
- In recover mode a path may end up with neither its bytes nor a backup. `CrashSafeIff` gives the
  exact condition, path by path, on the selection and its order, for logs cut anywhere, and
  `CodeSafeIff` the same for what the code leaves behind, from a table with exactly the listed
  operations. `BackupOfBackupLoses` is a disk where it happens (a global backup directory that is
  itself scanned); `LayoutUnentangled` is a condition on the directories under which it never does.
- A path with two selected backups may be left with junk for good: once the first is restored its
  operations are deleted, and a restore of the second that fails part way is never repeated.
- A global backup with several candidates is not selected, but it is not safe from the run either
  when it has a pending operation of its own (`AmbiguousKeptIff`, `AmbiguousOverwritten`). A later run
  gives it to a path exactly when that path's is the only operation left with the name
  (`SelectedIffOnlyOp`); `AmbiguityPasses` is a history of two failure-free runs in which the second
  restores a backup that the first found ambiguous.
- `RestoredInTheEndIff` says exactly for which paths all histories end well: the selection has one
  backup for the path and, if the path is ambiguous, some other operation with its name cannot go.
- Besides the finish pass, ingesting changed content at a known path also takes the old row from
  active to missing (`MissingIff`, `IngestTakesRowMissing`); the path itself keeps an active row. What
  holds of paths is `PathLostIff`: a path loses its active row exactly in a finish that marks that
  row missing or promotes it to a move. The promotion does not look at recorded mutations, so it also
  takes paths that VOOM wrote in the session (`WrittenPathLostIff`, `WrittenPathPromoted`).
- Ingesting a file does not refresh the session's heartbeat in the SQLite store.
- Prefix mappings are sorted by the length of their text, not by their depth. `FirstMatchIsBestIff`
  says exactly when the two agree, `NormalizedAligned` that they do for normalized prefixes, and
  `RedundantSeparatorsWin` that `movies////` beats `movies/4k`.

## Model

| member | source | states |
|---|---|---|
| PhaseScheduling.TopologicalSort | crates/voom-dsl/src/compiler.rs:863-929 | for every phase list and every walk order of the in-degree map: success exactly for distinct names, known dependencies and no cycle; then a permutation of the names with dependencies first; otherwise the reported names are exactly the blocked phases |
| PhaseScheduling.ScheduleSucceedsIff | crates/voom-dsl/src/compiler.rs:885-929 | success is equivalent to distinct names, known dependencies and acyclicity, and a success is an ordered permutation |
| PhaseScheduling.ScheduleFailureExact | crates/voom-dsl/src/compiler.rs:901-926 | the stuck list is exactly the phases that reach a cycle or an unknown name; "unknown" is reported exactly when some dependency is unknown; "circular" comes with a real cycle inside the stuck list; an empty list means duplicates only |
| PhaseScheduling.ScheduleUnique | crates/voom-dsl/src/compiler.rs:863-929 | the phases determine the outcome: the order on success, the kind of error and the list of names on failure |
| PhaseScheduling.StuckIffBlocked | crates/voom-dsl/src/compiler.rs:885-904 | a phase is left over by the worklist exactly when it reaches, through dependencies, a cycle or an unknown name |
| PhaseScheduling.StuckReaches | crates/voom-dsl/src/compiler.rs:901-926 | from a stuck phase there is a path to an unknown name or to a cycle of stuck phases only |
| PhaseScheduling.PathDescends | crates/voom-dsl/src/compiler.rs:886-899 | along dependencies the position in the produced order strictly decreases |
| PhaseScheduling.StepValid | crates/voom-dsl/src/compiler.rs:886-898 | every pop keeps the worklist invariant, including that each decrement finds its entry and does not underflow, and the result grows by one |
| PhaseScheduling.RelaxEffect | crates/voom-dsl/src/compiler.rs:889-897 | relaxing the neighbours lowers each in-degree by its number of entries and queues a name once, exactly when its degree becomes zero, wherever it is inserted |
| PhaseScheduling.OpenCountDrop | crates/voom-dsl/src/compiler.rs:870-875 | ordering a phase lowers the open dependency count of each phase by its number of adjacency entries |
| PhaseScheduling.IterationOrderIrrelevant | crates/voom-dsl/src/compiler.rs:878-883 | the start queue is the same for every iteration order of the map |
| PhaseScheduling.BuildGraph | crates/voom-dsl/src/compiler.rs:864-876 | the two maps built in place hold each phase's dependency count and each name's dependents |
| PhaseScheduling.RelaxAll | crates/voom-dsl/src/compiler.rs:888-898 | the inner loop computes the relaxed degrees and queue |
| PhaseScheduling.DrainQueue | crates/voom-dsl/src/compiler.rs:885-899 | the worklist loop terminates with the ordering defined by single steps |
| PhaseScheduling.Classify | crates/voom-dsl/src/compiler.rs:901-928 | the error classifier reports the ascending list of unordered names and the right kind |
| PolicyMerge.MergePolicy | crates/voom-dsl/src/composition.rs:152-247 | the in-place merge with its consumed flags computes the merge function |
| PolicyMerge.MergeExact | crates/voom-dsl/src/composition.rs:152-247 | for distinct names: succeeds exactly when every extending child phase has a parent phase; the merged list has the parent's names in order and then the child's new ones, each phase the parent's overlaid by the child's, and the provenance map has exactly these names with the right origins |
| PolicyMerge.ParentLoopExact | crates/voom-dsl/src/composition.rs:167-213 | after any number of parent phases: overlaid phases, consumed flags and provenance are exactly those of the names met so far |
| PolicyMerge.ChildLoopExact | crates/voom-dsl/src/composition.rs:215-227 | the second loop appends exactly the unconsumed child phases and fails exactly on one that extends |
| PolicyMerge.FirstExtend | crates/voom-dsl/src/composition.rs:142-150 | a root policy is rejected exactly when it has an extending phase, and the first such phase is named |
| PolicyFlattening.ComposeIsFlattening | crates/voom-dsl/src/composition.rs:102-265 | for chains of any length: each phase has the operations of its most-derived plain definition followed by every later extension's, each guard from the most-derived layer since then that gives it, and an origin label naming that definition |
| PolicyFlattening.ComposeShape | crates/voom-dsl/src/composition.rs:102-247 | for distinct names in each policy: composition succeeds exactly when every extending phase is mentioned by an ancestor, and lists every name once, ancestors' order first |
| PolicyFlattening.ComposedIsCompilable | crates/voom-dsl/src/composition.rs:164-246 | for every chain, duplicate names or not: name and span are the last layer's, no composed phase has `extend` set, the names are those mentioned, the provenance keys are exactly the phase names (none for a policy that extends nothing), and the ancestors are recorded root first |
| PolicyFlattening.ConfigIsLatest | crates/voom-dsl/src/composition.rs:233 | the config block is that of the most-derived layer that has one |
| PolicyFlattening.MetadataIsLatest | crates/voom-dsl/src/composition.rs:272-289 | every metadata field is that of the most-derived layer that gives it |
| PolicyFlattening.MergeCounts | crates/voom-dsl/src/composition.rs:161-227 | a merge keeps as many phases of a name as the richer of the two policies has, duplicates included |
| PolicyFlattening.MergeDistinctIff | crates/voom-dsl/src/composition.rs:161-227 | the merged names are distinct exactly when both policies' names are |
| PolicyFlattening.ComposeDistinctIff | crates/voom-dsl/src/lib.rs:103-109 | validating the composed policy for duplicate names is the same as validating every layer |
| PolicyResolution.ResolvePolicyFile | crates/voom-dsl/src/composition.rs:45-140 | the file must be found, read and parsed; then the outcome is decided exactly by what `extends` names: a cycle is reported exactly when following it comes back to a source, a layer on the way that cannot be followed gives its own error, and else the chain of the named sources is composed; each layer leads to the bundled policy of that name, or to the file behind `file://`, absolute or relative to the layer's own file |
| PolicyResolution.ResolvePolicyWithBundled | crates/voom-dsl/src/composition.rs:51-140 | the same for an inline source; one that extends a file is refused, and on success every layer behind it is a bundled policy |
| PolicyResolution.CycleReportedIff | crates/voom-dsl/src/composition.rs:64-140 | resolution stops with a cycle exactly when following `extends` meets a source twice |
| PolicyResolution.TraceCycleIff | crates/voom-dsl/src/composition.rs:325-339 | with any stack: a cycle is reported exactly when the walk meets the stack or itself |
| PolicyResolution.EntryOutcome | crates/voom-dsl/src/composition.rs:45-140 | the three outcomes of a resolution (cycle, first layer that cannot be followed, composed chain), each with its exact condition and one of them always the case |
| PolicyResolution.ParentMeans | crates/voom-dsl/src/composition.rs:118-137 | the source resolved next is exactly the one that the `extends` clause names, and a file only where files are allowed |
| PolicyResolution.StopMeans | crates/voom-dsl/src/composition.rs:64-137 | which error stops at a layer: scheme in a bundled name, unknown bundled policy, files not allowed, other scheme, empty or unresolvable path, unreadable file, parse failure |
| PolicyResolution.RevisitsIff | crates/voom-dsl/src/composition.rs:325-339 | the walk meets a source twice exactly when some path along `extends` does |
| PolicyResolution.TraceIsChain | crates/voom-dsl/src/composition.rs:102-140 | the chain found is made of the sources that `extends` names, up to a policy that extends nothing |
| PolicyResolution.TraceChain | crates/voom-dsl/src/composition.rs:102-140 | any such chain is the one found, unless a cycle is reported |
| PolicyResolution.TraceBlocked | crates/voom-dsl/src/composition.rs:102-140 | a path to a layer that cannot be followed decides the error, unless a cycle is reported |
| PolicyResolution.TraceError | crates/voom-dsl/src/composition.rs:102-140 | every other error comes from such a path |
| PolicyResolution.EndedNotCircling | crates/voom-dsl/src/composition.rs:325-339 | a walk that ends never meets a source twice |
| PolicyResolution.InlineChainBundled | crates/voom-dsl/src/composition.rs:128-133 | behind an inline source every layer is a bundled policy |
| PolicyResolution.ComposeNeverCyclic | crates/voom-dsl/src/composition.rs:215-227 | composing a found chain can fail only over a phase that extends nothing |
| PolicyResolution.ResolvedIsCompilable | crates/voom-dsl/src/compiler.rs:143-151 | the same for every resolved policy, so the compiler's unresolved-extend error cannot occur |
| PolicyResolution.LoadedInUniverse | crates/voom-dsl/src/composition.rs:64-100 | each source pushed is one fewer not yet on the stack, so resolution terminates |
| PolicyResolution.Resolver.PushSource | crates/voom-dsl/src/composition.rs:325-339 | pushes exactly a source not on the stack; else reports the cycle from its first occurrence |
| PolicyResolution.Resolver.ResolveSource | crates/voom-dsl/src/composition.rs:64-100 | resolves one source; on success the stack is as before |
| PolicyResolution.Resolver.ResolveAst | crates/voom-dsl/src/composition.rs:102-140 | computes the resolution of a layer; on success the stack is as before |
| BackupNames.InferNameExact | crates/voom-cli/src/recovery.rs:357-391 | a backup name is recognized exactly when it is a name, a dot, fourteen digits and `.vbak` |
| BackupNames.InferableHasExtension | crates/voom-cli/src/recovery.rs:234-246 | the extension filter drops no name that could be read back |
| BackupNames.SiblingRoundTrip | plugins/backup-manager/src/backup.rs:237-258 | reading a sibling backup's path back gives the original path exactly when the name has no replaced character |
| BackupNames.BackslashDoesNotRoundTrip | plugins/backup-manager/src/backup.rs:237-258 | a legal name with a backslash reads back to another path |
| BackupNames.GlobalRoundTrip | crates/voom-cli/src/recovery.rs:299-323 | a global backup name reads back to the file name, under the same condition |
| BackupNames.ParseGlobalExact | crates/voom-cli/src/recovery.rs:310-323 | a global backup name is recognized exactly when it is a UUID of 36 characters, an underscore and some text, which is the file name |
| BackupNames.VbakExtensionExact | crates/voom-cli/src/recovery.rs:234-246 | the extension filter accepts exactly something followed by `.vbak` |
| BackupWalk.CollectOrphansIn | crates/voom-cli/src/recovery.rs:190-217 | the recursive walk appends what the tree offers, in listing order |
| BackupWalk.CollectVbakFiles | crates/voom-cli/src/recovery.rs:219-250 | one level of a backup directory is filtered by extension |
| BackupWalk.RootExact | crates/voom-cli/src/recovery.rs:179-250 | a scan root offers exactly the `.vbak` names of its tree that lie directly in a backup directory not nested in another |
| BackupWalk.WrittenBackupFoundIff | crates/voom-cli/src/recovery.rs:179-250 | a written sibling backup is found and read back exactly when its file was not itself in a backup directory and has a clean name |
| CrashRecovery.GlobalMembers | crates/voom-cli/src/recovery.rs:325-346 | a global backup is selected exactly when exactly one pending operation has its file name |
| CrashRecovery.AmbiguousMembers | crates/voom-cli/src/recovery.rs:325-341 | the ambiguous paths are exactly the candidates of global backups with several |
| CrashRecovery.GlobalMatchExact | crates/voom-cli/src/recovery.rs:274-346 | the candidates of a file in the global directory are exactly the pending paths whose last component follows its UUID and underscore |
| CrashRecovery.NoCandidateInSight | crates/voom-cli/src/recovery.rs:60-77 | when nothing is selected, a path that is not ambiguous has no sibling and no global candidate |
| CrashRecovery.TouchesOnlyPending | crates/voom-cli/src/recovery.rs:60-92 | whatever fails, files are written and backups removed only for paths with a pending operation |
| CrashRecovery.OthersUntouched | crates/voom-cli/src/recovery.rs:35-93 | every path that the selection neither removes nor writes keeps its bytes through a run |
| CrashRecovery.DeletionsJustified | crates/voom-cli/src/recovery.rs:97-173 | an operation is gone only after a backup of its path was removed, or when nothing was selected and it is stale |
| CrashRecovery.DeletionSafe | crates/voom-cli/src/recovery.rs:35-173 | over a whole run, a deleted operation had a backup of its path removed in the run, or had no candidate in sight, was not ambiguous, and some scanned root is a prefix of its path |
| CrashRecovery.CleanKeepsExactly | crates/voom-cli/src/recovery.rs:97-130 | in a failure-free run with nothing selected, an operation stays pending exactly when its path is ambiguous or no scanned root is a prefix of it |
| CrashRecovery.AmbiguousOpKept | crates/voom-cli/src/recovery.rs:97-112 | an ambiguous path's operation is deleted only with a sibling backup of that path |
| CrashRecovery.OutcomeBackups | crates/voom-cli/src/recovery.rs:84-91 | without failures, exactly the handled backups are gone and the others intact |
| CrashRecovery.OutcomeRestores | crates/voom-cli/src/recovery.rs:84-91 | without failures, each restored path holds the bytes one of its backups had at the start |
| CrashRecovery.CalmRun | crates/voom-cli/src/recovery.rs:35-93 | without failures the disk is the outcome of the selection, handled in order |
| CrashRecovery.CalmProgress | crates/voom-cli/src/recovery.rs:35-130 | for a plan derived from the table and from listings of the disk: a failure-free run shrinks the pending set, or selects nothing and finds only ambiguous or out-of-scope operations |
| CrashRecovery.ConvergesInBoundedRuns | crates/voom-cli/src/recovery.rs:35-93 | failure-free runs one after the other, each listing the table and the disk that the last one left, come to rest within as many runs as there are operations |
| CrashRecovery.FindOrphans | crates/voom-cli/src/recovery.rs:219-250 | sibling backups that can be read back, in order |
| CrashRecovery.IndexByFileName | crates/voom-cli/src/recovery.rs:282-297 | the index maps each file name to the pending paths with that name |
| CrashRecovery.CollectGlobalBackups | crates/voom-cli/src/recovery.rs:259-348 | unique matches are collected, the candidates of ambiguous ones remembered |
| CrashRecovery.SelectOrphans | crates/voom-cli/src/recovery.rs:60-68 | keeps exactly the backups whose original has a pending operation |
| CrashRecovery.Machine.Restore | plugins/backup-manager/src/backup.rs:189-207 | a copy that needs its source, may fail without effect and may fail part way |
| CrashRecovery.Machine.RemoveBackup | plugins/backup-manager/src/backup.rs:209-217 | removes a backup or fails without effect |
| CrashRecovery.Machine.Recover | crates/voom-cli/src/recovery.rs:394-439 | restore, then remove; success means the backup was removed |
| CrashRecovery.Machine.Discard | crates/voom-cli/src/recovery.rs:442-474 | removes the backup without restoring |
| CrashRecovery.Machine.ResolveSingleOrphan | crates/voom-cli/src/recovery.rs:135-173 | the new state for every outcome of its calls: the attempt, and on success a delete for every listed operation on the path |
| CrashRecovery.Machine.CleanStalePendingOps | crates/voom-cli/src/recovery.rs:97-130 | the new state for every outcome of its calls: a delete for every operation that is neither ambiguous nor outside the roots; what that leaves pending is CleanKeepsExactly |
| CrashRecovery.Machine.CheckAndRecoverUnder | crates/voom-cli/src/recovery.rs:35-93 | the plan is derived from the listings and all operations, or from none if listing them failed; the new state is that plan's run for the failures that happen; the log records it and the count is the number of backups removed |
| CrashSafety.CrashSafe | crates/voom-cli/src/recovery.rs:394-439 | in recover mode, after every prefix of every run, a path with selected backups that is outside the condition has one on disk byte for byte or holds the bytes of one |
| CrashSafety.CrashSafeIff | crates/voom-cli/src/recovery.rs:79-92 | for every selection and path with a backup: some run, from a disk with the backups and a table with the listed operations, loses the path exactly when all its backups are exposed, or some step unsettles it when every other backup is exposed or already restored |
| CrashSafety.CodeSafeIff | crates/voom-cli/src/recovery.rs:35-93 | the same condition is exact for what the code leaves behind after a listing that succeeds, over every disk and every outcome of its calls |
| CrashSafety.CodeLoses | crates/voom-cli/src/recovery.rs:35-93 | whenever the condition holds: the disk, the table and the outcomes for which the code loses the path |
| CrashSafety.RunLogged | crates/voom-cli/src/recovery.rs:35-173 | whatever the outcome of its calls, what the code does is recorded by a log |
| CrashSafety.EveryStory | crates/voom-cli/src/recovery.rs:394-439 | what can have happened to a path at any point of any run |
| CrashSafety.UnentangledSafe | crates/voom-cli/src/recovery.rs:60-68 | no path can be lost when no original is a selected backup and no backup is selected for two originals |
| CrashSafety.LayoutUnentangled | crates/voom-cli/src/recovery.rs:42-68 | separate sibling and global listings, with no listed backup itself pending, select nothing of that kind |
| CrashSafety.NeverOwnBackup | crates/voom-cli/src/recovery.rs:259-391 | no listing selects a file as its own backup |
| CrashSafety.BackupOfBackupLoses | crates/voom-cli/src/recovery.rs:259-348 | a global backup with a pending operation and a backup of its own: a run derived from these listings, in their order, loses the file it backs up |
| CrashSafety.AlwaysKeptIff | crates/voom-cli/src/recovery.rs:35-93 | a path keeps its bytes in every run from a state that fits the plan exactly when the selection neither removes it nor, in recover mode, writes it |
| CrashSafety.AmbiguousKeptIff | crates/voom-cli/src/recovery.rs:325-341 | a global backup with several candidates keeps its bytes in every run exactly when it is not also a sibling backup of a pending path and nothing is restored onto it |
| CrashSafety.AmbiguousOverwritten | crates/voom-cli/src/recovery.rs:325-341 | listings for which a run overwrites such a backup |
| RecoveryRuns.RunKeepsSafe | crates/voom-cli/src/recovery.rs:135-173 | at every point of every run the backup is there and its path pending, or the path holds the bytes |
| RecoveryRuns.StillSelected | crates/voom-cli/src/recovery.rs:259-348 | every later run selects the backup for the same path while both are there |
| RecoveryRuns.RunKeepsBlocked | crates/voom-cli/src/recovery.rs:97-173 | while an ambiguous path is pending, another one with its name and without a backup of its own stays pending too |
| RecoveryRuns.TwoBackupsEndBadly | crates/voom-cli/src/recovery.rs:135-173 | with two backups of a path, a whole run of the code leaves junk that no later run replaces |
| AmbiguousRuns.SelectedIffOnlyOp | crates/voom-cli/src/recovery.rs:325-346 | at any point of any history a global backup is selected for a path exactly when no other pending operation has that file name |
| AmbiguousRuns.AmbiguityPasses | crates/voom-cli/src/recovery.rs:325-346 | two failure-free runs: the first leaves an ambiguous backup alone, the second restores it to the candidate that is still pending and removes it |
| AmbiguousRuns.ContestedEndsBadly | crates/voom-cli/src/recovery.rs:135-173 | when all other operations with its name can go, an ambiguous path can be left with junk |
| AmbiguousRuns.RestoredInTheEndIff | crates/voom-cli/src/recovery.rs:35-173 | after any number of runs cut off anywhere and a failure-free one, a path of the first selection holds the bytes of one of its backups, in every such history, exactly when it has one selected backup and, if ambiguous, some other operation with its name cannot go; the same for histories of whole runs |
| WrittenBackups.WrittenBackupSelectedIff | crates/voom-cli/src/recovery.rs:179-250 | a written sibling backup in the tree of a scan root is selected for its pending file exactly when the file was not itself in a backup directory and has a clean name |
| WrittenBackups.WrittenBackupRestored | crates/voom-cli/src/recovery.rs:35-93 | its file then has the bytes of one of its backups after a failure-free run, and of this one if it is the only one |
| ScanSessions.BeginKeeps | plugins/sqlite-store/src/store/file_storage.rs:510-594 | beginning a session keeps the table invariant: stale sessions are closed and exactly one is open |
| ScanSessions.BeginRefusedIff | plugins/sqlite-store/src/store/file_storage.rs:525-565 | a begin is refused exactly while some session in progress has a heartbeat less than 61 seconds old, that is at most 60 whole seconds |
| ScanSessions.CancelKeeps | plugins/sqlite-store/src/store/file_storage.rs:753-768 | cancelling keeps the invariant |
| ScanSessions.HeartbeatKeeps | plugins/sqlite-store/src/store/file_storage.rs:769-800 | a heartbeat keeps the invariant |
| ScanSessions.RecordKeeps | plugins/sqlite-store/src/store/scan_session_mutations_storage.rs:43-92 | recording a mutation keeps the invariant |
| ScanSessions.IngestKeeps | plugins/sqlite-store/src/store/file_storage.rs:595-692 | every ingest decision keeps the invariant: one row per path, one open session, superseded rows have given up their path |
| ScanSessions.KnownPathDecision | plugins/sqlite-store/src/store/file_storage.rs:618-660 | a known path that is neither seen nor a stub is unchanged exactly when no hash or the same hash is expected, and else changed outside; with the rows of either case |
| ScanSessions.UnknownPathDecision | plugins/sqlite-store/src/store/file_storage.rs:662-691 | a path without a row, or with a stub, is new exactly when no missing row under the roots expects its content, and else one such row is moved there; with the rows of either case |
| ScanSessions.FinishKeeps | plugins/sqlite-store/src/store/file_storage.rs:693-752 | promotion and the missing pass keep the invariant |
| ScanRuns.RecordCoversWrite | crates/voom-domain/src/scan_session_mutations.rs:108-141 | for every source and destination, the rows recorded are exactly the destination and the source; the kind is Overwrite for one path, Rename for equal extensions |
| ScanRuns.ExtensionExact | crates/voom-domain/src/scan_session_mutations.rs:119-128 | the extension compared is what follows the last dot of the last component, when something precedes that dot |
| ScanRuns.RunValid | crates/voom-domain/src/storage.rs:199-246 | in every state of every run the invariant holds: at most one session in progress, and every in-session VOOM write was recorded before |
| ScanRuns.ClosedForever | crates/voom-domain/src/transition.rs:372-381 | a completed or cancelled session never changes again |
| ScanRuns.HeartbeatProtects | plugins/sqlite-store/src/store/file_storage.rs:525-565 | in every run: within 61 seconds of its begin or of a heartbeat no other session begins while the session is open |
| ScanRuns.HeartbeatAdvances | plugins/sqlite-store/src/store/file_storage.rs:769-800 | in every run, the heartbeat of an open session never goes back |
| ScanRuns.CloseExact | plugins/sqlite-store/src/store/file_storage.rs:567-593 | a begin closes exactly the sessions in progress and opens its own; a cancel closes exactly its own |
| ScanRuns.MissingIff | plugins/sqlite-store/src/store/file_storage.rs:982-1033 | a row goes from active to missing exactly in a finish pass that marks it or in an ingest that supersedes it |
| ScanRuns.FinishRowExact | plugins/sqlite-store/src/store/file_storage.rs:1118-1334 | what a finish does to every row: a promoted row takes over place and size of its partner, which goes; an unseen row under the roots without a recorded mutation goes missing; the others stay |
| ScanRuns.FinishMatchesAll | plugins/sqlite-store/src/store/file_storage.rs:1118-1161 | of an unseen row and an inserted row with its expected content, at least one is promoted or used |
| ScanRuns.IngestTakesRowMissing | plugins/sqlite-store/src/store/file_storage.rs:982-1033 | a run of one step and one row in which an ingest does so |
| ScanRuns.PathLostIff | plugins/sqlite-store/src/store/file_storage.rs:1118-1334 | a path loses its active row exactly in a finish that marks that row missing or promotes it to a move |
| ScanRuns.PathLostMeansGone | crates/voom-domain/src/storage.rs:219-229 | in every run that happens only in the finish of a session whose roots cover the path and which did not ingest it |
| ScanRuns.WrittenPathLostIff | plugins/sqlite-store/src/store/file_storage.rs:1118-1249 | a path that VOOM wrote in the session loses its active row in the finish exactly when that row is promoted |
| ScanRuns.WrittenPathPromoted | plugins/sqlite-store/src/store/file_storage.rs:1118-1249 | a state and a finish in which that happens |
| ScanRuns.MarkedMeansGone | plugins/sqlite-store/src/store/file_storage.rs:1251-1334 | in every run, a row marked missing by a finish lies under the session's roots at a path that the session did not ingest and VOOM did not write in it |
| ScanRuns.IngestKeepsSeen | plugins/sqlite-store/src/store/file_storage.rs:595-692 | an ingest never disturbs what the session has already seen |
| ScanRuns.SeenStays | crates/voom-domain/src/storage.rs:206-217 | what a session has seen stays seen while it is open |
| ScanRuns.SeenIsDuplicate | crates/voom-domain/src/storage.rs:206-217 | an ingest reports a duplicate exactly for a seen path, and then changes no row |
| ScanRuns.SecondIngestIsDuplicate | crates/voom-domain/src/storage.rs:206-217 | in every run, the second ingest of a path in a session is a duplicate and changes no row |
| ScanInterleaving.SessionReportExact | crates/voom-domain/src/storage.rs:156-191 | in every run, whatever other processes do in between: the counters of a session that begins and finishes are exact and add up to the files it ingested |
| ScanInterleaving.OthersKeepBatch | crates/voom-domain/src/storage.rs:199-246 | while a session is open, steps of others leave what it has seen and can promote as it is |
| ScanInterleaving.ClosedBySomeone | plugins/sqlite-store/src/store/file_storage.rs:510-594 | a session found closed was closed since by its finish, a cancel, or another begin once its heartbeat was stale |
| ScanStore.IngestEligible | plugins/sqlite-store/src/store/file_storage.rs:1163-1249 | the promotable rows grow by exactly the fresh row of each New decision and by nothing else |
| ScanStore.PromotionsBounded | plugins/sqlite-store/src/store/file_storage.rs:1118-1161 | each promoted move uses up a distinct promotable row |
| ScanStore.EligibleAfterMoves | plugins/sqlite-store/src/store/file_storage.rs:1163-1249 | inside the transaction the promotable rows are those not yet used |
| ScanStore.TryPromoteOne | plugins/sqlite-store/src/store/file_storage.rs:1163-1249 | promotes a candidate onto some matching unused row, if there is one |
| ScanStore.PromoteMoves | plugins/sqlite-store/src/store/file_storage.rs:1118-1161 | the promotions form a maximal matching of missing candidates to new rows |
| ScanStore.MarkMissing | plugins/sqlite-store/src/store/file_storage.rs:1251-1334 | marks exactly the unseen rows under the roots whose path has no recorded mutation |
| ScanStore.FinishTables | plugins/sqlite-store/src/store/file_storage.rs:693-752 | the finish transaction as one relation, with its two counts |
| ScanStore.ReportConserves | crates/voom-domain/src/storage.rs:161-191 | new, unchanged, moved, external and dropped duplicates add up to the files given |
| ScanStore.IntrospectionExact | crates/voom-domain/src/transition.rs:461-480 | the introspection list holds, in input order, the paths of exactly the files that are new, changed outside or moved, so its length is the sum of these counts |
| ScanStore.CountsExact | crates/voom-domain/src/storage.rs:166-182 | each counter is the number of decisions of its kind |
| ScanStore.BatchStep | crates/voom-domain/src/storage.rs:166-182 | each loop iteration keeps the tally of the decisions and the set of seen paths |
| ScanStore.BatchFinishes | crates/voom-domain/src/storage.rs:183-187 | the saturating subtraction never saturates, and the settled counters are the reported ones |
| ScanStore.ReconciledClosed | crates/voom-domain/src/storage.rs:321-346 | a whole reconciliation leaves no new session open |
| ScanStore.AbandonedOpen | crates/voom-domain/src/storage.rs:335-344 | one given up leaves at most its own session open, and only if the cancel failed |
| ScanStore.Store.BeginScanSession | crates/voom-domain/src/storage.rs:199-204 | fails exactly when the call fails or some session in progress has a heartbeat less than 61 seconds old, and then changes nothing; else closes the stale sessions and opens one |
| ScanStore.Store.IngestDiscoveredFile | crates/voom-domain/src/storage.rs:206-217 | performs one of the ingest decisions; fails, without effect, only if the session is not open or the call fails |
| ScanStore.Store.FinishScanSession | crates/voom-domain/src/storage.rs:219-229 | performs the finish transaction with its exact counts; fails, without effect, only if the session is not open or the call fails |
| ScanStore.Store.CancelScanSession | crates/voom-domain/src/storage.rs:231-233 | closes an open session, changes no file, or fails without effect |
| ScanStore.Store.HeartbeatScanSession | crates/voom-domain/src/storage.rs:235-246 | touches only the heartbeat of a session in progress |
| ScanStore.Store.RecordMutationForPendingWrite | crates/voom-domain/src/scan_session_mutations.rs:108-141 | without a session or without a storage handle does nothing; else records the touched paths, or reports the error when the call fails |
| ScanStore.Store.ReconcileDiscoveredFiles | crates/voom-domain/src/storage.rs:156-191 | a success is a begin, one ingest per file in order and a finish, with a report of exactly these decisions and counts, and for introspection the paths of exactly the new, externally changed and moved files in order; an error comes from a failed call or a live session, keeps the rows ingested so far, and leaves the new session open only if the last call was its cancel and failed |
| LoadBalancing.AssignGreedily | crates/voom-cli/src/progress.rs:515-523 | the loop puts each duration on the first least loaded slot |
| LoadBalancing.GreedyConserves | crates/voom-cli/src/progress.rs:515-523 | total load is conserved |
| LoadBalancing.MakespanLowerBounds | crates/voom-cli/src/progress.rs:497-525 | any assignment's makespan is at least the average, every running load and every job |
| LoadBalancing.GreedyLowerBounds | crates/voom-cli/src/progress.rs:497-525 | so is the greedy one |
| LoadBalancing.GreedySettles | crates/voom-cli/src/progress.rs:515-523 | each slot has its running load, or its last job was put on it when it was least loaded |
| LoadBalancing.GreedyNearOptimal | crates/voom-cli/src/progress.rs:497-525 | m times the greedy makespan is at most 2m - 1 times that of any assignment of the same jobs onto the same loads |
| LoadBalancing.GreedyRatio | crates/voom-cli/src/progress.rs:497-525 | the same bound as the ratio 2 - 1/m |
| LongestFirst.BigJobFits | crates/voom-cli/src/progress.rs:513-523 | a job longer than half of any other makespan is put where it fits within that makespan |
| LongestFirst.LongestFirstNearOptimal | crates/voom-cli/src/progress.rs:507-525 | with the queue longest first, 2m times the greedy makespan is at most 3m - 1 times that of any assignment |
| LongestFirst.LongestFirstRatio | crates/voom-cli/src/progress.rs:507-525 | the same bound as the ratio 3/2 - 1/(2m) |
| BatchEta.RunConserves | crates/voom-cli/src/progress.rs:412-456 | over every well-formed run, finished, running and queued weight equal the seeded weight plus that of unseeded starts |
| BatchEta.ApplyWeight | crates/voom-cli/src/progress.rs:412-456 | what each event, well-formed or not, does to the total weight |
| BatchEta.ApplyExact | crates/voom-cli/src/progress.rs:412-456 | which job each event touches and what it stores: start time, seeded weight or size, clamped progress; the others stay |
| BatchEta.JobWeightExact | crates/voom-cli/src/progress.rs:640-644 | the weight of a file is its size, and 1 for an empty file |
| BatchEta.QueueAfter | crates/voom-cli/src/progress.rs:412-432 | the queue is the seeded one without the started paths |
| BatchEta.WorkRemainsIff | crates/voom-cli/src/progress.rs:607-620 | remaining weight is positive exactly while a job is queued or running |
| BatchEta.NeverImminent | crates/voom-cli/src/progress.rs:567-605 | a job with known positive progress, reported or inferred, is never predicted to finish in less than elapsed/49 |
| BatchEta.ToldPrediction | crates/voom-cli/src/progress.rs:567-585 | with reported progress q, capped at 0.98, the rest is the larger of elapsed/q and the expected time, less the time spent |
| BatchEta.InferredPrediction | crates/voom-cli/src/progress.rs:567-605 | without reported progress the rest is the larger of the expected time and elapsed/0.98, less the time spent |
| BatchEta.NothingDonePrediction | crates/voom-cli/src/progress.rs:567-585 | with reported progress zero the rest is the expected time less the time spent, or nothing |
| BatchEta.UnfinishedExact | crates/voom-cli/src/progress.rs:607-617 | the remaining weight of a running job as reported, at least 2 in 100 of it, or all of it |
| BatchEta.InferredUnfinished | crates/voom-cli/src/progress.rs:607-617 | the remaining weight as the time spent suggests, at least 2 in 100 of it |
| BatchEta.RawEtaNearOptimal | crates/voom-cli/src/progress.rs:497-525 | the raw estimate is within 3/2 - 1/(2m) of any way to hand out the same queue |
| BatchEta.SmoothStep | crates/voom-cli/src/progress.rs:622-637 | one step stays within the factors 0.75 and 1.30 and between the previous and the raw value |
| BatchEta.SmoothExact | crates/voom-cli/src/progress.rs:622-637 | the first display is the raw value; then 35 in 100 of the way, or the largest step exactly when the raw value is below 2/7 or above 13/7 of the display |
| BatchEta.DisplayedPositive | crates/voom-cli/src/progress.rs:622-637 | the displayed value stays positive over every sequence of positive estimates |
| BatchEta.ConvergesFromAbove | crates/voom-cli/src/progress.rs:622-637 | against a constant lower raw value the error shrinks at least by 0.75 per step |
| BatchEta.Seeded | crates/voom-cli/src/progress.rs:391-398 | the seeded queue has exactly the given paths, each with at least the minimum weight |
| BatchEta.BatchEtaState.OnJobStart | crates/voom-cli/src/progress.rs:412-432 | moves a job's weight from the queue to the running jobs |
| BatchEta.BatchEtaState.OnJobProgress | crates/voom-cli/src/progress.rs:434-439 | updates the clamped progress of a known job only |
| BatchEta.BatchEtaState.OnJobComplete | crates/voom-cli/src/progress.rs:441-456 | moves a known job's weight to the completed weight and records its duration |
| BatchEta.BatchEtaState.SmoothEta | crates/voom-cli/src/progress.rs:622-637 | the displayed value follows the smoothing step and is cleared by a raw value that is not positive |
| BatchEta.BatchEtaState.SecondsPerWeight | crates/voom-cli/src/progress.rs:539-565 | known exactly when a job has finished and time was observed; times the finished weight plus the reported parts of the running jobs it gives the time spent on them |
| BatchEta.BatchEtaState.EstimateEta | crates/voom-cli/src/progress.rs:466-537 | which branch is taken and why (two jobs or ten seconds to warm up, six jobs for high confidence); the pace explains the observed time; the raw estimate is the greedy makespan of the predicted loads and the queue, longest first |
| BatchEta.PaceExplains | crates/voom-cli/src/progress.rs:539-565 | the pace times the observed weight is the observed time |
| EtaAccuracy.SteadyPace | crates/voom-cli/src/progress.rs:539-565 | if every finished job and every reported part took c seconds per unit of weight, the pace is c |
| EtaAccuracy.SteadyFromFinished | crates/voom-cli/src/progress.rs:539-565 | the same from finished jobs alone while no progress is reported |
| EtaAccuracy.SlotCount | crates/voom-cli/src/progress.rs:497-505 | one slot per running job and at least one per worker |
| EtaAccuracy.WorkHandedOut | crates/voom-cli/src/progress.rs:497-525 | the balanced slots hold exactly the predicted rest of the running jobs and the queued weight at the pace |
| EtaAccuracy.OneWorkerEstimate | crates/voom-cli/src/progress.rs:497-525 | with one worker that total is the raw estimate; with nothing running it is the queued weight times the pace |
| PolicyMap.Validate | crates/voom-cli/src/policy_map.rs:31-51 | an entry is accepted exactly when it has one of a policy and `skip = true` |
| PolicyMap.Build | crates/voom-cli/src/policy_map.rs:148-225 | succeeds exactly when all entries are acceptable and all named policies compile; every stored index is in range and names its entry's policy; which error comes first |
| PolicyMap.PolicyPaths | crates/voom-cli/src/policy_map.rs:158-175 | each named policy exactly once, in order of first mention with the default first |
| PolicyMap.CompileAll | crates/voom-cli/src/policy_map.rs:177-190 | each name compiled and indexed in order, or the first one that does not compile reported |
| PolicyMap.Resolve | crates/voom-cli/src/policy_map.rs:223-255 | for a file under the root its path below the root decides, else its own path: the matching entry with the longest text, first in the configuration among equals, decides; without a match the default does; for aligned entries that is the deepest match |
| PolicyMap.OrderSorts | crates/voom-cli/src/policy_map.rs:217 | the sorted list has every entry, longer text first, equal lengths in configuration order |
| PolicyMap.PickedIsFirst | crates/voom-cli/src/policy_map.rs:231-243 | the loop picks the matching entry that sorts first |
| PolicyMap.SomeSortsFirst | crates/voom-cli/src/policy_map.rs:227-239 | a file with a matching entry has one that sorts first |
| PolicyMap.JoinReadsBack | crates/voom-cli/src/policy_map.rs:227-229 | a prefix written out from its components reads back as these, absolute, relative or with a leading dot |
| PolicyMap.FirstMatchIsBestIff | crates/voom-cli/src/policy_map.rs:217-243 | the entry picked is the deepest match for every file exactly when each entry sorts before the other entries that contain its directory |
| PolicyMap.NormalizedAligned | crates/voom-cli/src/policy_map.rs:217-243 | normalized prefixes always satisfy that condition |
| PolicyMap.BestExists | crates/voom-cli/src/policy_map.rs:231-243 | whenever an entry matches there is a deepest one |
| PolicyMap.RedundantSeparatorsWin | crates/voom-cli/src/policy_map.rs:217 | a prefix with redundant separators wins over a deeper one with shorter text |
| ScanRoots.ResolvePaths | crates/voom-cli/src/paths.rs:7-27 | fails exactly when a path does not exist; else keeps exactly the topmost roots, none under another, and every given path lies under exactly one |
| ScanRoots.FilterDominated | crates/voom-cli/src/paths.rs:18-25 | on a sorted list the loop keeps exactly the topmost roots |
| ScanRoots.DominatedIff | crates/voom-cli/src/paths.rs:20 | a root is under a kept one exactly when it is not topmost |
| ScanRoots.NothingToRetract | crates/voom-cli/src/paths.rs:22 | in sorted order no earlier root lies under a later one |
| ScanRoots.RetainAll | crates/voom-cli/src/paths.rs:22 | so `retain` removes nothing |
| ScanRoots.RootsCover | crates/voom-cli/src/paths.rs:18-26 | every given path lies under exactly one of the topmost roots |
| Percentile.NearestRankIsLeast | crates/voom-domain/src/plugin_stats.rs:145-165 | for 0 < p <= 100 and a sorted list: the least value that at least p percent of the elements do not exceed |
| Percentile.NearestRankMonotone | crates/voom-domain/src/plugin_stats.rs:156-165 | monotone in p |
| Percentile.RankProductFits | crates/voom-domain/src/plugin_stats.rs:156-165 | the 128-bit product of two 64-bit values does not overflow |

## Left out

- The parser, the formatter and the other checks of the validator: a source parses to a policy or does not.
- Compiling operations, conditions and filters, transcode and synthesize settings: a compiled policy here is its phases, their order and their guards.
- Executors, the event bus, kernel dispatch, plugin and WASM loading, the web server and command-line output.
- Path normalization, canonicalization and lossy conversion of file names: paths are lists of components, and normalization is an arbitrary function.
- Transition records, track rows, file metadata and hashes of restored files: they do not feed back into the operations modelled.
- `record_post_execution`, purging and the other file operations outside scan sessions: the runs of `ScanRuns` have no steps for them.
- The in-memory store and other back ends: only the SQLite store is modelled.
- UUID parsing: whether a prefix is a UUID is an arbitrary predicate, and ids handed out by the store are counters.
- Rounding, infinities and NaN of `f64`: arithmetic is over `real`, where the checks for finite values always pass.
- The current path of `BatchEtaState` and the text of the ETA: they are shown and never read back.
- Removing an empty backup directory after its last backup: directories are not part of the recovery model.
- `all_phase_names`, `summary` and `is_single_policy` of the policy resolver: simple reads.
- CrashSafety.LayoutUnentangled: gives a sufficient condition on the listings; the exact condition on the selection is that of CrashSafeIff.
- AmbiguousRuns.RestoredInTheEndIff: assumes that no pending path lies in a backup directory and, for an ambiguous path, that it has one pending operation; with several, the outcome also depends on which deletes fail and on whether backups have equal bytes.
- ScanStore.Store.ReconcileDiscoveredFiles: is about a store with no other user; ScanInterleaving says what other processes can change for a session.
- Copying a file onto itself: the model's copy keeps the bytes; by NeverOwnBackup no listing selects a file as its own backup.
- Writes of an executor without a storage handle: they are not recorded, and the runs of `ScanRuns` have no step for them.
- PhaseScheduling.IterationOrderIrrelevant: the insertion index is an arbitrary in-bounds function, so which of several valid orders comes out is not stated.
- ScanStore.TryPromoteOne: which of several matching rows is promoted is left open; the SQL query takes whichever comes first.
