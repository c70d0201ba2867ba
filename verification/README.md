# Verified models of LocalStack's core

This project models parts of LocalStack in Dafny and proves what they are relied on for.

- **Snapshot persistence** (`SnapshotFormat`, `SnapshotDisk`, `SnapshotLoad`, `SnapshotCommit`, `SnapshotLocks`,
  `SnapshotRestore`): saving is a commit protocol over several files. The disk is modelled with what a crash may lose: each
  directory entry may come back as it was at any moment since the last successful directory sync, and data that was not
  synced is arbitrary. What becomes of each system call is an input: it works, or fails, before or after taking effect.
  `SnapshotDirectory.Run` proves crash consistency over whole runs, `Restart` joins it to the load that follows, and
  `SnapshotLoad` says from the contents of a disk what a load accepts. The locks are a state machine of the snapshot and any
  other threads.
- **Stores** (`BundleImages`, `Stores`): account and region bundles with their shared dictionaries, numbered by identity so
  that sharing is explicit.
- **Type generator** (`Scaffold`), **service loading** (`PluginLoading`, `ServiceLifecycle`), **dispatch tracing**
  (`DispatchTrace`), **evidence import** (`BoundedSets`, `Evidence`, `LimitedReader`), and three kernels: `HostAndPort`,
  `LoggerName`, `AccountId`. `Options`, `Orders` and `Numerals` hold what several of them need.

Libraries the code calls (serialization, hashing, sealing, the JSON text of a manifest, character classes, IPv6 recognition)
are parameters; `SnapshotFormat.Lawful` and `HostAndPort.Standard` say what is asked of them.

## What turned out not to hold

- `_validate_bundle_topology` does not ask that accounts have distinct `_global` dictionaries. `Stores.IsolationIffSeparate`
  gives the exact condition, `Stores.TopologyCheckAdmitsLeak` a graph that passes. Bundles that grew by the code's own
  operations always meet it.
- A manifest of more than 64 KiB can be saved and then not be loaded: exactly these are refused
  (`SnapshotRestore.CommittedLoadsIffManifestFits`), and every set of 631 services makes one
  (`SnapshotRestore.ManyServicesAreOversized`, `SnapshotRestore.SaveThenRestart`).
- A Moto error under an open Moto entry may be missing from the trace's class (`DispatchTrace.DeduplicationHidesErrors`,
  exact condition in `DispatchTrace.ErrorObservedIsExact`).
- Not every address can be printed and parsed back (`HostAndPort.RoundTripIffPrintable`).
- Compressing a logger name raises an IndexError exactly if a part to be shortened is empty (`LoggerName.Compress`, and
  `LoggerName.DotsRaiseIndexError` for a name where it does).
- The docstring of `AccountRegionBundle.reset` says that stores are retained; the code drops them, and the model follows it.

## Model

| member | source | states |
|---|---|---|
| `SnapshotFormat.MagicsDisjoint` | localstack-core/localstack/state/service_persistence.py:31-45 | no plain snapshot starts with the encrypted magic and no encrypted one with the plain magic, so the first bytes decide the format |
| `SnapshotFormat.SnapshotRoundTrip` | localstack-core/localstack/state/service_persistence.py:210-226 | an encoded snapshot is never empty and never over the loader's size limit; a plain one always opens to its payload, an encrypted one if and only if the payload is not empty; the format is decided by the service |
| `SnapshotFormat.DecodeUndoesEncode` | localstack-core/localstack/state/service_persistence.py:266-309 | whatever is encoded from a bundle that meets the topology demands is decoded to that bundle, checks included |
| `SnapshotFormat.EncodesIff` | localstack-core/localstack/state/service_persistence.py:210-226 | a bundle is encoded if and only if it can be pickled, the pickle is at most 128 MiB and, for Cognito IDP, there is a key of 32 bytes; the result is a snapshot of the pickle |
| `SnapshotFormat.OpensIffSnapshot` | localstack-core/localstack/state/service_persistence.py:266-294 | data is opened to a payload if and only if it is the header, digest, newline and payload, or for Cognito IDP the other header, a nonce and a text that the key opens to it |
| `SnapshotDisk.FilenamesInjective` | localstack-core/localstack/state/service_persistence.py:206-207 | two different pairs of service and generation never share a file name |
| `SnapshotDisk.FilenameIsNotManifest` | localstack-core/localstack/state/service_persistence.py:206-207 | no snapshot file name is the manifest's |
| `SnapshotDisk.RelinkKeepsConsistency` | localstack-core/localstack/state/service_persistence.py:506-542 | any change of a directory entry that neither the committed nor the pending generation needs keeps the directory recoverable |
| `SnapshotDisk.ManifestRenameKeepsConsistency` | localstack-core/localstack/state/service_persistence.py:145-154 | the rename of a complete, synced manifest keeps the directory recoverable: a crash then shows the old or the new generation |
| `SnapshotDisk.DirectorySyncKeepsConsistency` | localstack-core/localstack/state/service_persistence.py:506-542 | a directory sync leaves exactly one of the two generations, and keeps the directory recoverable |
| `SnapshotDisk.CrashKeepsConsistency` | localstack-core/localstack/state/service_persistence.py:506-542 | after any crash (each entry comes back from some moment since the last directory sync, unsynced data is arbitrary) the directory shows the committed or the pending generation whole, and is consistent again |
| `SnapshotDisk.LoadReadsSurvivor` | localstack-core/localstack/state/service_persistence.py:160-194 | loading a directory that shows one generation gives that generation's bundles and nothing else; an oversized manifest is refused |
| `SnapshotDisk.LoadAfterCrash` | localstack-core/localstack/state/service_persistence.py:160-194 | from every consistent moment, a crash followed by a load gives the committed or the pending generation, never a mixture |
| `SnapshotLoad.AcceptedIffFits` | localstack-core/localstack/state/service_persistence.py:402-431 | identity and topology check together accept exactly the bundles whose every field and reference is as demanded, written out account by account and store by store |
| `SnapshotLoad.LoadIff` | localstack-core/localstack/state/service_persistence.py:160-194 | for every disk: a load gives these bundles if and only if the manifest's bytes are there, within 64 KiB, parse, and name format, services and generation rightly, and for every service the named file has the stated length and digest and is a snapshot of the bundle, which fits |
| `SnapshotLoad.NothingLoadsIff` | localstack-core/localstack/state/service_persistence.py:168-172 | a load finds nothing if and only if the directory is empty |
| `SnapshotLoad.LoadIsNoMixture` | localstack-core/localstack/state/service_persistence.py:183-186 | whatever happened to the disk, if a load succeeds under a generation's manifest and the digest tells the files apart, every file and every bundle is that generation's |
| `SnapshotLoad.ChangedByteIsRefused` | localstack-core/localstack/state/service_persistence.py:183-186 | one changed byte in one file of a generation, and nothing is loaded |
| `SnapshotCommit.EncodeOne` | localstack-core/localstack/state/service_persistence.py:210-226 | an encoding that is accepted decodes to the bundle it was made from |
| `SnapshotCommit.EncodeAll` | localstack-core/localstack/state/service_persistence.py:123-130 | all services are encoded before anything is written; the result is a generation of exactly the given bundles |
| `SnapshotCommit.SnapshotDirectory.AtomicWrite` | localstack-core/localstack/state/service_persistence.py:506-542 | on success the name holds exactly the data, synced; only that entry and temporary ones change; every moment on the way, of a failure too, is recoverable and belongs to the committed or the pending generation there was before; if no call fails and the random name is new, it succeeds |
| `SnapshotCommit.SnapshotDirectory.GarbageCollect` | localstack-core/localstack/state/service_persistence.py:545-552 | removes old snapshot files and temporary files only, none of the committed generation, which stays the committed one at every moment on the way; if no call fails, it succeeds |
| `SnapshotCommit.SnapshotDirectory.WriteFiles` | localstack-core/localstack/state/service_persistence.py:134-144 | writes every file of the new generation without touching a file of the committed one; at every moment on the way a crash brings back the committed or the pending generation there was before; if no call fails, it succeeds |
| `SnapshotCommit.SnapshotDirectory.CommitManifest` | localstack-core/localstack/state/service_persistence.py:145-154 | on success the new generation is the committed one and nothing is pending; at every moment on the way it is the one committed before or the new one; if no call fails, it succeeds |
| `SnapshotCommit.SnapshotDirectory.SaveGeneration` | localstack-core/localstack/state/service_persistence.py:134-157 | success means that the new generation is committed for good and that only its files are left; at every moment on the way the generations are those there were before or the new one, and the committed one only ever changes to the pending one; if no call fails, it succeeds |
| `SnapshotCommit.SnapshotDirectory.Save` | localstack-core/localstack/state/service_persistence.py:88-157 | if every bundle encodes and no call fails, it succeeds; success means that no crash can bring back another generation than the saved one, that a load gives the saved bundles (or refuses the size of the manifest), and that no other snapshot or temporary file is left; a failure before writing changes nothing; at every moment inside the save, whether it fails or not, the generations are those there were before or the one made of the given bundles |
| `SnapshotCommit.SnapshotDirectory.Crash` | localstack-core/localstack/state/service_persistence.py:160-194 | a crash at any moment is survived: what is loaded next is the committed or the pending generation |
| `SnapshotCommit.SnapshotDirectory.Run` | localstack-core/localstack/state/service_persistence.py:88-194 | over every sequence of saves, which may fail at every call, and crashes, with the saves' answers kept: from every moment, inside a save too, every crash is followed by a load of its committed or pending generation; these were there at the start or given to a save already begun; after a save that answered success they are its own or later ones at every moment |
| `SnapshotCommit.LogAllKnown` | localstack-core/localstack/state/service_persistence.py:88-157 | from the log of a run: no moment knows a generation that no save begun so far was given |
| `SnapshotCommit.LogNoneBefore` | localstack-core/localstack/state/service_persistence.py:88-157 | from the log of a run: a save that answered success is never undone, whatever fails or crashes later |
| `SnapshotCommit.ConsistentIsRecoverable` | localstack-core/localstack/state/service_persistence.py:88-194 | the invariant kept by every step implies that every possible crash is followed by a load of one whole generation |
| `SnapshotLocks.ValidateStoreSet` | localstack-core/localstack/state/service_persistence.py:197-203 | an empty set or a name outside lower-case letters, digits and hyphens is refused; otherwise each name occurs once, Cognito IDP before Identity before Sync before API Gateway v2 before all others, and these by name |
| `SnapshotLocks.PrecedesIsLockLess` | localstack-core/localstack/state/service_persistence.py:47-55 | the order by priority and name is the documented order, said in service names |
| `SnapshotLocks.StoreOrderIsUnique` | localstack-core/localstack/state/service_persistence.py:197-203 | that order is the only one, so two snapshots take the locks in the same order |
| `SnapshotLocks.RunKeepsInv` | localstack-core/localstack/state/service_persistence.py:47-55 | in every run with arbitrary threads that take locks in the order: a lock has one owner, every wait goes upwards in the order, the snapshot holds a prefix of the services |
| `SnapshotLocks.ChainFrom` | localstack-core/localstack/state/service_persistence.py:106-111 | behind every blocked thread stands a chain of owners that ends in a thread with an enabled step that goes on with its work |
| `SnapshotLocks.NeverDeadlocked` | localstack-core/localstack/state/service_persistence.py:106-111 | no reachable state is a deadlock: whoever is blocked waits for a thread that has such a step |
| `SnapshotLocks.NestsInOrder` | localstack-core/localstack/state/service_persistence.py:47-55 | the documented nesting of requests, Identity under IDP and Sync under Identity, follows the lock order |
| `SnapshotLocks.NestedNeverDeadlocked` | localstack-core/localstack/state/service_persistence.py:47-55 | requests that nest so and a snapshot in the documented order never deadlock: whoever is blocked waits for a thread with an enabled step |
| `SnapshotLocks.SnapshotReleasesAll` | localstack-core/localstack/state/service_persistence.py:106-133 | when the snapshot has nothing left to release, failed or not, it owns no lock |
| `SnapshotLocks.SnapshotIsConsistentCut` | localstack-core/localstack/state/service_persistence.py:106-133 | the encoded states of all services are the ones the stores had at one single instant of the run |
| `Stores.WriteKeepsShape` | localstack-core/localstack/services/stores.py:65-149 | a write in any scope keeps one lock and one `_universal` per bundle and one `_global` per account, and all stores |
| `Stores.LocalWriteReads` | localstack-core/localstack/services/stores.py:65-76 | what every address reads after a local write |
| `Stores.SharedWriteReads` | localstack-core/localstack/services/stores.py:94-149 | what every address reads after a cross-region or cross-account write: it depends on the dictionary only |
| `Stores.WriteIsIsolated` | localstack-core/localstack/services/stores.py:65-149 | a local write is seen in its account and region only, a cross-region write in all and only that account's regions, a cross-account write everywhere |
| `Stores.IsolationIffSeparate` | localstack-core/localstack/state/service_persistence.py:402-431 | for graphs that pass the topology check, writes are isolated if and only if no two accounts in use share a `_global` and none shares it with `_universal` |
| `Stores.SharedDictionaryLeaks` | localstack-core/localstack/state/service_persistence.py:402-431 | for any two scopes on one dictionary there is a write that shows where it must not |
| `Stores.TopologyCheckAdmitsLeak` | localstack-core/localstack/state/service_persistence.py:402-431 | a concrete graph that the topology check accepts although two accounts share a `_global` |
| `Stores.SameContentsReadTheSame` | localstack-core/localstack/state/service_persistence.py:434-444 | graphs with equal contents give the same reads at every address and in every scope |
| `Stores.AccountRegionBundle.GetAccount` | localstack-core/localstack/services/stores.py:305-320 | an id without twelve leading digits is refused under validation, and then nothing changes; else the account is there, new ones with an empty `_global`, every store is still there and reads the same in all scopes, and none is added |
| `Stores.AccountRegionBundle.GetStore` | localstack-core/localstack/services/stores.py:225-247 | an unknown region is refused under validation, and then nothing changes; else exactly this store is there besides the ones before, which read the same in all scopes; a new store has no attributes of its own and reads its account's `_global` and the bundle's `_universal` |
| `Stores.AccountRegionBundle.SetAttribute` | localstack-core/localstack/services/stores.py:75-149 | the write is seen exactly where its scope says, at every address of the bundle |
| `Stores.AccountRegionBundle.GetAttribute` | localstack-core/localstack/services/stores.py:65-145 | the first read stores the default where a write would put it; later reads change nothing |
| `Stores.AccountRegionBundle.ResetRegion` | localstack-core/localstack/services/stores.py:249-281 | empties one account: its stores and its `_global`; all other accounts keep their contents; `_universal` is emptied if and only if that was asked and the account has a store |
| `Stores.AccountRegionBundle.Reset` | localstack-core/localstack/services/stores.py:322-335 | nothing is left, and the bundle keeps its identity, lock and `_universal` object (the docstring's promise to retain the stores is not what the code does) |
| `Stores.AccountRegionBundle.Restore` | localstack-core/localstack/state/service_persistence.py:434-444 | the bundle holds what the snapshot holds, in the topology the check demands, with accounts as separate as they were in the snapshot |
| `SnapshotRestore.FailureStands` | localstack-core/localstack/state/service_persistence.py:160-194 | a service that cannot be decoded decides the outcome of the whole load |
| `SnapshotRestore.DecodeAll` | localstack-core/localstack/state/service_persistence.py:175-190 | decodes all services before any bundle is touched, stopping at the first that fails |
| `SnapshotRestore.RestoreAll` | localstack-core/localstack/state/service_persistence.py:191-192 | every registered bundle holds its own snapshot afterwards |
| `SnapshotRestore.LoadServiceSnapshots` | localstack-core/localstack/state/service_persistence.py:160-194 | from the contents of the disk: it succeeds if and only if they are those of a generation or the directory is empty; then every bundle holds what the disk says, and otherwise none has changed |
| `SnapshotRestore.LoadAndRestore` | localstack-core/localstack/state/service_persistence.py:160-194 | all or nothing: if any check fails, no bundle has changed and the reason is reported; if all pass, every bundle holds what its snapshot holds |
| `SnapshotRestore.Restart` | localstack-core/localstack/state/service_persistence.py:88-194 | from end to end: a crash at any moment of any save, then a load, leaves all bundles together with the contents of one generation |
| `SnapshotRestore.CommittedLoadsIffManifestFits` | localstack-core/localstack/state/service_persistence.py:475-503 | a committed generation can be loaded if and only if its manifest is within 64 KiB, a limit that saving does not check; with 631 services it never is |
| `SnapshotRestore.ManyServicesAreOversized` | localstack-core/localstack/state/service_persistence.py:134-154 | every generation of 631 or more services has a manifest over the limit, since each file adds a name of at least 40 characters and a digest of 64 |
| `SnapshotRestore.SaveThenRestart` | localstack-core/localstack/state/service_persistence.py:88-194 | after a save that answered success, a crash and a restart give back exactly the saved bundles, or refuse the manifest if it is too large, as with 631 services it is |
| `SnapshotRestore.ManyServicesExist` | localstack-core/localstack/state/service_persistence.py:197-203 | there are such service sets with names of three characters |
| `Scaffold.GenerateDeclarations` | localstack-core/localstack/aws/scaffold.py:350-375 | the worklist ends for every finite graph, with a KeyError if and only if a dependency is no node; each shape is printed once, unquoted ones after all they mention, quoted ones only on a cycle |
| `Scaffold.EveryCycleIsQuoted` | localstack-core/localstack/aws/scaffold.py:360-375 | every dependency cycle has a quoted member in the output |
| `Scaffold.AcyclicMeansUnquoted` | localstack-core/localstack/aws/scaffold.py:360-375 | without cycles no declaration is quoted, and the output is a topological order |
| `Scaffold.FrameReaches` | localstack-core/localstack/aws/scaffold.py:350-375 | a name revisited while it waits for its dependencies reaches the names above it on the stack |
| `PluginLoading.RunKeepsInv` | localstack-core/localstack/services/plugins.py:541-566 | the invariant of double-checked loading holds in every state of every interleaving of requests |
| `PluginLoading.LoadedOnce` | localstack-core/localstack/services/plugins.py:541-566 | in every interleaving a service is installed at most once and all requests that get a container get that one |
| `PluginLoading.AnswerIsExplained` | localstack-core/localstack/services/plugins.py:541-566 | in every run: no container if and only if the name is unknown or the request's own load said so, an exception if and only if its own load failed, and otherwise the one installed container |
| `PluginLoading.InstalledIsAnswered` | localstack-core/localstack/services/plugins.py:549-552 | once a service is installed, every request for it that ends without a load of its own gets that container |
| `PluginLoading.LockDeletionFindsKey` | localstack-core/localstack/services/plugins.py:541-566 | deleting the load lock always finds its key, and the read after an installation finds the service |
| `PluginLoading.InstallerDropsLock` | localstack-core/localstack/services/plugins.py:564-564 | the load lock leaves the table after the installation, and no other does |
| `PluginLoading.LoadersExclude` | localstack-core/localstack/services/plugins.py:541-566 | at most one request at a time loads a service, although lock objects are deleted and made anew |
| `PluginLoading.WaitedForLockIsBeingUsed` | localstack-core/localstack/services/plugins.py:541-566 | the owner of a lock somebody waits for is a request that can move |
| `ServiceLifecycle.ServiceContainer.Start` | localstack-core/localstack/services/plugins.py:205-214 | starts only from available or stopped; ends running, or with the exception of the failing hook as one more recorded error, or interrupted while starting |
| `ServiceLifecycle.ServiceContainer.RequireLocked` | localstack-core/localstack/services/plugins.py:299-318 | under the lock: a service is returned if and only if it is running afterwards, an error is raised if and only if the state is error, and a disabled service is left alone |
| `ServiceLifecycle.ServiceContainer.RequireService` | localstack-core/localstack/services/plugins.py:280-318 | waits for a start or a stop end with the state that other threads brought about, or time out; a service is returned only when it is running, the last recorded error is there to be raised, and a start happens only from available or stopped |
| `ServiceLifecycle.ServiceContainer.Perform` | localstack-core/localstack/services/plugins.py:265-318 | every manager call makes an allowed transition and keeps an error recorded for the error state |
| `ServiceLifecycle.ServiceContainer.Run` | localstack-core/localstack/services/plugins.py:265-318 | every sequence of manager calls is a run of the transition relation that keeps all recorded errors |
| `ServiceLifecycle.DisabledForever` | localstack-core/localstack/services/plugins.py:250-254 | a disabled service stays disabled in every run, and no other becomes disabled |
| `ServiceLifecycle.StoppingForever` | localstack-core/localstack/services/plugins.py:227-234 | a service whose stop was interrupted stays in that state in every run |
| `ServiceLifecycle.RunningWasChecked` | localstack-core/localstack/services/plugins.py:216-225 | a running service got there by a check that succeeded, and has been running since |
| `DispatchTrace.TracedIsSound` | localstack-core/localstack/aws/dispatch_trace.py:40-67 | for every call tree, ending in a value or any exception: tracing changes no outcome, earlier entries stay as they are, no entry is left started |
| `DispatchTrace.EntryIsSound` | localstack-core/localstack/aws/dispatch_trace.py:40-67 | a saved index still names its own entry when the call finishes |
| `DispatchTrace.EntryNamesOutcome` | localstack-core/localstack/aws/skeleton.py:144-160 | a handler's entry holds its origin, its name and the name of how it ended |
| `DispatchTrace.FallbackRunsIff` | localstack-core/localstack/aws/forwarder.py:143-155 | the fallback runs if and only if the handler is not implemented and does not forbid it; any other result and its trace stand |
| `DispatchTrace.InvokeResponds` | localstack-core/localstack/aws/skeleton.py:175-204 | every request is answered with a response, a missing operation too, unless an unexpected exception leaves |
| `DispatchTrace.TracedIsFaithful` | localstack-core/localstack/services/moto.py:47-76 | entries are steps that ran, and a step without an entry is a Moto step under a Moto entry |
| `DispatchTrace.TraceIsLog` | localstack-core/localstack/aws/dispatch_trace.py:51-60 | the trace, entry by entry with origin, handler and outcome, from the call tree alone: exactly which Moto steps are deduplicated |
| `DispatchTrace.StepsSplit` | localstack-core/localstack/aws/dispatch_trace.py:51-60 | every step that ran left an entry or is a Moto step hidden under an open Moto entry, and the two together are as many as the steps |
| `DispatchTrace.ClassifiedNative` | localstack-core/localstack/capabilities/evidence.py:134-154 | a trace is native-observed if and only if it is not empty and every entry is native and returned or raised a service exception |
| `DispatchTrace.ClassesAre` | localstack-core/localstack/capabilities/evidence.py:134-154 | when each of the other classes is given, entry by entry, and which one wins |
| `DispatchTrace.NativeObservedIsExact` | localstack-core/localstack/capabilities/evidence.py:134-154 | a call tree is native-observed if and only if something ran and every step of the whole tree, recorded or not, was native and returned or raised a service exception |
| `DispatchTrace.ErrorObservedIsExact` | localstack-core/localstack/capabilities/evidence.py:134-154 | that error-observed means that some step erred holds for a call tree if and only if no hidden step erred or another step erred too |
| `DispatchTrace.ErrorObservedBounds` | localstack-core/localstack/capabilities/evidence.py:134-154 | behind error-observed there is an error step, and an error of any but a Moto step shows |
| `DispatchTrace.DeduplicationHidesErrors` | localstack-core/localstack/services/moto.py:58-63 | a fallback named moto whose handler calls Moto and catches the error: a step erred, and the class is fallback-observed |
| `DispatchTrace.EnableDispatchTrace` | localstack-core/localstack/aws/dispatch_trace.py:23-30 | an existing trace is kept, else an empty one is attached |
| `DispatchTrace.ShareDispatchTrace` | localstack-core/localstack/aws/dispatch_trace.py:33-37 | both contexts then append to the same list |
| `DispatchTrace.StartDispatch` | localstack-core/localstack/aws/dispatch_trace.py:40-60 | appends a started entry and returns its index, or nothing if there is no trace or the same open origin is last |
| `DispatchTrace.FinishDispatch` | localstack-core/localstack/aws/dispatch_trace.py:63-67 | only the outcome of the entry with that index changes |
| `DispatchTrace.Execute` | localstack-core/localstack/aws/skeleton.py:129-204 | dispatcher, fallthrough wrapper, Moto calls and skeleton on one shared list compute exactly the traced run, and the plain run without a trace |
| `DispatchTrace.ExecuteMoto` | localstack-core/localstack/services/moto.py:47-104 | a Moto call leaves one entry, or none under an open Moto entry |
| `DispatchTrace.ExecuteInEntry` | localstack-core/localstack/aws/forwarder.py:143-175 | the entry is finished on every way out with the name of the outcome |
| `BoundedSets.SmallestUnique` | localstack-core/localstack/capabilities/evidence.py:128-131 | there is only one set of the k smallest values |
| `BoundedSets.AddBounded` | localstack-core/localstack/capabilities/evidence.py:128-131 | if the set kept the smallest values seen, it keeps the smallest ones with the new value too |
| `Orders.StringLessIff` | localstack-core/localstack/capabilities/evidence.py:128-131 | strings are compared at the first place where they differ, so smallest means what Python's `max` leaves |
| `Evidence.OperationState.Observe` | localstack-core/localstack/capabilities/evidence.py:523-546 | one row's effect on its operation: counters, marks, largest depth, bounded tokens and samples |
| `Evidence.RowSummarized` | localstack-core/localstack/capabilities/evidence.py:519-546 | after one more row of an operation its state summarizes all rows of it |
| `Evidence.OtherRowSummarized` | localstack-core/localstack/capabilities/evidence.py:519-546 | a row of another operation changes nothing |
| `Evidence.Operations.Take` | localstack-core/localstack/capabilities/evidence.py:520-546 | exactly one operation takes in the row, and is created if it was not seen before |
| `Evidence.ImportRows` | localstack-core/localstack/capabilities/evidence.py:483-547 | refused at the first invalid record if and only if there is one and none is allowed; else one operation per key that occurs, each with the summary of its rows |
| `Evidence.PayloadIgnoresOrderAndRepetition` | capabilities/README.md:111-113 | rows in another order or repeated give the same semantic payload |
| `Evidence.ImportIgnoresOrderAndRepetition` | capabilities/README.md:111-113 | the same for whole imports, with invalid records among the valid ones |
| `LimitedReader.Reader.NextLine` | localstack-core/localstack/capabilities/evidence.py:440-467 | yields a whole line, fails if and only if the next line exceeds the smallest remaining limit or is not UTF-8, reads at most one byte too many, and names the limit that gave out first |
| `LimitedReader.LineEndsAtNewline` | localstack-core/localstack/capabilities/evidence.py:451-451 | a line goes up to and including the first newline, or to the end of the file |
| `LimitedReader.Reader.ReadRecord` | localstack-core/localstack/capabilities/evidence.py:484-488 | yields the next record if and only if all of it fits and is UTF-8 |
| `LimitedReader.Reader.ReadFile` | localstack-core/localstack/capabilities/evidence.py:433-488 | a file is read if and only if it is not empty, is within the file and the total limit, its header and each record are within theirs and all lines are UTF-8; then the digest covers exactly the file |
| `LimitedReader.RecordsAreTheFile` | localstack-core/localstack/capabilities/evidence.py:440-467 | the records concatenated are the file: nothing lost, nothing twice |
| `HostAndPort.ParseInput` | localstack-core/localstack/config.py:553-611 | an input of one of three forms (in brackets with an optional port and final newline, with a colon, without one) gives the address that form means, with its defaults, stripping and port check, and every input of no form raises the error |
| `HostAndPort.FormIsRead` | localstack-core/localstack/config.py:553-611 | writing down any proper form and parsing it gives its meaning, so no input can be read in two ways |
| `HostAndPort.IntegerOfSigned` | localstack-core/localstack/config.py:605-611 | every printed integer is read back by `int` |
| `HostAndPort.IntegerOfPlus` | localstack-core/localstack/config.py:605-611 | a plus sign does not change the number |
| `HostAndPort.UnderscoreIsSkipped` | localstack-core/localstack/config.py:605-611 | one underscore between digits is skipped, and one at an end is an error |
| `HostAndPort.StripCuts` | localstack-core/localstack/config.py:588-596 | stripping cuts whitespace from both ends, all of it and nothing else |
| `HostAndPort.PrintableIsReadBack` | localstack-core/localstack/config.py:624-626 | printable addresses are parsed back whatever the defaults are |
| `HostAndPort.RoundTripIffPrintable` | localstack-core/localstack/config.py:553-626 | parsing undoes printing for all defaults if and only if the address is printable: port in range; an IPv6 host without closing bracket; any other host not empty, trimmed, without colon and not starting with a bracket |
| `HostAndPort.ZoneWithBracketIsLost` | localstack-core/localstack/config.py:624-626 | a concrete IPv6 address with a zone that is printed but not parsed |
| `LoggerName.Compress` | localstack-core/localstack/logging/format.py:96-141 | a name within the limit is returned as it is; of a longer one the loop always reaches its break, an IndexError comes if and only if a part to be shortened is empty, and the result has the same number of parts, each kept or a non-empty prefix, and is no longer than the limit or 2n-1 |
| `LoggerName.OneOutcome` | localstack-core/localstack/logging/format.py:105-141 | only one outcome meets that description, so it determines the result |
| `LoggerName.DotsRaiseIndexError` | localstack-core/localstack/logging/format.py:121-125 | the name of two dots with limit one raises an IndexError |
| `LoggerName.CompressedLength` | localstack-core/localstack/logging/format.py:105-141 | the exact length of the result |
| `LoggerName.LongestSuffix` | localstack-core/localstack/logging/format.py:119-139 | without empty parts, the parts kept in full are the longest suffix that fits |
| `LoggerName.SplitOfJoin` | localstack-core/localstack/logging/format.py:141-141 | joining the parts and splitting again gives the parts |
| `LoggerName.ExpandedAll` | localstack-core/localstack/logging/format.py:114-118 | with all parts expanded the running length is the name's, so the loop always breaks for a name that is too long |
| `AccountId.IndexInAlphabet` | localstack-core/localstack/aws/accounts.py:17-18 | the arithmetic index is the place in the alphabet constant, and other characters are not in it |
| `AccountId.DecodeValue` | localstack-core/localstack/aws/accounts.py:31-40 | eight characters of the alphabet decode to their value, and nothing else decodes to a number as large as the offset |
| `AccountId.CarriedIsExtracted` | localstack-core/localstack/aws/accounts.py:21-57 | for every account number and every key that carries it, the twelve digits of that account are extracted |
| `AccountId.ExtractedIsCarried` | localstack-core/localstack/aws/accounts.py:21-57 | any result but the default comes from a key that carries that account |
| `AccountId.SameAccountSameField` | localstack-core/localstack/aws/accounts.py:21-57 | keys that give the same account, other than the default, agree in field and parity |
| `AccountId.TwelveInjective` | localstack-core/localstack/aws/accounts.py:57-57 | distinct accounts have distinct digits |
| `AccountId.ExtractTotal` | localstack-core/localstack/aws/accounts.py:21-57 | the result is always twelve digits, except for the two exceptions that leave the function, with the exact condition for each |
| `AccountId.DocumentedKeys` | localstack-core/localstack/aws/accounts.py:21-29 | the documentation's two example keys give accounts 0 and 123456789012 |

## Left out

- Stale references: stores are addressed by account and region; a store object kept by a caller across a reset is not modelled.
- Stores.AccountRegionBundle.GetAccount: the digits of an account id are ASCII digits, where the pattern takes any decimal ones.
- Attribute values are numbers; default factories, and the checks that a store belongs to a region or account, are not modelled.
- The iteration order of the dictionaries is arbitrary in the model, where Python's is the order of insertion.
- Quiescing of Cognito pools, the Cognito key file, and ownership, mode and link checks of files and directories.
- The entry of the snapshot directory in its parent: `_open_snapshot_directory` makes it without syncing the parent, so a
  crash after the first save may bring back no directory at all; the model starts with a directory that is durable.
- A successful directory sync makes all earlier entry changes durable; other disk failures (bad sectors, a lying device) are not
  modelled. Generation ids are new, as random ones are.
- `isinstance` checks of decoded snapshots and manifests are carried by types; what a malformed text is refused for comes from
  the parser that is a parameter.
- SnapshotCommit.SnapshotDirectory.Run: two savers writing to one directory at the same time are not modelled; saves follow one
  another.
- Timeouts and the memory model of threads: lock steps are atomic.
- Plugin loading that re-enters the manager for the same service, and a plugin whose service has another name than requested.
- ServiceLifecycle.ServiceContainer.Perform: in sequences of manager calls each call is atomic, so a service that is starting
  or stopping stays so while it is polled; `RequireService` itself is proved for whatever other threads make of it.
- ServiceLifecycle.ServiceContainer.RequireService: what other threads do between a wait and taking the lock is part of the
  state the wait ends with; without a wait they do nothing before the lock is taken.
- The text a shape prints, and the sort that orders the start of the worklist: any order of the nodes is proved right.
- Evidence: parsing of CSV and JSON, the catalog and header checks, input discovery, duplicate file digests, invalid samples,
  row counts, the canonical JSON and the digest over it; the digest and the classifier of a trace are parameters of the fold.
- LimitedReader: which lines form a CSV record is a parameter; errors of the CSV parser are not modelled.
- HostAndPort: an integer text of more than 4300 digits, which Python refuses; addresses without a port; `UniqueHostAndPortList`.
- AccountId: `get_account_id_from_access_key_id` and the configuration it reads.
- Everything else in the repository: service providers, the gateway, protocol parsers and serializers, the command line.
