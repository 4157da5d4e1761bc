# Agent Knowledge: verified protocol models

Agent Knowledge is a privilege-separated service: Queue Ingress accepts requests over a Unix
socket, the Repository Worker changes Git history, content, search indexes and releases, and the
Gateway reads and forwards. This project models the parts whose correctness depends on many steps
at once and proves what those steps keep. `dafny verify dfyconfig.toml` checks everything.

Where the program changes things step by step, the model is a class with methods and loops; each
method is proved equal to a specification function, and the results below are about those
functions. Crashes are part of the models: a run may end after any single durable effect.

| part | modules |
|---|---|
| Socket publication: write-ahead record, crash recovery | SocketStates, SocketPublication, SocketSafety, SocketRecovery, SocketService, SocketListener |
| Socket record text and hex names | SocketRecord, SocketTexts, Text |
| Accept loop, completions, deadlines | ConnectionSupervisor, ConnectionDeadlines, ConnectionLoop |
| Tree walks: preflight, migrate, validate, fingerprint, hard links | ObjectTree, TreeFingerprint, TreePolicy, HardLinks, TreeVisits, TreeWalk, TreeAdministration, TreeObjects, TreeCrashes |
| Storage bootstrap over runs with crashes | StorageBootstrap, BootstrapSafety, BootstrapAccess, BootstrapRun |
| Service identities and the access matrix | RuntimeIdentity, ServiceIdentities |
| Release-check cache | ReleaseCache, ReleaseCheck |
| Keys: base64, Ed25519 blobs, `authorized_keys`, login shell | Base64, PublicKey, AuthorizedKeys, KeysRoundTrip, KeysImport |
| Streaming archive comparison and export check | CanonicalArchive |
| Front matter scanners and document assembly | FrontMatter |

## What was found

- Provisioning takes a search index root for finished from its change of owner on, one write before
  its mode is set. A crash exactly there makes the next run skip initialisation; the permission
  check that follows then refuses the root. `TreeCrashes.IndexJudgement` gives the exact window,
  `TreeCrashes.IndexJudgedTooEarly` an instance, `BootstrapSafety.StoppedProvisioning` the
  consequence for reruns.
- The three role validators together do not keep the ingress-client group apart from the Worker's
  group. If they coincide, the Gateway can read the Worker's private work and release directories,
  and exactly then: `RuntimeIdentity.AccessMatrix`, `RuntimeIdentity.IngressGroupMayBeTheWorkers`.
  Bootstrap does check this: `ServiceIdentities.BootstrapMeansRuntime` is an equivalence with that one
  separation added.
- A rerun of bootstrap replaces a queue binding of the older format after it has validated the
  queue. Cut off between creating the replacement and giving it the old file's permissions, it
  leaves a file in the queue that fails every later validation, so no later run completes; a step
  that fails instead is undone. `BootstrapSafety.StoppedMarkedRun` gives the exact steps,
  `BootstrapSafety.FailedMarkedRun` the contrast, `BootstrapSafety.UpgradeInstance` an instance.
- The scan that resolves a record of the older form counts the record's own draft file. In a
  directory without room for it within the 1024 entries, a bind that is killed at its draft leaves a
  directory on which every later bind under the same name is refused, and exactly without that room:
  `SocketRecovery.RecoveryUnderOneName`, `SocketRecovery.RoomIsNeeded`,
  `SocketRecovery.FullDirectoryInstance`.
- A first bootstrap with a search index that stops once the index root is made cannot be rerun
  without the index: the root counts as an unexpected entry of the storage root. Switching the index
  on instead is harmless. `BootstrapSafety.StoppedThenSwitchedOff`,
  `BootstrapSafety.StoppedThenSwitchedOn`.
- A bind that fails leaves no socket behind, except after it bound a socket or renamed one and before
  it captured that socket's identity: `SocketService.FailureLeavesNothing`. The record accounts for
  both, so the next bind clears them.
- A created document reads back exactly if no line of its YAML is the delimiter:
  `FrontMatter.CreatedReadsBack`.

## Hypotheses

- Socket publication: outside actors change the runtime directory only while no listener holds the
  lock; they do not forge or move listener sockets, occupy a recorded temporary name or reuse a
  recorded identity. Temporary names and the identities of new sockets are fresh. A listing under the
  lock is exact. The sockets of a dead process refuse connections.
- Tree walks: the tree does not change during a walk and there are no I/O errors. SHA-256 is injective
  on the recorded stream, so the stream stands for the digest. A run's log records a change of
  ownership even where it would change nothing and the call is skipped.
- Bootstrap: initialising a component is a begin and an end, with contents in between. Git, ancestry,
  mount and access-list checks refuse without changing anything and are not modelled. A new binding
  file has neither the owner nor the mode of the queue's files; the queue's locks are free, and its
  binding, of either format, describes the queue.
- Release cache: the version grammar is any predicate; processes end by leaving, failing or crashing,
  and the lock ends with them. The file starts missing, unreadable or as an earlier process left it.
  A saved cache is the JSON object of its fields without white space.
- Text is a sequence of byte values; white space is ASCII white space.

## Model

| member | source | states |
|---|---|---|
| SocketSafety.LocateSound | src/queue_ingress.rs:705-729 | A successful scan returns the one name that carries the recorded identity, or none if no name does |
| SocketSafety.ResolveKeepsAccount | src/queue_ingress.rs:671-703 | Resolving a legacy record gives a named record that still accounts for every listener-made socket and for nobody else's |
| SocketSafety.AbandonedKeeps | src/queue_ingress.rs:999-1039 | An early return at any step runs its drop handlers and keeps the invariant |
| SocketSafety.ClearKeeps | src/queue_ingress.rs:439-465 | Once the public name is clear, no listener-made socket is left anywhere |
| SocketSafety.AdvanceKeeps | src/queue_ingress.rs:430-514 | Every step of a bind, refused or not, keeps the invariant |
| SocketSafety.AccountingInEveryRun | src/queue_ingress.rs:430-514 | Under any configured names, crashes, failures, stops and outside changes, each listener-made socket sits where the record says and is dead when no listener runs |
| SocketSafety.AliensSurviveEveryRun | src/queue_ingress.rs:436-514 | No run of listeners removes, replaces or moves a node made by anyone else |
| SocketRecovery.LocateExactly | src/queue_ingress.rs:705-729 | The scan succeeds if and only if the directory is within 1024 entries and the identity occurs at most once, and then finds it wherever it is |
| SocketRecovery.BindSucceedsExactlyWhen | src/queue_ingress.rs:350-525 | From every reachable stopped state a bind succeeds if and only if the name is not reserved, nobody else occupies it and no earlier publication is left under another name; then its socket is the only one and recorded as owned |
| SocketRecovery.RefusedNameChangeAltersNothing | src/queue_ingress.rs:731-763 | A refused change of the configured name leaves every entry and the record as they were |
| SocketRecovery.RecoveryUnderOneName | src/queue_ingress.rs:430-514 | After any binds, stops, failures and crashes at any step under one name, drafts of the record included, no step is refused and the next bind serves again; while a record of the older form has to be resolved by a scan, the directory has room for the lock and one draft within the 1024 entries |
| SocketRecovery.RoomIsNeeded | src/queue_ingress.rs:705-729 | From every state with such a record, an unobstructed name and no such room, a bind killed at its draft leaves a directory on which every bind under that name fails on the entry limit |
| SocketRecovery.FullDirectoryInstance | src/queue_ingress.rs:705-729 | 1023 files of others and a record of the older form are such a state |
| SocketService.BindLeavesExactly | src/queue_ingress.rs:430-514 | A bind that succeeds leaves exactly what was there, without sockets of earlier listeners and drafts, and with the lock, the record and one live socket under the name |
| SocketService.StopRemovesSocket | src/queue_ingress.rs:1027-1039 | A clean stop removes the listener's socket and nothing else |
| SocketService.FailureLeavesNothing | src/queue_ingress.rs:467-514 | A failure at any later step leaves no socket of the listener if and only if it is not between making or renaming the socket and capturing its identity |
| SocketService.RefusedFor | src/queue_ingress.rs:350-465 | On a record of the current form the outcome of a bind, with its error, follows from what is in the directory before |
| SocketListener.RuntimeDirectory.LocateRecordedSocket | src/queue_ingress.rs:705-729 | The loop over the entries computes the specified scan, with its limit and its ambiguity error |
| SocketListener.RuntimeDirectory.ResolveLegacySocketState | src/queue_ingress.rs:671-703 | The method computes the specified resolution of all three legacy states |
| SocketListener.RuntimeDirectory.RecoverRecordedTemporary | src/queue_ingress.rs:765-794 | Removes the recorded temporary socket exactly as specified, or fails and changes nothing |
| SocketListener.RuntimeDirectory.ClearPublicName | src/queue_ingress.rs:439-465 | Removes a stale owned socket from the public name exactly as specified, or fails and changes nothing |
| SocketListener.RuntimeDirectory.Recover | src/queue_ingress.rs:430-465 | The statements up to the cleared public name are the steps of the machine, including what each refusal leaves |
| SocketListener.RuntimeDirectory.Announce | src/queue_ingress.rs:467-473 | Writing the draft of the record and renaming it are two steps of the machine |
| SocketListener.RuntimeDirectory.Prepare | src/queue_ingress.rs:467-491 | Announcing, binding and recording are the steps of the machine |
| SocketListener.RuntimeDirectory.Publish | src/queue_ingress.rs:492-514 | Rename without replacing, capture and ownership record are the steps of the machine |
| SocketListener.RuntimeDirectory.Bind | src/queue_ingress.rs:350-525 | One whole call, with the lock free or held, ends in the world and with the error that the machine gives |
| SocketListener.RuntimeDirectory.Drop | src/queue_ingress.rs:1027-1039 | A clean stop leaves the world that the machine's stop event gives |
| SocketRecord.EncodePublicName | src/queue_ingress.rs:913-921 | The loop produces the two-digit hex form of every byte of the name |
| SocketRecord.DecodePublicName | src/queue_ingress.rs:884-911 | The loop accepts and decodes exactly what the recursive decoder does |
| SocketRecord.NameCodecBijection | src/queue_ingress.rs:884-921 | Decoding gives a name if and only if the name is usable and the text is its encoding |
| SocketRecord.ReadWrite | src/queue_ingress.rs:796-882 | Every record a listener writes reads back as itself if and only if it is within 512 bytes |
| SocketRecord.RecordFits | src/queue_ingress.rs:934-996 | For names within the limit of a Unix socket path and all 64-bit identities the record is at most 330 bytes and reads back |
| SocketRecord.HexText | src/queue_ingress.rs:913-921 | Each byte of a name is two hexadecimal digits, the higher first |
| SocketTexts.NumberExact | src/queue_ingress.rs:835-840 | A number field is read if and only if it is a 64-bit decimal number with at most a plus sign and leading zeros before it |
| SocketTexts.ReadExactly | src/queue_ingress.rs:796-882 | A file is read as a state, of the current or the older form, if and only if it is one line within 512 bytes whose fields spell that state, device before inode |
| SocketTexts.ReadOtherwise | src/queue_ingress.rs:796-834 | No file and one text of the older form stand for no record; any other text is refused, as too large or as malformed |
| ConnectionSupervisor.ApplyKeeps | src/queue_ingress.rs:95-170 | Every event keeps: each active connection has exactly one completion to come, and each started connection is active or joined |
| ConnectionSupervisor.ConnectionsConserved | src/queue_ingress.rs:95-170 | In every run of at most 2^64 accepts active connections never exceed the maximum, each started one is active or joined exactly once, and the unknown-connection and closed-channel errors never arise |
| ConnectionSupervisor.OverrunBounded | src/queue_ingress.rs:276-289 | With iterations at most a gap apart, a listener that still listens has no connection past expiry by the gap and the one-second grace |
| ConnectionSupervisor.CancellationStartsOnce | src/queue_ingress.rs:276-289 | Over any run a deadline never moves and a cancellation start, once set, stays |
| ConnectionSupervisor.JoinedForGood | src/queue_ingress.rs:307-322 | A joined connection is never active again |
| ConnectionDeadlines.IterationExact | src/queue_ingress.rs:95-140 | The outcome of an iteration: a reported panic stops the listener, then a stalled handler, then at most one connection starts, if and only if one was accepted, its thread started and there is room |
| ConnectionDeadlines.DeadlinesExact | src/queue_ingress.rs:220-222 | In every run there is one accept for each started connection, which expires exactly the configured time after it and is not cancelled before |
| ConnectionDeadlines.NobodyGivenUpEarly | src/queue_ingress.rs:276-289 | A listener that ends for a stalled handler does so at least the configured time and a second after the accept |
| ConnectionDeadlines.ReceiveExact | src/queue_ingress.rs:152-169 | A shutdown receive keeps the first error and otherwise reports a panic |
| ConnectionDeadlines.FirstErrorKept | src/queue_ingress.rs:152-169 | Over any run the first error stays |
| ConnectionLoop.Supervisor.DrainCompletions | src/queue_ingress.rs:291-305 | The receive loop leaves the state and reports the error of the specified drain |
| ConnectionLoop.Supervisor.FinishConnection | src/queue_ingress.rs:307-322 | Removes and joins one connection, reports an unknown one or a panic |
| ConnectionLoop.Supervisor.ExpireConnections | src/queue_ingress.rs:276-289 | Starts exactly the due cancellations, and reports an overdue connection if and only if there is one |
| ConnectionLoop.Supervisor.AcceptOne | src/queue_ingress.rs:106-138 | The accept branch is the specified accept step, with the wrapping identifier |
| ConnectionLoop.Supervisor.Iterate | src/queue_ingress.rs:95-140 | One iteration is a poll of the machine that reports an overdue connection whenever one exists |
| ConnectionLoop.Supervisor.ReceiveOne | src/queue_ingress.rs:152-169 | One receive of the shutdown loop is the machine's, keeping the first error |
| ObjectTree.SortCorrect | src/admin.rs:1178-1202 | Sorting yields the same entries in byte order |
| ObjectTree.NameLessExact | src/admin.rs:1178-1202 | The order is that of bytes: at the first difference the lesser name ends or has the lesser byte |
| ObjectTree.CanonicalExact | src/admin.rs:1310-1361 | Two trees have one sorted form if and only if they have the same names, shape and identities |
| TreeFingerprint.StreamInjective | src/admin.rs:1388-1403 | The length-prefixed record stream determines the records |
| TreeFingerprint.ListingInjective | src/admin.rs:1310-1361 | The post-order listing of a tree determines the tree |
| TreeFingerprint.FingerprintExact | src/admin.rs:1310-1412 | Two trees give the same stream if and only if they have the same names, shape and identities |
| HardLinks.HardLinkInventory.Record | src/admin.rs:1482-1504 | Counts one link, or fails on a changed count, a counter overflow or a surplus link |
| HardLinks.HardLinkInventory.Finish | src/admin.rs:1506-1519 | Succeeds if and only if every inode was met as often as its link count says |
| HardLinks.InventoryExact | src/admin.rs:1481-1519 | The inventory passes if and only if each file's link count equals its number of occurrences |
| HardLinks.SingleLinks | src/admin.rs:1481-1519 | The inventory of files with one link each passes if and only if no two of them are one file |
| HardLinks.LinksStayInside | src/admin.rs:1481-1519 | If link counts are the entries in the whole file system, the inventory passes if and only if no file of the tree has a link outside it |
| TreeVisits.ObjectExact | src/admin.rs:970-1034 | Acting on and recording one object succeeds under exactly the stated budget, access-list, metadata and link conditions |
| TreeVisits.VisitExact | src/admin.rs:901-1037 | A walk in any mode succeeds if and only if depth, types, budgets, and in validation access lists, metadata and links allow it, and then has recorded exactly the tree's post-order listing and made exactly its writes |
| TreeVisits.WalksAgree | src/admin.rs:901-1037 | Any two successful walks of one tree, whatever they do and allow, record the same stream and counters |
| TreeWalk.MigrationBudget.Record | src/admin.rs:1429-1455 | Counts an object if and only if both limits still hold |
| TreeWalk.TreeFingerprintBuilder.Record | src/admin.rs:1388-1403 | Appends exactly the encoding of one record, or fails on the limit |
| TreeWalk.DirectoryEntries | src/admin.rs:1178-1202 | The collecting loop returns the sorted entries, or fails if and only if there are more than a million |
| TreeWalk.PreflightDirectory | src/admin.rs:765-876 | The unsorted walk succeeds if and only if types, depth, budgets and access lists allow, with the exact counters |
| TreeWalk.FingerprintDirectory | src/admin.rs:1310-1361 | The loop returns the result and reaches the state of the specified visit |
| TreeWalk.MigrateDirectory | src/admin.rs:901-952 | The loop returns the result and reaches the metadata, log and records of the specified visit |
| TreeWalk.ValidateDirectory | src/admin.rs:955-1037 | The loop returns the result and reaches the state of the specified visit |
| TreeWalk.Storage.SetIdentityAndMode | src/admin.rs:1557-1571 | Skipping an unneeded change of ownership has the same effect as making it |
| TreeAdministration.VerifyFingerprint | src/admin.rs:1258-1307 | Succeeds if and only if the tree passes the walk and has the expected fingerprint |
| TreeAdministration.NormalizeStorageTree | src/admin.rs:258-285 | Succeeds if and only if the preflight passes; a refusal has changed nothing; success has made exactly the writes of the listing |
| TreeAdministration.ValidateWalk | src/admin.rs:955-1037 | The validating walk succeeds if and only if types, depth, budgets, access lists, metadata and inventory allow, and returns the fingerprint of the tree |
| TreeAdministration.ValidateTree | src/admin.rs:305-481 | Accepts if and only if preflight, metadata of every object and, where allowed, the link inventory pass |
| TreeObjects.TreeValidExactly | src/admin.rs:305-481 | A validation accepts if and only if the tree is within the budgets, its links balance where asked for, and every path below the root leads to an object of allowed type and depth, without access list and with accepted metadata |
| TreeObjects.StrictTree | src/admin.rs:305-334 | Strict: every object is a directory or a singly linked file with exactly the required owner, group and mode |
| TreeObjects.RepositoryTree | src/admin.rs:377-409 | Repository: files may be 0440 in place of 0640, and nothing else |
| TreeObjects.ReleaseTree | src/admin.rs:412-446 | Releases: files may be 0640, 0440 or 0444, and symbolic links 0777 |
| TreeObjects.QueueTree | src/admin.rs:449-481 | Queue: files are 0660 of the queue's owner, or 0640 of the Worker at the places of its files |
| TreeObjects.IndexTree | src/admin.rs:337-374 | Search index: files are 0640, the reader lock may be 0660, links stay inside, and symbolic links are 0777 |
| TreeObjects.ReaderLockPath | src/admin.rs:1110-1121 | The reader lock is one file name two levels below an index directory or a staging directory |
| TreeObjects.WorkerFilePath | src/admin.rs:1124-1148 | The Worker's files are its temporary files and two sidecars of a request in four states |
| TreeCrashes.NormalisedValidates | src/admin.rs:258-334 | After a successful normalisation the strict validation accepts with the same arguments |
| TreeCrashes.StrictAcceptsAll | src/admin.rs:305-481 | What the strict validation accepts every other one accepts, where it has a link inventory if and only if no file is met under two names |
| TreeCrashes.NormalisedIsAccepted | src/admin.rs:258-481 | After a successful normalisation every validation accepts with the same arguments, with the same one condition for the inventory |
| TreeCrashes.NormalisedPartsAccepted | src/admin.rs:336-481 | In particular those of the queue, the repository and the releases, and that of the search index under that condition |
| TreeCrashes.RecordsPostOrdered | src/admin.rs:912-950 | In the order of the walk nothing below an object comes after it |
| TreeCrashes.ChangedDirectoryIsComplete | src/admin.rs:912-950 | At every prefix of a run, an object the run has changed has only normalised objects below it |
| TreeCrashes.IndexJudgement | src/storage_bootstrap.rs:691-727 | At every prefix: the root is judged finished if and only if its owner has changed, is accepted and everything is normal if and only if the run is complete, and everything below is normal whenever it is judged finished |
| TreeCrashes.IndexJudgedTooEarly | src/storage_bootstrap.rs:691-706 | A concrete index after one write that is judged finished and is not |
| RuntimeIdentity.RequireMatchingOwner | src/runtime_identity.rs:427-448 | Accepts if and only if the owner is not root and all directories have it |
| RuntimeIdentity.RequireMatchingGroup | src/runtime_identity.rs:450-471 | Accepts if and only if the group is not root's and all directories have it |
| RuntimeIdentity.WorkerExact | src/runtime_identity.rs:287-335 | The Worker's checks accept exactly one process on exactly the layouts described |
| RuntimeIdentity.IngressExact | src/runtime_identity.rs:337-358 | Queue Ingress's checks accept exactly one process on exactly the layouts described |
| RuntimeIdentity.GatewayExact | src/runtime_identity.rs:367-409 | The Gateway's checks accept exactly one process, none of the other two users or root, on exactly the layouts described |
| RuntimeIdentity.AccessMatrix | README.md:59-62 | If all three accept, the owner, group and other bits give each role exactly the stated rights on each directory; work and releases are open to the Gateway if and only if the ingress-client group is the Worker's |
| RuntimeIdentity.SocketReachable | src/runtime_identity.rs:226-247 | The Gateway can connect to an accepted socket; the Worker can if and only if the two groups coincide |
| RuntimeIdentity.WorkerCheckNeeded | src/runtime_identity.rs:325-332 | Without the Worker's check the other two accept a layout where the Gateway writes the queue |
| RuntimeIdentity.IngressCheckNeeded | src/runtime_identity.rs:345-350 | Without Queue Ingress's check the other two accept a layout where the Gateway writes the queue |
| RuntimeIdentity.GatewayCheckNeeded | src/runtime_identity.rs:389-394 | Without the Gateway's check the other two accept a layout where the reader group alone reaches the socket |
| RuntimeIdentity.IngressGroupMayBeTheWorkers | src/runtime_identity.rs:287-409 | A layout that all three accept and on which the Gateway reads the work directory |
| ServiceIdentities.IdentitiesExact | src/storage_bootstrap.rs:147-175 | Accepted identities are exactly the pairwise distinct ones without root |
| ServiceIdentities.MembershipsExact | src/storage_bootstrap.rs:215-241 | Accepted memberships are exactly the required group sets, however listed |
| ServiceIdentities.BootstrapMeansRuntime | src/storage_bootstrap.rs:147-241 | On directories with accepted permissions, bootstrap accepts the accounts if and only if all three role validators accept their processes and the ingress-client group is not the Worker's |
| ServiceIdentities.BootstrapSeparates | README.md:59-62 | Bootstrapped storage has the whole access matrix with nothing open between roles |
| BootstrapSafety.SlotAfter | src/storage_bootstrap.rs:350-512 | A plan acts on each part through its own actions only |
| BootstrapSafety.ReadyRunValidates | src/storage_bootstrap.rs:412-501 | A run that passed its first checks finds every part initialised before it marks; that a normalised tree passes the validation of its part is TreeCrashes.NormalisedIsAccepted |
| BootstrapSafety.UnmarkedRun | src/storage_bootstrap.rs:406-512 | On unmarked storage a run starts and completes if and only if the storage root holds nothing but configured roots and all of those are empty or absent and safe, and then leaves every part complete and a certified marker; otherwise it has no plan at all |
| BootstrapSafety.StoppedFirstRun | src/storage_bootstrap.rs:406-512 | Stopped after any step, the marker exists only at the very end, and a rerun completes if and only if nothing had been filled |
| BootstrapSafety.StoppedThenSwitchedOff | src/storage_bootstrap.rs:642-659 | A first run with a search index stopped after any step: a rerun without the index completes if and only if its root was not there and had not been made; later it is an unexpected entry |
| BootstrapSafety.StoppedThenSwitchedOn | src/storage_bootstrap.rs:642-659 | The other way round a rerun with the index completes if and only if nothing had been filled |
| BootstrapSafety.MarkerIsCertified | src/storage_bootstrap.rs:1193-1218 | Over any runs, crashes and changes in between, a marker exists only if every part was initialised, normalised and validated before it |
| BootstrapSafety.MarkedRunKeeps | src/storage_bootstrap.rs:375-404 | Wherever a run on marked storage stops, marker, storage root and the parts the marker speaks of are untouched but for the queue's binding, and the queue stays untouched throughout if and only if its binding is not of the older format |
| BootstrapSafety.MarkedRunExactly | src/storage_bootstrap.rs:375-404 | A run on marked storage, binding migration included, completes if and only if its checks pass and every part is complete or, for the index, to be provisioned |
| BootstrapSafety.StoppedMarkedRun | crates/queue/src/file_queue.rs:1532-1556 | Stopped after any step, a rerun completes if and only if the search index was not left half provisioned and the replacement of an older binding was not left without its permissions |
| BootstrapSafety.FailedMarkedRun | crates/queue/src/file_queue.rs:1557-1560 | A step that fails instead of being cut off undoes the replacement, so that only half provisioning stands in the way of a rerun |
| BootstrapSafety.UpgradeInstance | crates/queue/src/file_queue.rs:1532-1556 | Complete storage with an older binding on which a run completes, and on which none does after one that was cut off at the second step |
| BootstrapSafety.StoppedProvisioning | src/storage_bootstrap.rs:684-728 | After provisioning stopped at any of eight steps, a rerun completes if and only if nothing was filled or all was done |
| BootstrapAccess.InitializedIsAccepted | src/storage_bootstrap.rs:1024-1110 | What the last validation requires of the directories is what the services require, the search index if and only if configured, and 0751 with the queue's group for the storage root |
| BootstrapAccess.BootstrapLeavesMatrix | README.md:59-62 | On the storage that a completed run leaves, the first or a later one, all three validators accept, each role has exactly its rights on each directory, and on the storage root Worker and Queue Ingress read and the Gateway only passes through |
| BootstrapAccess.NeverOpenedEarly | src/storage_bootstrap.rs:412-501 | Whatever step a first run stops at, a part that holds anything gives each service no rights or those it has in the end |
| BootstrapAccess.NotWritableMeans | src/storage_bootstrap.rs:634-641 | The mode check on a root holds if and only if nobody but root and its owner can write to it |
| BootstrapRun.MarkedRefusalExact | src/storage_bootstrap.rs:375-404 | On marked storage there is a first reason not to complete if and only if the run does not |
| BootstrapRun.BootstrapVolume.Bootstrap | src/storage_bootstrap.rs:375-512 | A whole run succeeds if and only if nothing stands in its way, then everything is initialised and has the permissions that the services require; a refusal gives the first reason there is, and changes nothing on unmarked storage; a marker it leaves is certified |
| BootstrapRun.FirstRefusalExact | src/storage_bootstrap.rs:795-805 | Of the roots the first unsafe or non-empty one is reported, as unsafe if it is not a directory or has a wrong owner or mode, and as partial initialisation only if its contents are all that is wrong |
| BootstrapRun.RefusalExact | src/storage_bootstrap.rs:406-411 | Storage without a marker is refused if and only if it is not ready, an entry that is no configured root included |
| BootstrapRun.BootstrapVolume.RequireReady | src/storage_bootstrap.rs:406-411 | The checks, with their loop over the roots, pass if and only if the storage is ready, and otherwise report the first reason |
| BootstrapRun.BootstrapVolume.BootstrapUnmarked | src/storage_bootstrap.rs:406-512 | The run performs exactly the plan and ends complete and marked, or refuses with the first reason and the volume unchanged |
| BootstrapRun.BootstrapVolume.BootstrapMarked | src/storage_bootstrap.rs:375-404 | The run performs a prefix of the plan, with the binding migration between its two validations, and all of it if and only if it completes; otherwise it gives the first reason |
| ReleaseCache.CheckKeeps | crates/client/src/updates.rs:350-365 | Taking the lock and deciding whether a check is due keeps the invariant for any clock reading |
| ReleaseCache.FetchKeeps | crates/client/src/updates.rs:362-385 | A fetch happens at least a day after all earlier ones, whatever it returns |
| ReleaseCache.FetchesAreSpaced | crates/client/src/updates.rs:333-385 | For any interleaving, crashes and clock readings two fetches are at least 24 hours apart, and every saved cache is read back as itself, names at most a stable release with its official page, and has no error if and only if its last attempt was its last successful check |
| ReleaseCache.ReadableFits | crates/client/src/updates.rs:239-277 | A cache with valid release, versions and 64-bit times is within the 16 KiB limit of the reader once written |
| ReleaseCache.StaleIsDue | crates/client/src/updates.rs:203-229 | On every cache a process leaves, a release without error is stale if and only if the next check is due |
| ReleaseCheck.CacheDirectory.SaveCache | crates/client/src/updates.rs:269-277 | The file is replaced whole, or nothing happens |
| ReleaseCheck.CacheDirectory.CheckInner | crates/client/src/updates.rs:333-385 | The network is used if and only if a check was asked for, the lock was free, an attempt is due and was reserved; field by field, a valid release replaces the old one with its time and no error, anything else keeps what was found and announced with exactly that error; the status reports the file; a busy or unreadable cache changes nothing |
| ReleaseCheck.CacheDirectory.Attempt | crates/client/src/updates.rs:355-385 | Reserves, fetches once and concludes under the lock; every field of the file and of the report is fixed, whichever save fails, and the lock is left |
| ReleaseCheck.CacheDirectory.NotifyInner | crates/client/src/updates.rs:443-479 | Announces if and only if found within a day without a later error, newer and not yet announced, and what was announced is not announced again |
| Base64.DecodeEncode | crates/access/src/key.rs:44-49 | Decoding an encoding gives the bytes back, for all bytes |
| Base64.EncodeDecode | crates/access/src/key.rs:44-49 | Whatever decodes is the encoding of what it decodes to |
| Base64.SymbolTable | crates/access/src/key.rs:44-49 | The alphabet is table 1 of RFC 4648 |
| Base64.EncodeExact | crates/access/src/key.rs:44-49 | Every three bytes become the symbols of their 24 bits by six, most significant first, with padding for missing bytes |
| PublicKey.WireExact | crates/access/src/key.rs:70-99 | The accepted blobs are exactly the blobs of 32-byte keys |
| PublicKey.WireBytes | crates/access/src/key.rs:70-99 | An accepted blob is 51 bytes: the length and the name of the algorithm, the length 32, the key |
| PublicKey.LineParses | crates/access/src/key.rs:28-55 | The canonical line of an accepted blob is 80 characters and parses to itself |
| PublicKey.ParseExactly | crates/access/src/key.rs:28-55 | A key parses if and only if the input is one line within the limit whose first two fields are a normalised key, and then is returned as those two fields stand |
| PublicKey.NormalizedExactly | crates/access/src/key.rs:28-55 | The keys the parser makes are exactly those that parse to themselves |
| PublicKey.TrimExact | crates/access/src/key.rs:32 | Trimming removes the white space at both ends and nothing else |
| PublicKey.FieldsExact | crates/access/src/key.rs:36-38 | The fields of a text are its maximal runs without white space |
| AuthorizedKeys.WriteAuthorizedKeys | crates/access/src/authorized_keys.rs:32-58 | The loop writes exactly the lines of the active clients, and fails if and only if the path is not command-safe |
| AuthorizedKeys.ReadersAgree | src/bin/agent_knowledge_ssh_shell.rs:72-100 | On every command of the current version the login shell and the importer's command parser accept the same and read the same client; the shell refuses all others |
| KeysRoundTrip.LineReadersAgree | crates/access/src/authorized_keys.rs:115-132 | In a line with any normalised key, what the shell accepts is imported for the same client and with that key if and only if it holds no quote and no backslash; without those, importer and shell accept the same commands of the current version |
| KeysRoundTrip.MarkerFound | crates/access/src/authorized_keys.rs:115-120 | The first key marker of a line is the one before the key, whatever the client is called, if no earlier word of the command starts like the algorithm |
| KeysRoundTrip.LineCut | crates/access/src/authorized_keys.rs:115-124 | So the line of every command in either form parts into its options and its key |
| KeysRoundTrip.LineReads | crates/access/src/authorized_keys.rs:115-132 | A rendered line imports as its client and key |
| KeysRoundTrip.RenderedKeysReadBack | crates/access/src/authorized_keys.rs:98-176 | Importing a rendered file returns exactly the active clients and keys in order if and only if it is within 4 MiB, and the login shell reads the same path and client |
| KeysRoundTrip.LegacyReads | crates/access/src/authorized_keys.rs:150-169 | A direct Gateway command of the older form imports as its client |
| KeysRoundTrip.LegacyLineReads | crates/access/src/authorized_keys.rs:115-169 | A line with such a command and any normalised key imports as that client and key |
| KeysRoundTrip.LegacyOnly | crates/access/src/authorized_keys.rs:150-169 | Every accepted command not of the current version is such a direct Gateway command for that client |
| KeysRoundTrip.MigrationIsStable | crates/access/src/authorized_keys.rs:98-176 | Whatever file is accepted, in the current or the older form, rendering its clients and importing again gives the same clients in order, within the limit |
| KeysImport.ClientIdExact | crates/protocol/src/lib.rs:144-163 | A client identifier is one to 63 lower-case letters, digits and hyphens without a hyphen at either end, with the first reason otherwise |
| KeysImport.SafePathExact | crates/access/src/authorized_keys.rs:171-176 | A command-safe path is absolute and of letters, digits and five signs |
| KeysImport.ShellExactly | src/bin/agent_knowledge_ssh_shell.rs:72-100 | The login shell accepts exactly three arguments of which the last is a command of the current version |
| KeysImport.CommandExactly | crates/access/src/authorized_keys.rs:134-172 | The importer accepts exactly those commands and the direct Gateway commands of the older form |
| KeysImport.LineExactly | crates/access/src/authorized_keys.rs:115-132 | A line imports if and only if it is the restriction, a quoted accepted command and an accepted key |
| KeysImport.IgnoredExact | crates/access/src/authorized_keys.rs:107-110 | A line is passed over if and only if it is white space or its first other character is a number sign |
| KeysImport.LinesExact | crates/access/src/authorized_keys.rs:104-106 | Lines end with a line feed or a carriage return and a line feed, and the last may end with neither |
| KeysImport.ImportedFileExactly | crates/access/src/authorized_keys.rs:98-113 | An import succeeds if and only if the file is within 4 MiB and every line that counts can be read; it returns their clients in order, or the error of the first that cannot, with its number |
| CanonicalArchive.CanonicalArchiveWriter.Write | crates/client/src/lib.rs:660-673 | Accepts a write if and only if what was written stays a prefix of the expected bytes |
| CanonicalArchive.CanonicalArchiveWriter.WriteAll | crates/client/src/lib.rs:660-673 | Any split into writes is accepted if and only if the whole is a prefix |
| CanonicalArchive.Compare | crates/client/src/lib.rs:641-677 | A split is accepted and complete if and only if its concatenation equals the expected bytes |
| CanonicalArchive.CheckEntry | crates/client/src/lib.rs:528-607 | The checks on an entry pass if and only if the export so far can be part of an accepted one |
| CanonicalArchive.ValidateExportArchive | crates/client/src/lib.rs:511-627 | Accepts if and only if the archive is the canonical encoding of an index and strictly ordered attachments within the limits for the document asked for |
| CanonicalArchive.AcceptedExport | crates/client/src/lib.rs:546-564 | Accepted entries have distinct names and a total that cannot overflow |
| FrontMatter.ClosingExact | crates/core/src/markdown.rs:53-63 | The scan stops at the first line that is a delimiter, and finds none if and only if there is none |
| FrontMatter.DelimiterText | crates/core/src/markdown.rs:53-60 | A delimiter line is three dashes with nothing, a line feed, or a carriage return with or without one |
| FrontMatter.MarkdownBody | crates/core/src/markdown.rs:46-64 | Returns exactly the text after the closing line, or which delimiter is missing |
| FrontMatter.ExtractFrontMatter | crates/core/src/markdown.rs:66-95 | Returns the text before the closing line if and only if there is one within the limit, and otherwise the exact error, an excess with the first line end beyond the limit |
| FrontMatter.SplitDocument | crates/core/src/markdown.rs:46-95 | Both scanners stop at one line, and their results with it make up the text |
| FrontMatter.Prepare | crates/client/src/mcp_create.rs:165-189 | Assembles the document if and only if its front matter is within the limit |
| FrontMatter.DocumentText | crates/client/src/mcp_create.rs:165-189 | The created text, the same whether or not the YAML ends with a line feed |
| FrontMatter.CreatedReadsBack | crates/client/src/mcp_create.rs:165-189 | A created document reads back as its YAML and a line feed and its body, for any body, if and only if no YAML line is the delimiter |

## Left out

- Durable queue, Worker batches, Git store, release store and access registry: their modules are used through abstract steps only.
- System calls, descriptor pinning, `/proc` parsing, file locks, syncing and power loss: a directory with atomic renames and process crashes stands for them.
- The second listing of a directory and the identity re-checks inside a walk: on an unchanging tree they always agree.
- The migration of version 1 storage: a further combination of the modelled walks.
- Queues whose locks are held, and queues without a binding or with one that does not describe them: the migration of the binding refuses them, or writes a first binding that the last validation refuses.
- Environment checks of bootstrap (Git version, ancestry, mounts, access lists, `lost+found`) and the rebinding of restored storage.
- Socket probing, socket permissions and the diagnostics reporter of Queue Ingress.
- The shutdown deadline of the accept loop: the machine may stop receiving at any time, and connections still active then stay unjoined.
- Gateway dispatch, SSH and HTTP processes, command-line parsers, error texts and log records.
- JSON, YAML, tar, SHA-256, semantic versions, ULID values and document metadata: parameters or left abstract.
- Unicode white space and invalid UTF-8 in keys and Markdown.
