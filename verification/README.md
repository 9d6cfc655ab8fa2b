# Parsec: verified models of the export, the handle registry, and some smaller algorithms

This project models, in Dafny 4.11, the parts of Parsec whose correctness depends on whole runs or on all
inputs rather than on one call, and proves what they are meant to guarantee. `dafny verify dfyconfig.toml`
checks everything.

| file | what it models |
|---|---|
| `Ballpark.dfy`, `SequentialRows.dfy`, `RealmServer.dfy` | the server as a realm export sees it: append-only tables ordered by sequential id, the timestamp window, base information, batches |
| `BlockFetch.dfy` | ten tasks and one SQLite thread downloading one batch of block data, as a state machine over all interleavings |
| `ExportTarget.dfy`, `RealmExport.dfy`, `ResumedExport.dfy` | what an export has to hold and how that changes, one run of the exporter with kills at every await, and any number of runs on one database |
| `HandleRegistry.dfy`, `StartStop.dfy`, `RunningClients.dfy`, `Mountpoints.dfy`, `Wakeups.dfy`, `InviteFlow.dfy` | libparsec's handle vector, the start and stop protocols on top of it, what becomes of mounts and of waiting tasks, and the invitation flows, each locked section being one step |
| `EmailRateLimit.dfy` | the sliding-window limiter for e-mails |
| `ReleaseVersion.dfy`, `ReleaseChain.dfy` | the printer, parser and order of versions, and the chain of releases |
| `ShortId.dfy` | short device ids of the command line |
| `ExtractFile.dfy` | rebuilding a file from exported blocks |

Code that updates things in place is a class or a method with loops, proved equal to a function of the old
state; protocols are state machines in which any event may come at any time, and an event that is not
possible changes nothing, so that a statement about `Run(s, events)` for all `events` is about every
interleaving. Points in time are integers in microseconds. Clocks, the uploads of other clients, kills, the
scheduling of tasks, decryption and the outcome of slow operations are inputs.

## Where the code does less than one would expect

Each of these but the last has a lemma or method with an input that shows it, and one that says exactly when it
happens.

- An export that is killed and started again need not give the file of an uninterrupted one, and may even be
  refused. The check of the snapshot leaves no margin for requests that are under way: a vlob or
  certificate is checked, and a block dated, when the request is received, and inserted later. Sequester
  certificates are not put to the ballpark check at all. So something of an allowed snapshot can still come: a run
  that has yet to export it then does, and if the totals changed, the next run takes the database for
  another one. `ExportTarget.ExportCanChangeIff` says beforehand, for any limit on how long requests take, whether
  that can happen; `ResumedExport.ResumeAfterLateCertificate` and `ResumedExport.ResumeAfterLateBlock` are runs in
  which it does; `ResumedExport.ExportUntilDone` says which file comes out in every case.
- The rows exported for a snapshot are those up to an id, not those dated up to the snapshot. The two agree
  exactly when no row dated after the snapshot comes before one dated up to it. Vlobs, dated by clients, and
  blocks, dated when the request is received and inserted when the data is stored, can both disagree; blocks whose
  uploads do not overlap cannot (`RealmServer.ExportedRowsAreSnapshotIff`, `RealmServer.ExportedVlobsCanDiffer`,
  `RealmServer.ExportedBlocksCanDiffer`, `RealmServer.ExportedBlocksAreSnapshot`).
- A stopped client can still get a mountpoint, through a mount that borrowed its workspace before the stop
  (`Mountpoints.MountpointOpensIff`, `Mountpoints.StoppedClientCanGetAMountpoint`).
- Whoever waits for a start that then fails is never woken (`Wakeups.ListenerCanBeStranded`,
  `Wakeups.CanWakeIff`).
- Printing a version and parsing it again does not always give the version back. The first dot of
  `.dev\.` in the expression is not escaped, so that the local part of `1.2.3+dev.5` is read as a
  development number (`ReleaseVersion.RoundTrip`, `ReleaseVersion.RoundTripCanFail`).
- A build accepts an explicit version that the order cannot tell from the one in the sources, such as
  another local part, although the check is meant to demand a newer one (`ReleaseChain.AcceptedIff`,
  `ReleaseChain.AcceptsWhatIsNotNewer`).
- The e-mail limiter forgets mails after one hour, so a cooldown longer than that is announced but not kept
  (`EmailRateLimit.RefusedUntilWait`, `EmailRateLimit.LongCooldownIsNotHonoured`).
- A comment in `cli/src/utils.rs` says that a single device gives the size 1; the code gives 3, and so does the
  model.

## Model

| member | source | states |
|---|---|---|
| `SequentialRows.BatchExtendsCopy` | server/parsec/realm_export.py:783-850 | While the marker is below a bound that names a row, the cut batch is never empty, moves the marker up without passing the bound, and turns the copy up to the old marker into the copy up to the new one: nothing skipped, nothing written twice |
| `SequentialRows.CutBatchEmptyIff` | server/parsec/realm_export.py:804-813 | The cut batch is empty exactly when no row lies above the marker and at or below the bound |
| `SequentialRows.AppendKeepsCopy` | server/parsec/realm_export.py:556-565 | Rows added later leave the selection up to an existing id unchanged |
| `SequentialRows.MaxIdIsPresent` | server/parsec/realm_export.py:751-759 | The maximum dominates all ids and is 0 or the id of a row |
| `SequentialRows.NextBatchIsFirst` | server/parsec/components/postgresql/realm_export_do_vlobs_batch.py:45-60 | A batch is the first rows above the marker: at most the batch size, and rows are left out only after as many |
| `Ballpark.WindowIs` | server/parsec/ballpark.py:68-103 | A client's timestamp is accepted exactly when it is less than 300 s ahead of the server and less than 320 s behind |
| `RealmServer.VlobUploadIff` | server/parsec/components/postgresql/vlob_create.py:248-300 | Exactly which vlobs are accepted, by id, version, window and certificates, and the whole effect on the server |
| `RealmServer.VersionsStayConsecutive` | server/parsec/components/postgresql/vlob_update.py:240-257 | Over any sequence of uploads the versions of each vlob are 1, 2, 3 and so on, in order |
| `RealmServer.BlockUploadIff` | server/parsec/components/postgresql/block_create.py:249-321 | Exactly which blocks are accepted, dated on receipt, and the whole effect on the server |
| `RealmServer.CertificateUploadIff` | server/parsec/components/postgresql/realm_rename.py:148-157 | Exactly which certificates are accepted in each topic, with the key material they bring, and the whole effect on the server |
| `RealmServer.AcceptAllExtends` | server/parsec/components/postgresql/vlob_create.py:291-300 | After any uploads, however long they took, the tables are extensions of what they were; new certificates and key material are later than what their topic had, new vlobs and realm certificates later than the common ones |
| `RealmServer.PromptIsDated` | server/parsec/ballpark.py:81-103 | If every request takes effect within a delay, blocks are dated at most that delay ago, and vlobs and certificates other than sequester ones at most the ballpark offset more |
| `RealmServer.SnapshotIsStable` | server/parsec/realm_export.py:508-535 | A snapshot older than the check demands by the delay of requests keeps its rows, bounds, common and realm certificates and key material over every sequence of uploads |
| `RealmServer.SequesterCanChangeIff` | server/parsec/components/sequester.py:85-104 | The sequester certificates of a snapshot, allowed or not, can still change if and only if the last one is dated before the snapshot |
| `RealmServer.VlobsCanChangeIff` | server/parsec/components/postgresql/vlob_create.py:291-300 | For every delay: the vlobs of a snapshot can still change if and only if it is not older than the check demands by that delay, and later than the last common and the last realm certificate |
| `RealmServer.BlocksCanChangeIff` | server/parsec/components/postgresql/block_create.py:300-321 | For every delay: the blocks of a snapshot can still change if and only if it ends at most that delay ago; without a limit they always can |
| `RealmServer.UpperBoundIsReal` | server/parsec/components/postgresql/realm_export_do_base_info.py:63-91 | A bound is 0 or the id of a row of the table |
| `RealmServer.ExportedRowsAreSnapshotIff` | server/parsec/components/postgresql/realm_export_do_base_info.py:63-91 | Rows up to the bound are the rows of the snapshot if and only if no row dated after it comes before one dated up to it |
| `RealmServer.ExportedVlobsCanDiffer` | server/parsec/components/postgresql/vlob_create.py:291-300 | From any realm without vlobs, three requests lead to an allowed export that holds a vlob its snapshot does not |
| `RealmServer.ExportedBlocksCanDiffer` | server/parsec/components/postgresql/block_create.py:300-321 | From any realm without blocks, two overlapping uploads lead to an allowed export that holds a block its snapshot does not |
| `RealmServer.ExportedBlocksAreSnapshot` | server/parsec/components/postgresql/block_create.py:300-321 | Over every sequence of uploads in which no two block uploads overlap, the exported blocks are exactly those of the snapshot |
| `BlockFetch.StepKeepsPlaces` | server/parsec/realm_export.py:1126-1221 | Every step keeps, for each id, the number of times it occurs over the deque, tasks, buffer, rows being inserted, table and ids given up |
| `BlockFetch.RunIsSafe` | server/parsec/realm_export.py:1166-1233 | Over every interleaving, failure and retry, no id is lost or duplicated, rows carry their block's data, and the table only grows |
| `BlockFetch.NoRowInsertedTwice` | server/parsec/realm_export.py:1126-1144 | In every reachable state the table and the pending insert hold no id twice |
| `BlockFetch.CompletedStoresBatch` | server/parsec/realm_export.py:1213-1222 | When a group completes, exactly the ids of the batch and those stored before are in the table or were given up by a failure |
| `BlockFetch.NoFailureDropsNothing` | server/parsec/realm_export.py:1178-1222 | Without failure events nothing is ever given up |
| `BlockFetch.CleanGroupStoresBatch` | server/parsec/realm_export.py:1213-1222 | A group that completes without a failure has stored its whole batch and kept what was there |
| `BlockFetch.BufferStaysBounded` | server/parsec/realm_export.py:1122-1164 | Over one task group the counter is the size of the buffer and stays below the limit plus parallelism times the largest block |
| `BlockFetch.StepLowersMeasure` | server/parsec/realm_export.py:1178-1222 | Every step other than a retry that changes the state lowers a measure |
| `BlockFetch.GroupIsNeverStuck` | server/parsec/realm_export.py:1178-1222 | A group that has not ended always has a step that is not a failure |
| `BlockFetch.GroupCompletes` | server/parsec/realm_export.py:1213-1222 | From any failure-free state some schedule without failures completes the group, in no more steps than the measure |
| `BlockFetch.QueueIsEndOfBatch` | server/parsec/realm_export.py:1178-1184 | Over every run the deque is the end of the batch: blocks are asked for in order |
| `BlockFetch.FailureSavesBuffer` | server/parsec/realm_export.py:1203-1211 | When the blockstore fails one task, everything in memory then is in the table by the time the group fails |
| `BlockFetch.MissingBlockFails` | server/parsec/realm_export.py:1193-1201 | A block that the blockstore does not have ends the group when it is asked for |
| `BlockFetch.MissingBlockIsNotPassedOver` | server/parsec/realm_export.py:1193-1201 | Over every run, a group with such a block in its batch completes only if a failure made it give the block up |
| `ExportTarget.ExportStableIff` | server/parsec/realm_export.py:556-565 | Whatever was uploaded, the export that has to be produced is the same if and only if no certificate, vlob or block of the snapshot came late |
| `ExportTarget.ExportCanChangeIff` | server/parsec/realm_export.py:508-535 | For every delay: some uploads can still change the export if and only if the last sequester certificate is older than the snapshot, or the snapshot ends within the delay, or it is within the ballpark offset and the delay and later than the last common certificate |
| `ExportTarget.InfoStableIff` | server/parsec/realm_export.py:331-385 | The row that identifies a database stays the same if and only if no late row other than an empty one came |
| `ExportTarget.CertificatesAreStable` | server/parsec/components/postgresql/realm_export_do_certificates.py:49-140 | The answer to the certificates request of a run, key material included, is fixed once its base information was answered |
| `ExportTarget.CertificatesHeld` | server/parsec/components/postgresql/realm_export_do_certificates.py:49-105 | Each of the three certificate tables holds exactly the certificates of its topic up to the snapshot, in order |
| `ExportTarget.KeyMaterialHeld` | server/parsec/components/postgresql/realm_export_do_certificates.py:107-140 | Each of the three tables of key material holds exactly the records of its kind up to the last realm certificate of the snapshot, in order |
| `ExportTarget.RowsHeld` | server/parsec/realm_export.py:783-850 | The vlob and block tables hold exactly the rows up to the last one dated up to the snapshot, in order |
| `ExportTarget.DataHeld` | server/parsec/realm_export.py:1178-1192 | The data held for an id is exactly what the blockstore has for the exported block of that id |
| `ExportTarget.InfoHeld` | server/parsec/components/postgresql/realm_export_do_base_info.py:63-100 | The identifying row names the organization, realm, snapshot and root key, and the bytes of vlobs and of blocks dated up to the snapshot |
| `ExportTarget.BoundsMean` | server/parsec/components/postgresql/realm_export_do_base_info.py:100-122 | A topic has a bound exactly when it has a certificate up to the snapshot |
| `RealmExport.PartialCopyResumes` | server/parsec/realm_export.py:751-768 | A beginning of the target is the selection up to its own last id, and is complete exactly when that id is the bound |
| `RealmExport.BatchContinuesCopy` | server/parsec/realm_export.py:783-850 | The next cut batch extends a beginning of the target to a longer one, with new ids only |
| `RealmExport.CopyBatch` | server/parsec/realm_export.py:783-850 | One iteration: a kill leaves the table alone, otherwise the marker rises and is the table's last id; the byte count matches the stored sizes; without a kill the batch is copied |
| `RealmExport.CopyTable` | server/parsec/realm_export.py:751-860 | The whole loop, also for blocks: the table stays a beginning of the target, getting done means equal to it, a done table is left alone, the byte counter is the sum of the stored sizes, and without a kill it gets done |
| `RealmExport.FetchBlocks` | server/parsec/realm_export.py:1166-1233 | The table is what the task group left, with unique keys and genuine data; Done means exactly that the group completed, and then, without failures, the whole batch is stored |
| `RealmExport.NothingMissingMeansComplete` | server/parsec/realm_export.py:1077-1086 | With no block lacking data, the data table is exactly the data of all blocks |
| `RealmExport.ExportBlocksData` | server/parsec/realm_export.py:1166-1248 | The flag is set only when every block has its data, and is set when nobody kills the exporter and the task groups complete |
| `RealmExport.DataCanComplete` | server/parsec/realm_export.py:1166-1248 | Whatever an earlier run left, some schedule of task groups brings in all the data |
| `RealmExport.ExportCertificates` | server/parsec/realm_export.py:618-717 | Certificates, key material and their flag are written together; they are those of the moment when the base information was answered, and those an earlier run wrote are kept |
| `RealmExport.RunPhases` | server/parsec/realm_export.py:577-613 | The four phases end with each phase as the server had it, or as an earlier run had left it done, or stop with a sound database; without kills and with task groups that complete they end |
| `RealmExport.ConnectOrCreate` | server/parsec/realm_export.py:216-385 | A new database is initialised, an existing one is accepted exactly when it is for the same organization, realm, snapshot, root key and totals |
| `RealmExport.ExportRealm` | server/parsec/realm_export.py:523-613 | One run, answered by the server after the first pause: exactly when each refusal is returned, and that it leaves the database alone; when it is killed or fails the database stays sound; when it finishes all phases are; without refusal, kills and failures it finishes |
| `ResumedExport.FileOfStartIff` | server/parsec/realm_export.py:556-565 | The file of runs answered at different moments is the one-shot export of the start if and only if no certificate, vlob or block of the snapshot came before the run that had to export it |
| `ResumedExport.ExportUntilDone` | server/parsec/realm_export.py:556-613 | Any number of runs, with uploads throughout: which file comes out, when it is the one-shot export of the start, that it is whenever the export cannot change any more at the start, and that a run is refused for its totals only after a late row |
| `ResumedExport.ResumeAfterLateCertificate` | server/parsec/components/sequester.py:85-104 | For every server whose last sequester certificate is older than an allowed snapshot: a run killed after it created the database, one upload, and a second run that finishes with another file |
| `ResumedExport.ResumeAfterLateBlock` | server/parsec/components/postgresql/block_create.py:300-321 | For every server and allowed snapshot: a run killed after it created the database, one block that was under way, and a second run that is refused |
| `RealmExport.Environment.Await` | server/parsec/realm_export.py:523-613 | What an await does: the uploads of the pause, and perhaps a kill; what was known of the server stays known |
| `HandleRegistry.RegistrationMeans` | libparsec/src/handle.rs:182-200 | A registration gets a new slot exactly when no open slot is the same resource; otherwise it is answered the first that is, waits for it exactly if it is still starting, and nothing else changes |
| `HandleRegistry.ObjectionIsSameResource` | libparsec/src/client.rs:143-180 | A slot objects exactly when it is for the same device, the same client and realm, or the same mounted workspace |
| `HandleRegistry.FirstObjectionIsFirst` | libparsec/src/handle.rs:188-192 | The slot that answers a registration is the first that objects |
| `HandleRegistry.ScanSkipsNothing` | libparsec/src/handle.rs:215-228 | When no slot before the start concerns the target, the scan that skips them equals the full scan |
| `HandleRegistry.Registry.RegisterHandleWithInit` | libparsec/src/handle.rs:182-200 | Either nothing objects and a new handle is pushed, or the first objection decides; a concurrent start gets the caller as a listener |
| `HandleRegistry.Registry.RegisterHandle` | libparsec/src/handle.rs:202-208 | The handle is new and its slot holds the item |
| `HandleRegistry.Registry.Initialized` | libparsec/src/handle.rs:146-159 | Slot by slot: an open slot gets the started item, a closed one stays closed, all others are as before; woken are exactly the listeners of the starting item |
| `HandleRegistry.Registry.DropGuard` | libparsec/src/handle.rs:166-180 | Slot by slot: this one is closed, all others are as before |
| `HandleRegistry.Registry.FilterCloseHandles` | libparsec/src/handle.rs:215-228 | Matching slots from the start on are closed, the first starting one gets a listener, all others are as before |
| `HandleRegistry.Registry.TakeAndCloseHandle` | libparsec/src/handle.rs:240-270 | Taken exactly when open and of the expected kind; otherwise nothing changes |
| `StartStop.StepKeepsInv` | libparsec/src/workspace.rs:53-136 | Every locked step keeps the invariant: guards hold their slots, at most one slot per device, per client and realm and per mounted workspace, references come first, running clients own open slots, stopped clients are quiet, waiting tasks are listed |
| `StartStop.ScanMakesQuiet` | libparsec/src/client.rs:290-346 | When the scan of a client stop has nothing to wait for, nothing of the client is open and no start that borrowed it is left |
| `StartStop.StoppedClientStaysQuiet` | libparsec/src/client.rs:236-346 | After `client_stop` returned Ok, no workspace or history of the client is open, then or ever after |
| `StartStop.OneRunningClientPerDevice` | libparsec/src/client.rs:143-224 | In every reachable state two running clients are for different devices |
| `StartStop.OneSlotPerResource` | libparsec/src/workspace.rs:63-112 | In every reachable state at most one slot, open or starting, is for the same device, the same client and realm, or the same mounted workspace |
| `StartStop.GuardFindsItsItem` | libparsec/src/client.rs:199-219 | A guard always finds the starting item it registered, in a slot no other guard has, so the `unreachable!()` arms are not reached |
| `StartStop.StepEvolvesSlots` | libparsec/src/handle.rs:122-180 | A closed slot is not reopened, and a starting item is changed or closed by its own guard only |
| `StartStop.ClosedStaysClosed` | libparsec/src/handle.rs:122-139 | Over any run a closed handle stays closed |
| `StartStop.ScansMissNothing` | libparsec/src/workspace.rs:174-205 | Both stops' scans, which skip to the client, do what a full scan would do |
| `StartStop.WorkspaceStopIsComplete` | libparsec/src/workspace.rs:148-208 | In every reachable state, a step of a workspace stop that returns Ok leaves the workspace closed and none of its mountpoints open or starting |
| `StartStop.ClientStopIsComplete` | libparsec/src/client.rs:236-346 | In every reachable state, a step of a client stop that returns Ok leaves the client stopped and closed, and nothing that names it open or starting |
| `StartStop.StopsTouchTheirOwn` | libparsec/src/client.rs:290-346 | No step of a stop touches a slot that is not its own and does not name its client, or its workspace |
| `StartStop.FilterIff` | libparsec/src/client.rs:292-332 | What a stop closes is what names its client, or its workspace, and is started; what it waits for names it and is starting |
| `StartStop.SingleStopsCloseTheirSlot` | libparsec/src/workspace_history.rs:206-221 | Unmounting and stopping a history close the given slot if it is of that kind, and nothing else |
| `StartStop.StartReturnsOpenSlot` | libparsec/src/workspace.rs:53-136 | In every reachable state, a start that returns Ok leaves an open slot with what was to be started |
| `StartStop.FailedStartLeavesNothing` | libparsec/src/handle.rs:166-180 | In every reachable state, a start that fails after it registered leaves its slot closed |
| `RunningClients.StartedClientsRun` | libparsec/src/client.rs:182-279 | In every reachable state, a client being started with the device lock, or open and not about to be closed by its stop, is among the running ones |
| `StartStop.InitializingWakesListeners` | libparsec/src/workspace.rs:115-133 | A successful start notifies every task that waits for its slot |
| `Mountpoints.MountpointOpensIff` | libparsec/src/workspace.rs:291-389 | In every reachable state, a stopped client has or can still get a mountpoint if and only if one is open, or some mount of it is about to register, has registered without failing, or was woken to register again |
| `Mountpoints.StopLeavesNoMount` | libparsec/src/client.rs:290-346 | When a client stop returns, no mountpoint of the client is open or starting |
| `Mountpoints.StepKeepsMountInv` | libparsec/src/workspace.rs:295-358 | Every step keeps: mounts of one workspace name one client, a listener waits for the slot that lists it and for a reason, a notified task's slot is no longer starting, every starting slot has its guard |
| `Mountpoints.DroppedStartStrandsListeners` | libparsec/src/handle.rs:166-180 | Dropping a guard wakes nobody, and a task that listens to its slot waits over every further run |
| `Wakeups.CanWakeIff` | libparsec/src/handle.rs:146-180 | In every reachable state, a waiting task can still be woken if and only if it was notified, or the start it waits for is working, or is prepared and does not need a client that neither is open nor can still start |
| `Wakeups.ListenerCanBeStranded` | libparsec/src/client.rs:143-224 | A reachable state in which a start that did not get the device lock is being dropped while another waits for it, which no run wakes |
| `Mountpoints.StoppedClientCanGetAMountpoint` | libparsec/src/workspace.rs:295-358 | A reachable state with a stopped client and none of its mountpoints open, and a run from there that opens one |
| `InviteFlow.StepKeepsInv` | libparsec/src/invite.rs:210-289 | Calls, successes, failures, cancellations and aborts keep each chain's context in one place, at its latest stage |
| `InviteFlow.AtMostOneOpenDescendant` | libparsec/src/invite.rs:426-453 | Under any interleaving a chain has at most one open handle, and none while a call holds its context |
| `InviteFlow.ChainsAreBounded` | libparsec/src/invite.rs:799-829 | Stages rise with each success, so a chain has at most as many handles as there are stages |
| `InviteFlow.SuccessIsNextStage` | libparsec/src/invite.rs:426-453 | A success opens exactly one handle, of the same flow and chain and the next stage, and none after the last; giving up opens none |
| `InviteFlow.CallsCloseTheirHandle` | libparsec/src/invite.rs:210-289 | A call closes its handle and takes its context exactly when flow and stage fit; an abort closes any but the list of administrators; other handles stay |
| `EmailRateLimit.EmailRateLimiter.RegisterSendIntent` | server/parsec/email_rate_limit.py:39-89 | The pruned queue is always the accepted history of the last hour, and the answer is the one the whole history calls for |
| `EmailRateLimit.AcceptedIff` | server/parsec/email_rate_limit.py:59-89 | A mail may be sent exactly when none of the last hour to the recipient or from the known address is within the cooldown, and they are fewer than the maximum; that mail is then remembered |
| `EmailRateLimit.CooldownWaitIsTight` | server/parsec/email_rate_limit.py:72-76 | Refused for the cooldown, the same request stays too recent exactly until the announced time, or until an hour after the last mail |
| `EmailRateLimit.LimitWaitIsTight` | server/parsec/email_rate_limit.py:77-81 | Refused for the limit, all mails count exactly until the announced time, and fewer from then on |
| `EmailRateLimit.AcceptedAtWait` | server/parsec/email_rate_limit.py:77-81 | With exactly the maximum of mails, the same request at the announced time is accepted if nothing was meanwhile |
| `EmailRateLimit.HourlyLimitHolds` | server/parsec/email_rate_limit.py:59-81 | Over any run every hour holds at most the maximum of accepted mails, per recipient and per known address |
| `EmailRateLimit.CooldownHolds` | server/parsec/email_rate_limit.py:72-77 | Two accepted mails, the later sharing the earlier's recipient or known address, are the cooldown or one hour apart |
| `EmailRateLimit.WaitIsInTheFuture` | server/parsec/email_rate_limit.py:72-81 | A refused request is told a time strictly in the future |
| `EmailRateLimit.RefusedUntilWait` | server/parsec/email_rate_limit.py:72-81 | With a cooldown of at most one hour, the same request is refused until that time whatever comes in between |
| `EmailRateLimit.LongCooldownIsNotHonoured` | server/parsec/email_rate_limit.py:48-77 | With any longer cooldown a request is accepted before the announced time |
| `ReleaseVersion.ReadingParses` | misc/releaser.py:77-88 | Every preferred way to read a text as a version is what the parser returns for it, backtracking included |
| `ReleaseVersion.ParsedIsReading` | misc/releaser.py:117-151 | What the parser returns is a preferred reading of its text |
| `ReleaseVersion.ParserMeetsExpression` | misc/releaser.py:77-151 | The parser returns a version exactly for a preferred reading, and none exactly when there is no reading |
| `ReleaseVersion.ParsePrinted` | misc/releaser.py:197-208 | What is read from any printed version, with or without the `v` of a tag |
| `ReleaseVersion.RoundTrip` | misc/releaser.py:77-88 | Parsing the printed form gives the version back if and only if it has a development number or its local part is not `dev.` and digits |
| `ReleaseVersion.RoundTripCanFail` | misc/releaser.py:85-86 | `1.2.3+dev.5` comes back with a development number and no local part |
| `ReleaseVersion.ParsedIsStable` | misc/releaser.py:117-151 | Whatever is read from any text can be printed and read again |
| `ReleaseVersion.PrintIsInjective` | misc/releaser.py:263-275 | For all well-formed versions, equal texts mean equal fields, so `__eq__` is field equality |
| `ReleaseChain.LtIsLexicographic` | misc/releaser.py:277-313 | `__lt__` is the lexicographic order of the keys; unordered means equal keys |
| `ReleaseChain.LtIsStrictWeakOrder` | misc/releaser.py:277-313 | Irreflexive, transitive, and being unordered is transitive |
| `ReleaseChain.UnorderedIff` | misc/releaser.py:315-320 | `__le__` leaves two versions unordered exactly when they differ only in a missing or zero development number or in the text of the local part |
| `ReleaseChain.Repository.GenerateNextDevVersion` | misc/releaser.py:607-622 | The next version is above the released one even without its local part, which is `dev` |
| `ReleaseChain.NextDevFields` | misc/releaser.py:607-622 | Patch plus one and `a.0` for a release, index plus one for a pre-release, all else as before |
| `ReleaseChain.NextDevIsNext` | misc/releaser.py:607-622 | No version without development number and local part lies between a release and what its successor announces |
| `ReleaseChain.OutcomesMean` | misc/releaser.py:763-800 | Exactly when each refusal is returned, and what is released |
| `ReleaseChain.BuiltMeans` | misc/releaser.py:800-846 | The sources then read as the next version; the tag begins with `v` and reads as the release, unless skipped; a refusal changes nothing |
| `ReleaseChain.OrderExamples` | misc/releaser.py:353-369 | The examples the source asserts of its order |
| `ReleaseChain.Repository.Build` | misc/releaser.py:763-846 | The outcome and the new sources and tags of a build, refusals changing nothing |
| `ReleaseChain.AcceptedIff` | misc/releaser.py:777-800 | Exactly which explicit versions a build accepts |
| `ReleaseChain.AcceptsWhatIsNotNewer` | misc/releaser.py:785-794 | With `1.2.3+dev` in the sources, `1.2.3+foo` is released, though it is neither newer nor the announced version |
| `ReleaseChain.ReleasedReadsBack` | misc/releaser.py:411-424 | The tag and the next version of the sources read back as what was written |
| `ReleaseChain.CodeMovesForward` | misc/releaser.py:763-846 | A build that releases moves the sources above the release and above where they were |
| `ReleaseChain.TagsIncrease` | misc/releaser.py:763-846 | Over any sequence of builds from any sources, each tag is strictly above all earlier ones |
| `ShortId.PairSizeIsPrefix` | cli/src/utils.rs:75-83 | Leading zeros of the exclusive or, divided by four, plus one is the common hexadecimal prefix plus one |
| `ShortId.SizeIsLongestPrefix` | cli/src/utils.rs:61-88 | The size is the longest common prefix of two ids plus one, within 3 to 32 |
| `ShortId.SizeIsLeastSeparating` | cli/src/utils.rs:61-88 | Among the sizes 3 to 32, those that tell distinct ids apart are exactly those from the computed one on |
| `ShortId.FormatDevices` | cli/src/utils.rs:40-59 | One line per device, in order, with its short id |
| `ShortId.FoundIff` | cli/src/utils.rs:139-173 | A prefix finds a device exactly when that device alone has it |
| `ShortId.DisplayedShortIdResolves` | cli/src/utils.rs:107-173 | Every short id a failed look-up displays, for all devices or for those sharing the prefix, finds its device among all |
| `ShortId.ColouredTextResolves` | cli/src/utils.rs:40-173 | The coloured text of each line that a failed look-up prints, typed in, finds the device of that line |
| `ShortId.ListingHasLines` | cli/src/utils.rs:40-59 | The listing is the lines of the devices, in order |
| `ShortId.ErrorsMean` | cli/src/utils.rs:139-173 | Exactly when each error is returned, and with which devices |
| `ShortId.PossibleKeepsOrder` | cli/src/utils.rs:147-169 | The devices that share a prefix are listed in the order of all |
| `ExtractFile.Extract` | server/parsec/sequester_export_reader.py:284-358 | The file is the blocks written in turn, up to a first block without a key, but for those the file system refuses; what is reported, from the opening to the closing, and what is raised |
| `ExtractFile.LastWriterWins` | server/parsec/sequester_export_reader.py:302-347 | For any blocks, each byte comes from the last readable block that covers it, and is zero when none does |
| `ExtractFile.LengthIsLastEnd` | server/parsec/sequester_export_reader.py:302-347 | The exact length: the greatest of the manifest's size and the ends of all non-empty writes |
| `ExtractFile.FileIsItsBlocks` | server/parsec/sequester_export_reader.py:302-347 | For blocks in range and apart: the size is the manifest's, each byte is that of the readable block covering it, others are zero |
| `ExtractFile.FileIsClearData` | server/parsec/sequester_export_reader.py:310-340 | For any blocks, each byte is that of the decrypted data of the last block that reaches it, and zero when none does |
| `ExtractFile.FileOfApartBlocks` | server/parsec/sequester_export_reader.py:302-347 | For blocks in range and apart: the decrypted data where there is some, zero elsewhere, and the size of the manifest |
| `ExtractFile.ReportsMean` | server/parsec/sequester_export_reader.py:304-347 | A block is reported missing, undecipherable or not written exactly when there is such a block |
| `ExtractFile.ReportsAnnounceAll` | server/parsec/sequester_export_reader.py:304-309 | Every block is announced |
| `ExtractFile.RefusalsKeepShape` | server/parsec/sequester_export_reader.py:329-345 | Blocks that cannot be written leave the others in range and apart, and cover nothing |
| `ExtractFile.OrderDoesNotMatter` | server/parsec/sequester_export_reader.py:302-347 | Such blocks give the same file in any order |

## Left out

- The in-memory backend: uploads, base information and batches follow the PostgreSQL code; rows are assumed to become visible in the order of their ids, and the checks for a greater timestamp, made under the topics' locks, are one step with the insertion.
- Refusals of uploads that do not look at timestamps, versions or ids: authors, roles, key indexes, expired organizations, sequester services. Certificates of revocation and sharing, which must also be later than the last vlob, are accepted like other certificates of their topic.
- Nothing but rows, certificates and key material: other realms, a vlob's place in the realm's update index, and secondary uniqueness constraints.
- `BALLPARK_ALWAYS_OK`, a switch that turns the ballpark check off.
- RealmExport.ConnectOrCreate: databases that are not of the expected format, and a kill during the creation of the database.
- BlockFetch.Retry: retries are an event that may come at any time after a failure; their number and delays, and whether an exception group reaches the handler, are not modelled.
- Progress reports of the export and the byte counter of the block data phase.
- Handles are unbounded numbers, not 32-bit ones, and callers pass only handles that were issued to them; a scan would not see what was started with a guessed handle.
- Cancellation handles, the Shamir recovery flow, SAS codes, and everything a step function does with its context.
- EmailRateLimit: wall-clock time that goes back; the limiter is given requests in order of time.
- Versions parsed from `git describe`, nightly builds, comparison with tuples, and a release whose commit or tag fails half-way; builds are taken on one line of history.
- `format_single_device`, which always shows three digits, and a formatter that fails.
- ExtractFile.Extract: a write that the file system refuses is taken to leave the file alone, not half written.
- Manifests, folders, decryption and certificate validation of the export reader; wrappers over other crates; server plumbing; user interfaces.
