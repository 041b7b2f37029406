# Verified model of the panel's services

A Dafny model of the services that move the panel's rows through their states, and proofs of
what those services keep, undo and promise over whole runs. Services and models that update
their fields are classes here, tables are maps, and a thrown exception is a `Failure` that
leaves the tables as they were. Verify with `dafny verify dfyconfig.toml`.

| modules | part of the panel |
|---|---|
| `Database`, `PortStrings`, `Assignment`, `AutoAssign`, `Selection`, `Build`, `Transfers`, `Creation`, `Deletion`, `AllocationRuns` | who owns which allocation |
| `Backups` | throttle, limit, rotation and locks of backups |
| `Schedules`, `ScheduleRuns`, `ScheduleChains`, `ScheduleRepeats`, `ScheduleLists` | the chain of jobs of a schedule, edits of its tasks and its switch |
| `Webhooks` | the webhook cache |
| `Placeholders`, `ConfigFiles`, `Eggs` | placeholders in egg configuration, change of egg, environment |
| `SortedStrings`, `Subusers` | subusers and their permissions |
| `Paths` | path resolution of the file manager |
| `Wrappers`, `FiniteSets` | `Option`, `Result`, cardinalities |

What each operation does is stated twice: by the functions that its methods are proved against, and by a law that says
what these functions do to each row and when, on the columns of the tables alone.

Main results:

- **Allocations.** (node, ip, port) is unique, every owner exists, every server owns its default
  allocation, no server has two open transfers. Each of ten kinds of calls keeps this exactly when it is
  *safe*; over any run it holds throughout exactly when every step was safe. Bulk and automatic
  assignment, build changes, transfer starts, releases and both deletions are always safe. A creation
  is safe exactly when it lists no server's default allocation, because
  `storeAssignedAllocations` does not ask who has an allocation; a transfer report is safe exactly when what it
  gives back holds no needed default.
- **Backups.** The sliding window and the cap hold over all runs exactly when no failed backup is later reported
  successful without room; a counterexample shows that the daemon can do so. Rotation is a bounded queue.
- **Schedules.** The flags describe the queue in all states of a run exactly when chains start only on
  idle schedules, nobody deletes the task of a pending job, and nobody switches a schedule on or off through the API
  while it has one. Counterexamples show that a deleted task strands its schedule, that the switch frees it again, and
  that the same switch during a chain admits a second one. While users only insert and delete tasks, a chain
  sends each task at most once and in order, and every task that stays. However the workers go on, ids ascend
  exactly as long as every edit keeps the pending id ahead, and no task is sent twice exactly as long as every edit keeps
  the sent tasks before the pending one; counterexamples show that deleting or moving a task through the API can fail these.
- **Webhooks.** Which events a hook has to refresh is characterised. Every dispatch between two operations fires what the
  direct query names. The one that a save makes before its hook does so exactly when what it reads is
  fresh, or unchanged by the save.
- **Eggs.** Replacing one key at a time is simultaneous substitution; a round trip of eggs keeps a value exactly when
  both eggs know its name or it was the default.
- **Subusers.** Deleting the first match suffices exactly when there is at most one; every permission has a
  chain of grants back to the owner or to a role.
- **Paths.** Resolution is idempotent and composes.

Where the code and its comments differ, the model follows the code:

- `AllocationSelectionService::setNodes` says that an empty list stands for all nodes; the query selects nothing then.
- `BuildModificationService` speaks of the first *provided* value of `add_allocations`; it takes the first row the query returns.
- `ProcessScheduleService` speaks of servers that are stopping or offline; `isOffline` covers the states offline and
  missing only. The model takes the verdict as an input.
- The validation rule on ports (1024 to 65535) also catches descending ranges such as `66000-65500`, which pass the
  check in `AssignmentService`.

## Model

| member | source | states |
|---|---|---|
| Database.Panel.Release | app/Models/Allocation.php:76-88 | a release (owner and notes set to null, as the client area asks for) is vetoed silently exactly for a server's default allocation; otherwise that row alone changes and the invariant is kept |
| Database.ReleaseKeepsInvIff | app/Models/Allocation.php:76-88 | releasing a row keeps the allocation invariant if and only if no server has it as its default: the veto is neither too weak nor too strong |
| Database.Panel.DeleteAllocation | app/Models/Allocation.php:72-74 | a row is deleted exactly when it is unassigned, and the invariant is kept |
| Database.NoSharedDefault | app/Models/Server.php:175 | the invariant implies that no two servers share a default allocation |
| PortStrings.RangeIsUnambiguous | app/Services/Allocations/AssignmentService.php:28 | a string that matches the range expression does so with one position of the dash only, and is never a plain number |
| PortStrings.DecimalReadsBack | app/helpers.php:8-11 | writing a number out and reading it back is the identity, and the text passes `is_digit` |
| PortStrings.RangeReadsBack | app/Services/Allocations/AssignmentService.php:28 | two numbers written with a dash between them, and perhaps a final newline, are read as that range exactly when both have four or five digits, and are never a plain number |
| Assignment.AtMost128Addresses | app/Services/Allocations/AssignmentService.php:46-51 | a usable address stands for 1 to 128 addresses, all distinct |
| Assignment.NetworkHoldsIff | app/Services/Allocations/AssignmentService.php:46-64 | a network is usable exactly with 25 to 32 bits, and its addresses are exactly those that agree with its base in these bits, in ascending order |
| Assignment.EntryOfPort | app/Services/Allocations/AssignmentService.php:69-101 | one number as typed is its port exactly from 1024 to 65535 |
| Assignment.EntryOfRange | app/Services/Allocations/AssignmentService.php:69-99 | a range as typed gives the ports from its first number to its second, in that order, exactly when they are less than a thousand apart, the first at least 1024 and the second at most 65535; otherwise which error |
| Assignment.PortsCount | app/Services/Allocations/AssignmentService.php:74-83 | the number of ports is the sum of the block sizes, and each block has 1 to 1000 ports |
| Assignment.CreateRow | app/Models/Allocation.php:61-68 | a row is accepted exactly when its port is in range and its (node, ip, port) is free, and then gets the next identifier |
| Assignment.CreateEntry | app/Services/Allocations/AssignmentService.php:69-111 | one entry of the list succeeds exactly when it parses and the table accepts all its rows; which error it raises otherwise |
| Assignment.Handle | app/Services/Allocations/AssignmentService.php:44-118 | all or nothing: success exactly when the address is usable, every entry parses and every row is accepted; failure leaves all tables unchanged and raises the error of the first entry that does not parse, unless a row was refused before; the invariant is kept |
| Assignment.BulkAssignmentResult | app/Services/Allocations/AssignmentService.php:66-117 | a success adds exactly (addresses times sum of block sizes) new rows under the distinct identifiers it returns, keeps all old rows and the unique key, and every new port is in range |
| Assignment.BulkAssignmentOrder | app/Services/Allocations/AssignmentService.php:66-111 | the row at place i * ports + j has address i, port j, and the node, alias and owner of the call |
| AutoAssign.Handle | app/Services/Allocations/FindAssignableAllocationService.php:29-50 | an unassigned row at the server's address is preferred, else one is created; exactly when each error occurs; failure changes nothing |
| AutoAssign.CreateNewAllocation | app/Services/Allocations/FindAssignableAllocationService.php:63-108 | NoSpace exactly when no port of the range is available; otherwise a row on one of them, or the stated error when that port is out of range or used |
| AutoAssign.OneMore | app/Services/Allocations/FindAssignableAllocationService.php:29-50 | the server owns exactly one allocation more, at its node and address; all other servers keep theirs; the invariant is kept |
| AutoAssign.WhichRowIsGiven | app/Services/Allocations/FindAssignableAllocationService.php:29-108 | it is an unassigned row on the node and at the address of the default allocation exactly when there is one, changed in its owner only; otherwise a new row without alias and notes on a port of the range, from 1024 to 65535, that no row there has |
| AutoAssign.OrdinaryRange | app/Services/Allocations/FindAssignableAllocationService.php:77-87 | for a range within 1024 to 65535 every available port can be created, and none is available exactly when each has a row at the address |
| AutoAssign.NeverRefusedIff | app/Services/Allocations/FindAssignableAllocationService.php:77-92 | no picked port is ever refused if and only if each port of the range can be created or, in an ascending range, is used: a descending one offers used ports again |
| Selection.AllocationSelectionService.SetPorts | app/Services/Deployment/AllocationSelectionService.php:55-77 | the stored list accepts a port exactly when some entry as typed names it, or nothing in the list can be read; one range that is too wide refuses the list and keeps the old one |
| Selection.TypedEntries | app/Services/Deployment/AllocationSelectionService.php:55-77 | a number names its port; a range names the ports between its numbers, the smaller one first; and it is too wide when they are more than a thousand apart |
| Selection.AllocationSelectionService.Handle | app/Services/Deployment/AllocationSelectionService.php:84-137 | the answer is one of the eligible allocations, and it fails exactly when there is none: unassigned, on a listed node, on a wanted port and, if dedicated, at an address nobody uses on those nodes |
| Selection.EligibleIff | app/Services/Deployment/AllocationSelectionService.php:99-137 | row by row who can be chosen: unassigned, on a listed node, on a port some entry names unless no entry can be read, and, if dedicated, at an address where nobody has a row on these nodes |
| Selection.AllocationSelectionService.Conditions | app/Services/Deployment/AllocationSelectionService.php:107-122 | the collected conditions hold of a port exactly when it matches a kept port or range |
| Selection.AllocationSelectionService.Discardable | app/Services/Deployment/AllocationSelectionService.php:150-162 | exactly the addresses in use on the nodes, or anywhere when there are no nodes |
| Selection.NoNodesNoChoice | app/Services/Deployment/AllocationSelectionService.php:103-105 | an empty list of nodes makes no allocation eligible |
| Selection.PlacingKeepsApartIff | app/Services/Deployment/AllocationSelectionService.php:124-132 | a placement keeps servers on separate (node, ip) pairs if and only if nobody else is assigned there |
| Selection.DedicatedRunsKeepApart | app/Services/Deployment/AllocationSelectionService.php:139-162 | runs of dedicated placements, with any nodes and ports, and deletions never put two servers on one (node, ip) |
| Build.ProcessAllocations | app/Services/Servers/BuildModificationService.php:90-138 | fails exactly when the wanted default is removed and nothing is added; otherwise the rows are as added and removed, and the default left in the request is a freshly added row if the wanted one is removed |
| Build.Handle | app/Services/Servers/BuildModificationService.php:32-58 | success exactly for the requests in `Accepts`, with the stated tables; failure leaves everything unchanged; the invariant is kept |
| Build.GainedAndLostIff | app/Services/Servers/BuildModificationService.php:98-136 | in columns of the tables: an allocation is gained exactly when it is asked for, unassigned and on the server's node, and lost exactly when it is owned, on that node, and to be removed but not added; both lose their notes and no other row changes |
| Build.DefaultAfter | app/Services/Servers/BuildModificationService.php:37-58 | the default left is the one asked for, or the present one; if that is to be removed, one of the allocations gained; nothing else of any server changes |
| Build.AcceptsIffPossible | app/Services/Servers/BuildModificationService.php:37-42 | a request is accepted exactly when such a default keeps all tables consistent |
| Build.OnlyTheSetsMatter | app/Services/Servers/BuildModificationService.php:90-138 | order and repetition in the two lists do not affect acceptance, the possible defaults or the resulting tables |
| Build.DefaultKeepsInvIff | app/Services/Servers/BuildModificationService.php:37-58 | a final default keeps the invariant if and only if it is among the allocations owned afterwards |
| Transfers.Start | app/Services/Servers/TransferServerService.php:44-94 | which of the four outcomes occurs; only a full success changes the tables; the invariant is kept |
| Transfers.AssignAllocations | app/Services/Servers/TransferServerService.php:101-124 | the server gets exactly the requested allocations that are unassigned on the target node |
| Transfers.StartKeepsInvIff | app/Models/Server.php:407-416 | a start keeps the invariant if and only if the server has no open transfer, which is what the state check demands |
| Transfers.CanTransferIff | app/Models/Server.php:407-416 | a start is possible exactly when the server is not installing, not failed to install, not restoring a backup, and all its transfers have an outcome |
| Transfers.Fail | app/Http/Controllers/Api/Remote/Servers/ServerTransferController.php:31-39 | a report for a server without an open transfer is refused; otherwise the latest open transfer fails and its new allocations are released, and when that keeps the invariant |
| Transfers.Succeed | app/Http/Controllers/Api/Remote/Servers/ServerTransferController.php:46-69 | refused without an open transfer; rolled back exactly when the moved server row is invalid; otherwise old allocations released and server moved, and when that keeps the invariant |
| Transfers.FailKeepsInvIff | app/Http/Controllers/Api/Remote/Servers/ServerTransferController.php:91-101 | a failed transfer keeps the invariant if and only if none of its new allocations is a server's default |
| Transfers.SucceedKeepsInvIff | app/Http/Controllers/Api/Remote/Servers/ServerTransferController.php:54-69 | a successful one keeps it if and only if the new default is owned and not given back, and no other server's default is given back |
| Transfers.SuccessMovesTheServer | app/Http/Controllers/Api/Remote/Servers/ServerTransferController.php:46-69 | after a start and a success the server is on the target node with the target default, its former allocations are free, the free ones of the target are its own, the transfer is stored as successful, and nothing else of any table changes |
| Transfers.FailureMovesNobody | app/Http/Controllers/Api/Remote/Servers/ServerTransferController.php:91-101 | after a start and a failure every server is where it was, the transfer is stored as failed, and exactly the requested allocations have no owner, whoever had them |
| Transfers.StartThenFailRestoresIff | app/Http/Controllers/Api/Remote/Servers/ServerTransferController.php:91-101 | start and failure restore the allocation table if and only if every requested allocation was unassigned |
| Transfers.StartThenFailKeepsInvIff | app/Http/Controllers/Api/Remote/Servers/ServerTransferController.php:91-101 | start and failure keep the invariant if and only if no requested allocation was a server's default |
| Transfers.StartThenSucceedKeepsInvIff | app/Http/Controllers/Api/Remote/Servers/ServerTransferController.php:54-69 | start and success keep the invariant if and only if the new default was free on the target node; the server then owns exactly what was reserved |
| Creation.ConfigureDeployment | app/Services/Servers/ServerCreationService.php:125-138 | the answer is eligible for the nodes, the ports as typed and the dedicated flag; it fails exactly when a range is too wide or nothing is eligible, and with which error |
| Creation.Place | app/Services/Servers/ServerCreationService.php:70-83 | with a deployment a suitable unassigned allocation and its node, or the reason why there is none; without one the node of the allocation unless a node is named; the errors |
| Creation.Persist | app/Services/Servers/ServerCreationService.php:94-102 | the transaction writes server, ownership and variables, or nothing when the default allocation does not exist or is taken |
| Creation.StoreVariables | app/Services/Servers/ServerCreationService.php:199-207 | the loop stores the list as the next row describes, and nothing else |
| Creation.StoredValue | app/Services/Servers/ServerCreationService.php:199-207 | each listed variable is stored under the server with its value, a missing one as the empty string, the last of several counting |
| Creation.Handle | app/Services/Servers/ServerCreationService.php:55-115 | the answer and the tables in every case; when the daemon cannot be reached the tables are those of a creation followed by a deletion, however the cleanup call ends; after any other failure of the daemon the server stays |
| Creation.ServerGoesWhereAsked | app/Services/Servers/ServerCreationService.php:70-112 | without a deployment: the node, default allocation and status of the new row, when there is a row at all, and which error otherwise, for every answer of the daemon |
| Creation.RowsOfANewServer | app/Services/Servers/ServerCreationService.php:184-207 | exactly the chosen allocations change owner, to the server or to nobody if the daemon could not be reached, whoever had them; variables of other servers, transfers and databases stay |
| Creation.CreateKeepsInvIff | app/Services/Servers/ServerCreationService.php:184-194 | a creation keeps the invariant if and only if no chosen allocation is another server's default |
| Creation.CreationCanStealADefault | app/Services/Servers/ServerCreationService.php:184-194 | listing another server's default as additional allocation takes it away and breaks the invariant, for all tables |
| Creation.CreateThenDeleteRestoresIff | app/Services/Servers/ServerDeletionService.php:61-82 | creation followed by deletion restores every table if and only if the chosen allocations were unassigned |
| Creation.FailedCreationLeavesNoTraceIff | app/Services/Servers/ServerCreationService.php:104-112 | a creation whose daemon cannot be reached leaves all tables as they were if and only if the chosen allocations were unassigned |
| Creation.FailedCreationKeepsInvIff | app/Services/Servers/ServerCreationService.php:104-112 | and it keeps the invariant if and only if it took no server's default |
| Deletion.ServerDeletionService.Handle | app/Services/Servers/ServerDeletionService.php:42-83 | success exactly when the daemon does not stand in the way or the deletion is forced, and every database was dropped or it is forced; failure changes nothing; the invariant is kept |
| Deletion.ServerDeletionService.DropDatabases | app/Services/Servers/ServerDeletionService.php:62-77 | the loop completes exactly when forced or all databases can be dropped, and then no database of the server is left |
| Deletion.DeletionKeepsInv | app/Services/Servers/ServerDeletionService.php:61-82 | deleting a server keeps the invariant and leaves no allocation, open transfer, variable or database of it |
| Deletion.OnlyTheServerGoes | app/Services/Servers/ServerDeletionService.php:61-82 | the allocations of the server lose their owner only, and every row that is not its own stays, in all five tables |
| AllocationRuns.StepKeepsInvIff | app/Models/Allocation.php:70-89 | each of the ten kinds of calls keeps the invariant if and only if it is safe |
| AllocationRuns.RunsKeepInvIff | app/Models/Allocation.php:70-89 | over any run the invariant holds in all states if and only if every step was safe |
| AllocationRuns.OrdinaryRunsKeepInv | app/Services/Servers/TransferServerService.php:62-79 | it holds over all runs in which creations use unassigned allocations and transfer reports give back nobody else's allocations and no needed default; all other calls may be mixed freely |
| AllocationRuns.FailureTakesAReservedDefault | app/Http/Controllers/Api/Remote/Servers/ServerTransferController.php:91-101 | for every server in transfer: making a reserved allocation the default is accepted, and the failure report then breaks the invariant |
| Backups.DeleteBackupService.Handle | app/Services/Backups/DeleteBackupService.php:30-63 | deleted exactly when not a locked, completed, successful backup and the storage accepts; a missing archive is accepted from the daemon but not from S3; soft delete or no change |
| Backups.DeletedIff | app/Services/Backups/DeleteBackupService.php:30-63 | a deletion takes a backup exactly when it is unlocked, failed or unfinished, and the storage has deleted it or, on a daemon only, does not know it; no other row and no other column changes |
| Backups.InitiateBackupService.SetIgnoredFiles | app/Services/Backups/InitiateBackupService.php:48-64 | the non-empty names, in order |
| Backups.InitiateBackupService.Handle | app/Services/Backups/InitiateBackupService.php:73-129 | throttle, limit, eviction of an oldest unlocked live backup and creation, with the outcome for every reply of the daemon |
| Backups.InitiatedIff | app/Services/Backups/InitiateBackupService.php:75-129 | on columns of the table, when an initiation succeeds and when each error occurs: throttle, limit, permission to override, an unlocked backup to delete, its storage, the daemon; the one deleted is an oldest unlocked one |
| Backups.RowsAfterInitiation | app/Services/Backups/InitiateBackupService.php:94-129 | the row of the new backup exactly on success, the deleted one even if the daemon then refuses, and no other change |
| Backups.WindowStepIff | app/Services/Backups/InitiateBackupService.php:75-90 | one event keeps the bound on all windows if and only if it does not revive a failed backup where a window is full |
| Backups.SlidingWindowIff | app/Services/Backups/InitiateBackupService.php:75-90 | with fixed throttle and monotonic clock, in all states of a run every closed window of `period` holds at most `limit` non-failed backups, deleted ones included, if and only if every revival had room |
| Backups.SlidingWindow | app/Services/Backups/InitiateBackupService.php:75-90 | in particular when failed backups stay failed, with overrides, deletions and locks mixed in freely |
| Backups.RevivalBreaksTheWindow | app/Http/Controllers/Api/Remote/Backups/BackupStatusController.php:49-68 | a concrete run from the empty table, with one throttle and an ascending clock, in which a late success report without room puts two backups into a window for one |
| Backups.CapStep | app/Services/Backups/InitiateBackupService.php:94-110 | an initiation leaves at most max(limit, count before) live non-failed backups, and no other event but a revival adds one |
| Backups.CapHoldsIff | app/Services/Backups/InitiateBackupService.php:94-110 | under a fixed limit the count never exceeds it, or the count at the start, if and only if no backup is revived at the cap |
| Backups.LockedBackupSurvives | app/Services/Backups/DeleteBackupService.php:38-62 | a locked successful backup keeps its row unchanged through every run that does not unlock it |
| Backups.LockAfterRevival | app/Http/Controllers/Api/Remote/Backups/BackupStatusController.php:49-68 | a late report of success finds the backup unlocked after a report of failure, but with its lock after the command that prunes orphans |
| Backups.RotationIsFifo | app/Services/Backups/InitiateBackupService.php:94-128 | after any number of overriding initiations the live backups are exactly the last `limit` created, other servers doing anything in between |
| Schedules.Scheduler.Process | app/Services/Schedules/ProcessScheduleService.php:22-73 | starts with a task of the smallest sequence id; flags, queue and error for every mix of online check, immediate run and outcome |
| Schedules.Scheduler.RunTask | app/Jobs/Schedule/RunTaskJob.php:32-84 | when the job throws, and the flags and queue when it does not |
| Schedules.Scheduler.QueueNextTask | app/Jobs/Schedule/RunTaskJob.php:98-115 | queues a task with the smallest larger sequence id, or marks the schedule complete when there is none |
| Schedules.Scheduler.Failed | app/Jobs/Schedule/RunTaskJob.php:89-93 | the task is not queued and the schedule not processing |
| Schedules.Scheduler.Work | app/Jobs/Schedule/RunTaskJob.php:32-115 | a job taken by a worker runs, and cleans up when it throws; a job whose task is gone is dropped without touching any flag |
| Schedules.Scheduler.StoreTask | app/Http/Controllers/Api/Client/Servers/ScheduleTaskController.php:56-90 | a new task gets the place asked for, at least 1 and at most the end of the list, and the tasks from there on move back by one |
| Schedules.Scheduler.UpdateTask | app/Http/Controllers/Api/Client/Servers/ScheduleTaskController.php:118-145 | a task moves to the place asked for, and the tasks between its old and new place by one |
| Schedules.Scheduler.DeleteTask | app/Http/Controllers/Api/Client/Servers/ScheduleTaskController.php:175-178 | the task goes and the later ones move up by one |
| Schedules.Scheduler.RemoveTask | app/Filament/Server/Resources/ScheduleResource/RelationManagers/TasksRelationManager.php:118-123 | the task goes and all others stay in place |
| Schedules.Scheduler.ReorderTasks | app/Filament/Server/Resources/ScheduleResource/RelationManagers/TasksRelationManager.php:84 | every task of the schedule gets its position in the given order |
| ScheduleLists.EditKeepsNumberingIff | app/Http/Controllers/Api/Client/Servers/ScheduleTaskController.php:56-178 | an edit keeps the sequence ids exactly the numbers from 1 to the number of tasks if and only if it does not move a task beyond the end, nor delete one before the last in the panel |
| ScheduleLists.EditPutsTaskAt | app/Http/Controllers/Api/Client/Servers/ScheduleTaskController.php:56-145 | in such a list, the row of a new task, its place being the one asked for or the nearest end, and the row of a moved one; a new order is the numbering |
| ScheduleLists.OthersKeepOrder | app/Http/Controllers/Api/Client/Servers/ScheduleTaskController.php:72-178 | all other tasks keep their order, and other schedules their rows |
| Schedules.Scheduler.UpdateSchedule | app/Http/Controllers/Api/Client/Servers/ScheduleController.php:119-141 | the switch takes the value given, and `is_processing` is cleared exactly when the switch changes |
| Schedules.Scheduler.DeleteSchedule | app/Http/Controllers/Api/Client/Servers/ScheduleController.php:175-177 | the schedule and its tasks go, its jobs stay in the queue |
| ScheduleRuns.StartKeepsFlagsIffIdle | app/Services/Schedules/ProcessScheduleService.php:31-38 | a start keeps the flags right if and only if the schedule was idle |
| ScheduleRuns.FlagsHoldIff | app/Jobs/Schedule/RunTaskJob.php:38-93 | in all states of a run with starts, jobs, edits of tasks and changes of schedules of any kind, `is_processing` holds exactly while one live job is pending and exactly its task is `is_queued`, if and only if every chain started on an idle schedule, no edit deleted the task of a pending job, and no schedule with pending jobs was switched on or off through the API |
| ScheduleRuns.FlagsOfStepIff | app/Jobs/Schedule/RunTaskJob.php:38-93 | the same for one event and one schedule |
| ScheduleRuns.DeletedPendingTaskStrandsSchedule | app/Http/Controllers/Api/Client/Servers/ScheduleTaskController.php:175-178 | deleting the task of any pending job leaves its schedule processing with no live job and nothing queued, also after the job is dropped |
| ScheduleRuns.SwitchIsRightIff | app/Http/Controllers/Api/Client/Servers/ScheduleController.php:135-141 | after an update through the API that switches the schedule on or off the flags are right if and only if it has no pending live job and no queued task, whatever `is_processing` was before |
| ScheduleRuns.SwitchFreesStrandedSchedule | app/Http/Controllers/Api/Client/Servers/ScheduleController.php:135-141 | a stranded schedule is idle again after such an update: the reset does what its comment says |
| ScheduleRuns.SwitchWhilePendingAdmitsASecondChain | app/Console/Commands/Schedule/ProcessRunnableCommand.php:20-25 | switching any schedule off and on again through the API while its job is pending lets the scheduler select it, and a queued start that is not held back then leaves two live jobs |
| ScheduleRuns.ChainEndsIff | app/Jobs/Schedule/RunTaskJob.php:38-93 | a job ends its chain if and only if the schedule is inactive and the run not manual, the server has a status, the failure is not tolerated or no task is left; the schedule is then idle with no job and no queued task, and otherwise has exactly the next job |
| ScheduleRuns.JobHandsOnIff | app/Jobs/Schedule/RunTaskJob.php:32-115 | on columns: a job queues the nearest later task, with the same manual flag, exactly when the schedule is active or the run manual, the server has no status, the action succeeds or its connection fails on a task that continues, and there is a later task; otherwise the schedule is complete; nothing else changes |
| ScheduleRuns.StartHandsOnIff | app/Services/Schedules/ProcessScheduleService.php:22-73 | the same for a start: a task with the smallest sequence id, held back, queued, or run at once as a manual job |
| ScheduleRuns.StartEndsIff | app/Services/Schedules/ProcessScheduleService.php:40-72 | the same for a chain that ends at its start: offline server, or an immediate run that fails, is refused or was the only task |
| ScheduleChains.SentIff | app/Jobs/Schedule/RunTaskJob.php:38-68 | on columns, which task an event sends an action of |
| ScheduleChains.ChainAscends | app/Jobs/Schedule/RunTaskJob.php:98-115 | the sequence ids sent within a chain strictly increase as long as every edit keeps the pending id ahead of those sent |
| ScheduleChains.EditKeepsAheadIff | app/Http/Controllers/Api/Client/Servers/ScheduleTaskController.php:72-178 | for each kind of edit, when it keeps the pending sequence id ahead of all that were sent, as an if-and-only-if over the table before it: insertions and gaps always do, closing a gap before the pending task needs another gap |
| ScheduleChains.ChainAheadIff | app/Http/Controllers/Api/Client/Servers/ScheduleTaskController.php:72-178 | the pending id is ahead in all states of a chain if and only if every edit keeps it there |
| ScheduleChains.SequencesStayDistinct | app/Http/Controllers/Api/Client/Servers/ScheduleTaskController.php:72-178 | no edit ever gives two tasks of a schedule the same sequence id |
| ScheduleChains.ChainSendsInOrder | app/Jobs/Schedule/RunTaskJob.php:98-115 | while users only insert and delete, with or without closing gaps, a chain sends each task at most once, and the sent tasks that are left stand in the order in which they were sent |
| ScheduleChains.EditKeepsBehindIff | app/Http/Controllers/Api/Client/Servers/ScheduleTaskController.php:118-145 | an edit keeps all sent tasks before the pending one if and only if it does not move a sent task past it, nor the pending one before a sent one |
| ScheduleChains.ChainBehindIff | app/Http/Controllers/Api/Client/Servers/ScheduleTaskController.php:118-145 | the sent tasks stay before the pending one in all states of a chain if and only if every edit keeps them there |
| ScheduleChains.ChainSendsOnce | app/Jobs/Schedule/RunTaskJob.php:98-115 | under that condition a chain sends each task at most once, moves included |
| ScheduleChains.ChainRunsEverySurvivor | app/Jobs/Schedule/RunTaskJob.php:98-115 | a finished chain without failures has sent every task that was there at the start and still is, whatever was inserted or deleted meanwhile |
| ScheduleChains.ChainRunsEveryTaskIffDistinct | app/Jobs/Schedule/RunTaskJob.php:98-115 | a finished chain without failures and edits ran tasks in ascending order, each at most once, and ran every task if and only if sequence ids are distinct |
| ScheduleChains.HandoverShrinks | app/Jobs/Schedule/RunTaskJob.php:98-115 | the number of tasks with a larger sequence id falls with every handover |
| ScheduleChains.ChainIsBounded | app/Jobs/Schedule/RunTaskJob.php:98-115 | a chain sends at most as many actions as there were tasks and task ids have been handed out since, unless moves make it repeat |
| ScheduleRepeats.AheadIffAlwaysAscends | app/Jobs/Schedule/RunTaskJob.php:98-115 | for all states with at most one live job: the ids sent ascend, however workers go on, if and only if the pending id is ahead of those sent |
| ScheduleRepeats.ChainAscendsIff | app/Http/Controllers/Api/Client/Servers/ScheduleTaskController.php:72-178 | the ids that a chain sends ascend, however workers go on from any of its states, if and only if every edit keeps the pending id ahead |
| ScheduleRepeats.ClosingTheGapRepeatsAnId | app/Http/Controllers/Api/Client/Servers/ScheduleTaskController.php:175-178 | a concrete chain over tasks 1 and 2 that sends both as sequence id 1, because task 1 is deleted through the API in between |
| ScheduleRepeats.BehindIffNeverRepeats | app/Jobs/Schedule/RunTaskJob.php:98-115 | for all states with at most one live job and distinct sequence ids: no task is sent twice, however workers go on, if and only if all sent tasks stand before the pending one |
| ScheduleRepeats.ChainSendsOnceIff | app/Http/Controllers/Api/Client/Servers/ScheduleTaskController.php:118-145 | a chain sends no task twice, however workers go on from any of its states, if and only if every edit keeps the sent tasks before the pending one |
| ScheduleRepeats.MovedTaskIsSentAgain | app/Http/Controllers/Api/Client/Servers/ScheduleTaskController.php:118-145 | for all tables: a sent task that is moved to the place of the pending one comes next after it, and is sent twice in a run in which workers just go on |
| Webhooks.RefreshSufficesIff | app/Models/WebhookConfiguration.php:58-65 | refreshing a set of events keeps every coherent cache coherent if and only if no other event changed its listeners |
| Webhooks.NewEventsAloneAreNotEnough | app/Models/WebhookConfiguration.php:44-48 | refreshing the new events alone leaves some cache wrong whenever an event was dropped |
| Webhooks.WatchedIffListener | app/Models/WebhookConfiguration.php:58-65 | an event is watched exactly when the direct query finds a listener |
| Webhooks.WebhookStore.UpdateCache | app/Models/WebhookConfiguration.php:58-65 | the entries of the listed events and the watched set are refreshed, all other entries kept |
| Webhooks.WebhookStore.Save | app/Models/WebhookConfiguration.php:42-50 | a save writes the row, dispatches its own event with the cache of before, and then refreshes; what that dispatch fires, and that the cache is coherent with the table afterwards |
| Webhooks.FiresAfterWriteIff | app/Providers/EventServiceProvider.php:13-18 | a dispatch between a write and its hook fires what the direct query names if and only if the entries it reads are loaded afresh or the write did not change them; stated for whole rows and for which configurations fire |
| Webhooks.FiresAfterWrite | app/Providers/EventServiceProvider.php:13-18 | such a dispatch answers for the table after the write or for the one before, and which of them |
| Webhooks.DroppedEventStillFires | app/Listeners/DispatchWebhooks.php:13-29 | a configuration that just dropped its own update event still gets it from a cached entry, for all tables |
| Webhooks.AddedEventIsMissed | app/Listeners/DispatchWebhooks.php:31-42 | one that is the first to listen does not get it while the watched events are cached, for all tables |
| Webhooks.RefreshAfterDispatch | app/Models/WebhookConfiguration.php:58-65 | the hook makes the cache coherent even if a dispatch filled it between the write and the hook |
| Webhooks.WebhookStore.Create | app/Models/WebhookConfiguration.php:42-50 | a creation dispatches its event in this way and keeps the cache coherent |
| Webhooks.WebhookStore.Update | app/Models/WebhookConfiguration.php:42-50 | so does an update that changes the row; one that does not dispatches nothing |
| Webhooks.WebhookStore.Delete | app/Models/WebhookConfiguration.php:51-55 | a soft delete keeps the cache coherent, and its own event fires what the direct query names, because the hook comes before the listener |
| Webhooks.WebhookStore.ForceDelete | app/Models/WebhookConfiguration.php:51-55 | so does a permanent one |
| Webhooks.WebhookStore.Restore | app/Models/WebhookConfiguration.php:42-50 | a restore of a deleted row is an update, any other dispatches nothing; the cache stays coherent |
| Webhooks.WebhookStore.EventIsWatched | app/Listeners/DispatchWebhooks.php:31-42 | the answer is that of the remembered set, or of the table, which is then remembered |
| Webhooks.WebhookStore.Dispatch | app/Listeners/DispatchWebhooks.php:13-29 | what is fired and remembered in any state of the cache; with a coherent cache exactly the live configurations that the direct query names, with their present content, and the cache stays coherent |
| Placeholders.RenderTokenize | app/Services/Eggs/EggConfigurationService.php:138 | the scan for placeholders partitions every string |
| Placeholders.TokenizeRender | app/Services/Eggs/EggConfigurationService.php:138 | scanning a written-out calm template gives its characters and keys back |
| Placeholders.ReplaceIsSubstitution | app/Services/Eggs/EggConfigurationService.php:168-180 | one string replacement substitutes exactly the tokens of its key |
| Placeholders.SequentialIsSimultaneous | app/Services/Eggs/EggConfigurationService.php:136-184 | replacing one key after the other equals substituting all `server.` and `env.` keys at once, for calm templates and values |
| Placeholders.FilledInPlace | app/Services/Eggs/EggConfigurationService.php:136-184 | anywhere in a template `server.x` becomes the entry x of the configuration and `env.x` the entry `environment.x`, a missing one the empty string, and everything else stays |
| Placeholders.PlaceholderBecomesEntry | app/Services/Eggs/EggConfigurationService.php:136-184 | the same for the text of one placeholder with letters, digits, `_`, `.` and `-`, as the loop replaces it |
| Placeholders.OtherCharactersMakeNoPlaceholder | app/Services/Eggs/EggConfigurationService.php:138 | one other character between the braces, and nothing is captured or replaced |
| Placeholders.PlainTemplates | app/Services/Eggs/EggConfigurationService.php:136-184 | in particular when braces occur only in placeholders and values have none; what is left are the other keys, in order |
| Placeholders.RemainingPlaceholders | app/Services/Eggs/EggConfigurationService.php:136-184 | no `server.` or `env.` placeholder remains; `config.` and unknown ones stay verbatim and in order |
| Placeholders.ValueWithPlaceholderIsReplacedAgain | app/Services/Eggs/EggConfigurationService.php:168-180 | for all keys: a value that is the next key's placeholder is replaced twice, so the condition on values is needed |
| Placeholders.MatchAndReplaceKeys | app/Services/Eggs/EggConfigurationService.php:136-184 | the loop computes the sequential replacement, and with calm text the simultaneous one |
| Placeholders.Iterate | app/Services/Eggs/EggConfigurationService.php:193-220 | every string below an array or object is replaced; any other root is returned as it is |
| Placeholders.IterateKeepsShape | app/Services/Eggs/EggConfigurationService.php:193-220 | the result has the same paths, keys, container kinds and sizes and the same non-string leaves |
| ConfigFiles.ReplacePlaceholders | app/Services/Eggs/EggConfigurationService.php:86-131 | the usable files in order, each with the rules of its `find` data and substituted values; fails exactly when a set `find` cannot be iterated |
| ConfigFiles.FileArrives | app/Services/Eggs/EggConfigurationService.php:86-131 | a file with `find` data arrives under its name with its other settings and its rules; one whose `find` is null is skipped; any other `find` fails |
| ConfigFiles.SettingsArrive | app/Services/Eggs/EggConfigurationService.php:100-128 | all settings but `find`, `file` and `replace` arrive unchanged and in order |
| ConfigFiles.OtherFilesAreSkipped | app/Services/Eggs/EggConfigurationService.php:96-98 | what has no `find` or is no object is skipped |
| ConfigFiles.FilesInOrder | app/Services/Eggs/EggConfigurationService.php:91-131 | files arrive in the order of the configuration |
| ConfigFiles.RulesSayTheSame | app/Services/Eggs/EggConfigurationService.php:105-122 | the flattened rules are exactly the pairs and triples found in the nested data |
| ConfigFiles.FlatteningCommutes | app/Services/Eggs/EggConfigurationService.php:105-122 | substituting and then flattening equals flattening and then substituting in each rule's replacement |
| Eggs.VariableStore.CopyValues | app/Services/Eggs/EggChangerService.php:28-33 | for each name in the server's rows, the value of one of these rows |
| Eggs.VariableStore.ChangeEgg | app/Services/Eggs/EggChangerService.php:11-47 | afterwards one row per name of the new egg, shared names keep their value, the others take the default; the same egg changes nothing; the errors |
| Eggs.RowsAfterChange | app/Services/Eggs/EggChangerService.php:34-46 | a change leaves exactly one row for each variable of the new egg |
| Eggs.ValueAfterChange | app/Services/Eggs/EggChangerService.php:28-46 | with the value of an old row of the same name if old variables are kept and there is one, and otherwise the default |
| Eggs.RoundTripOnRows | app/Services/Eggs/EggChangerService.php:28-46 | after A to B to A a name of A has its value back if and only if B knows it too or the value was A's default |
| Eggs.EnvironmentService.Handle | app/Services/Servers/EnvironmentService.php:37-56 | the keys of the environment and the source of each value: added keys override built-in keys override variables |
| Eggs.EnvironmentAgreesIff | app/Models/EggVariable.php:47 | the environment agrees with the rows on all names of the egg if and only if no added key contradicts one; built-in keys never do, being reserved |
| Eggs.SharedNamesKeepTheirEnvironment | app/Services/Servers/EnvironmentService.php:37-56 | a value that both eggs know is the same in the environment before and after the change |
| Subusers.SubuserStore.Create | app/Services/Subusers/SubuserCreationService.php:38-81 | refused for the owner and for a present subuser; otherwise one row with the cleaned permissions; the invariant is kept |
| Subusers.SubuserStore.Update | app/Services/Subusers/SubuserUpdateService.php:21-61 | the row gets the cleaned permissions, and is written exactly when the sets of permissions differ |
| Subusers.SubuserStore.Delete | app/Services/Subusers/SubuserDeletionService.php:18-39 | the row is gone and the invariant kept |
| Subusers.SubuserStore.ChangeOwner | app/Services/Servers/DetailsModificationService.php:33-60 | the owner changes, the hook removes the row it finds, and no owner is a subuser afterwards |
| Subusers.MayHandOutIff | app/Models/User.php:299-341 | who may hand out a permission of the catalogue: a root administrator, the owner, who has `update server` by role or row, who holds it, and for `websocket.connect` who has `view server` |
| Subusers.MayHandOutOtherIff | app/Policies/DefaultPolicies.php:8-41 | the same for any other ability, with what each method of the policy asks for |
| Subusers.CreatedIff | app/Services/Subusers/SubuserCreationService.php:38-81 | on columns: refused for the owner and for a present subuser only; otherwise one row for the user of the address, with exactly the permissions asked for that the actor may hand out |
| Subusers.UpdatedStores | app/Services/Subusers/SubuserUpdateService.php:21-44 | an update stores exactly these, and changes nothing else |
| Subusers.NextKeepsInv | app/Services/Subusers/SubuserCreationService.php:55-75 | creation, update, deletion and owner change keep (user, server) unique, owners out of their own subusers, and lists sorted without duplicates |
| Subusers.DeletingTheFirstSufficesIff | app/Models/Server.php:210-219 | in any table, deleting the first match leaves no row of the new owner if and only if there was at most one |
| Subusers.WritesIffSetsDiffer | app/Services/Subusers/SubuserUpdateService.php:30-44 | comparing the cleaned list with the sorted stored one tells exactly whether the sets differ |
| Subusers.HeldPermissionsHaveProvenance | app/Models/User.php:299-341 | in every run, each permission held other than `websocket.connect` has a chain of grants in which each granter was the owner, had a role for it, or held what let them grant it at that time |
| Subusers.WhyAllowed | app/Policies/DefaultPolicies.php:8-41 | whoever may hand out a permission owns the server, has a role for it, or holds the permission or what the policy derives it from |
| Subusers.EveryChainHasARoot | app/Policies/ServerPolicy.php:17-37 | every such chain ends at a grant by the owner or by somebody whose role allows it, of the permission itself or of what it is derived from |
| SortedStrings.CanonicalUnique | app/Services/Subusers/SubuserUpdateService.php:23-33 | a sorted, duplicate-free list is determined by its set |
| SortedStrings.LeIff | app/Services/Subusers/SubuserUpdateService.php:23-33 | the order is that of the first character in which two strings differ, with a prefix first |
| Paths.ResolvePath | app/helpers.php:50-68 | the loop over the components computes the resolution that the following rows are about |
| Paths.SplitConcat | app/helpers.php:52 | splitting a path joined by a slash gives the parts of both |
| Paths.ComponentsJoin | app/helpers.php:52-67 | splitting undoes joining |
| Paths.ResolvedComponents | app/helpers.php:50-68 | the output has no empty, `.` or `..` component |
| Paths.ResolveIdempotent | app/helpers.php:50-68 | resolving twice is resolving once |
| Paths.ResolveComposes | app/helpers.php:50-68 | resolve(a/b) = resolve(resolve(a)/b) for all strings |
| Paths.ResolvedIffNormal | app/helpers.php:50-68 | a path is its own resolution if and only if it is a join of plain components |
| Paths.ParentCancels | app/helpers.php:55-65 | a component followed by `..` has no effect |

## Left out

- Assignment.Handle: host names and networks are resolved outside; an address is a number with its resolution as input, and IPv6 is not modelled.
- Build.Handle: memory, disk and the other limits are not modelled, and the query builder that is run again after `first()` is taken to keep its full filter, as the comment beside it intends.
- Transfers.Start: whether the target node is viable is an input, because the accounting of node capacity is not decided by this code; tokens are not modelled.
- Transfers.Succeed: the call that deletes the server from its old node has no effect on the tables.
- Creation.Handle: validation of egg variables, image, startup and resource fields, and the choice of viable nodes, happen before the modelled part.
- Backups.InitiateBackupService.Handle: names and identifiers of backups are not modelled; a throttle limit of zero or less with no earlier backup is an error in the source too, though of another kind.
- Schedules.Scheduler.UpdateSchedule: name and cron fields of a schedule are not modelled.
- Schedules.Scheduler.Process: cron expressions, the two run-time stamps and queue retries are not modelled.
- Schedules.Scheduler.Work: that the queue runs nothing for a job whose task cannot be restored is taken from the framework.
- Schedules.Scheduler.StoreTask: the limit of tasks per schedule and the contents of tasks are not modelled.
- Schedules.Scheduler.ReorderTasks: that the reorderable table numbers its rows from one on is taken from the panel's toolkit.
- Webhooks.WebhookStore.Save: that created and updated events come before the saved hook, and the deleted hook before the listener, is taken from the framework.
- Placeholders.MatchAndReplaceKeys: looked-up values are strings; numbers are taken as their text, and lookups of arrays are not modelled.
- ConfigFiles.ReplacePlaceholders: the other settings of a file keep their order; where `file` and `replace` stand among them is not modelled.
- Subusers.HeldPermissionsHaveProvenance: which abilities the roles of a user allow is an input.
- Conversion of startup and stop settings to the daemon's format: a fixed table of string rewrites that no other result needs.
- HTTP calls to the daemon, S3, mail, notifications, activity log, database hosts: each is an input that says how the call ends.
- User interface, routes, middleware, policies, health checks and all console commands but the one that fails orphaned backups.
- Concurrent requests: calls are serial and read fresh state.
