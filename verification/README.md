# Ring store and stream engine: a verified model

The repository is a stack of three layers: a membership list kept by gossip, a file store that places every
file on three peers of a hash ring, and a two-stage stream engine that promises to process each tuple once.
This project models their decision logic in Dafny and proves what it keeps. Nothing was executed: the proofs
are about the model, and the model follows the code branch by branch.

One file per component, bottom up:

| file | component |
|---|---|
| `Common.dfy` | file names, sequences without repeats, removal from a queue |
| `Ring.dfy` | membership entries, placement of a hash on the ring, binary search |
| `RepairPlan.dfy` | the plan of transfers after a failure |
| `Replication.dfy` | file selection, the repair loop of a peer |
| `StoreRuns.dfy` | whole runs of the store: writes, flushes, failures and their repair |
| `Schedules.dfy` | which failures are survived under every schedule of their repair |
| `Gossip.dfy` | de-duplication of membership messages |
| `Membership.dfy` | the membership list and the handling of signals and pings |
| `MergeOrder.dfy` | when the order of a de-duplicated buffer shows in the list |
| `Compaction.dfy` | append-only logs and their compaction into files |
| `WorkSplit.dfy` | partitions of the input file, the tuples a stage-1 task emits |
| `Sender.dfy` | first sends and retries of a stage-1 task |
| `WorkerQueue.dfy` | a worker's task queue and the task it reports |
| `Receiver.dfy` | the stage-2 worker |
| `Delivery.dfy` | the two-party protocol: at most once, and what the counts are |
| `Recovery.dfy` | restarts, on the same machine and on another |
| `Scheduler.dfy` | the leader's worker queues as a transition system |
| `Notices.dfy` | what completion notices do to the worker queues |
| `Assignment.dfy` | what assigning a job leaves behind, round by round |
| `Reroute.dfy` | what becomes of a job's routing when a worker dies |
| `SenderRoute.dfy` | a stage-1 worker's copy of the targets |
| `Completion.dfy` | completion notices, the ack round, the monitor |
| `Leader.dfy` | the leader's methods, tied to the files above |

How the parts are built:

* Code that changes state in place is a class or a method over an array, with loops where the source has loops.
  Its contract ties the new state to a function of the old one, and the lemmas are about that function.
* Network calls, files, operator binaries, clocks and map iteration order are nondeterministic choices or
  parameters. Hash functions are parameters. Hashes lie on a ring of 2048 positions, a peer id is a function
  of its node, and tuple ids are an injective function of the sequence number.
* Runs are sequences of steps; the invariants hold in every state of every run.

## Where the code does not do what it is meant to do

Each of these is proved. Where the failure depends on a condition, the condition is exact, for all inputs or runs.

* `GetFilesInRange` misses a file of an arc exactly when the arc wraps around the ring and the file's hash is the
  arc's first position (`SelectionMissesExactly`). Arcs start at peer ids, so the replication theorem is about files
  whose hash is no peer id. It also takes every file when the arc does not wrap.
* A repair can lose a replica in a first, plain failure. A received copy deletes the receiver's flushed file, and a
  peer sends from its flushed file, so a copy that nobody needs can delete what a peer still owes. What the failure
  finds decides. A peer new to a file's route gets the file under every schedule of the repair exactly when it has
  it already, or the peer that is to send it has it flushed and no peer with a copy is to send that peer one
  (`Ready`, `ReadyIff`). The whole failure is survived under every schedule exactly when this holds of every file
  and new peer (`Prepared`, `SurvivedIff`), and the replication theorems are about runs whose failures find the
  store so. With everything flushed and no spare copies that is every failure with four survivors or more
  (`FourSurvivorsArePrepared`); with three it fails exactly for the files of the middle arc that the selection for
  the last arc takes too (`ThreeSurvivorsIff`). Inside a repair two steps do the damage (`ComingKeptIff`): a copy
  delivered to the only peer that still owes the file, and the only peer that has not looked yet looking while the
  file is in its logs only. After either, and after no other step, the repair can end without the replica
  (`SpoilingIsFatalIff`, `RepairCanFailIff`). Copies of files inside the transfer's arc never do harm
  (`CoveredCopiesAreSafe`). Two runs from an empty store show both cases (`LateCopyLosesAReplica`,
  `EarlyCopyLosesAReplica`).
* With exactly one entry in the list, of an id not below the failed one, the truncated remainder goes negative and
  the neighbour search gives up (`HypotheticalNeighborsForPeerId`).
* With fewer than three survivors the plan names the failed peer as a receiver (`ReceiversSurviveIff`).
* With suspicion off the order of messages is immaterial exactly when none ties with a different one at the greatest
  timestamp about a node (`OrderImmaterialIff`). With suspicion on it is exactly when about each node there is one
  message that is later than, and a failure against a join or a join against a failure to, all that differ from it
  (`SuspicionOrderImmaterialIff`); a first message other than a failure or a join is then never displaced
  (`SuspicionKeepsFirst`).
* The order in which the map hands out a de-duplicated buffer shows in the list exactly when two of its messages
  bring newcomers with the same peer id (`OrderDoesNotShowIff`, `MessagesCommuteIff`).
* The filter drops a join of a node that is listed as suspected, which would have made it active. No other message it
  drops would have changed what the list says of a node (`DroppedWouldActIff`).
* A tuple is acknowledged and has no line exactly when the delivery that was first accepted did not write
  (`AckedWithoutLineIff`, `FailedTupleIsAckedOnRetry`), and a crash between the line and the log entry makes it
  count twice (`OvercountedByTornOnly`).
* A restart that cannot fetch the destination file, or stops at a line it cannot parse, also forgets the ids. One
  that gets the file without its latest lines, which a store that has flushed its log once still serves, reports
  success and is exact only if these lines change no own key (`RecoveryIsExactIff`). With an operator that changes
  the key, as the one of application 1 does, the restart forgets the value of every key (`MovedKeysAreForgotten`),
  which shows only if the operator looks at it (`ForgottenCountsDoNotShow`). A receiver moved to another machine
  counts an id again exactly when it is delivered again and that machine's log lacks it (`MovedReceiverCounts`).
* A re-run in which the operator fails on a line it accepted before gives the ids of all later tuples to their
  successors (`ReplayAgreesIff`, `TransientFailureShifts`).
* A flushed repair copy is what ends up in the file exactly when nothing else was pending for it, or what was reads
  the same (`RepairCopyWinsIff`).
* The retry loop reports the last task of the worker's queue and not the one whose tuples it resent. Every report of
  every run is right exactly when no stage-1 task shares its worker (`ReportsAreOwnIff`, `SharedReportsTheOther`),
  which a live worker for each task guarantees until a task is rescheduled to a busy worker (`NoReportIsEarly`). A
  stage-2 task reported before the ack round breaks the order of the stages, and nothing else does (`OrderKeptIff`,
  `InOrderIff`); the ack round is then never started (`EarlyNoticeStalls`).
* A job whose first stage does not fit on the live workers, ten tasks each, is never sent (`CreateJob`). A stage-2
  task that found no worker is noted, and routed to, as worker 0 (`Filling`, `Stage2Done`).
* Only one task of a failed worker is rescheduled (`OneTaskIsRescued`), and its partition is redirected exactly when
  some noted sender has anything queued (`FirstFailure`, and before the choice of a worker `FreedForSureIff`).
* The job is declared complete only if the leader has a connection to the first receiver when the last stage-1
  notice arrives, or the last receiver is reported later; a missing connection to the last receiver makes no
  difference (`DeclaredIff`).

## Model

| member | source | states |
|---|---|---|
| `Ring.FileRouting` | HyDfs/utils/ring.go:15-37 | on a sorted list, the loop with its two wrapping cases returns the first three of the circular successor sequence, for every list length including zero |
| `Ring.RouteIsNearestThree` | HyDfs/utils/ring.go:15-37 | with three peers or more a list is the route iff it is the three peers of least clockwise distance from the hash, nearest first |
| `Ring.SuccessorsByDistance` | HyDfs/utils/ring.go:21-33 | successors come in strictly growing clockwise distance |
| `Ring.GetNodeIdsOfFile` | HyDfs/utils/ring.go:39-48 | the nodes named are those of the first entries that carry the route's peers, in route order |
| `Ring.RemovalIsLocal` | HyDfs/utils/ring.go:15-37 | removing a peer that leaves three: the new route is the old successor sequence without it, only routes through it change, each losing it and gaining exactly the old fourth peer |
| `Ring.SuccessorsAfterRemoval` | GroupMembership/membershipList.go:122-131 | walking the ring commutes with removing a peer, for any list |
| `Ring.GetIndexOfPeer` | GroupMembership/membershipList.go:171-179 | first entry with the peer id, or -1 |
| `Ring.HypotheticalIndexForPeerId` | GroupMembership/repairFailures.go:59-72 | binary search: everything before the result is below the id and nothing from it on is |
| `Ring.SearchFindsPrimary` | GroupMembership/repairFailures.go:59-72 | that index for h+1, modulo the length, holds the primary the linear scan routes h to |
| `RepairPlan.HypotheticalList` | GroupMembership/repairFailures.go:74-97 | the array filled with two moving indices is the sorted insertion of the failed id |
| `RepairPlan.UpToAbsent` | GroupMembership/repairFailures.go:59-72 | for an absent id the binary-search index is the insertion position |
| `RepairPlan.InsertIsRemoveInverse` | GroupMembership/repairFailures.go:74-97 | inserting an absent id gives a strictly sorted ring, and removing it again gives the old one |
| `RepairPlan.HypotheticalNeighborsForPeerId` | GroupMembership/repairFailures.go:74-118 | three circular neighbours on each side of the failed id; the invalid-index branch is taken iff there is one entry, of an id not below it |
| `RepairPlan.HandleFileTransferRequestsInFailureRepair` | GroupMembership/repairFailures.go:21-43 | reverses the predecessors in place and emits the three transfers |
| `RepairPlan.GetOwnFileRanges` | GroupMembership/repairFailures.go:44-57 | the transfers this peer sends, in plan order |
| `RepairPlan.ArcsAreTheLostHashes` | GroupMembership/repairFailures.go:21-43 | a hash was routed through the failed peer iff one of the three half-open arcs covers it, and no two do |
| `RepairPlan.EndsOfTransfer` | GroupMembership/repairFailures.go:29-41 | the receiver is the fourth peer from any hash of the arc; the sender was on its route and is not the failed peer |
| `RepairPlan.PlanIsExact` | GroupMembership/repairFailures.go:21-43 | with three survivors or more a route changes iff an arc covers the hash; then the sender was on the old route and survives, the receiver is the only peer that enters and the failed one the only peer that leaves |
| `RepairPlan.ReceiversSurviveIff` | GroupMembership/repairFailures.go:21-43 | all receivers are survivors iff there are at least three |
| `Replication.GetFilesInRange` | HyDfs/utils/utils.go:72-104 | selects exactly the files whose hash passes the two-branch test |
| `Replication.SelectionMissesExactly` | HyDfs/utils/utils.go:91-98 | the test passes everything when From is at most To; of an arc it misses only the first position of a wrapping one |
| `Replication.FailureRepair.OnFailure` | HyDfs/hydfs.go:72-88 | a failed node is collected once |
| `Replication.FailureRepair.OnTimer` | HyDfs/hydfs.go:90-161 | a file is owed to a receiver iff it is local and the plan of some collected failure has this peer send it there |
| `Replication.TransferFilesOnFailure` | HyDfs/coordinator.go:136-163 | sends exactly the non-CSV files, and nothing to an unknown peer |
| `Replication.IsCsvIff` | HyDfs/coordinator.go:147 | the files left out are those whose name ends in .csv |
| `StoreRuns.NewPeersAreReceivers` | HyDfs/hydfs.go:113-147 | every peer new to a route is the receiver of a transfer whose arc covers it |
| `StoreRuns.StepKeepsIff` | HyDfs/fileOperations.go:242-306 | writes, flushes, failures, looks, deliveries, sends that find no file and the end of a repair keep the invariant, save exactly the deliveries and looks that spoil a repair |
| `StoreRuns.ComingKeptIff` | HyDfs/fileOperations.go:267-286 | a step of a repair loses what was coming to a new peer iff it deletes the last flushed copy owed to it, or is the last look and finds the file in the logs only |
| `StoreRuns.RepairCanFailIff` | HyDfs/coordinator.go:147-161 | a repair can end without the replica, with no further such step, iff nothing is coming to the peer any more |
| `StoreRuns.SpoilingIsFatalIff` | HyDfs/fileOperations.go:78-82 | after a step the repair can so end iff the step was one of the two |
| `StoreRuns.CoveredCopiesAreSafe` | HyDfs/utils/utils.go:91-98 | a copy of a file inside the arc of its transfer never spoils a repair |
| `StoreRuns.LateCopyLosesAReplica` | HyDfs/fileOperations.go:267-286 | a run from an empty store with one failure in which every peer looks in time and the repair ends with a replica missing |
| `StoreRuns.EarlyCopyLosesAReplica` | HyDfs/hydfs.go:125-146 | another, in which the copy comes before its receiver has looked |
| `Schedules.ReadyIff` | HyDfs/hydfs.go:90-161 | one file and one new peer: every schedule of the repair ends with the file there iff, at the failure, the peer has it, or its sender has it flushed and no peer with a copy is to send the sender one |
| `Schedules.SurvivedIff` | HyDfs/hydfs.go:64-161 | every schedule ends with each protected file on all three peers of its route iff the failure found every due repair so |
| `Schedules.FourSurvivorsArePrepared` | GroupMembership/repairFailures.go:21-43 | with four survivors or more, everything flushed and no spare copies every failure finds the store so |
| `Schedules.ThreeSurvivorsIff` | GroupMembership/repairFailures.go:21-43 | with three survivors a file is at risk iff the middle arc covers it and the selection for the last arc takes it too |
| `Schedules.ReplicationIsKept` | HyDfs/hydfs.go:64-161 | in every run whose repaired failures each found the store so, under every schedule, whenever no repair is going on, all three peers of the current route of each protected file hold it |
| `Schedules.TwoCopiesAlways` | HyDfs/AOL/replicate-aol.go:17-70 | at every point of such a run, a repair going on included whatever its failure found, two peers of the current route hold it |
| `Schedules.FirstFailureIsSurvived` | HyDfs/hydfs.go:64-161 | from a store without spare copies, with four survivors and everything flushed when it happens, the first failure leaves full replication under every schedule |
| `Gossip.RemoveConflictMessages` | GroupMembership/messages.go:144-175 | some listing of one kept message per node |
| `Gossip.DeduplicationIsIncremental` | GroupMembership/process.go:197-199 | de-duplicating early, in any listing order, and again with new messages equals de-duplicating all at once, in both modes |
| `Gossip.KeptIsFirstMax` | GroupMembership/messages.go:144-175 | with suspicion off the kept message is the first with the greatest timestamp |
| `Gossip.ReceiversAgree` | GroupMembership/messages.go:144-175 | with suspicion off and no ties at the top receivers of the same set keep the same messages, whatever order and repetition |
| `Gossip.OrderImmaterialIff` | GroupMembership/messages.go:144-175 | with suspicion off, for any buffer: every order gives the same iff all messages of greatest timestamp about each node are equal |
| `Gossip.PairOrderMattersExactly` | GroupMembership/messages.go:144-175 | when the order of two messages about one node is immaterial |
| `Gossip.SuspicionOrderImmaterialIff` | GroupMembership/messages.go:144-175 | with suspicion on, for any buffer: every order gives the same iff about each node one message overrules, as a later failure against joins or a later join against failures, all that differ from it |
| `Gossip.SuspicionKeepsFirst` | GroupMembership/messages.go:144-175 | in suspicion mode a first suspicion or rejuvenation is never displaced |
| `Membership.MembershipService.GetIndexOfNode` | GroupMembership/membershipList.go:48-56 | first index of the node, or -1 |
| `Membership.MembershipService.Add` | GroupMembership/membershipList.go:83-88 | append and sort put the entry behind all ids up to its own |
| `Membership.MembershipService.AddOrUpdate` | GroupMembership/membershipList.go:91-107 | refreshes a known node, adds an unknown one |
| `Membership.MembershipService.Update` | GroupMembership/membershipList.go:110-119 | sets the status of the node only, and says whether it was there |
| `Membership.MembershipService.Remove` | GroupMembership/membershipList.go:122-131 | cuts the node's entry out, and says whether it was there |
| `Membership.MembershipService.IsSuspected` | GroupMembership/membershipList.go:235-244 | true iff the node is present and suspected |
| `Membership.MembershipService.Rejuvenate` | GroupMembership/membershipList.go:246-255 | the entry of a suspected node becomes active and gets the time, nothing else changes |
| `Membership.MembershipService.PerformActionOnMessage` | GroupMembership/membershipList.go:181-210 | keeps the list well formed; a failure or departure leaves no entry of the node, a join or sign of life makes it active, a suspicion marks the entry found, other entries stay; a failure signal is emitted iff a failure removes a present node |
| `Membership.MembershipService.RemoveMsgIfNoActionNeeded` | GroupMembership/membershipList.go:213-233 | drops exactly the failures no entry is about, the joins some entry is about and the suspicions of a suspected entry, keeps the others in order and number, and changes only the timestamps of joined nodes that are listed |
| `Membership.MembershipService.ProcessSignal` | GroupMembership/process.go:193-244 | filter, merge, de-duplicate, apply: exactly the superfluous messages are dropped, and every node ends up with the effect of its one kept message, whatever order the map gave |
| `Membership.MembershipService.GetNeighbours` | GroupMembership/membershipList.go:135-147 | the next three nodes clockwise |
| `Membership.ActKeeps` | GroupMembership/membershipList.go:181-210 | a message keeps the list sorted, unique and true to the hash, and affects its own node alone |
| `Membership.ActDoes` | GroupMembership/membershipList.go:181-210 | what each kind of message does to the entries, timestamps included |
| `Membership.BufferActsPointwise` | GroupMembership/process.go:241-243 | any listing of a de-duplicated buffer gives each node the effect of its one message |
| `Membership.ApplyingTwiceIsOnce` | GroupMembership/process.go:197-243 | applying the buffer again, in any order, changes no node |
| `Membership.NewcomersCommuteIff` | GroupMembership/membershipList.go:83-88 | two additions commute iff the peer ids differ |
| `Membership.AppliedMessagesAreDropped` | GroupMembership/membershipList.go:213-233 | which messages the filter drops when they come again after having been applied |
| `Membership.FilterIsExact` | GroupMembership/membershipList.go:213-233 | for every list, in terms of its entries: which messages the filter keeps, at which positions |
| `Membership.DroppedWouldActIff` | GroupMembership/membershipList.go:213-233 | a dropped message would have changed what the list says iff it is a join of a node that is listed and not active |
| `Membership.ChangesAreKept` | GroupMembership/membershipList.go:213-233 | no failure and no suspicion that would change what the list says of a node is dropped |
| `Membership.UnopposedIsKept` | GroupMembership/process.go:193-244 | a message of a signal that is not superfluous, with no other about its node in buffer and signal, decides what becomes of the node |
| `Membership.SignalledOnce` | GroupMembership/membershipList.go:181-210 | a buffer signals exactly the present nodes it fails, each once |
| `Membership.EveryRunIsWellFormed` | GroupMembership/process.go:284-366 | sorted, unique and true to the hash after every sequence of messages, failures, suspicions and rejuvenations |
| `Membership.NeighboursAreOthersIff` | GroupMembership/membershipList.go:135-147 | three distinct other nodes are pinged iff the list has at least four |
| `Membership.MonitoredByPredecessors` | GroupMembership/membershipList.go:135-147 | every node is monitored by exactly its three ring predecessors |
| `Membership.FailureIsWatched` | GroupMembership/constants.go:13 | with at most two others down, a failed node has a live monitor |
| `Membership.RoutingAfterRemove` | GroupMembership/membershipList.go:122-131 | removing a node from the list changes the routes as removing its peer from the ring does |
| `MergeOrder.MessagesCommuteIff` | GroupMembership/membershipList.go:181-210 | two messages about different nodes commute iff they do not both bring newcomers with the same peer id |
| `MergeOrder.OrderDoesNotShowIff` | GroupMembership/process.go:241-243 | all orders of a de-duplicated buffer lead to the same list, timestamps included, iff no two of its messages bring newcomers with the same peer id |
| `Compaction.FlushInParts` | HyDfs/AOL/aol.go:118-191 | flushing a then b equals flushing both at once, repair copies included |
| `Compaction.FlushAppends` | HyDfs/AOL/aol.go:143-190 | a flush appends to each file its own data in log order, whoever shares the log |
| `Compaction.AolStore.MapToAOLLog` | HyDfs/AOL/aol.go:64-92 | a known log keeps its flag, a new one is made known unread |
| `Compaction.AolStore.WriteLog` | HyDfs/AOL/aol.go:29-61 | the entry is appended to its file's log and to no other |
| `Compaction.AolStore.ReadLog` | HyDfs/AOL/aol.go:118-208 | a known log is flushed entirely, in order, and cleared; an unknown one is left alone |
| `Compaction.AolStore.MergeAoLOnRead` | HyDfs/AOL/aol.go:210-221 | flushes a log before a read iff it is known and has never been flushed; the log then counts as flushed for good, and other logs are untouched |
| `Compaction.CompactionTimingIsInvisible` | HyDfs/AOL/aol.go:29-208 | for any interleaving, bytes on disk followed by pending entries are everything written for the file, in order |
| `Compaction.SameWritesSameFile` | HyDfs/AOL/aol.go:94-116 | two runs that write the same for a file leave the same file once flushed, whenever else they flushed |
| `Compaction.RepairCopyWinsIff` | HyDfs/fileOperations.go:267-286 | what a repair copy becomes when the log is flushed |
| `WorkSplit.PartitionInputData` | Stream/leader.go:83-125 | there is one share k, enough for all tasks together while k - 1 is not, and partition i is [i*k, min((i+1)*k, lineCount) - 1]; no target for any |
| `WorkSplit.ShareIsCeiling` | Stream/leader.go:96-97 | the rounded quotient is the only such share |
| `WorkSplit.NoTaskGetsMore` | Stream/utils-tasks.go:93-107 | no task scans more than the share |
| `WorkSplit.ScanPartition` | Stream/utils-tasks.go:93-107 | the skip and break of the scan take exactly the partition's lines |
| `WorkSplit.PartitionsCoverTheFile` | Stream/leader.go:96-120 | for all line and task counts the partitions scan the first lineCount lines of the file, each once and in order |
| `WorkSplit.IdsAreConsecutive` | Stream/utils-tasks.go:118-172 | the k-th tuple sent carries the k-th id and the k-th pair |
| `WorkSplit.PayloadsInOrder` | Stream/utils-tasks.go:115-131 | failed and rejected lines emit nothing, every other line its one pair, in line order |
| `WorkSplit.EmittedIdsDistinct` | Stream/helper.go:80-93 | no id names two tuples |
| `WorkSplit.ReplayAgreesIff` | Stream/utils-tasks.go:115-172 | two runs agree on every id and tuple iff the operator gave the same pairs |
| `WorkSplit.TransientFailureShifts` | Stream/utils-tasks.go:118-123 | a line that fails once: from there on tuple k of the second run has the id of tuple k of the first, with the key and value of tuple k+1 |
| `Sender.WorkerSender.ResendAt` | Stream/utils-tasks.go:341-379 | one resend, logged: the tuple leaves the list iff it is acknowledged or this was its last try, else its count grows by one; the ledger stays balanced and the send budget falls |
| `Sender.WorkerSender.ResendRound` | Stream/utils-tasks.go:337-380 | the pending tuples are sent in order, each once, during the removal in place, and the flag is true iff nothing is left |
| `Sender.WorkerSender.ResendUnackedTuples` | Stream/utils-tasks.go:321-388 | terminates; silent iff the queue was found empty, which it then still is; otherwise one report goes out, for the last task of the queue, with every id acknowledged or given up; the ledger agrees with the log of sends throughout and nothing is resent more than nine times |
| `Sender.WorkerSender.FinishTask` | Stream/utils-tasks.go:400-423 | one report goes out; if it arrives the first occurrence of the task leaves the queue |
| `Sender.WorkerSender.FirstSend` | Stream/utils-tasks.go:142-170 | an acknowledged id is not sent; any other is, once, and the answer is what is noted; a new id without an answer is appended to the pending ones |
| `Sender.LedgerIsEarned` | Stream/utils-tasks.go:337-379 | what is given up was resent nine times without an answer, what is acknowledged was answered in one of at most nine resends |
| `Sender.WorkerSender.PerformTask` | Stream/utils-tasks.go:24-207 | without the input file nothing is sent or reported; with it, each emitted tuple that is not known as acknowledged is first sent once, in order; nothing is reported only if the queue was found empty; what a finished task leaves unacknowledged was given up after nine resends or was already unacknowledged before; the task reported is the one performed iff all was acknowledged at once or it is last in the queue, which a worker given no other task guarantees |
| `WorkerQueue.ReportIsOwnIff` | Stream/utils-tasks.go:328-386 | one report is right iff it went without retries or its task is last in the queue |
| `WorkerQueue.ReportsAreOwnIff` | Stream/utils-tasks.go:321-423 | every report of every run of a worker is right iff no stage-1 task shares the worker |
| `WorkerQueue.SharedReportsTheOther` | Stream/utils-tasks.go:328 | two tasks begun, the first one's retries end: the second is reported |
| `Sender.BudgetAfterCut` | Stream/utils-tasks.go:355-374 | cutting a tuple out of the list lowers the budget of remaining sends |
| `Sender.AckBalances` | Stream/utils-tasks.go:355-360 | an acknowledgement moves one id from pending to acked, keeping counts and list in step |
| `Receiver.ReceivingWorker.ProcessReceivedTuples` | Stream/utils-tasks.go:518-620 | the new memory and files, by what goes wrong and where; the reply is success iff the id is new and both its line and its log entry were written, completed iff it is known, with nothing changed |
| `Receiver.ReceivingWorker.ExchangeTuple` | Stream/worker.go:138-220 | the same reply, a smooth delivery never being refused; only a success is recorded as processed |
| `Receiver.ReceivingWorker.PrepareTask` | Stream/utils-tasks.go:217-292 | counts from the last line of each key, ids from the log file; an error leaves what was read up to it, counts before ids; success means that all ids were read, but a file without its latest lines is no error |
| `Delivery.DeliveredAtMostOnce` | Stream/utils-tasks.go:518-620 | under any loss, duplication, retry, reordering and trouble: acked ids are remembered, no id writes or counts twice; the file's own lines are one for one those of the ids that wrote; with an operator that adds, each count is the sum over the ids counted and each line has the count of its moment |
| `Delivery.AckedWithoutLineIff` | Stream/worker.go:176-200 | an acked id has no line in the file iff the delivery first accepted did not write |
| `Delivery.FailedTupleIsAckedOnRetry` | Stream/utils-tasks.go:530-546 | a delivery that fails in execution is answered completed on the retry, with nothing written |
| `Delivery.AckedByDeliveryIff` | Stream/worker.go:176-217 | a delivery makes its id acknowledged iff the answer arrives, the log opens and the id is known or all goes smoothly |
| `Delivery.SecondDeliveryIsAcked` | Stream/utils-tasks.go:518-546 | of two deliveries that find the log open the second one is acknowledged if its answer arrives, whatever became of the first |
| `Delivery.CountsAreAccounted` | Stream/utils-tasks.go:594-615 | over every run with crashes each count is the sum over logged ids plus the sum over torn deliveries |
| `Delivery.ExactlyOnceWithoutTrouble` | Stream/App2_Exec/op2/op2.go:59-68 | with unit values: acked ids per key are at most the count, which is at most the emitted ids, all equal once everything is acked |
| `Delivery.OvercountedByTornOnly` | Stream/utils-tasks.go:607-615 | a count exceeds the distinct ids by at most the crashes between the line and the log entry |
| `Recovery.RecoveryIsExactIff` | Stream/utils-tasks.go:217-292 | for every operator that keeps the key, a restart at a tuple boundary restores ids and own entries iff it reads all ids and misses no line that changes an own key, a file served without its latest lines included |
| `Recovery.MovedKeysAreForgotten` | Stream/App1_Exec/op2/app1_op2.go:57-62 | for an operator that moves keys out, a complete restart restores the ids and no own entry |
| `Recovery.ForgottenCountsDoNotShow` | Stream/utils-tasks.go:648-670 | to an operator that ignores the count this makes no difference to later lines and ids |
| `Recovery.MovedReceiverCounts` | Stream/utils-tasks.go:272-288 | on another machine the ids counted are exactly those delivered and missing from its log, each once |
| `Recovery.MovedReceiverSums` | Stream/utils-tasks.go:594-615 | and each count grows by the values of these ids |
| `Scheduler.StepKeeps` | Stream/leader.go:429-470 | assigning, completing, dying, joining and rescheduling keep: each queued task names its queue's owner, no repeats, at most ten, dead workers' queues empty, ids without gaps |
| `Notices.NoticeTakesOut` | Stream/utils-leader.go:191-247 | a notice for an open task takes it out of its queue and out of no other, leaving the other tasks in order |
| `Notices.NoticeLeaves` | Stream/utils-leader.go:224-247 | whatever a notice names, each queue is what it was without what is thereby completed |
| `Notices.RemainingInOrder` | Stream/leader.go:381-402 | what remains of a list keeps its order and number |
| `Scheduler.InOneQueueOnly` | Stream/utils-leader.go:19-75 | no task is in two queues |
| `Scheduler.EveryRunKeeps` | Stream/utils-leader.go:19-75 | the same in every state of every run |
| `Scheduler.RescheduleIsSafeIff` | Stream/leader.go:250-295 | rescheduling keeps this iff the task is in no queue any more |
| `Scheduler.StrayNoticeClashesIff` | Stream/utils-leader.go:238-239 | after a notice for an unknown task, the next id is already taken iff the notice named the one after it |
| `Scheduler.CanTakeIffFree` | Stream/utils-leader.go:38-75 | a task finds a worker iff a live worker has fewer than ten |
| `Scheduler.PlacingFills` | Stream/leader.go:128-204 | placing keeps: exactly the first tasks queued, one free place less, no worker with two while one is idle |
| `Scheduler.OneTaskPerWorker` | Stream/leader.go:128-204 | with a live worker for every task each is alone on its worker |
| `LeaderService.Leader.AssignToPreferredWorker` | Stream/utils-leader.go:18-35 | an idle live worker that holds the file, iff there is one; the task is appended to its queue |
| `LeaderService.Leader.AssignToAvailableWorker` | Stream/utils-leader.go:38-75 | an idle live worker if there is one, else a live one with fewer than ten tasks; the task is appended to its queue; fails iff all live ones have ten |
| `LeaderService.Leader.AssignStage1` | Stream/leader.go:128-169 | the first min(n, ten per live worker) tasks are placed, the others queued at the leader under one shared id; holders of the file first |
| `LeaderService.Leader.AssignStage2` | Stream/leader.go:171-204 | the partitions' targets and senders; tasks without a worker stay with worker 0 |
| `LeaderService.Leader.CreateJob` | Stream/leader.go:327-372 | a job is sent iff stage 1 fits on the live workers; with a live worker for each task it starts with one task per worker |
| `Assignment.RoomForAll` | Stream/leader.go:171-204 | every task is placed and every partition routed iff 2n is at most ten per live worker |
| `Reroute.DispatchedIsRunning` | Stream/leader.go:128-216 | with a live worker for each task, one task per worker and distinct targets |
| `Reroute.CompletionKeepsRunning` | Stream/utils-leader.go:224-247 | completing stage-1 tasks keeps this |
| `Reroute.DeathKeepsRunning` | Stream/leader.go:434-437 | and so does the death of workers |
| `LeaderService.Leader.WorkerFailed` | Stream/leader.go:434-437 | the worker is not in the set of live ones and its queue is empty, all else is as before |
| `LeaderService.Leader.WorkerJoined` | Stream/leader.go:458-470 | the worker is in the set of live ones, all else is as before |
| `LeaderService.Leader.GetPartitionForFailedNode` | Stream/utils-leader.go:158-169 | a partition of the failed worker, or -1 iff it has none |
| `LeaderService.Leader.UpdateSenderWorkersForFailedNode` | Stream/utils-leader.go:171-190 | one partition is redirected, iff some noted sender has a task queued |
| `LeaderService.Leader.RescheduleSplitTask` | Stream/leader.go:250-324 | the task is appended to the queue of a chosen worker, or queued at the leader iff every live worker has ten; a stage-2 task then redirects its partition |
| `LeaderService.Leader.HandleWorkerFailure` | Stream/leader.go:472-509 | some open task of the failed worker is rescheduled, and only one; nothing changes iff there is none |
| `Reroute.OneTaskIsRescued` | Stream/leader.go:488-507 | afterwards no open task names the dead worker iff only one did before |
| `Reroute.ReschedulingKeepsQueues` | Stream/leader.go:250-295 | handling a failure while the worker is down keeps the queues in order |
| `Reroute.FirstFailure` | Stream/utils-leader.go:138-190 | first failure of a stage-2 worker: every partition keeps a target, all others are unchanged, and the dead worker is no target iff a worker had room and some stage-1 worker had something queued or got the task itself |
| `Reroute.FreedForSureIff` | Stream/leader.go:250-324 | before the choice: the dead worker loses its partition under every choice iff there is room and every worker that may be picked leaves some stage-1 worker in use |
| `SenderRoute.StageOneWorker.UpdateTask` | Stream/worker.go:59-88 | a worker takes up the new targets iff it has the task queued |
| `SenderRoute.StageOneWorker.GetReceiverByTuple` | Stream/utils-tasks.go:503-516 | the target of the key's partition, worker 0 for one that is not in the map |
| `SenderRoute.TuplesReachTheirTask` | Stream/utils-leader.go:171-190 | with the new targets every key goes to the worker of the same task as before the failure, none to the dead worker, and the failed task's keys to a live one |
| `LeaderService.Leader.RemoveTaskFromWorkerQueue` | Stream/utils-leader.go:191-211 | the first occurrence of the task leaves the queue |
| `LeaderService.Leader.MarkTaskCompleted` | Stream/utils-leader.go:224-247 | an open task moves to the completed list and leaves its queue, where all others stay in order, as do all other queues; a second notice changes nothing |
| `LeaderService.Leader.CheckIfAllSenderCompleted` | Stream/utils-leader.go:290-316 | true iff exactly two tasks are completed and the first two assigned are among them |
| `LeaderService.Leader.SendAckToReceiver` | Stream/utils-leader.go:249-288 | receivers are marked in order up to the first without a connection; the marked ones leave their queues, and nothing else does |
| `LeaderService.Leader.SendNotification` | Stream/leader.go:511-530 | a notice marks its task and starts the ack round iff both senders are then complete; exactly the tasks completed leave the queues |
| `LeaderService.Leader.MonitorTick` | Stream/leader.go:375-427 | completed tasks are cut out of the job's list in place; success iff there is an assigned job and all of its list is complete, and the lists are then cleared |
| `LeaderService.CreatedIsDispatched` | Stream/leader.go:327-372 | a sent job of two tasks in each stage starts the completion protocol in its initial state |
| `Completion.CompletionIsSafe` | Stream/utils-leader.go:224-316 | in every state of every run, whatever the notices name and however often: no task recorded twice, open and completed share out the four, at most one ack round, success only with nothing open |
| `Completion.OrderKeptIff` | Stream/leader.go:511-530 | a step breaks the order of the stages iff it is a notice for a stage-2 task before the ack round |
| `Completion.InOrderIff` | Stream/leader.go:511-530 | stage 2 is complete only after stage 1, throughout a run, iff there was no such notice |
| `Completion.EarlyNoticeStalls` | Stream/utils-leader.go:290-316 | after such a notice the ack round is never started |
| `LeaderService.NoReportIsEarly` | Stream/utils-tasks.go:321-423 | in a job that started with one task per worker no report names a stage-2 task |
| `Completion.RoundFinishesIff` | Stream/utils-leader.go:249-288 | the round completes the job iff the first receiver is connected |
| `Completion.DeclaredIff` | Stream/leader.go:381-425 | once the round has run, success is declared iff the monitor has ticked after the first receiver was found connected or the last one was reported |

## Left out

Of the code that is modelled:

- Membership.MembershipService.Add: the sort is an insertion behind equal ids, as the library's insertion sort does for short slices; for longer lists the order of colliding peer ids is not determined by the code.
- Membership.MembershipService.ProcessSignal: entries are values in a sequence, so the sharing of entry pointers between lists is not captured; acknowledgements and channels are left out.
- MergeOrder.OrderDoesNotShowIff: the newcomers of one buffer are stamped with one reading of the clock, where the code reads it for each.
- Membership.EveryRunIsWellFormed: repeated joins at the introducer, which add a node without looking for it, are left out, and so is the lock that `markNodeFailed` keeps on its early return.
- Schedules.ReplicationIsKept: says who holds a file and not that copies are equal in content; failures come one at a time, each after the last repair, and leave three peers; joins move no data in the code and are left out; a write reaches all three peers of the route, and a send whose file is there arrives.
- StoreRuns.StepKeepsIff: the deletion and logging of a received copy is one step at the receiver, and so are opening and sending a file.
- Recovery.RecoveryIsExactIff: is about a restart on the same machine, as the log of ids is a local file; `MovedReceiverCounts` is about another machine.
- Delivery.DeliveredAtMostOnce: is about runs without crashes, because a crash between the line and the log entry breaks it; `OvercountedByTornOnly` says by how much.
- Sender.WorkerSender.PerformTask: what a second task on the same worker does to the lists of the first, and to the counts of a receiver there, is left out.
- WorkerQueue.ReportsAreOwnIff: the task named is the queue's last when the report is sent, where the code takes it at the start of the final round.
- Sender.WorkerSender.ResendUnackedTuples: others change the task queue between rounds and not within one.
- Sender.WorkerSender.ResendAt: the branch that re-creates a missing retry count is left out, as the counts' keys are proved to be the ids of the list; a pending tuple of an earlier task run is not kept across runs, as the code clears the list.
- WorkSplit.PartitionsCoverTheFile: the ceiling is taken over real numbers and bounds are unbounded integers; the 64-bit float quotient and the 32-bit fields of a partition are not modelled.
- Compaction.AolStore.ReadLog: I/O errors in the middle of a flush, which leave entries to be flushed again, are left out; a log is a sequence of segments of entries.
- Compaction.AolStore.MergeAoLOnRead: the flag is never reset by the code, so a log that was flushed once is not flushed before a later read; what a restarted receiver makes of the file it then reads is in `RecoveryIsExactIff`, what other readers see is not stated.
- LeaderService.Leader.RescheduleSplitTask: tasks are held by id and their fields in maps, so the sharing of task and job records is not captured beyond the job's partitions being the same for all its tasks; the list of workers holding the file is a parameter; a task without a job, on which the code would stop, is one of a job that was never sent.
- LeaderService.Leader.UpdateSenderWorkersForFailedNode: the multicast of the changed tasks is left out; `UpdateTask` says what one delivery does.
- SenderRoute.StageOneWorker.GetReceiverByTuple: gives the worker, not the connection to it.
- LeaderService.Leader.SendNotification: notices are handled one at a time, while the code holds the lock only for parts of it; for a job of one or three and more tasks per stage, whose list may be too short for the ack round's fixed indices, the method asks for at least four assigned tasks.
- Reroute.FirstFailure: a second failure of the same stage-2 task is left out; the senders are not noted for its new worker.
- Scheduler.StepKeeps: completion notices name tasks the map knows (`StrayNoticeClashesIff` says what others do), and a failure is handled before its worker rejoins (`RescheduleIsSafeIff`).

Not modelled at all:

- the transport: gRPC, UDP, JSON, timeouts, file handles, the operator binaries, logging, timers.
- the hash functions; the introducer's fixed peer id 789 is assumed to be its hash.
- reading, merging and multi-append of files in the store, and the duplicate check on create.
- the receiver's side of a completion ack, which only empties its queue.
- the file cache, the command line, the log querier, generated protocol code, deployment scripts.
