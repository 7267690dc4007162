# Arbiter: a Dafny model of the scheduler's shared-store protocol

Arbiter is a leader-elected cluster scheduler. Scheduling ticks, worker reports, the failure
detector, node registrations, heartbeats, lease ticks and an autoscaler all act on one shared
store, concurrently and from several replicas. This project models that protocol and proves what
holds of it over whole runs, whatever the interleaving. `dafny verify dfyconfig.toml` checks it.

Four parts, connected through the rows of the store:

1. **The cluster state machine.** `ClusterState` has one step per store transaction. A scheduling
   tick is not atomic: it is claim (with row locks), read nodes, read allocations, commit, because
   the two reads run outside the tick's transaction. The death of a node is select and finish. Any
   number of replicas may have a tick open at once; nothing in the store fences a write by the lease
   epoch. `Meaning` says of each step what it does to the columns, without the helpers that define it.
   `RowInvariants`, `Fencing`, `DeadNodes`, `Capacity`, `CapacityLimits`, `Accounting`, `Audit`, `Reports`,
   `Repeats`, `Retries` and `Ticks` prove theorems about its runs. `Store` has the store's methods and the
   tick in the form the program gives them, as a class that updates its tables in place; each method is
   proved to do exactly what the steps with nothing in between do, and `WholeTicks` what such a tick achieves.
2. **Placement.** `Placement` is filter, score and pick, with `Hostnames` for ties; `Engine` is the batch loop with its running
   reservations; `Uniform`, `Ranks` and `Packing` derive the closed forms of bin-pack and spread.
3. **The lease.** `Lease` has the lease row's transaction and a replica's cached leadership;
   `Election` runs them over real time with per-replica clocks, delayed replies and lost ones.
4. **Handlers, timed controllers and the worker.** `Handlers` runs heartbeats, detector polls and
   reclaims over a clock, as handlers that read first and write later, interleaved with each other and
   with every step of the cluster state machine; `Liveness` and `Revival` prove theorems about its
   histories, and `Undisturbed` that handlers with nothing in between do what the components' methods do.
   `Detector`, `Heartbeat`, `Autoscaler` and `Worker` have the components themselves; `Scaling` is about when
   the autoscaler acts, `Delivery` about what a heartbeat's answer makes the worker start.

A table is a sequence of rows in creation order and a row's id is its position. Strings of events are
replaced by the data they carry. Scores are exact reals.

## What turned out not to hold

Each of these comes with a concrete run and with the condition under which it does hold, proved to be
exact.

- *Capacity is never exceeded.* Two ticks in flight, or a node that registers again smaller, break it.
  It holds of every run with at most `most` ticks in flight if and only if `most` is 0, or `most` is 1
  and capacities are never lowered (`CapacityLimits.CapacityExactly`).
- *A tick's cached accounting is an upper bound of a recount at its commit.* Another tick's commit
  between its read and its own breaks it. It holds in all runs if and only if there is none, however
  reports, deaths, registrations and new jobs interleave (`Accounting.CachedBoundExactly`); and then the
  two are equal for a node exactly when no task has left it (`Accounting.CachedIsUpperBound`).
- *A dead node has no active task.* A tick that read the node before it died can commit afterwards, even
  when it is the only tick, or commit between the two halves of the death. It holds in every state of
  all runs if and only if no death commits while an open tick has read the nodes and no tick commits
  while a death is open (`DeadNodes.DeadEmptyExactly`). What is put on a dead node always carries an
  epoch from before its death (`DeadNodes.StrandedIsStale`).
- *Dead nodes stay dead until a fresh registration*, as a comment on `ListActiveNodes` has it
  (internal/store/nodes.go:314-317). Status writes are not guarded, so a heartbeat that read the node as
  not ready can make it ready after a death has committed (`Revival.StaleHeartbeatRevives`), and a second
  reclaim can cordon it. It holds in all histories if and only if no death commits while another handler
  that has read the node has a status write to it pending (`Revival.DeadStayDeadExactly`).
- *Two leases younger than the TTL exclude each other.* With clocks off by up to eps the bound is
  max(0, TTL - 2 eps), and no larger bound works (`Election.ExclusionExactly`).
- *A reclaimed worker was idle in every observation of the idle window.* A tick that ends before it would
  look at a node does not clear the node's idle mark, however busy it is. A tick ends early when it wants
  to scale up and the containers cannot be listed, or there is room and creating one succeeds or fails;
  and it ends with the first node that is due, whether reclaiming that one succeeds or fails. It looks at
  every other autoscaled node (`Autoscaler.LooksExactly`). From its mark to its reclaim, every observation
  of a node shows it idle if and only if no tick that was cut short before it observed it busy
  (`Autoscaler.ReclaimedIdleExactly`, with a run in `Autoscaler.BusyCanBeMissed`).
- *A report counts once.* The fence compares node and epoch only, so after a retry on the same node under
  the same epoch a repeated failure report ends the second attempt, too
  (`Repeats.OneReportEndsTwoAttempts`). A repeated final report takes effect exactly when the task is
  active again under the node and epoch it names (`Repeats.RepeatedReport`).

The comment on the spread scorer (internal/scheduler/scorers.go:30-31) speaks of an added epsilon that
the code does not add; the model follows the code.

## Model

| member | source | states |
|---|---|---|
| Placement.Place | internal/scheduler/plugins.go:81-117 | no node exactly when every node fails some filter; otherwise an eligible node that nothing eligible beats (higher score, then smaller hostname) and that beats every eligible node listed before it; with the default filters the eligible nodes are exactly those that are ready, have room, and give each constraint key its value |
| Placement.EligibleIsAdmits | internal/scheduler/filters.go:11-47 | a node passes the default filters exactly when it is ready, the request fits beside what it holds in CPU and in memory, and its labels give every constraint key exactly the constraint's value, a missing key reading as empty |
| Placement.ScoresCompare | internal/scheduler/scorers.go:12-33 | in whole numbers: bin-pack prefers the node whose CPU and memory shares, equally weighted, are larger in sum with the task on it, spread the one where they are smaller without it; ties are equal sums |
| Hostnames.LessExactly | internal/scheduler/plugins.go:107-111 | one hostname comes before another exactly when it is a proper prefix of it or has the smaller character where they first differ |
| Placement.BestUpToIsChoice | internal/scheduler/plugins.go:94-112 | after any prefix of the list the candidate kept is the right choice for that prefix, or there is none because no node of it is eligible |
| Placement.BestUnique | internal/scheduler/plugins.go:107-111 | the choice is determined by being unbeaten: any index with that property is the one returned |
| Placement.PlaceIgnoresListOrder | internal/scheduler/plugins.go:81-117 | with distinct hostnames the node chosen does not depend on the order of the list |
| Engine.PlaceNextAdmits | internal/scheduler/filters.go:11-47 | with the default filters a node is chosen exactly when some listed node is ready, has room for the request and has each constraint key with exactly its value; the chosen one does, and when none is chosen every listed node lacks one of the three |
| Engine.PendingAllocAccounting | internal/scheduler/engine.go:98-119 | at every point of the batch a node's running reservation is the snapshot plus exactly the requests placed on it so far |
| Engine.BatchMaximal | internal/scheduler/engine.go:106-119 | a task the batch could not place fits no ready, label-matching listed node even under the reservations at the end of the batch; a placed one went to a ready, matching node |
| Engine.BatchWithinCapacity | internal/scheduler/engine.go:98-119 | a node that the batch gave work to ends within its capacity, and one that it left alone keeps its reservation |
| Ticks.TickMaximal | internal/scheduler/engine.go:75-142 | after the commit of a tick, in any interleaving, a claimed task still pending fits none of the nodes the tick read under the final reservations; the others are scheduled on a node it read as ready, under the epoch it read |
| Uniform.BinPackClosedForm | internal/scheduler/engine_test.go:101-121 | on N equal empty ready nodes with distinct hostnames, K identical tasks fitting on each, after j tasks of a bin-pack batch the node with rank r by hostname holds j - r*K clamped to [0, K] and min(j, N*K) are placed |
| Uniform.SpreadClosedForm | internal/scheduler/engine_test.go:123-144 | in the same setting, with m = min(j, N*K), the node with rank r holds m/N tasks plus one exactly when r < m mod N, and m are placed |
| Uniform.SpreadBalance | internal/scheduler/scorers.go:29-33 | spread keeps any two nodes' loads within one of each other |
| Uniform.SpreadPlacesAsManyAsBinPack | internal/scheduler/plugins.go:70-77 | the same tasks under spread and under bin-pack: the same number is placed |
| Packing.BinPackOptimal | internal/scheduler/scorers.go:12-21 | no assignment within the nodes' capacities places more of the batch's tasks than bin-pack, and one that places as many uses at least as many nodes |
| Store.Store.CreateJob | internal/store/jobs_tasks.go:103-159 | accepts exactly the jobs that pass the checks, and then adds the job, `replicas` pending tasks and one event; otherwise nothing changes |
| Store.Store.RegisterNode | internal/store/nodes.go:64-111 | upserts by hostname and address, whatever the request: a known node gets the new capacity and labels, becomes ready and steps its epoch; a new one starts at epoch 0; tasks are left alone. The row invariants are kept by the requests that the handler lets through |
| Store.Store.UpdateNodeStatus | internal/store/nodes.go:118-146 | sets the status of an existing node whatever it was and logs it; says not found, changing nothing, otherwise |
| Store.Store.OrphanAndRequeue | internal/store/nodes.go:200-248 | exactly the scheduled and running tasks on the node become pending and unassigned, with two events each, in order; returns their ids |
| Store.Store.MarkNodeDead | internal/store/nodes.go:161-195 | what the two halves of a death with nothing in between do: node dead, epoch up by one, its tasks requeued; not found otherwise |
| Store.DeadNodeIsEmpty | internal/store/nodes.go:161-248 | right after an undisturbed MarkNodeDead the node is dead and no task is scheduled or running on it |
| Store.Store.UpdateTaskStatus | internal/store/jobs_tasks.go:442-585 | the outcome and the new state of every report: not found, stale, already done, bad transition, unsupported, or the update with its event and, for a failure with retries left, the requeue |
| Meaning.ReportApplies | internal/store/jobs_tasks.go:453-500 | in columns: a report changes something exactly when it is one of the three that workers send, the task exists, it names the task's assignment or no node, and the task is scheduled or running; and when each other answer is given |
| Meaning.FinalReport | internal/store/jobs_tasks.go:515-540 | a final report that is not retried leaves its status, exit code, error and finish time in the row, the start time if there was none, no retry time, and the assignment and the retries as they were, with one event |
| Meaning.FailureIsRequeued | internal/store/jobs_tasks.go:561-585 | a failure report with a retry left leaves the row pending and unassigned, one more retry used, with the report's exit code and error, and the retry time one backoff from now |
| Meaning.BackoffDoubles | internal/store/jobs_tasks.go:587-598 | the backoff before the first retry is 500 ms, before each further one twice the last, up to 16 s |
| Retries.RetryWaitsItsTurn | internal/store/jobs_tasks.go:561-585 | in every run, from a failure report with a retry left on: the row is still the one that the report left, or a claim has taken it whose clock was at least the backoff after the report's |
| Retries.DueRowCanBeClaimed | internal/store/jobs_tasks.go:281-293 | a row that stands as the report left it can be claimed, by any replica without an open tick, at any clock from its retry time on |
| Meaning.DeathMeaning | internal/store/nodes.go:161-248 | in columns: a death with nothing in between makes the node dead under the next epoch, and exactly the tasks scheduled or running on it pending, unassigned, due at once, with retries and exit code as they were |
| Meaning.DeathLogs | internal/store/nodes.go:176-247 | it logs the node's death and then, for each orphaned task in order of creation, that it was orphaned and that it was requeued |
| Meaning.RegistrationMeaning | internal/store/nodes.go:64-111 | in columns: the row with that hostname and address, or a new last one at epoch 0, holds the capacity and labels of the request and is ready, a known one under the next epoch; no other row changes |
| Meaning.AcceptedJob | internal/store/jobs_tasks.go:103-159 | the job is stored as it is, policy defaulted, with `replicas` new rows, pending, unassigned and due at once |
| Meaning.ListedNodes | internal/store/nodes.go:318-349 | the nodes placed on and watched are those whose status is ready or not ready, each once and as its row is, by creation |
| Meaning.ClaimMeaning | internal/store/jobs_tasks.go:275-314 | a claim of any interleaving takes at most 50 rows, each pending, due, held by no other open tick or death, with what its job asks for |
| ClusterState.RetryBackoff | internal/store/jobs_tasks.go:589-598 | between 500 ms and 16 s, 500 ms doubled for each further retry up to the sixth, 16 s from then on |
| Store.Store.GetNodeAllocations | internal/store/jobs_tasks.go:367-391 | for each node with a scheduled or running task the sum of those tasks' requests; other nodes absent |
| Store.Store.ListActiveNodes | internal/store/nodes.go:318-349 | the nodes that are neither dead nor cordoned, oldest first |
| Store.Store.ClaimPending | internal/store/jobs_tasks.go:275-314 | only pending rows whose retry time has come, oldest first, at most `limit`, each with its job's fields; a due row is left out only when `limit` older ones are claimed |
| WholeTicks.AllDueClaimed | internal/store/jobs_tasks.go:281-293 | when at most `limit` rows are due, every one of them is claimed |
| Store.Store.ScheduleTask | internal/store/jobs_tasks.go:319-337 | assigns a pending row and logs it; fails and changes nothing when the row is not pending |
| Store.Store.PlaceBatch | internal/scheduler/engine.go:98-133 | the loop's writes are those of the batch computed in advance, none of them misses its row, and as many events are logged as tasks are placed |
| Store.Store.Tick | internal/scheduler/engine.go:75-142 | an uninterrupted tick is exactly claim, read nodes, read allocations and commit in a row, and achieves what is said of it below; without due tasks nothing changes |
| WholeTicks.WholeTickDone | internal/scheduler/engine.go:75-142 | an uninterrupted tick changes rows only by assigning due ones, each to a ready node that carries its job's labels and under that node's epoch; when at most 50 were due, each that is still pending fits no node at all beside what that node holds afterwards |
| WholeTicks.TickClaims | internal/scheduler/engine.go:79-96 | the claim of an uninterrupted tick is always possible, and what it then reads makes each of its writes possible |
| RowInvariants.StepKeepsInv | internal/store/jobs_tasks.go:103-585 | every step of every kind keeps the row invariants |
| RowInvariants.RunInv | internal/store/jobs_tasks.go:281-331 | in every state of every run, with any number of replicas ticking: no task is claimed by two open ticks, a task is unassigned exactly when pending, node and epoch are set or cleared together, assigned_epoch is at most the node's epoch, timestamps agree with the status, each job has exactly `replicas` tasks |
| RowInvariants.CommitEffect | internal/scheduler/engine.go:105-137 | whatever other replicas did since the claim, no write of a commit misses its pending row; the commit changes exactly the rows its batch placed |
| RowInvariants.FinishDeathEffect | internal/store/nodes.go:168-247 | a death commits the dead status and the next epoch and requeues exactly the rows it had selected, whatever happened in between |
| Fencing.FencedReportRejected | internal/store/jobs_tasks.go:547-559 | a report that names a fenced node and epoch is stale and changes neither rows nor log |
| Fencing.DeathFences | internal/store/nodes.go:168-247 | the commit of a death fences each task it takes off, for every epoch the node had until then, against every tick that is open |
| Fencing.StepKeepsFenced | internal/scheduler/engine.go:79-112 | fencing survives every step of every kind; for a claim, because ticks claim before they read nodes |
| Fencing.FencingAcrossDeath | internal/store/jobs_tasks.go:547-559 | once a death takes a task off a node, in every later state of the run no report naming that node and an epoch it had before changes the task, whatever ticks of whatever replicas were open |
| DeadNodes.DeadEmptyExactly | internal/scheduler/engine.go:89-112 | in every state of all runs dead nodes have no scheduled or running task, if and only if no death commits while an open tick has read the nodes and no tick commits while a death is open |
| DeadNodes.StrandedIsStale | internal/store/nodes.go:156-160 | in every state of every run, a task still assigned to a dead node was assigned under an epoch from before its death |
| DeadNodes.StalledTickStrands | internal/scheduler/engine.go:89-112 | a run with a single tick in flight, no tick committing during a death, in which a node dies between the tick's reads and its commit and ends up with a scheduled task |
| DeadNodes.OvertakenDeathStrands | internal/store/nodes.go:200-225 | the same when the tick commits after the death has selected the rows to orphan, although no tick is open when the death commits |
| Capacity.CachedAccounting | internal/scheduler/engine.go:98-118 | at any commit the tick's cached reservation of a node is off a recount by exactly as much as its snapshot is off the state it commits into, and bounds it exactly when the snapshot does |
| Accounting.CachedIsUpperBound | internal/scheduler/engine.go:93-118 | when no other tick commits between the tick's read of the allocations and its commit, then however reports, deaths, registrations and new jobs interleave and with any number of ticks open, what the tick has cached is an upper bound of a recount for every node, equal to it exactly when no task has left the node since the read |
| Accounting.AnotherCommitBreaksBound | internal/scheduler/engine.go:93-118 | a run in which another tick's commit in between makes the recount exceed what is cached |
| Accounting.CachedBoundExactly | internal/scheduler/engine.go:93-118 | the bound holds in all runs if and only if no other tick commits in between |
| Capacity.CommitWithinCapacity | internal/scheduler/filters.go:21-24 | a commit whose reads were no better than the truth leaves every node within capacity, whatever other ticks are open |
| Capacity.NoOvercommit | internal/scheduler/engine.go:89-137 | with one tick in flight at a time and capacities never lowered, every node's scheduled and running requests stay within its CPU and memory in every state of every run |
| CapacityLimits.TwoTicksOvercommit | internal/scheduler/engine.go:89-118 | two ticks in flight, each blind to the other's writes, put a node at twice its capacity |
| CapacityLimits.ShrinkingOvercommits | internal/store/nodes.go:83-89 | registering again with less capacity overcommits a node that has a task |
| CapacityLimits.CapacityExactly | internal/scheduler/engine.go:75-142 | all runs with at most `most` ticks in flight stay within capacity if and only if most = 0, or most = 1 and capacities never shrink, whether nodes die in them or not |
| Audit.LogRefinesState | internal/store/jobs_tasks.go:319-337 | in every reachable state folding the event log rebuilds each task's status, assignment and retries_used and each node's status and epoch; schedulings less orphanings less retries is 1 for a task that is not pending and 0 otherwise; one terminal event exactly when the task is over; node epoch = registrations + deaths - 1 |
| Audit.BoundedAttempts | internal/store/jobs_tasks.go:505-513 | retries_used is at most max(0, retry_limit), and a task is scheduled at most 1 + max(0, retry_limit) + its orphanings times |
| Reports.ReportTakesEffect | internal/store/jobs_tasks.go:460-500 | a report changes something exactly when it is running, succeeded or failed, passes the fence and finds the task scheduled or running |
| Reports.ReportIdempotent | internal/store/jobs_tasks.go:436-471 | applying a report twice, the second time at any time, equals applying it once, rows and events |
| Reports.TerminalAbsorbs | internal/store/jobs_tasks.go:497-499 | once succeeded or failed, a row is the same in every later state of the run |
| Reports.StatusChangeIsProgress | internal/store/jobs_tasks.go:505-541 | every status change other than by the death of the node strictly decreases (retries left, status rank) lexicographically |
| Repeats.RepeatedReport | internal/store/jobs_tasks.go:547-573 | a final report that has taken effect takes effect again, at any later state of the run, if and only if the task is active under the node and epoch it names; and then it is a failure report and a tick has scheduled the task again in between |
| Repeats.OneReportEndsTwoAttempts | internal/store/jobs_tasks.go:547-573 | a run in which the same failure report, fenced, ends an attempt and then its retry on the same node and epoch |
| Lease.LeaseStore.TryAcquireOrRenew | internal/store/lease.go:35-105 | the row, the reply and the election event of every attempt: acquired exactly when the row was the caller's or had expired, then the caller's for TTL more, in the same epoch if it was the caller's and else in the next; otherwise the row is left; an error for an empty identity or a TTL that is not positive |
| Lease.Elector.Tick | internal/election/election.go:88-104 | the cache says what the row says: whether it is ours, its epoch and its leader's address; it keeps what it said when the reply is lost even if the transaction happened |
| Election.RunHistory | internal/store/lease.go:61-104 | in every state of every run the row's epoch is the number of elections, its leader the last one elected, consecutive elected identities differ, and a replica that thinks it leads was elected into the epoch it has cached, which is at most the row's; the leader's address that a replica has cached is that of the one elected into the epoch it has cached |
| Election.RenewalKeepsLeader | internal/store/lease.go:60-104 | a replica that has got the lease and runs lease transactions less than TTL - 2 eps apart remains the row's leader in the same epoch, whatever the others do, and each reply that reaches it leaves it thinking that it leads |
| Election.LeadersDifferInEpoch | internal/election/election.go:95-104 | two replicas that both think they lead, however stale, do so in different epochs |
| Election.StepChangesHolder | internal/store/lease.go:60-75 | the holder changes only by a transaction whose clock sees the lease expired, and that logs the election; a replica's cached epoch never goes back unless it restarts |
| Election.RunGrants | internal/store/lease.go:60-90 | a lease granted less than TTL - 2 eps ago is still the row's, in every state of every run |
| Election.LeaderExclusion | internal/election/election.go:88-104 | replicas that think they lead by leases younger than TTL - 2 eps are the row's leader, so two different ones never do at once |
| Election.TwoLeaders | internal/store/lease.go:60-62 | a run in which two replicas lead with leases no older than max(0, TTL - 2 eps) |
| Election.ExclusionExactly | internal/store/lease.go:60-90 | leases younger than `bound` exclude each other in every reachable state if and only if bound is at most max(0, TTL - 2 eps) |
| Detector.DefaultConfig | internal/failuredetector/failuredetector.go:49-55 | poll at half the interval; suspicion after two intervals, death after three; death threshold plus poll interval within 3.5 heartbeat intervals |
| Detector.Detector.EvaluateNode | internal/failuredetector/failuredetector.go:113-177 | dead with requeue exactly when the reading is known and its age has reached DeadAfter; if not, not ready exactly when its age has reached NotReadyAfter and it was listed as ready; untouched otherwise |
| Detector.Detector.Tick | internal/failuredetector/failuredetector.go:98-111 | the loop over the active nodes, with what is found out about each when its turn comes, turns every node row into what the detector judges it to be |
| Detector.Poll | internal/failuredetector/failuredetector.go:98-177 | an undisturbed poll makes dead, under the next epoch, exactly the ready and not-ready nodes whose known age has reached DeadAfter, makes not ready exactly the ready ones whose age is at least NotReadyAfter but below that, and leaves the other nodes; interleaved polls are in Handlers |
| Detector.PollRequeues | internal/store/nodes.go:200-248 | it makes pending exactly the tasks scheduled or running on the nodes that it declares dead, and leaves every other task |
| Revival.LeavesDead | internal/store/nodes.go:113-136 | a dead node stops being dead if and only if it registers again or a handler writes its status, which then had read it before it died |
| Handlers.ActKeepsOk | internal/failuredetector/failuredetector.go:98-177 | every action of every handler, interleaved with anything, keeps the row invariants, holds only rows of known nodes, downgrades only what it read as ready, and has each open death begun by exactly one handler |
| Handlers.ActIsStep | internal/grpcapi/heartbeat.go:35-68 | what a handler does to the store is always a step of the cluster state machine that is possible then, or nothing |
| Revival.DeadStayDead | internal/store/nodes.go:314-317 | when no death commits while another handler has a status write to the node pending, no action but registering it again makes a dead node not dead, in any history |
| Revival.StaleHeartbeatRevives | internal/grpcapi/heartbeat.go:35-65 | a history in which a heartbeat reads the node as not ready, its death commits, and the heartbeat then makes it ready |
| Revival.StaleReclaimRevives | internal/autoscaler/autoscaler.go:313-343 | a history in which two reclaims read the node as ready, one cordons and kills it, and the other then cordons it back among the living |
| Revival.DeadStayDeadExactly | internal/store/nodes.go:314-317 | a dead node stays dead until it registers again in all histories, if and only if no death commits while another handler that has read the node has a status write to it pending |
| Undisturbed.BeatAlone | internal/grpcapi/heartbeat.go:35-66 | a heartbeat's handler with nothing in between stamps the node and recovers it exactly when it was not ready |
| Undisturbed.ReclaimAlone | internal/autoscaler/autoscaler.go:313-343 | a reclaim's handler with nothing in between cordons the node unless it is cordoned already, and is then about to kill it |
| Undisturbed.NodeAlone | internal/failuredetector/failuredetector.go:113-177 | a poll's actions for one node with nothing in between are possible and do what the detector's evaluation of that node does |
| Undisturbed.PollAlone | internal/failuredetector/failuredetector.go:98-111 | a poll whose actions nothing interleaves with gets from node to node to the end of its list, and does what the sequential poll does with the ages that the nodes have |
| Liveness.DetectorCompleteness | internal/failuredetector/failuredetector.go:98-177 | an active node silent since t is dead at any time from t + DeadAfter + P on at which the latest completed poll began at most P ago, however polls of several replicas, heartbeat handlers, reclaims and other transactions interleave; only cordoning it, registering it, reviving it once dead, and failing reads and writes of the detector are excluded |
| Liveness.DefaultDetectionTime | internal/failuredetector/failuredetector.go:46-55 | with the default thresholds, and a completed poll that began at most a poll interval ago, 3.5 heartbeat intervals suffice |
| Liveness.DetectorAccuracy | internal/failuredetector/failuredetector.go:120-176 | a node that no poll has condemned, and that is younger than DeadAfter whenever one looks at it, is never marked dead and keeps its epoch and the rest of its row, whatever status writes others make |
| Liveness.FreshStaysReady | internal/failuredetector/failuredetector.go:158-175 | a ready node that is younger than NotReadyAfter and DeadAfter whenever a poll looks at it stays ready in any history, unless a reclaim sets out on it; polls that had already judged it are excluded at the start |
| Heartbeat.Server.Heartbeat | internal/grpcapi/heartbeat.go:27-93 | a heartbeat under another epoch, or one whose sign of life cannot be recorded, leaves no trace; any other stamps the node, applies its updates, recovers it from not ready and answers with exactly the tasks scheduled on it, each with the epoch its row was assigned under |
| Heartbeat.Server.RegisterNode | internal/grpcapi/register_node.go:15-52 | rejects exactly the requests with an empty name or address or a capacity that is not positive; any other is registered and seen, or only registered when the last-seen time cannot be recorded |
| Heartbeat.Server.ApplyUpdates | internal/grpcapi/heartbeat.go:51-60 | stale, unknown and unsupported updates are passed over; the first impossible transition stops the handler, after the updates before it took effect |
| Heartbeat.StopsExactly | internal/grpcapi/heartbeat.go:51-60 | the updates go through exactly when none, at its turn, asks of a task of its own that is neither scheduled nor running for a status it does not have |
| Heartbeat.FirstImpossibleEnds | internal/grpcapi/heartbeat.go:51-60 | the first impossible update leaves what those before it did and nothing of those after it |
| Heartbeat.ScheduledAnswers | internal/grpcapi/heartbeat.go:76-91 | in columns: the answer has each task scheduled on the node once and no other, with its row's assigned epoch, by time of scheduling and then by creation |
| Delivery.AnswerStarts | cmd/worker/main.go:410-451 | from rows to starts: a worker that handles the answer starts exactly the tasks scheduled on its node under its own epoch that it neither runs nor tracks, each once, and handling the answer again starts nothing |
| Heartbeat.Server.ListScheduled | internal/store/jobs_tasks.go:396-421 | exactly the tasks scheduled on the node, with the epochs they were assigned under, by time of scheduling and then by creation |
| Scaling.AutoscaledAre | internal/autoscaler/autoscaler.go:356-364 | exactly the nodes whose autoscaled label is "true", in the order in which they are listed |
| Scaling.ScalesUpExactly | internal/autoscaler/autoscaler.go:177-206 | a tick scales up exactly when the backlog is and has been at the threshold for the window, the cooldown is over, the containers can be listed, there is room and the call goes through; when each failure is reported, and what is remembered |
| Scaling.ReclaimsExactly | internal/autoscaler/autoscaler.go:208-234 | any other tick reclaims the first autoscaled node that is ready or cordoned, has nothing reserved, has been so for the window and finds the cooldown over, with the writes and the memory that this leaves; it does nothing if there is none; and it marks the nodes it gets to by whether they are in use |
| Scaling.SustainedBacklogScalesUp | internal/autoscaler/autoscaler.go:177-206 | in any run, a backlog at the threshold in every observation of a window, with the replica leading and no scale-up on the way, makes the tick at its end scale up if there is room, the call goes through and every earlier action is a cooldown ago |
| Scaling.IdleWorkerReclaimed | internal/autoscaler/autoscaler.go:208-233 | in any run, a worker seen unused, and not seen in use since, is set out to be reclaimed by the tick that gets to it a window later if every earlier action is a cooldown ago |
| Autoscaler.Runner.RunTick | internal/autoscaler/autoscaler.go:153-245 | what one tick does, writes and remembers, in all its early exits, with a clock reading for each cooldown check |
| Autoscaler.Runner.ReclaimNode | internal/autoscaler/autoscaler.go:313-354 | cordons unless cordoned, then marks dead; a failing cordon writes nothing, a failing container call leaves the node cordoned, and in both cases the mark and the cooldown stay as they were |
| Autoscaler.LooksExactly | internal/autoscaler/autoscaler.go:193-234 | a tick looks at an autoscaled node exactly when it does not exit early over scaling up and no node listed before it is due |
| Autoscaler.CooldownBetweenActions | internal/autoscaler/autoscaler.go:237-245 | over any run of a replica, successful scale actions are at least Cooldown apart |
| Autoscaler.ScaleUpIsSustained | internal/autoscaler/autoscaler.go:184-206 | each scale-up ends a stretch of at least SustainWindow in which every observation had the backlog at the threshold or above and the replica led throughout |
| Autoscaler.NeverTooManyWorkers | internal/autoscaler/autoscaler.go:193-206 | when this runner is the only creator, the managed containers never exceed the maximum |
| Autoscaler.ReclaimedWasIdle | internal/autoscaler/autoscaler.go:208-233 | a reclaim is attempted only of autoscaled nodes, idle in that observation and marked idle at least IdleWindow earlier, with no tick since the mark that looked at the node and saw it busy |
| Autoscaler.ReclaimedIdleExactly | internal/autoscaler/autoscaler.go:193-234 | from the event that set a node's mark to its reclaim, every observation shows it idle if and only if no tick that was cut short before the node observed it busy |
| Autoscaler.BusyCanBeMissed | internal/autoscaler/autoscaler.go:198-206 | a run in which a node that was busy in one observation is reclaimed for having been idle since before it |
| Worker.RedeliveryHarmless | cmd/worker/main.go:410-483 | however assignments are redelivered and starts and ends interleave, for every run: exactly one done callback once reported and none before, admission under the epoch the worker had when the assignment came, and while tracked it is the only tracked run of its task |
| Worker.RunsOnlyMoveOn | internal/executor/executor.go:104-141 | a run keeps its admission and only moves from tracked to untracked to reported, the last with its one callback |
| Worker.EachMatchingIsStarted | cmd/worker/main.go:410-451 | of any list of assignments, exactly the tasks named under the worker's own epoch that it neither runs nor tracks are put among the starts, each once and under that epoch, and tracked; nothing else changes |
| Worker.AdmittedOnce | cmd/worker/main.go:433-450 | between two admissions of one task the worker has forgotten the first, by an epoch rejection, a done callback or a failed start |
| Worker.ForgottenStartsAgain | cmd/worker/main.go:453-483 | a task that is forgotten and not running is started by the next matching assignment |
| Worker.Agent.HandleAssignments | cmd/worker/main.go:410-451 | the loop starts exactly those, skipping what is running, other epochs and what is tracked |
| Worker.Agent.StartTask | internal/executor/executor.go:104-131 | tracks a new run exactly when the task has none |
| Worker.Agent.Finish | internal/executor/executor.go:133-141 | the run leaves the map, then its callback drops the specification |

## Left out

- Leader gate: any replica may tick or poll at any time, as one with a stale cached leadership can. What is proved of all runs therefore holds with the gate as well; the overcommit by two ticks needs a tick that outlives its replica's lease, or two replicas that both think they lead.
- Claims of interleaved ticks: any at most 50 due, pending, unlocked rows may be claimed, in any order; only the store class takes the oldest first.
- Failing reads and lost connections: an open tick or death may be rolled back at any point; deadlock detection by the database is not modelled otherwise.
- Visibility: a death's node row and task rows change when it commits; between its two halves other transactions see the old rows, as with read-committed isolation, and are kept from the locked ones.
- Order of events that different transactions log at the same time: the log is in commit order.
- Placement.Place: scores are exact reals, where Go rounds to float64; ties and comparisons that rounding changes are not captured.
- Store.Store.ListActiveNodes: creation order is row order, so equal creation times do not occur.
- Detector.Detector.Tick: the loop runs undisturbed; polls interleaved with everything else are the handlers of Handlers, where a poll is one action for each node it looks at and two for each death.
- Detector.Poll: see Detector.Detector.Tick.
- Autoscaler.Runner.RunTick: the store's rows come as one observation, the docker calls as a listing and which call fails; what it writes to the store is a list of requests, which Handlers interleaves with everything else.
- Heartbeat.Server.Heartbeat: runs undisturbed; heartbeats interleaved with everything else are handlers of Handlers, without their task updates, which are reports of the cluster state machine.
- Worker: killing containers after an epoch rejection, reports sent to the scheduler and their retries are left out; a run is only what the executor tracks.
- Reports without a node id skip the fence (internal/store/jobs_tasks.go:548-551); the fencing theorem is about the node and epoch that a report names.
- Fair scheduling: no claim is made that every task eventually succeeds, which is false for a task assigned under a stale epoch until its node next dies.
- Integer widths: epochs, counters and resource amounts are unbounded, the largest duration is the 64-bit one.
- Statuses and fields that no store code writes or reads back: orphaned and cancelled tasks, image, command and names.
- Backoff is in milliseconds and is added to the store's clock, which is a parameter of the step.
- SQL, JSON, Redis, Docker, gRPC, redirects, metrics, logging, the event fan-out, the HTTP interface and the command-line client.
