/** What each transaction of the store does to the columns of its tables. The functions of the state
    machine share helpers; the laws here use none of them, only columns, so that each can be held
    against the transaction it is about. */
module Meaning {
  import opened Entities
  import opened Placement
  import opened ClusterState
  import opened RowInvariants

  // ---------- reports ----------

  /** The report names the assignment that the task has, or no node. */
  predicate NamesAssignment(t: Task, r: Report) {
    r.node.None? || (t.assignedNode == r.node && t.assignedEpoch == Some(r.epoch))
  }

  /** Whether a report changes anything, in terms of columns: it is one of the three a worker sends, the
      task is there, it is the report of the task's own assignment, and the task is scheduled or running. */
  lemma ReportApplies(s: Cluster, r: Report, now: int)
    ensures ReportOutcome(s, r, now) == Updated <==>
            && r.task < |s.tasks|
            && r.status in {Running, Succeeded, Failed}
            && NamesAssignment(s.tasks[r.task], r)
            && s.tasks[r.task].status in {Scheduled, Running}
    ensures ReportOutcome(s, r, now) != Updated ==> UpdateTaskStatus(s, r, now) == s
    ensures ReportOutcome(s, r, now) == NotFound <==> r.task >= |s.tasks|
    ensures ReportOutcome(s, r, now) == Stale <==> r.task < |s.tasks| && !NamesAssignment(s.tasks[r.task], r)
    ensures ReportOutcome(s, r, now) == AlreadyDone <==>
            && r.task < |s.tasks| && NamesAssignment(s.tasks[r.task], r)
            && r.status in {Succeeded, Failed} && s.tasks[r.task].status == r.status
  {
    if r.task < |s.tasks| {
      assert s.tasks[r.task := s.tasks[r.task]] == s.tasks;
      assert s.events + [] == s.events;
    }
  }

  /** A report is about one row, and adds at most one event. */
  lemma ReportTouchesOneRow(s: Cluster, r: Report, now: int)
    ensures var s' := UpdateTaskStatus(s, r, now);
            && s' == s.(tasks := s'.tasks, events := s'.events)
            && |s'.tasks| == |s.tasks|
            && (forall t :: 0 <= t < |s.tasks| && t != r.task ==> s'.tasks[t] == s.tasks[t])
            && (s'.events == s.events || exists ev :: s'.events == s.events + [ev])
  {
    assert s.events + [] == s.events;
  }

  /** A report of running: the row is running, started now unless it had been, with no retry time; the
      rest of it is as it was, and the start is logged once. */
  lemma RunningReport(s: Cluster, r: Report, now: int)
    requires ReportOutcome(s, r, now) == Updated && r.status == Running
    ensures var t, t' := s.tasks[r.task], UpdateTaskStatus(s, r, now).tasks[r.task];
            && t' == t.(status := Running, startedAt := t'.startedAt, nextRetryAt := None)
            && t'.startedAt == (if t.startedAt.None? then Some(now) else t.startedAt)
    ensures UpdateTaskStatus(s, r, now).events
            == s.events + if s.tasks[r.task].status == Scheduled then [TaskRunning(r.task)] else []
  {}

  /** A final report that is not retried: status, exit code, error and times are those of the report; the
      assignment and the retries are as they were. */
  lemma FinalReport(s: Cluster, r: Report, now: int)
    requires ReportOutcome(s, r, now) == Updated && s.tasks[r.task].job < |s.jobs|
    requires r.status == Succeeded || (r.status == Failed && s.tasks[r.task].retriesUsed >= s.jobs[s.tasks[r.task].job].retryLimit)
    ensures var t, t' := s.tasks[r.task], UpdateTaskStatus(s, r, now).tasks[r.task];
            && t'.status == r.status
            && t'.exitCode == r.exitCode
            && (if r.error == "" then t'.lastError == None else t'.lastError == Some(r.error))
            && t'.finishedAt == Some(now)
            && t'.startedAt == (if t.startedAt.None? then Some(now) else t.startedAt)
            && t'.nextRetryAt == None
            && t'.job == t.job && t'.assignedNode == t.assignedNode && t'.assignedEpoch == t.assignedEpoch
            && t'.retriesUsed == t.retriesUsed && t'.scheduledAt == t.scheduledAt
    ensures UpdateTaskStatus(s, r, now).events
            == s.events + [if r.status == Failed then TaskFailed(r.task) else TaskSucceeded(r.task)]
  {}

  /** The waiting time before the `k`th retry: half a second, doubled for each further one, at most 16 s. */
  lemma BackoffDoubles(k: int)
    requires k >= 1
    ensures RetryBackoff(1) == 500
    ensures RetryBackoff(k + 1) == if 2 * RetryBackoff(k) > 16000 then 16000 else 2 * RetryBackoff(k)
  {
    assert Pow2(0) == 1 && Pow2(1) == 2 && Pow2(2) == 4 && Pow2(3) == 8 && Pow2(4) == 16 && Pow2(5) == 32;
  }

  /** A failed report with a retry left: the row is pending again, unassigned, with one more retry used, what
      the report says of the failure, and a retry time one waiting time from now. */
  lemma FailureIsRequeued(s: Cluster, r: Report, now: int)
    requires ReportOutcome(s, r, now) == Updated && r.status == Failed && s.tasks[r.task].job < |s.jobs|
    requires s.tasks[r.task].retriesUsed < s.jobs[s.tasks[r.task].job].retryLimit
    ensures var t, t' := s.tasks[r.task], UpdateTaskStatus(s, r, now).tasks[r.task];
            && t'.status == Pending && t'.job == t.job
            && t'.retriesUsed == t.retriesUsed + 1
            && t'.nextRetryAt == Some(now + RetryBackoff(t.retriesUsed + 1))
            && t'.exitCode == r.exitCode
            && (if r.error == "" then t'.lastError == None else t'.lastError == Some(r.error))
            && t'.assignedNode == None && t'.assignedEpoch == None
            && t'.scheduledAt == None && t'.startedAt == None && t'.finishedAt == None
    ensures UpdateTaskStatus(s, r, now).events == s.events + [TaskRetryScheduled(r.task)]
  {}

  // ---------- deaths ----------

  /** A death with nothing in between, in columns: the node is dead under the next epoch; exactly the tasks
      scheduled or running on it are pending again, unassigned, due at once, and say why; their retries,
      exit codes and jobs, and every other row, are as they were. */
  lemma DeathMeaning(s: Cluster, n: NodeId, t: TaskId)
    requires Inv(s) && n < |s.nodes| && n !in s.deaths && t < |s.tasks|
    ensures Enabled(BeginDeath(s, n), FinishDeathStep(n))
    ensures var s' := FinishDeath(BeginDeath(s, n), n);
            && |s'.nodes| == |s.nodes| && |s'.tasks| == |s.tasks| && s'.jobs == s.jobs
            && s'.nodes[n] == s.nodes[n].(status := Dead, epoch := s.nodes[n].epoch + 1)
            && (forall m :: 0 <= m < |s.nodes| && m != n ==> s'.nodes[m] == s.nodes[m])
            && s'.tasks[t] ==
               if s.tasks[t].assignedNode == Some(n) && s.tasks[t].status in {Scheduled, Running}
               then Task(s.tasks[t].job, Pending, None, None, s.tasks[t].retriesUsed, s.tasks[t].exitCode,
                         Some("requeued after node failure"), None, None, None, None)
               else s.tasks[t]
  {
    BeginDeathKeepsInv(s, n);
    FinishDeathEnabled(BeginDeath(s, n), n);
    FinishDeathEffect(BeginDeath(s, n), n);
  }

  /** What a death logs: the node's death, and then for each orphaned task, in order of creation, that it was
      orphaned and that it was requeued. */
  function DeathLog(n: NodeId, ids: seq<TaskId>): seq<Event> {
    if ids == [] then [NodeDead(n)]
    else DeathLog(n, ids[..|ids| - 1]) + [TaskOrphaned(ids[|ids| - 1]), TaskRequeued(ids[|ids| - 1])]
  }

  lemma {:induction false} OrphansLog(s: Cluster, n: NodeId, ids: seq<TaskId>, before: seq<Event>)
    requires InRange(ids, |s.tasks|) && s.events == before + [NodeDead(n)]
    ensures OrphanTasks(s, ids).events == before + DeathLog(n, ids)
  {
    if ids != [] {
      OrphansLog(s, n, ids[..|ids| - 1], before);
    }
  }

  lemma DeathLogs(s: Cluster, n: NodeId) returns (ids: seq<TaskId>)
    requires Inv(s) && n < |s.nodes| && n !in s.deaths
    ensures Enabled(BeginDeath(s, n), FinishDeathStep(n))
    ensures FinishDeath(BeginDeath(s, n), n).events == s.events + DeathLog(n, ids)
    ensures forall t: TaskId :: t in ids <==>
                                  t < |s.tasks| && s.tasks[t].assignedNode == Some(n) && s.tasks[t].status in {Scheduled, Running}
    ensures forall i, j :: 0 <= i < j < |ids| ==> ids[i] < ids[j]
  {
    BeginDeathKeepsInv(s, n);
    FinishDeathEnabled(BeginDeath(s, n), n);
    ids := ActiveIds(s.tasks, n, |s.tasks|);
    SelectedLog(BeginDeath(s, n), n);
  }

  lemma SelectedLog(s: Cluster, n: NodeId)
    requires n < |s.nodes| && n in s.deaths && InRange(s.deaths[n], |s.tasks|)
    ensures FinishDeath(s, n).events == s.events + DeathLog(n, s.deaths[n])
  {
    OrphansLog(RecordDeath(s.(deaths := s.deaths - {n}), n), n, s.deaths[n], s.events);
  }

  // ---------- nodes ----------

  /** A registration, in columns: the row with that hostname and address, or a new last one, holds what the
      request says and is ready; a known row keeps its id and steps its epoch, a new one starts at 0; no
      other row, no task and no job changes. */
  lemma RegistrationMeaning(s: Cluster, reg: Registration)
    requires Inv(s)
    ensures var s' := RegisterNode(s, reg);
            && s'.tasks == s.tasks && s'.jobs == s.jobs
            && exists n: NodeId ::
                 && n < |s'.nodes| && s'.events == s.events + [NodeRegistered(n)]
                 && s'.nodes[n].id == n && s'.nodes[n].hostname == reg.hostname && s'.nodes[n].address == reg.address
                 && s'.nodes[n].capacity == reg.capacity && s'.nodes[n].status == Ready
                 && s'.nodes[n].labels == Some(if reg.labels.None? then map[] else reg.labels.value)
                 && (if n < |s.nodes|
                     then |s'.nodes| == |s.nodes| && s.nodes[n].hostname == reg.hostname && s.nodes[n].address == reg.address
                          && s'.nodes[n].epoch == s.nodes[n].epoch + 1
                     else n == |s.nodes| && |s'.nodes| == |s.nodes| + 1 && s'.nodes[n].epoch == 0
                          && forall m :: 0 <= m < |s.nodes| ==>
                                           s.nodes[m].hostname != reg.hostname || s.nodes[m].address != reg.address)
                 && (forall m :: 0 <= m < |s.nodes| && m != n ==> s'.nodes[m] == s.nodes[m])
  {
    assert forall i :: 0 <= i < |s.nodes| ==> NodeOk(s.nodes[i], i);
    var found := ExistingNode(s, reg);
    var n := if found.Some? then found.value else |s.nodes|;
    assert n < |RegisterNode(s, reg).nodes| && RegisterNode(s, reg).nodes[n].id == n;
  }

  /** A status write: the node has the status, nothing else about it changes, and it is logged. */
  lemma StatusMeaning(s: Cluster, n: NodeId, change: StatusChange)
    requires n < |s.nodes|
    ensures var s' := UpdateNodeStatus(s, n, change);
            && |s'.nodes| == |s.nodes| && s'.tasks == s.tasks && s'.jobs == s.jobs
            && (forall m :: 0 <= m < |s.nodes| && m != n ==> s'.nodes[m] == s.nodes[m])
            && s'.nodes[n] == s.nodes[n].(status := s'.nodes[n].status)
            && match change
               case LoseTouch => s'.nodes[n].status == NotReady && s'.events == s.events + [NodeNotReady(n)]
               case Recover => s'.nodes[n].status == Ready && s'.events == s.events + [NodeRecovered(n)]
               case Cordon => s'.nodes[n].status == Cordoned && s'.events == s.events + [NodeCordoned(n)]
  {}

  /** The nodes that placement and the detector look at: each that is ready or not ready, once, as its row
      is, oldest first; never one that is dead or cordoned. */
  lemma ListedNodes(s: Cluster)
    requires Inv(s)
    ensures var list := ActiveNodes(s.nodes, |s.nodes|);
            && (forall n: NodeId :: n < |s.nodes| && s.nodes[n].status in {Ready, NotReady} ==> s.nodes[n] in list)
            && (forall i :: 0 <= i < |list| ==>
                              list[i].status in {Ready, NotReady} && list[i].id < |s.nodes| && list[i] == s.nodes[list[i].id])
            && (forall i, j :: 0 <= i < j < |list| ==> list[i].id < list[j].id)
  {
    assert forall i :: 0 <= i < |s.nodes| ==> NodeOk(s.nodes[i], i);
    ActiveNodesAre(s.nodes, |s.nodes|);
  }

  // ---------- jobs ----------

  /** A job is refused when it has no replica, asks for no CPU or no memory, or names a policy other than
      the two; an empty policy stands for bin-packing. */
  lemma RefusedJob(s: Cluster, job: Job)
    requires job.replicas < 1 || job.request.cpu <= 0 || job.request.mem <= 0 || job.policy !in {"", "bin_pack", "spread"}
    ensures CreateJob(s, job) == s
  {}

  /** Any other is stored as it is, with `replicas` new rows, pending, unassigned, due at once and with no
      retry used, after those that were there. */
  lemma AcceptedJob(s: Cluster, job: Job)
    requires job.replicas >= 1 && job.request.cpu > 0 && job.request.mem > 0 && job.policy in {"", "bin_pack", "spread"}
    ensures var s' := CreateJob(s, job);
            && s'.nodes == s.nodes && |s'.jobs| == |s.jobs| + 1 && s'.jobs[..|s.jobs|] == s.jobs
            && s'.jobs[|s.jobs|] == job.(policy := if job.policy == "" then "bin_pack" else job.policy)
            && |s'.tasks| == |s.tasks| + job.replicas && s'.tasks[..|s.tasks|] == s.tasks
            && (forall t :: |s.tasks| <= t < |s'.tasks| ==>
                              s'.tasks[t] == Task(|s.jobs|, Pending, None, None, 0, None, None, None, None, None, None))
            && s'.events == s.events + [JobSubmitted(|s.jobs|)]
  {
    ReplicasAre(|s.jobs|, job.replicas);
  }

  // ---------- scheduling ----------

  /** An assignment, in columns: it happens exactly to a pending row. */
  lemma AssignmentMeaning(s: Cluster, t: TaskId, n: NodeId, epoch: int, now: int)
    ensures var w := ScheduleTask(s, t, n, epoch, now);
            && (w.Some? <==> t < |s.tasks| && s.tasks[t].status == Pending)
            && (w.Some? ==>
                  && |w.value.tasks| == |s.tasks| && w.value.nodes == s.nodes && w.value.jobs == s.jobs
                  && (forall x :: 0 <= x < |s.tasks| && x != t ==> w.value.tasks[x] == s.tasks[x])
                  && w.value.tasks[t].status == Scheduled
                  && w.value.tasks[t].assignedNode == Some(n) && w.value.tasks[t].assignedEpoch == Some(epoch)
                  && w.value.tasks[t].scheduledAt == Some(now)
                  && w.value.tasks[t] == s.tasks[t].(status := Scheduled, assignedNode := Some(n), assignedEpoch := Some(epoch),
                                                     scheduledAt := Some(now))
                  && w.value.events == s.events + [TaskScheduled(t, n, epoch)])
  {}

  /** What a node holds, task by task: the requests of the jobs of the rows that are scheduled or running on
      it, and of no others. */
  lemma HeldByTasks(jobs: seq<Job>, tasks: seq<Task>, row: Task, n: NodeId)
    requires row.job < |jobs|
    ensures Allocation(jobs, [], n) == Resources(0, 0)
    ensures var before, after := Allocation(jobs, tasks, n), Allocation(jobs, tasks + [row], n);
            if row.status in {Scheduled, Running} && row.assignedNode == Some(n)
            then after.cpu == before.cpu + jobs[row.job].request.cpu && after.mem == before.mem + jobs[row.job].request.mem
            else after.cpu == before.cpu && after.mem == before.mem
  {
    assert (tasks + [row])[..|tasks|] == tasks;
  }

  /** A claim takes only rows that are pending and due and that no other open transaction holds, each once
      and at most 50, and takes with each what its job asks for. */
  lemma ClaimMeaning(s: Cluster, r: Replica, ids: seq<TaskId>, now: int, i: nat)
    requires Inv(s) && Enabled(s, ClaimStep(r, ids, now)) && i < |ids|
    ensures |ids| <= 50 && ids[i] < |s.tasks|
    ensures var t, reqs := s.tasks[ids[i]], Claim(s, r, ids).ticks[r].reqs;
            && t.status == Pending && (t.nextRetryAt.None? || t.nextRetryAt.value <= now)
            && |reqs| == |ids| && reqs[i].id == ids[i] && t.job < |s.jobs|
            && reqs[i].request == s.jobs[t.job].request && reqs[i].policy == s.jobs[t.job].policy
            && reqs[i].constraints == s.jobs[t.job].constraints
    ensures forall p, k :: p in s.ticks && 0 <= k < |s.ticks[p].reqs| ==> s.ticks[p].reqs[k].id != ids[i]
    ensures forall n :: n in s.deaths ==> ids[i] !in s.deaths[n]
    ensures Claim(s, r, ids) == s.(ticks := s.ticks[r := Claim(s, r, ids).ticks[r]])
  {
    forall p, k | p in s.ticks && 0 <= k < |s.ticks[p].reqs| ensures s.ticks[p].reqs[k].id != ids[i] {
      NotClaimed(s, ids[i], p, k);
    }
  }
}
