/** The audit log tells the whole story: folding it rebuilds every task's status, assignment and
    retry count and every node's status and epoch, and its counts balance. */
module Audit {
  import opened Entities
  import opened ClusterState
  import opened RowInvariants

  // ---------- reading the log ----------

  datatype TaskSummary = TaskSummary(status: TaskStatus, node: Option<NodeId>, epoch: Option<int>, retries: int)

  const UNSCHEDULED := TaskSummary(Pending, None, None, 0)

  function TaskAfter(was: TaskSummary, ev: Event, t: TaskId): TaskSummary {
    match ev
    case TaskScheduled(x, n, e) => if x == t then was.(status := Scheduled, node := Some(n), epoch := Some(e)) else was
    case TaskRunning(x) => if x == t then was.(status := Running) else was
    case TaskSucceeded(x) => if x == t then was.(status := Succeeded) else was
    case TaskFailed(x) => if x == t then was.(status := Failed) else was
    case TaskOrphaned(x) => if x == t then was.(status := Pending, node := None, epoch := None) else was
    case TaskRetryScheduled(x) =>
      if x == t then TaskSummary(Pending, None, None, was.retries + 1) else was
    case _ => was
  }

  function FoldTask(events: seq<Event>, t: TaskId): TaskSummary {
    if events == [] then UNSCHEDULED
    else TaskAfter(FoldTask(events[..|events| - 1], t), events[|events| - 1], t)
  }

  datatype NodeSummary = NodeSummary(status: NodeStatus, epoch: int)

  function NodeAfter(was: Option<NodeSummary>, ev: Event, n: NodeId): Option<NodeSummary> {
    match ev
    case NodeRegistered(x) =>
      if x != n then was else Some(NodeSummary(Ready, if was.None? then 0 else was.value.epoch + 1))
    case NodeDead(x) => if x != n || was.None? then was else Some(NodeSummary(Dead, was.value.epoch + 1))
    case NodeNotReady(x) => if x != n || was.None? then was else Some(was.value.(status := NotReady))
    case NodeRecovered(x) => if x != n || was.None? then was else Some(was.value.(status := Ready))
    case NodeCordoned(x) => if x != n || was.None? then was else Some(was.value.(status := Cordoned))
    case _ => was
  }

  function FoldNode(events: seq<Event>, n: NodeId): Option<NodeSummary> {
    if events == [] then None
    else NodeAfter(FoldNode(events[..|events| - 1], n), events[|events| - 1], n)
  }

  datatype Kind =
    | SchedulingOf(task: TaskId)
    | OrphaningOf(task: TaskId)
    | RetryOf(task: TaskId)
    | EndOf(task: TaskId)
    | RegistrationOf(node: NodeId)
    | DeathOf(node: NodeId)

  predicate Matches(ev: Event, kind: Kind) {
    match kind
    case SchedulingOf(t) => ev.TaskScheduled? && ev.task == t
    case OrphaningOf(t) => ev == TaskOrphaned(t)
    case RetryOf(t) => ev == TaskRetryScheduled(t)
    case EndOf(t) => ev == TaskSucceeded(t) || ev == TaskFailed(t)
    case RegistrationOf(n) => ev == NodeRegistered(n)
    case DeathOf(n) => ev == NodeDead(n)
  }

  function Count(events: seq<Event>, kind: Kind): nat {
    if events == [] then 0
    else Count(events[..|events| - 1], kind) + if Matches(events[|events| - 1], kind) then 1 else 0
  }

  // ---------- the log agrees with the rows ----------

  function SummaryOf(s: Cluster, t: TaskId): TaskSummary {
    if t < |s.tasks| then
      TaskSummary(s.tasks[t].status, s.tasks[t].assignedNode, s.tasks[t].assignedEpoch, s.tasks[t].retriesUsed)
    else UNSCHEDULED
  }

  function NodeSummaryOf(s: Cluster, n: NodeId): Option<NodeSummary> {
    if n < |s.nodes| then Some(NodeSummary(s.nodes[n].status, s.nodes[n].epoch)) else None
  }

  /** The log rebuilds the task, and its schedulings are accounted for: each ended in an orphaning, in
      a retry, or is the one the task has now; there is one end exactly when the task is over. */
  ghost predicate TaskLogged(events: seq<Event>, t: TaskId, now: TaskSummary) {
    && FoldTask(events, t) == now
    && Count(events, SchedulingOf(t)) - Count(events, OrphaningOf(t)) - Count(events, RetryOf(t))
       == (if now.status == Pending then 0 else 1)
    && Count(events, RetryOf(t)) == now.retries
    && Count(events, EndOf(t)) == if now.status == Succeeded || now.status == Failed then 1 else 0
  }

  ghost predicate NodeLogged(events: seq<Event>, n: NodeId, now: Option<NodeSummary>) {
    && FoldNode(events, n) == now
    && Count(events, RegistrationOf(n)) + Count(events, DeathOf(n)) == if now.Some? then now.value.epoch + 1 else 0
  }

  ghost predicate Logged(s: Cluster) {
    && (forall t: TaskId :: TaskLogged(s.events, t, SummaryOf(s, t)))
    && (forall n: NodeId :: NodeLogged(s.events, n, NodeSummaryOf(s, n)))
  }

  lemma AppendCount(events: seq<Event>, ev: Event, kind: Kind)
    ensures Count(events + [ev], kind) == Count(events, kind) + if Matches(ev, kind) then 1 else 0
  {
    assert (events + [ev])[..|events|] == events;
  }

  lemma AppendFold(events: seq<Event>, ev: Event, t: TaskId)
    ensures FoldTask(events + [ev], t) == TaskAfter(FoldTask(events, t), ev, t)
    ensures FoldNode(events + [ev], t) == NodeAfter(FoldNode(events, t), ev, t)
  {
    assert (events + [ev])[..|events|] == events;
  }

  /** The event, as news about task `t` in state `was`, is one that the cluster writes. */
  predicate Legal(was: TaskSummary, ev: Event, t: TaskId) {
    match ev
    case TaskScheduled(x, _, _) => x == t ==> was.status == Pending
    case TaskRunning(x) => x == t ==> was.status == Scheduled
    case TaskSucceeded(x) => x == t ==> was.status == Scheduled || was.status == Running
    case TaskFailed(x) => x == t ==> was.status == Scheduled || was.status == Running
    case TaskOrphaned(x) => x == t ==> was.status == Scheduled || was.status == Running
    case TaskRetryScheduled(x) => x == t ==> was.status == Scheduled || was.status == Running
    case _ => true
  }

  lemma AppendTask(events: seq<Event>, ev: Event, t: TaskId, was: TaskSummary)
    requires TaskLogged(events, t, was) && Legal(was, ev, t)
    ensures TaskLogged(events + [ev], t, TaskAfter(was, ev, t))
  {
    AppendFold(events, ev, t);
    AppendCount(events, ev, SchedulingOf(t));
    AppendCount(events, ev, OrphaningOf(t));
    AppendCount(events, ev, RetryOf(t));
    AppendCount(events, ev, EndOf(t));
  }

  lemma AppendNode(events: seq<Event>, ev: Event, n: NodeId, was: Option<NodeSummary>)
    requires NodeLogged(events, n, was)
    requires ev == NodeDead(n) ==> was.Some?
    ensures NodeLogged(events + [ev], n, NodeAfter(was, ev, n))
  {
    AppendFold(events, ev, n);
    AppendCount(events, ev, RegistrationOf(n));
    AppendCount(events, ev, DeathOf(n));
  }

  /** Appending one event while the rows change as it says. */
  lemma AppendLogged(s: Cluster, ev: Event, s': Cluster)
    requires Logged(s) && s'.events == s.events + [ev]
    requires forall t: TaskId :: Legal(SummaryOf(s, t), ev, t) && SummaryOf(s', t) == TaskAfter(SummaryOf(s, t), ev, t)
    requires forall n: NodeId :: NodeSummaryOf(s', n) == NodeAfter(NodeSummaryOf(s, n), ev, n)
    requires ev.NodeDead? ==> ev.node < |s.nodes|
    ensures Logged(s')
  {
    forall t: TaskId ensures TaskLogged(s'.events, t, SummaryOf(s', t)) {
      assert TaskLogged(s.events, t, SummaryOf(s, t));
      AppendTask(s.events, ev, t, SummaryOf(s, t));
    }
    forall n: NodeId ensures NodeLogged(s'.events, n, NodeSummaryOf(s', n)) {
      assert NodeLogged(s.events, n, NodeSummaryOf(s, n));
      AppendNode(s.events, ev, n, NodeSummaryOf(s, n));
    }
  }

  /** Changes that the log does not speak of. */
  lemma SameLogged(s: Cluster, s': Cluster)
    requires Logged(s) && s'.events == s.events
    requires forall t: TaskId :: SummaryOf(s', t) == SummaryOf(s, t)
    requires forall n: NodeId :: NodeSummaryOf(s', n) == NodeSummaryOf(s, n)
    ensures Logged(s')
  {
    forall t: TaskId ensures TaskLogged(s'.events, t, SummaryOf(s', t)) {
      assert TaskLogged(s.events, t, SummaryOf(s, t));
    }
    forall n: NodeId ensures NodeLogged(s'.events, n, NodeSummaryOf(s', n)) {
      assert NodeLogged(s.events, n, NodeSummaryOf(s, n));
    }
  }

  // ---------- every step ----------

  lemma CreateLogged(s: Cluster, job: Job)
    requires Logged(s)
    ensures Logged(CreateJob(s, job))
  {
    if JobAccepted(job) {
      ReplicasAre(|s.jobs|, job.replicas);
      AppendLogged(s, JobSubmitted(|s.jobs|), CreateJob(s, job));
    }
  }

  lemma RegisterLogged(s: Cluster, reg: Registration)
    requires Logged(s) && RegistrationAccepted(reg)
    ensures Logged(RegisterNode(s, reg))
  {
    var found := ExistingNode(s, reg);
    AppendLogged(s, NodeRegistered(if found.Some? then found.value else |s.nodes|), RegisterNode(s, reg));
  }

  lemma StatusLogged(s: Cluster, n: NodeId, change: StatusChange)
    requires Logged(s)
    ensures Logged(UpdateNodeStatus(s, n, change))
  {
    if n < |s.nodes| {
      AppendLogged(s, StatusEvent(change, n), UpdateNodeStatus(s, n, change));
    }
  }

  lemma ReportLogged(s: Cluster, r: Report, now: int)
    requires Logged(s)
    ensures Logged(UpdateTaskStatus(s, r, now))
  {
    if r.task < |s.tasks| {
      var up := UpdateRow(s.tasks[r.task], RetryLimit(s.jobs, s.tasks[r.task]), r, now);
      var s' := UpdateTaskStatus(s, r, now);
      if up.logged == [] {
        SameLogged(s, s');
      } else {
        AppendLogged(s, up.logged[0], s');
      }
    }
  }

  lemma OrphanLogged(s: Cluster, t: TaskId)
    requires Logged(s) && t < |s.tasks| && Active(s.tasks[t])
    ensures Logged(OrphanTask(s, t))
  {
    var s' := OrphanTask(s, t);
    var mid := s'.(events := s.events + [TaskOrphaned(t)]);
    AppendLogged(s, TaskOrphaned(t), mid);
    assert s'.events == mid.events + [TaskRequeued(t)];
    AppendLogged(mid, TaskRequeued(t), s');
  }

  lemma {:induction false} OrphansLogged(s: Cluster, ids: seq<TaskId>)
    requires Logged(s) && Distinct(ids) && InRange(ids, |s.tasks|)
    requires forall i :: 0 <= i < |ids| ==> Active(s.tasks[ids[i]])
    ensures Logged(OrphanTasks(s, ids))
  {
    if ids != [] {
      var last := |ids| - 1;
      OrphansLogged(s, ids[..last]);
      OrphanTasksRows(s, ids[..last]);
      assert ids[last] !in ids[..last];
      OrphanLogged(OrphanTasks(s, ids[..last]), ids[last]);
    }
  }

  lemma FinishDeathLogged(s: Cluster, n: NodeId)
    requires Logged(s) && Inv(s) && Enabled(s, FinishDeathStep(n))
    ensures Logged(FinishDeath(s, n))
  {
    var closed := s.(deaths := s.deaths - {n});
    SameLogged(s, closed);
    AppendLogged(closed, NodeDead(n), RecordDeath(closed, n));
    assert DeathOk(s, n, s.deaths[n]);
    OrphansLogged(RecordDeath(closed, n), s.deaths[n]);
  }

  lemma {:induction false} ScheduledLogged(s: Cluster, reqs: seq<TaskRequest>, nodes: seq<Node>, placed: seq<Option<nat>>, now: int)
    requires Logged(s) && |placed| <= |reqs|
    requires forall i :: 0 <= i < |placed| && placed[i].Some? ==> placed[i].value < |nodes|
    ensures var w := SchedulePlaced(s, reqs, nodes, placed, now);
            w.Some? ==> Logged(w.value)
  {
    if placed != [] {
      var last := |placed| - 1;
      ScheduledLogged(s, reqs, nodes, placed[..last], now);
      var prev := SchedulePlaced(s, reqs, nodes, placed[..last], now);
      if prev.Some? && placed[last].Some? {
        OneScheduledLogged(prev.value, reqs[last].id, nodes[placed[last].value], now);
      }
    }
  }

  lemma OneScheduledLogged(s: Cluster, t: TaskId, node: Node, now: int)
    requires Logged(s)
    ensures var w := ScheduleTask(s, t, node.id, node.epoch, now);
            w.Some? ==> Logged(w.value)
  {
    var w := ScheduleTask(s, t, node.id, node.epoch, now);
    if w.Some? {
      AppendLogged(s, TaskScheduled(t, node.id, node.epoch), w.value);
    }
  }

  lemma CommitLogged(s: Cluster, r: Replica, now: int)
    requires Logged(s) && ReadyToCommit(s, r)
    ensures Logged(CommitTick(s, r, now))
  {
    SameLogged(s, CloseTick(s, r));
    var tick := s.ticks[r];
    ScheduledLogged(CloseTick(s, r), tick.reqs, tick.nodes.value, Placements(tick), now);
  }

  lemma StepLogged(s: Cluster, a: Step)
    requires Logged(s) && Inv(s) && Enabled(s, a)
    ensures Logged(Apply(s, a))
  {
    match a
    case CreateJobStep(job) => CreateLogged(s, job);
    case RegisterNodeStep(reg) =>
      if RegistrationAccepted(reg) {
        RegisterLogged(s, reg);
      }
    case UpdateNodeStatusStep(n, change) => StatusLogged(s, n, change);
    case FinishDeathStep(n) => FinishDeathLogged(s, n);
    case ReportStep(rep, now) => ReportLogged(s, rep, now);
    case CommitTickStep(r, now) => CommitLogged(s, r, now);
    case _ => SameLogged(s, Apply(s, a));
  }

  /** In every state of every run, the log alone rebuilds each task's status, assignment and
      retries_used and each node's status and epoch; #scheduled - #orphaned - #retry_scheduled is 1
      for a task that is not pending and 0 otherwise; a task has one terminal event exactly when it is
      over; a node's epoch is #registered + #dead - 1. */
  lemma {:induction false} LogRefinesState(run: Run, i: nat)
    requires IsRun(run) && i < |run.states|
    ensures Logged(run.states[i])
  {
    if i > 0 {
      LogRefinesState(run, i - 1);
      RunInv(run, i - 1);
      assert StepAt(run, i - 1);
      StepLogged(run.states[i - 1], run.steps[i - 1]);
    } else {
      InitialLogged();
    }
  }

  lemma InitialLogged()
    ensures Logged(INITIAL)
  {}

  /** A task is scheduled at most once, plus once for each retry its job allows, plus once for each
      time the death of a node orphaned it. */
  lemma BoundedAttempts(run: Run, i: nat, t: TaskId)
    requires IsRun(run) && i < |run.states| && t < |run.states[i].tasks|
    requires run.states[i].tasks[t].job < |run.states[i].jobs|
    ensures var s := run.states[i];
            var limit := s.jobs[s.tasks[t].job].retryLimit;
            && s.tasks[t].retriesUsed <= (if limit < 0 then 0 else limit)
            && Count(s.events, SchedulingOf(t)) <= 1 + (if limit < 0 then 0 else limit) + Count(s.events, OrphaningOf(t))
  {
    LogRefinesState(run, i);
    RunInv(run, i);
    var s := run.states[i];
    assert TaskLogged(s.events, t, SummaryOf(s, t));
    assert TaskOk(s.nodes, s.jobs, s.tasks[t]);
  }
}
