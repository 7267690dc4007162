/** Accounting of what tasks reserve on nodes, and when the cluster stays within capacity. */
module Capacity {
  import opened Entities
  import opened Placement
  import opened Engine
  import opened ClusterState
  import opened RowInvariants

  // ---------- allocations as rows change ----------

  /** `b` is `a` with `out` taken away and `in'` added. */
  predicate Moves(a: Resources, out: Resources, in': Resources, b: Resources) {
    b.cpu == a.cpu - out.cpu + in'.cpu && b.mem == a.mem - out.mem + in'.mem
  }

  lemma {:induction false} AllocationUpdate(jobs: seq<Job>, tasks: seq<Task>, t: TaskId, row: Task, n: NodeId)
    requires t < |tasks|
    ensures Moves(Allocation(jobs, tasks, n), Weight(jobs, tasks[t], n), Weight(jobs, row, n),
                  Allocation(jobs, tasks[t := row], n))
  {
    var last := |tasks| - 1;
    if t == last {
      assert tasks[t := row][..last] == tasks[..last];
    } else {
      assert tasks[t := row][..last] == tasks[..last][t := row];
      AllocationUpdate(jobs, tasks[..last], t, row, n);
    }
  }

  lemma {:induction false} AllocationOldJobs(jobs: seq<Job>, more: seq<Job>, tasks: seq<Task>, n: NodeId)
    requires forall t :: 0 <= t < |tasks| ==> tasks[t].job < |jobs|
    ensures Allocation(jobs + more, tasks, n).Same(Allocation(jobs, tasks, n))
  {
    if tasks != [] {
      AllocationOldJobs(jobs, more, tasks[..|tasks| - 1], n);
    }
  }

  lemma AllocationLast(jobs: seq<Job>, tasks: seq<Task>, n: NodeId)
    requires tasks != []
    ensures Allocation(jobs, tasks, n).IsSum(Allocation(jobs, tasks[..|tasks| - 1], n), Weight(jobs, tasks[|tasks| - 1], n))
  {}

  lemma IdleWeighsNothing(jobs: seq<Job>, t: Task, n: NodeId)
    requires !ActiveOn(t, n)
    ensures Weight(jobs, t, n).Same(NOTHING)
  {}

  lemma AllocationSnoc(jobs: seq<Job>, tasks: seq<Task>, row: Task, n: NodeId)
    ensures Allocation(jobs, tasks + [row], n).IsSum(Allocation(jobs, tasks, n), Weight(jobs, row, n))
  {
    assert (tasks + [row])[..|tasks|] == tasks;
    AllocationLast(jobs, tasks + [row], n);
  }

  lemma {:induction false} AllocationNewTasks(jobs: seq<Job>, tasks: seq<Task>, j: JobId, k: nat, n: NodeId)
    ensures Allocation(jobs, tasks + Replicas(j, k), n).Same(Allocation(jobs, tasks, n))
  {
    if k == 0 {
      assert tasks + Replicas(j, 0) == tasks;
    } else {
      AllocationNewTasks(jobs, tasks, j, k - 1, n);
      AllocationSnoc(jobs, tasks + Replicas(j, k - 1), NewTask(j), n);
      IdleWeighsNothing(jobs, NewTask(j), n);
      assert tasks + Replicas(j, k) == tasks + Replicas(j, k - 1) + [NewTask(j)];
    }
  }

  lemma LastIdle(jobs: seq<Job>, tasks: seq<Task>, n: NodeId)
    requires tasks != [] && !ActiveOn(tasks[|tasks| - 1], n)
    ensures Allocation(jobs, tasks, n).Same(Allocation(jobs, tasks[..|tasks| - 1], n))
  {
    AllocationLast(jobs, tasks, n);
    IdleWeighsNothing(jobs, tasks[|tasks| - 1], n);
  }

  ghost predicate NoneActive(tasks: seq<Task>, n: NodeId) {
    forall t <- tasks :: !ActiveOn(t, n)
  }

  lemma {:induction false} NoActiveNothing(jobs: seq<Job>, tasks: seq<Task>, n: NodeId)
    requires NoneActive(tasks, n)
    ensures Allocation(jobs, tasks, n).Same(NOTHING)
  {
    if tasks != [] {
      var last := |tasks| - 1;
      assert NoneActive(tasks[..last], n);
      NoActiveNothing(jobs, tasks[..last], n);
      assert !ActiveOn(tasks[last], n);
      LastIdle(jobs, tasks, n);
    }
  }

  /** The map of allocations says of every node what its active tasks ask for. */
  lemma AllocationsMeaning(s: Cluster, n: NodeId)
    requires n < |s.nodes|
    ensures Reserved(Allocations(s), n).Same(Allocation(s.jobs, s.tasks, n))
  {
    if n !in Allocations(s) {
      assert forall t :: 0 <= t < |s.tasks| ==> s.tasks[t] in s.tasks;
      NoActiveNothing(s.jobs, s.tasks, n);
      SameIsEqual(Allocation(s.jobs, s.tasks, n), NOTHING);
    }
  }

  // ---------- what a commit adds ----------

  /** The claimed rows carry the requests that the batch reserves. */
  ghost predicate RequestsCurrent(s: Cluster, reqs: seq<TaskRequest>) {
    forall i :: 0 <= i < |reqs| ==> reqs[i].id < |s.tasks| && reqs[i].request == RequestOf(s.jobs, s.tasks[reqs[i].id])
  }

  lemma ScheduleAdds(s: Cluster, req: TaskRequest, node: Node, now: int, n: NodeId)
    requires req.id < |s.tasks| && s.tasks[req.id].status == Pending && req.request == RequestOf(s.jobs, s.tasks[req.id])
    ensures var w := ScheduleTask(s, req.id, node.id, node.epoch, now);
            && w.Some? && w.value.jobs == s.jobs
            && Allocation(s.jobs, w.value.tasks, n)
               .IsSum(Allocation(s.jobs, s.tasks, n), if node.id == n then req.request else NOTHING)
  {
    AllocationUpdate(s.jobs, s.tasks, req.id, ScheduledRow(s.tasks[req.id], node.id, node.epoch, now), n);
  }

  /** Only the first writes of a batch have been made: the row of the next task is as it was. */
  lemma NextRowUntouched(s: Cluster, reqs: seq<TaskRequest>, nodes: seq<Node>, prev: seq<Option<nat>>, now: int)
    requires Assignable(s, reqs, nodes) && |prev| < |reqs|
    requires forall i :: 0 <= i < |prev| && prev[i].Some? ==> prev[i].value < |nodes|
    ensures var w := SchedulePlaced(s, reqs, nodes, prev, now);
            var t := reqs[|prev|].id;
            w.Some? && w.value.jobs == s.jobs && t < |w.value.tasks| && t < |s.tasks| && w.value.tasks[t] == s.tasks[t]
  {
    SchedulePlacedRows(s, reqs, nodes, prev, now);
    ChosenOther(reqs, prev, reqs[|prev|].id);
  }

  /** Writing the batch adds to each node exactly what the batch reserved on it. */
  lemma {:induction false} CommitAdds(s: Cluster, reqs: seq<TaskRequest>, nodes: seq<Node>,
                                      placed: seq<Option<nat>>, now: int, n: NodeId)
    requires Assignable(s, reqs, nodes) && RequestsCurrent(s, reqs) && |placed| <= |reqs|
    requires forall i :: 0 <= i < |placed| && placed[i].Some? ==> placed[i].value < |nodes|
    ensures var w := SchedulePlaced(s, reqs, nodes, placed, now);
            w.Some? && Allocation(s.jobs, w.value.tasks, n).IsSum(Allocation(s.jobs, s.tasks, n), Added(nodes, placed, reqs, n))
  {
    if placed != [] {
      var last := |placed| - 1;
      CommitAdds(s, reqs, nodes, placed[..last], now, n);
      NextRowUntouched(s, reqs, nodes, placed[..last], now);
      if placed[last].Some? {
        var prev := SchedulePlaced(s, reqs, nodes, placed[..last], now).value;
        assert s.tasks[reqs[last].id].status == Pending;
        ScheduleAdds(prev, reqs[last], nodes[placed[last].value], now, n);
      }
    }
  }

  /** What the tick's batch has reserved on node `n` when it commits. */
  function FinalReservation(tick: Tick, n: NodeId): Resources
    requires tick.nodes.Some? && tick.allocs.Some?
  {
    Reserved(PendingAlloc(tick.nodes.value, tick.allocs.value, tick.reqs, Placements(tick)), n)
  }

  lemma TickAdds(s: Cluster, r: Replica, now: int, n: NodeId)
    requires Inv(s) && ReadyToCommit(s, r)
    ensures var tick := s.ticks[r];
            var added := Added(tick.nodes.value, Placements(tick), tick.reqs, n);
            && Allocation(s.jobs, CommitTick(s, r, now).tasks, n).IsSum(Allocation(s.jobs, s.tasks, n), added)
            && FinalReservation(tick, n).IsSum(Reserved(tick.allocs.value, n), added)
  {
    var tick := s.ticks[r];
    TickAssignable(s, r);
    assert TickOk(s, tick);
    assert forall i :: 0 <= i < |tick.reqs| ==> ClaimOk(s, tick.reqs[i]);
    CommitAdds(CloseTick(s, r), tick.reqs, tick.nodes.value, Placements(tick), now, n);
    PendingAllocAccounting(tick.nodes.value, tick.allocs.value, tick.reqs, Placements(tick), n);
  }

  /** The tick's cached accounting against a recount at commit: it is off by exactly as much as the
      recount at commit time, before its own writes, is off its snapshot. So it equals the recount
      when nothing interleaved, and is an upper bound when other steps only released capacity. */
  lemma CachedAccounting(s: Cluster, r: Replica, now: int, n: NodeId)
    requires Inv(s) && ReadyToCommit(s, r) && n < |s.nodes|
    ensures var snapshot, before := Reserved(s.ticks[r].allocs.value, n), Reserved(Allocations(s), n);
            var cached, recount := FinalReservation(s.ticks[r], n), Reserved(Allocations(CommitTick(s, r, now)), n);
            && cached.cpu - recount.cpu == snapshot.cpu - before.cpu
            && cached.mem - recount.mem == snapshot.mem - before.mem
            && (recount.AtMost(cached) <==> before.AtMost(snapshot))
  {
    CommitEffect(s, r, now);
    var s' := CommitTick(s, r, now);
    var recount := Reserved(Allocations(s'), n);
    var added := Added(s.ticks[r].nodes.value, Placements(s.ticks[r]), s.ticks[r].reqs, n);
    assert recount.IsSum(Reserved(Allocations(s), n), added) by {
      TickAdds(s, r, now, n);
      AllocationsMeaning(s, n);
      AllocationsMeaning(s', n);
    }
    assert FinalReservation(s.ticks[r], n).IsSum(Reserved(s.ticks[r].allocs.value, n), added) by {
      TickAdds(s, r, now, n);
    }
  }

  // ---------- within capacity ----------

  ghost predicate WithinCapacity(s: Cluster) {
    forall n :: 0 <= n < |s.nodes| ==> Allocation(s.jobs, s.tasks, n).AtMost(s.nodes[n].capacity)
  }

  /** What an open tick has read is no better than the truth: capacities are not above the nodes',
      and reservations are not below what is reserved now. */
  ghost predicate Cautious(s: Cluster, tick: Tick) {
    && (tick.nodes.Some? ==>
          forall k :: 0 <= k < |tick.nodes.value| && tick.nodes.value[k].id < |s.nodes| ==>
                        tick.nodes.value[k].capacity.AtMost(s.nodes[tick.nodes.value[k].id].capacity))
    && (tick.allocs.Some? ==>
          && (forall n :: n in tick.allocs.value ==> n < |s.nodes|)
          && (forall n :: 0 <= n < |s.nodes| ==>
                            Allocation(s.jobs, s.tasks, n).AtMost(Reserved(tick.allocs.value, n))))
  }

  ghost predicate Safe(s: Cluster) {
    && Inv(s) && WithinCapacity(s)
    && |s.ticks| <= 1
    && forall r :: r in s.ticks ==> Cautious(s, s.ticks[r])
  }

  /** The step does not register a known node with less capacity than it had. */
  predicate KeepsCapacity(s: Cluster, a: Step) {
    a.RegisterNodeStep? ==>
      var found := ExistingNode(s, a.reg);
      found.Some? ==> s.nodes[found.value].capacity.AtMost(a.reg.capacity)
  }

  /** No task came to hold more on any node. */
  ghost predicate Releases(s: Cluster, s': Cluster) {
    && s'.nodes == s.nodes
    && forall n :: 0 <= n < |s.nodes| ==>
                     Allocation(s'.jobs, s'.tasks, n).AtMost(Allocation(s.jobs, s.tasks, n))
  }

  lemma RowReleases(s: Cluster, t: TaskId, row: Task, events: seq<Event>)
    requires Inv(s) && t < |s.tasks| && row.job == s.tasks[t].job
    requires forall n :: ActiveOn(row, n) ==> ActiveOn(s.tasks[t], n)
    ensures Releases(s, s.(tasks := s.tasks[t := row], events := events))
  {
    forall n | 0 <= n < |s.nodes|
      ensures Allocation(s.jobs, s.tasks[t := row], n).AtMost(Allocation(s.jobs, s.tasks, n))
    {
      AllocationUpdate(s.jobs, s.tasks, t, row, n);
      assert TaskOk(s.nodes, s.jobs, s.tasks[t]);
      assert s.jobs[row.job].request.Positive();
    }
  }

  lemma ReportReleases(s: Cluster, r: Report, now: int)
    requires Inv(s)
    ensures Releases(s, UpdateTaskStatus(s, r, now))
  {
    if r.task < |s.tasks| {
      var up := UpdateRow(s.tasks[r.task], RetryLimit(s.jobs, s.tasks[r.task]), r, now);
      RowReleases(s, r.task, up.row, s.events + up.logged);
    }
  }

  lemma {:induction false} OrphansRelease(s: Cluster, ids: seq<TaskId>)
    requires Inv(s) && Distinct(ids) && InRange(ids, |s.tasks|)
    requires forall i :: 0 <= i < |ids| ==> !Locked(s, ids[i])
    ensures Releases(s, OrphanTasks(s, ids))
  {
    if ids != [] {
      var last := |ids| - 1;
      var prev := OrphanTasks(s, ids[..last]);
      OrphansRelease(s, ids[..last]);
      OrphanTasksKeepsInv(s, ids[..last]);
      OrphanTasksRows(s, ids[..last]);
      RowReleases(prev, ids[last], OrphanRow(prev.tasks[ids[last]]), OrphanTasks(s, ids).events);
      assert OrphanTasks(s, ids) == OrphanTask(prev, ids[last]);
    }
  }

  /** A step that releases keeps the cluster safe. */
  lemma ReleaseKeepsSafe(s: Cluster, s': Cluster)
    requires Safe(s) && Inv(s') && Releases(s, s') && s'.ticks == s.ticks
    ensures Safe(s')
  {
    forall r | r in s'.ticks ensures Cautious(s', s'.ticks[r]) {
      assert Cautious(s, s.ticks[r]);
    }
  }

  lemma CreateKeepsSafe(s: Cluster, job: Job)
    requires Safe(s)
    ensures Safe(CreateJob(s, job))
  {
    CreateKeepsInv(s, job);
    if JobAccepted(job) {
      var s' := CreateJob(s, job);
      assert forall t :: 0 <= t < |s.tasks| ==> TaskOk(s.nodes, s.jobs, s.tasks[t]);
      forall n | 0 <= n < |s.nodes|
        ensures Allocation(s'.jobs, s'.tasks, n).Same(Allocation(s.jobs, s.tasks, n))
      {
        AllocationNewTasks(s'.jobs, s.tasks, |s.jobs|, job.replicas, n);
        AllocationOldJobs(s.jobs, [s'.jobs[|s.jobs|]], s.tasks, n);
      }
      ReleaseKeepsSafe(s, s');
    }
  }

  /** No active task is on a node that does not exist yet. */
  lemma UnknownNodeEmpty(s: Cluster, n: NodeId)
    requires Inv(s) && n >= |s.nodes|
    ensures Allocation(s.jobs, s.tasks, n).Same(NOTHING)
  {
    forall t | 0 <= t < |s.tasks| ensures !ActiveOn(s.tasks[t], n) {
      assert TaskOk(s.nodes, s.jobs, s.tasks[t]);
    }
    NoActiveNothing(s.jobs, s.tasks, n);
  }

  lemma NodeChangeKeepsSafe(s: Cluster, nodes': seq<Node>, events: seq<Event>)
    requires Safe(s) && Inv(s.(nodes := nodes', events := events)) && |s.nodes| <= |nodes'|
    requires forall n :: 0 <= n < |s.nodes| ==> s.nodes[n].capacity.AtMost(nodes'[n].capacity)
    ensures Safe(s.(nodes := nodes', events := events))
  {
    var s' := s.(nodes := nodes', events := events);
    forall n | |s.nodes| <= n < |nodes'| ensures Allocation(s.jobs, s.tasks, n).Same(NOTHING) && NOTHING.AtMost(nodes'[n].capacity) {
      UnknownNodeEmpty(s, n);
      assert NodeOk(nodes'[n], n);
    }
    forall r | r in s.ticks ensures Cautious(s', s.ticks[r]) {
      assert Cautious(s, s.ticks[r]) && TickOk(s, s.ticks[r]);
    }
  }

  lemma RegisterKeepsSafe(s: Cluster, reg: Registration)
    requires Safe(s) && RegistrationAccepted(reg) && KeepsCapacity(s, RegisterNodeStep(reg))
    ensures Safe(RegisterNode(s, reg))
  {
    RegisterKeepsInv(s, reg);
    NodeChangeKeepsSafe(s, RegisterNode(s, reg).nodes, RegisterNode(s, reg).events);
  }

  lemma FinishDeathKeepsSafe(s: Cluster, n: NodeId)
    requires Safe(s) && Enabled(s, FinishDeathStep(n))
    ensures Safe(FinishDeath(s, n))
  {
    var dead := RecordDeath(s.(deaths := s.deaths - {n}), n);
    RecordDeathOk(s, n);
    var closed := s.(deaths := s.deaths - {n});
    CloseDeathKeepsInv(s, n);
    ReleaseKeepsSafe(s, closed);
    NodeChangeKeepsSafe(closed, dead.nodes, dead.events);
    OrphansRelease(dead, s.deaths[n]);
    FinishDeathEffect(s, n);
    ReleaseKeepsSafe(dead, FinishDeath(s, n));
  }

  lemma {:induction false} AddedOnlyWherePlaced(nodes: seq<Node>, placed: seq<Option<nat>>, reqs: seq<TaskRequest>, n: NodeId)
    requires |placed| <= |reqs|
    requires forall i :: 0 <= i < |placed| ==> !Is(nodes, placed[i], n)
    ensures Added(nodes, placed, reqs, n) == NOTHING
  {
    if placed != [] {
      AddedOnlyWherePlaced(nodes, placed[..|placed| - 1], reqs, n);
    }
  }

  /** After the commit of a tick whose reads are no better than the truth, each node is still within its
      capacity, whatever other ticks are open: a node that got work was within the capacity that the tick
      read, by reservations no lower than the truth. */
  lemma CommitWithinCapacity(s: Cluster, r: Replica, now: int, n: NodeId)
    requires Inv(s) && WithinCapacity(s) && ReadyToCommit(s, r) && Cautious(s, s.ticks[r]) && n < |s.nodes|
    ensures Allocation(s.jobs, CommitTick(s, r, now).tasks, n).AtMost(s.nodes[n].capacity)
  {
    var tick := s.ticks[r];
    var nodes, placed := tick.nodes.value, Placements(tick);
    TickAdds(s, r, now, n);
    assert TickOk(s, tick);
    if i :| 0 <= i < |placed| && Is(nodes, placed[i], n) {
      var k := placed[i].value;
      assert Some(k) in placed;
      BatchWithinCapacity(nodes, tick.allocs.value, tick.reqs, k, |tick.reqs|);
    } else {
      AddedOnlyWherePlaced(nodes, placed, tick.reqs, n);
    }
  }

  lemma CommitKeepsSafe(s: Cluster, r: Replica, now: int)
    requires Safe(s) && ReadyToCommit(s, r)
    ensures Safe(CommitTick(s, r, now))
  {
    CommitEffect(s, r, now);
    forall n | 0 <= n < |s.nodes|
      ensures Allocation(s.jobs, CommitTick(s, r, now).tasks, n).AtMost(s.nodes[n].capacity)
    {
      CommitWithinCapacity(s, r, now, n);
    }
    OnlyTick(s.ticks, r);
  }

  lemma OnlyTick(ticks: map<Replica, Tick>, r: Replica)
    requires r in ticks && |ticks| <= 1
    ensures ticks.Keys == {r} && ticks - {r} == map[]
  {
    var rest := ticks.Keys - {r};
    assert ticks.Keys == rest + {r};
    assert |rest| == 0;
  }

  lemma ReadNodesCautious(s: Cluster, r: Replica)
    requires Inv(s) && r in s.ticks && Cautious(s, s.ticks[r])
    ensures Cautious(s, s.ticks[r].(nodes := Some(ActiveNodes(s.nodes, |s.nodes|))))
  {
    assert forall i :: 0 <= i < |s.nodes| ==> NodeOk(s.nodes[i], i);
    ActiveNodesAre(s.nodes, |s.nodes|);
  }

  lemma ReadNodesKeepsSafe(s: Cluster, r: Replica)
    requires Safe(s) && Enabled(s, ReadNodesStep(r))
    ensures Safe(ReadNodes(s, r))
  {
    StepKeepsInv(s, ReadNodesStep(r));
    OnlyTick(s.ticks, r);
    ReadNodesCautious(s, r);
    var s' := ReadNodes(s, r);
    assert Cautious(s', s'.ticks[r]);
    assert s'.ticks.Keys == {r};
  }

  lemma ReadAllocationsCautious(s: Cluster, r: Replica)
    requires Inv(s) && r in s.ticks && Cautious(s, s.ticks[r])
    ensures Cautious(s, s.ticks[r].(allocs := Some(Allocations(s))))
  {
    forall n | 0 <= n < |s.nodes| ensures Allocation(s.jobs, s.tasks, n).AtMost(Reserved(Allocations(s), n)) {
      AllocationsMeaning(s, n);
    }
  }

  lemma ReadAllocationsKeepsSafe(s: Cluster, r: Replica)
    requires Safe(s) && Enabled(s, ReadAllocationsStep(r))
    ensures Safe(ReadAllocations(s, r))
  {
    StepKeepsInv(s, ReadAllocationsStep(r));
    OnlyTick(s.ticks, r);
    ReadAllocationsCautious(s, r);
    var s' := ReadAllocations(s, r);
    assert Cautious(s', s'.ticks[r]);
    assert s'.ticks.Keys == {r};
  }

  lemma ClaimKeepsSafe(s: Cluster, r: Replica, ids: seq<TaskId>, now: int)
    requires Safe(s) && Enabled(s, ClaimStep(r, ids, now)) && |Claim(s, r, ids).ticks| <= 1
    ensures Safe(Claim(s, r, ids))
  {
    ClaimKeepsInv(s, r, ids, now);
    OnlyTick(Claim(s, r, ids).ticks, r);
  }

  lemma CloseTickKeepsSafe(s: Cluster, r: Replica)
    requires Safe(s) && r in s.ticks
    ensures Safe(CloseTick(s, r))
  {
    CloseTickKeepsInv(s, r);
    OnlyTick(s.ticks, r);
  }

  lemma StatusKeepsSafe(s: Cluster, n: NodeId, change: StatusChange)
    requires Safe(s)
    ensures Safe(UpdateNodeStatus(s, n, change))
  {
    StatusKeepsInv(s, n, change);
    NodeChangeKeepsSafe(s, UpdateNodeStatus(s, n, change).nodes, UpdateNodeStatus(s, n, change).events);
  }

  lemma DeathKeepsSafe(s: Cluster, a: Step)
    requires Safe(s) && Enabled(s, a) && (a.BeginDeathStep? || a.AbortDeathStep? || a.FinishDeathStep?)
    ensures Safe(Apply(s, a))
  {
    if a.FinishDeathStep? {
      FinishDeathKeepsSafe(s, a.node);
    } else {
      StepKeepsInv(s, a);
      ReleaseKeepsSafe(s, Apply(s, a));
    }
  }

  lemma ReportKeepsSafe(s: Cluster, r: Report, now: int)
    requires Safe(s) && !Locked(s, r.task)
    ensures Safe(UpdateTaskStatus(s, r, now))
  {
    ReportKeepsInv(s, r, now);
    ReportReleases(s, r, now);
    ReleaseKeepsSafe(s, UpdateTaskStatus(s, r, now));
  }

  lemma StepKeepsSafe(s: Cluster, a: Step)
    requires Safe(s) && Enabled(s, a) && KeepsCapacity(s, a) && |Apply(s, a).ticks| <= 1
    ensures Safe(Apply(s, a))
  {
    match a
    case CreateJobStep(job) => CreateKeepsSafe(s, job);
    case RegisterNodeStep(reg) =>
      if RegistrationAccepted(reg) {
        RegisterKeepsSafe(s, reg);
      }
    case UpdateNodeStatusStep(n, change) => StatusKeepsSafe(s, n, change);
    case BeginDeathStep(_) => DeathKeepsSafe(s, a);
    case FinishDeathStep(_) => DeathKeepsSafe(s, a);
    case AbortDeathStep(_) => DeathKeepsSafe(s, a);
    case ReportStep(rep, now) => ReportKeepsSafe(s, rep, now);
    case ClaimStep(r, ids, now) => ClaimKeepsSafe(s, r, ids, now);
    case ReadNodesStep(r) => ReadNodesKeepsSafe(s, r);
    case ReadAllocationsStep(r) => ReadAllocationsKeepsSafe(s, r);
    case CommitTickStep(r, now) => CommitKeepsSafe(s, r, now);
    case AbortTickStep(r) => CloseTickKeepsSafe(s, r);
  }

  /** At most `most` ticks are ever in flight, and capacities are never lowered unless `mayShrink`. */
  ghost predicate Disciplined(run: Run, most: nat, mayShrink: bool) {
    && (forall i :: 0 <= i < |run.states| ==> |run.states[i].ticks| <= most)
    && (mayShrink || forall i :: 0 <= i < |run.steps| && i < |run.states| ==> KeepsCapacity(run.states[i], run.steps[i]))
  }

  /** With one tick in flight at a time and capacities never lowered, every node's scheduled and
      running requests stay within its capacity in every state of every run, although the tick reads
      nodes and allocations outside its transaction while reports and deaths interleave. */
  lemma {:induction false} NoOvercommit(run: Run, i: nat)
    requires IsRun(run) && Disciplined(run, 1, false) && i < |run.states|
    ensures Safe(run.states[i])
  {
    if i > 0 {
      NoOvercommit(run, i - 1);
      assert StepAt(run, i - 1);
      assert |run.states[i].ticks| <= 1;
      StepKeepsSafe(run.states[i - 1], run.steps[i - 1]);
    }
  }
}
