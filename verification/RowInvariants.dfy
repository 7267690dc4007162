/** What holds of the rows in every reachable state, with any number of replicas ticking. */
module RowInvariants {
  import opened Entities
  import opened Engine
  import opened ClusterState

  // ---------- the invariant ----------

  ghost predicate NodesOk(s: Cluster) {
    && (forall i :: 0 <= i < |s.nodes| ==> NodeOk(s.nodes[i], i))
    && (forall i, j :: 0 <= i < j < |s.nodes| ==> !SameIdentity(s.nodes[i], s.nodes[j].hostname, s.nodes[j].address))
  }

  predicate NodeOk(node: Node, i: NodeId) {
    node.id == i && node.epoch >= 0 && node.capacity.Positive() && node.labels.Some?
  }

  function TasksOfJob(tasks: seq<Task>, j: JobId): nat {
    if tasks == [] then 0
    else TasksOfJob(tasks[..|tasks| - 1], j) + if tasks[|tasks| - 1].job == j then 1 else 0
  }

  ghost predicate JobsOk(s: Cluster) {
    forall j :: 0 <= j < |s.jobs| ==>
                  && s.jobs[j].request.Positive()
                  && s.jobs[j].policy in {BIN_PACK, SPREAD}
                  && s.jobs[j].replicas == TasksOfJob(s.tasks, j) >= 1
  }

  /** A row is unassigned exactly when pending, its node and epoch are set or cleared together, its
      epoch is not ahead of the node's, and its counters and timestamps agree with its status. */
  predicate TaskOk(nodes: seq<Node>, jobs: seq<Job>, t: Task) {
    && t.job < |jobs|
    && (t.assignedNode.None? <==> t.status == Pending)
    && (t.assignedNode.None? <==> t.assignedEpoch.None?)
    && (t.assignedNode.Some? ==>
          t.assignedNode.value < |nodes| && 0 <= t.assignedEpoch.value <= nodes[t.assignedNode.value].epoch)
    && 0 <= t.retriesUsed
    && (t.retriesUsed > 0 ==> t.retriesUsed <= jobs[t.job].retryLimit)
    && (t.scheduledAt.None? <==> t.status == Pending)
    && (t.startedAt.None? <==> t.status == Pending || t.status == Scheduled)
    && (t.finishedAt.Some? <==> Terminal(t))
    && (t.nextRetryAt.Some? ==> t.status == Pending || t.status == Scheduled)
  }

  ghost predicate TasksOk(s: Cluster) {
    forall t :: 0 <= t < |s.tasks| ==> TaskOk(s.nodes, s.jobs, s.tasks[t])
  }

  /** A list of nodes read earlier: no epoch in it is ahead of the node's. */
  ghost predicate SnapshotOk(s: Cluster, nodes: seq<Node>) {
    && DistinctIds(nodes)
    && forall k :: 0 <= k < |nodes| ==>
                     && nodes[k].id < |s.nodes|
                     && 0 <= nodes[k].epoch <= s.nodes[nodes[k].id].epoch
                     && Watched(nodes[k])
  }

  ghost predicate ClaimOk(s: Cluster, req: TaskRequest) {
    && req.id < |s.tasks|
    && s.tasks[req.id].status == Pending
    && s.tasks[req.id].job < |s.jobs|
    && req == RequestFor(s, req.id)
  }

  ghost predicate TickOk(s: Cluster, tick: Tick) {
    && (forall i :: 0 <= i < |tick.reqs| ==> ClaimOk(s, tick.reqs[i]))
    && DistinctClaims(tick.reqs)
    && (tick.nodes.Some? ==> SnapshotOk(s, tick.nodes.value))
    && (tick.allocs.Some? ==> tick.nodes.Some?)
  }

  ghost predicate DistinctClaims(reqs: seq<TaskRequest>) {
    forall i, j :: 0 <= i < j < |reqs| ==> reqs[i].id != reqs[j].id
  }

  /** No task is claimed by both. */
  ghost predicate Disjoint(a: Tick, b: Tick) {
    forall i, j :: 0 <= i < |a.reqs| && 0 <= j < |b.reqs| ==> a.reqs[i].id != b.reqs[j].id
  }

  ghost predicate TicksOk(s: Cluster) {
    && (forall r :: r in s.ticks ==> TickOk(s, s.ticks[r]))
    && (forall r, r' :: r in s.ticks && r' in s.ticks && r != r' ==> Disjoint(s.ticks[r], s.ticks[r']))
  }

  ghost predicate DeathOk(s: Cluster, n: NodeId, ids: seq<TaskId>) {
    && n < |s.nodes|
    && Distinct(ids)
    && forall i :: 0 <= i < |ids| ==> ids[i] < |s.tasks| && ActiveOn(s.tasks[ids[i]], n)
  }

  ghost predicate DeathsOk(s: Cluster) {
    forall n :: n in s.deaths ==> DeathOk(s, n, s.deaths[n])
  }

  ghost predicate Inv(s: Cluster) {
    NodesOk(s) && JobsOk(s) && TasksOk(s) && TicksOk(s) && DeathsOk(s)
  }

  // ---------- one row changes ----------

  lemma {:induction false} CountKept(tasks: seq<Task>, t: TaskId, row: Task, j: JobId)
    requires t < |tasks| && row.job == tasks[t].job
    ensures TasksOfJob(tasks[t := row], j) == TasksOfJob(tasks, j)
  {
    var last := |tasks| - 1;
    if t == last {
      assert tasks[t := row][..last] == tasks[..last];
    } else {
      assert tasks[t := row][..last] == tasks[..last][t := row];
      CountKept(tasks[..last], t, row, j);
    }
  }

  lemma NotClaimed(s: Cluster, t: TaskId, r: Replica, i: nat)
    requires !Locked(s, t) && r in s.ticks && i < |s.ticks[r].reqs|
    ensures s.ticks[r].reqs[i].id != t
  {
    assert Ids(s.ticks[r].reqs)[i] in Ids(s.ticks[r].reqs);
  }

  /** Rewriting an unlocked row keeps the invariant when the new row is a good one of the same job. */
  lemma RowChangeKeepsInv(s: Cluster, t: TaskId, row: Task, events: seq<Event>)
    requires Inv(s) && t < |s.tasks| && !Locked(s, t)
    requires row.job == s.tasks[t].job && TaskOk(s.nodes, s.jobs, row)
    ensures Inv(s.(tasks := s.tasks[t := row], events := events))
  {
    var s' := s.(tasks := s.tasks[t := row], events := events);
    forall j | 0 <= j < |s.jobs| ensures TasksOfJob(s'.tasks, j) == TasksOfJob(s.tasks, j) {
      CountKept(s.tasks, t, row, j);
    }
    forall r, i | r in s.ticks && 0 <= i < |s.ticks[r].reqs| ensures ClaimOk(s', s.ticks[r].reqs[i]) {
      NotClaimed(s, t, r, i);
      assert ClaimOk(s, s.ticks[r].reqs[i]);
    }
    forall r | r in s.ticks ensures TickOk(s', s.ticks[r]) {
      assert TickOk(s, s.ticks[r]);
    }
    forall n | n in s.deaths ensures DeathOk(s', n, s.deaths[n]) {
      assert DeathOk(s, n, s.deaths[n]);
    }
  }

  // ---------- nodes change ----------

  /** No node row disappears, changes its identity or steps its epoch back. */
  ghost predicate NodesAdvance(nodes: seq<Node>, nodes': seq<Node>) {
    && |nodes| <= |nodes'|
    && forall i :: 0 <= i < |nodes| ==> nodes[i].epoch <= nodes'[i].epoch
  }

  lemma NodeChangeKeepsInv(s: Cluster, nodes': seq<Node>, events: seq<Event>)
    requires Inv(s) && NodesAdvance(s.nodes, nodes') && NodesOk(s.(nodes := nodes'))
    ensures Inv(s.(nodes := nodes', events := events))
  {
    var s' := s.(nodes := nodes', events := events);
    forall r | r in s.ticks ensures TickOk(s', s.ticks[r]) {
      assert TickOk(s, s.ticks[r]);
      assert forall i :: 0 <= i < |s.ticks[r].reqs| ==> ClaimOk(s, s.ticks[r].reqs[i]);
    }
    forall n | n in s.deaths ensures DeathOk(s', n, s.deaths[n]) {
      assert DeathOk(s, n, s.deaths[n]);
    }
    assert forall t :: 0 <= t < |s.tasks| ==> TaskOk(s.nodes, s.jobs, s.tasks[t]);
  }

  lemma RegisterAdvances(s: Cluster, reg: Registration)
    requires Inv(s) && RegistrationAccepted(reg)
    ensures NodesAdvance(s.nodes, RegisterNode(s, reg).nodes) && NodesOk(s.(nodes := RegisterNode(s, reg).nodes))
  {
    assert forall i :: 0 <= i < |s.nodes| ==> NodeOk(s.nodes[i], i);
  }

  lemma RegisterKeepsInv(s: Cluster, reg: Registration)
    requires Inv(s) && RegistrationAccepted(reg)
    ensures Inv(RegisterNode(s, reg)) && NodesAdvance(s.nodes, RegisterNode(s, reg).nodes)
  {
    var s' := RegisterNode(s, reg);
    RegisterAdvances(s, reg);
    NodeChangeKeepsInv(s, s'.nodes, s'.events);
  }

  lemma StatusKeepsInv(s: Cluster, n: NodeId, change: StatusChange)
    requires Inv(s)
    ensures Inv(UpdateNodeStatus(s, n, change)) && NodesAdvance(s.nodes, UpdateNodeStatus(s, n, change).nodes)
  {
    var s' := UpdateNodeStatus(s, n, change);
    assert forall i :: 0 <= i < |s.nodes| ==> NodeOk(s.nodes[i], i);
    NodeChangeKeepsInv(s, s'.nodes, s'.events);
  }

  // ---------- jobs are added ----------

  lemma {:induction false} ReplicasAre(j: JobId, n: nat)
    ensures |Replicas(j, n)| == n && forall i :: 0 <= i < n ==> Replicas(j, n)[i] == NewTask(j)
  {
    if n > 0 {
      ReplicasAre(j, n - 1);
    }
  }

  /** Expanding a job into its tasks counts once for that job and not for any other. */
  lemma {:induction false} CountAfterExpansion(tasks: seq<Task>, j: JobId, n: nat, k: JobId)
    ensures TasksOfJob(tasks + Replicas(j, n), k) == TasksOfJob(tasks, k) + if j == k then n else 0
  {
    if n == 0 {
      assert tasks + Replicas(j, 0) == tasks;
    } else {
      CountAfterExpansion(tasks, j, n - 1, k);
      var all := tasks + Replicas(j, n);
      assert all[..|all| - 1] == tasks + Replicas(j, n - 1);
    }
  }

  lemma {:induction false} NoTasksYet(tasks: seq<Task>, j: JobId)
    requires forall t :: 0 <= t < |tasks| ==> tasks[t].job < j
    ensures TasksOfJob(tasks, j) == 0
  {
    if tasks != [] {
      NoTasksYet(tasks[..|tasks| - 1], j);
    }
  }

  lemma CreateKeepsInv(s: Cluster, job: Job)
    requires Inv(s)
    ensures Inv(CreateJob(s, job))
  {
    if JobAccepted(job) {
      var s' := CreateJob(s, job);
      var j := |s.jobs|;
      ReplicasAre(j, job.replicas);
      assert forall t :: 0 <= t < |s.tasks| ==> TaskOk(s.nodes, s.jobs, s.tasks[t]);
      NoTasksYet(s.tasks, j);
      forall k | 0 <= k < |s'.jobs| ensures s'.jobs[k].replicas == TasksOfJob(s'.tasks, k) {
        CountAfterExpansion(s.tasks, j, job.replicas, k);
      }
      forall t | 0 <= t < |s'.tasks| ensures TaskOk(s'.nodes, s'.jobs, s'.tasks[t]) {
        if t < |s.tasks| {
          assert s'.tasks[t] == s.tasks[t];
        } else {
          assert s'.tasks[t] == NewTask(j);
        }
      }
      forall r | r in s.ticks ensures TickOk(s', s.ticks[r]) {
        assert TickOk(s, s.ticks[r]);
        assert forall i :: 0 <= i < |s.ticks[r].reqs| ==> ClaimOk(s, s.ticks[r].reqs[i]);
      }
      forall n | n in s.deaths ensures DeathOk(s', n, s.deaths[n]) {
        assert DeathOk(s, n, s.deaths[n]);
      }
    }
  }

  // ---------- reports ----------

  lemma UpdateRowOk(nodes: seq<Node>, jobs: seq<Job>, t: Task, r: Report, now: int)
    requires TaskOk(nodes, jobs, t)
    ensures var up := UpdateRow(t, RetryLimit(jobs, t), r, now);
            TaskOk(nodes, jobs, up.row) && up.row.job == t.job
  {}

  lemma ReportKeepsInv(s: Cluster, r: Report, now: int)
    requires Inv(s) && !Locked(s, r.task)
    ensures Inv(UpdateTaskStatus(s, r, now))
  {
    if r.task < |s.tasks| {
      var up := UpdateRow(s.tasks[r.task], RetryLimit(s.jobs, s.tasks[r.task]), r, now);
      UpdateRowOk(s.nodes, s.jobs, s.tasks[r.task], r, now);
      RowChangeKeepsInv(s, r.task, up.row, s.events + up.logged);
    }
  }

  // ---------- deaths ----------

  lemma BeginDeathKeepsInv(s: Cluster, n: NodeId)
    requires Inv(s) && n !in s.deaths
    ensures Inv(BeginDeath(s, n))
  {
    if n < |s.nodes| {
      var s' := BeginDeath(s, n);
      var ids := s'.deaths[n];
      assert forall i :: 0 <= i < |ids| ==> ids[i] in ids;
      assert forall r :: r in s.ticks ==> TickOk(s, s.ticks[r]);
      assert forall m :: m in s.deaths ==> DeathOk(s, m, s.deaths[m]);
    }
  }

  lemma CloseDeathKeepsInv(s: Cluster, n: NodeId)
    requires Inv(s)
    ensures Inv(s.(deaths := s.deaths - {n}))
  {
    assert forall r :: r in s.ticks ==> TickOk(s, s.ticks[r]);
    assert forall m :: m in s.deaths ==> DeathOk(s, m, s.deaths[m]);
  }

  /** Only the death itself holds the rows it selected. */
  lemma DeathRowsFree(s: Cluster, n: NodeId, i: nat)
    requires Inv(s) && n in s.deaths && i < |s.deaths[n]|
    ensures !Locked(s.(deaths := s.deaths - {n}), s.deaths[n][i])
  {
    var s' := s.(deaths := s.deaths - {n});
    var t := s.deaths[n][i];
    assert DeathOk(s, n, s.deaths[n]);
    forall r, k | r in s.ticks && 0 <= k < |s.ticks[r].reqs| ensures s.ticks[r].reqs[k].id != t {
      assert TickOk(s, s.ticks[r]) && ClaimOk(s, s.ticks[r].reqs[k]);
    }
    forall m | m in s'.deaths ensures t !in s'.deaths[m] {
      assert DeathOk(s, m, s.deaths[m]);
    }
  }

  /** Orphaning the selected rows changes exactly those. */
  lemma {:induction false} OrphanTasksRows(s: Cluster, ids: seq<TaskId>)
    requires Distinct(ids) && InRange(ids, |s.tasks|)
    ensures var s' := OrphanTasks(s, ids);
            && s' == s.(tasks := s'.tasks, events := s'.events)
            && forall t :: 0 <= t < |s.tasks| ==> s'.tasks[t] == if t in ids then OrphanRow(s.tasks[t]) else s.tasks[t]
  {
    if ids != [] {
      var last := |ids| - 1;
      OrphanTasksRows(s, ids[..last]);
      assert ids[last] !in ids[..last];
      assert forall x :: x in ids <==> x in ids[..last] || x == ids[last];
    }
  }

  lemma {:induction false} OrphanTasksKeepsInv(s: Cluster, ids: seq<TaskId>)
    requires Inv(s) && Distinct(ids) && InRange(ids, |s.tasks|)
    requires forall i :: 0 <= i < |ids| ==> !Locked(s, ids[i])
    ensures Inv(OrphanTasks(s, ids))
  {
    if ids != [] {
      var last := |ids| - 1;
      var prev := OrphanTasks(s, ids[..last]);
      OrphanTasksKeepsInv(s, ids[..last]);
      OrphanTasksRows(s, ids[..last]);
      var t := ids[last];
      assert Locked(prev, t) == Locked(s, t);
      assert TaskOk(prev.nodes, prev.jobs, prev.tasks[t]);
      RowChangeKeepsInv(prev, t, OrphanRow(prev.tasks[t]), prev.events + [TaskOrphaned(t), TaskRequeued(t)]);
    }
  }

  /** What the commit of a death changes: the node is dead with the next epoch; the rows selected at
      its start are pending and unassigned; every other row is as it was. */
  lemma FinishDeathEffect(s: Cluster, n: NodeId)
    requires Inv(s) && Enabled(s, FinishDeathStep(n))
    ensures var s' := FinishDeath(s, n);
            && Inv(s')
            && s'.nodes == s.nodes[n := s.nodes[n].(status := Dead, epoch := s.nodes[n].epoch + 1)]
            && s'.jobs == s.jobs && s'.ticks == s.ticks && s'.deaths == s.deaths - {n}
            && |s'.tasks| == |s.tasks|
            && forall t :: 0 <= t < |s.tasks| ==>
                             s'.tasks[t] == if t in s.deaths[n] then OrphanRow(s.tasks[t]) else s.tasks[t]
  {
    RecordDeathOk(s, n);
    OrphanTasksRows(RecordDeath(s.(deaths := s.deaths - {n}), n), s.deaths[n]);
    OrphanTasksKeepsInv(RecordDeath(s.(deaths := s.deaths - {n}), n), s.deaths[n]);
  }

  lemma FinishDeathEnabled(s: Cluster, n: NodeId)
    requires Inv(s) && n in s.deaths
    ensures Enabled(s, FinishDeathStep(n))
  {
    assert DeathOk(s, n, s.deaths[n]);
  }

  lemma RecordDeathOk(s: Cluster, n: NodeId)
    requires Inv(s) && Enabled(s, FinishDeathStep(n))
    ensures var dead := RecordDeath(s.(deaths := s.deaths - {n}), n);
            Inv(dead) && Distinct(s.deaths[n]) && forall i :: 0 <= i < |s.deaths[n]| ==> !Locked(dead, s.deaths[n][i])
  {
    var closed := s.(deaths := s.deaths - {n});
    CloseDeathKeepsInv(s, n);
    var dead := RecordDeath(closed, n);
    assert DeathOk(s, n, s.deaths[n]);
    assert forall i :: 0 <= i < |s.nodes| ==> NodeOk(s.nodes[i], i);
    NodeChangeKeepsInv(closed, dead.nodes, dead.events);
    forall i | 0 <= i < |s.deaths[n]| ensures !Locked(dead, s.deaths[n][i]) {
      DeathRowsFree(s, n, i);
      assert Locked(dead, s.deaths[n][i]) == Locked(closed, s.deaths[n][i]);
    }
  }

  // ---------- ticks ----------

  lemma ClaimedTickOk(s: Cluster, r: Replica, ids: seq<TaskId>, now: int)
    requires Inv(s) && Enabled(s, ClaimStep(r, ids, now))
    ensures var tick := Claim(s, r, ids).ticks[r];
            TickOk(s, tick) && forall q :: q in s.ticks ==> Disjoint(s.ticks[q], tick) && Disjoint(tick, s.ticks[q])
  {
    var tick := Claim(s, r, ids).ticks[r];
    assert forall i :: 0 <= i < |ids| ==> tick.reqs[i] == RequestFor(s, ids[i]);
    forall q, i, j | q in s.ticks && 0 <= i < |s.ticks[q].reqs| && 0 <= j < |ids|
      ensures s.ticks[q].reqs[i].id != tick.reqs[j].id
    {
      NotClaimed(s, ids[j], q, i);
    }
  }

  /** Opening or updating one tick keeps the invariant when it is a good one. */
  lemma TickChangeKeepsInv(s: Cluster, r: Replica, tick: Tick)
    requires Inv(s) && TickOk(s, tick)
    requires forall q :: q in s.ticks && q != r ==> Disjoint(s.ticks[q], tick) && Disjoint(tick, s.ticks[q])
    ensures Inv(s.(ticks := s.ticks[r := tick]))
  {
    var s' := s.(ticks := s.ticks[r := tick]);
    forall q | q in s'.ticks ensures TickOk(s', s'.ticks[q]) {
      assert TickOk(s, s'.ticks[q]);
      assert forall i :: 0 <= i < |s'.ticks[q].reqs| ==> ClaimOk(s, s'.ticks[q].reqs[i]);
    }
    assert forall m :: m in s.deaths ==> DeathOk(s, m, s.deaths[m]);
  }

  lemma ClaimKeepsInv(s: Cluster, r: Replica, ids: seq<TaskId>, now: int)
    requires Inv(s) && Enabled(s, ClaimStep(r, ids, now))
    ensures Inv(Claim(s, r, ids))
  {
    ClaimedTickOk(s, r, ids, now);
    TickChangeKeepsInv(s, r, Claim(s, r, ids).ticks[r]);
  }

  /** The list of active nodes is the watched rows in order, each once. */
  lemma {:induction false} ActiveNodesAre(nodes: seq<Node>, k: nat)
    requires k <= |nodes| && forall i :: 0 <= i < k ==> nodes[i].id == i
    ensures var active := ActiveNodes(nodes, k);
            && (forall i :: 0 <= i < |active| ==>
                              active[i].id < k && active[i] == nodes[active[i].id] && Watched(active[i]))
            && (forall i, j :: 0 <= i < j < |active| ==> active[i].id < active[j].id)
            && (forall n :: 0 <= n < k && Watched(nodes[n]) ==> nodes[n] in active)
  {
    if k > 0 {
      ActiveNodesAre(nodes, k - 1);
    }
  }

  lemma ActiveNodesOk(s: Cluster)
    requires NodesOk(s)
    ensures SnapshotOk(s, ActiveNodes(s.nodes, |s.nodes|))
  {
    assert forall i :: 0 <= i < |s.nodes| ==> NodeOk(s.nodes[i], i);
    ActiveNodesAre(s.nodes, |s.nodes|);
  }

  /** A tick may record what it reads. */
  lemma ReadKeepsInv(s: Cluster, r: Replica, tick: Tick)
    requires Inv(s) && r in s.ticks && tick.reqs == s.ticks[r].reqs
    requires tick.nodes.Some? ==> SnapshotOk(s, tick.nodes.value)
    requires tick.allocs.Some? ==> tick.nodes.Some?
    ensures Inv(s.(ticks := s.ticks[r := tick]))
  {
    assert TickOk(s, s.ticks[r]);
    forall q | q in s.ticks && q != r ensures Disjoint(s.ticks[q], tick) && Disjoint(tick, s.ticks[q]) {
      assert Disjoint(s.ticks[q], s.ticks[r]) && Disjoint(s.ticks[r], s.ticks[q]);
    }
    TickChangeKeepsInv(s, r, tick);
  }

  lemma CloseTickKeepsInv(s: Cluster, r: Replica)
    requires Inv(s)
    ensures Inv(CloseTick(s, r))
  {
    var s' := CloseTick(s, r);
    forall q | q in s'.ticks ensures TickOk(s', s'.ticks[q]) {
      assert TickOk(s, s.ticks[q]);
      assert forall i :: 0 <= i < |s.ticks[q].reqs| ==> ClaimOk(s, s.ticks[q].reqs[i]);
    }
    assert forall m :: m in s.deaths ==> DeathOk(s, m, s.deaths[m]);
  }

  /** Only the tick itself holds the rows it claimed. */
  lemma ClaimedRowsFree(s: Cluster, r: Replica, i: nat)
    requires Inv(s) && r in s.ticks && i < |s.ticks[r].reqs|
    ensures !Locked(CloseTick(s, r), s.ticks[r].reqs[i].id)
  {
    var s' := CloseTick(s, r);
    var t := s.ticks[r].reqs[i].id;
    assert TickOk(s, s.ticks[r]) && ClaimOk(s, s.ticks[r].reqs[i]);
    forall q, k | q in s'.ticks && 0 <= k < |s'.ticks[q].reqs| ensures s'.ticks[q].reqs[k].id != t {
      assert Disjoint(s.ticks[r], s.ticks[q]);
    }
    forall m | m in s'.deaths ensures t !in s'.deaths[m] {
      assert DeathOk(s, m, s.deaths[m]);
    }
  }

  function ScheduledRow(t: Task, n: NodeId, epoch: int, now: int): Task {
    t.(status := Scheduled, assignedNode := Some(n), assignedEpoch := Some(epoch), scheduledAt := Some(now))
  }

  /** Where the first tasks of a batch go: the node of the list that task `t` was given, if any. */
  function Chosen(reqs: seq<TaskRequest>, placed: seq<Option<nat>>, t: TaskId): Option<nat>
    requires |placed| <= |reqs|
  {
    if placed == [] then None
    else
      var last := |placed| - 1;
      if reqs[last].id == t then placed[last] else Chosen(reqs, placed[..last], t)
  }

  lemma {:induction false} ChosenOther(reqs: seq<TaskRequest>, placed: seq<Option<nat>>, t: TaskId)
    requires |placed| <= |reqs| && forall i :: 0 <= i < |placed| ==> reqs[i].id != t
    ensures Chosen(reqs, placed, t) == None
  {
    if placed != [] {
      ChosenOther(reqs, placed[..|placed| - 1], t);
    }
  }

  ghost predicate Assignable(s: Cluster, reqs: seq<TaskRequest>, nodes: seq<Node>) {
    && SnapshotOk(s, nodes)
    && DistinctClaims(reqs)
    && forall i :: 0 <= i < |reqs| ==>
                     reqs[i].id < |s.tasks| && s.tasks[reqs[i].id].status == Pending && !Locked(s, reqs[i].id)
  }

  /** The row after the batch's writes. */
  function RowAfter(s: Cluster, reqs: seq<TaskRequest>, nodes: seq<Node>, placed: seq<Option<nat>>, now: int, t: TaskId): Task
    requires |placed| <= |reqs| && t < |s.tasks|
  {
    var choice := Chosen(reqs, placed, t);
    if choice.Some? && choice.value < |nodes| then
      ScheduledRow(s.tasks[t], nodes[choice.value].id, nodes[choice.value].epoch, now)
    else s.tasks[t]
  }

  /** The batch's writes all find their pending row; they change exactly the rows that were placed. */
  lemma {:induction false} SchedulePlacedRows(s: Cluster, reqs: seq<TaskRequest>, nodes: seq<Node>,
                                              placed: seq<Option<nat>>, now: int)
    requires Assignable(s, reqs, nodes) && |placed| <= |reqs|
    requires forall i :: 0 <= i < |placed| && placed[i].Some? ==> placed[i].value < |nodes|
    ensures var w := SchedulePlaced(s, reqs, nodes, placed, now);
            && w.Some?
            && w.value == s.(tasks := w.value.tasks, events := w.value.events)
            && |w.value.tasks| == |s.tasks|
            && forall t :: 0 <= t < |s.tasks| ==> w.value.tasks[t] == RowAfter(s, reqs, nodes, placed, now, t)
  {
    if placed != [] {
      var last := |placed| - 1;
      SchedulePlacedRows(s, reqs, nodes, placed[..last], now);
      ChosenOther(reqs, placed[..last], reqs[last].id);
    }
  }

  lemma {:induction false} SchedulePlacedKeepsInv(s: Cluster, reqs: seq<TaskRequest>, nodes: seq<Node>,
                                                  placed: seq<Option<nat>>, now: int)
    requires Inv(s) && Assignable(s, reqs, nodes) && |placed| <= |reqs|
    requires forall i :: 0 <= i < |placed| && placed[i].Some? ==> placed[i].value < |nodes|
    ensures var w := SchedulePlaced(s, reqs, nodes, placed, now);
            w.Some? && Inv(w.value)
  {
    if placed != [] {
      var last := |placed| - 1;
      SchedulePlacedKeepsInv(s, reqs, nodes, placed[..last], now);
      var prev := SchedulePlaced(s, reqs, nodes, placed[..last], now).value;
      SchedulePlacedRows(s, reqs, nodes, placed[..last], now);
      ChosenOther(reqs, placed[..last], reqs[last].id);
      if placed[last].Some? {
        ScheduleTaskKeepsInv(s, prev, reqs[last].id, nodes[placed[last].value], now);
      }
    }
  }

  lemma ScheduleTaskKeepsInv(s: Cluster, m: Cluster, t: TaskId, node: Node, now: int)
    requires Inv(m) && m == s.(tasks := m.tasks, events := m.events) && t < |m.tasks|
    requires m.tasks[t].status == Pending && !Locked(s, t)
    requires node.id < |s.nodes| && 0 <= node.epoch <= s.nodes[node.id].epoch
    ensures var w := ScheduleTask(m, t, node.id, node.epoch, now);
            w.Some? && Inv(w.value)
  {
    assert Locked(m, t) == Locked(s, t);
    assert TaskOk(m.nodes, m.jobs, m.tasks[t]);
    RowChangeKeepsInv(m, t, ScheduledRow(m.tasks[t], node.id, node.epoch, now),
                      m.events + [TaskScheduled(t, node.id, node.epoch)]);
  }

  lemma TickAssignable(s: Cluster, r: Replica)
    requires Inv(s) && ReadyToCommit(s, r)
    ensures Inv(CloseTick(s, r)) && Assignable(CloseTick(s, r), s.ticks[r].reqs, s.ticks[r].nodes.value)
  {
    CloseTickKeepsInv(s, r);
    assert TickOk(s, s.ticks[r]);
    forall i | 0 <= i < |s.ticks[r].reqs|
      ensures ClaimOk(s, s.ticks[r].reqs[i]) && !Locked(CloseTick(s, r), s.ticks[r].reqs[i].id)
    {
      ClaimedRowsFree(s, r, i);
    }
  }

  /** A tick's commit never finds a claimed row changed under it, whatever other replicas did since
      the claim; it changes exactly the rows that the batch placed. */
  lemma CommitEffect(s: Cluster, r: Replica, now: int)
    requires Inv(s) && ReadyToCommit(s, r)
    ensures var s' := CommitTick(s, r, now);
            var tick := s.ticks[r];
            && TickWrites(s, r, now) == Some(s')
            && Inv(s')
            && s' == CloseTick(s, r).(tasks := s'.tasks, events := s'.events)
            && |s'.tasks| == |s.tasks|
            && forall t :: 0 <= t < |s.tasks| ==>
                             s'.tasks[t] == RowAfter(s, tick.reqs, tick.nodes.value, Placements(tick), now, t)
  {
    TickAssignable(s, r);
    var tick := s.ticks[r];
    SchedulePlacedRows(CloseTick(s, r), tick.reqs, tick.nodes.value, Placements(tick), now);
    SchedulePlacedKeepsInv(CloseTick(s, r), tick.reqs, tick.nodes.value, Placements(tick), now);
  }

  // ---------- every step, every run ----------

  lemma StepKeepsInv(s: Cluster, a: Step)
    requires Inv(s) && Enabled(s, a)
    ensures Inv(Apply(s, a))
  {
    match a
    case CreateJobStep(job) => CreateKeepsInv(s, job);
    case RegisterNodeStep(reg) =>
      if RegistrationAccepted(reg) {
        RegisterKeepsInv(s, reg);
      }
    case UpdateNodeStatusStep(n, change) => StatusKeepsInv(s, n, change);
    case BeginDeathStep(n) => BeginDeathKeepsInv(s, n);
    case FinishDeathStep(n) => FinishDeathEffect(s, n);
    case AbortDeathStep(n) => CloseDeathKeepsInv(s, n);
    case ReportStep(rep, now) => ReportKeepsInv(s, rep, now);
    case ClaimStep(r, ids, now) => ClaimKeepsInv(s, r, ids, now);
    case ReadNodesStep(r) =>
      ActiveNodesOk(s);
      assert TickOk(s, s.ticks[r]);
      ReadKeepsInv(s, r, s.ticks[r].(nodes := Some(ActiveNodes(s.nodes, |s.nodes|))));
    case ReadAllocationsStep(r) =>
      assert TickOk(s, s.ticks[r]);
      ReadKeepsInv(s, r, s.ticks[r].(allocs := Some(Allocations(s))));
    case CommitTickStep(r, now) => CommitEffect(s, r, now);
    case AbortTickStep(r) => CloseTickKeepsInv(s, r);
  }

  /** In every state of every run, whatever the interleaving: no task is claimed by two open ticks, a
      task is unassigned exactly when pending, node and epoch are set or cleared together,
      assigned_epoch is at most the node's epoch, and each job has exactly `replicas` tasks. */
  lemma {:induction false} RunInv(run: Run, i: nat)
    requires IsRun(run) && i < |run.states|
    ensures Inv(run.states[i])
  {
    if i > 0 {
      RunInv(run, i - 1);
      assert StepAt(run, i - 1);
      StepKeepsInv(run.states[i - 1], run.steps[i - 1]);
    }
  }
}
