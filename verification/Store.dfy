/** The store's transactions as they run when nobody interferes: rows rewritten in place, one
    statement after another. Each is proved to be the corresponding step, or sequence of steps, of the
    state machine, and to keep the row invariants. */
module Store {
  import opened Entities
  import opened Placement
  import opened Engine
  import opened ClusterState
  import opened RowInvariants
  import opened WholeTicks
  import Capacity

  class Store {
    var nodes: seq<Node>
    var jobs: seq<Job>
    var tasks: seq<Task>
    var events: seq<Event>

    ghost function State(): Cluster
      reads this
    {
      Cluster(nodes, jobs, tasks, events, map[], map[])
    }

    ghost predicate Valid()
      reads this
    {
      Inv(State())
    }

    constructor ()
      ensures Valid() && State() == INITIAL
    {
      nodes, jobs, tasks, events := [], [], [], [];
    }

    /** Insert the job and expand it into `replicas` pending tasks. */
    method CreateJob(job: Job) returns (created: bool)
      requires Valid()
      modifies this
      ensures Valid()
      ensures created <==> JobAccepted(job)
      ensures State() == ClusterState.CreateJob(old(State()), job)
    {
      CreateKeepsInv(State(), job);
      created := JobAccepted(job);
      if !created {
        return;
      }
      var j := |jobs|;
      jobs := jobs + [job.(policy := DefaultedPolicy(job.policy))];
      for i := 0 to job.replicas
        modifies this`tasks
        invariant tasks == old(tasks) + Replicas(j, i)
      {
        tasks := tasks + [NewTask(j)];
        assert tasks == old(tasks) + (Replicas(j, i) + [NewTask(j)]);
      }
      events := events + [JobSubmitted(j)];
    }

    /** Upsert by hostname and address. */
    method RegisterNode(reg: Registration) returns (node: Node)
      requires Valid()
      modifies this
      ensures RegistrationAccepted(reg) ==> Valid()
      ensures State() == ClusterState.RegisterNode(old(State()), reg)
      ensures node.id < |nodes| && nodes[node.id] == node && SameIdentity(node, reg.hostname, reg.address)
    {
      if RegistrationAccepted(reg) {
        RegisterKeepsInv(State(), reg);
      }
      var labels := if reg.labels.None? then Some(map[]) else reg.labels;
      var found := FindNode(nodes, reg.hostname, reg.address, |nodes|);
      if found.Some? {
        var row := nodes[found.value];
        assert NodeOk(row, found.value);
        node := row.(capacity := reg.capacity, labels := labels, status := Ready, epoch := row.epoch + 1);
        nodes := nodes[found.value := node];
      } else {
        node := Node(|nodes|, reg.hostname, reg.address, reg.capacity, labels, Ready, 0);
        nodes := nodes + [node];
      }
      events := events + [NodeRegistered(node.id)];
    }

    method UpdateNodeStatus(n: NodeId, change: StatusChange) returns (found: bool)
      requires Valid()
      modifies this
      ensures Valid()
      ensures found <==> n < |old(nodes)|
      ensures State() == ClusterState.UpdateNodeStatus(old(State()), n, change)
    {
      StatusKeepsInv(State(), n, change);
      found := n < |nodes|;
      if found {
        nodes := nodes[n := nodes[n].(status := NewStatus(change))];
        events := events + [StatusEvent(change, n)];
      }
    }

    /** Orphan and requeue the tasks that are scheduled or running on the node. */
    method OrphanAndRequeue(n: NodeId) returns (ids: seq<TaskId>)
      modifies this`tasks, this`events
      ensures ids == ActiveIds(old(tasks), n, |old(tasks)|)
      ensures IdsInRange(old(tasks), n)
      ensures State() == OrphanTasks(old(State()), ids)
    {
      ids := ActiveIds(tasks, n, |tasks|);
      IdsAreInRange(tasks, n);
      ghost var s := State();
      for i := 0 to |ids|
        invariant |tasks| == |s.tasks|
        invariant State() == OrphanTasks(s, ids[..i])
      {
        OrphanNext(s, ids, i);
        events := events + [TaskOrphaned(ids[i])];
        tasks := tasks[ids[i] := OrphanRow(tasks[ids[i]])];
        events := events + [TaskRequeued(ids[i])];
      }
      assert ids[..|ids|] == ids;
    }

    /** Mark the node dead and requeue its tasks; `None` when there is no such node. */
    method MarkNodeDead(n: NodeId) returns (orphaned: Option<seq<TaskId>>)
      requires Valid()
      modifies this
      ensures Valid()
      ensures orphaned.None? <==> n >= |old(nodes)|
      ensures orphaned.None? ==> State() == old(State())
      ensures orphaned.Some? ==>
                && orphaned.value == ActiveIds(old(tasks), n, |old(tasks)|)
                && Enabled(BeginDeath(old(State()), n), FinishDeathStep(n))
                && State() == FinishDeath(BeginDeath(old(State()), n), n)
    {
      if n >= |nodes| {
        return None;
      }
      Undisturbed(State(), n);
      ghost var s := State();
      nodes := nodes[n := nodes[n].(status := Dead, epoch := nodes[n].epoch + 1)];
      events := events + [NodeDead(n)];
      assert State() == RecordDeath(s, n);
      var ids := OrphanAndRequeue(n);
      orphaned := Some(ids);
    }

    /** Transition a task on a worker's report. */
    method UpdateTaskStatus(r: Report, now: int) returns (outcome: Outcome)
      requires Valid()
      modifies this
      ensures Valid()
      ensures outcome == ReportOutcome(old(State()), r, now)
      ensures State() == ClusterState.UpdateTaskStatus(old(State()), r, now)
    {
      ReportKeepsInv(State(), r, now);
      if r.task >= |tasks| {
        return NotFound;
      }
      var task := tasks[r.task];
      assert tasks[r.task := task] == tasks && events + [] == events;
      if !PassesFence(task, r.node, r.epoch) {
        return Stale;
      }
      if (r.status == Succeeded || r.status == Failed) && task.status == r.status {
        return AlreadyDone;
      }
      if r.status == Running {
        if task.status != Scheduled && task.status != Running {
          return BadTransition;
        }
        tasks := tasks[r.task := task.(status := Running, startedAt := Coalesce(task.startedAt, now), nextRetryAt := None)];
        if task.status == Scheduled {
          events := events + [TaskRunning(r.task)];
        }
        return Updated;
      } else if r.status == Succeeded || r.status == Failed {
        if task.status != Scheduled && task.status != Running {
          return BadTransition;
        }
        if r.status == Failed {
          assert TaskOk(nodes, jobs, task);
          var retryLimit := jobs[task.job].retryLimit;
          if task.retriesUsed < retryLimit {
            tasks := tasks[r.task := Requeued(task, r, now)];
            events := events + [TaskRetryScheduled(r.task)];
            return Updated;
          }
        }
        tasks := tasks[r.task := Finished(task, r, now)];
        events := events + [if r.status == Failed then TaskFailed(r.task) else TaskSucceeded(r.task)];
        return Updated;
      } else {
        return Unsupported;
      }
    }

    /** What each node's active tasks ask for; nodes without any are absent. */
    method GetNodeAllocations() returns (allocs: map<NodeId, Resources>)
      requires Valid()
      ensures allocs == Allocations(State())
    {
      allocs := map[];
      for i := 0 to |tasks|
        invariant CountsUpTo(jobs, tasks, i, allocs)
      {
        NextCounted(State(), i, allocs);
        if Active(tasks[i]) {
          var n := tasks[i].assignedNode.value;
          allocs := allocs[n := Reserved(allocs, n).Plus(jobs[tasks[i].job].request)];
        }
      }
      AllocationsAre(State(), allocs);
    }

    /** The nodes to place on and to watch, oldest first. */
    method ListActiveNodes() returns (active: seq<Node>)
      ensures active == ActiveNodes(nodes, |nodes|)
    {
      active := [];
      for i := 0 to |nodes|
        invariant active == ActiveNodes(nodes, i)
      {
        if nodes[i].status != Dead && nodes[i].status != Cordoned {
          active := active + [nodes[i]];
        }
      }
    }

    /** Claim up to `limit` pending tasks that are due, oldest first, with what their jobs ask for; a due task
        is left out only when `limit` older ones are claimed. */
    method ClaimPending(limit: nat, now: int) returns (reqs: seq<TaskRequest>)
      ensures OldestDue(State(), limit, now, reqs)
      ensures AreFor(State(), DueIds(tasks, |jobs|, now, limit, |tasks|), reqs)
    {
      reqs := [];
      ghost var s := State();
      for i := 0 to |tasks|
        invariant ClaimedUpTo(s, limit, now, i, reqs)
      {
        ClaimNext(s, limit, now, i, reqs);
        var t := tasks[i];
        if |reqs| < limit && t.status == Pending && (t.nextRetryAt.None? || t.nextRetryAt.value <= now) && t.job < |jobs| {
          var job := jobs[t.job];
          reqs := reqs + [TaskRequest(i, job.request, job.policy, job.constraints)];
        }
      }
      DueIdsAreOldest(s, limit, now, reqs);
    }

    /** Assign a pending task; false, changing nothing, when its row is not pending. */
    method ScheduleTask(t: TaskId, n: NodeId, epoch: int, now: int) returns (ok: bool)
      modifies this`tasks, this`events
      ensures var w := ClusterState.ScheduleTask(old(State()), t, n, epoch, now);
              ok == w.Some? && State() == if ok then w.value else old(State())
    {
      if t >= |tasks| || tasks[t].status != Pending {
        return false;
      }
      tasks := tasks[t := tasks[t].(status := Scheduled, assignedNode := Some(n), assignedEpoch := Some(epoch), scheduledAt := Some(now))];
      events := events + [TaskScheduled(t, n, epoch)];
      return true;
    }

    /** One scheduling tick: claim, read nodes, read allocations, place and write each task under the
        running reservations. It commits, and no write ever misses its row. */
    method Tick(now: int) returns (placed: nat)
      requires Valid()
      modifies this
      ensures Valid()
      ensures var ids := DueIds(old(tasks), |old(jobs)|, now, CLAIM_LIMIT, |old(tasks)|);
              if ids == [] then State() == old(State())
              else
                && Enabled(old(State()), ClaimStep(0, ids, now))
                && State() == WholeTick(old(State()), ids, now)
      ensures TickDone(old(State()), State(), now)
      ensures |events| == |old(events)| + placed
    {
      placed := 0;
      var reqs := ClaimPending(CLAIM_LIMIT, now);
      if reqs == [] {
        NothingClaimed(State(), now);
        return;
      }
      ghost var ids := DueIds(tasks, |jobs|, now, CLAIM_LIMIT, |tasks|);
      ghost var s := State();
      var active := ListActiveNodes();
      var allocs := GetNodeAllocations();
      TickClaims(s, ids, reqs, now);
      WholeTickDone(s, ids, now);
      placed := PlaceBatch(reqs, active, allocs, now);
      ghost var tick := s.(ticks := map[0 := ClusterState.Tick(reqs, Some(active), Some(allocs))]);
      CommitEffect(tick, 0, now);
      assert CloseTick(tick, 0) == s;
    }

    /** The placement loop of a tick, writing each placed task as it goes. */
    method PlaceBatch(reqs: seq<TaskRequest>, active: seq<Node>, allocs: map<NodeId, Resources>, now: int) returns (placed: nat)
      requires Assignable(State(), reqs, active)
      modifies this`tasks, this`events
      ensures SchedulePlaced(old(State()), reqs, active, Batch(active, allocs, reqs), now) == Some(State())
      ensures |events| == |old(events)| + placed
    {
      placed := 0;
      ghost var s := State();
      var pendingAlloc: map<NodeId, Resources> := allocs;
      ghost var choices: seq<Option<nat>> := [];
      for i := 0 to |reqs|
        invariant Written(s, reqs, active, allocs, now, i, choices, pendingAlloc, State())
        invariant |events| == |s.events| + placed
      {
        var choice := Place(active, pendingAlloc, reqs[i], DEFAULT_FILTERS, ScorerForPolicy(reqs[i].policy));
        WriteNext(s, reqs, active, allocs, now, i, choices, pendingAlloc, State());
        choices := choices + [choice];
        if choice.Some? {
          var node := active[choice.value];
          var ok := ScheduleTask(reqs[i].id, node.id, node.epoch, now);
          pendingAlloc := pendingAlloc[node.id := Reserved(pendingAlloc, node.id).Plus(reqs[i].request)];
          placed := placed + 1;
        }
      }
    }
  }

  /** The loop has handled the first `i` tasks: their choices, the reservations and the rows so far. */
  ghost predicate Written(s: Cluster, reqs: seq<TaskRequest>, active: seq<Node>, allocs: map<NodeId, Resources>, now: int,
                          i: nat, choices: seq<Option<nat>>, pending: map<NodeId, Resources>, m: Cluster)
  {
    && i <= |reqs| && choices == BatchUpTo(active, allocs, reqs, i)
    && pending == PendingAlloc(active, allocs, reqs, choices)
    && SchedulePlaced(s, reqs, active, choices, now) == Some(m)
  }

  /** One turn of the placement loop. */
  lemma WriteNext(s: Cluster, reqs: seq<TaskRequest>, active: seq<Node>, allocs: map<NodeId, Resources>, now: int,
                  i: nat, choices: seq<Option<nat>>, pending: map<NodeId, Resources>, m: Cluster)
    requires Assignable(s, reqs, active) && i < |reqs| && Written(s, reqs, active, allocs, now, i, choices, pending, m)
    ensures var choice := PlaceNext(active, pending, reqs[i]);
            if choice.None? then Written(s, reqs, active, allocs, now, i + 1, choices + [choice], pending, m)
            else
              var node := active[choice.value];
              var w := ClusterState.ScheduleTask(m, reqs[i].id, node.id, node.epoch, now);
              && w.Some?
              && Written(s, reqs, active, allocs, now, i + 1, choices + [choice],
                         pending[node.id := Reserved(pending, node.id).Plus(reqs[i].request)], w.value)
  {
    NextChoice(s, reqs, active, allocs, choices, m, now);
  }

  lemma NextChoice(s: Cluster, reqs: seq<TaskRequest>, active: seq<Node>, allocs: map<NodeId, Resources>,
                   prev: seq<Option<nat>>, m: Cluster, now: int)
    requires Assignable(s, reqs, active) && |prev| < |reqs| && prev == BatchUpTo(active, allocs, reqs, |prev|)
    requires SchedulePlaced(s, reqs, active, prev, now) == Some(m)
    ensures var i := |prev|;
            var pending := PendingAlloc(active, allocs, reqs, prev);
            var choice := PlaceNext(active, pending, reqs[i]);
            && BatchUpTo(active, allocs, reqs, i + 1) == prev + [choice]
            && PendingAlloc(active, allocs, reqs, prev + [choice]) == Reserve(active, pending, reqs[i], choice)
            && (choice.None? ==> SchedulePlaced(s, reqs, active, prev + [choice], now) == Some(m))
            && (choice.Some? ==>
                  var w := ClusterState.ScheduleTask(m, reqs[i].id, active[choice.value].id, active[choice.value].epoch, now);
                  w.Some? && SchedulePlaced(s, reqs, active, prev + [choice], now) == w)
  {
    var i := |prev|;
    var choice := PlaceNext(active, PendingAlloc(active, allocs, reqs, prev), reqs[i]);
    assert (prev + [choice])[..i] == prev;
    SchedulePlacedRows(s, reqs, active, prev, now);
    ChosenOther(reqs, prev, reqs[i].id);
  }

  ghost predicate IdsInRange(tasks: seq<Task>, n: NodeId) {
    InRange(ActiveIds(tasks, n, |tasks|), |tasks|)
  }

  lemma IdsAreInRange(tasks: seq<Task>, n: NodeId)
    ensures IdsInRange(tasks, n)
  {
    var ids := ActiveIds(tasks, n, |tasks|);
    assert forall i :: 0 <= i < |ids| ==> ids[i] in ids;
  }

  lemma OrphanNext(s: Cluster, ids: seq<TaskId>, i: nat)
    requires i < |ids| && InRange(ids, |s.tasks|)
    ensures OrphanTasks(s, ids[..i + 1]) == OrphanTask(OrphanTasks(s, ids[..i]), ids[i])
  {
    assert ids[..i + 1][..i] == ids[..i];
  }

  /** The two halves of a death with nothing in between, in one piece. */
  lemma Undisturbed(s: Cluster, n: NodeId)
    requires Inv(s) && n < |s.nodes| && s.deaths == map[]
    ensures var begun := BeginDeath(s, n);
            && Enabled(begun, FinishDeathStep(n))
            && IdsInRange(s.tasks, n)
            && FinishDeath(begun, n) == OrphanTasks(RecordDeath(s, n), ActiveIds(s.tasks, n, |s.tasks|))
            && Inv(FinishDeath(begun, n))
  {
    var begun := BeginDeath(s, n);
    BeginDeathKeepsInv(s, n);
    FinishDeathEnabled(begun, n);
    FinishDeathEffect(begun, n);
    IdsAreInRange(s.tasks, n);
    assert begun.(deaths := begun.deaths - {n}) == s;
  }

  /** Right after an undisturbed MarkNodeDead the node is dead and has no scheduled or running task. */
  lemma DeadNodeIsEmpty(s: Cluster, n: NodeId, t: TaskId)
    requires Inv(s) && n < |s.nodes| && n !in s.deaths && t < |s.tasks|
    ensures var begun := BeginDeath(s, n);
            && Enabled(begun, FinishDeathStep(n))
            && n < |FinishDeath(begun, n).nodes| && FinishDeath(begun, n).nodes[n].status == Dead
            && |FinishDeath(begun, n).tasks| == |s.tasks|
            && !ActiveOn(FinishDeath(begun, n).tasks[t], n)
  {
    var begun := BeginDeath(s, n);
    BeginDeathKeepsInv(s, n);
    FinishDeathEnabled(begun, n);
    FinishDeathEffect(begun, n);
  }

  /** The map counts the first `i` tasks: it has the nodes with an active one, and their sums. */
  ghost predicate CountsUpTo(jobs: seq<Job>, tasks: seq<Task>, i: nat, allocs: map<NodeId, Resources>)
    requires i <= |tasks|
  {
    && (forall n :: n in allocs <==> exists t :: 0 <= t < i && ActiveOn(tasks[t], n))
    && (forall n: NodeId :: Reserved(allocs, n).Same(Allocation(jobs, tasks[..i], n)))
  }

  /** Counting one more task. */
  function Counted(jobs: seq<Job>, t: Task, allocs: map<NodeId, Resources>): map<NodeId, Resources>
    requires Active(t) ==> t.assignedNode.Some?
  {
    if Active(t) then
      allocs[t.assignedNode.value := Reserved(allocs, t.assignedNode.value).Plus(RequestOf(jobs, t))]
    else allocs
  }

  lemma CountedReserved(jobs: seq<Job>, t: Task, allocs: map<NodeId, Resources>, n: NodeId, before: Resources, after: Resources)
    requires Active(t) ==> t.assignedNode.Some?
    requires Reserved(allocs, n).Same(before) && after.IsSum(before, Weight(jobs, t, n))
    ensures Reserved(Counted(jobs, t, allocs), n).Same(after)
  {}

  lemma CountedAt(jobs: seq<Job>, tasks: seq<Task>, i: nat, allocs: map<NodeId, Resources>, n: NodeId)
    requires i < |tasks| && (Active(tasks[i]) ==> tasks[i].assignedNode.Some?)
    requires Reserved(allocs, n).Same(Allocation(jobs, tasks[..i], n))
    ensures Reserved(Counted(jobs, tasks[i], allocs), n).Same(Allocation(jobs, tasks[..i + 1], n))
  {
    Capacity.AllocationSnoc(jobs, tasks[..i], tasks[i], n);
    assert tasks[..i + 1] == tasks[..i] + [tasks[i]];
    CountedReserved(jobs, tasks[i], allocs, n, Allocation(jobs, tasks[..i], n), Allocation(jobs, tasks[..i + 1], n));
  }

  lemma AllocationsNext(jobs: seq<Job>, tasks: seq<Task>, i: nat, allocs: map<NodeId, Resources>)
    requires i < |tasks| && CountsUpTo(jobs, tasks, i, allocs)
    requires Active(tasks[i]) ==> tasks[i].assignedNode.Some?
    ensures CountsUpTo(jobs, tasks, i + 1, Counted(jobs, tasks[i], allocs))
  {
    forall n: NodeId
      ensures Reserved(Counted(jobs, tasks[i], allocs), n).Same(Allocation(jobs, tasks[..i + 1], n))
    {
      CountedAt(jobs, tasks, i, allocs, n);
    }
  }

  lemma NextCounted(s: Cluster, i: nat, allocs: map<NodeId, Resources>)
    requires Inv(s) && i < |s.tasks| && CountsUpTo(s.jobs, s.tasks, i, allocs)
    ensures Active(s.tasks[i]) ==> s.tasks[i].assignedNode.Some? && s.tasks[i].job < |s.jobs|
    ensures CountsUpTo(s.jobs, s.tasks, i + 1, Counted(s.jobs, s.tasks[i], allocs))
  {
    assert TaskOk(s.nodes, s.jobs, s.tasks[i]);
    AllocationsNext(s.jobs, s.tasks, i, allocs);
  }

  lemma AllocationsAre(s: Cluster, allocs: map<NodeId, Resources>)
    requires Inv(s) && CountsUpTo(s.jobs, s.tasks, |s.tasks|, allocs)
    ensures allocs == Allocations(s)
  {
    assert s.tasks[..|s.tasks|] == s.tasks;
    assert forall t :: 0 <= t < |s.tasks| ==> TaskOk(s.nodes, s.jobs, s.tasks[t]) && s.tasks[t] in s.tasks;
    forall n: NodeId | n in allocs ensures allocs[n] == Allocation(s.jobs, s.tasks, n) {
      SameIsEqual(Reserved(allocs, n), Allocation(s.jobs, s.tasks, n));
    }
  }
}
