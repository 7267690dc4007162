/** Epoch fencing: once the death of a node has taken a task off it, nothing that the node reports
    under the epochs it had before can touch that task again. */
module Fencing {
  import opened Entities
  import opened ClusterState
  import opened RowInvariants

  /** Node `n` has left epoch `e` behind, and task `t` is not assigned, and cannot become assigned by
      any open tick, to `n` under an epoch of at most `e`. */
  ghost predicate Fenced(s: Cluster, t: TaskId, n: NodeId, e: int) {
    && n < |s.nodes| && s.nodes[n].epoch > e
    && t < |s.tasks|
    && (s.tasks[t].assignedNode == Some(n) ==> s.tasks[t].assignedEpoch.Some? && s.tasks[t].assignedEpoch.value > e)
    && forall r :: r in s.ticks ==> TickFenced(s.ticks[r], t, n, e)
  }

  ghost predicate TickFenced(tick: Tick, t: TaskId, n: NodeId, e: int) {
    tick.nodes.Some? && t in Ids(tick.reqs) ==>
      forall k :: 0 <= k < |tick.nodes.value| && tick.nodes.value[k].id == n ==> tick.nodes.value[k].epoch > e
  }

  /** A fenced report is rejected as stale and changes nothing. */
  lemma FencedReportRejected(s: Cluster, t: TaskId, n: NodeId, e: int, r: Report, now: int)
    requires Fenced(s, t, n, e) && r.task == t && r.node == Some(n) && r.epoch <= e
    ensures ReportOutcome(s, r, now) == Stale && UpdateTaskStatus(s, r, now) == s
  {
    assert s.tasks[t := s.tasks[t]] == s.tasks;
    assert s.events + [] == s.events;
  }

  lemma {:induction false} ChosenIsClaimed(reqs: seq<TaskRequest>, placed: seq<Option<nat>>, t: TaskId, n: nat)
    requires |placed| <= |reqs| && Chosen(reqs, placed, t).Some?
    requires forall i :: 0 <= i < |placed| && placed[i].Some? ==> placed[i].value < n
    ensures Chosen(reqs, placed, t).value < n
    ensures t in Ids(reqs)
  {
    var last := |placed| - 1;
    if reqs[last].id == t {
      assert Ids(reqs)[last] == t;
    } else {
      ChosenIsClaimed(reqs, placed[..last], t, n);
    }
  }

  /** The row was written by the tick: it was claimed, and is now assigned to a node that the tick
      read, under the epoch it read. */
  ghost predicate WrittenBy(tick: Tick, t: TaskId, row: Task) {
    && tick.nodes.Some? && t in Ids(tick.reqs)
    && exists k :: 0 <= k < |tick.nodes.value| && row.assignedNode == Some(tick.nodes.value[k].id)
                   && row.assignedEpoch == Some(tick.nodes.value[k].epoch)
  }

  /** A commit either leaves a row alone or writes it from what the tick claimed and read. */
  lemma CommitRow(s: Cluster, r: Replica, now: int, t: TaskId)
    requires Inv(s) && ReadyToCommit(s, r) && t < |s.tasks|
    ensures var s' := CommitTick(s, r, now);
            && s'.nodes == s.nodes && |s'.tasks| == |s.tasks| && s'.ticks == s.ticks - {r}
            && (s'.tasks[t] == s.tasks[t] || WrittenBy(s.ticks[r], t, s'.tasks[t]))
  {
    CommitEffect(s, r, now);
    var tick := s.ticks[r];
    var choice := Chosen(tick.reqs, Placements(tick), t);
    if choice.Some? {
      ChosenIsClaimed(tick.reqs, Placements(tick), t, |tick.nodes.value|);
    }
  }

  lemma CommitKeepsFenced(s: Cluster, r: Replica, now: int, t: TaskId, n: NodeId, e: int)
    requires Inv(s) && ReadyToCommit(s, r) && Fenced(s, t, n, e)
    ensures Fenced(CommitTick(s, r, now), t, n, e)
  {
    CommitRow(s, r, now, t);
    assert TickFenced(s.ticks[r], t, n, e);
  }

  lemma RegisterKeepsFenced(s: Cluster, reg: Registration, t: TaskId, n: NodeId, e: int)
    requires Inv(s) && RegistrationAccepted(reg) && Fenced(s, t, n, e)
    ensures Fenced(RegisterNode(s, reg), t, n, e)
  {
    RegisterKeepsInv(s, reg);
  }

  lemma ReportKeepsFenced(s: Cluster, r: Report, now: int, t: TaskId, n: NodeId, e: int)
    requires Fenced(s, t, n, e)
    ensures Fenced(UpdateTaskStatus(s, r, now), t, n, e)
  {}

  /** Fencing survives every step. For a claim this is because the claim comes before the tick reads
      the nodes: what it reads then already carries the later epoch. */
  lemma StepKeepsFenced(s: Cluster, a: Step, t: TaskId, n: NodeId, e: int)
    requires Inv(s) && Enabled(s, a) && Fenced(s, t, n, e)
    ensures Fenced(Apply(s, a), t, n, e)
  {
    match a
    case CreateJobStep(job) =>
    case RegisterNodeStep(reg) =>
      if RegistrationAccepted(reg) {
        RegisterKeepsFenced(s, reg, t, n, e);
      }
    case UpdateNodeStatusStep(m, change) =>
    case BeginDeathStep(m) =>
    case FinishDeathStep(m) => FinishDeathEffect(s, m);
    case AbortDeathStep(m) =>
    case ReportStep(rep, now) => ReportKeepsFenced(s, rep, now, t, n, e);
    case ClaimStep(r, ids, now) =>
    case ReadNodesStep(r) => ReadKeepsFenced(s, r, t, n, e);
    case ReadAllocationsStep(r) => assert TickFenced(s.ticks[r], t, n, e);
    case CommitTickStep(r, now) => CommitKeepsFenced(s, r, now, t, n, e);
    case AbortTickStep(r) =>
  }

  lemma ReadKeepsFenced(s: Cluster, r: Replica, t: TaskId, n: NodeId, e: int)
    requires Inv(s) && r in s.ticks && Fenced(s, t, n, e)
    ensures Fenced(ReadNodes(s, r), t, n, e)
  {
    assert forall i :: 0 <= i < |s.nodes| ==> NodeOk(s.nodes[i], i);
    ActiveNodesAre(s.nodes, |s.nodes|);
  }

  /** The commit of a death fences every task it orphans, for all epochs the node had until then. */
  lemma DeathFences(s: Cluster, n: NodeId, t: TaskId)
    requires Inv(s) && Enabled(s, FinishDeathStep(n)) && t in s.deaths[n]
    ensures t < |s.tasks| && Fenced(FinishDeath(s, n), t, n, s.nodes[n].epoch)
    ensures s.tasks[t].assignedNode == Some(n)
  {
    FinishDeathEffect(s, n);
    assert DeathOk(s, n, s.deaths[n]);
    forall r | r in s.ticks ensures TickFenced(s.ticks[r], t, n, s.nodes[n].epoch) {
      assert TickOk(s, s.ticks[r]);
      assert forall i :: 0 <= i < |s.ticks[r].reqs| ==> ClaimOk(s, s.ticks[r].reqs[i]);
    }
  }

  lemma RunStepKeepsFenced(run: Run, j: nat, t: TaskId, n: NodeId, e: int)
    requires IsRun(run) && j < |run.steps| && Fenced(run.states[j], t, n, e)
    ensures Fenced(run.states[j + 1], t, n, e)
  {
    RunInv(run, j);
    assert StepAt(run, j);
    StepKeepsFenced(run.states[j], run.steps[j], t, n, e);
  }

  lemma {:induction false} RunKeepsFenced(run: Run, i: nat, j: nat, t: TaskId, n: NodeId, e: int)
    requires IsRun(run) && i <= j < |run.states| && Fenced(run.states[i], t, n, e)
    ensures Fenced(run.states[j], t, n, e)
  {
    if i < j {
      RunKeepsFenced(run, i, j - 1, t, n, e);
      RunStepKeepsFenced(run, j - 1, t, n, e);
    }
  }

  /** Step `i` commits the death of `n` and takes task `t` off it. From then on, in every later state
      of the run, whatever ticks of whatever replicas were open and whatever they have read, a report
      on `t` that names `n` and an epoch the node had before its death is stale and changes nothing. */
  lemma FencingAcrossDeath(run: Run, i: nat, j: nat, n: NodeId, t: TaskId, r: Report, now: int)
    requires IsRun(run) && i < |run.steps| && run.steps[i] == FinishDeathStep(n)
    requires t < |run.states[i].tasks| && run.states[i].tasks[t].assignedNode == Some(n)
    requires t < |run.states[i + 1].tasks| && run.states[i + 1].tasks[t].assignedNode != Some(n)
    requires i < j < |run.states|
    requires n < |run.states[i].nodes|
    requires r.task == t && r.node == Some(n) && r.epoch <= run.states[i].nodes[n].epoch
    ensures run.states[i].tasks[t].assignedEpoch.Some?
            && run.states[i].tasks[t].assignedEpoch.value <= run.states[i].nodes[n].epoch
    ensures ReportOutcome(run.states[j], r, now) == Stale
    ensures UpdateTaskStatus(run.states[j], r, now) == run.states[j]
  {
    var s := run.states[i];
    RunInv(run, i);
    assert StepAt(run, i);
    assert TaskOk(s.nodes, s.jobs, s.tasks[t]);
    FinishDeathEffect(s, n);
    assert t in s.deaths[n];
    DeathFences(s, n, t);
    RunKeepsFenced(run, i + 1, j, t, n, s.nodes[n].epoch);
    FencedReportRejected(run.states[j], t, n, s.nodes[n].epoch, r, now);
  }
}
