/** Tasks on dead nodes. The death of a node takes its tasks off it, but a tick that read the node
    before it died can put one back: exactly when that happens, and what is still true then. */
module DeadNodes {
  import opened Entities
  import opened Placement
  import opened Engine
  import opened ClusterState
  import opened RowInvariants
  import opened Ticks
  import opened Fencing
  import opened CapacityLimits
  import opened Accounting

  predicate IsDead(s: Cluster, n: NodeId) {
    n < |s.nodes| && s.nodes[n].status == Dead
  }

  /** No task is scheduled or running on a dead node. */
  ghost predicate DeadAreEmpty(s: Cluster) {
    forall t: TaskId, n: NodeId :: t < |s.tasks| && IsDead(s, n) ==> !ActiveOn(s.tasks[t], n)
  }

  /** The tick has placed its `i`th task on a node that is dead by now. */
  predicate PlacedOnDead(s: Cluster, tick: Tick, i: nat) {
    && tick.nodes.Some? && tick.allocs.Some? && i < |tick.reqs|
    && Placements(tick)[i].Some? && IsDead(s, tick.nodes.value[Placements(tick)[i].value].id)
  }

  /** The step commits a tick that has placed a task on a node that is dead by now, or a death whose
      node was given a task after the rows to orphan were selected. */
  ghost predicate Strands(s: Cluster, a: Step) {
    match a
    case CommitTickStep(r, _) => r in s.ticks && exists i: nat :: PlacedOnDead(s, s.ticks[r], i)
    case FinishDeathStep(n) =>
      n in s.deaths && exists t: TaskId :: t < |s.tasks| && ActiveOn(s.tasks[t], n) && t !in s.deaths[n]
    case _ => false
  }

  /** The placement of a claimed task, if it has one, is the row that the commit writes for it. */
  lemma CommitPlaces(s: Cluster, r: Replica, now: int, i: nat)
    requires Inv(s) && ReadyToCommit(s, r) && i < |s.ticks[r].reqs| && Placements(s.ticks[r])[i].Some?
    ensures var tick := s.ticks[r];
            && tick.reqs[i].id < |CommitTick(s, r, now).tasks|
            && ActiveOn(CommitTick(s, r, now).tasks[tick.reqs[i].id], tick.nodes.value[Placements(tick)[i].value].id)
  {
    var tick := s.ticks[r];
    assert TickOk(s, tick);
    assert ClaimOk(s, tick.reqs[i]);
    ChosenAt(tick.reqs, Placements(tick), i);
    CommitEffect(s, r, now);
  }

  lemma {:induction false} ChosenFrom(reqs: seq<TaskRequest>, placed: seq<Option<nat>>, t: TaskId) returns (i: nat)
    requires |placed| <= |reqs| && Chosen(reqs, placed, t).Some?
    ensures i < |placed| && reqs[i].id == t && placed[i] == Chosen(reqs, placed, t)
  {
    var last := |placed| - 1;
    if reqs[last].id == t {
      i := last;
    } else {
      i := ChosenFrom(reqs, placed[..last], t);
    }
  }

  lemma CommitStrands(s: Cluster, r: Replica, now: int)
    requires Inv(s) && DeadAreEmpty(s) && ReadyToCommit(s, r)
    ensures DeadAreEmpty(CommitTick(s, r, now)) <==> !Strands(s, CommitTickStep(r, now))
  {
    var s', tick := CommitTick(s, r, now), s.ticks[r];
    CommitEffect(s, r, now);
    if Strands(s, CommitTickStep(r, now)) {
      var i: nat :| PlacedOnDead(s, tick, i);
      CommitPlaces(s, r, now, i);
      assert IsDead(s', tick.nodes.value[Placements(tick)[i].value].id);
    } else {
      forall t: TaskId, n: NodeId | t < |s'.tasks| && IsDead(s', n) ensures !ActiveOn(s'.tasks[t], n) {
        assert IsDead(s, n);
        if Chosen(tick.reqs, Placements(tick), t).Some? {
          var i := ChosenFrom(tick.reqs, Placements(tick), t);
          assert !PlacedOnDead(s, tick, i);
        }
      }
    }
  }

  lemma DeathStrands(s: Cluster, n: NodeId)
    requires Inv(s) && DeadAreEmpty(s) && Enabled(s, FinishDeathStep(n))
    ensures DeadAreEmpty(FinishDeath(s, n)) <==> !Strands(s, FinishDeathStep(n))
  {
    FinishDeathEffect(s, n);
    var s' := FinishDeath(s, n);
    if Strands(s, FinishDeathStep(n)) {
      var t: TaskId :| t < |s.tasks| && ActiveOn(s.tasks[t], n) && t !in s.deaths[n];
      assert IsDead(s', n) && ActiveOn(s'.tasks[t], n);
    } else {
      forall t: TaskId, m: NodeId | t < |s'.tasks| && IsDead(s', m) ensures !ActiveOn(s'.tasks[t], m) {
        if m != n {
          assert IsDead(s, m);
        }
      }
    }
  }

  lemma CreateKeepsDeadEmpty(s: Cluster, job: Job)
    requires DeadAreEmpty(s)
    ensures DeadAreEmpty(CreateJob(s, job))
  {
    if JobAccepted(job) {
      ReplicasAre(|s.jobs|, job.replicas);
      var s' := CreateJob(s, job);
      forall t: TaskId, n: NodeId | t < |s'.tasks| && IsDead(s', n) ensures !ActiveOn(s'.tasks[t], n) {
        assert IsDead(s, n);
      }
    }
  }

  lemma NodesKeepDeadEmpty(s: Cluster, s': Cluster)
    requires DeadAreEmpty(s) && s'.tasks == s.tasks
    requires Inv(s) && |s.nodes| <= |s'.nodes|
    requires forall n: NodeId :: IsDead(s', n) ==> IsDead(s, n)
    ensures DeadAreEmpty(s')
  {}

  lemma ReportKeepsDeadEmpty(s: Cluster, r: Report, now: int)
    requires DeadAreEmpty(s)
    ensures DeadAreEmpty(UpdateTaskStatus(s, r, now))
  {
    var s' := UpdateTaskStatus(s, r, now);
    forall t: TaskId, n: NodeId | t < |s'.tasks| && IsDead(s', n) ensures !ActiveOn(s'.tasks[t], n) {
      assert IsDead(s, n) && !ActiveOn(s.tasks[t], n);
    }
  }

  /** A step that starts with dead nodes empty leaves them empty if and only if it is not the commit of
      a tick that placed a task on a node since dead, nor of a death overtaken by such a commit. */
  lemma DeadStayEmptyExactly(s: Cluster, a: Step)
    requires Inv(s) && DeadAreEmpty(s) && Enabled(s, a)
    ensures DeadAreEmpty(Apply(s, a)) <==> !Strands(s, a)
  {
    match a
    case CreateJobStep(job) => CreateKeepsDeadEmpty(s, job);
    case ReportStep(rep, now) => ReportKeepsDeadEmpty(s, rep, now);
    case FinishDeathStep(n) => DeathStrands(s, n);
    case CommitTickStep(r, now) => CommitStrands(s, r, now);
    case _ => NodesKeepDeadEmpty(s, Apply(s, a));
  }

  // ---------- what is left on a dead node is stale ----------

  /** Whatever a dead node is still assigned, and whatever an open tick has read of it, is from an
      epoch before its death. */
  ghost predicate DeadAreAhead(s: Cluster) {
    && (forall t: TaskId, n: NodeId :: t < |s.tasks| && IsDead(s, n) && s.tasks[t].assignedNode == Some(n) ==>
                                          s.tasks[t].assignedEpoch.Some? && s.tasks[t].assignedEpoch.value < s.nodes[n].epoch)
    && (forall r :: r in s.ticks ==> TickBehind(s, s.ticks[r]))
  }

  ghost predicate TickBehind(s: Cluster, tick: Tick) {
    tick.nodes.Some? ==>
      forall k :: 0 <= k < |tick.nodes.value| && IsDead(s, tick.nodes.value[k].id) ==>
                    tick.nodes.value[k].epoch < s.nodes[tick.nodes.value[k].id].epoch
  }

  lemma DeathKeepsTickBehind(s: Cluster, n: NodeId, r: Replica)
    requires Inv(s) && Enabled(s, FinishDeathStep(n)) && r in s.ticks && TickBehind(s, s.ticks[r])
    ensures TickBehind(FinishDeath(s, n), s.ticks[r])
  {
    FinishDeathEffect(s, n);
    assert TickOk(s, s.ticks[r]);
  }

  lemma DeathKeepsRowBehind(s: Cluster, n: NodeId, t: TaskId, m: NodeId)
    requires Inv(s) && DeadAreAhead(s) && Enabled(s, FinishDeathStep(n))
    ensures var s' := FinishDeath(s, n);
            t < |s'.tasks| && IsDead(s', m) && s'.tasks[t].assignedNode == Some(m) ==>
              s'.tasks[t].assignedEpoch.Some? && s'.tasks[t].assignedEpoch.value < s'.nodes[m].epoch
  {
    FinishDeathEffect(s, n);
    if t < |s.tasks| {
      assert TaskOk(s.nodes, s.jobs, s.tasks[t]);
      assert m != n && m < |s.nodes| ==> FinishDeath(s, n).nodes[m] == s.nodes[m];
    }
  }

  lemma FinishDeathKeepsAhead(s: Cluster, n: NodeId)
    requires Inv(s) && DeadAreAhead(s) && Enabled(s, FinishDeathStep(n))
    ensures DeadAreAhead(FinishDeath(s, n))
  {
    var s' := FinishDeath(s, n);
    forall t: TaskId, m: NodeId | t < |s'.tasks| && IsDead(s', m) && s'.tasks[t].assignedNode == Some(m)
      ensures s'.tasks[t].assignedEpoch.Some? && s'.tasks[t].assignedEpoch.value < s'.nodes[m].epoch
    {
      DeathKeepsRowBehind(s, n, t, m);
    }
    FinishDeathEffect(s, n);
    forall r | r in s'.ticks ensures TickBehind(s', s'.ticks[r]) {
      DeathKeepsTickBehind(s, n, r);
    }
  }

  lemma CommitKeepsAhead(s: Cluster, r: Replica, now: int)
    requires Inv(s) && DeadAreAhead(s) && ReadyToCommit(s, r)
    ensures DeadAreAhead(CommitTick(s, r, now))
  {
    var s' := CommitTick(s, r, now);
    CommitEffect(s, r, now);
    assert TickBehind(s, s.ticks[r]);
    forall t: TaskId, n: NodeId | t < |s'.tasks| && IsDead(s', n) && s'.tasks[t].assignedNode == Some(n)
      ensures s'.tasks[t].assignedEpoch.Some? && s'.tasks[t].assignedEpoch.value < s'.nodes[n].epoch
    {
      assert IsDead(s, n);
      CommitRow(s, r, now, t);
    }
    forall x | x in s'.ticks ensures TickBehind(s', s'.ticks[x]) {
      assert TickBehind(s, s.ticks[x]);
    }
  }

  lemma ReadKeepsAhead(s: Cluster, r: Replica)
    requires Inv(s) && DeadAreAhead(s) && r in s.ticks
    ensures DeadAreAhead(ReadNodes(s, r))
  {
    assert forall i :: 0 <= i < |s.nodes| ==> NodeOk(s.nodes[i], i);
    ActiveNodesAre(s.nodes, |s.nodes|);
    var s' := ReadNodes(s, r);
    forall x | x in s'.ticks ensures TickBehind(s', s'.ticks[x]) {
      if x != r {
        assert TickBehind(s, s.ticks[x]);
      }
    }
  }

  lemma NodesKeepAhead(s: Cluster, s': Cluster)
    requires DeadAreAhead(s) && s'.tasks == s.tasks && s'.ticks == s.ticks
    requires forall n: NodeId :: IsDead(s', n) ==> IsDead(s, n) && s'.nodes[n] == s.nodes[n]
    ensures DeadAreAhead(s')
  {
    forall r | r in s'.ticks ensures TickBehind(s', s'.ticks[r]) {
      assert TickBehind(s, s.ticks[r]);
    }
  }

  lemma RowsKeepAhead(s: Cluster, s': Cluster)
    requires DeadAreAhead(s) && s'.nodes == s.nodes
    requires forall r :: r in s'.ticks ==> s'.ticks[r].nodes.None? || (r in s.ticks && s'.ticks[r].nodes == s.ticks[r].nodes)
    requires forall t: TaskId :: t < |s'.tasks| && s'.tasks[t].assignedNode.Some? ==>
                                   && t < |s.tasks| && s'.tasks[t].assignedNode == s.tasks[t].assignedNode
                                   && s'.tasks[t].assignedEpoch == s.tasks[t].assignedEpoch
    ensures DeadAreAhead(s')
  {
    forall r | r in s'.ticks ensures TickBehind(s', s'.ticks[r]) {
      if r in s.ticks {
        assert TickBehind(s, s.ticks[r]);
      }
    }
    forall t: TaskId, n: NodeId | t < |s'.tasks| && IsDead(s', n) && s'.tasks[t].assignedNode == Some(n)
      ensures s'.tasks[t].assignedEpoch.Some? && s'.tasks[t].assignedEpoch.value < s'.nodes[n].epoch
    {
      assert IsDead(s, n);
    }
  }

  lemma NodeStepKeepsAhead(s: Cluster, a: Step)
    requires Inv(s) && DeadAreAhead(s) && Enabled(s, a) && (a.RegisterNodeStep? || a.UpdateNodeStatusStep?)
    ensures DeadAreAhead(Apply(s, a))
  {
    NodesKeepAhead(s, Apply(s, a));
  }

  lemma CreateKeepsAhead(s: Cluster, job: Job)
    requires DeadAreAhead(s)
    ensures DeadAreAhead(CreateJob(s, job))
  {
    if JobAccepted(job) {
      ReplicasAre(|s.jobs|, job.replicas);
    }
    RowsKeepAhead(s, CreateJob(s, job));
  }

  lemma ReportKeepsAhead(s: Cluster, r: Report, now: int)
    requires DeadAreAhead(s)
    ensures DeadAreAhead(UpdateTaskStatus(s, r, now))
  {
    RowsKeepAhead(s, UpdateTaskStatus(s, r, now));
  }

  lemma StepKeepsAhead(s: Cluster, a: Step)
    requires Inv(s) && DeadAreAhead(s) && Enabled(s, a)
    ensures DeadAreAhead(Apply(s, a))
  {
    match a
    case CreateJobStep(job) => CreateKeepsAhead(s, job);
    case RegisterNodeStep(_) => NodeStepKeepsAhead(s, a);
    case UpdateNodeStatusStep(_, _) => NodeStepKeepsAhead(s, a);
    case FinishDeathStep(n) => FinishDeathKeepsAhead(s, n);
    case ReportStep(rep, now) => ReportKeepsAhead(s, rep, now);
    case ReadNodesStep(r) => ReadKeepsAhead(s, r);
    case CommitTickStep(r, now) => CommitKeepsAhead(s, r, now);
    case _ => RowsKeepAhead(s, Apply(s, a));
  }

  lemma {:induction false} RunKeepsAhead(run: Run, i: nat)
    requires IsRun(run) && i < |run.states|
    ensures DeadAreAhead(run.states[i])
  {
    if i > 0 {
      RunKeepsAhead(run, i - 1);
      RunInv(run, i - 1);
      assert StepAt(run, i - 1);
      StepKeepsAhead(run.states[i - 1], run.steps[i - 1]);
    }
  }

  /** In every state of every run, a task still assigned to a dead node was assigned under an epoch
      that the node had before it died. */
  lemma StrandedIsStale(run: Run, i: nat, t: TaskId, n: NodeId)
    requires IsRun(run) && i < |run.states|
    requires t < |run.states[i].tasks| && run.states[i].tasks[t].assignedNode == Some(n)
    requires n < |run.states[i].nodes| && run.states[i].nodes[n].status == Dead
    ensures run.states[i].tasks[t].assignedEpoch.Some?
            && run.states[i].tasks[t].assignedEpoch.value < run.states[i].nodes[n].epoch
  {
    RunKeepsAhead(run, i);
    assert IsDead(run.states[i], n);
  }

  // ---------- ticks and deaths that overlap ----------

  /** No open tick has read the nodes yet. */
  ghost predicate NoneHasRead(s: Cluster) {
    forall r :: r in s.ticks ==> s.ticks[r].nodes.None?
  }

  /** Deaths commit while an open tick has read the nodes only if `deathsDuringTicks`, and ticks commit
      while a death is open only if `commitsDuringDeaths`. */
  ghost predicate ApartAt(s: Cluster, a: Step, deathsDuringTicks: bool, commitsDuringDeaths: bool) {
    && (a.FinishDeathStep? ==> deathsDuringTicks || NoneHasRead(s))
    && (a.CommitTickStep? ==> commitsDuringDeaths || s.deaths == map[])
  }

  ghost predicate Apart(run: Run, deathsDuringTicks: bool, commitsDuringDeaths: bool) {
    forall k :: 0 <= k < |run.steps| && k < |run.states| ==>
                  ApartAt(run.states[k], run.steps[k], deathsDuringTicks, commitsDuringDeaths)
  }

  /** No open tick has read a node that is dead now, and an open death has selected every task that is
      active on its node. */
  ghost predicate NothingPending(s: Cluster) {
    && (forall r :: r in s.ticks ==> NoneReadDead(s, s.ticks[r]))
    && (forall n, t: TaskId :: n in s.deaths && t < |s.tasks| && ActiveOn(s.tasks[t], n) ==> t in s.deaths[n])
  }

  ghost predicate NoneReadDead(s: Cluster, tick: Tick) {
    tick.nodes.Some? ==> forall k :: 0 <= k < |tick.nodes.value| ==> !IsDead(s, tick.nodes.value[k].id)
  }

  lemma NothingStrands(s: Cluster, a: Step)
    requires Inv(s) && NothingPending(s) && Enabled(s, a)
    ensures !Strands(s, a)
  {
    if a.CommitTickStep? {
      assert NoneReadDead(s, s.ticks[a.replica]);
    }
  }

  /** The nodes that are dead stay the same or become fewer, the open ticks keep what they have read, and
      no task becomes active. */
  lemma QuietStepKeepsPending(s: Cluster, s': Cluster)
    requires NothingPending(s)
    requires forall n: NodeId :: IsDead(s', n) ==> IsDead(s, n)
    requires forall r :: r in s'.ticks ==> s'.ticks[r].nodes.None? || (r in s.ticks && s'.ticks[r].nodes == s.ticks[r].nodes)
    requires forall n :: n in s'.deaths ==> n in s.deaths && s'.deaths[n] == s.deaths[n] && OnlyReleased(s, s', n)
    ensures NothingPending(s')
  {
    forall r | r in s'.ticks ensures NoneReadDead(s', s'.ticks[r]) {
      if r in s.ticks {
        assert NoneReadDead(s, s.ticks[r]);
      }
    }
  }

  lemma BeginDeathKeepsPending(s: Cluster, n: NodeId)
    requires NothingPending(s)
    ensures NothingPending(BeginDeath(s, n))
  {
    var s' := BeginDeath(s, n);
    forall r | r in s'.ticks ensures NoneReadDead(s', s'.ticks[r]) {
      assert NoneReadDead(s, s.ticks[r]);
    }
  }

  lemma FinishDeathKeepsPending(s: Cluster, n: NodeId)
    requires Inv(s) && NothingPending(s) && NoneHasRead(s) && Enabled(s, FinishDeathStep(n))
    ensures NothingPending(FinishDeath(s, n))
  {
    FinishDeathEffect(s, n);
    forall m | m in FinishDeath(s, n).deaths ensures OnlyReleased(s, FinishDeath(s, n), m) {
      StepOnlyReleases(s, FinishDeathStep(n), m);
    }
  }

  lemma CommitKeepsPending(s: Cluster, r: Replica, now: int)
    requires Inv(s) && NothingPending(s) && s.deaths == map[] && ReadyToCommit(s, r)
    ensures NothingPending(CommitTick(s, r, now))
  {
    CommitEffect(s, r, now);
    QuietStepKeepsPending(s, CommitTick(s, r, now));
  }

  lemma ReadKeepsPending(s: Cluster, r: Replica)
    requires Inv(s) && NothingPending(s) && r in s.ticks
    ensures NothingPending(ReadNodes(s, r))
  {
    assert forall i :: 0 <= i < |s.nodes| ==> NodeOk(s.nodes[i], i);
    ActiveNodesAre(s.nodes, |s.nodes|);
    var s' := ReadNodes(s, r);
    forall x | x in s'.ticks ensures NoneReadDead(s', s'.ticks[x]) {
      if x != r {
        assert NoneReadDead(s, s.ticks[x]);
      }
    }
  }

  lemma OtherKeepsPending(s: Cluster, a: Step)
    requires Inv(s) && NothingPending(s) && Enabled(s, a)
    requires !a.CommitTickStep? && !a.FinishDeathStep? && !a.BeginDeathStep? && !a.ReadNodesStep?
    ensures NothingPending(Apply(s, a))
  {
    forall n | n in Apply(s, a).deaths ensures OnlyReleased(s, Apply(s, a), n) {
      StepOnlyReleases(s, a, n);
    }
    QuietStepKeepsPending(s, Apply(s, a));
  }

  lemma StepKeepsPending(s: Cluster, a: Step)
    requires Inv(s) && NothingPending(s) && Enabled(s, a) && ApartAt(s, a, false, false)
    ensures NothingPending(Apply(s, a))
  {
    match a
    case BeginDeathStep(n) => BeginDeathKeepsPending(s, n);
    case FinishDeathStep(n) => FinishDeathKeepsPending(s, n);
    case ReadNodesStep(r) => ReadKeepsPending(s, r);
    case CommitTickStep(r, now) => CommitKeepsPending(s, r, now);
    case _ => OtherKeepsPending(s, a);
  }

  /** When no death commits while an open tick has read the nodes, and no tick commits while a death is
      open, no task is scheduled or running on a dead node in any state of the run. */
  lemma {:induction false} ApartStaysEmpty(run: Run, i: nat)
    requires IsRun(run) && Apart(run, false, false) && i < |run.states|
    ensures DeadAreEmpty(run.states[i]) && NothingPending(run.states[i])
  {
    if i > 0 {
      ApartStaysEmpty(run, i - 1);
      RunInv(run, i - 1);
      assert StepAt(run, i - 1);
      assert ApartAt(run.states[i - 1], run.steps[i - 1], false, false);
      NothingStrands(run.states[i - 1], run.steps[i - 1]);
      DeadStayEmptyExactly(run.states[i - 1], run.steps[i - 1]);
      StepKeepsPending(run.states[i - 1], run.steps[i - 1]);
    }
  }

  // ---------- each overlap alone is enough ----------

  const NO_DEATHS := Rules(1, false, false)
  const ONE_TICK := Rules(1, false, true)

  lemma {:induction false} NoDeathsOpen(run: Run, i: nat)
    requires IsRun(run) && Follows(run, NO_DEATHS) && i < |run.states|
    ensures run.states[i].deaths == map[]
  {
    if i > 0 {
      NoDeathsOpen(run, i - 1);
      RunInv(run, i - 1);
      assert StepAt(run, i - 1);
      if run.steps[i - 1].CommitTickStep? {
        CommitEffect(run.states[i - 1], run.steps[i - 1].replica, run.steps[i - 1].now);
      }
    }
  }

  lemma NoDeathsApart(run: Run, deathsDuringTicks: bool, commitsDuringDeaths: bool)
    requires IsRun(run) && Follows(run, NO_DEATHS)
    ensures Apart(run, deathsDuringTicks, commitsDuringDeaths)
  {
    forall k | 0 <= k < |run.steps| && k < |run.states|
      ensures ApartAt(run.states[k], run.steps[k], deathsDuringTicks, commitsDuringDeaths)
    {
      NoDeathsOpen(run, k);
      assert StepAt(run, k);
    }
  }

  lemma ThenApart(run: Run, a: Step, deathsDuringTicks: bool, commitsDuringDeaths: bool) returns (run': Run)
    requires IsRun(run) && Follows(run, ONE_TICK) && Apart(run, deathsDuringTicks, commitsDuringDeaths)
    requires Enabled(Last(run), a) && Allows(ONE_TICK, Last(run), a)
    requires ApartAt(Last(run), a, deathsDuringTicks, commitsDuringDeaths)
    ensures IsRun(run') && Follows(run', ONE_TICK) && Apart(run', deathsDuringTicks, commitsDuringDeaths)
    ensures Last(run') == Apply(Last(run), a)
  {
    ThenIsRun(run, a, ONE_TICK);
    run' := Then(run, a);
    StillApart(run, a, deathsDuringTicks, commitsDuringDeaths);
  }

  lemma StillApart(run: Run, a: Step, deathsDuringTicks: bool, commitsDuringDeaths: bool)
    requires |run.states| == |run.steps| + 1 && Enabled(Last(run), a)
    requires Apart(run, deathsDuringTicks, commitsDuringDeaths) && ApartAt(Last(run), a, deathsDuringTicks, commitsDuringDeaths)
    ensures Apart(Then(run, a), deathsDuringTicks, commitsDuringDeaths)
  {
    var run' := Then(run, a);
    forall k | 0 <= k < |run'.steps| ensures ApartAt(run'.states[k], run'.steps[k], deathsDuringTicks, commitsDuringDeaths) {
      if k < |run.steps| {
        assert run'.states[k] == run.states[k] && run'.steps[k] == run.steps[k];
      } else {
        assert run'.states[k] == Last(run) && run'.steps[k] == a;
      }
    }
  }

  /** A ready node, and a tick about to commit its task to it. */
  ghost predicate AboutToCommit(s: Cluster, r: Replica, req: TaskRequest) {
    Inv(s) && s.nodes == [NODE] && s.deaths == map[] && Allocations(s) == map[] && IsAsk(req) && s.ticks == map[r := FullTick(req)]
  }

  lemma RunToCommit() returns (run: Run)
    ensures IsRun(run) && Follows(run, NO_DEATHS) && AboutToCommit(Last(run), 0, REQUEST0)
  {
    var s0 := Setup();
    SetupIs();
    ReachSetup(NO_DEATHS);
    ReachFullTick(s0, 0, REQUEST0, NO_DEATHS);
    var s1 := s0.(ticks := s0.ticks[0 := FullTick(REQUEST0)]);
    NothingAllocated(s1);
    ReachInv(s1, NO_DEATHS);
    run := RunTo(s1, NO_DEATHS);
  }

  lemma PlacedFirst(req: TaskRequest)
    requires IsAsk(req)
    ensures Placements(FullTick(req))[0] == Some(0)
  {
    ChoiceAt([NODE], map[], [req], 0);
    assert Placements(FullTick(req))[..0] == [];
    PlaceNextAdmits([NODE], map[], req);
    assert Admits([NODE][0], map[], req);
  }

  /** The node has died, with nothing on it, while the tick was about to commit. */
  ghost predicate DiedMeanwhile(s: Cluster, r: Replica, req: TaskRequest) {
    Inv(s) && IsDead(s, 0) && s.deaths == map[] && IsAsk(req) && s.ticks == map[r := FullTick(req)]
  }

  /** The death has begun, and has found nothing to orphan. */
  ghost predicate DyingMeanwhile(s: Cluster, r: Replica, req: TaskRequest) {
    && Inv(s) && s.nodes == [NODE] && IsAsk(req) && s.ticks == map[r := FullTick(req)]
    && 0 in s.deaths && s.deaths.Keys == {0} && req.id !in s.deaths[0]
  }

  lemma Begun(s: Cluster, r: Replica, req: TaskRequest)
    requires AboutToCommit(s, r, req)
    ensures DyingMeanwhile(BeginDeath(s, 0), r, req)
  {
    BeginDeathKeepsInv(s, 0);
    assert req.id !in ActiveIds(s.tasks, 0, |s.tasks|) by {
      assert TickOk(s, s.ticks[r]);
      assert ClaimOk(s, s.ticks[r].reqs[0]);
    }
  }

  lemma Killed(s: Cluster, r: Replica, req: TaskRequest)
    requires DyingMeanwhile(s, r, req)
    ensures Enabled(s, FinishDeathStep(0)) && DiedMeanwhile(FinishDeath(s, 0), r, req)
  {
    FinishDeathEnabled(s, 0);
    FinishDeathEffect(s, 0);
  }

  lemma StalledCommit(s: Cluster, r: Replica, req: TaskRequest)
    requires DiedMeanwhile(s, r, req)
    ensures CommitTick(s, r, 0).ticks == map[] && !DeadAreEmpty(CommitTick(s, r, 0))
  {
    CommitFrame(s, r, 0);
    PlacedFirst(req);
    CommitPlaces(s, r, 0, 0);
    assert IsDead(CommitTick(s, r, 0), 0);
  }

  /** A run with a single tick in flight, and no capacity ever lowered, in which a node dies between the
      tick's reads and its commit; the commit then leaves the dead node with a scheduled task. */
  lemma StalledTickStrands() returns (run: Run)
    ensures IsRun(run) && Follows(run, ONE_TICK) && Apart(run, true, false) && !DeadAreEmpty(Last(run))
  {
    var run0 := RunToCommit();
    NoDeathsApart(run0, true, false);
    run := ThenStalled(run0, 0, REQUEST0);
  }

  lemma ThenStalled(run0: Run, r: Replica, req: TaskRequest) returns (run: Run)
    requires IsRun(run0) && Follows(run0, ONE_TICK) && Apart(run0, true, false) && AboutToCommit(Last(run0), r, req)
    ensures IsRun(run) && Follows(run, ONE_TICK) && Apart(run, true, false) && !DeadAreEmpty(Last(run))
  {
    Begun(Last(run0), r, req);
    var run1 := ThenApart(run0, BeginDeathStep(0), true, false);
    Killed(Last(run1), r, req);
    var run2 := ThenApart(run1, FinishDeathStep(0), true, false);
    StalledCommit(Last(run2), r, req);
    run := ThenApart(run2, CommitTickStep(r, 0), true, false);
  }

  /** The tick has put its task on the dying node. */
  ghost predicate Overtaken(s: Cluster, t: TaskId) {
    && Inv(s) && s.nodes == [NODE] && s.ticks == map[] && 0 in s.deaths
    && t < |s.tasks| && ActiveOn(s.tasks[t], 0) && t !in s.deaths[0]
  }

  lemma OvertakingCommit(s: Cluster, r: Replica, req: TaskRequest)
    requires DyingMeanwhile(s, r, req)
    ensures Overtaken(CommitTick(s, r, 0), req.id)
  {
    CommitFrame(s, r, 0);
    PlacedFirst(req);
    CommitPlaces(s, r, 0, 0);
  }

  lemma OvertakenDeath(s: Cluster, t: TaskId)
    requires Overtaken(s, t)
    ensures Enabled(s, FinishDeathStep(0)) && FinishDeath(s, 0).ticks == map[] && !DeadAreEmpty(FinishDeath(s, 0))
  {
    FinishDeathEnabled(s, 0);
    FinishDeathEffect(s, 0);
    var s' := FinishDeath(s, 0);
    assert IsDead(s', 0) && ActiveOn(s'.tasks[t], 0);
  }

  /** The same with the commit between the two halves of the death. */
  lemma OvertakenDeathStrands() returns (run: Run)
    ensures IsRun(run) && Follows(run, ONE_TICK) && Apart(run, false, true) && !DeadAreEmpty(Last(run))
  {
    var run0 := RunToCommit();
    NoDeathsApart(run0, false, true);
    run := ThenOvertaken(run0, 0, REQUEST0);
  }

  lemma ThenOvertaken(run0: Run, r: Replica, req: TaskRequest) returns (run: Run)
    requires IsRun(run0) && Follows(run0, ONE_TICK) && Apart(run0, false, true) && AboutToCommit(Last(run0), r, req)
    ensures IsRun(run) && Follows(run, ONE_TICK) && Apart(run, false, true) && !DeadAreEmpty(Last(run))
  {
    Begun(Last(run0), r, req);
    var run1 := ThenApart(run0, BeginDeathStep(0), false, true);
    OvertakingCommit(Last(run1), r, req);
    var run2 := ThenApart(run1, CommitTickStep(r, 0), false, true);
    OvertakenDeath(Last(run2), req.id);
    run := ThenApart(run2, FinishDeathStep(0), false, true);
  }

  lemma MoreOverlap(run: Run, a: bool, b: bool, a': bool, b': bool)
    requires Apart(run, a, b) && (a ==> a') && (b ==> b')
    ensures Apart(run, a', b')
  {
    forall k | 0 <= k < |run.steps| && k < |run.states| ensures ApartAt(run.states[k], run.steps[k], a', b') {
      assert ApartAt(run.states[k], run.steps[k], a, b);
    }
  }

  /** Dead nodes are empty in every state of every run, if and only if no death commits while an open tick
      has read the nodes and no tick commits while a death is open. */
  lemma DeadEmptyExactly(deathsDuringTicks: bool, commitsDuringDeaths: bool)
    ensures (forall run, i: nat :: IsRun(run) && Apart(run, deathsDuringTicks, commitsDuringDeaths) && i < |run.states| ==>
                                     DeadAreEmpty(run.states[i]))
            <==> !deathsDuringTicks && !commitsDuringDeaths
  {
    if deathsDuringTicks {
      var run := StalledTickStrands();
      MoreOverlap(run, true, false, deathsDuringTicks, commitsDuringDeaths);
      assert !DeadAreEmpty(run.states[|run.states| - 1]);
    } else if commitsDuringDeaths {
      var run := OvertakenDeathStrands();
      assert !DeadAreEmpty(run.states[|run.states| - 1]);
    } else {
      forall run, i: nat | IsRun(run) && Apart(run, false, false) && i < |run.states| ensures DeadAreEmpty(run.states[i]) {
        ApartStaysEmpty(run, i);
      }
    }
  }
}
