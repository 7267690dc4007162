/** A report that arrives again later in the run. The fence compares node and epoch, so it does not tell
    a retry on the same node and epoch from the attempt before it. */
module Repeats {
  import opened Entities
  import opened ClusterState
  import opened RowInvariants
  import opened Fencing
  import opened Reports
  import opened CapacityLimits
  import opened Accounting
  import opened DeadNodes

  /** The task is scheduled or running on the node and under the epoch that the report names. */
  predicate MeetsReport(s: Cluster, r: Report) {
    && r.task < |s.tasks| && Active(s.tasks[r.task])
    && s.tasks[r.task].assignedNode == r.node && s.tasks[r.task].assignedEpoch == Some(r.epoch)
  }

  /** A step that makes a task active is the commit of a tick that claimed it. */
  lemma OnlyCommitsActivate(s: Cluster, a: Step, t: TaskId)
    requires Inv(s) && Enabled(s, a) && t < |s.tasks| && !Active(s.tasks[t])
    requires t < |Apply(s, a).tasks| && Active(Apply(s, a).tasks[t])
    ensures a.CommitTickStep? && WrittenBy(s.ticks[a.replica], t, Apply(s, a).tasks[t])
  {
    StepKeepsInv(s, a);
    assert TaskOk(Apply(s, a).nodes, Apply(s, a).jobs, Apply(s, a).tasks[t]);
    if !a.CommitTickStep? {
      StepOnlyReleases(s, a, Apply(s, a).tasks[t].assignedNode.value);
    } else {
      CommitRow(s, a.replica, a.now, t);
    }
  }

  lemma TasksStay(s: Cluster, a: Step)
    requires Inv(s) && Enabled(s, a)
    ensures |s.tasks| <= |Apply(s, a).tasks|
  {
    if a.CommitTickStep? {
      CommitEffect(s, a.replica, a.now);
    } else {
      StepOnlyReleases(s, a, 0);
    }
  }

  /** A task that is not active at `i` and is at `j` was written by the commit of a tick in between. */
  lemma {:induction false} ActivatedBetween(run: Run, i: nat, j: nat, t: TaskId) returns (k: nat)
    requires IsRun(run) && i <= j < |run.states| && t < |run.states[i].tasks| && !Active(run.states[i].tasks[t])
    requires t < |run.states[j].tasks| && Active(run.states[j].tasks[t])
    ensures i <= k < j && run.steps[k].CommitTickStep? && run.steps[k].replica in run.states[k].ticks
    ensures t < |run.states[k + 1].tasks| && WrittenBy(run.states[k].ticks[run.steps[k].replica], t, run.states[k + 1].tasks[t])
    decreases j - i
  {
    RunInv(run, i);
    assert StepAt(run, i);
    TasksStay(run.states[i], run.steps[i]);
    if Active(run.states[i + 1].tasks[t]) {
      OnlyCommitsActivate(run.states[i], run.steps[i], t);
      k := i;
    } else {
      k := ActivatedBetween(run, i + 1, j, t);
    }
  }

  /** A worker's final report took effect at step `i`. At any later state it takes effect once more if and
      only if the task is active again under the node and epoch that it names; and then it is a report of
      failure, and a tick has scheduled the task again in between. */
  lemma RepeatedReport(run: Run, i: nat, j: nat, r: Report, now: int, later: int) returns (k: nat)
    requires IsRun(run) && i < |run.steps| && i < j < |run.states| && run.steps[i] == ReportStep(r, now)
    requires r.node.Some? && (r.status == Succeeded || r.status == Failed)
    requires ReportOutcome(run.states[i], r, now) == Updated
    ensures ReportOutcome(run.states[j], r, later) == Updated <==> MeetsReport(run.states[j], r)
    ensures MeetsReport(run.states[j], r) ==>
              && r.status == Failed
              && i < k < j && run.steps[k].CommitTickStep? && run.steps[k].replica in run.states[k].ticks
              && r.task < |run.states[k + 1].tasks|
              && WrittenBy(run.states[k].ticks[run.steps[k].replica], r.task, run.states[k + 1].tasks[r.task])
  {
    ReportTakesEffect(run.states[j], r, later);
    ReportTakesEffect(run.states[i], r, now);
    k := 0;
    if MeetsReport(run.states[j], r) {
      assert StepAt(run, i);
      assert !Active(run.states[i + 1].tasks[r.task]);
      if r.status == Succeeded {
        TerminalAbsorbs(run, i + 1, j, r.task);
      }
      k := ActivatedBetween(run, i + 1, j, r.task);
    }
  }

  // ---------- one report that ends two attempts ----------

  /** One ready node, nothing scheduled, and the task waiting to be claimed. */
  ghost predicate Waiting(s: Cluster, req: TaskRequest, now: int, used: int) {
    && Inv(s) && s.nodes == [NODE] && s.jobs == [JOB] && s.ticks == map[] && s.deaths == map[] && IsAsk(req)
    && (forall t :: 0 <= t < |s.tasks| ==> !Active(s.tasks[t]))
    && req.id < |s.tasks| && s.tasks[req.id].status == Pending && Due(s.tasks[req.id], now)
    && s.tasks[req.id].retriesUsed == used
  }

  /** The tick has claimed the task and read what it needs. */
  ghost predicate Claimed(s: Cluster, r: Replica, req: TaskRequest, used: int, tick: Tick) {
    && Inv(s) && s.nodes == [NODE] && s.jobs == [JOB] && s.ticks == map[r := tick] && s.deaths == map[] && IsAsk(req)
    && (forall t :: 0 <= t < |s.tasks| ==> !Active(s.tasks[t]))
    && req.id < |s.tasks| && s.tasks[req.id].retriesUsed == used
  }

  function FailureOf(req: TaskRequest): Report {
    Report(req.id, Failed, None, "", Some(0), 0)
  }

  /** The task is on the node, under its first epoch, and no other task is on any. */
  ghost predicate Assigned(s: Cluster, req: TaskRequest, used: int) {
    && Inv(s) && s.nodes == [NODE] && s.jobs == [JOB] && s.ticks == map[] && s.deaths == map[] && IsAsk(req)
    && MeetsReport(s, FailureOf(req)) && s.tasks[req.id].retriesUsed == used
    && (forall t :: 0 <= t < |s.tasks| && t != req.id ==> !Active(s.tasks[t]))
  }

  lemma ClaimStepTaken(s: Cluster, r: Replica, req: TaskRequest, now: int, used: int)
    requires Waiting(s, req, now, used)
    ensures Enabled(s, ClaimStep(r, [req.id], now)) && Claimed(Claim(s, r, [req.id]), r, req, used, Tick([req], None, None))
  {
    assert TaskOk(s.nodes, s.jobs, s.tasks[req.id]);
    assert !Locked(s, req.id);
    ClaimKeepsInv(s, r, [req.id], now);
    assert Claim(s, r, [req.id]).ticks[r].reqs == [req];
  }

  lemma NodesRead(s: Cluster, r: Replica, req: TaskRequest, used: int)
    requires Claimed(s, r, req, used, Tick([req], None, None))
    ensures Claimed(ReadNodes(s, r), r, req, used, Tick([req], Some([NODE]), None))
  {
    NodeListed(s);
    StepKeepsInv(s, ReadNodesStep(r));
  }

  lemma AllocationsRead(s: Cluster, r: Replica, req: TaskRequest, used: int)
    requires Claimed(s, r, req, used, Tick([req], Some([NODE]), None))
    ensures Claimed(ReadAllocations(s, r), r, req, used, FullTick(req))
  {
    NothingHeld(s);
    AllocationsNoted(s, r, req);
    StepKeepsInv(s, ReadAllocationsStep(r));
  }

  lemma NothingHeld(s: Cluster)
    requires forall t :: 0 <= t < |s.tasks| ==> !Active(s.tasks[t])
    ensures Allocations(s) == map[]
  {}

  lemma AllocationsNoted(s: Cluster, r: Replica, req: TaskRequest)
    requires s.ticks == map[r := Tick([req], Some([NODE]), None)] && Allocations(s) == map[]
    ensures ReadAllocations(s, r) == s.(ticks := map[r := FullTick(req)])
  {}

  lemma Committed(s: Cluster, r: Replica, req: TaskRequest, now: int, used: int)
    requires Claimed(s, r, req, used, FullTick(req))
    ensures Assigned(CommitTick(s, r, now), req, used)
  {
    var s' := CommitTick(s, r, now);
    CommitFrame(s, r, now);
    PlacedFirst(req);
    CommitPlaces(s, r, now, 0);
    assert TaskOk(s'.nodes, s'.jobs, s'.tasks[req.id]);
    OthersUntouched(s, r, req, now);
    assert s.ticks - {r} == map[];
  }

  lemma OthersUntouched(s: Cluster, r: Replica, req: TaskRequest, now: int)
    requires Inv(s) && r in s.ticks && s.ticks[r] == FullTick(req) && req.id < |s.tasks|
    ensures var s' := CommitTick(s, r, now);
            && |s'.tasks| == |s.tasks| && s'.tasks[req.id].retriesUsed == s.tasks[req.id].retriesUsed
            && forall t :: 0 <= t < |s.tasks| && t != req.id ==> s'.tasks[t] == s.tasks[t]
  {
    CommitEffect(s, r, now);
    forall t: TaskId | t != req.id ensures Chosen([req], Placements(FullTick(req)), t) == None {
      ChosenOther([req], Placements(FullTick(req)), t);
    }
  }

  /** A failure report with a retry left puts the task back. */
  lemma FirstFailure(s: Cluster, req: TaskRequest, now: int)
    requires Assigned(s, req, 0)
    ensures ReportOutcome(s, FailureOf(req), now) == Updated
    ensures Waiting(UpdateTaskStatus(s, FailureOf(req), now), req, now + 500, 1)
  {
    ReportKeepsInv(s, FailureOf(req), now);
    assert Pow2(0) == 1;
  }

  /** Without one it ends it. */
  lemma SecondFailure(s: Cluster, req: TaskRequest, now: int)
    requires Assigned(s, req, 1)
    ensures ReportOutcome(s, FailureOf(req), now) == Updated
    ensures req.id < |UpdateTaskStatus(s, FailureOf(req), now).tasks|
            && UpdateTaskStatus(s, FailureOf(req), now).tasks[req.id].status == Failed
  {}

  /** The run goes on where the other ends. */
  ghost predicate Extends(run: Run, run': Run) {
    IsRun(run') && run.steps <= run'.steps && run.states <= run'.states
  }

  lemma ExtendsFurther(run: Run, run': Run, run'': Run)
    requires Extends(run, run') && Extends(run', run'')
    ensures Extends(run, run'')
  {}

  lemma OneMore(run: Run, a: Step) returns (run': Run)
    requires IsRun(run) && Enabled(Last(run), a)
    ensures Extends(run, run') && Last(run') == Apply(Last(run), a)
    ensures run'.steps == run.steps + [a] && |run'.states| == |run.states| + 1
  {
    run' := ExtendRun(run, a);
  }

  lemma ClaimRun(run: Run, r: Replica, req: TaskRequest, now: int, used: int) returns (run': Run)
    requires IsRun(run) && Waiting(Last(run), req, now, used)
    ensures Extends(run, run') && Claimed(Last(run'), r, req, used, Tick([req], None, None))
  {
    ClaimStepTaken(Last(run), r, req, now, used);
    run' := OneMore(run, ClaimStep(r, [req.id], now));
  }

  lemma ReadRun(run: Run, r: Replica, req: TaskRequest, used: int) returns (run': Run)
    requires IsRun(run) && Claimed(Last(run), r, req, used, Tick([req], None, None))
    ensures Extends(run, run') && Claimed(Last(run'), r, req, used, Tick([req], Some([NODE]), None))
  {
    NodesRead(Last(run), r, req, used);
    run' := OneMore(run, ReadNodesStep(r));
  }

  lemma CommitRun(run: Run, r: Replica, req: TaskRequest, now: int, used: int) returns (run': Run)
    requires IsRun(run) && Claimed(Last(run), r, req, used, Tick([req], Some([NODE]), None))
    ensures Extends(run, run') && Assigned(Last(run'), req, used)
  {
    AllocationsRead(Last(run), r, req, used);
    var read := OneMore(run, ReadAllocationsStep(r));
    Committed(Last(read), r, req, now, used);
    run' := OneMore(read, CommitTickStep(r, now));
    ExtendsFurther(run, read, run');
  }

  lemma TickRun(run: Run, r: Replica, req: TaskRequest, now: int, used: int) returns (run': Run)
    requires IsRun(run) && Waiting(Last(run), req, now, used)
    ensures Extends(run, run') && Assigned(Last(run'), req, used)
  {
    var claimed := ClaimRun(run, r, req, now, used);
    var read := ReadRun(claimed, r, req, used);
    ExtendsFurther(run, claimed, read);
    run' := CommitRun(read, r, req, now, used);
    ExtendsFurther(run, read, run');
  }

  lemma FirstFailureRun(run: Run, req: TaskRequest) returns (run': Run)
    requires IsRun(run) && Assigned(Last(run), req, 0)
    ensures Extends(run, run') && Waiting(Last(run'), req, 500, 1)
    ensures |run'.steps| == |run.steps| + 1 && run'.steps[|run.steps|] == ReportStep(FailureOf(req), 0)
  {
    FirstFailure(Last(run), req, 0);
    run' := OneMore(run, ReportStep(FailureOf(req), 0));
  }

  lemma SetupWaits(s: Cluster, req: TaskRequest)
    requires Inv(s) && s == Cluster([NODE], [JOB], [NewTask(0), NewTask(0)], s.events, map[], map[]) && IsAsk(req) && req.id < 2
    ensures Waiting(s, req, 0, 0)
  {}

  lemma WaitingRun() returns (run: Run)
    ensures IsRun(run) && Waiting(Last(run), REQUEST0, 0, 0)
  {
    ReachSetup(NO_DEATHS);
    ReachInv(Setup(), NO_DEATHS);
    SetupIs();
    SetupWaits(Setup(), REQUEST0);
    run := RunTo(Setup(), NO_DEATHS);
  }

  /** A failure report and, after the retry has been scheduled on the same node under the same epoch, the
      same report again: it passes the fence and ends the second attempt, too. */
  lemma OneReportEndsTwoAttempts() returns (run: Run, i: nat, r: Report)
    ensures IsRun(run) && i < |run.steps| && run.steps[i] == ReportStep(r, 0) && r.node.Some?
    ensures ReportOutcome(run.states[i], r, 0) == Updated
    ensures ReportOutcome(Last(run), r, 500) == Updated
    ensures r.task < |Last(run).tasks| && UpdateTaskStatus(Last(run), r, 500).tasks[r.task].status == Failed
  {
    var run0 := WaitingRun();
    run, i := TwoAttempts(run0, 0, REQUEST0);
    r := FailureOf(REQUEST0);
  }

  lemma TwoAttempts(run0: Run, p: Replica, req: TaskRequest) returns (run: Run, i: nat)
    requires IsRun(run0) && Waiting(Last(run0), req, 0, 0)
    ensures IsRun(run) && i < |run.steps| && run.steps[i] == ReportStep(FailureOf(req), 0)
    ensures ReportOutcome(run.states[i], FailureOf(req), 0) == Updated
    ensures ReportOutcome(Last(run), FailureOf(req), 500) == Updated
    ensures req.id < |Last(run).tasks| && UpdateTaskStatus(Last(run), FailureOf(req), 500).tasks[req.id].status == Failed
  {
    var run1 := TickRun(run0, p, req, 0, 0);
    i := |run1.steps|;
    FirstFailure(Last(run1), req, 0);
    var run2 := FirstFailureRun(run1, req);
    run := TickRun(run2, p, req, 500, 1);
    SecondFailure(Last(run), req, 500);
    StillThere(run1, run2, run);
  }

  lemma StillThere(run1: Run, run2: Run, run: Run)
    requires IsRun(run1) && Extends(run1, run2) && Extends(run2, run) && |run2.steps| == |run1.steps| + 1
    ensures |run1.steps| < |run.steps| && |run1.steps| < |run.states|
    ensures run.states[|run1.steps|] == Last(run1) && run.steps[|run1.steps|] == run2.steps[|run1.steps|]
  {}
}
