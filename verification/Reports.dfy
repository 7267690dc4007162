/** Worker reports: which take effect, that repeating one changes nothing, and how tasks progress. */
module Reports {
  import opened Entities
  import opened ClusterState
  import opened RowInvariants
  import opened Fencing

  /** A report takes effect exactly when it is one of the three a worker sends, passes the fence and
      finds the task scheduled or running; every other report leaves rows and log as they are. */
  lemma ReportTakesEffect(s: Cluster, r: Report, now: int)
    ensures ReportOutcome(s, r, now) == Updated <==>
            && r.task < |s.tasks|
            && (r.status == Running || r.status == Succeeded || r.status == Failed)
            && PassesFence(s.tasks[r.task], r.node, r.epoch)
            && Active(s.tasks[r.task])
    ensures ReportOutcome(s, r, now) != Updated ==> UpdateTaskStatus(s, r, now) == s
  {
    if r.task < |s.tasks| {
      assert s.tasks[r.task := s.tasks[r.task]] == s.tasks;
      assert s.events + [] == s.events;
    }
  }

  /** Reporting the same thing again at once, at whatever time, changes neither rows nor log. */
  lemma ReportIdempotent(s: Cluster, r: Report, now: int, later: int)
    ensures var once := UpdateTaskStatus(s, r, now);
            UpdateTaskStatus(once, r, later) == once
  {
    var once := UpdateTaskStatus(s, r, now);
    if r.task < |s.tasks| {
      var twice := UpdateTaskStatus(once, r, later);
      assert twice.tasks[r.task] == once.tasks[r.task];
      assert twice.tasks == once.tasks;
      assert twice.events == once.events;
    }
  }

  // ---------- terminal states absorb ----------

  lemma StepKeepsTerminal(s: Cluster, a: Step, t: TaskId)
    requires Inv(s) && Enabled(s, a) && t < |s.tasks| && Terminal(s.tasks[t])
    ensures t < |Apply(s, a).tasks| && Apply(s, a).tasks[t] == s.tasks[t]
  {
    if a.FinishDeathStep? {
      FinishDeathEffect(s, a.node);
      assert DeathOk(s, a.node, s.deaths[a.node]);
    } else if a.CommitTickStep? {
      CommitKeepsUnclaimed(s, a.replica, a.now, t);
    }
  }

  /** A commit does not touch a row that is not pending. */
  lemma CommitKeepsUnclaimed(s: Cluster, r: Replica, now: int, t: TaskId)
    requires Inv(s) && ReadyToCommit(s, r) && t < |s.tasks| && s.tasks[t].status != Pending
    ensures |CommitTick(s, r, now).tasks| == |s.tasks| && CommitTick(s, r, now).tasks[t] == s.tasks[t]
  {
    CommitEffect(s, r, now);
    var tick := s.ticks[r];
    assert TickOk(s, tick);
    if Chosen(tick.reqs, Placements(tick), t).Some? {
      ChosenIsClaimed(tick.reqs, Placements(tick), t, |tick.nodes.value|);
      assert false;
    }
  }

  /** Once a task has succeeded or failed, its row is the same in every later state of the run. */
  lemma {:induction false} TerminalAbsorbs(run: Run, i: nat, j: nat, t: TaskId)
    requires IsRun(run) && i <= j < |run.states|
    requires t < |run.states[i].tasks| && Terminal(run.states[i].tasks[t])
    ensures t < |run.states[j].tasks| && run.states[j].tasks[t] == run.states[i].tasks[t]
  {
    if i < j {
      TerminalAbsorbs(run, i, j - 1, t);
      RunInv(run, j - 1);
      assert StepAt(run, j - 1);
      StepKeepsTerminal(run.states[j - 1], run.steps[j - 1], t);
    }
  }

  // ---------- progress ----------

  function Rank(status: TaskStatus): nat {
    match status
    case Pending => 3
    case Scheduled => 2
    case Running => 1
    case Succeeded => 0
    case Failed => 0
  }

  function RetriesLeft(t: Task, limit: int): nat {
    if t.retriesUsed < limit then limit - t.retriesUsed else 0
  }

  /** Fewer retries are left, or as many and the status has moved on. */
  predicate Progress(was: Task, now: Task, limit: int) {
    || RetriesLeft(now, limit) < RetriesLeft(was, limit)
    || (RetriesLeft(now, limit) == RetriesLeft(was, limit) && Rank(now.status) < Rank(was.status))
  }

  lemma ReportProgress(s: Cluster, r: Report, now: int)
    requires r.task < |s.tasks|
    ensures var was, row := s.tasks[r.task], UpdateTaskStatus(s, r, now).tasks[r.task];
            row.status != was.status ==> Progress(was, row, RetryLimit(s.jobs, was))
  {}

  lemma CommitProgress(s: Cluster, r: Replica, now: int, t: TaskId)
    requires Inv(s) && Enabled(s, CommitTickStep(r, now)) && t < |s.tasks|
    ensures var s' := CommitTick(s, r, now);
            && t < |s'.tasks|
            && (s'.tasks[t].status != s.tasks[t].status ==> Progress(s.tasks[t], s'.tasks[t], RetryLimit(s.jobs, s.tasks[t])))
  {
    CommitEffect(s, r, now);
    if s.tasks[t].status != Pending {
      CommitKeepsUnclaimed(s, r, now, t);
    }
  }

  /** Every step that changes the status of a task, other than the death of its node, brings it
      nearer to its end: (retries left, status rank) decreases lexicographically. */
  lemma StatusChangeIsProgress(s: Cluster, a: Step, t: TaskId)
    requires Inv(s) && Enabled(s, a) && t < |s.tasks| && !a.FinishDeathStep?
    ensures t < |Apply(s, a).tasks|
    ensures var was, now := s.tasks[t], Apply(s, a).tasks[t];
            now.status != was.status ==> Progress(was, now, RetryLimit(s.jobs, was))
  {
    if a.CommitTickStep? {
      CommitProgress(s, a.replica, a.now, t);
    } else if a.ReportStep? && a.report.task < |s.tasks| {
      ReportProgress(s, a.report, a.now);
    }
  }
}
