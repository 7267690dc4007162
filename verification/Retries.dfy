/** When a failed task is tried again: not before its backoff is over, and then at any time. */
module Retries {
  import opened Entities
  import opened ClusterState
  import opened RowInvariants
  import opened Reports
  import opened Meaning

  /** A failed report that takes effect and finds a retry left. */
  predicate FailsWithRetryLeft(s: Cluster, r: Report, now: int) {
    && ReportOutcome(s, r, now) == Updated && r.status == Failed && r.task < |s.tasks|
    && s.tasks[r.task].job < |s.jobs| && s.tasks[r.task].retriesUsed < s.jobs[s.tasks[r.task].job].retryLimit
  }

  /** The row is as it was, and no open tick has claimed it. */
  ghost predicate Standing(s: Cluster, t: TaskId, row: Task) {
    && t < |s.tasks| && s.tasks[t] == row
    && forall p, k :: p in s.ticks && 0 <= k < |s.ticks[p].reqs| ==> s.ticks[p].reqs[k].id != t
  }

  predicate Claims(a: Step, t: TaskId) {
    a.ClaimStep? && t in a.ids
  }

  /** Nothing but a claim of it starts anything with a pending row. */
  lemma StepKeepsStanding(s: Cluster, a: Step, t: TaskId, row: Task)
    requires Inv(s) && Enabled(s, a) && Standing(s, t, row) && row.status == Pending && !Claims(a, t)
    ensures Standing(Apply(s, a), t, row)
  {
    match a
    case FinishDeathStep(n) =>
      FinishDeathEffect(s, n);
      assert DeathOk(s, n, s.deaths[n]);
    case CommitTickStep(p, now) => CommitKeepsStanding(s, p, now, t, row);
    case ReportStep(r, now) => ReportTouchesOneRow(s, r, now); ReportApplies(s, r, now);
    case ClaimStep(p, ids, _) => ClaimKeepsStanding(s, p, ids, t, row);
    case _ =>
  }

  lemma ClaimKeepsStanding(s: Cluster, p: Replica, ids: seq<TaskId>, t: TaskId, row: Task)
    requires Standing(s, t, row) && t !in ids
    requires forall i :: 0 <= i < |ids| ==> ids[i] < |s.tasks| && s.tasks[ids[i]].job < |s.jobs|
    ensures Standing(Claim(s, p, ids), t, row)
  {
    forall k | 0 <= k < |ids| ensures Claim(s, p, ids).ticks[p].reqs[k].id != t {
      assert ids[k] in ids;
    }
  }

  lemma CommitKeepsStanding(s: Cluster, p: Replica, now: int, t: TaskId, row: Task)
    requires Inv(s) && ReadyToCommit(s, p) && Standing(s, t, row)
    ensures Standing(CommitTick(s, p, now), t, row)
  {
    CommitEffect(s, p, now);
    var tick := s.ticks[p];
    ChosenOther(tick.reqs, Placements(tick), t);
  }

  /** The report itself leaves the row standing: nobody can have claimed an assigned task. */
  lemma RequeuedStands(s: Cluster, r: Report, now: int)
    requires Inv(s) && Enabled(s, ReportStep(r, now)) && FailsWithRetryLeft(s, r, now)
    ensures Standing(UpdateTaskStatus(s, r, now), r.task, UpdateTaskStatus(s, r, now).tasks[r.task])
    ensures UpdateTaskStatus(s, r, now).tasks[r.task].status == Pending
  {
    FailureIsRequeued(s, r, now);
    forall p, k | p in s.ticks && 0 <= k < |s.ticks[p].reqs| ensures s.ticks[p].reqs[k].id != r.task {
      NotClaimed(s, r.task, p, k);
    }
  }

  lemma {:induction false} StandsUntilClaimed(run: Run, i: nat, j: nat, t: TaskId, row: Task) returns (k: nat)
    requires IsRun(run) && i <= j < |run.states| && Standing(run.states[i], t, row) && row.status == Pending
    ensures Standing(run.states[j], t, row) || (i <= k < j && Claims(run.steps[k], t) && Standing(run.states[k], t, row))
  {
    k := i;
    if i < j {
      k := StandsUntilClaimed(run, i, j - 1, t, row);
      if Standing(run.states[j - 1], t, row) {
        RunInv(run, j - 1);
        assert StepAt(run, j - 1);
        if Claims(run.steps[j - 1], t) {
          k := j - 1;
        } else {
          StepKeepsStanding(run.states[j - 1], run.steps[j - 1], t, row);
        }
      }
    }
  }

  /** A failure at step `i` with `u` retries used and one left: in every later state of the run the row is
      still the one that the report left, pending and with `u + 1` retries used, unless a claim has taken it
      whose clock was at least the waiting time after the report's. */
  lemma RetryWaitsItsTurn(run: Run, i: nat, j: nat, r: Report, now: int) returns (k: nat)
    requires IsRun(run) && i < |run.steps| && i < j < |run.states| && run.steps[i] == ReportStep(r, now)
    requires FailsWithRetryLeft(run.states[i], r, now)
    ensures r.task < |run.states[i + 1].tasks|
    ensures var used, row := run.states[i].tasks[r.task].retriesUsed, run.states[i + 1].tasks[r.task];
            && row.status == Pending && row.retriesUsed == used + 1
            && ((r.task < |run.states[j].tasks| && run.states[j].tasks[r.task] == row)
                || (i < k < j && run.steps[k].ClaimStep? && r.task in run.steps[k].ids
                    && run.steps[k].now >= now + RetryBackoff(used + 1)))
  {
    RunInv(run, i);
    assert StepAt(run, i);
    FailureIsRequeued(run.states[i], r, now);
    RequeuedStands(run.states[i], r, now);
    k := StandsUntilClaimed(run, i + 1, j, r.task, run.states[i + 1].tasks[r.task]);
    if !Standing(run.states[j], r.task, run.states[i + 1].tasks[r.task]) {
      ClaimIsDue(run, k, r.task);
    }
  }

  /** A claim takes no row before its retry time. */
  lemma ClaimIsDue(run: Run, k: nat, t: TaskId)
    requires IsRun(run) && k < |run.steps| && Claims(run.steps[k], t)
    ensures t < |run.states[k].tasks| && run.states[k].tasks[t].status == Pending
    ensures run.states[k].tasks[t].nextRetryAt.Some? ==> run.steps[k].now >= run.states[k].tasks[t].nextRetryAt.value
  {
    RunInv(run, k);
    assert StepAt(run, k);
    var a := run.steps[k];
    var x :| 0 <= x < |a.ids| && a.ids[x] == t;
    ClaimMeaning(run.states[k], a.replica, a.ids, a.now, x);
  }

  /** From its retry time on, a standing row can be claimed by any replica that has no tick open. */
  lemma DueRowCanBeClaimed(s: Cluster, t: TaskId, row: Task, p: Replica, clock: int)
    requires Inv(s) && Standing(s, t, row) && row.status == Pending && p !in s.ticks
    requires row.nextRetryAt.Some? ==> row.nextRetryAt.value <= clock
    ensures Enabled(s, ClaimStep(p, [t], clock))
  {
    assert TaskOk(s.nodes, s.jobs, s.tasks[t]);
    forall n | n in s.deaths ensures t !in s.deaths[n] {
      assert DeathOk(s, n, s.deaths[n]);
    }
    forall q | q in s.ticks ensures t !in Ids(s.ticks[q].reqs) {
      assert forall k :: 0 <= k < |s.ticks[q].reqs| ==> Ids(s.ticks[q].reqs)[k] == s.ticks[q].reqs[k].id;
    }
  }
}
