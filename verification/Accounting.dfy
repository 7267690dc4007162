/** The tick's cached accounting against a recount at commit, over whole runs. */
module Accounting {
  import opened Entities
  import opened Placement
  import opened ClusterState
  import opened RowInvariants
  import opened Capacity
  import opened CapacityLimits

  // ---------- between commits tasks only leave nodes ----------

  /** Every task active on `n` in `s'` was so in `s`, for the same job. */
  ghost predicate OnlyReleased(s: Cluster, s': Cluster, n: NodeId) {
    && s.jobs <= s'.jobs && |s.tasks| <= |s'.tasks|
    && forall t: TaskId :: t < |s'.tasks| && ActiveOn(s'.tasks[t], n) ==>
                             t < |s.tasks| && ActiveOn(s.tasks[t], n) && s'.tasks[t].job == s.tasks[t].job
  }

  /** No task that was active on `n` has left it. */
  ghost predicate NoneLeft(s: Cluster, s': Cluster, n: NodeId) {
    forall t: TaskId :: t < |s.tasks| && ActiveOn(s.tasks[t], n) ==> t < |s'.tasks| && ActiveOn(s'.tasks[t], n)
  }

  lemma StepOnlyReleases(s: Cluster, a: Step, n: NodeId)
    requires Inv(s) && Enabled(s, a) && !a.CommitTickStep?
    ensures OnlyReleased(s, Apply(s, a), n)
  {
    match a
    case CreateJobStep(job) => CreateReleasesNothing(s, job, n);
    case FinishDeathStep(m) => FinishDeathEffect(s, m);
    case ReportStep(rep, now) => ReportOnlyReleases(s, rep, now, n);
    case _ =>
  }

  lemma ReportOnlyReleases(s: Cluster, r: Report, now: int, n: NodeId)
    ensures OnlyReleased(s, UpdateTaskStatus(s, r, now), n)
  {}

  lemma CreateReleasesNothing(s: Cluster, job: Job, n: NodeId)
    requires Inv(s)
    ensures OnlyReleased(s, CreateJob(s, job), n)
  {
    if JobAccepted(job) {
      ReplicasAre(|s.jobs|, job.replicas);
    }
  }

  lemma ReleasesCompose(s: Cluster, s': Cluster, s'': Cluster, n: NodeId)
    requires OnlyReleased(s, s', n) && OnlyReleased(s', s'', n)
    ensures OnlyReleased(s, s'', n)
  {}

  ghost predicate NoneLeftUpTo(s: Cluster, s': Cluster, n: NodeId, k: nat)
    requires k <= |s.tasks| <= |s'.tasks|
  {
    forall t: TaskId :: t < k && ActiveOn(s.tasks[t], n) ==> ActiveOn(s'.tasks[t], n)
  }

  /** Weights that do not grow add up to allocations that do not grow, and that are the same exactly
      when no task has left. */
  lemma {:induction false} ReleasedPrefix(s: Cluster, s': Cluster, n: NodeId, k: nat)
    requires Inv(s) && OnlyReleased(s, s', n) && k <= |s.tasks|
    ensures Allocation(s'.jobs, s'.tasks[..k], n).AtMost(Allocation(s.jobs, s.tasks[..k], n))
    ensures Allocation(s'.jobs, s'.tasks[..k], n).Same(Allocation(s.jobs, s.tasks[..k], n))
            <==> NoneLeftUpTo(s, s', n, k)
  {
    if k > 0 {
      ReleasedPrefix(s, s', n, k - 1);
      assert NoneLeftUpTo(s, s', n, k) <==>
          NoneLeftUpTo(s, s', n, k - 1) && (ActiveOn(s.tasks[k - 1], n) ==> ActiveOn(s'.tasks[k - 1], n));
      AllocationUpTo(s.jobs, s.tasks, k, n);
      AllocationUpTo(s'.jobs, s'.tasks, k, n);
      ReleasedWeight(s, s', n, k - 1);
      SumsCompare(Allocation(s.jobs, s.tasks[..k - 1], n), Weight(s.jobs, s.tasks[k - 1], n),
                  Allocation(s'.jobs, s'.tasks[..k - 1], n), Weight(s'.jobs, s'.tasks[k - 1], n),
                  Allocation(s.jobs, s.tasks[..k], n), Allocation(s'.jobs, s'.tasks[..k], n));
    }
  }

  lemma SumsCompare(a: Resources, b: Resources, a': Resources, b': Resources, sum: Resources, sum': Resources)
    requires sum.IsSum(a, b) && sum'.IsSum(a', b') && a'.AtMost(a) && b'.AtMost(b)
    ensures sum'.AtMost(sum)
    ensures sum'.Same(sum) <==> a'.Same(a) && b'.Same(b)
  {}

  lemma AllocationUpTo(jobs: seq<Job>, tasks: seq<Task>, k: nat, n: NodeId)
    requires 0 < k <= |tasks|
    ensures Allocation(jobs, tasks[..k], n).IsSum(Allocation(jobs, tasks[..k - 1], n), Weight(jobs, tasks[k - 1], n))
  {
    AllocationSnoc(jobs, tasks[..k - 1], tasks[k - 1], n);
    assert tasks[..k] == tasks[..k - 1] + [tasks[k - 1]];
  }

  lemma ReleasedWeight(s: Cluster, s': Cluster, n: NodeId, t: TaskId)
    requires Inv(s) && OnlyReleased(s, s', n) && t < |s.tasks|
    ensures Weight(s'.jobs, s'.tasks[t], n).AtMost(Weight(s.jobs, s.tasks[t], n))
    ensures Weight(s'.jobs, s'.tasks[t], n).Same(Weight(s.jobs, s.tasks[t], n))
            <==> (ActiveOn(s.tasks[t], n) ==> ActiveOn(s'.tasks[t], n))
  {
    assert TaskOk(s.nodes, s.jobs, s.tasks[t]);
    assert s.jobs[s.tasks[t].job].request.Positive();
  }

  /** Tasks added later hold nothing. */
  lemma {:induction false} NewTasksHoldNothing(s: Cluster, s': Cluster, n: NodeId, k: nat)
    requires OnlyReleased(s, s', n) && |s.tasks| <= k <= |s'.tasks|
    ensures Allocation(s'.jobs, s'.tasks[..k], n).Same(Allocation(s'.jobs, s'.tasks[..|s.tasks|], n))
  {
    if k > |s.tasks| {
      NewTasksHoldNothing(s, s', n, k - 1);
      assert s'.tasks[..k][..k - 1] == s'.tasks[..k - 1];
      LastIdle(s'.jobs, s'.tasks[..k], n);
    }
  }

  lemma ReleasedAllocation(s: Cluster, s': Cluster, n: NodeId)
    requires Inv(s) && OnlyReleased(s, s', n)
    ensures Allocation(s'.jobs, s'.tasks, n).AtMost(Allocation(s.jobs, s.tasks, n))
    ensures Allocation(s'.jobs, s'.tasks, n).Same(Allocation(s.jobs, s.tasks, n)) <==> NoneLeft(s, s', n)
  {
    ReleasedPrefix(s, s', n, |s.tasks|);
    NewTasksHoldNothing(s, s', n, |s'.tasks|);
    assert s.tasks[..|s.tasks|] == s.tasks && s'.tasks[..|s'.tasks|] == s'.tasks;
  }

  // ---------- from the tick's read to its commit ----------

  /** Replica `r` reads the allocations at step `i` and commits at step `j`, without an abort or another
      commit of its own between; other replicas may commit between only if `othersCommit`. */
  ghost predicate Window(run: Run, r: Replica, i: nat, j: nat, othersCommit: bool) {
    && i < j < |run.steps|
    && run.steps[i] == ReadAllocationsStep(r)
    && run.steps[j].CommitTickStep? && run.steps[j].replica == r
    && forall x :: i < x < j ==>
                     && run.steps[x] != AbortTickStep(r)
                     && (run.steps[x].CommitTickStep? ==> othersCommit && run.steps[x].replica != r)
  }

  /** At state `k` the tick still has what it read at step `i`, and since then tasks have only left. */
  ghost predicate ReadAt(run: Run, r: Replica, i: nat, k: nat, n: NodeId) {
    && i < |run.states| && k < |run.states|
    && ReadyToCommit(run.states[k], r)
    && run.states[k].ticks[r].allocs.value == Allocations(run.states[i])
    && OnlyReleased(run.states[i], run.states[k], n)
  }

  lemma {:induction false} SinceRead(run: Run, r: Replica, i: nat, j: nat, k: nat, n: NodeId)
    requires IsRun(run) && Window(run, r, i, j, false) && i < k <= j
    ensures ReadAt(run, r, i, k, n)
  {
    if k == i + 1 {
      JustRead(run, r, i, n);
    } else {
      SinceRead(run, r, i, j, k - 1, n);
      NextReadAt(run, r, i, k - 1, n);
    }
  }

  lemma NextReadAt(run: Run, r: Replica, i: nat, x: nat, n: NodeId)
    requires IsRun(run) && x < |run.steps| && ReadAt(run, r, i, x, n)
    requires !run.steps[x].CommitTickStep? && run.steps[x] != AbortTickStep(r)
    ensures ReadAt(run, r, i, x + 1, n)
  {
    RunInv(run, x);
    assert StepAt(run, x);
    StillReadAt(run, r, i, x, n);
  }

  lemma JustRead(run: Run, r: Replica, i: nat, n: NodeId)
    requires IsRun(run) && i < |run.steps| && run.steps[i] == ReadAllocationsStep(r)
    ensures ReadAt(run, r, i, i + 1, n)
  {
    assert StepAt(run, i);
  }

  lemma StillReadAt(run: Run, r: Replica, i: nat, x: nat, n: NodeId)
    requires StepAt(run, x) && Inv(run.states[x]) && ReadAt(run, r, i, x, n)
    requires !run.steps[x].CommitTickStep? && run.steps[x] != AbortTickStep(r)
    ensures ReadAt(run, r, i, x + 1, n)
  {
    StepOnlyReleases(run.states[x], run.steps[x], n);
    ReleasesCompose(run.states[i], run.states[x], run.states[x + 1], n);
    StepKeepsTick(run.states[x], run.steps[x], r);
  }

  lemma StepKeepsTick(s: Cluster, a: Step, r: Replica)
    requires Inv(s) && Enabled(s, a) && ReadyToCommit(s, r) && !a.CommitTickStep? && a != AbortTickStep(r)
    ensures r in Apply(s, a).ticks && Apply(s, a).ticks[r] == s.ticks[r]
  {
    if a.FinishDeathStep? {
      FinishDeathEffect(s, a.node);
    }
  }

  /** What the tick believes node `n` to hold when step `j` commits it. */
  ghost function Cached(run: Run, r: Replica, j: nat, n: NodeId): Resources
    requires j < |run.states| && ReadyToCommit(run.states[j], r)
  {
    FinalReservation(run.states[j].ticks[r], n)
  }

  /** What a fresh count right after step `j` makes of node `n`. */
  ghost function Recount(run: Run, j: nat, n: NodeId): Resources
    requires j + 1 < |run.states|
  {
    Reserved(Allocations(run.states[j + 1]), n)
  }

  ghost predicate BoundHolds(run: Run, r: Replica, j: nat, n: NodeId) {
    j + 1 < |run.states| && ReadyToCommit(run.states[j], r) && n < |run.states[j].nodes| ==>
      Recount(run, j, n).AtMost(Cached(run, r, j, n))
  }

  /** The count of a node that is not known yet is nothing, too. */
  lemma AllocationsOfAny(s: Cluster, n: NodeId)
    requires Inv(s)
    ensures Reserved(Allocations(s), n).Same(Allocation(s.jobs, s.tasks, n))
  {
    if n < |s.nodes| {
      AllocationsMeaning(s, n);
    } else {
      UnknownNodeEmpty(s, n);
    }
  }

  /** When no other tick commits between the tick's read and its commit, then whatever reports, deaths,
      registrations and new jobs interleave and however many ticks are open, the cached accounting is an
      upper bound of the recount, for every node; and it is equal to the recount exactly when no task has
      left the node in between. */
  lemma CachedIsUpperBound(run: Run, r: Replica, i: nat, j: nat, n: NodeId)
    requires IsRun(run) && Window(run, r, i, j, false) && n < |run.states[j].nodes|
    ensures ReadyToCommit(run.states[j], r)
    ensures Recount(run, j, n).AtMost(Cached(run, r, j, n))
    ensures Recount(run, j, n).Same(Cached(run, r, j, n)) <==> NoneLeft(run.states[i], run.states[j], n)
  {
    RunInv(run, i);
    RunInv(run, j);
    SinceRead(run, r, i, j, j, n);
    assert StepAt(run, j);
    var s, s' := run.states[i], run.states[j];
    CachedAccounting(s', r, run.steps[j].now, n);
    ReleasedAllocation(s, s', n);
    AllocationsOfAny(s, n);
    AllocationsOfAny(s', n);
  }

  // ---------- another commit between breaks the bound ----------

  const TWO := Rules(2, false, false)

  /** The ready node has nothing on it; replica `a` is ready to commit the first task, and replica `b`,
      with the second, is about to read the allocations. */
  ghost predicate BeforeRead(s: Cluster, a: Replica, b: Replica, first: TaskRequest, second: TaskRequest) {
    && Inv(s) && a != b && s.nodes == [NODE] && Allocations(s) == map[] && IsAsk(first) && IsAsk(second)
    && s.ticks == map[a := FullTick(first), b := Tick([second], Some([NODE]), None)]
  }

  /** Replica `b` has read the allocations, too. */
  ghost predicate BothRead(s: Cluster, a: Replica, b: Replica, first: TaskRequest, second: TaskRequest) {
    && Inv(s) && a != b && s.nodes == [NODE] && Allocations(s) == map[] && IsAsk(first) && IsAsk(second)
    && s.ticks == map[a := FullTick(first), b := FullTick(second)]
  }

  /** Replica `a` has committed: the node is full, and replica `b` does not know. */
  ghost predicate FirstCommitted(s: Cluster, b: Replica, second: TaskRequest) {
    && Inv(s) && s.nodes == [NODE] && IsAsk(second) && s.ticks == map[b := FullTick(second)]
    && Allocation(s.jobs, s.tasks, 0).Same(Resources(2, 2))
  }

  lemma ReachBeforeRead() returns (s: Cluster)
    ensures Reaches(s, TWO) && BeforeRead(s, 0, 1, REQUEST0, REQUEST1)
  {
    var s0 := Setup();
    SetupIs();
    ReachSetup(TWO);
    ReachFullTick(s0, 0, REQUEST0, TWO);
    var s1 := s0.(ticks := s0.ticks[0 := FullTick(REQUEST0)]);
    SecondUnlocked(s1);
    s := ReachSecond(s1, 0, 1, REQUEST0, REQUEST1);
  }

  lemma ReachSecond(s: Cluster, a: Replica, b: Replica, first: TaskRequest, second: TaskRequest) returns (s': Cluster)
    requires Reaches(s, TWO) && Fresh(s) && s.ticks == map[a := FullTick(first)] && a != b
    requires IsAsk(first) && IsAsk(second) && !Locked(s, second.id)
    ensures Reaches(s', TWO) && BeforeRead(s', a, b, first, second)
  {
    ReachClaim(s, b, second, TWO);
    var s1 := s.(ticks := s.ticks[b := Tick([second], None, None)]);
    ReachReadNodes(s1, b, second, TWO);
    s' := s1.(ticks := s1.ticks[b := Tick([second], Some([NODE]), None)]);
    NothingAllocated(s');
    ReachInv(s', TWO);
  }

  lemma SecondRead(s: Cluster, a: Replica, b: Replica, first: TaskRequest, second: TaskRequest)
    requires BeforeRead(s, a, b, first, second)
    ensures BothRead(ReadAllocations(s, b), a, b, first, second)
  {
    StepKeepsInv(s, ReadAllocationsStep(b));
    assert Allocations(ReadAllocations(s, b)) == Allocations(s);
  }

  lemma FirstCommit(s: Cluster, a: Replica, b: Replica, first: TaskRequest, second: TaskRequest)
    requires BothRead(s, a, b, first, second)
    ensures FirstCommitted(CommitTick(s, a, 0), b, second)
  {
    AllocationsMeaning(s, 0);
    FullTickCommits(s, a, first);
    CommitFrame(s, a, 0);
    WithoutFirst(a, b, FullTick(first), FullTick(second));
  }

  lemma WithoutFirst(a: Replica, b: Replica, x: Tick, y: Tick)
    requires a != b
    ensures map[a := x, b := y] - {a} == map[b := y]
  {}

  lemma CommitFrame(s: Cluster, r: Replica, now: int)
    requires Inv(s) && ReadyToCommit(s, r)
    ensures var s' := CommitTick(s, r, now);
            Inv(s') && s'.nodes == s.nodes && s'.jobs == s.jobs && s'.deaths == s.deaths && s'.ticks == s.ticks - {r}
  {
    CommitEffect(s, r, now);
  }

  lemma SecondCommit(s: Cluster, b: Replica, second: TaskRequest)
    requires FirstCommitted(s, b, second)
    ensures FinalReservation(s.ticks[b], 0).Same(Resources(2, 2))
    ensures Reserved(Allocations(CommitTick(s, b, 0)), 0).Same(Resources(4, 4))
  {
    FullTickCommits(s, b, second);
    TickAdds(s, b, 0, 0);
    CommitFrame(s, b, 0);
    AllocationsOfAny(CommitTick(s, b, 0), 0);
  }

  lemma AnotherCommitBreaksBound() returns (run: Run, i: nat)
    ensures IsRun(run) && Window(run, 1, i, i + 2, true) && !BoundHolds(run, 1, i + 2, 0)
  {
    var run0 := RunToRead();
    i := |run0.steps|;
    run := BoundBroken(run0, 0, 1, REQUEST0, REQUEST1);
  }

  lemma RunToRead() returns (run: Run)
    ensures IsRun(run) && BeforeRead(Last(run), 0, 1, REQUEST0, REQUEST1)
  {
    var s := ReachBeforeRead();
    run := RunTo(s, TWO);
  }

  lemma BoundBroken(run0: Run, a: Replica, b: Replica, first: TaskRequest, second: TaskRequest) returns (run: Run)
    requires IsRun(run0) && BeforeRead(Last(run0), a, b, first, second)
    ensures var i := |run0.steps|;
            IsRun(run) && Window(run, b, i, i + 2, true) && !BoundHolds(run, b, i + 2, 0)
  {
    var run1 := ThenRead(run0, a, b, first, second);
    var run2 := ThenFirst(run1, a, b, first, second);
    run := ThenSecond(run2, b, second);
    WindowOfTwo(run, |run0.steps|, a, b);
  }

  /** Read, another's commit, own commit. */
  lemma WindowOfTwo(run: Run, i: nat, a: Replica, b: Replica)
    requires i + 3 == |run.steps| && a != b
    requires run.steps[i] == ReadAllocationsStep(b) && run.steps[i + 1] == CommitTickStep(a, 0) && run.steps[i + 2] == CommitTickStep(b, 0)
    ensures Window(run, b, i, i + 2, true)
  {}

  lemma ThenRead(run0: Run, a: Replica, b: Replica, first: TaskRequest, second: TaskRequest) returns (run: Run)
    requires IsRun(run0) && BeforeRead(Last(run0), a, b, first, second)
    ensures IsRun(run) && run.steps == run0.steps + [ReadAllocationsStep(b)] && BothRead(Last(run), a, b, first, second)
  {
    SecondRead(Last(run0), a, b, first, second);
    run := ExtendRun(run0, ReadAllocationsStep(b));
  }

  lemma ThenFirst(run1: Run, a: Replica, b: Replica, first: TaskRequest, second: TaskRequest) returns (run: Run)
    requires IsRun(run1) && BothRead(Last(run1), a, b, first, second)
    ensures IsRun(run) && run.steps == run1.steps + [CommitTickStep(a, 0)] && FirstCommitted(Last(run), b, second)
    ensures a != b
  {
    FirstCommit(Last(run1), a, b, first, second);
    run := ExtendRun(run1, CommitTickStep(a, 0));
  }

  lemma ThenSecond(run2: Run, b: Replica, second: TaskRequest) returns (run: Run)
    requires IsRun(run2) && FirstCommitted(Last(run2), b, second)
    ensures IsRun(run) && run2.steps + [CommitTickStep(b, 0)] == run.steps && !BoundHolds(run, b, |run2.steps|, 0)
  {
    SecondCommit(Last(run2), b, second);
    run := ExtendRun(run2, CommitTickStep(b, 0));
    assert run.states[|run2.steps|] == Last(run2);
  }

  /** The cached accounting is an upper bound of the recount in all runs if and only if no other tick
      commits between the tick's read and its commit. */
  lemma CachedBoundExactly(othersCommit: bool)
    ensures (forall run, r: Replica, i: nat, j: nat, n: NodeId :: IsRun(run) && Window(run, r, i, j, othersCommit) ==> BoundHolds(run, r, j, n))
            <==> !othersCommit
  {
    if othersCommit {
      var run, i := AnotherCommitBreaksBound();
      assert IsRun(run) && Window(run, 1, i, i + 2, othersCommit) && !BoundHolds(run, 1, i + 2, 0);
    } else {
      forall run, r: Replica, i: nat, j: nat, n: NodeId | IsRun(run) && Window(run, r, i, j, othersCommit) ensures BoundHolds(run, r, j, n) {
        if n < |run.states[j].nodes| {
          CachedIsUpperBound(run, r, i, j, n);
        }
      }
    }
  }
}
