/** The two conditions under which the cluster stays within capacity are needed: with two ticks in
    flight, or with a node registering again smaller than it was, some run overcommits. */
module CapacityLimits {
  import opened Entities
  import opened Placement
  import opened Engine
  import opened ClusterState
  import opened RowInvariants
  import opened Capacity

  function Last(run: Run): Cluster
    requires run.states != []
  {
    run.states[|run.states| - 1]
  }

  /** The run with one more step. */
  function Then(run: Run, a: Step): Run
    requires run.states != [] && Enabled(Last(run), a)
  {
    Run(run.states + [Apply(Last(run), a)], run.steps + [a])
  }

  lemma ExtendRun(run: Run, a: Step) returns (run': Run)
    requires IsRun(run) && Enabled(Last(run), a)
    ensures run' == Then(run, a) && IsRun(run')
  {
    run' := Then(run, a);
    assert run'.states[|run.steps|] == Last(run);
    forall i: nat | i < |run'.steps| ensures StepAt(run', i) {
      if i < |run.steps| {
        assert StepAt(run, i);
      }
    }
  }

  /** Which runs are looked at: how many ticks are ever in flight at once, whether nodes may register
      again with less capacity, and whether nodes may die. */
  datatype Rules = Rules(most: nat, mayShrink: bool, mayDie: bool)

  predicate Allows(g: Rules, s: Cluster, a: Step)
    requires Enabled(s, a)
  {
    && |Apply(s, a).ticks| <= g.most
    && (g.mayShrink || KeepsCapacity(s, a))
    && (g.mayDie || !a.BeginDeathStep?)
  }

  ghost predicate Follows(run: Run, g: Rules) {
    && Disciplined(run, g.most, g.mayShrink)
    && (g.mayDie || forall k :: 0 <= k < |run.steps| ==> !run.steps[k].BeginDeathStep?)
  }

  /** Some run of that kind ends in `s`. */
  ghost predicate Reaches(s: Cluster, g: Rules) {
    exists run: Run :: IsRun(run) && Follows(run, g) && Last(run) == s
  }

  lemma ThenIsRun(run: Run, a: Step, g: Rules)
    requires IsRun(run) && Follows(run, g) && Enabled(Last(run), a)
    requires Allows(g, Last(run), a)
    ensures IsRun(Then(run, a)) && Follows(Then(run, a), g)
    ensures Last(Then(run, a)) == Apply(Last(run), a)
  {
    var run' := ExtendRun(run, a);
    assert run'.states[|run.steps|] == Last(run);
  }

  lemma ReachInitial(g: Rules)
    ensures Reaches(INITIAL, g)
  {
    var run := Run([INITIAL], []);
    assert IsRun(run) && Follows(run, g) && Last(run) == INITIAL;
  }

  lemma ReachNext(s: Cluster, a: Step, g: Rules)
    requires Reaches(s, g) && Enabled(s, a)
    requires Allows(g, s, a)
    ensures Reaches(Apply(s, a), g)
  {
    var run: Run :| IsRun(run) && Follows(run, g) && Last(run) == s;
    ThenIsRun(run, a, g);
    assert Last(Then(run, a)) == Apply(s, a);
  }

  lemma ReachInv(s: Cluster, g: Rules)
    requires Reaches(s, g)
    ensures Inv(s)
  {
    var run: Run :| IsRun(run) && Follows(run, g) && Last(run) == s;
    RunInv(run, |run.states| - 1);
  }

  lemma RunTo(s: Cluster, g: Rules) returns (run: Run)
    requires Reaches(s, g)
    ensures IsRun(run) && Follows(run, g) && Last(run) == s
  {
    var found: Run :| IsRun(found) && Follows(found, g) && Last(found) == s;
    run := found;
  }

  // ---------- a small cluster ----------

  const JOB := Job(Resources(2, 2), 2, 1, BIN_PACK, map[])
  const BIG := Registration("w", "a", Resources(2, 2), None)
  const SMALL := Registration("w", "a", Resources(1, 1), None)
  const NODE := Node(0, "w", "a", Resources(2, 2), Some(map[]), Ready, 0)

  /** One ready node that can hold one of the job's two pending tasks. */
  function Setup(): Cluster {
    RegisterNode(CreateJob(INITIAL, JOB), BIG)
  }

  lemma SetupIs()
    ensures Setup() == Cluster([NODE], [JOB], [NewTask(0), NewTask(0)], [JobSubmitted(0), NodeRegistered(0)], map[], map[])
  {
    assert Replicas(0, 2) == Replicas(0, 1) + [NewTask(0)] == [NewTask(0), NewTask(0)];
  }

  lemma ReachSetup(g: Rules)
    ensures Reaches(Setup(), g)
  {
    ReachInitial(g);
    ReachNext(INITIAL, CreateJobStep(JOB), g);
    ReachNext(CreateJob(INITIAL, JOB), RegisterNodeStep(BIG), g);
  }

  const REQUEST0 := TaskRequest(0, Resources(2, 2), BIN_PACK, map[])
  const REQUEST1 := TaskRequest(1, Resources(2, 2), BIN_PACK, map[])

  /** The request of one of the job's two tasks. */
  predicate IsAsk(req: TaskRequest) {
    req.id < 2 && req.request == Resources(2, 2) && req.policy == BIN_PACK && req.constraints == map[]
  }

  /** A tick that has claimed one task and has read the node, with nothing reserved on it. */
  function FullTick(req: TaskRequest): Tick {
    Tick([req], Some([NODE]), Some(map[]))
  }

  lemma NothingAllocated(s: Cluster)
    requires s.tasks == [NewTask(0), NewTask(0)]
    ensures Allocations(s) == map[]
  {
    assert forall t :: t in s.tasks ==> t == NewTask(0);
  }

  lemma NodeListed(s: Cluster)
    requires s.nodes == [NODE]
    ensures ActiveNodes(s.nodes, |s.nodes|) == [NODE]
  {
    assert ActiveNodes(s.nodes, 1) == ActiveNodes(s.nodes, 0) + [NODE];
  }

  /** Nothing but open ticks has happened since the setup. */
  predicate Fresh(s: Cluster) {
    s.nodes == [NODE] && s.jobs == [JOB] && s.deaths == map[] && s.tasks == [NewTask(0), NewTask(0)]
  }

  lemma ReachClaim(s: Cluster, r: Replica, req: TaskRequest, g: Rules)
    requires Reaches(s, g) && Fresh(s) && r !in s.ticks && |s.ticks| < g.most
    requires IsAsk(req) && !Locked(s, req.id)
    ensures Reaches(s.(ticks := s.ticks[r := Tick([req], None, None)]), g)
  {
    assert Claim(s, r, [req.id]).ticks[r].reqs == [req];
    ReachNext(s, ClaimStep(r, [req.id], 0), g);
  }

  lemma ReachReadNodes(s: Cluster, r: Replica, req: TaskRequest, g: Rules)
    requires Reaches(s, g) && Fresh(s) && |s.ticks| <= g.most
    requires r in s.ticks && s.ticks[r] == Tick([req], None, None)
    ensures Reaches(s.(ticks := s.ticks[r := Tick([req], Some([NODE]), None)]), g)
  {
    NodeListed(s);
    ReachNext(s, ReadNodesStep(r), g);
  }

  lemma ReachReadAllocations(s: Cluster, r: Replica, req: TaskRequest, g: Rules)
    requires Reaches(s, g) && Fresh(s) && |s.ticks| <= g.most
    requires r in s.ticks && s.ticks[r] == Tick([req], Some([NODE]), None)
    ensures Reaches(s.(ticks := s.ticks[r := FullTick(req)]), g)
  {
    NothingAllocated(s);
    ReachNext(s, ReadAllocationsStep(r), g);
  }

  /** Replica `r` can claim the task and read up to the commit. */
  lemma ReachFullTick(s: Cluster, r: Replica, req: TaskRequest, g: Rules)
    requires Reaches(s, g) && Fresh(s) && r !in s.ticks && |s.ticks| < g.most
    requires IsAsk(req) && !Locked(s, req.id)
    ensures Reaches(s.(ticks := s.ticks[r := FullTick(req)]), g)
  {
    ReachClaim(s, r, req, g);
    var s1 := s.(ticks := s.ticks[r := Tick([req], None, None)]);
    ReachReadNodes(s1, r, req, g);
    var s2 := s1.(ticks := s1.ticks[r := Tick([req], Some([NODE]), None)]);
    assert s2.ticks == s.ticks[r := Tick([req], Some([NODE]), None)];
    ReachReadAllocations(s2, r, req, g);
    assert s2.ticks[r := FullTick(req)] == s.ticks[r := FullTick(req)];
  }

  /** The tick's commit puts its task on the node. */
  lemma FullTickCommits(s: Cluster, r: Replica, req: TaskRequest)
    requires Inv(s) && r in s.ticks && s.ticks[r] == FullTick(req) && IsAsk(req)
    ensures Allocation(s.jobs, CommitTick(s, r, 0).tasks, 0).IsSum(Allocation(s.jobs, s.tasks, 0), Resources(2, 2))
  {
    var tick := s.ticks[r];
    var placed := Placements(tick);
    ChoiceAt([NODE], map[], [req], 0);
    assert placed[..0] == [];
    PlaceNextAdmits([NODE], map[], req);
    assert Admits([NODE][0], map[], req);
    assert placed == [Some(0)];
    TickAdds(s, r, 0, 0);
    AddedOne(req);
  }

  lemma AddedOne(req: TaskRequest)
    ensures Added([NODE], [Some(0)], [req], 0).Same(req.request)
  {
    assert [Some(0)][..0] == [];
  }

  /** Two ticks, each blind to the other's pending writes, put a node at twice its capacity. */
  lemma TwoTicksOvercommit(g: Rules)
    requires g.most >= 2
    ensures exists s :: Reaches(s, g) && !WithinCapacity(s)
  {
    var s := Setup();
    SetupIs();
    ReachSetup(g);
    ReachFullTick(s, 0, REQUEST0, g);
    var s1 := s.(ticks := s.ticks[0 := FullTick(REQUEST0)]);
    SecondUnlocked(s1);
    ReachFullTick(s1, 1, REQUEST1, g);
    var s2 := s1.(ticks := s1.ticks[1 := FullTick(REQUEST1)]);
    BothCommit(s2, g);
  }

  lemma SecondUnlocked(s: Cluster)
    requires s.ticks == map[0 := FullTick(REQUEST0)] && s.deaths == map[]
    ensures !Locked(s, 1)
  {
    assert Ids([REQUEST0])[0] == 0;
  }

  lemma ReachCommit(s: Cluster, r: Replica, req: TaskRequest, g: Rules)
    requires Reaches(s, g) && |s.ticks| <= g.most
    requires r in s.ticks && s.ticks[r] == FullTick(req) && IsAsk(req)
    ensures var s' := CommitTick(s, r, 0);
            && Reaches(s', g)
            && s'.nodes == s.nodes && s'.jobs == s.jobs && s'.deaths == s.deaths && s'.ticks == s.ticks - {r}
            && Allocation(s'.jobs, s'.tasks, 0).IsSum(Allocation(s.jobs, s.tasks, 0), Resources(2, 2))
            && NOTHING.AtMost(Allocation(s.jobs, s.tasks, 0))
  {
    ReachInv(s, g);
    FullTickCommits(s, r, req);
    CommitEffect(s, r, 0);
    AllocationNonNegative(s, 0);
    assert |s.ticks - {r}| <= |s.ticks| by {
      assert s.ticks.Keys == (s.ticks - {r}).Keys + {r};
    }
    ReachNext(s, CommitTickStep(r, 0), g);
  }

  lemma BothCommit(s: Cluster, g: Rules)
    requires Reaches(s, g) && g.most >= 2 && s.nodes == [NODE]
    requires s.ticks == map[0 := FullTick(REQUEST0), 1 := FullTick(REQUEST1)]
    ensures exists s' :: Reaches(s', g) && !WithinCapacity(s')
  {
    ReachCommit(s, 0, REQUEST0, g);
    var s1 := CommitTick(s, 0, 0);
    assert s1.ticks == map[1 := FullTick(REQUEST1)];
    ReachCommit(s1, 1, REQUEST1, g);
    var s2 := CommitTick(s1, 1, 0);
    assert Allocation(s2.jobs, s2.tasks, 0).cpu >= 4 && s2.nodes[0] == NODE;
    assert !WithinCapacity(s2);
  }

  lemma AllocationNonNegative(s: Cluster, n: NodeId)
    requires Inv(s)
    ensures NOTHING.AtMost(Allocation(s.jobs, s.tasks, n))
  {
    AllocationPrefixNonNegative(s, n, |s.tasks|);
    assert s.tasks[..|s.tasks|] == s.tasks;
  }

  lemma {:induction false} AllocationPrefixNonNegative(s: Cluster, n: NodeId, k: nat)
    requires Inv(s) && k <= |s.tasks|
    ensures NOTHING.AtMost(Allocation(s.jobs, s.tasks[..k], n))
  {
    if k > 0 {
      AllocationPrefixNonNegative(s, n, k - 1);
      assert s.tasks[..k][..k - 1] == s.tasks[..k - 1];
      assert TaskOk(s.nodes, s.jobs, s.tasks[k - 1]);
      assert s.jobs[s.tasks[k - 1].job].request.Positive();
    }
  }

  /** One tick places a task; then its node registers again with less capacity. */
  lemma ShrinkingOvercommits(g: Rules)
    requires g.most >= 1 && g.mayShrink
    ensures exists s :: Reaches(s, g) && !WithinCapacity(s)
  {
    var s := Setup();
    SetupIs();
    ReachSetup(g);
    ReachFullTick(s, 0, REQUEST0, g);
    var s1 := s.(ticks := s.ticks[0 := FullTick(REQUEST0)]);
    ReachCommit(s1, 0, REQUEST0, g);
    var s2 := CommitTick(s1, 0, 0);
    ReachShrunk(s2, g);
  }

  lemma ReachShrunk(s: Cluster, g: Rules)
    requires g.mayShrink && Reaches(s, g) && |s.ticks| <= g.most && s.nodes == [NODE] && s.deaths == map[]
    requires Allocation(s.jobs, s.tasks, 0).cpu >= 2
    ensures exists s' :: Reaches(s', g) && !WithinCapacity(s')
  {
    var s' := RegisterNode(s, SMALL);
    assert ExistingNode(s, SMALL) == Some(0);
    ReachNext(s, RegisterNodeStep(SMALL), g);
    assert s'.nodes[0].capacity == Resources(1, 1);
    assert !WithinCapacity(s');
  }

  // ---------- the exact condition ----------

  /** Without ticks no task is ever assigned. */
  ghost predicate Idle(s: Cluster) {
    Inv(s) && s.ticks == map[] && forall t :: 0 <= t < |s.tasks| ==> s.tasks[t].status == Pending
  }

  lemma IdleWithinCapacity(s: Cluster)
    requires Idle(s)
    ensures WithinCapacity(s)
  {
    forall n | 0 <= n < |s.nodes| ensures Allocation(s.jobs, s.tasks, n).AtMost(s.nodes[n].capacity) {
      assert NodeOk(s.nodes[n], n);
      NoActiveNothing(s.jobs, s.tasks, n);
    }
  }

  lemma StepKeepsIdle(s: Cluster, a: Step)
    requires Idle(s) && Enabled(s, a) && Apply(s, a).ticks == map[]
    ensures Idle(Apply(s, a))
  {
    StepKeepsInv(s, a);
    if a.CreateJobStep? && JobAccepted(a.job) {
      ReplicasAre(|s.jobs|, a.job.replicas);
    } else if a.FinishDeathStep? {
      FinishDeathEffect(s, a.node);
    } else if a.ClaimStep? {
      assert a.replica !in s.ticks;
    }
  }

  lemma {:induction false} NoTicksIdle(run: Run, i: nat)
    requires IsRun(run) && Disciplined(run, 0, true) && i < |run.states|
    ensures Idle(run.states[i])
  {
    if i > 0 {
      NoTicksIdle(run, i - 1);
      assert StepAt(run, i - 1);
      assert |run.states[i].ticks| == 0;
      StepKeepsIdle(run.states[i - 1], run.steps[i - 1]);
    }
  }

  /** Every run with at most `most` ticks in flight, in which capacities may shrink or may not, and nodes
      may die or may not, stays within capacity if and only if there are no ticks at all, or one at a
      time and no shrinking. */
  lemma CapacityExactly(g: Rules)
    ensures (forall s :: Reaches(s, g) ==> WithinCapacity(s)) <==> g.most == 0 || (g.most == 1 && !g.mayShrink)
  {
    if g.most == 0 || (g.most == 1 && !g.mayShrink) {
      forall s | Reaches(s, g) ensures WithinCapacity(s) {
        var run: Run :| IsRun(run) && Follows(run, g) && Last(run) == s;
        if g.most == 0 {
          NoTicksIdle(run, |run.states| - 1);
          IdleWithinCapacity(s);
        } else {
          NoOvercommit(run, |run.states| - 1);
        }
      }
    } else if g.most >= 2 {
      TwoTicksOvercommit(g);
    } else {
      ShrinkingOvercommits(g);
    }
  }
}
