/** The failure detector: what one poll does, what it achieves over time, and the default thresholds. */
module Detector {
  import opened Entities
  import opened Engine
  import opened ClusterState
  import opened RowInvariants
  import St = Store

  datatype Config = Config(pollInterval: int, notReadyAfter: int, deadAfter: int)

  /** Poll twice per heartbeat interval; suspect after two missed beats, declare dead after three. */
  function DefaultConfig(heartbeatInterval: nat): (c: Config)
    ensures c.notReadyAfter == heartbeatInterval + heartbeatInterval
    ensures c.deadAfter == c.notReadyAfter + heartbeatInterval
    ensures 2 * c.pollInterval <= heartbeatInterval <= 2 * c.pollInterval + 1
    ensures c.notReadyAfter < c.deadAfter || heartbeatInterval == 0
    ensures 2 * (c.deadAfter + c.pollInterval) <= 7 * heartbeatInterval
  {
    Config(heartbeatInterval / 2, heartbeatInterval * 2, heartbeatInterval * 3)
  }

  /** The largest duration of a 64-bit nanosecond clock: the age of a node never seen. */
  const MAX_DURATION := 0x7FFF_FFFF_FFFF_FFFF

  /** What the detector finds out about a node when its turn comes: nothing, that it was never seen, or
      how long ago it was last seen, by the clock at that moment. */
  datatype Reading = Unreadable | NeverSeen | SeenAgo(age: int)

  /** The reading is known, and the age it says, or the largest one for a node never seen, is `limit` or more. */
  predicate AgeAtLeast(reading: Reading, limit: int) {
    match reading
    case Unreadable => false
    case NeverSeen => limit <= 9223372036854775807
    case SeenAgo(age) => limit <= age
  }

  datatype Verdict = Leave | Downgrade | Kill

  function Judge(c: Config, reading: Reading, status: NodeStatus): Verdict {
    if reading.Unreadable? then Leave
    else
      var age := if reading.NeverSeen? then MAX_DURATION else reading.age;
      if age >= c.deadAfter then Kill
      else if age >= c.notReadyAfter && status == Ready then Downgrade
      else Leave
  }

  /** Mark dead and requeue, with nothing in between. */
  function MarkDead(s: Cluster, n: NodeId): Cluster
    requires n < |s.nodes| && n !in s.deaths
  {
    St.IdsAreInRange(s.tasks, n);
    FinishDeath(BeginDeath(s, n), n)
  }

  /** One node, as the poll's list has it, with what is found out about it. */
  function Evaluate(c: Config, s: Cluster, reading: Reading, node: Node): Cluster
    requires node.id < |s.nodes| && node.id !in s.deaths
  {
    match Judge(c, reading, node.status)
    case Kill => MarkDead(s, node.id)
    case Downgrade => UpdateNodeStatus(s, node.id, LoseTouch)
    case Leave => s
  }

  /** What a poll makes of one node row. */
  function Judged(c: Config, reading: Reading, node: Node): Node {
    if !Watched(node) then node
    else
      match Judge(c, reading, node.status)
      case Kill => node.(status := Dead, epoch := node.epoch + 1)
      case Downgrade => node.(status := NotReady)
      case Leave => node
  }

  lemma AddedAndRemoved(deaths: map<NodeId, seq<TaskId>>, n: NodeId, ids: seq<TaskId>)
    requires n !in deaths
    ensures deaths[n := ids] - {n} == deaths
  {}

  lemma DeathBegun(s: Cluster, n: NodeId)
    requires Inv(s) && n < |s.nodes| && n !in s.deaths
    ensures var begun := BeginDeath(s, n);
            && Inv(begun) && Enabled(begun, FinishDeathStep(n))
            && begun.nodes == s.nodes && begun.ticks == s.ticks && begun.deaths - {n} == s.deaths
  {
    BeginDeathKeepsInv(s, n);
    FinishDeathEnabled(BeginDeath(s, n), n);
    AddedAndRemoved(s.deaths, n, BeginDeath(s, n).deaths[n]);
  }

  lemma MarkDeadEffect(s: Cluster, n: NodeId)
    requires Inv(s) && n < |s.nodes| && n !in s.deaths
    ensures var s' := MarkDead(s, n);
            && Inv(s') && s'.deaths == s.deaths && s'.ticks == s.ticks && |s'.tasks| == |s.tasks|
            && s'.nodes == s.nodes[n := s.nodes[n].(status := Dead, epoch := s.nodes[n].epoch + 1)]
  {
    DeathBegun(s, n);
    FinishDeathEffect(BeginDeath(s, n), n);
  }

  /** The row when node `n` has died. */
  function OffNode(t: Task, n: NodeId): Task {
    if ActiveOn(t, n) then OrphanRow(t) else t
  }

  lemma MarkDeadTask(s: Cluster, n: NodeId, t: TaskId)
    requires Inv(s) && n < |s.nodes| && n !in s.deaths && t < |s.tasks|
    ensures t < |MarkDead(s, n).tasks| && MarkDead(s, n).tasks[t] == OffNode(s.tasks[t], n)
  {
    DeathBegun(s, n);
    FinishDeathEffect(BeginDeath(s, n), n);
  }

  function TaskJudged(c: Config, reading: Reading, node: Node, t: Task): Task {
    if Judge(c, reading, node.status) == Kill then OffNode(t, node.id) else t
  }

  lemma EvaluateEffect(c: Config, s: Cluster, reading: Reading, node: Node)
    requires Inv(s) && s.deaths == map[] && node.id < |s.nodes| && s.nodes[node.id] == node && Watched(node)
    ensures var s' := Evaluate(c, s, reading, node);
            && Inv(s') && s'.deaths == map[] && s'.ticks == s.ticks && |s'.tasks| == |s.tasks|
            && s'.nodes == s.nodes[node.id := Judged(c, reading, node)]
  {
    match Judge(c, reading, node.status)
    case Kill => MarkDeadEffect(s, node.id);
    case Downgrade => StatusKeepsInv(s, node.id, LoseTouch);
    case Leave =>
  }

  lemma EvaluateTask(c: Config, s: Cluster, reading: Reading, node: Node, t: TaskId)
    requires Inv(s) && s.deaths == map[] && node.id < |s.nodes| && t < |s.tasks|
    ensures var s' := Evaluate(c, s, reading, node);
            t < |s'.tasks| && s'.tasks[t] == TaskJudged(c, reading, node, s.tasks[t])
  {
    if Judge(c, reading, node.status) == Kill {
      MarkDeadTask(s, node.id, t);
    }
  }

  /** What becomes of a node's row when it was listed with status `seen`. */
  function RowByAge(c: Config, reading: Reading, seen: NodeStatus, row: Node): Node {
    if AgeAtLeast(reading, c.deadAfter) then row.(status := Dead, epoch := row.epoch + 1)
    else if seen == Ready && AgeAtLeast(reading, c.notReadyAfter) then row.(status := NotReady)
    else row
  }

  lemma EvaluatedRow(c: Config, s: Cluster, reading: Reading, node: Node)
    requires Inv(s) && s.deaths == map[] && node.id < |s.nodes|
    ensures Evaluate(c, s, reading, node).nodes == s.nodes[node.id := RowByAge(c, reading, node.status, s.nodes[node.id])]
  {
    if Judge(c, reading, node.status) == Kill {
      MarkDeadEffect(s, node.id);
    }
  }

  /** Node `n` is one of the first `i` of the list. */
  predicate Listed(nodes: seq<Node>, i: nat, n: NodeId) {
    exists k :: 0 <= k < i && k < |nodes| && nodes[k].id == n
  }

  /** The list that a poll goes through. */
  function Watchlist(s: Cluster): seq<Node> {
    ActiveNodes(s.nodes, |s.nodes|)
  }

  lemma WatchlistIs(s: Cluster)
    requires Inv(s)
    ensures var nodes := Watchlist(s);
            && DistinctIds(nodes)
            && (forall i :: 0 <= i < |nodes| ==> nodes[i].id < |s.nodes| && nodes[i] == s.nodes[nodes[i].id] && Watched(nodes[i]))
            && (forall n: NodeId :: n < |s.nodes| && Watched(s.nodes[n]) ==> Listed(nodes, |nodes|, n))
  {
    assert forall i :: 0 <= i < |s.nodes| ==> NodeOk(s.nodes[i], i);
    ActiveNodesAre(s.nodes, |s.nodes|);
    var nodes := Watchlist(s);
    forall n: NodeId | n < |s.nodes| && Watched(s.nodes[n]) ensures Listed(nodes, |nodes|, n) {
      var k :| 0 <= k < |nodes| && nodes[k] == s.nodes[n];
    }
  }

  /** The poll, gone through the first `i` nodes of its list, has declared the task's node dead. */
  predicate LosesNode(c: Config, s: Cluster, readings: NodeId -> Reading, i: nat, t: Task) {
    && Active(t) && t.assignedNode.Some? && t.assignedNode.value < |s.nodes|
    && Listed(Watchlist(s), i, t.assignedNode.value)
    && Judge(c, readings(t.assignedNode.value), s.nodes[t.assignedNode.value].status) == Kill
  }

  function TaskUpTo(c: Config, s: Cluster, readings: NodeId -> Reading, i: nat, t: Task): Task {
    if LosesNode(c, s, readings, i, t) then OrphanRow(t) else t
  }

  function NodeUpTo(c: Config, s: Cluster, readings: NodeId -> Reading, i: nat, n: NodeId): Node
    requires n < |s.nodes|
  {
    if Listed(Watchlist(s), i, n) then Judged(c, readings(n), s.nodes[n]) else s.nodes[n]
  }

  /** The invariants hold and no death is open. */
  ghost predicate Settled(s: Cluster) {
    match s
    case Cluster(_, _, _, _, _, deaths) => Inv(s) && deaths == map[]
  }

  /** What the poll has done to the rows after the first `i` nodes of its list: those nodes are what they were
      judged to be, the tasks of those declared dead are orphaned, and the other rows are as they were. */
  ghost predicate PolledUpTo(c: Config, s: Cluster, readings: NodeId -> Reading, i: nat, s': Cluster) {
    match s'
    case Cluster(nodes, _, tasks, _, ticks, _) =>
      && Settled(s') && ticks == s.ticks
      && |nodes| == |s.nodes| && (forall n: NodeId {:trigger nodes[n]} :: n < |s.nodes| ==> nodes[n] == NodeUpTo(c, s, readings, i, n))
      && |tasks| == |s.tasks| && (forall t: TaskId {:trigger tasks[t]} :: t < |s.tasks| ==> tasks[t] == TaskUpTo(c, s, readings, i, s.tasks[t]))
  }

  lemma NextUntouched(c: Config, s: Cluster, prev: Cluster, readings: NodeId -> Reading, i: nat)
    requires Settled(s) && i < |Watchlist(s)| && PolledUpTo(c, s, readings, i, prev)
    ensures var node := Watchlist(s)[i];
            && node.id < |s.nodes| && prev.nodes[node.id] == s.nodes[node.id] == node && Watched(node)
            && forall n: NodeId :: Listed(Watchlist(s), i + 1, n) <==> n == node.id || Listed(Watchlist(s), i, n)
  {
    WatchlistIs(s);
    var node := Watchlist(s)[i];
    assert !Listed(Watchlist(s), i, node.id);
    forall n: NodeId ensures Listed(Watchlist(s), i + 1, n) <==> n == node.id || Listed(Watchlist(s), i, n) {
      if n == node.id {
        assert Watchlist(s)[i].id == n;
      }
    }
  }

  /** Once orphaned, a row is on no node that could still be declared dead. */
  lemma TaskUpToNext(c: Config, s: Cluster, readings: NodeId -> Reading, i: nat, t: Task)
    requires i < |Watchlist(s)| && Watchlist(s)[i].id < |s.nodes| && s.nodes[Watchlist(s)[i].id] == Watchlist(s)[i]
    requires forall n: NodeId :: Listed(Watchlist(s), i + 1, n) <==> n == Watchlist(s)[i].id || Listed(Watchlist(s), i, n)
    ensures var node := Watchlist(s)[i];
            TaskUpTo(c, s, readings, i + 1, t) == TaskJudged(c, readings(node.id), node, TaskUpTo(c, s, readings, i, t))
  {}

  lemma PolledNext(c: Config, s: Cluster, prev: Cluster, readings: NodeId -> Reading, i: nat, next: nat)
    requires Settled(s) && i < |Watchlist(s)| && next == i + 1 && PolledUpTo(c, s, readings, i, prev)
    ensures Watchlist(s)[i].id < |prev.nodes| && prev.deaths == map[]
    ensures PolledUpTo(c, s, readings, next, Evaluate(c, prev, readings(Watchlist(s)[i].id), Watchlist(s)[i]))
  {
    NextUntouched(c, s, prev, readings, i);
    var node := Watchlist(s)[i];
    EvaluateEffect(c, prev, readings(node.id), node);
    forall t: TaskId | t < |s.tasks|
      ensures t < |prev.tasks|
      ensures Evaluate(c, prev, readings(node.id), node).tasks[t] == TaskUpTo(c, s, readings, next, s.tasks[t])
    {
      TaskUpToNext(c, s, readings, i, s.tasks[t]);
      EvaluateTask(c, prev, readings(node.id), node, t);
    }
  }

  lemma PolledNone(c: Config, s: Cluster, readings: NodeId -> Reading)
    requires Settled(s)
    ensures PolledUpTo(c, s, readings, 0, s)
  {}

  /** The state after the poll has gone through the first `i` nodes of its list. */
  ghost function PollUpTo(c: Config, s: Cluster, readings: NodeId -> Reading, i: nat): (s': Cluster)
    requires Settled(s) && i <= |Watchlist(s)|
    ensures PolledUpTo(c, s, readings, i, s')
  {
    if i == 0 then PolledNone(c, s, readings); s
    else
      var prev := PollUpTo(c, s, readings, i - 1);
      PolledNext(c, s, prev, readings, i - 1, i);
      Evaluate(c, prev, readings(Watchlist(s)[i - 1].id), Watchlist(s)[i - 1])
  }

  /** What the detector makes of a node, in terms of its reading: one that is neither dead nor cordoned and
      whose reading is known is declared dead, under the next epoch, when its age has reached DeadAfter (one
      that was never seen has the largest age there is); if not, it becomes not ready when it was ready and its
      age has reached NotReadyAfter; otherwise it is left as it was. */
  function NodeByAge(c: Config, reading: Reading, node: Node): Node {
    if node.status in {Ready, NotReady} then RowByAge(c, reading, node.status, node) else node
  }

  lemma NodePolled(c: Config, s: Cluster, readings: NodeId -> Reading, n: NodeId)
    requires Inv(s) && n < |s.nodes|
    ensures NodeUpTo(c, s, readings, |Watchlist(s)|, n) == NodeByAge(c, readings(n), s.nodes[n])
  {
    WatchlistIs(s);
  }

  /** A whole poll judges every node row by its own reading. */
  ghost function Poll(c: Config, s: Cluster, readings: NodeId -> Reading): (s': Cluster)
    requires Inv(s) && s.deaths == map[]
    ensures Inv(s') && s'.deaths == map[] && s'.ticks == s.ticks
    ensures |s'.nodes| == |s.nodes|
    ensures forall n: NodeId :: n < |s.nodes| ==> s'.nodes[n] == NodeByAge(c, readings(n), s.nodes[n])
  {
    assert forall n: NodeId :: n < |s.nodes| ==>
                                 NodeUpTo(c, s, readings, |Watchlist(s)|, n) == NodeByAge(c, readings(n), s.nodes[n]) by {
      forall n: NodeId | n < |s.nodes| {
        NodePolled(c, s, readings, n);
      }
    }
    PollUpTo(c, s, readings, |Watchlist(s)|)
  }

  /** What a whole poll does to the tasks: those scheduled or running on a node that it declares dead are
      pending again, with their retries as they were, and every other row stays. */
  lemma PollRequeues(c: Config, s: Cluster, readings: NodeId -> Reading, t: TaskId)
    requires Inv(s) && s.deaths == map[] && t < |s.tasks|
    ensures var s', row := Poll(c, s, readings), s.tasks[t];
            && |s'.tasks| == |s.tasks|
            && s'.tasks[t] ==
               if row.status in {Scheduled, Running} && row.assignedNode.Some? && row.assignedNode.value < |s.nodes|
                  && s.nodes[row.assignedNode.value].status in {Ready, NotReady}
                  && AgeAtLeast(readings(row.assignedNode.value), c.deadAfter)
               then Task(row.job, Pending, None, None, row.retriesUsed, row.exitCode, Some("requeued after node failure"),
                         None, None, None, None)
               else row
  {
    WatchlistIs(s);
  }

  /** The loop of a poll over the list of active nodes. */
  class Detector {
    const store: St.Store
    const cfg: Config

    constructor (store: St.Store, cfg: Config)
      ensures this.store == store && this.cfg == cfg
    {
      this.store := store;
      this.cfg := cfg;
    }

    /** Judge one node of the list by what is found out about it; one whose last-seen time cannot be read
        is skipped. */
    method EvaluateNode(reading: Reading, node: Node)
      requires store.Valid() && node.id < |store.nodes|
      modifies store
      ensures store.Valid()
      ensures store.State() == Evaluate(cfg, old(store.State()), reading, node)
      ensures store.nodes == old(store.nodes)[node.id := RowByAge(cfg, reading, node.status, old(store.nodes)[node.id])]
    {
      EvaluatedRow(cfg, store.State(), reading, node);
      if reading.Unreadable? {
        return;
      }
      var age := MAX_DURATION;
      if reading.SeenAgo? {
        age := reading.age;
      }
      if age >= cfg.deadAfter {
        var _ := store.MarkNodeDead(node.id);
      } else if age >= cfg.notReadyAfter {
        if node.status != Ready {
          return;
        }
        var _ := store.UpdateNodeStatus(node.id, LoseTouch);
      }
    }

    method Tick(readings: NodeId -> Reading)
      requires store.Valid()
      modifies store
      ensures store.Valid()
      ensures store.State() == Poll(cfg, old(store.State()), readings)
    {
      var nodes := store.ListActiveNodes();
      ghost var s := store.State();
      WatchlistIs(s);
      for i := 0 to |nodes|
        invariant store.Valid() && store.State() == PollUpTo(cfg, s, readings, i)
      {
        EvaluateNode(readings(nodes[i].id), nodes[i]);
      }
    }
  }
}
