/** The heartbeat handler: epoch check, liveness stamp, bundled task updates, recovery, assignments. */
module Heartbeat {
  import opened Entities
  import opened ClusterState
  import opened RowInvariants
  import St = Store

  datatype Assignment = Assignment(task: TaskId, epoch: int)

  datatype Reply =
    | NotRegistered
    | EpochInvalid
    | StampFailed
    | UpdateFailed
    | NewAssignments(tasks: seq<Assignment>)

  /** The state after the first updates, up to and including the first that fails outright; stale
      and unknown ones are passed over. */
  function AfterUpdates(s: Cluster, updates: seq<Report>, now: int): Cluster {
    if updates == [] then s
    else
      var before := AfterUpdates(s, updates[..|updates| - 1], now);
      if !AllApplied(s, updates[..|updates| - 1], now) then before
      else UpdateTaskStatus(before, updates[|updates| - 1], now)
  }

  /** None of the updates asks for an impossible transition. */
  predicate AllApplied(s: Cluster, updates: seq<Report>, now: int) {
    updates == [] ||
    var before := updates[..|updates| - 1];
    && AllApplied(s, before, now)
    && ReportOutcome(AfterUpdates(s, before, now), updates[|updates| - 1], now) != BadTransition
  }

  function AssignmentOf(tasks: seq<Task>, t: TaskId): Assignment
    requires t < |tasks|
  {
    Assignment(t, if tasks[t].assignedEpoch.Some? then tasks[t].assignedEpoch.value else 0)
  }

  predicate ScheduledHere(t: Task, n: NodeId) {
    t.status == Scheduled && t.assignedNode == Some(n)
  }

  /** Task `a` comes before task `b`: by the time of scheduling, unknown times first, then by creation. */
  predicate Precedes(tasks: seq<Task>, a: TaskId, b: TaskId)
    requires a < |tasks| && b < |tasks|
  {
    match (tasks[a].scheduledAt, tasks[b].scheduledAt)
    case (None, Some(_)) => true
    case (Some(_), None) => false
    case (None, None) => a < b
    case (Some(x), Some(y)) => x < y || (x == y && a < b)
  }

  predicate Known(tasks: seq<Task>, r: seq<Assignment>) {
    forall x <- r :: x.task < |tasks|
  }

  predicate InOrder(tasks: seq<Task>, r: seq<Assignment>)
    requires Known(tasks, r)
  {
    forall i, j :: 0 <= i < j < |r| ==> Precedes(tasks, r[i].task, r[j].task)
  }

  /** Put one more assignment where it belongs. */
  function Insert(tasks: seq<Task>, r: seq<Assignment>, a: Assignment): (r': seq<Assignment>)
    requires Known(tasks, r) && a.task < |tasks|
    ensures forall x :: x in r' <==> x in r || x == a
  {
    if r == [] then [a]
    else
      var last := r[|r| - 1];
      assert r == r[..|r| - 1] + [last];
      if Precedes(tasks, a.task, last.task) then Insert(tasks, r[..|r| - 1], a) + [last] else r + [a]
  }

  lemma {:induction false} InsertKeepsOrder(tasks: seq<Task>, r: seq<Assignment>, a: Assignment)
    requires Known(tasks, r) && a.task < |tasks| && InOrder(tasks, r) && forall x <- r :: x.task != a.task
    ensures InOrder(tasks, Insert(tasks, r, a))
  {
    if r != [] {
      var rest, last := r[..|r| - 1], r[|r| - 1];
      if Precedes(tasks, a.task, last.task) {
        InsertKeepsOrder(tasks, rest, a);
        var front := Insert(tasks, rest, a);
        forall i | 0 <= i < |front| ensures Precedes(tasks, front[i].task, last.task) {
          assert front[i] in front;
        }
      } else {
        forall i | 0 <= i < |r| ensures Precedes(tasks, r[i].task, a.task) {
          assert r[i] in r && last in r;
        }
      }
    }
  }

  /** The tasks scheduled on `n` among the first `k`, with the epochs they were assigned under, in order. */
  function ScheduledOn(tasks: seq<Task>, n: NodeId, k: nat): (r: seq<Assignment>)
    requires k <= |tasks|
    ensures forall a :: a in r <==> a.task < k && ScheduledHere(tasks[a.task], n) && a == AssignmentOf(tasks, a.task)
    ensures Known(tasks, r) && InOrder(tasks, r)
  {
    if k == 0 then []
    else
      var before := ScheduledOn(tasks, n, k - 1);
      if !ScheduledHere(tasks[k - 1], n) then before
      else
        InsertKeepsOrder(tasks, before, AssignmentOf(tasks, k - 1));
        Insert(tasks, before, AssignmentOf(tasks, k - 1))
  }

  /** The answer to node `n`, in columns: exactly the tasks scheduled on it, each with the epoch that its row
      was assigned under, by the time of scheduling and then by creation. */
  ghost predicate Answers(s: Cluster, n: NodeId, r: seq<Assignment>) {
    && (forall x <- r :: x.task < |s.tasks| && s.tasks[x.task].assignedEpoch == Some(x.epoch) && s.tasks[x.task].scheduledAt.Some?)
    && (forall t: TaskId :: (exists x <- r :: x.task == t) <==>
                              t < |s.tasks| && s.tasks[t].status == Scheduled && s.tasks[t].assignedNode == Some(n))
    && (forall i, j :: 0 <= i < j < |r| ==>
                         var a, b := s.tasks[r[i].task].scheduledAt.value, s.tasks[r[j].task].scheduledAt.value;
                         a < b || (a == b && r[i].task < r[j].task))
  }

  lemma ScheduledAnswers(s: Cluster, n: NodeId)
    requires Inv(s)
    ensures Answers(s, n, ScheduledOn(s.tasks, n, |s.tasks|))
  {
    var r := ScheduledOn(s.tasks, n, |s.tasks|);
    forall x | x in r
      ensures x.task < |s.tasks| && s.tasks[x.task].assignedEpoch == Some(x.epoch) && s.tasks[x.task].scheduledAt.Some?
    {
      assert TaskOk(s.nodes, s.jobs, s.tasks[x.task]);
    }
    forall t: TaskId | t < |s.tasks| && s.tasks[t].status == Scheduled && s.tasks[t].assignedNode == Some(n)
      ensures exists x <- r :: x.task == t
    {
      assert AssignmentOf(s.tasks, t) in r;
    }
    forall i, j | 0 <= i < j < |r|
      ensures var a, b := s.tasks[r[i].task].scheduledAt.value, s.tasks[r[j].task].scheduledAt.value;
              a < b || (a == b && r[i].task < r[j].task)
    {
      assert r[i] in r && r[j] in r && Precedes(s.tasks, r[i].task, r[j].task);
    }
  }

  /** The update asks of a task that is neither scheduled nor running what only one that is can do, and it is
      the update of the task's own assignment and says something new. */
  predicate Impossible(s: Cluster, r: Report) {
    && r.task < |s.tasks|
    && (r.node.Some? ==> s.tasks[r.task].assignedNode == r.node && s.tasks[r.task].assignedEpoch == Some(r.epoch))
    && r.status in {Running, Succeeded, Failed}
    && s.tasks[r.task].status !in {Scheduled, Running} && s.tasks[r.task].status != r.status
  }

  /** The `i`th update finds its task in a state that makes it impossible. */
  predicate ImpossibleAt(s: Cluster, updates: seq<Report>, now: int, i: nat)
    requires i < |updates|
  {
    Impossible(AfterUpdates(s, updates[..i], now), updates[i])
  }

  lemma ImpossibleInPrefix(s: Cluster, updates: seq<Report>, now: int, n: nat, i: nat)
    requires i < n <= |updates|
    ensures ImpossibleAt(s, updates[..n], now, i) == ImpossibleAt(s, updates, now, i)
  {
    assert updates[..n][..i] == updates[..i];
  }

  /** The updates go through exactly when none is impossible at its turn. */
  lemma {:induction false} StopsExactly(s: Cluster, updates: seq<Report>, now: int)
    ensures AllApplied(s, updates, now) <==> forall i: nat :: i < |updates| ==> !ImpossibleAt(s, updates, now, i)
  {
    if updates != [] {
      var last := |updates| - 1;
      StopsExactly(s, updates[..last], now);
      forall i: nat | i < last ensures ImpossibleAt(s, updates[..last], now, i) == ImpossibleAt(s, updates, now, i) {
        ImpossibleInPrefix(s, updates, now, last, i);
      }
      ImpossibleIsBad(AfterUpdates(s, updates[..last], now), updates[last], now);
      assert ImpossibleAt(s, updates, now, last) <==>
          ReportOutcome(AfterUpdates(s, updates[..last], now), updates[last], now) == BadTransition;
    }
  }

  /** Each update is applied to what those before it left. */
  lemma EachIsApplied(s: Cluster, updates: seq<Report>, now: int, i: nat)
    requires i < |updates| && forall k: nat :: k < i ==> !ImpossibleAt(s, updates, now, k)
    ensures AfterUpdates(s, updates[..i + 1], now) == UpdateTaskStatus(AfterUpdates(s, updates[..i], now), updates[i], now)
  {
    PrefixApplied(s, updates, now, i);
    assert updates[..i + 1][..i] == updates[..i];
  }

  lemma PrefixApplied(s: Cluster, updates: seq<Report>, now: int, i: nat)
    requires i <= |updates| && forall k: nat :: k < i ==> !ImpossibleAt(s, updates, now, k)
    ensures AllApplied(s, updates[..i], now)
  {
    StopsExactly(s, updates[..i], now);
    forall k: nat | k < i ensures !ImpossibleAt(s, updates[..i], now, k) {
      ImpossibleInPrefix(s, updates, now, i, k);
    }
  }

  lemma ImpossibleIsBad(s: Cluster, r: Report, now: int)
    ensures ReportOutcome(s, r, now) == BadTransition <==> Impossible(s, r)
  {}

  /** The first impossible update ends it: what those before it did stays, what comes after is not looked at. */
  lemma FirstImpossibleEnds(s: Cluster, updates: seq<Report>, now: int, i: nat)
    requires i < |updates| && ImpossibleAt(s, updates, now, i) && forall k: nat :: k < i ==> !ImpossibleAt(s, updates, now, k)
    ensures !AllApplied(s, updates, now) && AfterUpdates(s, updates, now) == AfterUpdates(s, updates[..i], now)
  {
    PrefixApplied(s, updates, now, i);
    EachIsApplied(s, updates, now, i);
    assert updates[..i + 1][..i] == updates[..i];
    var before := AfterUpdates(s, updates[..i], now);
    ImpossibleIsBad(before, updates[i], now);
    assert before.tasks[updates[i].task := before.tasks[updates[i].task]] == before.tasks && before.events + [] == before.events;
    FailureStops(s, updates, now, i + 1);
  }

  class Server {
    const store: St.Store
    var lastSeen: map<NodeId, int>

    constructor (store: St.Store)
      ensures this.store == store && lastSeen == map[]
    {
      this.store := store;
      lastSeen := map[];
    }

    /** Register the node and record it as seen; false for a request that is not acceptable, or when the
        last-seen time cannot be recorded, although the node is then registered. */
    method RegisterNode(reg: Registration, now: int, stampFails: bool) returns (registered: bool)
      requires store.Valid()
      modifies this, store
      ensures store.Valid()
      ensures registered <==> RegistrationAccepted(reg) && !stampFails
      ensures !RegistrationAccepted(reg) ==> store.State() == old(store.State()) && lastSeen == old(lastSeen)
      ensures RegistrationAccepted(reg) ==>
                var found := ExistingNode(old(store.State()), reg);
                var id := if found.Some? then found.value else |old(store.nodes)|;
                && store.State() == ClusterState.RegisterNode(old(store.State()), reg)
                && lastSeen == if stampFails then old(lastSeen) else old(lastSeen)[id := now]
    {
      if reg.hostname == "" || reg.address == "" || reg.capacity.cpu <= 0 || reg.capacity.mem <= 0 {
        return false;
      }
      var node := store.RegisterNode(reg);
      if stampFails {
        return false;
      }
      lastSeen := lastSeen[node.id := now];
      return true;
    }

    /** A heartbeat under any epoch but the node's own leaves no trace, not even as a sign of life; nor does
        one whose sign of life cannot be recorded. Any other stamps the node as seen, applies its updates,
        makes a not-ready node ready, and answers with exactly the tasks that are scheduled on the node. */
    method Heartbeat(n: NodeId, epoch: int, updates: seq<Report>, now: int, stampFails: bool) returns (reply: Reply)
      requires store.Valid()
      modifies this, store
      ensures store.Valid()
      ensures reply == NotRegistered <==> n >= |old(store.nodes)|
      ensures reply == EpochInvalid <==> n < |old(store.nodes)| && epoch != old(store.nodes)[n].epoch
      ensures reply == StampFailed <==> n < |old(store.nodes)| && epoch == old(store.nodes)[n].epoch && stampFails
      ensures reply == NotRegistered || reply == EpochInvalid || reply == StampFailed ==>
                store.State() == old(store.State()) && lastSeen == old(lastSeen)
      ensures reply.UpdateFailed? || reply.NewAssignments? ==> lastSeen == old(lastSeen)[n := now]
      ensures reply.UpdateFailed? ==>
                !AllApplied(old(store.State()), updates, now) && store.State() == AfterUpdates(old(store.State()), updates, now)
      ensures reply.NewAssignments? ==>
                var updated := AfterUpdates(old(store.State()), updates, now);
                && AllApplied(old(store.State()), updates, now)
                && store.State() == (if old(store.nodes)[n].status == NotReady then UpdateNodeStatus(updated, n, Recover) else updated)
                && reply.tasks == ScheduledOn(store.tasks, n, |store.tasks|)
                && Answers(store.State(), n, reply.tasks)
    {
      if n >= |store.nodes| {
        return NotRegistered;
      }
      var node := store.nodes[n];
      if epoch != node.epoch {
        return EpochInvalid;
      }
      if stampFails {
        return StampFailed;
      }
      lastSeen := lastSeen[n := now];
      var ok := ApplyUpdates(updates, now);
      if !ok {
        return UpdateFailed;
      }
      if node.status == NotReady {
        var _ := store.UpdateNodeStatus(n, Recover);
      }
      var tasks := ListScheduled(n);
      ScheduledAnswers(store.State(), n);
      return NewAssignments(tasks);
    }

    /** Apply the bundled updates in order; false at the first that fails outright. */
    method ApplyUpdates(updates: seq<Report>, now: int) returns (ok: bool)
      requires store.Valid()
      modifies store
      ensures store.Valid()
      ensures ok <==> AllApplied(old(store.State()), updates, now)
      ensures store.State() == AfterUpdates(old(store.State()), updates, now)
    {
      ghost var s := store.State();
      for i := 0 to |updates|
        invariant store.Valid() && store.State() == AfterUpdates(s, updates[..i], now)
        invariant AllApplied(s, updates[..i], now)
      {
        assert updates[..i + 1][..i] == updates[..i];
        var outcome := store.UpdateTaskStatus(updates[i], now);
        if outcome == BadTransition {
          FailureStops(s, updates, now, i + 1);
          return false;
        }
      }
      assert updates[..|updates|] == updates;
      return true;
    }

    method ListScheduled(n: NodeId) returns (tasks: seq<Assignment>)
      ensures tasks == ScheduledOn(store.tasks, n, |store.tasks|)
    {
      tasks := [];
      for i := 0 to |store.tasks|
        invariant tasks == ScheduledOn(store.tasks, n, i)
      {
        if ScheduledHere(store.tasks[i], n) {
          tasks := Insert(store.tasks, tasks, AssignmentOf(store.tasks, i));
        }
      }
    }
  }

  /** Updates after a failed one are not looked at. */
  lemma {:induction false} FailureStops(s: Cluster, updates: seq<Report>, now: int, i: nat)
    requires i <= |updates| && !AllApplied(s, updates[..i], now)
    ensures !AllApplied(s, updates, now) && AfterUpdates(s, updates, now) == AfterUpdates(s, updates[..i], now)
  {
    if i == |updates| {
      assert updates[..i] == updates;
    } else {
      var shorter := updates[..|updates| - 1];
      assert shorter[..i] == updates[..i];
      FailureStops(s, shorter, now, i);
    }
  }
}
