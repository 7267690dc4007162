/** A scheduling tick with nothing in between: what it claims, what it reads, and what it has achieved
    for the rows when it is over. */
module WholeTicks {
  import opened Entities
  import opened Placement
  import opened Engine
  import opened ClusterState
  import opened RowInvariants
  import Capacity
  import Ticks

  // ---------- what is claimed ----------

  /** The claimable rows among the first `k`, oldest first, at most `limit` of them: only pending rows whose
      retry time has come. */
  function DueIds(tasks: seq<Task>, jobs: nat, now: int, limit: nat, k: nat): (ids: seq<TaskId>)
    requires k <= |tasks|
    ensures |ids| <= limit
    ensures forall i :: 0 <= i < |ids| ==>
                          && ids[i] < k && tasks[ids[i]].job < jobs && tasks[ids[i]].status == Pending
                          && (tasks[ids[i]].nextRetryAt.None? || tasks[ids[i]].nextRetryAt.value <= now)
    ensures forall i, j :: 0 <= i < j < |ids| ==> ids[i] < ids[j]
  {
    if k == 0 then []
    else
      var before := DueIds(tasks, jobs, now, limit, k - 1);
      var t := tasks[k - 1];
      if |before| < limit && t.status == Pending && Due(t, now) && t.job < jobs then before + [k - 1] else before
  }

  /** Every such row is among them, unless `limit` older ones were found. */
  lemma {:induction false} NoneMissed(tasks: seq<Task>, jobs: nat, now: int, limit: nat, k: nat, t: TaskId)
    requires t < k <= |tasks| && tasks[t].job < jobs && tasks[t].status == Pending
    requires tasks[t].nextRetryAt.None? || tasks[t].nextRetryAt.value <= now
    ensures var ids := DueIds(tasks, jobs, now, limit, k);
            t in ids || (|ids| == limit && forall i :: 0 <= i < |ids| ==> ids[i] < t)
  {
    if t < k - 1 {
      NoneMissed(tasks, jobs, now, limit, k - 1, t);
    }
  }

  /** The rows that are due, in columns. */
  ghost function DueRows(s: Cluster, now: int): set<TaskId> {
    set t: TaskId | t < |s.tasks| && s.tasks[t].status == Pending
                    && (s.tasks[t].nextRetryAt.None? || s.tasks[t].nextRetryAt.value <= now)
  }

  ghost function Members(ids: seq<TaskId>): set<TaskId> {
    set t | t in ids
  }

  lemma MembersNext(rest: seq<TaskId>, last: TaskId)
    requires last !in rest
    ensures |Members(rest + [last])| == |Members(rest)| + 1
  {
    assert Members(rest + [last]) == Members(rest) + {last};
  }

  lemma {:induction false} MembersCount(ids: seq<TaskId>)
    requires forall i, j :: 0 <= i < j < |ids| ==> ids[i] < ids[j]
    ensures |Members(ids)| == |ids|
  {
    if ids == [] {
      assert Members(ids) == {};
    } else {
      var rest, last := ids[..|ids| - 1], ids[|ids| - 1];
      MembersCount(rest);
      assert ids == rest + [last];
      MembersNext(rest, last);
    }
  }

  lemma {:induction false} PartIsSmaller(a: set<TaskId>, b: set<TaskId>)
    requires a <= b
    ensures |a| <= |b|
  {
    if a != {} {
      var x :| x in a;
      PartIsSmaller(a - {x}, b - {x});
    }
  }

  lemma OneTooMany(ids: seq<TaskId>, t: TaskId, due: set<TaskId>)
    requires forall i, j :: 0 <= i < j < |ids| ==> ids[i] < ids[j]
    requires forall i :: 0 <= i < |ids| ==> ids[i] in due
    requires t in due && t !in ids
    ensures |due| > |ids|
  {
    MembersCount(ids);
    PartIsSmaller(Members(ids), due - {t});
  }

  /** When at most `limit` rows are due, all of them are claimed. */
  lemma AllDueClaimed(s: Cluster, now: int, limit: nat, t: TaskId)
    requires Inv(s) && |DueRows(s, now)| <= limit && t in DueRows(s, now)
    ensures t in DueIds(s.tasks, |s.jobs|, now, limit, |s.tasks|)
  {
    assert TaskOk(s.nodes, s.jobs, s.tasks[t]);
    var ids := DueIds(s.tasks, |s.jobs|, now, limit, |s.tasks|);
    NoneMissed(s.tasks, |s.jobs|, now, limit, |s.tasks|, t);
    if t !in ids {
      OneTooMany(ids, t, DueRows(s, now));
    }
  }

  /** What a claim of at most `limit` rows comes to, in columns: pending rows whose retry time has come, oldest
      first, each with what its job asks for; and every such row, unless `limit` older ones were found. */
  ghost predicate OldestDue(s: Cluster, limit: nat, now: int, reqs: seq<TaskRequest>) {
    match s
    case Cluster(_, jobs, tasks, _, _, _) =>
      && |reqs| <= limit
      && (forall i, j :: 0 <= i < j < |reqs| ==> reqs[i].id < reqs[j].id)
      && (forall i :: 0 <= i < |reqs| ==>
                        && reqs[i].id in DueRows(s, now) && tasks[reqs[i].id].job < |jobs|
                        && var job := jobs[tasks[reqs[i].id].job];
                           reqs[i] == TaskRequest(reqs[i].id, job.request, job.policy, job.constraints))
      && (forall t :: t in DueRows(s, now) && tasks[t].job < |jobs| ==>
                        || (exists i :: 0 <= i < |reqs| && reqs[i].id == t)
                        || (|reqs| == limit && forall i :: 0 <= i < |reqs| ==> reqs[i].id < t))
  }

  /** The requests are those of the rows `ids`, in order. */
  ghost predicate AreFor(s: Cluster, ids: seq<TaskId>, reqs: seq<TaskRequest>) {
    match s
    case Cluster(_, jobs, tasks, _, _, _) =>
      && |reqs| == |ids|
      && forall i :: 0 <= i < |ids| ==> ids[i] < |tasks| && tasks[ids[i]].job < |jobs| && reqs[i] == RequestFor(s, ids[i])
  }

  /** What has been claimed after the first `i` rows. */
  ghost predicate ClaimedUpTo(s: Cluster, limit: nat, now: int, i: nat, reqs: seq<TaskRequest>)
    requires i <= |s.tasks|
  {
    AreFor(s, DueIds(s.tasks, |s.jobs|, now, limit, i), reqs)
  }

  /** One more row is claimed if it is pending and due and there is room. */
  lemma ClaimNext(s: Cluster, limit: nat, now: int, i: nat, reqs: seq<TaskRequest>)
    requires i < |s.tasks| && ClaimedUpTo(s, limit, now, i, reqs)
    ensures var t := s.tasks[i];
            if |reqs| < limit && t.status == Pending && (t.nextRetryAt.None? || t.nextRetryAt.value <= now) && t.job < |s.jobs|
            then ClaimedUpTo(s, limit, now, i + 1, reqs + [RequestFor(s, i)])
            else ClaimedUpTo(s, limit, now, i + 1, reqs)
  {}

  lemma DueIdsComplete(s: Cluster, limit: nat, now: int, reqs: seq<TaskRequest>, t: TaskId)
    requires AreFor(s, DueIds(s.tasks, |s.jobs|, now, limit, |s.tasks|), reqs)
    requires t in DueRows(s, now) && s.tasks[t].job < |s.jobs|
    ensures || (exists i :: 0 <= i < |reqs| && reqs[i].id == t)
            || (|reqs| == limit && forall i :: 0 <= i < |reqs| ==> reqs[i].id < t)
  {
    var ids := DueIds(s.tasks, |s.jobs|, now, limit, |s.tasks|);
    NoneMissed(s.tasks, |s.jobs|, now, limit, |s.tasks|, t);
    if t in ids {
      var i :| 0 <= i < |ids| && ids[i] == t;
      assert reqs[i].id == t;
    }
  }

  lemma DueIdsAreOldest(s: Cluster, limit: nat, now: int, reqs: seq<TaskRequest>)
    requires AreFor(s, DueIds(s.tasks, |s.jobs|, now, limit, |s.tasks|), reqs)
    ensures OldestDue(s, limit, now, reqs)
  {
    var ids := DueIds(s.tasks, |s.jobs|, now, limit, |s.tasks|);
    forall i | 0 <= i < |reqs| ensures reqs[i].id == ids[i] && reqs[i].id in DueRows(s, now) {}
    forall t | t in DueRows(s, now) && s.tasks[t].job < |s.jobs|
      ensures || (exists i :: 0 <= i < |reqs| && reqs[i].id == t)
              || (|reqs| == limit && forall i :: 0 <= i < |reqs| ==> reqs[i].id < t)
    {
      DueIdsComplete(s, limit, now, reqs, t);
    }
  }

  // ---------- what is written ----------

  /** A tick that nothing interleaves with. */
  ghost function WholeTick(s: Cluster, ids: seq<TaskId>, now: int): Cluster
    requires forall i :: 0 <= i < |ids| ==> ids[i] < |s.tasks| && s.tasks[ids[i]].job < |s.jobs|
  {
    CommitTick(ReadAllocations(ReadNodes(Claim(s, 0, ids), 0), 0), 0, now)
  }

  /** The claim of an undisturbed tick is possible, and so are its writes. */
  lemma TickClaims(s: Cluster, ids: seq<TaskId>, reqs: seq<TaskRequest>, now: int)
    requires Inv(s) && s.ticks == map[] && s.deaths == map[]
    requires ids == DueIds(s.tasks, |s.jobs|, now, CLAIM_LIMIT, |s.tasks|) && ids != []
    requires |reqs| == |ids| && forall i :: 0 <= i < |ids| ==> reqs[i] == RequestFor(s, ids[i])
    ensures Enabled(s, ClaimStep(0, ids, now))
    ensures Claim(s, 0, ids).ticks == map[0 := ClusterState.Tick(reqs, None, None)]
    ensures var active, allocs := ActiveNodes(s.nodes, |s.nodes|), Allocations(s);
            var tick := s.(ticks := map[0 := ClusterState.Tick(reqs, Some(active), Some(allocs))]);
            && tick == ReadAllocations(ReadNodes(Claim(s, 0, ids), 0), 0)
            && Inv(tick)
            && Assignable(s, reqs, active)
  {
    assert forall t :: !Locked(s, t);
    var s1 := Claim(s, 0, ids);
    ClaimKeepsInv(s, 0, ids, now);
    assert s1.ticks[0].reqs == reqs;
    TickReads(s1, 0, reqs);
    var s3 := ReadAllocations(ReadNodes(s1, 0), 0);
    TickAssignable(s3, 0);
    assert CloseTick(s3, 0) == s;
  }

  lemma AllocationsIgnoreTicks(s: Cluster, ticks: map<Replica, ClusterState.Tick>)
    ensures Allocations(s.(ticks := ticks)) == Allocations(s)
  {}

  lemma BothReads(s: Cluster, r: Replica, reqs: seq<TaskRequest>)
    requires s.ticks == map[r := ClusterState.Tick(reqs, None, None)]
    ensures ReadAllocations(ReadNodes(s, r), r)
            == s.(ticks := s.ticks[r := ClusterState.Tick(reqs, Some(ActiveNodes(s.nodes, |s.nodes|)), Some(Allocations(s)))])
  {
    AllocationsIgnoreTicks(s, ReadNodes(s, r).ticks);
  }

  lemma TickReads(s: Cluster, r: Replica, reqs: seq<TaskRequest>)
    requires Inv(s) && s.ticks == map[r := ClusterState.Tick(reqs, None, None)]
    ensures var s' := ReadAllocations(ReadNodes(s, r), r);
            && Inv(s')
            && s' == s.(ticks := map[r := ClusterState.Tick(reqs, Some(ActiveNodes(s.nodes, |s.nodes|)), Some(Allocations(s)))])
  {
    var tick := ClusterState.Tick(reqs, Some(ActiveNodes(s.nodes, |s.nodes|)), Some(Allocations(s)));
    BothReads(s, r, reqs);
    assert s.ticks[r := tick] == map[r := tick];
    ActiveNodesOk(s);
    ReadKeepsInv(s, r, tick);
  }

  // ---------- what has been achieved ----------

  /** The row was due, and is what it was but for its assignment: now, to a node that is ready and carries the
      labels that its job asks for, under the epoch which that node has. */
  ghost predicate Assigned(s: Cluster, t: TaskId, row: Task, now: int) {
    && t in DueRows(s, now) && s.tasks[t].job < |s.jobs|
    && row.assignedNode.Some? && row.assignedNode.value < |s.nodes|
    && var node := s.nodes[row.assignedNode.value];
       && node.status == Ready && Carries(node, s.jobs[s.tasks[t].job].constraints)
       && row == s.tasks[t].(status := Scheduled, assignedNode := row.assignedNode, assignedEpoch := Some(node.epoch),
                             scheduledAt := Some(now))
  }

  /** No node at all would take the task beside what its scheduled and running tasks ask for. */
  ghost predicate FitsNowhere(s: Cluster, t: TaskId) {
    && t < |s.tasks| && s.tasks[t].job < |s.jobs|
    && var job := s.jobs[s.tasks[t].job];
       forall n: NodeId :: n < |s.nodes| ==>
                             !CanTake(s.nodes[n], Allocation(s.jobs, s.tasks, n),
                                      TaskRequest(t, job.request, job.policy, job.constraints))
  }

  /** What a tick has achieved: rows change only by being assigned, and when at most 50 were due, those that
      were and are still pending fit nowhere. */
  ghost predicate TickDone(s: Cluster, s': Cluster, now: int) {
    && s' == s.(tasks := s'.tasks, events := s'.events) && |s'.tasks| == |s.tasks|
    && (forall t: TaskId :: t < |s.tasks| ==> s'.tasks[t] == s.tasks[t] || Assigned(s, t, s'.tasks[t], now))
    && (|DueRows(s, now)| <= 50 ==>
          forall t: TaskId :: t in DueRows(s, now) && s'.tasks[t].status == Pending ==> FitsNowhere(s', t))
  }

  /** The tick is about to commit on what the tables say at that moment. */
  ghost predicate UpToDate(s: Cluster, r: Replica) {
    && Inv(s) && ReadyToCommit(s, r)
    && s.ticks[r].nodes == Some(ActiveNodes(s.nodes, |s.nodes|)) && s.ticks[r].allocs == Some(Allocations(s))
  }

  /** Its reservations are then those of the rows after the commit. */
  lemma ReservationsAreRows(s: Cluster, r: Replica, now: int, n: NodeId)
    requires UpToDate(s, r) && n < |s.nodes|
    ensures var s' := CommitTick(s, r, now);
            Capacity.FinalReservation(s.ticks[r], n).Same(Allocation(s'.jobs, s'.tasks, n))
  {
    CommitEffect(s, r, now);
    Capacity.CachedAccounting(s, r, now, n);
    Capacity.AllocationsMeaning(CommitTick(s, r, now), n);
  }

  lemma NotTaken(s: Cluster, r: Replica, now: int, i: nat, n: NodeId)
    requires UpToDate(s, r) && i < |s.ticks[r].reqs| && n < |s.nodes|
    requires var t := s.ticks[r].reqs[i].id;
             t < |CommitTick(s, r, now).tasks| && CommitTick(s, r, now).tasks[t].status == Pending
    ensures var s' := CommitTick(s, r, now);
            !CanTake(s.nodes[n], Allocation(s'.jobs, s'.tasks, n), s.ticks[r].reqs[i])
  {
    assert NodeOk(s.nodes[n], n);
    if s.nodes[n].status == Ready {
      ActiveNodesOk(s);
      Ticks.TickMaximal(s, r, now, i);
      ReservationsAreRows(s, r, now, n);
      NodeListed(s, n);
    }
  }

  lemma NodeListed(s: Cluster, n: NodeId)
    requires Inv(s) && n < |s.nodes| && s.nodes[n].status == Ready
    ensures exists k :: 0 <= k < |ActiveNodes(s.nodes, |s.nodes|)| && ActiveNodes(s.nodes, |s.nodes|)[k] == s.nodes[n]
  {
    assert forall i :: 0 <= i < |s.nodes| ==> NodeOk(s.nodes[i], i);
    ActiveNodesAre(s.nodes, |s.nodes|);
  }

  /** A claimed row after the commit: assigned as it should be, or pending as it was. */
  lemma ClaimedRow(s: Cluster, r: Replica, now: int, i: nat, s': Cluster, t: TaskId)
    requires UpToDate(s, r) && i < |s.ticks[r].reqs| && s.ticks[r].reqs[i].id == t && s' == CommitTick(s, r, now)
    requires t in DueRows(s, now)
    ensures t < |s'.tasks| && (s'.tasks[t] == s.tasks[t] || Assigned(s, t, s'.tasks[t], now))
  {
    var tick := s.ticks[r];
    CommitEffect(s, r, now);
    Ticks.TickMaximal(s, r, now, i);
    Ticks.ChosenAt(tick.reqs, Placements(tick), i);
    assert TickOk(s, tick) && ClaimOk(s, tick.reqs[i]);
    ListedAsTheyAre(s);
  }

  lemma ListedAsTheyAre(s: Cluster)
    requires Inv(s)
    ensures forall k :: 0 <= k < |ActiveNodes(s.nodes, |s.nodes|)| ==>
                          var node := ActiveNodes(s.nodes, |s.nodes|)[k];
                          node.id < |s.nodes| && node == s.nodes[node.id]
  {
    assert forall k :: 0 <= k < |s.nodes| ==> NodeOk(s.nodes[k], k);
    ActiveNodesAre(s.nodes, |s.nodes|);
  }

  lemma UnclaimedRow(s: Cluster, r: Replica, now: int, t: TaskId)
    requires Inv(s) && ReadyToCommit(s, r) && t < |s.tasks|
    requires forall i :: 0 <= i < |s.ticks[r].reqs| ==> s.ticks[r].reqs[i].id != t
    ensures t < |CommitTick(s, r, now).tasks| && CommitTick(s, r, now).tasks[t] == s.tasks[t]
  {
    CommitEffect(s, r, now);
    ChosenOther(s.ticks[r].reqs, Placements(s.ticks[r]), t);
  }

  lemma StillPendingFitsNowhere(s: Cluster, r: Replica, now: int, i: nat)
    requires UpToDate(s, r) && i < |s.ticks[r].reqs|
    requires var t := s.ticks[r].reqs[i].id;
             t < |CommitTick(s, r, now).tasks| && CommitTick(s, r, now).tasks[t].status == Pending
    ensures FitsNowhere(CommitTick(s, r, now), s.ticks[r].reqs[i].id)
  {
    var s' := CommitTick(s, r, now);
    var req := s.ticks[r].reqs[i];
    CommitEffect(s, r, now);
    assert TickOk(s, s.ticks[r]) && ClaimOk(s, req);
    assert s'.tasks[req.id].job == s.tasks[req.id].job;
    forall n: NodeId | n < |s'.nodes|
      ensures !CanTake(s'.nodes[n], Allocation(s'.jobs, s'.tasks, n), req)
    {
      NotTaken(s, r, now, i, n);
    }
  }

  lemma NoneDue(s: Cluster, now: int)
    requires Inv(s) && DueIds(s.tasks, |s.jobs|, now, CLAIM_LIMIT, |s.tasks|) == [] && |DueRows(s, now)| <= CLAIM_LIMIT
    ensures DueRows(s, now) == {}
  {
    if t :| t in DueRows(s, now) {
      AllDueClaimed(s, now, CLAIM_LIMIT, t);
    }
  }

  lemma NothingClaimed(s: Cluster, now: int)
    requires Inv(s) && DueIds(s.tasks, |s.jobs|, now, CLAIM_LIMIT, |s.tasks|) == []
    ensures TickDone(s, s, now)
  {
    if |DueRows(s, now)| <= CLAIM_LIMIT {
      NoneDue(s, now);
    }
  }

  lemma ClaimedRowDone(s: Cluster, open: Cluster, now: int, i: nat, t: TaskId)
    requires open == s.(ticks := open.ticks) && UpToDate(open, 0) && i < |open.ticks[0].reqs| && open.ticks[0].reqs[i].id == t
    requires t in DueRows(s, now)
    ensures RowDone(s, CommitTick(open, 0, now), now, t)
  {
    ClaimedRow(open, 0, now, i, CommitTick(open, 0, now), t);
    if CommitTick(open, 0, now).tasks[t].status == Pending {
      StillPendingFitsNowhere(open, 0, now, i);
    }
  }

  /** The row is as it was or assigned, and if it is still pending fits nowhere. */
  ghost predicate RowDone(s: Cluster, s': Cluster, now: int, t: TaskId)
    requires t < |s.tasks|
  {
    && t < |s'.tasks|
    && (s'.tasks[t] == s.tasks[t] || Assigned(s, t, s'.tasks[t], now))
    && (s'.tasks[t].status == Pending ==> FitsNowhere(s', t))
  }

  lemma AnyRowDone(s: Cluster, open: Cluster, ids: seq<TaskId>, now: int, t: TaskId)
    requires Inv(s) && open == s.(ticks := open.ticks) && UpToDate(open, 0) && Ids(open.ticks[0].reqs) == ids && t < |s.tasks|
    requires ids == DueIds(s.tasks, |s.jobs|, now, CLAIM_LIMIT, |s.tasks|)
    ensures var s' := CommitTick(open, 0, now);
            && t < |s'.tasks|
            && (s'.tasks[t] == s.tasks[t] || Assigned(s, t, s'.tasks[t], now))
            && (|DueRows(s, now)| <= CLAIM_LIMIT && t in DueRows(s, now) ==> RowDone(s, s', now, t))
  {
    if t in ids {
      var i :| 0 <= i < |ids| && ids[i] == t;
      ClaimedRowDone(s, open, now, i, t);
    } else {
      UnclaimedRow(open, 0, now, t);
      if |DueRows(s, now)| <= CLAIM_LIMIT && t in DueRows(s, now) {
        AllDueClaimed(s, now, CLAIM_LIMIT, t);
      }
    }
  }

  lemma CommitDone(s: Cluster, open: Cluster, ids: seq<TaskId>, now: int)
    requires Inv(s) && s.ticks == map[] && open == s.(ticks := open.ticks) && open.ticks.Keys == {0}
    requires UpToDate(open, 0) && Ids(open.ticks[0].reqs) == ids
    requires ids == DueIds(s.tasks, |s.jobs|, now, CLAIM_LIMIT, |s.tasks|)
    ensures TickDone(s, CommitTick(open, 0, now), now)
  {
    var s' := CommitTick(open, 0, now);
    CommitEffect(open, 0, now);
    assert s'.ticks == map[];
    forall t: TaskId | t < |s.tasks|
      ensures s'.tasks[t] == s.tasks[t] || Assigned(s, t, s'.tasks[t], now)
      ensures |DueRows(s, now)| <= 50 && t in DueRows(s, now) && s'.tasks[t].status == Pending ==> FitsNowhere(s', t)
    {
      AnyRowDone(s, open, ids, now, t);
    }
  }

  /** An undisturbed tick changes rows only by assigning due ones, as it should; and of up to 50 due rows those
      that it leaves pending would fit no node, whatever its state, beside what is on it when the tick is over. */
  lemma WholeTickDone(s: Cluster, ids: seq<TaskId>, now: int)
    requires Inv(s) && s.ticks == map[] && s.deaths == map[]
    requires ids == DueIds(s.tasks, |s.jobs|, now, CLAIM_LIMIT, |s.tasks|) && ids != []
    ensures TickDone(s, WholeTick(s, ids, now), now)
  {
    var reqs := seq(|ids|, i requires 0 <= i < |ids| => RequestFor(s, ids[i]));
    TickClaims(s, ids, reqs, now);
    var open := ReadAllocations(ReadNodes(Claim(s, 0, ids), 0), 0);
    AllocationsIgnoreTicks(s, open.ticks);
    assert Ids(reqs) == ids;
    CommitDone(s, open, ids, now);
  }
}
