/** What a scheduling tick has achieved when it commits. */
module Ticks {
  import opened Entities
  import opened Placement
  import opened Engine
  import opened ClusterState
  import opened RowInvariants

  lemma {:induction false} ChosenAt(reqs: seq<TaskRequest>, placed: seq<Option<nat>>, i: nat)
    requires |placed| <= |reqs| && i < |placed| && DistinctClaims(reqs)
    ensures Chosen(reqs, placed, reqs[i].id) == placed[i]
  {
    if i < |placed| - 1 {
      ChosenAt(reqs, placed[..|placed| - 1], i);
    }
  }

  /** A claimed task that is pending after the commit fits none of the ready, label-matching nodes the
      tick read, even under the reservations the batch ended with; one that is not pending is scheduled
      on a node the tick read as ready, that matches its labels, under the epoch the tick read. */
  lemma TickMaximal(s: Cluster, r: Replica, now: int, i: nat)
    requires Inv(s) && ReadyToCommit(s, r) && i < |s.ticks[r].reqs|
    ensures var tick := s.ticks[r];
            var req, nodes := tick.reqs[i], tick.nodes.value;
            var final := PendingAlloc(nodes, tick.allocs.value, tick.reqs, Placements(tick));
            && req.id < |CommitTick(s, r, now).tasks|
            && var row := CommitTick(s, r, now).tasks[req.id];
               if row.status == Pending
               then forall k :: 0 <= k < |nodes| ==> !Admits(nodes[k], final, req)
               else
                 && row.status == Scheduled
                 && exists k :: 0 <= k < |nodes| && row.assignedNode == Some(nodes[k].id) && row.assignedEpoch == Some(nodes[k].epoch)
                                && nodes[k].status == Ready && Carries(nodes[k], req.constraints)
  {
    var tick := s.ticks[r];
    CommitEffect(s, r, now);
    assert TickOk(s, tick);
    ChosenAt(tick.reqs, Placements(tick), i);
    assert ClaimOk(s, tick.reqs[i]);
    forall j | 0 <= j < |tick.reqs| ensures NOTHING.AtMost(tick.reqs[j].request) {
      assert ClaimOk(s, tick.reqs[j]);
    }
    BatchMaximal(tick.nodes.value, tick.allocs.value, tick.reqs, i);
  }
}
