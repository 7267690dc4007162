/** The failure detector over time: what it is bound to notice, and what it is bound to spare. */
module Liveness {
  import opened Entities
  import opened ClusterState
  import opened RowInvariants
  import opened D = Detector
  import opened Handlers

  // ---------- which steps write a node's row ----------

  /** The step registers node `n` again. */
  predicate Reregisters(s: Cluster, a: ClusterState.Step, n: NodeId) {
    a.RegisterNodeStep? && RegistrationAccepted(a.reg) && ExistingNode(s, a.reg) == Some(n)
  }

  /** What a step makes of a node row, unless it registers the node again. */
  lemma NodeRowAfter(s: Cluster, a: ClusterState.Step, n: NodeId)
    requires Inv(s) && ClusterState.Enabled(s, a) && n < |s.nodes| && !Reregisters(s, a, n)
    ensures n < |ClusterState.Apply(s, a).nodes|
    ensures ClusterState.Apply(s, a).nodes[n] ==
            if a == FinishDeathStep(n) then s.nodes[n].(status := Dead, epoch := s.nodes[n].epoch + 1)
            else if a.UpdateNodeStatusStep? && a.node == n then s.nodes[n].(status := NewStatus(a.change))
            else s.nodes[n]
  {
    if a.FinishDeathStep? {
      FinishDeathEffect(s, a.node);
    } else if a.CommitTickStep? {
      CommitEffect(s, a.replica, a.now);
    }
  }

  predicate RegistersAgain(w: World, a: Action, n: NodeId) {
    a.Other? && Reregisters(w.cluster, a.step, n)
  }

  predicate TargetIs(w: World, h: HandlerId, n: NodeId) {
    h in w.handlers && HasTarget(w.handlers[h]) && Target(w.handlers[h]).id == n
  }

  /** What an action makes of a node row, unless it registers the node again. */
  lemma RowAfterAct(c: Config, w: World, a: Action, n: NodeId)
    requires Ok(w) && Possible(w, a) && n < |w.cluster.nodes| && !RegistersAgain(w, a, n)
    ensures n < |Act(c, w, a).cluster.nodes|
    ensures Act(c, w, a).cluster.nodes[n] ==
            if a.FinishKill? && TargetIs(w, a.h, n) then w.cluster.nodes[n].(status := Dead, epoch := w.cluster.nodes[n].epoch + 1)
            else if a.Write? && TargetIs(w, a.h, n) then w.cluster.nodes[n].(status := NewStatus(Change(w.handlers[a.h])))
            else w.cluster.nodes[n]
  {
    ActIsStep(w, a);
    if StepOf(w, a).Some? {
      NodeRowAfter(w.cluster, StepOf(w, a).value, n);
    }
  }

  // ---------- completeness ----------

  /** The action leaves `n` silent and the detector at work: nothing records `n` as seen or registers it
      again; a poll that gets to `n` can read its last-seen time, and its calls for `n` go through; and
      the only status writes to `n` are of a live node, between ready and not ready. */
  ghost predicate LeavesSilent(w: World, a: Action, n: NodeId) {
    match a
    case Seed(m) => m != n
    case Stamp(h) => !TargetIs(w, h, n)
    case Look(h, readable) => TargetIs(w, h, n) ==> readable
    case Fail(h) => TargetIs(w, h, n) ==> !w.handlers[h].Poll?
    case Write(h) => TargetIs(w, h, n) && n < |w.cluster.nodes| ==>
      w.cluster.nodes[n].status != Dead && Change(w.handlers[h]) != Cordon
    case Other(step) => !Reregisters(w.cluster, step, n)
    case _ => true
  }

  /** The poll has yet to deal with `n`, and is not about to merely downgrade it. */
  ghost predicate Awaits(hd: Handler, n: NodeId)
    requires hd.Poll?
  {
    exists i: nat :: hd.next <= i < |hd.nodes| && hd.nodes[i].id == n && (i == hd.next ==> hd.stage != Writing)
  }

  ghost predicate PollsAwait(w: World, n: NodeId, deadline: int) {
    forall h :: h in w.handlers && w.handlers[h].Poll? && w.handlers[h].since >= deadline ==> Awaits(w.handlers[h], n)
  }

  /** `n` was last seen at `t` or before; it is dead, or still watched: then no poll that began at or after
      the deadline is through, and each that is under way has yet to deal with `n`. */
  ghost predicate Overdue(w: World, n: NodeId, t: int, deadline: int) {
    && n < |w.cluster.nodes|
    && (n in w.lastSeen ==> w.lastSeen[n] <= t)
    && w.now >= t
    && (w.cluster.nodes[n].status == Dead ||
        (Watched(w.cluster.nodes[n]) && w.lastPoll < deadline && PollsAwait(w, n, deadline)))
  }

  /** A poll that looks at a silent node after the deadline condemns it. */
  lemma LooksCondemn(c: Config, w: World, h: HandlerId, n: NodeId, t: int)
    requires Ok(w) && AtStage(w, h, Looking) && w.handlers[h].Poll? && TargetIs(w, h, n)
    requires (n in w.lastSeen ==> w.lastSeen[n] <= t) && c.deadAfter <= MAX_DURATION
    requires w.handlers[h].since >= t + c.deadAfter
    ensures Looked(c, w, h, true) == w.handlers[h := WithStage(w.handlers[h], Condemned)]
  {
    assert HandlerOk(w, w.handlers[h]);
  }

  /** The poll that acts still awaits `n`, unless it has just killed it. */
  lemma ActorAwaits(c: Config, w: World, a: Action, h: HandlerId, n: NodeId, t: int)
    requires Ok(w) && Possible(w, a) && LeavesSilent(w, a, n) && Overdue(w, n, t, t + c.deadAfter)
    requires c.deadAfter <= MAX_DURATION && w.cluster.nodes[n].status != Dead && Actor(a) == Some(h)
    requires h in HandlersAfter(c, w, a) && HandlersAfter(c, w, a)[h].Poll? && HandlersAfter(c, w, a)[h].since >= t + c.deadAfter
    requires !(a.FinishKill? && TargetIs(w, h, n))
    ensures Awaits(HandlersAfter(c, w, a)[h], n)
  {
    if a.ReadList? {
      WatchlistIs(w.cluster);
      var k :| 0 <= k < |Watchlist(w.cluster)| && Watchlist(w.cluster)[k].id == n;
    } else {
      var hd := w.handlers[h];
      assert HandlerOk(w, hd);
      assert Awaits(hd, n);
      var i: nat :| hd.next <= i < |hd.nodes| && hd.nodes[i].id == n && (i == hd.next ==> hd.stage != Writing);
      if a.Look? && i == hd.next {
        LooksCondemn(c, w, h, n, t);
      }
      var hd' := HandlersAfter(c, w, a)[h];
      assert hd'.nodes == hd.nodes && hd'.next <= i;
    }
  }

  lemma ActKeepsAwaiting(c: Config, w: World, a: Action, n: NodeId, t: int)
    requires Ok(w) && Possible(w, a) && LeavesSilent(w, a, n) && Overdue(w, n, t, t + c.deadAfter)
    requires c.deadAfter <= MAX_DURATION && w.cluster.nodes[n].status != Dead
    requires !(a.FinishKill? && TargetIs(w, a.h, n))
    ensures PollsAwait(Act(c, w, a), n, t + c.deadAfter)
  {
    var hs := HandlersAfter(c, w, a);
    forall h | h in hs && hs[h].Poll? && hs[h].since >= t + c.deadAfter ensures Awaits(hs[h], n) {
      if Actor(a) == Some(h) {
        ActorAwaits(c, w, a, h, n, t);
      } else {
        OthersStay(c, w, a, h);
      }
    }
  }

  lemma ActKeepsOverdue(c: Config, w: World, a: Action, n: NodeId, t: int)
    requires Ok(w) && Possible(w, a) && LeavesSilent(w, a, n)
    requires c.deadAfter <= MAX_DURATION && Overdue(w, n, t, t + c.deadAfter)
    ensures Overdue(Act(c, w, a), n, t, t + c.deadAfter)
  {
    RowAfterAct(c, w, a, n);
    if w.cluster.nodes[n].status != Dead && !(a.FinishKill? && TargetIs(w, a.h, n)) {
      ActKeepsAwaiting(c, w, a, n, t);
      if a.EndPoll? {
        assert HandlerOk(w, w.handlers[a.h]);
      }
    }
  }

  lemma {:induction false} StaysOverdue(c: Config, h: History, i: nat, k: nat, n: NodeId, t: int)
    requires IsHistory(c, h) && i <= k < |h.worlds| && c.deadAfter <= MAX_DURATION
    requires Overdue(h.worlds[i], n, t, t + c.deadAfter)
    requires forall x: nat :: i <= x < k ==> LeavesSilent(h.worlds[x], h.actions[x], n)
    ensures Overdue(h.worlds[k], n, t, t + c.deadAfter)
  {
    if i < k {
      StaysOverdue(c, h, i, k - 1, n, t);
      HistoryOk(c, h, k - 1);
      assert ActAt(c, h, k - 1);
      ActKeepsOverdue(c, h.worlds[k - 1], h.actions[k - 1], n, t);
    }
  }

  /** An active node that has been silent since `worlds[i]` is dead by DeadAfter + P later, where P is how
      long ago the latest completed poll may have begun: whenever that much time has passed, and however
      the polls of any number of replicas, heartbeats, the autoscaler and the other transactions
      interleave. */
  lemma DetectorCompleteness(c: Config, h: History, i: nat, j: nat, n: NodeId, P: nat)
    requires IsHistory(c, h) && i <= j < |h.worlds| && 0 < c.deadAfter <= MAX_DURATION
    requires n < |h.worlds[i].cluster.nodes| && Watched(h.worlds[i].cluster.nodes[n])
    requires n in h.worlds[i].lastSeen ==> h.worlds[i].lastSeen[n] <= h.worlds[i].now
    requires h.worlds[i].lastPoll <= h.worlds[i].now
    requires forall x: nat :: i <= x < j ==> LeavesSilent(h.worlds[x], h.actions[x], n)
    requires h.worlds[j].now >= h.worlds[i].now + c.deadAfter + P
    requires h.worlds[j].now - h.worlds[j].lastPoll <= P
    ensures n < |h.worlds[j].cluster.nodes| && h.worlds[j].cluster.nodes[n].status == Dead
  {
    HistoryOk(c, h, i);
    assert forall x :: x in h.worlds[i].handlers ==> HandlerOk(h.worlds[i], h.worlds[i].handlers[x]);
    StaysOverdue(c, h, i, j, n, h.worlds[i].now);
  }

  /** With the default thresholds, and a completed poll that began at most a poll interval ago, 3.5
      heartbeat intervals suffice. */
  lemma DefaultDetectionTime(interval: nat, h: History, i: nat, j: nat, n: NodeId)
    requires var c := DefaultConfig(interval);
             && IsHistory(c, h) && 0 < c.deadAfter <= MAX_DURATION
             && i <= j < |h.worlds| && h.worlds[j].now - h.worlds[j].lastPoll <= c.pollInterval
    requires n < |h.worlds[i].cluster.nodes| && Watched(h.worlds[i].cluster.nodes[n])
    requires n in h.worlds[i].lastSeen ==> h.worlds[i].lastSeen[n] <= h.worlds[i].now
    requires h.worlds[i].lastPoll <= h.worlds[i].now
    requires forall x: nat :: i <= x < j ==> LeavesSilent(h.worlds[x], h.actions[x], n)
    requires 2 * (h.worlds[j].now - h.worlds[i].now) >= 7 * interval
    ensures n < |h.worlds[j].cluster.nodes| && h.worlds[j].cluster.nodes[n].status == Dead
  {
    DetectorCompleteness(DefaultConfig(interval), h, i, j, n, DefaultConfig(interval).pollInterval);
  }

  // ---------- accuracy ----------

  function AgeOf(w: World, n: NodeId): int {
    if n in w.lastSeen then w.now - w.lastSeen[n] else MAX_DURATION
  }

  /** The action does not condemn `n` on grounds other than its age: a poll that looks at `n` finds it
      younger than DeadAfter (or cannot read it), the autoscaler does not set out to kill it, and it does
      not register again. Status writes by anyone are allowed. */
  ghost predicate Spares(c: Config, w: World, a: Action, n: NodeId) {
    match a
    case Look(h, readable) => TargetIs(w, h, n) && readable ==> AgeOf(w, n) < c.deadAfter
    case BeginKill(h) => TargetIs(w, h, n) ==> !w.handlers[h].Reclaim?
    case Other(step) => !Reregisters(w.cluster, step, n)
    case _ => true
  }

  /** No poll has condemned `n`, and its death has not begun. */
  ghost predicate NotCondemned(w: World, n: NodeId) {
    && n !in w.cluster.deaths
    && forall h: HandlerId :: TargetIs(w, h, n) && w.handlers[h].Poll? ==> w.handlers[h].stage == Looking || w.handlers[h].stage == Writing
  }

  lemma ActorSpares(c: Config, w: World, a: Action, h: HandlerId, n: NodeId)
    requires Ok(w) && Possible(w, a) && Spares(c, w, a, n) && NotCondemned(w, n) && Actor(a) == Some(h)
    ensures var w' := Act(c, w, a);
            TargetIs(w', h, n) && w'.handlers[h].Poll? ==> w'.handlers[h].stage == Looking || w'.handlers[h].stage == Writing
  {
    if h in w.handlers {
      assert HandlerOk(w, w.handlers[h]);
    }
  }

  lemma ActKeepsUncondemned(c: Config, w: World, a: Action, n: NodeId)
    requires Ok(w) && Possible(w, a) && Spares(c, w, a, n) && NotCondemned(w, n)
    ensures NotCondemned(Act(c, w, a), n)
  {
    var w' := Act(c, w, a);
    ActFrame(w, a);
    forall h: HandlerId | TargetIs(w', h, n) && w'.handlers[h].Poll?
      ensures w'.handlers[h].stage == Looking || w'.handlers[h].stage == Writing
    {
      if Actor(a) == Some(h) {
        ActorSpares(c, w, a, h, n);
      } else {
        OthersStay(c, w, a, h);
      }
    }
  }

  /** A node that no poll has condemned yet, and that is younger than DeadAfter whenever one looks at it, is
      never marked dead and keeps its epoch and everything else about its row but the status, which others
      may change. */
  lemma {:induction false} DetectorAccuracy(c: Config, h: History, i: nat, j: nat, n: NodeId)
    requires IsHistory(c, h) && i <= j < |h.worlds|
    requires n < |h.worlds[i].cluster.nodes| && h.worlds[i].cluster.nodes[n].status != Dead && NotCondemned(h.worlds[i], n)
    requires forall x: nat :: i <= x < j ==> Spares(c, h.worlds[x], h.actions[x], n)
    ensures n < |h.worlds[j].cluster.nodes| && NotCondemned(h.worlds[j], n)
    ensures var was, now := h.worlds[i].cluster.nodes[n], h.worlds[j].cluster.nodes[n];
            now.status != Dead && now == was.(status := now.status)
  {
    if i < j {
      DetectorAccuracy(c, h, i, j - 1, n);
      HistoryOk(c, h, j - 1);
      assert ActAt(c, h, j - 1);
      SparedByAct(c, h.worlds[j - 1], h.actions[j - 1], n);
    }
  }

  lemma SparedByAct(c: Config, w: World, a: Action, n: NodeId)
    requires Ok(w) && Possible(w, a) && Spares(c, w, a, n) && NotCondemned(w, n)
    requires n < |w.cluster.nodes| && w.cluster.nodes[n].status != Dead
    ensures n < |Act(c, w, a).cluster.nodes| && NotCondemned(Act(c, w, a), n)
    ensures var was, now := w.cluster.nodes[n], Act(c, w, a).cluster.nodes[n];
            now.status != Dead && now == was.(status := now.status)
  {
    RowAfterAct(c, w, a, n);
    ActKeepsUncondemned(c, w, a, n);
  }

  /** Nobody is about to take readiness from `n` on what was found out before: no poll has judged it, and its
      death has not begun. */
  ghost predicate Unjudged(w: World, n: NodeId) {
    && n !in w.cluster.deaths
    && forall h: HandlerId :: TargetIs(w, h, n) && w.handlers[h].Poll? ==> w.handlers[h].stage == Looking
  }

  /** A poll that looks at `n` finds it younger than both thresholds (or cannot read it), and the autoscaler
      does not reclaim it. It may register again. */
  ghost predicate FindsFresh(c: Config, w: World, a: Action, n: NodeId) {
    match a
    case Look(h, readable) => TargetIs(w, h, n) && readable ==> AgeOf(w, n) < c.notReadyAfter && AgeOf(w, n) < c.deadAfter
    case Write(h) => TargetIs(w, h, n) ==> !w.handlers[h].Reclaim?
    case BeginKill(h) => TargetIs(w, h, n) ==> !w.handlers[h].Reclaim?
    case _ => true
  }

  lemma ActorStaysUnjudged(c: Config, w: World, a: Action, h: HandlerId, n: NodeId)
    requires Ok(w) && Possible(w, a) && FindsFresh(c, w, a, n) && Unjudged(w, n) && Actor(a) == Some(h)
    ensures var w' := Act(c, w, a); TargetIs(w', h, n) && w'.handlers[h].Poll? ==> w'.handlers[h].stage == Looking
  {
    if h in w.handlers {
      assert HandlerOk(w, w.handlers[h]);
    }
  }

  lemma ActKeepsUnjudged(c: Config, w: World, a: Action, n: NodeId)
    requires Ok(w) && Possible(w, a) && FindsFresh(c, w, a, n) && Unjudged(w, n)
    ensures Unjudged(Act(c, w, a), n)
  {
    var w' := Act(c, w, a);
    ActFrame(w, a);
    forall h: HandlerId | TargetIs(w', h, n) && w'.handlers[h].Poll? ensures w'.handlers[h].stage == Looking {
      if Actor(a) == Some(h) {
        ActorStaysUnjudged(c, w, a, h, n);
      } else {
        OthersStay(c, w, a, h);
      }
    }
  }

  lemma FreshByAct(c: Config, w: World, a: Action, n: NodeId)
    requires Ok(w) && Possible(w, a) && FindsFresh(c, w, a, n) && Unjudged(w, n)
    requires n < |w.cluster.nodes| && w.cluster.nodes[n].status == Ready
    ensures n < |Act(c, w, a).cluster.nodes| && Act(c, w, a).cluster.nodes[n].status == Ready && Unjudged(Act(c, w, a), n)
  {
    ActKeepsUnjudged(c, w, a, n);
    if !RegistersAgain(w, a, n) {
      RowAfterAct(c, w, a, n);
    }
  }

  /** A ready node that is younger than NotReadyAfter and DeadAfter whenever a poll looks at it stays ready, in any
      history, as long as no reclaim sets out on it; polls that had already judged it are excluded at the
      start. */
  lemma {:induction false} FreshStaysReady(c: Config, h: History, i: nat, j: nat, n: NodeId)
    requires IsHistory(c, h) && i <= j < |h.worlds|
    requires n < |h.worlds[i].cluster.nodes| && h.worlds[i].cluster.nodes[n].status == Ready && Unjudged(h.worlds[i], n)
    requires forall x: nat :: i <= x < j ==> FindsFresh(c, h.worlds[x], h.actions[x], n)
    ensures n < |h.worlds[j].cluster.nodes| && h.worlds[j].cluster.nodes[n].status == Ready && Unjudged(h.worlds[j], n)
  {
    if i < j {
      FreshStaysReady(c, h, i, j - 1, n);
      HistoryOk(c, h, j - 1);
      assert ActAt(c, h, j - 1);
      FreshByAct(c, h.worlds[j - 1], h.actions[j - 1], n);
    }
  }
}
