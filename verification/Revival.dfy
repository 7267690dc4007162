/** When a dead node stops being dead: by registering again, or by a handler that read it while it was
    alive and writes its status after it has died. */
module Revival {
  import opened Entities
  import opened ClusterState
  import opened RowInvariants
  import opened D = Detector
  import opened Handlers
  import opened Liveness

  predicate IsDead(w: World, n: NodeId) {
    n < |w.cluster.nodes| && w.cluster.nodes[n].status == Dead
  }

  /** The handler has read `n`, and may still write its status because of what it read. */
  ghost predicate Pending(hd: Handler, n: NodeId) {
    match hd
    case Beat(node, _) => node.id == n && node.status == NotReady
    case Reclaim(node, stage) => node.id == n && stage == Writing
    case Poll(nodes, next, _, stage) =>
      exists i: nat :: next <= i < |nodes| && nodes[i].id == n && nodes[i].status == Ready
                       && (i == next ==> stage == Looking || stage == Writing)
  }

  /** No handler but `h` has a status write to `n` pending. */
  ghost predicate NoneElsePending(w: World, h: HandlerId, n: NodeId) {
    forall h': HandlerId :: h' in w.handlers && h' != h ==> !Pending(w.handlers[h'], n)
  }

  /** A death commits while another handler has a status write to the node pending only if `overlap`. */
  ghost predicate DeathAllowed(w: World, a: Action, overlap: bool)
    requires Possible(w, a)
  {
    a.FinishKill? ==> overlap || NoneElsePending(w, a.h, Target(w.handlers[a.h]).id)
  }

  ghost predicate DeathsApart(h: History, overlap: bool) {
    forall k :: 0 <= k < |h.actions| && k < |h.worlds| && Possible(h.worlds[k], h.actions[k]) ==>
                  DeathAllowed(h.worlds[k], h.actions[k], overlap)
  }

  /** No handler has a status write to a dead node pending. */
  ghost predicate Settled(w: World) {
    forall h: HandlerId, n: NodeId :: h in w.handlers && IsDead(w, n) ==> !Pending(w.handlers[h], n)
  }

  /** The action makes a dead node not dead without registering it again. */
  ghost predicate Revives(c: Config, w: World, a: Action, n: NodeId)
    requires Possible(w, a)
  {
    IsDead(w, n) && !RegistersAgain(w, a, n) && !IsDead(Act(c, w, a), n)
  }

  /** A handler that is about to write the status of a node has it pending. */
  lemma WritingIsPending(w: World, h: HandlerId)
    requires Ok(w) && AtStage(w, h, Writing)
    ensures Pending(w.handlers[h], Target(w.handlers[h]).id)
  {
    assert HandlerOk(w, w.handlers[h]);
  }

  /** What revives a dead node is exactly a status write by a handler that has one pending. */
  lemma RevivesExactly(c: Config, w: World, a: Action, n: NodeId)
    requires Ok(w) && Possible(w, a)
    ensures Revives(c, w, a, n) <==> IsDead(w, n) && a.Write? && TargetIs(w, a.h, n)
    ensures Revives(c, w, a, n) ==> Pending(w.handlers[a.h], n)
  {
    if IsDead(w, n) && !RegistersAgain(w, a, n) {
      RowAfterAct(c, w, a, n);
      if a.Write? && TargetIs(w, a.h, n) {
        WritingIsPending(w, a.h);
      }
    }
  }

  /** A dead node stops being dead exactly when it registers again, or a handler that read it while it was
      alive, and has a status write to it pending, writes. */
  lemma LeavesDead(c: Config, w: World, a: Action, n: NodeId)
    requires Ok(w) && Possible(w, a) && IsDead(w, n)
    ensures !IsDead(Act(c, w, a), n) <==> RegistersAgain(w, a, n) || (a.Write? && TargetIs(w, a.h, n))
    ensures a.Write? && TargetIs(w, a.h, n) ==> Pending(w.handlers[a.h], n)
  {
    if RegistersAgain(w, a, n) {
      ActFrame(w, a);
      RegisteredIsReady(w.cluster, a.step, n);
    } else {
      RevivesExactly(c, w, a, n);
    }
  }

  // ---------- when no death overlaps such a handler ----------

  /** What the actor has pending afterwards it had pending before, or has just read of a live node. */
  lemma ActorPending(c: Config, w: World, a: Action, h: HandlerId, n: NodeId)
    requires Ok(w) && Possible(w, a) && Actor(a) == Some(h) && h in HandlersAfter(c, w, a)
    requires Pending(HandlersAfter(c, w, a)[h], n)
    ensures if h in w.handlers then Pending(w.handlers[h], n) else n < |w.cluster.nodes| && !IsDead(w, n) && !a.FinishKill?
    ensures a.FinishKill? ==> Target(w.handlers[h]).id != n
  {
    if h in w.handlers {
      assert HandlerOk(w, w.handlers[h]);
    }
    match a
    case ReadBeat(_, m) => assert NodeOk(w.cluster.nodes[m], m);
    case ReadReclaim(_, m) => assert NodeOk(w.cluster.nodes[m], m);
    case ReadList(_) => WatchlistIs(w.cluster);
    case _ =>
  }

  lemma ActKeepsSettled(c: Config, w: World, a: Action)
    requires Ok(w) && Possible(w, a) && Settled(w) && DeathAllowed(w, a, false)
    ensures Settled(Act(c, w, a))
  {
    var w' := Act(c, w, a);
    forall h: HandlerId, n: NodeId | h in w'.handlers && IsDead(w', n) ensures !Pending(w'.handlers[h], n) {
      DiedOrDead(c, w, a, n);
      if Actor(a) == Some(h) {
        if Pending(w'.handlers[h], n) {
          ActorPending(c, w, a, h, n);
        }
      } else {
        OthersStay(c, w, a, h);
      }
    }
  }

  /** A node that is dead after an action was dead before, or the action has just killed it. */
  lemma DiedOrDead(c: Config, w: World, a: Action, n: NodeId)
    requires Ok(w) && Possible(w, a) && IsDead(Act(c, w, a), n)
    ensures IsDead(w, n) || (a.FinishKill? && Target(w.handlers[a.h]).id == n)
  {
    if n < |w.cluster.nodes| && !RegistersAgain(w, a, n) {
      RowAfterAct(c, w, a, n);
    } else {
      ActIsStep(w, a);
      RegisteredIsReady(w.cluster, StepOf(w, a).value, n);
    }
  }

  lemma RegisteredIsReady(s: Cluster, a: ClusterState.Step, n: NodeId)
    requires Inv(s) && Enabled(s, a) && (n >= |s.nodes| || Reregisters(s, a, n)) && n < |Apply(s, a).nodes|
    ensures Apply(s, a).nodes[n].status == Ready
  {
    if a.FinishDeathStep? {
      FinishDeathEffect(s, a.node);
    } else if a.CommitTickStep? {
      CommitEffect(s, a.replica, a.now);
    }
  }

  lemma {:induction false} StaysSettled(c: Config, h: History, k: nat)
    requires IsHistory(c, h) && h.worlds[0] == START && DeathsApart(h, false) && k < |h.worlds|
    ensures Settled(h.worlds[k])
  {
    if k > 0 {
      StaysSettled(c, h, k - 1);
      HistoryOk(c, h, k - 1);
      assert ActAt(c, h, k - 1);
      ActKeepsSettled(c, h.worlds[k - 1], h.actions[k - 1]);
    }
  }

  /** Somewhere in the history a dead node is revived. */
  ghost predicate RevivesAt(c: Config, h: History, k: nat, n: NodeId) {
    k < |h.actions| && k < |h.worlds| && Possible(h.worlds[k], h.actions[k]) && Revives(c, h.worlds[k], h.actions[k], n)
  }

  /** When no death commits while another handler has a status write to the node pending, a dead node stays
      dead until it registers again. */
  lemma DeadStayDead(c: Config, h: History, k: nat, n: NodeId)
    requires IsHistory(c, h) && h.worlds[0] == START && DeathsApart(h, false)
    ensures !RevivesAt(c, h, k, n)
  {
    if RevivesAt(c, h, k, n) {
      HistoryOk(c, h, k);
      StaysSettled(c, h, k);
      RevivesExactly(c, h.worlds[k], h.actions[k], n);
    }
  }

  // ---------- a history is built one action at a time ----------

  /** A history from the start that ends in `w`. */
  ghost predicate Leads(c: Config, h: History, w: World) {
    IsHistory(c, h) && h.worlds[0] == START && h.worlds[|h.worlds| - 1] == w
  }

  lemma Begin(c: Config) returns (h: History)
    ensures Leads(c, h, START)
  {
    StartOk();
    h := History([START], []);
  }

  lemma Then(c: Config, h: History, w: World, a: Action) returns (h': History)
    requires Leads(c, h, w) && Possible(w, a)
    ensures Leads(c, h', Act(c, w, a)) && h'.actions == h.actions + [a] && h'.worlds == h.worlds + [Act(c, w, a)]
    ensures Ok(Act(c, w, a))
  {
    h' := History(h.worlds + [Act(c, w, a)], h.actions + [a]);
    forall k: nat | k < |h'.actions| ensures ActAt(c, h', k) {
      if k < |h.actions| {
        assert ActAt(c, h, k);
      }
    }
    HistoryOk(c, h', |h.actions| + 1);
  }

  const WORKER := Registration("w", "a", Resources(1, 1), None)

  /** The one node of the examples, as it is for a given status. */
  function Row(status: NodeStatus, epoch: int): Node {
    Node(0, "w", "a", Resources(1, 1), Some(map[]), status, epoch)
  }

  /** A world with that node in that status, no death under way, and these handlers. */
  ghost predicate Is(w: World, node: Node, handlers: map<HandlerId, Handler>) {
    Ok(w) && w.cluster.nodes == [node] && node.id == 0 && w.cluster.deaths == map[] && w.handlers == handlers
  }

  lemma RegisteredWorld(c: Config) returns (h: History, w: World)
    ensures Leads(c, h, w) && Is(w, Row(Ready, 0), map[]) && w.lastSeen == map[] && w.now == 0
  {
    h := Begin(c);
    h := Then(c, h, START, Other(RegisterNodeStep(WORKER)));
    w := Act(c, START, Other(RegisterNodeStep(WORKER)));
  }

  /** A handler that is about to write the status of the node can do so. */
  lemma Written(c: Config, h: History, w: World, k: HandlerId, node: Node) returns (h': History)
    requires Leads(c, h, w) && Is(w, node, w.handlers) && AtStage(w, k, Writing) && TargetIs(w, k, 0)
    ensures Possible(w, Write(k)) && Leads(c, h', Act(c, w, Write(k)))
    ensures Is(Act(c, w, Write(k)), node.(status := NewStatus(Change(w.handlers[k]))), HandlersAfter(c, w, Write(k)))
  {
    h' := Then(c, h, w, Write(k));
  }

  lemma BegunKill(c: Config, w: World, k: HandlerId)
    requires Ok(w) && w.cluster.deaths == map[] && AtStage(w, k, Condemned) && TargetIs(w, k, 0) && |w.cluster.nodes| == 1
    ensures Possible(w, BeginKill(k))
    ensures var w' := Act(c, w, BeginKill(k));
            && Ok(w') && AtStage(w', k, Killing) && TargetIs(w', k, 0)
            && w'.cluster.nodes == w.cluster.nodes && w'.cluster.deaths.Keys == {0}
            && w'.handlers == w.handlers[k := WithStage(w.handlers[k], Killing)]
  {
    ActKeepsOk(c, w, BeginKill(k));
  }

  lemma MayFinish(w: World, k: HandlerId)
    requires Ok(w) && AtStage(w, k, Killing)
    ensures Possible(w, FinishKill(k))
  {
    assert HandlerOk(w, w.handlers[k]);
    FinishDeathEnabled(w.cluster, Target(w.handlers[k]).id);
  }

  lemma FinishedKill(c: Config, w: World, k: HandlerId, node: Node)
    requires Ok(w) && Possible(w, FinishKill(k)) && TargetIs(w, k, 0)
    requires w.cluster.nodes == [node] && node.id == 0 && w.cluster.deaths.Keys == {0}
    ensures Is(Act(c, w, FinishKill(k)), node.(status := Dead, epoch := node.epoch + 1), MovedOn(w, k))
  {
    ActKeepsOk(c, w, FinishKill(k));
    FinishDeathEffect(w.cluster, 0);
    assert (w.cluster.deaths - {0}).Keys == {};
  }

  /** A handler that has condemned the node can kill it. */
  lemma Killed(c: Config, h: History, w: World, k: HandlerId, node: Node) returns (h': History, w': World)
    requires Leads(c, h, w) && Is(w, node, w.handlers) && AtStage(w, k, Condemned) && TargetIs(w, k, 0)
    ensures Leads(c, h', w') && Is(w', node.(status := Dead, epoch := node.epoch + 1), w'.handlers)
    ensures forall k' :: k' in w.handlers && k' != k ==> k' in w'.handlers && w'.handlers[k'] == w.handlers[k']
  {
    BegunKill(c, w, k);
    h' := Then(c, h, w, BeginKill(k));
    var w1 := Act(c, w, BeginKill(k));
    MayFinish(w1, k);
    FinishedKill(c, w1, k, node);
    h' := Then(c, h', w1, FinishKill(k));
    w' := Act(c, w1, FinishKill(k));
  }

  /** A handler that still has a status write pending revives the dead node with it. */
  lemma RevivedBy(c: Config, h: History, w: World, k: HandlerId) returns (h': History)
    requires Leads(c, h, w) && Ok(w) && IsDead(w, 0) && w.cluster.deaths == map[] && AtStage(w, k, Writing) && TargetIs(w, k, 0)
    ensures IsHistory(c, h') && h'.worlds[0] == START && RevivesAt(c, h', |h.actions|, 0)
    ensures h'.actions == h.actions + [Write(k)] && |h.actions| < |h'.worlds| && h'.worlds[|h.actions|] == w
  {
    RevivesExactly(c, w, Write(k), 0);
    h' := Then(c, h, w, Write(k));
  }

  // ---------- two reclaims of the same node ----------

  lemma BothRead(c: Config) returns (h: History, w: World)
    ensures Leads(c, h, w)
    ensures Is(w, Row(Ready, 0), map[0 := Reclaim(Row(Ready, 0), Writing), 1 := Reclaim(Row(Ready, 0), Writing)])
  {
    var w0;
    h, w0 := RegisteredWorld(c);
    h := Then(c, h, w0, ReadReclaim(0, 0));
    var w1 := Act(c, w0, ReadReclaim(0, 0));
    h := Then(c, h, w1, ReadReclaim(1, 0));
    w := Act(c, w1, ReadReclaim(1, 0));
  }

  /** Two autoscalers have picked the same ready node. One cordons it and kills it; then the other cordons
      it, and it is dead no more. */
  lemma StaleReclaimRevives(c: Config) returns (h: History, k: nat)
    ensures IsHistory(c, h) && h.worlds[0] == START && RevivesAt(c, h, k, 0)
  {
    var w;
    h, w := BothRead(c);
    h := Written(c, h, w, 0, Row(Ready, 0));
    var w1 := Act(c, w, Write(0));
    var w2;
    h, w2 := Killed(c, h, w1, 0, Row(Cordoned, 0));
    k := |h.actions|;
    h := RevivedBy(c, h, w2, 1);
  }

  /** A dead node stays dead until it registers again, in all histories, if and only if no death commits
      while another handler that has read the node has a status write to it pending. */
  lemma DeadStayDeadExactly(c: Config, overlap: bool)
    ensures (forall h, k: nat, n: NodeId :: IsHistory(c, h) && h.worlds[0] == START && DeathsApart(h, overlap) ==> !RevivesAt(c, h, k, n))
            <==> !overlap
  {
    if overlap {
      var h, k := StaleReclaimRevives(c);
      assert DeathsApart(h, overlap) && RevivesAt(c, h, k, 0);
    } else {
      forall h, k: nat, n: NodeId | IsHistory(c, h) && h.worlds[0] == START && DeathsApart(h, false) ensures !RevivesAt(c, h, k, n) {
        DeadStayDead(c, h, k, n);
      }
    }
  }

  // ---------- a heartbeat that comes in just before the death ----------

  /** The thresholds are in order: suspicion comes before death. */
  predicate Ordered(c: Config) {
    0 <= c.notReadyAfter < c.deadAfter <= MAX_DURATION
  }

  lemma ListOfOne(s: Cluster, node: Node)
    requires s.nodes == [node] && Watched(node)
    ensures Watchlist(s) == [node]
  {
    assert ActiveNodes(s.nodes, 1) == ActiveNodes(s.nodes, 0) + [node];
  }

  lemma ListRead(c: Config, h: History, w: World, k: HandlerId, node: Node) returns (h': History, w': World)
    requires Leads(c, h, w) && Is(w, node, w.handlers) && Watched(node) && k !in w.handlers
    ensures Leads(c, h', w') && Is(w', node, w.handlers[k := Poll([node], 0, w.now, Looking)])
    ensures w'.now == w.now && w'.lastSeen == w.lastSeen
  {
    ListOfOne(w.cluster, node);
    h' := Then(c, h, w, ReadList(k));
    w' := Act(c, w, ReadList(k));
  }

  lemma Waited(c: Config, h: History, w: World, delay: nat, node: Node) returns (h': History, w': World)
    requires Leads(c, h, w) && Is(w, node, w.handlers)
    ensures Leads(c, h', w') && Is(w', node, w.handlers) && w'.now == w.now + delay && w'.lastSeen == w.lastSeen
  {
    h' := Then(c, h, w, Wait(delay));
    w' := Act(c, w, Wait(delay));
  }

  /** The poll looks at the node, and goes on to what the node's age calls for. */
  lemma LookedAt(c: Config, h: History, w: World, k: HandlerId, node: Node, stage: Stage) returns (h': History, w': World)
    requires Leads(c, h, w) && Is(w, node, w.handlers) && AtStage(w, k, Looking) && w.handlers[k].Poll? && TargetIs(w, k, 0)
    requires match Judge(c, ReadingOf(w, 0), Target(w.handlers[k]).status)
             case Downgrade => stage == Writing
             case Kill => stage == Condemned
             case Leave => false
    ensures Leads(c, h', w') && Is(w', node, w.handlers[k := WithStage(w.handlers[k], stage)])
    ensures w'.now == w.now && w'.lastSeen == w.lastSeen
  {
    h' := Then(c, h, w, Look(k, true));
    w' := Act(c, w, Look(k, true));
  }

  /** The worker was seen at 0 and not again. */
  lemma SilentWorld(c: Config) returns (h: History, w: World)
    requires Ordered(c)
    ensures Leads(c, h, w) && Is(w, Row(Ready, 0), map[]) && w.lastSeen == map[0 := 0] && w.now == c.notReadyAfter
  {
    var w0;
    h, w0 := RegisteredWorld(c);
    var w1 := Act(c, w0, Seed(0));
    h := Then(c, h, w0, Seed(0));
    h, w := Waited(c, h, w1, c.notReadyAfter, Row(Ready, 0));
  }

  /** A poll finds it suspect. */
  lemma SuspectedWorld(c: Config) returns (h: History, w: World)
    requires Ordered(c)
    ensures Leads(c, h, w) && Is(w, Row(Ready, 0), w.handlers) && w.lastSeen == map[0 := 0] && w.now == c.notReadyAfter
    ensures AtStage(w, 0, Writing) && TargetIs(w, 0, 0) && w.handlers[0].Poll? && w.handlers.Keys == {0}
  {
    h, w := SilentWorld(c);
    h, w := ListRead(c, h, w, 0, Row(Ready, 0));
    h, w := LookedAt(c, h, w, 0, Row(Ready, 0), Writing);
  }

  lemma NotReadyWorld(c: Config) returns (h: History, w: World)
    requires Ordered(c)
    ensures Leads(c, h, w) && Is(w, Row(NotReady, 0), w.handlers) && w.lastSeen == map[0 := 0] && w.now == c.notReadyAfter
    ensures w.handlers.Keys == {0}
  {
    var w0;
    h, w0 := SuspectedWorld(c);
    h := Written(c, h, w0, 0, Row(Ready, 0));
    w := Act(c, w0, Write(0));
  }

  /** A second poll has found it past the death threshold. */
  lemma CondemnedWorld(c: Config) returns (h: History, w: World)
    requires Ordered(c)
    ensures Leads(c, h, w) && Is(w, Row(NotReady, 0), w.handlers) && AtStage(w, 1, Condemned) && TargetIs(w, 1, 0)
    ensures 2 !in w.handlers
  {
    h, w := NotReadyWorld(c);
    h, w := ListRead(c, h, w, 1, Row(NotReady, 0));
    h, w := Waited(c, h, w, c.deadAfter - c.notReadyAfter, Row(NotReady, 0));
    h, w := LookedAt(c, h, w, 1, Row(NotReady, 0), Condemned);
  }

  /** A heartbeat reads the node as not ready and records it as seen; then the death that a poll had
      already decided commits; then the heartbeat makes the dead node ready. */
  lemma StaleHeartbeatRevives(c: Config) returns (h: History, k: nat)
    requires Ordered(c)
    ensures IsHistory(c, h) && h.worlds[0] == START && RevivesAt(c, h, k, 0)
    ensures k < |h.actions| && k < |h.worlds| && h.actions[k] == Write(2) && 2 in h.worlds[k].handlers && h.worlds[k].handlers[2].Beat?
  {
    var w;
    h, w := CondemnedWorld(c);
    h, w := HeartbeatRead(c, h, w);
    h, w := Killed(c, h, w, 1, Row(NotReady, 0));
    k := |h.actions|;
    h := RevivedBy(c, h, w, 2);
  }

  lemma HeartbeatRead(c: Config, h: History, w: World) returns (h': History, w': World)
    requires Leads(c, h, w) && Is(w, Row(NotReady, 0), w.handlers) && 2 !in w.handlers
    ensures Leads(c, h', w') && Is(w', Row(NotReady, 0), w.handlers[2 := Beat(Row(NotReady, 0), true)])
  {
    h' := Then(c, h, w, ReadBeat(2, 0));
    var w1 := Act(c, w, ReadBeat(2, 0));
    h' := Then(c, h', w1, Stamp(2));
    w' := Act(c, w1, Stamp(2));
  }
}
