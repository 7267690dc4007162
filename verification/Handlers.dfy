/** The handlers that write a node's status: each reads the node first and writes later, on what it read.
    A heartbeat reads one node, a detector's poll a whole list, the autoscaler the node it reclaims;
    between a handler's read and its write anything else can happen. */
module Handlers {
  import opened Entities
  import opened Engine
  import opened ClusterState
  import opened RowInvariants
  import opened D = Detector

  type HandlerId = nat

  /** How far a handler is with its current node: it has yet to judge it; it is about to change its
      status; it is about to declare it dead; it has begun to. */
  datatype Stage = Looking | Writing | Condemned | Killing

  /** `Beat` and `Reclaim` carry the row that was read, `Poll` the list, the position it is at and the time
      at which it read the list. A heartbeat records the node as seen before it writes. */
  datatype Handler =
    | Beat(node: Node, stamped: bool)
    | Reclaim(node: Node, stage: Stage)
    | Poll(nodes: seq<Node>, next: nat, since: int, stage: Stage)

  /** `lastPoll` is when the latest poll that is through with its list had read it. */
  datatype World = World(
    cluster: Cluster,
    lastSeen: map<NodeId, int>,
    now: int,
    handlers: map<HandlerId, Handler>,
    lastPoll: int)

  const START := World(INITIAL, map[], 0, map[], 0)

  datatype Action =
    | Wait(delay: nat)
    | Seed(node: NodeId)                       // a registration records the node as seen now
    | Expire(node: NodeId)                     // the last-seen entry is dropped
    | ReadBeat(h: HandlerId, node: NodeId)     // a heartbeat under the node's epoch comes in
    | Stamp(h: HandlerId)                      // and records the node as seen now
    | ReadReclaim(h: HandlerId, node: NodeId)  // the autoscaler picks a ready or cordoned node
    | ReadList(h: HandlerId)                   // a poll begins
    | Look(h: HandlerId, readable: bool)       // it judges its next node by the age the node has now
    | Write(h: HandlerId)                      // the status write that the handler's read calls for
    | BeginKill(h: HandlerId)                  // the two halves of MarkNodeDead
    | FinishKill(h: HandlerId)
    | Fail(h: HandlerId)                       // the call that the handler is at fails
    | EndPoll(h: HandlerId)
    | Other(step: ClusterState.Step)           // any other transaction

  /** The node that the handler is at. */
  predicate HasTarget(hd: Handler) {
    hd.Poll? ==> hd.next < |hd.nodes|
  }

  function Target(hd: Handler): Node
    requires HasTarget(hd)
  {
    if hd.Poll? then hd.nodes[hd.next] else hd.node
  }

  function StageOf(hd: Handler): Stage {
    match hd
    case Beat(node, stamped) => if stamped && node.status == NotReady then Writing else Looking
    case Reclaim(_, stage) => stage
    case Poll(_, _, _, stage) => stage
  }

  function ReadingOf(w: World, n: NodeId): Reading {
    if n in w.lastSeen then SeenAgo(w.now - w.lastSeen[n]) else NeverSeen
  }

  function Change(hd: Handler): StatusChange {
    match hd
    case Beat(_, _) => Recover
    case Reclaim(_, _) => Cordon
    case Poll(_, _, _, _) => LoseTouch
  }

  predicate IsStatusStep(a: ClusterState.Step) {
    a.UpdateNodeStatusStep? || a.BeginDeathStep? || a.FinishDeathStep? || a.AbortDeathStep?
  }

  predicate AtStage(w: World, h: HandlerId, stage: Stage) {
    h in w.handlers && HasTarget(w.handlers[h]) && StageOf(w.handlers[h]) == stage
  }

  predicate Possible(w: World, a: Action) {
    match a
    case Wait(_) => true
    case Seed(_) => true
    case Expire(_) => true
    case ReadBeat(h, n) => h !in w.handlers && n < |w.cluster.nodes|
    case Stamp(h) => h in w.handlers && w.handlers[h].Beat? && !w.handlers[h].stamped
    case ReadReclaim(h, n) =>
      h !in w.handlers && n < |w.cluster.nodes| && w.cluster.nodes[n].status in {Ready, Cordoned}
    case ReadList(h) => h !in w.handlers
    case Look(h, _) => AtStage(w, h, Looking) && w.handlers[h].Poll?
    case Write(h) => AtStage(w, h, Writing) && Target(w.handlers[h]).id !in w.cluster.deaths
    case BeginKill(h) => AtStage(w, h, Condemned) && Target(w.handlers[h]).id !in w.cluster.deaths
    case FinishKill(h) =>
      AtStage(w, h, Killing) && Enabled(w.cluster, FinishDeathStep(Target(w.handlers[h]).id))
    case Fail(h) =>
      h in w.handlers && HasTarget(w.handlers[h])
      && (StageOf(w.handlers[h]) == Killing ==> Target(w.handlers[h]).id in w.cluster.deaths)
    case EndPoll(h) => h in w.handlers && w.handlers[h].Poll? && w.handlers[h].next >= |w.handlers[h].nodes|
    case Other(step) => !IsStatusStep(step) && Enabled(w.cluster, step)
  }

  function WithStage(hd: Handler, stage: Stage): Handler {
    match hd
    case Beat(_, _) => hd
    case Reclaim(node, _) => Reclaim(node, stage)
    case Poll(nodes, next, since, _) => Poll(nodes, next, since, stage)
  }

  /** What becomes of a handler that is through with its current node: a poll goes on, others end. */
  function MovedOn(w: World, h: HandlerId): map<HandlerId, Handler>
    requires h in w.handlers
  {
    match w.handlers[h]
    case Poll(nodes, next, since, _) => w.handlers[h := Poll(nodes, next + 1, since, Looking)]
    case _ => w.handlers - {h}
  }

  function Looked(c: Config, w: World, h: HandlerId, readable: bool): map<HandlerId, Handler>
    requires h in w.handlers && w.handlers[h].Poll? && HasTarget(w.handlers[h])
  {
    var node := Target(w.handlers[h]);
    match Judge(c, if readable then ReadingOf(w, node.id) else Unreadable, node.status)
    case Kill => w.handlers[h := WithStage(w.handlers[h], Condemned)]
    case Downgrade => w.handlers[h := WithStage(w.handlers[h], Writing)]
    case Leave => MovedOn(w, h)
  }

  /** The store transaction that the action is, if any. */
  function StepOf(w: World, a: Action): Option<ClusterState.Step>
    requires Possible(w, a)
  {
    match a
    case Write(h) => Some(UpdateNodeStatusStep(Target(w.handlers[h]).id, Change(w.handlers[h])))
    case BeginKill(h) => Some(BeginDeathStep(Target(w.handlers[h]).id))
    case FinishKill(h) => Some(FinishDeathStep(Target(w.handlers[h]).id))
    case Fail(h) => if StageOf(w.handlers[h]) == Killing then Some(AbortDeathStep(Target(w.handlers[h]).id)) else None
    case Other(step) => Some(step)
    case _ => None
  }

  function ClusterAfter(w: World, a: Action): Cluster
    requires Possible(w, a)
  {
    match StepOf(w, a)
    case Some(step) => Apply(w.cluster, step)
    case None => w.cluster
  }

  function HandlersAfter(c: Config, w: World, a: Action): map<HandlerId, Handler>
    requires Possible(w, a)
  {
    match a
    case ReadBeat(h, n) => w.handlers[h := Beat(w.cluster.nodes[n], false)]
    case Stamp(h) => w.handlers[h := Beat(w.handlers[h].node, true)]
    case ReadReclaim(h, n) =>
      var node := w.cluster.nodes[n];
      w.handlers[h := Reclaim(node, if node.status == Cordoned then Condemned else Writing)]
    case ReadList(h) => w.handlers[h := Poll(Watchlist(w.cluster), 0, w.now, Looking)]
    case Look(h, readable) => Looked(c, w, h, readable)
    case Write(h) =>
      if w.handlers[h].Reclaim? then w.handlers[h := WithStage(w.handlers[h], Condemned)] else MovedOn(w, h)
    case BeginKill(h) => w.handlers[h := WithStage(w.handlers[h], Killing)]
    case FinishKill(h) => MovedOn(w, h)
    case Fail(h) => MovedOn(w, h)
    case EndPoll(h) => w.handlers - {h}
    case _ => w.handlers
  }

  function SeenAfter(w: World, a: Action): map<NodeId, int>
    requires Possible(w, a)
  {
    match a
    case Seed(n) => w.lastSeen[n := w.now]
    case Stamp(h) => w.lastSeen[w.handlers[h].node.id := w.now]
    case Expire(n) => w.lastSeen - {n}
    case _ => w.lastSeen
  }

  function Act(c: Config, w: World, a: Action): World
    requires Possible(w, a)
  {
    World(ClusterAfter(w, a), SeenAfter(w, a), if a.Wait? then w.now + a.delay else w.now, HandlersAfter(c, w, a),
          if a.EndPoll? && w.handlers[a.h].since > w.lastPoll then w.handlers[a.h].since else w.lastPoll)
  }

  // ---------- what every action keeps ----------

  /** Handlers hold rows of known nodes, a poll each of them once, read at some time up to now; a poll is
      about to downgrade only a node it read as ready; and each open death is that of exactly one handler. */
  ghost predicate HandlerOk(w: World, hd: Handler) {
    match hd
    case Beat(node, _) => node.id < |w.cluster.nodes|
    case Reclaim(node, stage) =>
      node.id < |w.cluster.nodes| && node.status != Dead && stage != Looking && (stage == Killing ==> node.id in w.cluster.deaths)
    case Poll(nodes, next, since, stage) =>
      && since <= w.now && next <= |nodes| && DistinctIds(nodes)
      && (forall i :: 0 <= i < |nodes| ==> nodes[i].id < |w.cluster.nodes| && nodes[i].status != Dead)
      && (stage != Looking ==> next < |nodes|)
      && (stage == Writing ==> nodes[next].status == Ready)
      && (stage == Killing ==> nodes[next].id in w.cluster.deaths)
  }

  ghost predicate Kills(w: World, h: HandlerId, n: NodeId) {
    AtStage(w, h, Killing) && Target(w.handlers[h]).id == n
  }

  ghost predicate Ok(w: World) {
    && Inv(w.cluster)
    && (forall h :: h in w.handlers ==> HandlerOk(w, w.handlers[h]))
    && (forall n :: n in w.cluster.deaths ==> exists h: HandlerId :: Kills(w, h, n))
    && (forall h: HandlerId, h': HandlerId, n: NodeId :: Kills(w, h, n) && Kills(w, h', n) ==> h == h')
  }

  /** The store sees nothing but a step of the cluster state machine that is enabled, or nothing at all. */
  lemma ActIsStep(w: World, a: Action)
    requires Ok(w) && Possible(w, a)
    ensures StepOf(w, a).Some? ==> Enabled(w.cluster, StepOf(w, a).value)
    ensures Inv(ClusterAfter(w, a))
  {
    if StepOf(w, a).Some? {
      StepKeepsInv(w.cluster, StepOf(w, a).value);
    }
  }

  /** Which deaths are open after a step. */
  function DeathsAfter(s: Cluster, step: Option<ClusterState.Step>): set<NodeId> {
    match step
    case Some(BeginDeathStep(n)) => if n < |s.nodes| then s.deaths.Keys + {n} else s.deaths.Keys
    case Some(FinishDeathStep(n)) => s.deaths.Keys - {n}
    case Some(AbortDeathStep(n)) => s.deaths.Keys - {n}
    case _ => s.deaths.Keys
  }

  lemma StepFrame(s: Cluster, a: ClusterState.Step)
    requires Inv(s) && Enabled(s, a)
    ensures |s.nodes| <= |Apply(s, a).nodes| && Apply(s, a).deaths.Keys == DeathsAfter(s, Some(a))
  {
    if a.FinishDeathStep? {
      FinishDeathEffect(s, a.node);
    } else if a.CommitTickStep? {
      CommitEffect(s, a.replica, a.now);
    }
  }

  lemma ActFrame(w: World, a: Action)
    requires Ok(w) && Possible(w, a)
    ensures |w.cluster.nodes| <= |ClusterAfter(w, a).nodes|
    ensures ClusterAfter(w, a).deaths.Keys == DeathsAfter(w.cluster, StepOf(w, a))
  {
    if StepOf(w, a).Some? {
      StepFrame(w.cluster, StepOf(w, a).value);
    }
  }

  lemma StillOk(w: World, w': World, hd: Handler)
    requires HandlerOk(w, hd) && |w.cluster.nodes| <= |w'.cluster.nodes| && w.now <= w'.now
    requires HasTarget(hd) && StageOf(hd) == Killing ==> Target(hd).id in w'.cluster.deaths
    ensures HandlerOk(w', hd)
  {}

  /** The handler that acts. */
  function Actor(a: Action): Option<HandlerId> {
    match a
    case ReadBeat(h, _) => Some(h)
    case Stamp(h) => Some(h)
    case ReadReclaim(h, _) => Some(h)
    case ReadList(h) => Some(h)
    case Look(h, _) => Some(h)
    case Write(h) => Some(h)
    case BeginKill(h) => Some(h)
    case FinishKill(h) => Some(h)
    case Fail(h) => Some(h)
    case EndPoll(h) => Some(h)
    case _ => None
  }

  /** A death stays open unless its own handler ends it. */
  lemma DeathsStay(w: World, a: Action, h: HandlerId, n: NodeId)
    requires Ok(w) && Possible(w, a) && Kills(w, h, n) && Actor(a) != Some(h)
    ensures n in ClusterAfter(w, a).deaths
  {
    ActFrame(w, a);
    assert HandlerOk(w, w.handlers[h]);
    assert a.FinishKill? || a.Fail? ==> !Kills(w, a.h, n);
  }

  /** A handler that does not act is still all right. */
  lemma BystanderOk(c: Config, w: World, a: Action, h: HandlerId)
    requires Ok(w) && Possible(w, a) && h in w.handlers && Actor(a) != Some(h)
    ensures HandlerOk(Act(c, w, a), w.handlers[h])
  {
    var hd := w.handlers[h];
    if HasTarget(hd) && StageOf(hd) == Killing {
      DeathsStay(w, a, h, Target(hd).id);
    }
    ActFrame(w, a);
    StillOk(w, Act(c, w, a), hd);
  }

  lemma ActorOk(c: Config, w: World, a: Action, h: HandlerId)
    requires Ok(w) && Possible(w, a) && Actor(a) == Some(h) && h in HandlersAfter(c, w, a)
    ensures HandlerOk(Act(c, w, a), HandlersAfter(c, w, a)[h])
  {
    ActFrame(w, a);
    if h in w.handlers {
      assert HandlerOk(w, w.handlers[h]);
    }
    match a
    case ReadBeat(_, n) => assert NodeOk(w.cluster.nodes[n], n);
    case ReadReclaim(_, n) => assert NodeOk(w.cluster.nodes[n], n);
    case ReadList(_) => WatchlistIs(w.cluster);
    case _ =>
  }

  lemma OthersStay(c: Config, w: World, a: Action, h: HandlerId)
    requires Possible(w, a) && Actor(a) != Some(h)
    ensures h in HandlersAfter(c, w, a) <==> h in w.handlers
    ensures h in w.handlers ==> HandlersAfter(c, w, a)[h] == w.handlers[h]
  {}

  lemma HandlersStayOk(c: Config, w: World, a: Action)
    requires Ok(w) && Possible(w, a)
    ensures forall h :: h in HandlersAfter(c, w, a) ==> HandlerOk(Act(c, w, a), HandlersAfter(c, w, a)[h])
  {
    forall h | h in HandlersAfter(c, w, a) ensures HandlerOk(Act(c, w, a), HandlersAfter(c, w, a)[h]) {
      if Actor(a) == Some(h) {
        ActorOk(c, w, a, h);
      } else {
        OthersStay(c, w, a, h);
        BystanderOk(c, w, a, h);
      }
    }
  }

  /** Who kills whom after an action: a beginning adds, an end or a failure removes, nothing else changes. */
  lemma KillsAfter(c: Config, w: World, a: Action, h: HandlerId, n: NodeId)
    requires Ok(w) && Possible(w, a)
    ensures Kills(Act(c, w, a), h, n) <==>
            if a == BeginKill(h) then Target(w.handlers[h]).id == n
            else Kills(w, h, n) && a != FinishKill(h) && a != Fail(h)
  {
    if Actor(a) != Some(h) {
      OthersStay(c, w, a, h);
    }
  }

  lemma ActKeepsOk(c: Config, w: World, a: Action)
    requires Ok(w) && Possible(w, a)
    ensures Ok(Act(c, w, a))
  {
    ActIsStep(w, a);
    HandlersStayOk(c, w, a);
    DeathsHaveKillers(c, w, a);
    KillersAreUnique(c, w, a);
  }

  /** A death that is open afterwards has just begun, or was open and its handler is still at it. */
  lemma OpenDeaths(w: World, a: Action, n: NodeId)
    requires Ok(w) && Possible(w, a) && n in ClusterAfter(w, a).deaths
    ensures if a.BeginKill? && Target(w.handlers[a.h]).id == n then true
            else n in w.cluster.deaths && !((a.FinishKill? || a.Fail?) && Kills(w, a.h, n))
  {
    ActFrame(w, a);
  }

  lemma DeathHasKiller(c: Config, w: World, a: Action, n: NodeId) returns (h: HandlerId)
    requires Ok(w) && Possible(w, a) && n in ClusterAfter(w, a).deaths
    ensures Kills(Act(c, w, a), h, n)
  {
    OpenDeaths(w, a, n);
    if a.BeginKill? && Target(w.handlers[a.h]).id == n {
      h := a.h;
    } else {
      h := KillerOf(w, n);
    }
    KillsAfter(c, w, a, h, n);
  }

  lemma KillerOf(w: World, n: NodeId) returns (h: HandlerId)
    requires Ok(w) && n in w.cluster.deaths
    ensures Kills(w, h, n)
  {
    var k: HandlerId :| Kills(w, k, n);
    h := k;
  }

  lemma DeathsHaveKillers(c: Config, w: World, a: Action)
    requires Ok(w) && Possible(w, a)
    ensures forall n :: n in ClusterAfter(w, a).deaths ==> exists h: HandlerId :: Kills(Act(c, w, a), h, n)
  {
    forall n | n in ClusterAfter(w, a).deaths ensures exists h: HandlerId :: Kills(Act(c, w, a), h, n) {
      var h := DeathHasKiller(c, w, a, n);
    }
  }

  lemma KillersAreUnique(c: Config, w: World, a: Action)
    requires Ok(w) && Possible(w, a)
    ensures forall h: HandlerId, h': HandlerId, n: NodeId :: Kills(Act(c, w, a), h, n) && Kills(Act(c, w, a), h', n) ==> h == h'
  {
    forall h: HandlerId, h': HandlerId, n: NodeId | Kills(Act(c, w, a), h, n) && Kills(Act(c, w, a), h', n) ensures h == h' {
      KillsAfter(c, w, a, h, n);
      KillsAfter(c, w, a, h', n);
      if h in w.handlers {
        assert HandlerOk(w, w.handlers[h]);
      }
      if h' in w.handlers {
        assert HandlerOk(w, w.handlers[h']);
      }
    }
  }

  // ---------- histories ----------

  datatype History = History(worlds: seq<World>, actions: seq<Action>)

  ghost predicate ActAt(c: Config, h: History, k: nat) {
    && k < |h.actions| && k + 1 < |h.worlds|
    && Possible(h.worlds[k], h.actions[k]) && h.worlds[k + 1] == Act(c, h.worlds[k], h.actions[k])
  }

  ghost predicate IsHistory(c: Config, h: History) {
    && |h.worlds| == |h.actions| + 1
    && Ok(h.worlds[0])
    && forall k: nat :: k < |h.actions| ==> ActAt(c, h, k)
  }

  lemma {:induction false} HistoryOk(c: Config, h: History, k: nat)
    requires IsHistory(c, h) && k < |h.worlds|
    ensures Ok(h.worlds[k])
  {
    if k > 0 {
      HistoryOk(c, h, k - 1);
      assert ActAt(c, h, k - 1);
      ActKeepsOk(c, h.worlds[k - 1], h.actions[k - 1]);
    }
  }

  lemma StartOk()
    ensures Ok(START)
  {}
}
