/** Handlers with nothing in between do what the components' methods do: the interleaved handlers refine to
    the sequential heartbeat, reclaim and poll. */
module Undisturbed {
  import opened Entities
  import opened ClusterState
  import opened RowInvariants
  import opened D = Detector
  import opened Handlers

  /** A heartbeat: the node is seen now, and recovered exactly when it was not ready. */
  lemma BeatAlone(c: Config, w: World, h: HandlerId, n: NodeId)
    requires Ok(w) && h !in w.handlers && n < |w.cluster.nodes| && n !in w.cluster.deaths
    ensures Possible(w, ReadBeat(h, n)) && Possible(Act(c, w, ReadBeat(h, n)), Stamp(h))
    ensures var w' := Act(c, Act(c, w, ReadBeat(h, n)), Stamp(h));
            && w'.cluster == w.cluster && w'.lastSeen == w.lastSeen[n := w.now]
            && (Possible(w', Write(h)) <==> w.cluster.nodes[n].status == NotReady)
            && (Possible(w', Write(h)) ==>
                  && Act(c, w', Write(h)).cluster == UpdateNodeStatus(w.cluster, n, Recover)
                  && Act(c, w', Write(h)).handlers == w.handlers)
  {
    assert NodeOk(w.cluster.nodes[n], n);
    assert w.handlers[h := Beat(w.cluster.nodes[n], false)][h := Beat(w.cluster.nodes[n], true)] - {h} == w.handlers;
  }

  lemma KillBegins(c: Config, w: World, h: HandlerId, n: NodeId)
    requires Ok(w) && AtStage(w, h, Condemned) && Target(w.handlers[h]).id == n && n < |w.cluster.nodes| && n !in w.cluster.deaths
    ensures Possible(w, BeginKill(h))
    ensures var w' := Act(c, w, BeginKill(h));
            && w' == w.(cluster := BeginDeath(w.cluster, n), handlers := w.handlers[h := WithStage(w.handlers[h], Killing)])
            && Possible(w', FinishKill(h)) && Target(w'.handlers[h]).id == n
  {
    DeathBegun(w.cluster, n);
  }

  lemma MovesOnFrom(w: World, h: HandlerId, stage: Stage, hs: map<HandlerId, Handler>)
    requires h in w.handlers && !w.handlers[h].Beat? && hs == w.handlers[h := WithStage(w.handlers[h], stage)]
    ensures MovedOn(w.(handlers := hs), h) == MovedOn(w, h)
  {
    assert hs - {h} == w.handlers - {h};
  }

  lemma MovedOnIgnoresRest(w: World, w': World, h: HandlerId)
    requires h in w.handlers && w'.handlers == w.handlers
    ensures MovedOn(w', h) == MovedOn(w, h)
  {}

  /** The second half of a reclaim, or the killing half of a poll's node: the death with nothing in between. */
  lemma KillAlone(c: Config, w: World, h: HandlerId, n: NodeId)
    requires Ok(w) && AtStage(w, h, Condemned) && Target(w.handlers[h]).id == n && n < |w.cluster.nodes| && n !in w.cluster.deaths
    ensures Possible(w, BeginKill(h)) && Possible(Act(c, w, BeginKill(h)), FinishKill(h))
    ensures Act(c, Act(c, w, BeginKill(h)), FinishKill(h)) == w.(cluster := MarkDead(w.cluster, n), handlers := MovedOn(w, h))
  {
    KillBegins(c, w, h, n);
    var begun := Act(c, w, BeginKill(h));
    MovesOnFrom(w, h, Killing, begun.handlers);
    MovedOnIgnoresRest(w.(handlers := begun.handlers), begun, h);
  }

  /** A reclaim: the node is cordoned unless it is already, and dead at the end. */
  lemma ReclaimAlone(c: Config, w: World, h: HandlerId, n: NodeId)
    requires Ok(w) && h !in w.handlers && n < |w.cluster.nodes| && n !in w.cluster.deaths
    requires w.cluster.nodes[n].status in {Ready, Cordoned}
    ensures Possible(w, ReadReclaim(h, n))
    ensures var picked := Act(c, w, ReadReclaim(h, n));
            && picked.cluster == w.cluster
            && (Possible(picked, Write(h)) <==> w.cluster.nodes[n].status == Ready)
            && var cordoned := if w.cluster.nodes[n].status == Ready then Act(c, picked, Write(h)) else picked;
               && cordoned.cluster ==
                  (if w.cluster.nodes[n].status == Ready then UpdateNodeStatus(w.cluster, n, Cordon) else w.cluster)
               && Ok(cordoned) && AtStage(cordoned, h, Condemned) && Target(cordoned.handlers[h]).id == n
  {
    assert NodeOk(w.cluster.nodes[n], n);
    var picked := Act(c, w, ReadReclaim(h, n));
    ActKeepsOk(c, w, ReadReclaim(h, n));
    if w.cluster.nodes[n].status == Ready {
      ActKeepsOk(c, picked, Write(h));
    }
  }

  /** A poll is about to look at a node that nobody else is writing to. */
  ghost predicate About(w: World, h: HandlerId) {
    && Ok(w) && AtStage(w, h, Looking) && w.handlers[h].Poll?
    && Target(w.handlers[h]).id < |w.cluster.nodes| && w.cluster.deaths == map[]
  }

  /** The poll deals with its next node: it looks, and does what that calls for. */
  ghost function AfterNode(c: Config, w: World, h: HandlerId): World
    requires About(w, h)
  {
    var node := Target(w.handlers[h]);
    w.(cluster := Evaluate(c, w.cluster, ReadingOf(w, node.id), node), handlers := MovedOn(w, h))
  }

  lemma WriteAlone(c: Config, w: World, h: HandlerId, n: NodeId)
    requires Ok(w) && AtStage(w, h, Writing) && w.handlers[h].Poll? && Target(w.handlers[h]).id == n && n !in w.cluster.deaths
    ensures Possible(w, Write(h))
    ensures Act(c, w, Write(h)) == w.(cluster := UpdateNodeStatus(w.cluster, n, LoseTouch), handlers := MovedOn(w, h))
  {}

  /** Its actions for the node, in a row. */
  lemma NodeAlone(c: Config, w: World, h: HandlerId)
    requires About(w, h)
    ensures Possible(w, Look(h, true))
    ensures var node, looked := Target(w.handlers[h]), Act(c, w, Look(h, true));
            match Judge(c, ReadingOf(w, node.id), node.status)
            case Leave => looked == AfterNode(c, w, h)
            case Downgrade => Possible(looked, Write(h)) && Act(c, looked, Write(h)) == AfterNode(c, w, h)
            case Kill =>
              && Possible(looked, BeginKill(h)) && Possible(Act(c, looked, BeginKill(h)), FinishKill(h))
              && Act(c, Act(c, looked, BeginKill(h)), FinishKill(h)) == AfterNode(c, w, h)
  {
    var node, looked := Target(w.handlers[h]), Act(c, w, Look(h, true));
    ActKeepsOk(c, w, Look(h, true));
    match Judge(c, ReadingOf(w, node.id), node.status)
    case Leave =>
    case Downgrade =>
      WriteAlone(c, looked, h, node.id);
      MovesOnFrom(w, h, Writing, looked.handlers);
      MovedOnIgnoresRest(w.(handlers := looked.handlers), looked, h);
    case Kill =>
      KillAlone(c, looked, h, node.id);
      MovesOnFrom(w, h, Condemned, looked.handlers);
      MovedOnIgnoresRest(w.(handlers := looked.handlers), looked, h);
  }

  /** The world as it was, but for the cluster and for the poll `h`, which is at the `k`th node of its list. */
  function PollAt(w: World, s: Cluster, h: HandlerId, list: seq<Node>, k: nat): World {
    w.(cluster := s, handlers := w.handlers[h := Poll(list, k, w.now, Looking)])
  }

  lemma NextHandlers(w: World, s: Cluster, h: HandlerId, list: seq<Node>, k: nat)
    ensures MovedOn(PollAt(w, s, h, list, k), h) == w.handlers[h := Poll(list, k + 1, w.now, Looking)]
  {}

  lemma AboutNode(w: World, s: Cluster, h: HandlerId, list: seq<Node>, k: nat)
    requires k < |list| && list[k].id < |s.nodes| && s.deaths == map[] && Ok(PollAt(w, s, h, list, k))
    ensures About(PollAt(w, s, h, list, k), h)
  {}

  lemma NextNode(c: Config, w: World, s: Cluster, h: HandlerId, list: seq<Node>, k: nat)
    requires k < |list| && About(PollAt(w, s, h, list, k), h)
    ensures list[k].id < |s.nodes| && s.deaths == map[]
    ensures AfterNode(c, PollAt(w, s, h, list, k), h)
            == PollAt(w, Evaluate(c, s, ReadingOf(w, list[k].id), list[k]), h, list, k + 1)
  {
    NextHandlers(w, s, h, list, k);
  }

  lemma PollUpToNext(c: Config, s: Cluster, readings: NodeId -> Reading, k: nat)
    requires Inv(s) && s.deaths == map[] && k < |Watchlist(s)|
    ensures var prev := PollUpTo(c, s, readings, k);
            && Watchlist(s)[k].id < |prev.nodes| && prev.deaths == map[]
            && PollUpTo(c, s, readings, k + 1) == Evaluate(c, prev, readings(Watchlist(s)[k].id), Watchlist(s)[k])
  {
    WatchlistIs(s);
  }

  lemma ListRead(c: Config, w: World, h: HandlerId)
    requires Ok(w) && h !in w.handlers
    ensures Possible(w, ReadList(h))
    ensures Act(c, w, ReadList(h)) == PollAt(w, w.cluster, h, Watchlist(w.cluster), 0)
  {}

  lemma ListDone(c: Config, w: World, s: Cluster, h: HandlerId, list: seq<Node>)
    requires h !in w.handlers
    ensures var w' := PollAt(w, s, h, list, |list|);
            Possible(w', EndPoll(h)) && Act(c, w', EndPoll(h)).cluster == s && Act(c, w', EndPoll(h)).handlers == w.handlers
  {
    assert w.handlers[h := Poll(list, |list|, w.now, Looking)] - {h} == w.handlers;
  }

  /** The world when the poll that began in `w` is through with `k` nodes, and nothing has come between. */
  ghost function PolledWorld(c: Config, w: World, h: HandlerId, readings: NodeId -> Reading, k: nat): World
    requires Inv(w.cluster) && w.cluster.deaths == map[] && k <= |Watchlist(w.cluster)|
  {
    PollAt(w, PollUpTo(c, w.cluster, readings, k), h, Watchlist(w.cluster), k)
  }

  lemma PollNext(c: Config, w: World, h: HandlerId, readings: NodeId -> Reading, k: nat)
    requires Inv(w.cluster) && w.cluster.deaths == map[] && k < |Watchlist(w.cluster)| && Ok(PolledWorld(c, w, h, readings, k))
    requires forall n: NodeId :: readings(n) == ReadingOf(w, n)
    ensures About(PolledWorld(c, w, h, readings, k), h)
    ensures AfterNode(c, PolledWorld(c, w, h, readings, k), h) == PolledWorld(c, w, h, readings, k + 1)
  {
    PollUpToNext(c, w.cluster, readings, k);
    AboutNode(w, PollUpTo(c, w.cluster, readings, k), h, Watchlist(w.cluster), k);
    NextNode(c, w, PollUpTo(c, w.cluster, readings, k), h, Watchlist(w.cluster), k);
  }

  /** With no death open, the world with the poll in it is all right whatever has become of the rows. */
  lemma PollAtOk(w: World, s: Cluster, h: HandlerId, k: nat)
    requires Ok(w) && w.cluster.deaths == map[] && k <= |Watchlist(w.cluster)|
    requires Inv(s) && s.deaths == map[] && |s.nodes| == |w.cluster.nodes|
    ensures Ok(PollAt(w, s, h, Watchlist(w.cluster), k))
  {
    WatchlistIs(w.cluster);
    var w' := PollAt(w, s, h, Watchlist(w.cluster), k);
    forall h' | h' in w'.handlers ensures HandlerOk(w', w'.handlers[h']) {
      if h' != h {
        assert HandlerOk(w, w.handlers[h']);
        StillOk(w, w', w.handlers[h']);
      }
    }
  }

  /** A whole poll, node by node with nothing in between: the list is read, the poll gets from each node to the
      next, and at the end the cluster is what the detector's poll makes of it with the ages that the nodes
      have. */
  lemma PollAlone(c: Config, w: World, h: HandlerId, readings: NodeId -> Reading)
    requires Ok(w) && h !in w.handlers && w.cluster.deaths == map[]
    requires forall n: NodeId :: readings(n) == ReadingOf(w, n)
    ensures Possible(w, ReadList(h)) && Act(c, w, ReadList(h)) == PolledWorld(c, w, h, readings, 0)
    ensures forall k: nat :: k < |Watchlist(w.cluster)| ==>
                               && About(PolledWorld(c, w, h, readings, k), h)
                               && AfterNode(c, PolledWorld(c, w, h, readings, k), h) == PolledWorld(c, w, h, readings, k + 1)
    ensures var end := PolledWorld(c, w, h, readings, |Watchlist(w.cluster)|);
            Possible(end, EndPoll(h)) && Act(c, end, EndPoll(h)).cluster == D.Poll(c, w.cluster, readings)
  {
    ListRead(c, w, h);
    forall k: nat | k < |Watchlist(w.cluster)|
      ensures About(PolledWorld(c, w, h, readings, k), h)
      ensures AfterNode(c, PolledWorld(c, w, h, readings, k), h) == PolledWorld(c, w, h, readings, k + 1)
    {
      PollAtOk(w, PollUpTo(c, w.cluster, readings, k), h, k);
      PollNext(c, w, h, readings, k);
    }
    ListDone(c, w, D.Poll(c, w.cluster, readings), h, Watchlist(w.cluster));
  }
}
