/** When an autoscaling tick acts: exactly, in terms of what it sees and remembers; and over runs, that it
    does act on a backlog that lasts and on a worker that stays idle. */
module Scaling {
  import opened Entities
  import opened Engine
  import opened Autoscaler

  // ---------- one tick ----------

  /** `r` are those of the first `k` nodes whose label says that the autoscaler made them, in the order of the list;
      `at` are their positions. */
  ghost predicate AreAutoscaled(nodes: seq<Node>, k: nat, r: seq<Node>, at: seq<nat>)
    requires k <= |nodes|
  {
    && |at| == |r| && (forall i :: 0 <= i < |at| ==> at[i] < k && r[i] == nodes[at[i]])
    && (forall i, j :: 0 <= i < j < |at| ==> at[i] < at[j])
    && (forall p: nat :: p < k ==> (p in at <==>
                                    && nodes[p].labels.Some? && "autoscaled" in nodes[p].labels.value
                                    && nodes[p].labels.value["autoscaled"] == "true"))
  }

  lemma OneMoreAutoscaled(nodes: seq<Node>, k: nat, r: seq<Node>, at: seq<nat>)
    requires 0 < k <= |nodes| && AreAutoscaled(nodes, k - 1, r, at)
    ensures IsAutoscaled(nodes[k - 1]) ==> AreAutoscaled(nodes, k, r + [nodes[k - 1]], at + [k - 1])
    ensures !IsAutoscaled(nodes[k - 1]) ==> AreAutoscaled(nodes, k, r, at)
  {
    assert k - 1 !in at;
    assert forall p: nat :: p in at + [k - 1] <==> p in at || p == k - 1;
  }

  /** The nodes that a tick goes through are exactly those, in that order. */
  lemma {:induction false} AutoscaledAre(nodes: seq<Node>, k: nat) returns (at: seq<nat>)
    requires k <= |nodes|
    ensures AreAutoscaled(nodes, k, FilterAutoscaled(nodes, k), at)
  {
    if k == 0 {
      at := [];
    } else {
      var before := FilterAutoscaled(nodes, k - 1);
      at := AutoscaledAre(nodes, k - 1);
      OneMoreAutoscaled(nodes, k, before, at);
      at := if IsAutoscaled(nodes[k - 1]) then at + [k - 1] else at;
      assert FilterAutoscaled(nodes, k) == if IsAutoscaled(nodes[k - 1]) then before + [nodes[k - 1]] else before;
    }
  }

  predicate CooldownOver(c: Config, m: Memory, at: int) {
    c.cooldown > 0 && m.lastScale.Some? ==> at - m.lastScale.value >= c.cooldown
  }

  /** The backlog is at the threshold, has been since a whole window, this observation counting as its start
      if none is remembered, and the tick's first check finds the cooldown over. */
  predicate BacklogLasts(c: Config, m: Memory, o: Observation) {
    && o.pending >= c.pendingThreshold
    && o.now - (if m.pendingSince.Some? then m.pendingSince.value else o.now) >= c.sustainWindow
    && CooldownOver(c, m, At(o, 0))
  }

  /** A tick scales up, or tries to, exactly when the backlog lasts and the containers cannot be listed or
      there is room for one more; it then touches no node and no idle mark. A success is noted as the last
      action and starts the backlog afresh. */
  lemma ScalesUpExactly(c: Config, m: Memory, o: Observation)
    ensures var r := Tick(c, m, o);
            && (r.outcome == ListFailed <==> BacklogLasts(c, m, o) && o.listed.None?)
            && (r.outcome == ScaledUp <==> BacklogLasts(c, m, o) && o.listed.Some? && o.listed.value < c.maxWorkers && o.created)
            && (r.outcome == UpFailed <==> BacklogLasts(c, m, o) && o.listed.Some? && o.listed.value < c.maxWorkers && !o.created)
            && (r.outcome in {ListFailed, ScaledUp, UpFailed} ==>
                  r.writes == [] && r.memory.idleSince == m.idleSince && r.examined == 0)
            && (r.outcome in {ListFailed, UpFailed} ==> r.memory.lastScale == m.lastScale)
            && (r.outcome == ScaledUp ==> r.memory.lastScale == Some(o.doneAt))
            && r.memory.pendingSince ==
               if r.outcome == ScaledUp || o.pending < c.pendingThreshold then None
               else if m.pendingSince.None? then Some(o.now) else m.pendingSince
  {
    SweepScale(c, NotePending(c, m, o), o, 0);
  }

  /** Ready or cordoned, and without anything reserved on it. */
  predicate Unused(o: Observation, node: Node) {
    && node.status in {Ready, Cordoned}
    && (node.id in o.allocs ==> o.allocs[node.id].cpu == 0 && o.allocs[node.id].mem == 0)
  }

  /** The `q`th autoscaled node is unused, has been since a whole window, this observation counting as the start
      if none is remembered, and the check before it finds the cooldown over. */
  predicate IdleLasts(c: Config, m: Memory, o: Observation, q: nat) {
    && q < |Autoscaled(o)|
    && var node := Autoscaled(o)[q];
       && Unused(o, node)
       && o.now - (if node.id in m.idleSince then m.idleSince[node.id] else o.now) >= c.idleWindow
       && CooldownOver(c, m, At(o, q + 1))
  }

  /** The node's calls: cordoned first unless it is, dead at the end; a call that fails ends it. */
  predicate ReclaimedBy(m: Memory, o: Observation, node: Node, r: TickResult) {
    var cordon := if node.status == Cordoned then [] else [Write.Cordon(node.id)];
    if o.failing.None? || (o.failing == Some(Cordoning) && node.status == Cordoned) then
      && r.outcome == ScaledDown(node.id) && r.writes == cordon + [MarkDead(node.id)]
      && r.memory.lastScale == Some(o.doneAt) && node.id !in r.memory.idleSince
    else
      && r.outcome == DownFailed(node.id) && r.writes == (if o.failing == Some(Cordoning) then [] else cordon)
      && r.memory.lastScale == m.lastScale && node.id in r.memory.idleSince
  }

  /** The sweep's result when it goes as far as the `q`th node: that one is reclaimed, or there is none. */
  predicate Decided(c: Config, m: Memory, o: Observation, q: nat, r: TickResult) {
    if q < |Autoscaled(o)| then IdleLasts(c, m, o, q) && ReclaimedBy(m, o, Autoscaled(o)[q], r) && r.examined == q + 1
    else r.outcome == NoAction && r.writes == [] && r.memory.lastScale == m.lastScale && r.examined == q
  }

  lemma ReclaimMeaning(m: Memory, noted: Memory, o: Observation, node: Node, examined: nat)
    requires node.id in noted.idleSince && noted.lastScale == m.lastScale
    ensures ReclaimedBy(m, o, node, Reclaim(noted, o, node, examined))
    ensures Reclaim(noted, o, node, examined).examined == examined
  {
    match o.failing
    case Some(Cordoning) =>
    case Some(ListingContainers) =>
    case Some(RemovingContainer) =>
    case None =>
  }

  lemma NoteMarks(m: Memory, o: Observation, node: Node)
    ensures var noted := NoteIdle(m, o, node);
            && noted.lastScale == m.lastScale
            && (Unused(o, node) ==> node.id in noted.idleSince && noted.idleSince[node.id] == MarkOf(m, o, node.id))
            && (!Unused(o, node) ==> node.id !in noted.idleSince)
            && forall n: NodeId :: n != node.id ==>
                                     && (n in noted.idleSince <==> n in m.idleSince)
                                     && (n in m.idleSince ==> noted.idleSince[n] == m.idleSince[n])
  {
    SameIsEqual(if node.id in o.allocs then o.allocs[node.id] else NOTHING, NOTHING);
  }

  lemma IdleLastsIsDue(c: Config, m: Memory, m': Memory, o: Observation, i: nat)
    requires i < |Autoscaled(o)| && DistinctIds(Autoscaled(o)) && SameFrom(m, m', o, i)
    ensures var noted := NoteIdle(m', o, Autoscaled(o)[i]);
            && (Reclaims(c, noted, o, Autoscaled(o)[i], At(o, i + 1)) <==> IdleLasts(c, m, o, i))
            && SameFrom(m, noted, o, i + 1)
  {
    NoteMarks(m', o, Autoscaled(o)[i]);
    SameIsEqual(if Autoscaled(o)[i].id in o.allocs then o.allocs[Autoscaled(o)[i].id] else NOTHING, NOTHING);
  }

  /** A sweep from the `i`th node on reclaims the first that has been idle for long enough, or does nothing. */
  lemma {:induction false} SweepDecides(c: Config, m: Memory, m': Memory, o: Observation, i: nat) returns (q: nat)
    requires i <= |Autoscaled(o)| && DistinctIds(Autoscaled(o)) && SameFrom(m, m', o, i)
    ensures i <= q <= |Autoscaled(o)| && forall p: nat :: i <= p < q ==> !IdleLasts(c, m, o, p)
    ensures Decided(c, m, o, q, Sweep(c, m', o, i))
    decreases |Autoscaled(o)| - i
  {
    q := i;
    if i < |Autoscaled(o)| {
      IdleLastsIsDue(c, m, m', o, i);
      NoteMarks(m', o, Autoscaled(o)[i]);
      var noted := NoteIdle(m', o, Autoscaled(o)[i]);
      if IdleLasts(c, m, o, i) {
        ReclaimMeaning(m, noted, o, Autoscaled(o)[i], i + 1);
      } else {
        q := SweepDecides(c, m, noted, o, i + 1);
      }
    }
  }

  /** The idle mark of a node after a sweep: gone if the sweep saw the node in use or reclaimed it; if it saw it
      unused, the mark it had, or one set now; and as it was if the sweep did not get to it. */
  ghost predicate MarkAfter(m: Memory, o: Observation, r: TickResult, p: nat)
    requires p < |Autoscaled(o)|
  {
    var node := Autoscaled(o)[p];
    if p >= r.examined then
      && (node.id in r.memory.idleSince <==> node.id in m.idleSince)
      && (node.id in m.idleSince ==> r.memory.idleSince[node.id] == m.idleSince[node.id])
    else if !Unused(o, node) || r.outcome == ScaledDown(node.id) then node.id !in r.memory.idleSince
    else
      && node.id in r.memory.idleSince
      && r.memory.idleSince[node.id] == if node.id in m.idleSince then m.idleSince[node.id] else o.now
  }

  lemma {:induction false} SweepMarks(c: Config, m: Memory, o: Observation, i: nat, p: nat)
    requires i <= p < |Autoscaled(o)| && DistinctIds(Autoscaled(o))
    ensures MarkAfter(m, o, Sweep(c, m, o, i), p)
    decreases |Autoscaled(o)| - i
  {
    var node := Autoscaled(o)[i];
    var noted := NoteIdle(m, o, node);
    NoteMarks(m, o, node);
    if Reclaims(c, noted, o, node, At(o, i + 1)) {
      ReclaimMeaning(m, noted, o, node, i + 1);
      ReclaimLeaves(noted, o, node, i + 1);
    } else if i < p {
      SweepMarks(c, noted, o, i + 1, p);
    } else {
      SweepLeaves(c, noted, o, i + 1, node.id);
    }
  }

  lemma ReclaimLeaves(m: Memory, o: Observation, node: Node, examined: nat)
    ensures var r := Reclaim(m, o, node, examined);
            forall n: NodeId :: n != node.id || r.outcome != ScaledDown(node.id) ==>
                                  && (n in r.memory.idleSince <==> n in m.idleSince)
                                  && (n in m.idleSince ==> r.memory.idleSince[n] == m.idleSince[n])
  {}

  /** A sweep leaves the marks of the nodes before it alone. */
  lemma {:induction false} SweepLeaves(c: Config, m: Memory, o: Observation, i: nat, n: NodeId)
    requires i <= |Autoscaled(o)| && forall p :: i <= p < |Autoscaled(o)| ==> Autoscaled(o)[p].id != n
    ensures var r := Sweep(c, m, o, i);
            && r.examined >= i && r.outcome != ScaledDown(n)
            && (n in r.memory.idleSince <==> n in m.idleSince)
            && (n in m.idleSince ==> r.memory.idleSince[n] == m.idleSince[n])
    decreases |Autoscaled(o)| - i
  {
    if i < |Autoscaled(o)| {
      var noted := NoteIdle(m, o, Autoscaled(o)[i]);
      if !Reclaims(c, noted, o, Autoscaled(o)[i], At(o, i + 1)) {
        SweepLeaves(c, noted, o, i + 1, n);
      }
    }
  }

  /** A tick that neither scales up nor tries to reclaims the first autoscaled node, in the order of the
      observation, that has been idle for long enough, and does nothing if there is none; it marks and
      unmarks the nodes up to that one by whether they are in use. */
  lemma ReclaimsExactly(c: Config, m: Memory, o: Observation) returns (q: nat)
    requires DistinctIds(o.nodes)
    requires !(BacklogLasts(c, m, o) && (o.listed.None? || o.listed.value < c.maxWorkers))
    ensures q <= |Autoscaled(o)| && forall p: nat :: p < q ==> !IdleLasts(c, m, o, p)
    ensures Decided(c, m, o, q, Tick(c, m, o))
    ensures forall p: nat :: p < |Autoscaled(o)| ==> MarkAfter(m, o, Tick(c, m, o), p)
  {
    FilterDistinct(o.nodes, |o.nodes|);
    TickIsSweep(c, m, o);
    q := SweepDecides(c, m, NotePending(c, m, o), o, 0);
    forall p: nat | p < |Autoscaled(o)| ensures MarkAfter(m, o, Tick(c, m, o), p) {
      SweepMarks(c, NotePending(c, m, o), o, 0, p);
      MarksIgnorePending(c, m, o, Tick(c, m, o), p);
    }
  }

  lemma TickIsSweep(c: Config, m: Memory, o: Observation)
    requires !(BacklogLasts(c, m, o) && (o.listed.None? || o.listed.value < c.maxWorkers))
    ensures Tick(c, m, o) == Sweep(c, NotePending(c, m, o), o, 0)
  {}

  lemma MarksIgnorePending(c: Config, m: Memory, o: Observation, r: TickResult, p: nat)
    requires p < |Autoscaled(o)|
    ensures MarkAfter(NotePending(c, m, o), o, r, p) <==> MarkAfter(m, o, r, p)
  {}

  // ---------- runs ----------

  /** The cooldown after every successful action of the run's first events is over. */
  ghost predicate Rested(c: Config, run: Run, k: nat, at: int)
    requires k <= |run.events| && k < |run.memories|
  {
    c.cooldown > 0 ==>
      forall x :: 0 <= x < k && run.events[x].Ticked? && Scaled(OutcomeAt(c, run, x)) ==> at - run.events[x].o.doneAt >= c.cooldown
  }

  lemma {:induction false} LastActionIsLogged(c: Config, run: Run, k: nat) returns (x: nat)
    requires IsRun(c, run) && k < |run.memories| && run.memories[k].lastScale.Some?
    ensures x < k && run.events[x].Ticked? && Scaled(OutcomeAt(c, run, x))
    ensures run.memories[k].lastScale.value == run.events[x].o.doneAt
  {
    assert NextAt(c, run, k - 1);
    x := k - 1;
    if run.events[k - 1].Ticked? {
      TickScale(c, run.memories[k - 1], run.events[k - 1].o);
    }
    if !Scaled(OutcomeAt(c, run, k - 1)) {
      x := LastActionIsLogged(c, run, k - 1);
    }
  }

  lemma RestedCooldown(c: Config, run: Run, k: nat, at: int)
    requires IsRun(c, run) && k < |run.memories| && Rested(c, run, k, at)
    ensures CooldownOver(c, run.memories[k], at)
  {
    if run.memories[k].lastScale.Some? {
      var x := LastActionIsLogged(c, run, k);
    }
  }

  lemma {:induction false} BacklogRemembered(c: Config, run: Run, i: nat, k: nat)
    requires IsRun(c, run) && ClockForward(run) && Sustained(c, run, i, k)
    requires forall x :: i <= x < k ==> OutcomeAt(c, run, x) != ScaledUp
    ensures run.memories[k].pendingSince.Some? && run.memories[k].pendingSince.value <= run.events[i].o.now
  {
    assert NextAt(c, run, k - 1) && OutcomeAt(c, run, k - 1) != ScaledUp && !run.events[k - 1].NotLeading?;
    if run.events[k - 1].Ticked? {
      TickPending(c, run.memories[k - 1], run.events[k - 1].o);
    }
    if i == k - 1 {
      if run.memories[i].pendingSince.Some? {
        var x := PendingSinceIsSustained(c, run, i);
        assert At(run.events[x].o, 0) <= run.events[x].o.doneAt;
      }
    } else {
      BacklogRemembered(c, run, i, k - 1);
    }
  }

  /** A backlog that is at the threshold or above in every observation from event `i` to event `j`, a window
      later, with the replica leading throughout and no scale-up on the way, makes the tick at `j` scale up if
      there is room, the call goes through, and the cooldown after every earlier action is over. */
  lemma SustainedBacklogScalesUp(c: Config, run: Run, i: nat, j: nat)
    requires IsRun(c, run) && ClockForward(run) && Sustained(c, run, i, j + 1) && run.events[j].Ticked?
    requires forall x :: i <= x < j ==> OutcomeAt(c, run, x) != ScaledUp
    requires run.events[j].o.now - run.events[i].o.now >= c.sustainWindow
    requires Rested(c, run, j, At(run.events[j].o, 0))
    requires run.events[j].o.listed.Some? && run.events[j].o.listed.value < c.maxWorkers && run.events[j].o.created
    ensures OutcomeAt(c, run, j) == ScaledUp
  {
    RestedCooldown(c, run, j, At(run.events[j].o, 0));
    if i < j {
      BacklogRemembered(c, run, i, j);
    } else if run.memories[i].pendingSince.Some? {
      var x := PendingSinceIsSustained(c, run, i);
      assert At(run.events[x].o, 0) <= run.events[x].o.doneAt;
    }
    ScalesUpExactly(c, run.memories[j], run.events[j].o);
  }

  /** The tick gets to autoscaled node `n`, and sees it unused, or sees it in use. */
  ghost predicate Sees(c: Config, m: Memory, o: Observation, n: NodeId, unused: bool) {
    exists p: nat :: p < Tick(c, m, o).examined && IsAt(o, p, n) && Unused(o, Autoscaled(o)[p]) == unused
  }

  ghost predicate SeesAt(c: Config, run: Run, x: nat, n: NodeId, unused: bool)
    requires x < |run.events| && x < |run.memories|
  {
    run.events[x].Ticked? && Sees(c, run.memories[x], run.events[x].o, n, unused)
  }

  lemma MarkAt(c: Config, m: Memory, o: Observation, n: NodeId, p: nat)
    requires DistinctIds(Autoscaled(o)) && IsAt(o, p, n) && MarkAfter(m, o, Tick(c, m, o), p)
    requires !Sees(c, m, o, n, false) && Tick(c, m, o).outcome != ScaledDown(n)
    ensures var r := Tick(c, m, o);
            n in m.idleSince || Sees(c, m, o, n, true) ==> n in r.memory.idleSince && r.memory.idleSince[n] == MarkOf(m, o, n)
  {
    var r := Tick(c, m, o);
    if p < r.examined {
      assert Unused(o, Autoscaled(o)[p]);
    } else {
      assert forall p': nat :: IsAt(o, p', n) ==> p' == p;
    }
  }

  lemma UnlistedMark(c: Config, m: Memory, o: Observation, n: NodeId)
    requires !(BacklogLasts(c, m, o) && (o.listed.None? || o.listed.value < c.maxWorkers))
    requires forall p: nat :: !IsAt(o, p, n)
    ensures var r := Tick(c, m, o);
            !Sees(c, m, o, n, true) && (n in m.idleSince ==> n in r.memory.idleSince && r.memory.idleSince[n] == m.idleSince[n])
  {
    TickIsSweep(c, m, o);
    forall p | 0 <= p < |Autoscaled(o)| ensures Autoscaled(o)[p].id != n {
      assert !IsAt(o, p, n);
    }
    SweepLeaves(c, NotePending(c, m, o), o, 0, n);
  }

  /** A mark lasts unless the tick sees the node in use or reclaims it; a tick that sees it unused sets it. */
  lemma TickKeepsMark(c: Config, m: Memory, o: Observation, n: NodeId)
    requires DistinctIds(o.nodes) && !Sees(c, m, o, n, false) && Tick(c, m, o).outcome != ScaledDown(n)
    ensures var r := Tick(c, m, o);
            n in m.idleSince || Sees(c, m, o, n, true) ==> n in r.memory.idleSince && r.memory.idleSince[n] == MarkOf(m, o, n)
  {
    FilterDistinct(o.nodes, |o.nodes|);
    ScalesUpExactly(c, m, o);
    if !(BacklogLasts(c, m, o) && (o.listed.None? || o.listed.value < c.maxWorkers)) {
      if p: nat :| IsAt(o, p, n) {
        var q := ReclaimsExactly(c, m, o);
        MarkAt(c, m, o, n, p);
      } else {
        UnlistedMark(c, m, o, n);
      }
    }
  }

  /** From event `i`, where a tick sees `n` unused, up to event `k`: the replica leads, no tick sees it in use, and
      none reclaims it. */
  ghost predicate StaysUnused(c: Config, run: Run, i: nat, k: nat, n: NodeId) {
    && i < k <= |run.events| && k < |run.memories|
    && SeesAt(c, run, i, n, true)
    && forall x :: i <= x < k ==>
                     !run.events[x].NotLeading? && !SeesAt(c, run, x, n, false) && OutcomeAt(c, run, x) != ScaledDown(n)
  }

  /** Marks were set at earlier observations. */
  lemma MarkIsPast(c: Config, run: Run, k: nat, n: NodeId)
    requires IsRun(c, run) && RowsDistinct(run) && ClockForward(run) && k < |run.events| && run.events[k].Ticked?
    ensures MarkOf(run.memories[k], run.events[k].o, n) <= run.events[k].o.now
  {
    if n in run.memories[k].idleSince {
      var x := MarkIsIdleStretch(c, run, k, n);
      assert At(run.events[x].o, 0) <= run.events[x].o.doneAt;
    }
  }

  lemma {:induction false} UnusedIsMarked(c: Config, run: Run, i: nat, k: nat, n: NodeId)
    requires IsRun(c, run) && RowsDistinct(run) && ClockForward(run) && StaysUnused(c, run, i, k, n)
    ensures n in run.memories[k].idleSince && run.memories[k].idleSince[n] <= run.events[i].o.now
  {
    assert NextAt(c, run, k - 1);
    assert !run.events[k - 1].NotLeading? && !SeesAt(c, run, k - 1, n, false) && OutcomeAt(c, run, k - 1) != ScaledDown(n);
    if run.events[k - 1].Ticked? {
      TickKeepsMark(c, run.memories[k - 1], run.events[k - 1].o, n);
    }
    if i < k - 1 {
      UnusedIsMarked(c, run, i, k - 1, n);
    } else {
      MarkIsPast(c, run, i, n);
    }
  }

  /** A tick that gets to a node that has been idle for long enough, with the cooldown over, is about to
      reclaim it. */
  lemma DueIsAttempted(c: Config, m: Memory, o: Observation, p: nat, n: NodeId)
    requires DistinctIds(o.nodes) && IsAt(o, p, n) && p < Tick(c, m, o).examined && IdleLasts(c, m, o, p)
    ensures Attempted(Tick(c, m, o).outcome, n)
  {
    ScalesUpExactly(c, m, o);
    var q := ReclaimsExactly(c, m, o);
  }

  /** A worker that a tick sees unused at event `i`, and that no tick sees in use before event `j`, a window
      later, is reclaimed by the tick at `j` (or the attempt is made and fails), if the replica leads
      throughout, the tick gets to it and sees it unused still, and the cooldown after every earlier action is
      over at its check. */
  lemma IdleWorkerReclaimed(c: Config, run: Run, i: nat, j: nat, p: nat, n: NodeId)
    requires IsRun(c, run) && RowsDistinct(run) && ClockForward(run) && i < j < |run.events| && run.events[j].Ticked?
    requires StaysUnused(c, run, i, j, n)
    requires var o := run.events[j].o;
             && p < Tick(c, run.memories[j], o).examined && IsAt(o, p, n) && Unused(o, Autoscaled(o)[p])
             && o.now - run.events[i].o.now >= c.idleWindow && Rested(c, run, j, At(o, p + 1))
    ensures Attempted(OutcomeAt(c, run, j), n)
  {
    UnusedIsMarked(c, run, i, j, n);
    RestedCooldown(c, run, j, At(run.events[j].o, p + 1));
    DueIsAttempted(c, run.memories[j], run.events[j].o, p, n);
  }
}
