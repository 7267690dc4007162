/** The autoscaling loop: one tick, and what holds of any sequence of them in one replica. */
module Autoscaler {
  import opened Entities
  import opened Engine
  import opened Placement

  datatype Config = Config(
    pendingThreshold: int,
    sustainWindow: int,
    idleWindow: int,
    maxWorkers: int,
    cooldown: int)

  /** What the runner remembers: since when the backlog has been seen above the threshold, since when
      each node has been seen idle, and when it last scaled. */
  datatype Memory = Memory(pendingSince: Option<int>, idleSince: map<NodeId, int>, lastScale: Option<int>)

  const BLANK := Memory(None, map[], None)

  /** The docker and store calls of a reclaim that can fail it. Marking the node dead is not one: its
      failure is only logged. */
  datatype ReclaimCall = Cordoning | ListingContainers | RemovingContainer

  /** What one tick sees: the store's rows; the clock when it judges them, at each of its cooldown checks
      (one before scaling up, one for each node) and when it is done; how many managed containers the
      engine lists (`None`: the call fails); whether creating one goes through; and which call of a
      reclaim fails, if any. */
  datatype Observation = Observation(
    pending: int,
    nodes: seq<Node>,
    allocs: map<NodeId, Resources>,
    now: int,
    checks: seq<int>,
    doneAt: int,
    listed: Option<nat>,
    created: bool,
    failing: Option<ReclaimCall>)

  /** The clock at the `k`th cooldown check. */
  function At(o: Observation, k: nat): int {
    if k < |o.checks| then o.checks[k] else o.doneAt
  }

  datatype Outcome = NoAction | ListFailed | ScaledUp | UpFailed | ScaledDown(node: NodeId) | DownFailed(node: NodeId)

  /** A change that the tick asks of the store. */
  datatype Write = Cordon(node: NodeId) | MarkDead(node: NodeId)

  /** `examined` is how many of the autoscaled nodes the tick got to look at. */
  datatype TickResult = TickResult(memory: Memory, outcome: Outcome, writes: seq<Write>, examined: nat)

  predicate IsAutoscaled(node: Node) {
    node.labels.Some? && Label(node.labels.value, "autoscaled") == "true"
  }

  /** The autoscaled nodes among the first `k`, in order. */
  function FilterAutoscaled(nodes: seq<Node>, k: nat): (r: seq<Node>)
    requires k <= |nodes|
    ensures forall n :: n in r <==> n in nodes[..k] && IsAutoscaled(n)
  {
    if k == 0 then []
    else
      var before := FilterAutoscaled(nodes, k - 1);
      assert nodes[..k] == nodes[..k - 1] + [nodes[k - 1]];
      if IsAutoscaled(nodes[k - 1]) then before + [nodes[k - 1]] else before
  }

  function Autoscaled(o: Observation): seq<Node> {
    FilterAutoscaled(o.nodes, |o.nodes|)
  }

  predicate CanScale(c: Config, m: Memory, at: int) {
    c.cooldown <= 0 || m.lastScale.None? || at - m.lastScale.value >= c.cooldown
  }

  /** Ready or cordoned, and nothing reserved on it. */
  predicate SeenIdle(o: Observation, node: Node) {
    (node.status == Ready || node.status == Cordoned) && Reserved(o.allocs, node.id) == NOTHING
  }

  function NotePending(c: Config, m: Memory, o: Observation): Memory {
    if o.pending >= c.pendingThreshold then
      if m.pendingSince.None? then m.(pendingSince := Some(o.now)) else m
    else m.(pendingSince := None)
  }

  function NoteIdle(m: Memory, o: Observation, node: Node): Memory {
    if !SeenIdle(o, node) then m.(idleSince := m.idleSince - {node.id})
    else if node.id in m.idleSince then m
    else m.(idleSince := m.idleSince[node.id := o.now])
  }

  predicate Reclaims(c: Config, m: Memory, o: Observation, node: Node, check: int) {
    && SeenIdle(o, node) && CanScale(c, m, check)
    && node.id in m.idleSince && o.now - m.idleSince[node.id] >= c.idleWindow
  }

  /** Cordon unless it is cordoned already, remove the container, mark dead. */
  function Reclaim(m: Memory, o: Observation, node: Node, examined: nat): TickResult {
    var cordon := if node.status == Cordoned then [] else [Cordon(node.id)];
    if o.failing == Some(Cordoning) && node.status != Cordoned then TickResult(m, DownFailed(node.id), [], examined)
    else if o.failing == Some(ListingContainers) || o.failing == Some(RemovingContainer) then
      TickResult(m, DownFailed(node.id), cordon, examined)
    else
      TickResult(m.(idleSince := m.idleSince - {node.id}, lastScale := Some(o.doneAt)),
                 ScaledDown(node.id), cordon + [MarkDead(node.id)], examined)
  }

  /** Go through the autoscaled nodes from the `i`th on, and reclaim the first that is due. */
  function Sweep(c: Config, m: Memory, o: Observation, i: nat): TickResult
    requires i <= |Autoscaled(o)|
    decreases |Autoscaled(o)| - i
  {
    if i == |Autoscaled(o)| then TickResult(m, NoAction, [], i)
    else
      var node := Autoscaled(o)[i];
      var noted := NoteIdle(m, o, node);
      if Reclaims(c, noted, o, node, At(o, i + 1)) then Reclaim(noted, o, node, i + 1) else Sweep(c, noted, o, i + 1)
  }

  /** The backlog has lasted long enough, and the cooldown is over. */
  predicate WantsUp(c: Config, m: Memory, o: Observation) {
    CanScale(c, m, At(o, 0)) && m.pendingSince.Some? && o.now - m.pendingSince.value >= c.sustainWindow
  }

  function Tick(c: Config, m: Memory, o: Observation): TickResult {
    var noted := NotePending(c, m, o);
    if WantsUp(c, noted, o) && o.listed.None? then TickResult(noted, ListFailed, [], 0)
    else if WantsUp(c, noted, o) && o.listed.value < c.maxWorkers then
      if o.created then TickResult(noted.(pendingSince := None, lastScale := Some(o.doneAt)), ScaledUp, [], 0)
      else TickResult(noted, UpFailed, [], 0)
    else Sweep(c, noted, o, 0)
  }

  class Runner {
    const cfg: Config
    var pendingSince: Option<int>
    var idleSince: map<NodeId, int>
    var lastScaleAction: Option<int>

    constructor (cfg: Config)
      ensures this.cfg == cfg && Remembered() == BLANK
    {
      this.cfg := cfg;
      pendingSince, idleSince, lastScaleAction := None, map[], None;
    }

    function Remembered(): Memory
      reads this
    {
      Memory(pendingSince, idleSince, lastScaleAction)
    }

    /** Not the leader: forget what was seen. */
    method Forget()
      modifies this
      ensures Remembered() == Memory(None, map[], old(lastScaleAction))
    {
      pendingSince, idleSince := None, map[];
    }

    method RunTick(o: Observation) returns (outcome: Outcome, writes: seq<Write>)
      modifies this
      ensures var r := Tick(cfg, old(Remembered()), o);
              outcome == r.outcome && writes == r.writes && Remembered() == r.memory
    {
      if o.pending >= cfg.pendingThreshold {
        if pendingSince.None? {
          pendingSince := Some(o.now);
        }
      } else {
        pendingSince := None;
      }
      if CanScale(cfg, Remembered(), At(o, 0)) && pendingSince.Some? && o.now - pendingSince.value >= cfg.sustainWindow {
        if o.listed.None? {
          return ListFailed, [];
        }
        if o.listed.value < cfg.maxWorkers {
          if !o.created {
            return UpFailed, [];
          }
          lastScaleAction := Some(o.doneAt);
          pendingSince := None;
          return ScaledUp, [];
        }
      }
      outcome, writes := SweepNodes(o);
    }

    method SweepNodes(o: Observation) returns (outcome: Outcome, writes: seq<Write>)
      modifies this
      ensures var r := Sweep(cfg, old(Remembered()), o, 0);
              outcome == r.outcome && writes == r.writes && Remembered() == r.memory
    {
      var nodes := Autoscaled(o);
      ghost var m := Remembered();
      for i := 0 to |nodes|
        invariant Sweep(cfg, m, o, 0) == Sweep(cfg, Remembered(), o, i)
      {
        var node := nodes[i];
        if node.status != Ready && node.status != Cordoned {
          idleSince := idleSince - {node.id};
          continue;
        }
        var alloc := Reserved(o.allocs, node.id);
        if !(alloc.cpu == 0 && alloc.mem == 0) {
          idleSince := idleSince - {node.id};
          continue;
        }
        if node.id !in idleSince {
          idleSince := idleSince[node.id := o.now];
        }
        if !CanScale(cfg, Remembered(), At(o, i + 1)) {
          continue;
        }
        if o.now - idleSince[node.id] >= cfg.idleWindow {
          outcome, writes := ReclaimNode(o, node, i + 1);
          return;
        }
      }
      return NoAction, [];
    }

    method ReclaimNode(o: Observation, node: Node, ghost examined: nat) returns (outcome: Outcome, writes: seq<Write>)
      modifies this
      ensures var r := Reclaim(old(Remembered()), o, node, examined);
              outcome == r.outcome && writes == r.writes && Remembered() == r.memory
    {
      writes := [];
      if node.status != Cordoned {
        if o.failing == Some(Cordoning) {
          return DownFailed(node.id), [];
        }
        writes := [Cordon(node.id)];
      }
      if o.failing == Some(ListingContainers) || o.failing == Some(RemovingContainer) {
        return DownFailed(node.id), writes;
      }
      writes := writes + [MarkDead(node.id)];
      idleSince := idleSince - {node.id};
      lastScaleAction := Some(o.doneAt);
      outcome := ScaledDown(node.id);
    }
  }

  // ---------- runs ----------

  datatype Event =
    | Ticked(o: Observation)
    | Skipped        // the tick failed before it had seen anything
    | NotLeading     // the replica was not the leader at this poll

  function Next(c: Config, m: Memory, e: Event): Memory {
    match e
    case Ticked(o) => Tick(c, m, o).memory
    case Skipped => m
    case NotLeading => Memory(None, map[], m.lastScale)
  }

  datatype Run = Run(memories: seq<Memory>, events: seq<Event>)

  ghost predicate NextAt(c: Config, run: Run, k: nat) {
    k < |run.events| && k + 1 < |run.memories| && run.memories[k + 1] == Next(c, run.memories[k], run.events[k])
  }

  ghost predicate IsRun(c: Config, run: Run) {
    && |run.memories| == |run.events| + 1 && run.memories[0] == BLANK
    && forall k: nat :: k < |run.events| ==> NextAt(c, run, k)
  }

  /** Within a tick the clock does not go back, and a tick starts no earlier than one before it ended. */
  ghost predicate ClockForward(run: Run) {
    && (forall k :: 0 <= k < |run.events| && run.events[k].Ticked? ==>
                      forall i: nat :: run.events[k].o.now <= At(run.events[k].o, i) <= run.events[k].o.doneAt)
    && (forall i, j :: 0 <= i < j < |run.events| && run.events[i].Ticked? && run.events[j].Ticked? ==>
                         run.events[i].o.doneAt <= run.events[j].o.now)
  }

  function OutcomeAt(c: Config, run: Run, k: nat): Outcome
    requires k < |run.events| && k < |run.memories|
  {
    match run.events[k]
    case Ticked(o) => Tick(c, run.memories[k], o).outcome
    case _ => NoAction
  }

  predicate Scaled(outcome: Outcome) {
    outcome.ScaledUp? || outcome.ScaledDown?
  }

  // ---------- cooldown ----------

  lemma {:induction false} SweepScale(c: Config, m: Memory, o: Observation, i: nat)
    requires i <= |Autoscaled(o)|
    ensures var r := Sweep(c, m, o, i);
            && !r.outcome.ScaledUp? && !r.outcome.UpFailed? && !r.outcome.ListFailed?
            && r.memory.pendingSince == m.pendingSince
            && r.memory.lastScale == (if Scaled(r.outcome) then Some(o.doneAt) else m.lastScale)
            && (Scaled(r.outcome) ==> exists k: nat :: CanScale(c, m, At(o, k)))
    decreases |Autoscaled(o)| - i
  {
    if i < |Autoscaled(o)| {
      var noted := NoteIdle(m, o, Autoscaled(o)[i]);
      if !Reclaims(c, noted, o, Autoscaled(o)[i], At(o, i + 1)) {
        SweepScale(c, noted, o, i + 1);
      } else {
        assert CanScale(c, m, At(o, i + 1));
      }
    }
  }

  /** A tick that scales does so when one of its checks finds the cooldown over, and notes when it was
      done; any other tick leaves the time of the last action alone. */
  lemma TickScale(c: Config, m: Memory, o: Observation)
    ensures var r := Tick(c, m, o);
            && r.memory.lastScale == (if Scaled(r.outcome) then Some(o.doneAt) else m.lastScale)
            && (Scaled(r.outcome) ==> exists k: nat :: CanScale(c, m, At(o, k)))
  {
    var noted := NotePending(c, m, o);
    SweepScale(c, noted, o, 0);
    assert forall k: nat :: CanScale(c, noted, At(o, k)) == CanScale(c, m, At(o, k));
  }

  lemma {:induction false} LastScaleKept(c: Config, run: Run, i: nat, k: nat)
    requires IsRun(c, run) && ClockForward(run) && i < k < |run.memories|
    requires Scaled(OutcomeAt(c, run, i))
    ensures run.memories[k].lastScale.Some? && run.memories[k].lastScale.value >= run.events[i].o.doneAt
  {
    assert NextAt(c, run, k - 1);
    if run.events[k - 1].Ticked? {
      TickScale(c, run.memories[k - 1], run.events[k - 1].o);
    }
    if i < k - 1 {
      LastScaleKept(c, run, i, k - 1);
    }
  }

  /** Successful scale actions are at least Cooldown apart. */
  lemma CooldownBetweenActions(c: Config, run: Run, i: nat, j: nat)
    requires IsRun(c, run) && ClockForward(run) && i < j < |run.events| && c.cooldown > 0
    requires Scaled(OutcomeAt(c, run, i)) && Scaled(OutcomeAt(c, run, j))
    ensures run.events[j].o.doneAt - run.events[i].o.doneAt >= c.cooldown
  {
    LastScaleKept(c, run, i, j);
    TickScale(c, run.memories[j], run.events[j].o);
  }

  // ---------- scaling up ----------

  /** From event `i` on, up to event `k`, every observation had the backlog at the threshold or above,
      and the replica led throughout. */
  ghost predicate Sustained(c: Config, run: Run, i: nat, k: nat) {
    && i < k <= |run.events|
    && run.events[i].Ticked?
    && forall x :: i <= x < k ==>
                     !run.events[x].NotLeading? && (run.events[x].Ticked? ==> run.events[x].o.pending >= c.pendingThreshold)
  }

  lemma TickPending(c: Config, m: Memory, o: Observation)
    ensures var r := Tick(c, m, o);
            r.memory.pendingSince == if r.outcome.ScaledUp? then None else NotePending(c, m, o).pendingSince
  {
    SweepScale(c, NotePending(c, m, o), o, 0);
  }

  lemma {:induction false} PendingSinceIsSustained(c: Config, run: Run, k: nat) returns (i: nat)
    requires IsRun(c, run) && k < |run.memories| && run.memories[k].pendingSince.Some?
    ensures Sustained(c, run, i, k) && run.events[i].o.now == run.memories[k].pendingSince.value
  {
    assert NextAt(c, run, k - 1);
    var before := run.memories[k - 1];
    if run.events[k - 1].Ticked? {
      TickPending(c, before, run.events[k - 1].o);
    }
    if before.pendingSince.Some? {
      i := PendingSinceIsSustained(c, run, k - 1);
    } else {
      i := k - 1;
    }
  }

  /** Each scale-up at event `j` follows a stretch of at least SustainWindow, starting with an
      observation, in which every observation had pending at the threshold or above, its own included. */
  lemma ScaleUpIsSustained(c: Config, run: Run, j: nat) returns (i: nat)
    requires IsRun(c, run) && j < |run.events| && OutcomeAt(c, run, j).ScaledUp?
    ensures Sustained(c, run, i, j + 1) && run.events[j].o.now - run.events[i].o.now >= c.sustainWindow
  {
    var m, o := run.memories[j], run.events[j].o;
    SweepScale(c, NotePending(c, m, o), o, 0);
    assert WantsUp(c, NotePending(c, m, o), o);
    if m.pendingSince.Some? {
      i := PendingSinceIsSustained(c, run, j);
    } else {
      i := j;
    }
  }

  /** The number of managed containers before each event, when this runner is their only creator: a
      listing is correct, an attempt to scale up adds at most one, and nothing else adds any. */
  ghost predicate OnlyCreator(c: Config, run: Run, count: seq<nat>) {
    && |count| == |run.memories|
    && forall k :: 0 <= k < |run.events| && k + 1 < |count| && k < |run.memories| ==>
                     var up := OutcomeAt(c, run, k).ScaledUp? || OutcomeAt(c, run, k).UpFailed?;
                     && (up ==> run.events[k].o.listed == Some(count[k]))
                     && count[k + 1] <= count[k] + if up then 1 else 0
  }

  /** The managed containers never exceed the maximum. */
  lemma {:induction false} NeverTooManyWorkers(c: Config, run: Run, count: seq<nat>, k: nat)
    requires IsRun(c, run) && OnlyCreator(c, run, count) && k < |count| && count[0] <= c.maxWorkers
    ensures count[k] <= c.maxWorkers
  {
    if k > 0 {
      NeverTooManyWorkers(c, run, count, k - 1);
      if run.events[k - 1].Ticked? {
        var m, o := run.memories[k - 1], run.events[k - 1].o;
        SweepScale(c, NotePending(c, m, o), o, 0);
      }
    }
  }

  // ---------- scaling down ----------

  lemma {:induction false} FilterDistinct(nodes: seq<Node>, k: nat)
    requires k <= |nodes| && DistinctIds(nodes)
    ensures DistinctIds(FilterAutoscaled(nodes, k))
    ensures forall x <- FilterAutoscaled(nodes, k) :: exists i :: 0 <= i < k && nodes[i] == x
  {
    if k > 0 {
      FilterDistinct(nodes, k - 1);
      forall x | x in FilterAutoscaled(nodes, k - 1) ensures x.id != nodes[k - 1].id {
        var i :| 0 <= i < k - 1 && nodes[i] == x;
      }
    }
  }

  /** The node is the `i`th autoscaled one of the observation. */
  predicate IsAt(o: Observation, i: nat, n: NodeId) {
    i < |Autoscaled(o)| && Autoscaled(o)[i].id == n
  }

  /** Some autoscaled node from the `from`th on, before the `to`th, is `n`. */
  ghost predicate Between(o: Observation, from: nat, to: nat, n: NodeId) {
    exists i: nat :: from <= i < to && IsAt(o, i, n)
  }

  /** Autoscaled node `n` is idle in the observation. */
  ghost predicate IdleIn(o: Observation, n: NodeId) {
    exists i: nat :: IsAt(o, i, n) && SeenIdle(o, Autoscaled(o)[i])
  }

  /** Autoscaled node `n` is in the observation, and not idle. */
  ghost predicate BusyIn(o: Observation, n: NodeId) {
    exists i: nat :: IsAt(o, i, n) && !SeenIdle(o, Autoscaled(o)[i])
  }

  lemma IdleAt(o: Observation, i: nat, n: NodeId)
    requires DistinctIds(Autoscaled(o)) && IsAt(o, i, n)
    ensures IdleIn(o, n) <==> SeenIdle(o, Autoscaled(o)[i])
    ensures BusyIn(o, n) <==> !SeenIdle(o, Autoscaled(o)[i])
  {
    forall j: nat | IsAt(o, j, n) ensures j == i {}
  }

  predicate Attempted(outcome: Outcome, n: NodeId) {
    outcome == ScaledDown(n) || outcome == DownFailed(n)
  }

  /** What a sweep does to the idle mark of `n`, and when it sets out to reclaim it. */
  lemma {:induction false} SweepIdle(c: Config, m: Memory, o: Observation, i: nat, n: NodeId)
    requires i <= |Autoscaled(o)| && DistinctIds(Autoscaled(o))
    ensures var r := Sweep(c, m, o, i);
            && i <= r.examined <= |Autoscaled(o)|
            && (n in r.memory.idleSince ==>
                  if n in m.idleSince then r.memory.idleSince[n] == m.idleSince[n] else r.memory.idleSince[n] == o.now)
            && (n in r.memory.idleSince && n !in m.idleSince ==> Between(o, i, r.examined, n))
            && (n in r.memory.idleSince && Between(o, i, r.examined, n) ==> IdleIn(o, n))
            && (Attempted(r.outcome, n) ==>
                  && IdleIn(o, n) && Between(o, i, r.examined, n)
                  && o.now - (if n in m.idleSince then m.idleSince[n] else o.now) >= c.idleWindow)
    decreases |Autoscaled(o)| - i
  {
    if i < |Autoscaled(o)| {
      var node := Autoscaled(o)[i];
      var noted := NoteIdle(m, o, node);
      assert IsAt(o, i, node.id);
      IdleAt(o, i, node.id);
      if !Reclaims(c, noted, o, node, At(o, i + 1)) {
        SweepIdle(c, noted, o, i + 1, n);
        SplitBetween(o, i, Sweep(c, noted, o, i + 1).examined, n);
        if node.id == n {
          NotLater(o, i, Sweep(c, noted, o, i + 1).examined);
        }
      } else {
        SplitBetween(o, i, i + 1, n);
      }
    }
  }

  lemma SplitBetween(o: Observation, i: nat, to: nat, n: NodeId)
    requires i < |Autoscaled(o)| && i < to
    ensures Between(o, i, to, n) <==> Autoscaled(o)[i].id == n || Between(o, i + 1, to, n)
  {
    if Autoscaled(o)[i].id == n {
      assert IsAt(o, i, n);
    }
  }

  lemma NotLater(o: Observation, i: nat, to: nat)
    requires i < |Autoscaled(o)| && DistinctIds(Autoscaled(o))
    ensures !Between(o, i + 1, to, Autoscaled(o)[i].id)
  {}

  /** The tick looked at node `n`. */
  ghost predicate LooksAt(c: Config, m: Memory, o: Observation, n: NodeId) {
    Between(o, 0, Tick(c, m, o).examined, n)
  }

  // ---------- which nodes a tick looks at ----------

  /** The tick is over before it looks at any node: it wants to scale up, and the containers cannot be
      listed, or there is room for one more. */
  predicate ExitsEarly(c: Config, m: Memory, o: Observation) {
    WantsUp(c, NotePending(c, m, o), o) && (o.listed.None? || o.listed.value < c.maxWorkers)
  }

  /** Since when node `n` counts as idle if the tick sees it idle. */
  function MarkOf(m: Memory, o: Observation, n: NodeId): int {
    if n in m.idleSince then m.idleSince[n] else o.now
  }

  /** The `q`th autoscaled node is due: idle for long enough, and its check finds the cooldown over. */
  predicate DueAt(c: Config, m: Memory, o: Observation, q: nat) {
    && q < |Autoscaled(o)|
    && SeenIdle(o, Autoscaled(o)[q])
    && CanScale(c, m, At(o, q + 1))
    && o.now - MarkOf(m, o, Autoscaled(o)[q].id) >= c.idleWindow
  }

  /** The marks of the nodes from the `i`th on are as they were, and so is the last action. */
  ghost predicate SameFrom(m: Memory, m': Memory, o: Observation, i: nat) {
    && m'.lastScale == m.lastScale
    && forall q: nat :: i <= q < |Autoscaled(o)| ==> MarkOf(m', o, Autoscaled(o)[q].id) == MarkOf(m, o, Autoscaled(o)[q].id)
  }

  /** A sweep looks at every node up to and including the first that is due. */
  lemma {:induction false} SweepExamines(c: Config, m: Memory, m': Memory, o: Observation, i: nat)
    requires i <= |Autoscaled(o)| && DistinctIds(Autoscaled(o)) && SameFrom(m, m', o, i)
    ensures var r := Sweep(c, m', o, i);
            && i <= r.examined <= |Autoscaled(o)|
            && (forall q: nat :: i <= q < r.examined - 1 ==> !DueAt(c, m, o, q))
            && (r.examined < |Autoscaled(o)| ==> i < r.examined && DueAt(c, m, o, r.examined - 1))
    decreases |Autoscaled(o)| - i
  {
    if i < |Autoscaled(o)| {
      var node := Autoscaled(o)[i];
      var noted := NoteIdle(m', o, node);
      assert Reclaims(c, noted, o, node, At(o, i + 1)) <==> DueAt(c, m, o, i);
      if !DueAt(c, m, o, i) {
        assert SameFrom(m, noted, o, i + 1);
        SweepExamines(c, m, noted, o, i + 1);
      }
    }
  }

  /** The tick ends before it would look at node `n`: early, or with a node listed before it. */
  ghost predicate CutShortBefore(c: Config, m: Memory, o: Observation, n: NodeId) {
    ExitsEarly(c, m, o) || exists p: nat, q: nat :: IsAt(o, p, n) && q < p && DueAt(c, m, o, q)
  }

  /** A tick looks at an autoscaled node exactly when it does not exit early and no node listed before it
      is due. */
  lemma LooksExactly(c: Config, m: Memory, o: Observation, n: NodeId)
    requires DistinctIds(o.nodes)
    ensures LooksAt(c, m, o, n) <==> (exists p: nat :: IsAt(o, p, n)) && !CutShortBefore(c, m, o, n)
  {
    FilterDistinct(o.nodes, |o.nodes|);
    var noted := NotePending(c, m, o);
    if !ExitsEarly(c, m, o) {
      SweepExamines(c, m, noted, o, 0);
      var examined := Tick(c, m, o).examined;
      if p: nat :| IsAt(o, p, n) {
        OnlyAt(o, p, n, examined);
        if p < examined {
          assert forall q: nat :: q < p ==> !DueAt(c, m, o, q);
        }
      }
    }
  }

  lemma OnlyAt(o: Observation, p: nat, n: NodeId, to: nat)
    requires DistinctIds(Autoscaled(o)) && IsAt(o, p, n)
    ensures Between(o, 0, to, n) <==> p < to
    ensures forall p': nat :: IsAt(o, p', n) ==> p' == p
  {}

  // ---------- runs of ticks ----------

  ghost predicate RowsDistinct(run: Run) {
    forall k :: 0 <= k < |run.events| && run.events[k].Ticked? ==> DistinctIds(run.events[k].o.nodes)
  }

  /** At event `x` the replica led, and if the tick looked at `n` it saw it idle. */
  ghost predicate NotSeenBusy(c: Config, run: Run, x: nat, n: NodeId)
    requires x < |run.events| && x < |run.memories|
  {
    && !run.events[x].NotLeading?
    && (run.events[x].Ticked? && LooksAt(c, run.memories[x], run.events[x].o, n) ==> IdleIn(run.events[x].o, n))
  }

  /** `n` was looked at and seen idle at event `i`, and not seen busy from then on up to event `k`. */
  ghost predicate IdleStretch(c: Config, run: Run, i: nat, k: nat, n: NodeId) {
    && i < k <= |run.events| && k <= |run.memories|
    && run.events[i].Ticked? && LooksAt(c, run.memories[i], run.events[i].o, n)
    && forall x :: i <= x < k ==> NotSeenBusy(c, run, x, n)
  }

  lemma TickIdle(c: Config, m: Memory, o: Observation, n: NodeId)
    requires DistinctIds(o.nodes)
    ensures var r := Tick(c, m, o);
            && (n in r.memory.idleSince ==>
                  if n in m.idleSince then r.memory.idleSince[n] == m.idleSince[n]
                  else r.memory.idleSince[n] == o.now && LooksAt(c, m, o, n))
            && (n in r.memory.idleSince && LooksAt(c, m, o, n) ==> IdleIn(o, n))
            && (Attempted(r.outcome, n) ==>
                  && IdleIn(o, n) && LooksAt(c, m, o, n)
                  && o.now - MarkOf(m, o, n) >= c.idleWindow)
  {
    FilterDistinct(o.nodes, |o.nodes|);
    SweepIdle(c, NotePending(c, m, o), o, 0, n);
  }

  lemma {:induction false} MarkIsIdleStretch(c: Config, run: Run, k: nat, n: NodeId) returns (i: nat)
    requires IsRun(c, run) && RowsDistinct(run) && k < |run.memories| && n in run.memories[k].idleSince
    ensures IdleStretch(c, run, i, k, n) && run.events[i].o.now == run.memories[k].idleSince[n]
  {
    assert NextAt(c, run, k - 1);
    if run.events[k - 1].Ticked? {
      TickIdle(c, run.memories[k - 1], run.events[k - 1].o, n);
    }
    assert NotSeenBusy(c, run, k - 1, n);
    if n in run.memories[k - 1].idleSince {
      i := MarkIsIdleStretch(c, run, k - 1, n);
    } else {
      i := k - 1;
    }
  }

  /** Only autoscaled-labelled nodes are set out to be reclaimed, and only when the tick sees them idle
      and first saw them idle at least IdleWindow earlier, at the event that set their mark; no tick in
      between that looked at the node saw it busy. */
  lemma ReclaimedWasIdle(c: Config, run: Run, j: nat, n: NodeId) returns (i: nat)
    requires IsRun(c, run) && RowsDistinct(run) && j < |run.events| && Attempted(OutcomeAt(c, run, j), n)
    ensures IdleStretch(c, run, i, j + 1, n)
    ensures run.events[i].o.now == MarkOf(run.memories[j], run.events[j].o, n)
    ensures run.events[j].o.now - run.events[i].o.now >= c.idleWindow
    ensures IdleIn(run.events[j].o, n)
            && exists node <- run.events[j].o.nodes :: node.id == n && IsAutoscaled(node)
  {
    var m, o := run.memories[j], run.events[j].o;
    TickIdle(c, m, o, n);
    FilterDistinct(o.nodes, |o.nodes|);
    var a: nat :| IsAt(o, a, n);
    assert Autoscaled(o)[a] in Autoscaled(o);
    assert NotSeenBusy(c, run, j, n);
    if n in m.idleSince {
      i := MarkIsIdleStretch(c, run, j, n);
    } else {
      i := j;
    }
  }

  /** At event `x` a tick observed `n` busy; with `cutShort`, one that ended before it would look at `n`. */
  ghost predicate ObservedBusy(c: Config, run: Run, x: nat, n: NodeId, cutShort: bool) {
    && x < |run.events| && x < |run.memories| && run.events[x].Ticked?
    && BusyIn(run.events[x].o, n)
    && (cutShort ==> CutShortBefore(c, run.memories[x], run.events[x].o, n))
  }

  /** From the event that set its mark to the one that sets out to reclaim it, every observation of the
      node shows it idle if and only if no tick that was cut short before the node observed it busy. */
  lemma ReclaimedIdleExactly(c: Config, run: Run, j: nat, n: NodeId) returns (i: nat)
    requires IsRun(c, run) && RowsDistinct(run) && j < |run.events| && Attempted(OutcomeAt(c, run, j), n)
    ensures i <= j && run.events[i].Ticked? && run.events[i].o.now == MarkOf(run.memories[j], run.events[j].o, n)
    ensures run.events[j].o.now - run.events[i].o.now >= c.idleWindow
    ensures (forall x: nat :: i <= x <= j ==> !ObservedBusy(c, run, x, n, false))
            <==> (forall x: nat :: i <= x <= j ==> !ObservedBusy(c, run, x, n, true))
  {
    i := ReclaimedWasIdle(c, run, j, n);
    forall x: nat | i <= x <= j && ObservedBusy(c, run, x, n, false) ensures ObservedBusy(c, run, x, n, true) {
      assert NotSeenBusy(c, run, x, n);
      BusyIsMissed(c, run.memories[x], run.events[x].o, n);
    }
    forall x: nat | i <= x <= j && ObservedBusy(c, run, x, n, true) ensures ObservedBusy(c, run, x, n, false) {}
  }

  lemma BusyIsMissed(c: Config, m: Memory, o: Observation, n: NodeId)
    requires DistinctIds(o.nodes) && BusyIn(o, n) && (LooksAt(c, m, o, n) ==> IdleIn(o, n))
    ensures CutShortBefore(c, m, o, n)
  {
    FilterDistinct(o.nodes, |o.nodes|);
    var p: nat :| IsAt(o, p, n) && !SeenIdle(o, Autoscaled(o)[p]);
    IdleAt(o, p, n);
    LooksExactly(c, m, o, n);
  }

  // ---------- a busy node can be missed ----------

  lemma OneNode(c: Config, m: Memory, o: Observation, node: Node)
    requires o.nodes == [node] && IsAutoscaled(node)
    ensures Autoscaled(o) == [node]
    ensures var noted := NoteIdle(m, o, node);
            Sweep(c, m, o, 0) ==
            if Reclaims(c, noted, o, node, At(o, 1)) then Reclaim(noted, o, node, 1) else TickResult(noted, NoAction, [], 1)
  {
    assert FilterAutoscaled(o.nodes, 1) == FilterAutoscaled(o.nodes, 0) + [node];
    assert Sweep(c, NoteIdle(m, o, node), o, 1) == TickResult(NoteIdle(m, o, node), NoAction, [], 1);
  }

  // A worker is seen idle at 0, busy at 5 while a new one is being created, and idle again at 10.
  const EXAMPLE_CONFIG := Config(1, 0, 10, 5, 0)
  const WORKER := Node(0, "w", "a", Resources(1, 1), Some(map["autoscaled" := "true"]), Ready, 0)
  const SEEN_IDLE := Observation(0, [WORKER], map[], 0, [], 0, Some(0), true, None)
  const SEEN_BUSY := Observation(1, [WORKER], map[0 := Resources(1, 1)], 5, [], 5, Some(0), true, None)
  const SEEN_IDLE_AGAIN := Observation(0, [WORKER], map[], 10, [], 10, Some(0), true, None)
  const MARKED := Memory(None, map[0 := 0], None)
  const STILL_MARKED := Memory(None, map[0 := 0], Some(5))
  const RECLAIMED := Memory(None, map[], Some(10))

  lemma ExampleTicks()
    ensures Tick(EXAMPLE_CONFIG, BLANK, SEEN_IDLE).memory == MARKED
    ensures Tick(EXAMPLE_CONFIG, MARKED, SEEN_BUSY).memory == STILL_MARKED
    ensures Tick(EXAMPLE_CONFIG, STILL_MARKED, SEEN_IDLE_AGAIN)
            == TickResult(RECLAIMED, ScaledDown(0), [Cordon(0), MarkDead(0)], 1)
  {
    OneNode(EXAMPLE_CONFIG, BLANK, SEEN_IDLE, WORKER);
    OneNode(EXAMPLE_CONFIG, STILL_MARKED, SEEN_IDLE_AGAIN, WORKER);
  }

  const EXAMPLE_RUN := Run([BLANK, MARKED, STILL_MARKED, RECLAIMED],
                           [Ticked(SEEN_IDLE), Ticked(SEEN_BUSY), Ticked(SEEN_IDLE_AGAIN)])

  lemma ExampleIsRun()
    ensures IsRun(EXAMPLE_CONFIG, EXAMPLE_RUN) && OutcomeAt(EXAMPLE_CONFIG, EXAMPLE_RUN, 2) == ScaledDown(0)
  {
    ExampleTicks();
    assert NextAt(EXAMPLE_CONFIG, EXAMPLE_RUN, 0) && NextAt(EXAMPLE_CONFIG, EXAMPLE_RUN, 1) && NextAt(EXAMPLE_CONFIG, EXAMPLE_RUN, 2);
  }

  lemma ExampleIsBusy()
    ensures ObservedBusy(EXAMPLE_CONFIG, EXAMPLE_RUN, 1, 0, true)
  {
    OneNode(EXAMPLE_CONFIG, MARKED, SEEN_BUSY, WORKER);
    assert IsAt(SEEN_BUSY, 0, 0);
  }

  /** A tick that scales up looks at no node, so a node can be busy in an observation and be reclaimed
      all the same for having been idle since before it. */
  lemma BusyCanBeMissed()
    ensures exists c: Config, run: Run, n: NodeId ::
              && IsRun(c, run) && ClockForward(run) && RowsDistinct(run) && |run.events| == 3
              && OutcomeAt(c, run, 2) == ScaledDown(n)
              && ObservedBusy(c, run, 1, n, true)
              && run.memories[2].idleSince == map[n := 0]
  {
    ExampleIsRun();
    ExampleIsBusy();
    assert ClockForward(EXAMPLE_RUN) && RowsDistinct(EXAMPLE_RUN);
  }
}
