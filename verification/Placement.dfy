/** Filter, score and pick: how one task is matched against a list of nodes. Scores are exact
    reals here; the scheduler computes them in float64. */
module Placement {
  import opened Entities
  import opened Hostnames

  /** A node and what is already reserved on it. */
  datatype NodeView = NodeView(node: Node, alloc: Resources) {

    function FreeCpu(): int {
      node.capacity.cpu - alloc.cpu
    }

    function FreeMem(): int {
      node.capacity.mem - alloc.mem
    }

    function CpuUtilization(): real {
      if node.capacity.cpu <= 0 then 1.0 else alloc.cpu as real / node.capacity.cpu as real
    }

    function MemUtilization(): real {
      if node.capacity.mem <= 0 then 1.0 else alloc.mem as real / node.capacity.mem as real
    }

    function Utilization(): real {
      (CpuUtilization() + MemUtilization()) / 2.0
    }
  }

  datatype Filter = ReadyFilter | ResourceFilter | LabelSelectorFilter

  const DEFAULT_FILTERS: seq<Filter> := [ReadyFilter, ResourceFilter, LabelSelectorFilter]

  /** A label that is not present reads as the empty string. */
  function Label(labels: map<string, string>, key: string): string {
    if key in labels then labels[key] else ""
  }

  predicate LabelsMatch(labels: Option<map<string, string>>, constraints: map<string, string>) {
    |constraints| == 0 ||
    (labels.Some? && forall k <- constraints :: Label(labels.value, k) == constraints[k])
  }

  predicate Passes(f: Filter, view: NodeView, task: TaskRequest) {
    match f
    case ReadyFilter => view.node.status == Ready
    case ResourceFilter => view.FreeCpu() >= task.request.cpu && view.FreeMem() >= task.request.mem
    case LabelSelectorFilter => LabelsMatch(view.node.labels, task.constraints)
  }

  datatype Scorer = BinPackScorer | SpreadScorer

  function ScorerForPolicy(policy: string): Scorer {
    if policy == SPREAD then SpreadScorer else BinPackScorer
  }

  function Score(scorer: Scorer, view: NodeView, task: TaskRequest): real {
    match scorer
    case BinPackScorer => view.(alloc := view.alloc.Plus(task.request)).Utilization()
    case SpreadScorer => 1.0 - view.Utilization()
  }

  /** Missing entries of an allocation map count as nothing reserved. */
  function Reserved(allocs: map<NodeId, Resources>, n: NodeId): Resources {
    if n in allocs then allocs[n] else NOTHING
  }

  function ViewOf(node: Node, allocs: map<NodeId, Resources>): NodeView {
    NodeView(node, Reserved(allocs, node.id))
  }

  predicate Eligible(node: Node, allocs: map<NodeId, Resources>, task: TaskRequest, filters: seq<Filter>) {
    forall f <- filters :: Passes(f, ViewOf(node, allocs), task)
  }

  // ---------- what the filters and the score come down to ----------

  /** The node has each constraint's key with exactly its value; a key that it does not have reads as "". */
  ghost predicate Carries(node: Node, constraints: map<string, string>) {
    && (constraints != map[] ==> node.labels.Some?)
    && forall key <- constraints ::
         constraints[key] == if node.labels.Some? && key in node.labels.value then node.labels.value[key] else ""
  }

  /** The node would take the task, holding what it holds: it is ready, the request fits beside that, in CPU
      and in memory, and it carries the labels. */
  ghost predicate CanTake(node: Node, held: Resources, task: TaskRequest) {
    && node.status == Ready
    && held.cpu + task.request.cpu <= node.capacity.cpu
    && held.mem + task.request.mem <= node.capacity.mem
    && Carries(node, task.constraints)
  }

  ghost predicate Admits(node: Node, alloc: map<NodeId, Resources>, task: TaskRequest) {
    CanTake(node, if node.id in alloc then alloc[node.id] else Resources(0, 0), task)
  }

  /** A node passes the default filters exactly when it would take the task. */
  lemma EligibleIsAdmits(node: Node, alloc: map<NodeId, Resources>, task: TaskRequest)
    ensures Eligible(node, alloc, task, DEFAULT_FILTERS) <==> Admits(node, alloc, task)
  {
    var view := ViewOf(node, alloc);
    assert DEFAULT_FILTERS[0] == ReadyFilter && DEFAULT_FILTERS[1] == ResourceFilter
           && DEFAULT_FILTERS[2] == LabelSelectorFilter;
    assert Eligible(node, alloc, task, DEFAULT_FILTERS) <==>
        Passes(DEFAULT_FILTERS[0], view, task) && Passes(DEFAULT_FILTERS[1], view, task) && Passes(DEFAULT_FILTERS[2], view, task);
    assert task.constraints == map[] <==> |task.constraints| == 0;
  }

  /** Twice the share of a node's capacity that is taken, over the product of its capacities: CPU and memory
      count alike. */
  function Share(capacity: Resources, held: Resources): int {
    held.cpu * capacity.mem + held.mem * capacity.cpu
  }

  lemma FractionsAdd(x: int, c: int, y: int, m: int)
    requires c > 0 && m > 0
    ensures x as real / c as real + y as real / m as real == (x * m + y * c) as real / (c * m) as real
  {
    var a, b, d, e := x as real, c as real, y as real, m as real;
    assert a / b == (a * e) / (b * e);
    assert d / e == (d * b) / (b * e);
    assert (a * e) / (b * e) + (d * b) / (b * e) == (a * e + d * b) / (b * e);
  }

  lemma FractionsCompare(p: int, q: int, r: int, s: int)
    requires q > 0 && s > 0
    ensures p as real / q as real > r as real / s as real <==> p * s > r * q
    ensures p as real / q as real == r as real / s as real <==> p * s == r * q
  {
    var a, b, c, d := p as real, q as real, r as real, s as real;
    assert a / b == (a * d) / (b * d);
    assert c / d == (c * b) / (b * d);
    assert (p * s) as real == a * d && (r * q) as real == c * b;
  }

  lemma UtilizationIsShare(view: NodeView)
    requires view.node.capacity.Positive()
    ensures view.Utilization()
            == Share(view.node.capacity, view.alloc) as real / (view.node.capacity.cpu * view.node.capacity.mem) as real / 2.0
  {
    FractionsAdd(view.alloc.cpu, view.node.capacity.cpu, view.alloc.mem, view.node.capacity.mem);
  }

  /** Which of two nodes scores higher, in whole numbers: bin-pack the one that is fuller with the task on
      it, spread the one that is emptier without; full means shares of CPU and of memory, equally weighted. */
  lemma ScoresCompare(scorer: Scorer, a: NodeView, b: NodeView, task: TaskRequest)
    requires a.node.capacity.Positive() && b.node.capacity.Positive()
    ensures var ca, cb := a.node.capacity, b.node.capacity;
            match scorer
            case BinPackScorer =>
              var fa := (a.alloc.cpu + task.request.cpu) * ca.mem + (a.alloc.mem + task.request.mem) * ca.cpu;
              var fb := (b.alloc.cpu + task.request.cpu) * cb.mem + (b.alloc.mem + task.request.mem) * cb.cpu;
              && (Score(scorer, a, task) > Score(scorer, b, task) <==> fa * (cb.cpu * cb.mem) > fb * (ca.cpu * ca.mem))
              && (Score(scorer, a, task) == Score(scorer, b, task) <==> fa * (cb.cpu * cb.mem) == fb * (ca.cpu * ca.mem))
            case SpreadScorer =>
              var fa := a.alloc.cpu * ca.mem + a.alloc.mem * ca.cpu;
              var fb := b.alloc.cpu * cb.mem + b.alloc.mem * cb.cpu;
              && (Score(scorer, a, task) > Score(scorer, b, task) <==> fb * (ca.cpu * ca.mem) > fa * (cb.cpu * cb.mem))
              && (Score(scorer, a, task) == Score(scorer, b, task) <==> fa * (cb.cpu * cb.mem) == fb * (ca.cpu * ca.mem))
  {
    var ca, cb := a.node.capacity, b.node.capacity;
    var a', b' := a, b;
    if scorer.BinPackScorer? {
      a' := NodeView(a.node, Resources(a.alloc.cpu + task.request.cpu, a.alloc.mem + task.request.mem));
      b' := NodeView(b.node, Resources(b.alloc.cpu + task.request.cpu, b.alloc.mem + task.request.mem));
    }
    UtilizationIsShare(a');
    UtilizationIsShare(b');
    FractionsCompare(Share(ca, a'.alloc), ca.cpu * ca.mem, Share(cb, b'.alloc), cb.cpu * cb.mem);
    FractionsCompare(Share(cb, b'.alloc), cb.cpu * cb.mem, Share(ca, a'.alloc), ca.cpu * ca.mem);
  }

  /** One candidate replaces another: a higher score, or the same score and a smaller hostname. */
  predicate Beats(a: Node, b: Node, allocs: map<NodeId, Resources>, task: TaskRequest, scorer: Scorer) {
    var sa, sb := Score(scorer, ViewOf(a, allocs), task), Score(scorer, ViewOf(b, allocs), task);
    sa > sb || (sa == sb && Less(a.hostname, b.hostname))
  }

  /** `k` is the node that placement must choose among the first `n` of the list: it passes every
      filter, nothing eligible beats it, and it beats every eligible node listed before it. */
  ghost predicate IsBest(nodes: seq<Node>, allocs: map<NodeId, Resources>, task: TaskRequest,
                         filters: seq<Filter>, scorer: Scorer, n: nat, k: nat)
    requires n <= |nodes|
  {
    && k < n
    && Eligible(nodes[k], allocs, task, filters)
    && (forall i :: 0 <= i < n && Eligible(nodes[i], allocs, task, filters) ==>
                      !Beats(nodes[i], nodes[k], allocs, task, scorer))
    && (forall i :: 0 <= i < k && Eligible(nodes[i], allocs, task, filters) ==>
                      Beats(nodes[k], nodes[i], allocs, task, scorer))
  }

  lemma BeatsOverUnbeaten(a: Node, b: Node, c: Node, allocs: map<NodeId, Resources>, task: TaskRequest, scorer: Scorer)
    requires Beats(a, b, allocs, task, scorer) && !Beats(c, b, allocs, task, scorer)
    ensures Beats(a, c, allocs, task, scorer) && !Beats(c, a, allocs, task, scorer)
  {
    LessIrreflexive(a.hostname);
    if Less(a.hostname, b.hostname) && !Less(c.hostname, b.hostname) {
      LessTotal(a.hostname, b.hostname);
      if Less(c.hostname, a.hostname) {
        LessTransitive(c.hostname, a.hostname, b.hostname);
      }
      assert a.hostname != c.hostname;
      LessTotal(a.hostname, c.hostname);
    }
  }

  lemma NewBest(nodes: seq<Node>, allocs: map<NodeId, Resources>, task: TaskRequest,
                filters: seq<Filter>, scorer: Scorer, n: nat, k: nat)
    requires 0 < n <= |nodes|
    requires IsBest(nodes, allocs, task, filters, scorer, n - 1, k)
    requires Eligible(nodes[n - 1], allocs, task, filters)
    requires Beats(nodes[n - 1], nodes[k], allocs, task, scorer)
    ensures IsBest(nodes, allocs, task, filters, scorer, n, n - 1)
  {
    LessIrreflexive(nodes[n - 1].hostname);
    forall i | 0 <= i < n - 1 && Eligible(nodes[i], allocs, task, filters)
      ensures Beats(nodes[n - 1], nodes[i], allocs, task, scorer)
      ensures !Beats(nodes[i], nodes[n - 1], allocs, task, scorer)
    {
      BeatsOverUnbeaten(nodes[n - 1], nodes[k], nodes[i], allocs, task, scorer);
    }
  }

  /** What the loop keeps after one more node. */
  function Keep(nodes: seq<Node>, allocs: map<NodeId, Resources>, task: TaskRequest,
                filters: seq<Filter>, scorer: Scorer, n: nat, prev: Option<nat>): (r: Option<nat>)
    requires n < |nodes| && (prev.Some? ==> prev.value < n)
    ensures r.Some? ==> r.value < n + 1
  {
    if !Eligible(nodes[n], allocs, task, filters) then prev
    else if prev.None? || Beats(nodes[n], nodes[prev.value], allocs, task, scorer) then Some(n)
    else prev
  }

  /** The index kept after looking at the first `n` nodes. */
  function BestUpTo(nodes: seq<Node>, allocs: map<NodeId, Resources>, task: TaskRequest,
                    filters: seq<Filter>, scorer: Scorer, n: nat): (r: Option<nat>)
    requires n <= |nodes|
    ensures r.Some? ==> r.value < n
  {
    if n == 0 then None
    else Keep(nodes, allocs, task, filters, scorer, n - 1, BestUpTo(nodes, allocs, task, filters, scorer, n - 1))
  }

  /** `r` is the right choice among the first `n` nodes: the best one, or none when none is eligible. */
  ghost predicate IsChoice(nodes: seq<Node>, allocs: map<NodeId, Resources>, task: TaskRequest,
                           filters: seq<Filter>, scorer: Scorer, n: nat, r: Option<nat>)
    requires n <= |nodes|
  {
    if r.Some? then IsBest(nodes, allocs, task, filters, scorer, n, r.value)
    else forall i :: 0 <= i < n ==> !Eligible(nodes[i], allocs, task, filters)
  }

  lemma KeepIsChoice(nodes: seq<Node>, allocs: map<NodeId, Resources>, task: TaskRequest,
                     filters: seq<Filter>, scorer: Scorer, n: nat, prev: Option<nat>)
    requires n < |nodes| && IsChoice(nodes, allocs, task, filters, scorer, n, prev)
    ensures IsChoice(nodes, allocs, task, filters, scorer, n + 1, Keep(nodes, allocs, task, filters, scorer, n, prev))
  {
    LessIrreflexive(nodes[n].hostname);
    if prev.Some? && Eligible(nodes[n], allocs, task, filters) && Beats(nodes[n], nodes[prev.value], allocs, task, scorer) {
      NewBest(nodes, allocs, task, filters, scorer, n + 1, prev.value);
    }
  }

  /** A node is chosen exactly when one is eligible, and it is the best one. */
  lemma {:induction false} BestUpToIsChoice(nodes: seq<Node>, allocs: map<NodeId, Resources>, task: TaskRequest,
                                            filters: seq<Filter>, scorer: Scorer, n: nat)
    requires n <= |nodes|
    ensures IsChoice(nodes, allocs, task, filters, scorer, n, BestUpTo(nodes, allocs, task, filters, scorer, n))
  {
    if n > 0 {
      BestUpToIsChoice(nodes, allocs, task, filters, scorer, n - 1);
      KeepIsChoice(nodes, allocs, task, filters, scorer, n - 1, BestUpTo(nodes, allocs, task, filters, scorer, n - 1));
    }
  }

  function Best(nodes: seq<Node>, allocs: map<NodeId, Resources>, task: TaskRequest,
                filters: seq<Filter>, scorer: Scorer): Option<nat>
  {
    BestUpTo(nodes, allocs, task, filters, scorer, |nodes|)
  }

  /** Only one index can be the best one. */
  lemma BestUnique(nodes: seq<Node>, allocs: map<NodeId, Resources>, task: TaskRequest,
                   filters: seq<Filter>, scorer: Scorer, k: nat)
    requires IsBest(nodes, allocs, task, filters, scorer, |nodes|, k)
    ensures Best(nodes, allocs, task, filters, scorer) == Some(k)
  {
    BestUpToIsChoice(nodes, allocs, task, filters, scorer, |nodes|);
  }

  ghost predicate DistinctHostnames(nodes: seq<Node>) {
    forall i, j :: 0 <= i < j < |nodes| ==> nodes[i].hostname != nodes[j].hostname
  }

  /** With distinct hostnames the chosen node is the same whatever the order of the list. */
  lemma PlaceIgnoresListOrder(nodes: seq<Node>, nodes': seq<Node>, allocs: map<NodeId, Resources>,
                              task: TaskRequest, filters: seq<Filter>, scorer: Scorer)
    requires multiset(nodes) == multiset(nodes')
    requires DistinctHostnames(nodes)
    ensures var r, r' := Best(nodes, allocs, task, filters, scorer), Best(nodes', allocs, task, filters, scorer);
            && r.Some? == r'.Some?
            && (r.Some? ==> nodes[r.value] == nodes'[r'.value])
  {
    var r, r' := Best(nodes, allocs, task, filters, scorer), Best(nodes', allocs, task, filters, scorer);
    BestUpToIsChoice(nodes, allocs, task, filters, scorer, |nodes|);
    BestUpToIsChoice(nodes', allocs, task, filters, scorer, |nodes'|);
    if r.Some? {
      assert nodes[r.value] in multiset(nodes');
    }
    if r'.Some? {
      assert nodes'[r'.value] in multiset(nodes);
    }
    if r.Some? && r'.Some? {
      var a, b := nodes[r.value], nodes'[r'.value];
      var i :| 0 <= i < |nodes| && nodes[i] == b;
      var j :| 0 <= j < |nodes'| && nodes'[j] == a;
      assert !Beats(nodes[i], nodes[r.value], allocs, task, scorer);
      assert !Beats(nodes'[j], nodes'[r'.value], allocs, task, scorer);
      if a.hostname != b.hostname {
        LessTotal(a.hostname, b.hostname);
        assert false;
      }
      assert i == r.value;
    }
  }

  /** The placement loop: keep the best candidate so far and its score. */
  method Place(nodes: seq<Node>, allocs: map<NodeId, Resources>, task: TaskRequest,
               filters: seq<Filter>, scorer: Scorer) returns (best: Option<nat>)
    ensures best.None? <==> forall i :: 0 <= i < |nodes| ==> !Eligible(nodes[i], allocs, task, filters)
    ensures best.Some? ==> IsBest(nodes, allocs, task, filters, scorer, |nodes|, best.value)
    ensures best == Best(nodes, allocs, task, filters, scorer)
    ensures filters == DEFAULT_FILTERS ==>
              match best
              case Some(k) => Admits(nodes[k], allocs, task)
              case None => forall i :: 0 <= i < |nodes| ==> !Admits(nodes[i], allocs, task)
  {
    best := None;
    var bestScore := 0.0;
    for i := 0 to |nodes|
      invariant best == BestUpTo(nodes, allocs, task, filters, scorer, i)
      invariant best.Some? ==> bestScore == Score(scorer, ViewOf(nodes[best.value], allocs), task)
    {
      var view := ViewOf(nodes[i], allocs);
      var eligible := true;
      var j := 0;
      while j < |filters| && eligible
        invariant 0 <= j <= |filters|
        invariant eligible ==> forall f <- filters[..j] :: Passes(f, view, task)
        invariant !eligible ==> exists f <- filters :: !Passes(f, view, task)
      {
        eligible := Passes(filters[j], view, task);
        j := j + 1;
      }
      assert eligible ==> filters[..j] == filters;
      if eligible {
        var score := Score(scorer, view, task);
        if best.None? || score > bestScore
           || (score == bestScore && Less(nodes[i].hostname, nodes[best.value].hostname)) {
          best := Some(i);
          bestScore := score;
        }
      }
    }
    BestUpToIsChoice(nodes, allocs, task, filters, scorer, |nodes|);
    forall i | 0 <= i < |nodes|
      ensures filters == DEFAULT_FILTERS ==> (Eligible(nodes[i], allocs, task, filters) <==> Admits(nodes[i], allocs, task))
    {
      EligibleIsAdmits(nodes[i], allocs, task);
    }
  }
}
