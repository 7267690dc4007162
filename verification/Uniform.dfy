/** What a batch does on equal, empty, ready nodes with distinct hostnames when its tasks are
    identical: closed forms of the loads that bin-pack and spread produce, and what is optimal
    about them. */
module Uniform {
  import opened Entities
  import opened Hostnames
  import opened Placement
  import opened Engine
  import opened Ranks

  ghost predicate UniformNodes(nodes: seq<Node>, cap: Resources, constraints: map<string, string>) {
    && DistinctIds(nodes)
    && DistinctHostnames(nodes)
    && forall i :: 0 <= i < |nodes| ==>
                     nodes[i].status == Ready && nodes[i].capacity == cap && Carries(nodes[i], constraints)
  }

  ghost predicate Identical(reqs: seq<TaskRequest>, like: TaskRequest) {
    like.request.Positive() && forall i :: 0 <= i < |reqs| ==> reqs[i].(id := like.id) == like
  }

  function Quotient(c: int, r: int): nat
    requires r > 0
  {
    if c < 0 then 0 else c / r
  }

  /** How many of the tasks one empty node can hold. */
  function Fit(cap: Resources, request: Resources): nat
    requires request.Positive()
  {
    var c, m := Quotient(cap.cpu, request.cpu), Quotient(cap.mem, request.mem);
    if c < m then c else m
  }

  lemma {:induction false} TimesMonotone(r: int, m: int, n: int)
    requires r > 0 && m <= n
    ensures r * m <= r * n
    ensures m < n ==> r * m + r <= r * n
    decreases n - m
  {
    if m < n {
      TimesMonotone(r, m, n - 1);
    }
  }

  lemma QuotientBound(c: int, r: int, m: nat)
    requires r > 0 && m > 0
    ensures r * m <= c <==> m <= Quotient(c, r)
  {
    if c < 0 {
      TimesMonotone(r, 0, m);
    } else if m <= c / r {
      TimesMonotone(r, m, c / r);
    } else {
      TimesMonotone(r, c / r + 1, m);
    }
  }

  lemma FitBound(cap: Resources, request: Resources, m: nat)
    requires request.Positive() && m > 0
    ensures request.Times(m).AtMost(cap) <==> m <= Fit(cap, request)
  {
    QuotientBound(cap.cpu, request.cpu, m);
    QuotientBound(cap.mem, request.mem, m);
  }

  /** How many tasks node `k` of the list got. */
  function Load(placed: seq<Option<nat>>, k: nat): nat {
    if placed == [] then 0
    else Load(placed[..|placed| - 1], k) + if placed[|placed| - 1] == Some(k) then 1 else 0
  }

  function PlacedCount(placed: seq<Option<nat>>): nat {
    if placed == [] then 0
    else PlacedCount(placed[..|placed| - 1]) + if placed[|placed| - 1].Some? then 1 else 0
  }

  lemma LoadExtend(placed: seq<Option<nat>>, choice: Option<nat>, k: nat)
    ensures Load(placed + [choice], k) == Load(placed, k) + if choice == Some(k) then 1 else 0
    ensures PlacedCount(placed + [choice]) == PlacedCount(placed) + if choice.Some? then 1 else 0
  {
    assert (placed + [choice])[..|placed|] == placed;
  }

  ghost predicate Proportional(nodes: seq<Node>, alloc: map<NodeId, Resources>, request: Resources, placed: seq<Option<nat>>) {
    forall k :: 0 <= k < |nodes| ==> Reserved(alloc, nodes[k].id) == request.Times(Load(placed, k))
  }

  /** The reservations are the loads times the common request. */
  lemma {:induction false} AllocIsProportional(nodes: seq<Node>, reqs: seq<TaskRequest>, like: TaskRequest,
                                                 placed: seq<Option<nat>>)
    requires DistinctIds(nodes) && Identical(reqs, like) && |placed| <= |reqs|
    requires forall i :: 0 <= i < |placed| && placed[i].Some? ==> placed[i].value < |nodes|
    ensures Proportional(nodes, PendingAlloc(nodes, map[], reqs, placed), like.request, placed)
  {
    if placed != [] {
      var last := |placed| - 1;
      AllocIsProportional(nodes, reqs, like, placed[..last]);
      forall k | 0 <= k < |nodes|
        ensures Reserved(PendingAlloc(nodes, map[], reqs, placed), nodes[k].id) == like.request.Times(Load(placed, k))
      {
        ReserveAt(nodes, PendingAlloc(nodes, map[], reqs, placed[..last]), reqs[last], placed[last], nodes[k].id);
        assert reqs[last].request == like.request;
        TimesNext(like.request, Load(placed[..last], k));
      }
    }
  }

  lemma TimesNext(r: Resources, n: int)
    ensures r.Times(n).Plus(r) == r.Times(n + 1)
  {}

  lemma QuotientMonotone(a: int, b: int, c: int)
    requires c > 0 && a <= b
    ensures a as real / c as real <= b as real / c as real
    ensures a < b ==> a as real / c as real < b as real / c as real
  {}

  lemma UtilizationMonotone(node: Node, a: Resources, b: Resources)
    requires node.capacity.Positive() && a.cpu < b.cpu && a.mem < b.mem
    ensures NodeView(node, a).Utilization() < NodeView(node, b).Utilization()
  {
    QuotientMonotone(a.cpu, b.cpu, node.capacity.cpu);
    QuotientMonotone(a.mem, b.mem, node.capacity.mem);
  }

  lemma UtilizationByCapacity(a: Node, b: Node, alloc: Resources)
    requires a.capacity == b.capacity
    ensures NodeView(a, alloc).Utilization() == NodeView(b, alloc).Utilization()
  {}

  /** Bin-pack scores a fuller node higher, spread an emptier one; equal loads score the same. */
  lemma ScoreByLoad(scorer: Scorer, a: NodeView, b: NodeView, task: TaskRequest, m: nat, n: nat)
    requires a.node.capacity == b.node.capacity && task.request.Positive() && a.node.capacity.Positive()
    requires a.alloc == task.request.Times(m) && b.alloc == task.request.Times(n)
    ensures m == n ==> Score(scorer, a, task) == Score(scorer, b, task)
    ensures m < n && scorer.BinPackScorer? ==> Score(scorer, a, task) < Score(scorer, b, task)
    ensures m < n && scorer.SpreadScorer? ==> Score(scorer, a, task) > Score(scorer, b, task)
  {
    var r := task.request;
    UtilizationByCapacity(a.node, b.node, b.alloc);
    UtilizationByCapacity(a.node, b.node, b.alloc.Plus(r));
    if m < n {
      TimesMonotone(r.cpu, m, n);
      TimesMonotone(r.mem, m, n);
      UtilizationMonotone(a.node, a.alloc, b.alloc);
      UtilizationMonotone(a.node, a.alloc.Plus(r), b.alloc.Plus(r));
    }
  }

  /** Under the given loads, a node with load `m` is preferred to one with load `n`. */
  predicate Prefers(scorer: Scorer, m: nat, n: nat) {
    if scorer.BinPackScorer? then m > n else m < n
  }

  lemma AdmitsByLoad(nodes: seq<Node>, alloc: map<NodeId, Resources>, like: TaskRequest, cap: Resources,
                     placed: seq<Option<nat>>, k: nat)
    requires UniformNodes(nodes, cap, like.constraints) && like.request.Positive()
    requires Proportional(nodes, alloc, like.request, placed) && k < |nodes|
    ensures Admits(nodes[k], alloc, like) <==> Load(placed, k) < Fit(cap, like.request)
  {
    TimesNext(like.request, Load(placed, k));
    FitBound(cap, like.request, Load(placed, k) + 1);
  }

  /** Placement takes node `k` when it has room and every other node with room is less preferred
      by load, or equally loaded with a larger hostname. */
  lemma ChosenByLoad(nodes: seq<Node>, alloc: map<NodeId, Resources>, like: TaskRequest, cap: Resources,
                     placed: seq<Option<nat>>, k: nat)
    requires UniformNodes(nodes, cap, like.constraints) && like.request.Positive()
    requires Proportional(nodes, alloc, like.request, placed)
    requires k < |nodes| && Load(placed, k) < Fit(cap, like.request)
    requires forall i :: 0 <= i < |nodes| && i != k && Load(placed, i) < Fit(cap, like.request) ==>
                           || Prefers(ScorerForPolicy(like.policy), Load(placed, k), Load(placed, i))
                           || (Load(placed, k) == Load(placed, i) && Less(nodes[k].hostname, nodes[i].hostname))
    ensures PlaceNext(nodes, alloc, like) == Some(k)
  {
    var scorer := ScorerForPolicy(like.policy);
    AdmitsByLoad(nodes, alloc, like, cap, placed, k);
    EligibleIsAdmits(nodes[k], alloc, like);
    LessIrreflexive(nodes[k].hostname);
    forall i | 0 <= i < |nodes| && i != k && Eligible(nodes[i], alloc, like, DEFAULT_FILTERS)
      ensures Beats(nodes[k], nodes[i], alloc, like, scorer) && !Beats(nodes[i], nodes[k], alloc, like, scorer)
    {
      EligibleIsAdmits(nodes[i], alloc, like);
      AdmitsByLoad(nodes, alloc, like, cap, placed, i);
      var vi, vk := ViewOf(nodes[i], alloc), ViewOf(nodes[k], alloc);
      FitBound(cap, like.request, 1);
      ScoreByLoad(scorer, vi, vk, like, Load(placed, i), Load(placed, k));
      ScoreByLoad(scorer, vk, vi, like, Load(placed, k), Load(placed, i));
      LessTotal(nodes[i].hostname, nodes[k].hostname);
    }
    BestUnique(nodes, alloc, like, DEFAULT_FILTERS, scorer, k);
  }

  lemma NoneByLoad(nodes: seq<Node>, alloc: map<NodeId, Resources>, like: TaskRequest, cap: Resources,
                   placed: seq<Option<nat>>)
    requires UniformNodes(nodes, cap, like.constraints) && like.request.Positive()
    requires Proportional(nodes, alloc, like.request, placed)
    requires forall i :: 0 <= i < |nodes| ==> Load(placed, i) >= Fit(cap, like.request)
    ensures PlaceNext(nodes, alloc, like) == None
  {
    PlaceNextAdmits(nodes, alloc, like);
    forall i | 0 <= i < |nodes| ensures !Admits(nodes[i], alloc, like) {
      AdmitsByLoad(nodes, alloc, like, cap, placed, i);
    }
  }

  lemma SameChoice(nodes: seq<Node>, alloc: map<NodeId, Resources>, req: TaskRequest, like: TaskRequest)
    requires req.(id := like.id) == like
    ensures PlaceNext(nodes, alloc, req) == PlaceNext(nodes, alloc, like)
  {
    var r := PlaceNext(nodes, alloc, like);
    var scorer := ScorerForPolicy(like.policy);
    BestUpToIsChoice(nodes, alloc, like, DEFAULT_FILTERS, scorer, |nodes|);
    BestUpToIsChoice(nodes, alloc, req, DEFAULT_FILTERS, scorer, |nodes|);
    forall i | 0 <= i < |nodes|
      ensures Eligible(nodes[i], alloc, req, DEFAULT_FILTERS) <==> Eligible(nodes[i], alloc, like, DEFAULT_FILTERS)
    {
      EligibleIsAdmits(nodes[i], alloc, req);
      EligibleIsAdmits(nodes[i], alloc, like);
    }
    if r.Some? {
      assert forall i, j :: 0 <= i < |nodes| && 0 <= j < |nodes| ==>
          Beats(nodes[i], nodes[j], alloc, req, scorer) == Beats(nodes[i], nodes[j], alloc, like, scorer);
      assert IsBest(nodes, alloc, req, DEFAULT_FILTERS, scorer, |nodes|, r.value);
      BestUnique(nodes, alloc, req, DEFAULT_FILTERS, scorer, r.value);
    }
  }

  lemma NextIsLike(nodes: seq<Node>, reqs: seq<TaskRequest>, like: TaskRequest, placed: seq<Option<nat>>, j: nat)
    requires DistinctIds(nodes) && Identical(reqs, like) && j < |reqs| && placed == BatchUpTo(nodes, map[], reqs, j)
    ensures var alloc := PendingAlloc(nodes, map[], reqs, placed);
            && Proportional(nodes, alloc, like.request, placed)
            && BatchUpTo(nodes, map[], reqs, j + 1) == placed + [PlaceNext(nodes, alloc, like)]
  {
    AllocIsProportional(nodes, reqs, like, placed);
    SameChoice(nodes, PendingAlloc(nodes, map[], reqs, placed), reqs[j], like);
  }

  function Min(a: nat, b: nat): nat {
    if a < b then a else b
  }

  // ---------- bin-pack ----------

  /** `j - r * K` clamped to between 0 and `K`: the load of the node with rank `r`. */
  function BinPackLoad(j: nat, r: nat, K: nat): nat {
    if j <= r * K then 0 else if j - r * K >= K then K else j - r * K
  }

  ghost predicate LoadsAreBinPack(nodes: seq<Node>, placed: seq<Option<nat>>, j: nat, K: nat) {
    forall k :: 0 <= k < |nodes| ==> Load(placed, k) == BinPackLoad(j, Rank(nodes, k), K)
  }

  /** With `j` tasks out, ranks below `j / K` are full and ranks above it empty. */
  lemma BinPackProfile(j: nat, K: nat, r: nat)
    requires K > 0
    ensures BinPackLoad(j, j / K, K) == j % K
    ensures r < j / K ==> BinPackLoad(j, r, K) == K && BinPackLoad(j + 1, r, K) == K
    ensures r > j / K ==> BinPackLoad(j, r, K) == 0 && BinPackLoad(j + 1, r, K) == 0
    ensures BinPackLoad(j + 1, j / K, K) == j % K + 1
  {
    var q := j / K;
    assert j == q * K + j % K;
    if r < q {
      TimesMonotone(K, r, q);
    } else if r > q {
      TimesMonotone(K, q, r);
    }
  }

  /** The next task of a bin-pack batch goes to the node with rank `j / K`, while there is one. */
  lemma BinPackChoice(nodes: seq<Node>, alloc: map<NodeId, Resources>, like: TaskRequest, cap: Resources,
                      placed: seq<Option<nat>>, j: nat, q: nat)
    requires UniformNodes(nodes, cap, like.constraints) && like.request.Positive() && like.policy != SPREAD
    requires Proportional(nodes, alloc, like.request, placed)
    requires Fit(cap, like.request) > 0 && LoadsAreBinPack(nodes, placed, j, Fit(cap, like.request))
    requires q < |nodes| && Rank(nodes, q) == j / Fit(cap, like.request)
    ensures PlaceNext(nodes, alloc, like) == Some(q)
  {
    var K := Fit(cap, like.request);
    BinPackProfile(j, K, 0);
    forall i | 0 <= i < |nodes| && i != q && Load(placed, i) < K
      ensures Load(placed, q) > Load(placed, i)
              || (Load(placed, q) == Load(placed, i) && Less(nodes[q].hostname, nodes[i].hostname))
    {
      BinPackProfile(j, K, Rank(nodes, i));
      RankIsOrder(nodes, q, i);
    }
    ChosenByLoad(nodes, alloc, like, cap, placed, q);
  }

  /** The node with rank `r` holds `j - r * K` clamped to [0, K], and as many of the `j` tasks have
      been placed as there is room for. */
  ghost predicate BinPackForm(nodes: seq<Node>, placed: seq<Option<nat>>, j: nat, K: nat, room: nat) {
    LoadsAreBinPack(nodes, placed, j, K) && PlacedCount(placed) == Min(j, room)
  }

  /** `j` tasks of a bin-pack batch fill the nodes in hostname order, K to a node. */
  lemma {:induction false} BinPackClosedForm(nodes: seq<Node>, reqs: seq<TaskRequest>, like: TaskRequest,
                                             cap: Resources, j: nat, room: nat)
    requires UniformNodes(nodes, cap, like.constraints) && Identical(reqs, like) && like.policy != SPREAD
    requires j <= |reqs| && room == |nodes| * Fit(cap, like.request)
    ensures BinPackForm(nodes, BatchUpTo(nodes, map[], reqs, j), j, Fit(cap, like.request), room)
  {
    if j > 0 {
      BinPackClosedForm(nodes, reqs, like, cap, j - 1, room);
      var prev := BatchUpTo(nodes, map[], reqs, j - 1);
      NextIsLike(nodes, reqs, like, prev, j - 1);
      BinPackOne(nodes, PendingAlloc(nodes, map[], reqs, prev), like, cap, prev, j - 1, room);
    } else {
      BinPackStart(nodes, Fit(cap, like.request));
    }
  }

  lemma BinPackStart(nodes: seq<Node>, K: nat)
    ensures LoadsAreBinPack(nodes, [], 0, K)
  {
  }

  /** A task gets a node exactly while `j < N * K`, and then the one with rank `j / K`. */
  lemma BinPackNext(nodes: seq<Node>, alloc: map<NodeId, Resources>, like: TaskRequest, cap: Resources,
                    placed: seq<Option<nat>>, j: nat, K: nat)
    requires UniformNodes(nodes, cap, like.constraints) && like.request.Positive() && like.policy != SPREAD
    requires Proportional(nodes, alloc, like.request, placed)
    requires K == Fit(cap, like.request) && LoadsAreBinPack(nodes, placed, j, K)
    ensures var choice := PlaceNext(nodes, alloc, like);
            && (choice.Some? <==> j < |nodes| * K)
            && (choice.Some? ==> K > 0 && Rank(nodes, choice.value) == j / K)
  {
    if j >= |nodes| * K {
      BinPackFull(nodes, placed, j, K);
      NoneByLoad(nodes, alloc, like, cap, placed);
    } else {
      RankInRange(j, |nodes|, K);
      var q := NodeWithRank(nodes, j / K);
      BinPackChoice(nodes, alloc, like, cap, placed, j, q);
    }
  }

  lemma RankInRange(j: nat, N: nat, K: nat)
    requires j < N * K
    ensures K > 0 && j / K < N
  {
    if K > 0 && j / K >= N {
      TimesMonotone(K, N, j / K);
      assert false;
    }
  }

  lemma BinPackFull(nodes: seq<Node>, placed: seq<Option<nat>>, j: nat, K: nat)
    requires LoadsAreBinPack(nodes, placed, j, K) && j >= |nodes| * K
    ensures forall i :: 0 <= i < |nodes| ==> Load(placed, i) >= K
  {
    forall i | 0 <= i < |nodes| ensures Load(placed, i) >= K {
      RankBound(nodes, i);
      if K > 0 {
        TimesMonotone(K, Rank(nodes, i), |nodes|);
      }
    }
  }

  /** One more task adds to the load of the node whose turn it is, and to no other. */
  lemma NextLoad(j: nat, r: nat, K: nat)
    requires K > 0
    ensures BinPackLoad(j + 1, r, K) == BinPackLoad(j, r, K) + if r == j / K then 1 else 0
  {
    BinPackProfile(j, K, r);
  }

  lemma FullStays(j: nat, r: nat, N: nat, K: nat)
    requires r < N && j >= N * K
    ensures BinPackLoad(j, r, K) == BinPackLoad(j + 1, r, K)
  {
    if K > 0 {
      TimesMonotone(K, r, N);
    }
  }

  lemma BinPackStep(nodes: seq<Node>, placed: seq<Option<nat>>, choice: Option<nat>, j: nat, K: nat)
    requires DistinctHostnames(nodes) && LoadsAreBinPack(nodes, placed, j, K)
    requires choice.Some? ==> choice.value < |nodes| && K > 0 && Rank(nodes, choice.value) == j / K
    requires choice.Some? <==> j < |nodes| * K
    ensures LoadsAreBinPack(nodes, placed + [choice], j + 1, K)
  {
    forall k | 0 <= k < |nodes|
      ensures Load(placed + [choice], k) == BinPackLoad(j + 1, Rank(nodes, k), K)
    {
      LoadExtend(placed, choice, k);
      if choice.Some? {
        RankIsOrder(nodes, choice.value, k);
        NextLoad(j, Rank(nodes, k), K);
      } else {
        RankBound(nodes, k);
        FullStays(j, Rank(nodes, k), |nodes|, K);
      }
    }
  }

  lemma BinPackOne(nodes: seq<Node>, alloc: map<NodeId, Resources>, like: TaskRequest, cap: Resources,
                   placed: seq<Option<nat>>, j: nat, room: nat)
    requires UniformNodes(nodes, cap, like.constraints) && like.request.Positive() && like.policy != SPREAD
    requires Proportional(nodes, alloc, like.request, placed)
    requires room == |nodes| * Fit(cap, like.request) && BinPackForm(nodes, placed, j, Fit(cap, like.request), room)
    ensures BinPackForm(nodes, placed + [PlaceNext(nodes, alloc, like)], j + 1, Fit(cap, like.request), room)
  {
    var choice := PlaceNext(nodes, alloc, like);
    BinPackNext(nodes, alloc, like, cap, placed, j, Fit(cap, like.request));
    BinPackStep(nodes, placed, choice, j, Fit(cap, like.request));
    LoadExtend(placed, choice, 0);
  }

  // ---------- spread ----------

  function SpreadLoad(j: nat, r: nat, N: nat): nat
    requires N > 0
  {
    j / N + if r < j % N then 1 else 0
  }

  ghost predicate LoadsAreSpread(nodes: seq<Node>, placed: seq<Option<nat>>, j: nat) {
    forall k :: 0 <= k < |nodes| ==> Load(placed, k) == SpreadLoad(j, Rank(nodes, k), |nodes|)
  }

  lemma DivStep(j: nat, N: nat)
    requires N > 0
    ensures j % N + 1 < N ==> (j + 1) / N == j / N && (j + 1) % N == j % N + 1
    ensures j % N + 1 == N ==> (j + 1) / N == j / N + 1 && (j + 1) % N == 0
  {
    assert j == (j / N) * N + j % N;
    if j % N + 1 == N {
      assert j + 1 == (j / N + 1) * N;
      QuotientIs(j + 1, N, j / N + 1, 0);
    } else {
      QuotientIs(j + 1, N, j / N, j % N + 1);
    }
  }

  lemma QuotientIs(x: nat, N: nat, q: nat, r: nat)
    requires N > 0 && r < N && x == q * N + r
    ensures x / N == q && x % N == r
  {
    var q', r' := x / N, x % N;
    assert x == q' * N + r';
    if q' < q {
      TimesMonotone(N, q', q);
    } else if q < q' {
      TimesMonotone(N, q, q');
    }
  }

  lemma SpreadStep(nodes: seq<Node>, alloc: map<NodeId, Resources>, like: TaskRequest, cap: Resources,
                   placed: seq<Option<nat>>, j: nat)
    requires UniformNodes(nodes, cap, like.constraints) && like.request.Positive() && like.policy == SPREAD
    requires Proportional(nodes, alloc, like.request, placed)
    requires j < |nodes| * Fit(cap, like.request) && LoadsAreSpread(nodes, placed, j)
    ensures var next := placed + [PlaceNext(nodes, alloc, like)];
            LoadsAreSpread(nodes, next, j + 1) && PlacedCount(next) == PlacedCount(placed) + 1
  {
    var N, K := |nodes|, Fit(cap, like.request);
    assert j == (j / N) * N + j % N;
    if j / N >= K {
      TimesMonotone(N, K, j / N);
      assert false;
    }
    var q := NodeWithRank(nodes, j % N);
    forall i | 0 <= i < N && i != q && Load(placed, i) < K
      ensures Load(placed, q) < Load(placed, i)
              || (Load(placed, q) == Load(placed, i) && Less(nodes[q].hostname, nodes[i].hostname))
    {
      RankIsOrder(nodes, q, i);
    }
    ChosenByLoad(nodes, alloc, like, cap, placed, q);
    DivStep(j, N);
    LoadExtend(placed, Some(q), 0);
    forall k | 0 <= k < N
      ensures Load(placed + [Some(q)], k) == SpreadLoad(j + 1, Rank(nodes, k), N)
    {
      LoadExtend(placed, Some(q), k);
      RankBound(nodes, k);
      RankIsOrder(nodes, q, k);
    }
  }

  /** Once every node is full the loads stay as they are. */
  lemma SpreadFull(nodes: seq<Node>, alloc: map<NodeId, Resources>, like: TaskRequest, cap: Resources,
                   placed: seq<Option<nat>>)
    requires UniformNodes(nodes, cap, like.constraints) && like.request.Positive()
    requires Proportional(nodes, alloc, like.request, placed)
    requires LoadsAreSpread(nodes, placed, |nodes| * Fit(cap, like.request))
    ensures var next := placed + [PlaceNext(nodes, alloc, like)];
            && LoadsAreSpread(nodes, next, |nodes| * Fit(cap, like.request))
            && PlacedCount(next) == PlacedCount(placed)
  {
    var N, K := |nodes|, Fit(cap, like.request);
    if N > 0 {
      QuotientIs(N * K, N, K, 0);
    }
    NoneByLoad(nodes, alloc, like, cap, placed);
    LoadExtend(placed, None, 0);
    forall k | 0 <= k < N ensures Load(placed + [None], k) == Load(placed, k) {
      LoadExtend(placed, None, k);
    }
  }

  /** `m` tasks have been placed and the node with rank `r` holds `m / N` of them, plus one exactly
      when `r < m mod N`. */
  ghost predicate SpreadForm(nodes: seq<Node>, placed: seq<Option<nat>>, m: nat) {
    LoadsAreSpread(nodes, placed, m) && PlacedCount(placed) == m
  }

  lemma SpreadOne(nodes: seq<Node>, alloc: map<NodeId, Resources>, like: TaskRequest, cap: Resources,
                  placed: seq<Option<nat>>, j: nat, room: nat)
    requires UniformNodes(nodes, cap, like.constraints) && like.request.Positive() && like.policy == SPREAD
    requires Proportional(nodes, alloc, like.request, placed)
    requires room == |nodes| * Fit(cap, like.request) && SpreadForm(nodes, placed, Min(j, room))
    ensures SpreadForm(nodes, placed + [PlaceNext(nodes, alloc, like)], Min(j + 1, room))
  {
    if j < room {
      SpreadStep(nodes, alloc, like, cap, placed, j);
    } else {
      SpreadFull(nodes, alloc, like, cap, placed);
    }
  }

  /** `j` tasks of a spread batch are placed evenly until all the room there is has been used. */
  lemma {:induction false} SpreadClosedForm(nodes: seq<Node>, reqs: seq<TaskRequest>, like: TaskRequest,
                                            cap: Resources, j: nat, room: nat)
    requires UniformNodes(nodes, cap, like.constraints) && Identical(reqs, like) && like.policy == SPREAD
    requires j <= |reqs| && room == |nodes| * Fit(cap, like.request)
    ensures SpreadForm(nodes, BatchUpTo(nodes, map[], reqs, j), Min(j, room))
  {
    if j > 0 {
      SpreadClosedForm(nodes, reqs, like, cap, j - 1, room);
      var prev := BatchUpTo(nodes, map[], reqs, j - 1);
      NextIsLike(nodes, reqs, like, prev, j - 1);
      SpreadOne(nodes, PendingAlloc(nodes, map[], reqs, prev), like, cap, prev, j - 1, room);
    } else {
      SpreadStart(nodes);
    }
  }

  lemma SpreadStart(nodes: seq<Node>)
    ensures SpreadForm(nodes, [], 0)
  {
  }

  /** Spread keeps any two nodes within one task of each other, however many tasks there are. */
  lemma SpreadBalance(nodes: seq<Node>, reqs: seq<TaskRequest>, like: TaskRequest, cap: Resources, a: nat, b: nat)
    requires UniformNodes(nodes, cap, like.constraints) && Identical(reqs, like) && like.policy == SPREAD
    requires a < |nodes| && b < |nodes|
    ensures var placed := Batch(nodes, map[], reqs);
            Load(placed, a) <= Load(placed, b) + 1
  {
    SpreadClosedForm(nodes, reqs, like, cap, |reqs|, |nodes| * Fit(cap, like.request));
  }

  /** Both policies place the same number of the same tasks. */
  lemma SpreadPlacesAsManyAsBinPack(nodes: seq<Node>, spread: seq<TaskRequest>, pack: seq<TaskRequest>,
                                    like: TaskRequest, cap: Resources)
    requires UniformNodes(nodes, cap, like.constraints) && like.policy == BIN_PACK && |spread| == |pack|
    requires Identical(pack, like) && Identical(spread, like.(policy := SPREAD))
    ensures PlacedCount(Batch(nodes, map[], spread)) == PlacedCount(Batch(nodes, map[], pack))
  {
    BinPackClosedForm(nodes, pack, like, cap, |pack|, |nodes| * Fit(cap, like.request));
    SpreadClosedForm(nodes, spread, like.(policy := SPREAD), cap, |spread|, |nodes| * Fit(cap, like.request));
  }
}
