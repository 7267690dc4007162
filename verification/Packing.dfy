/** Bin-pack is optimal on equal nodes: no assignment that respects capacity places more of the
    tasks, and none that places as many uses fewer nodes. */
module Packing {
  import opened Entities
  import opened Placement
  import opened Engine
  import opened Ranks
  import opened Uniform

  function Sum(loads: seq<nat>): nat {
    if loads == [] then 0 else Sum(loads[..|loads| - 1]) + loads[|loads| - 1]
  }

  /** How many nodes have at least one task. */
  function Used(loads: seq<nat>): nat {
    if loads == [] then 0 else Used(loads[..|loads| - 1]) + if loads[|loads| - 1] > 0 then 1 else 0
  }

  function Loads(n: nat, placed: seq<Option<nat>>): seq<nat> {
    seq(n, k requires 0 <= k < n => Load(placed, k))
  }

  lemma {:induction false} SumUpdate(loads: seq<nat>, q: nat)
    requires q < |loads|
    ensures Sum(loads[q := loads[q] + 1]) == Sum(loads) + 1
  {
    var last := |loads| - 1;
    var up := loads[q := loads[q] + 1];
    if q == last {
      assert up[..last] == loads[..last];
    } else {
      assert up[..last] == loads[..last][q := loads[..last][q] + 1];
      SumUpdate(loads[..last], q);
    }
  }

  lemma {:induction false} SumZero(n: nat)
    ensures Sum(Loads(n, [])) == 0
  {
    if n > 0 {
      assert Loads(n, [])[..n - 1] == Loads(n - 1, []);
      SumZero(n - 1);
    }
  }

  /** The loads account for every placed task. */
  lemma {:induction false} SumOfLoads(n: nat, placed: seq<Option<nat>>)
    requires forall i :: 0 <= i < |placed| && placed[i].Some? ==> placed[i].value < n
    ensures Sum(Loads(n, placed)) == PlacedCount(placed)
  {
    if placed == [] {
      SumZero(n);
    } else {
      var last := |placed| - 1;
      var prev, choice := placed[..last], placed[last];
      SumOfLoads(n, prev);
      if choice.Some? {
        assert Loads(n, placed) == Loads(n, prev)[choice.value := Loads(n, prev)[choice.value] + 1];
        SumUpdate(Loads(n, prev), choice.value);
      } else {
        assert Loads(n, placed) == Loads(n, prev);
      }
    }
  }

  ghost predicate AtMostEach(loads: seq<nat>, K: nat) {
    forall i :: 0 <= i < |loads| ==> loads[i] <= K
  }

  lemma {:induction false} SumBound(loads: seq<nat>, K: nat)
    requires AtMostEach(loads, K)
    ensures Sum(loads) <= Used(loads) * K && Used(loads) <= |loads|
  {
    if loads != [] {
      SumBound(loads[..|loads| - 1], K);
    }
  }

  /** At most one node is neither empty nor full. */
  ghost predicate OnePartial(loads: seq<nat>, K: nat) {
    forall i, j :: 0 <= i < j < |loads| && 0 < loads[i] < K ==> !(0 < loads[j] < K)
  }

  ghost predicate AllOrNothing(loads: seq<nat>, K: nat) {
    forall i :: 0 <= i < |loads| ==> loads[i] == 0 || loads[i] == K
  }

  lemma {:induction false} FullSum(loads: seq<nat>, K: nat)
    requires AllOrNothing(loads, K)
    ensures Sum(loads) == Used(loads) * K || K == 0
  {
    if loads != [] {
      FullSum(loads[..|loads| - 1], K);
    }
  }

  lemma {:induction false} TightSum(loads: seq<nat>, K: nat)
    requires AtMostEach(loads, K) && OnePartial(loads, K) && K > 0
    ensures Used(loads) > 0 ==> Sum(loads) > (Used(loads) - 1) * K
  {
    if loads != [] {
      var last := |loads| - 1;
      var prev := loads[..last];
      assert OnePartial(prev, K) by {
        assert forall i :: 0 <= i < last ==> prev[i] == loads[i];
      }
      TightSum(prev, K);
      if loads[last] == K {
        assert Sum(prev) > (Used(prev) - 1) * K;
      } else if loads[last] > 0 {
        assert forall i :: 0 <= i < last ==> prev[i] == loads[i];
        FullSum(prev, K);
      }
    }
  }

  lemma BinPackOnePartial(nodes: seq<Node>, placed: seq<Option<nat>>, j: nat, K: nat)
    requires DistinctHostnames(nodes) && LoadsAreBinPack(nodes, placed, j, K)
    ensures OnePartial(Loads(|nodes|, placed), K) && AtMostEach(Loads(|nodes|, placed), K)
  {
    if K > 0 {
      var loads := Loads(|nodes|, placed);
      forall a, b | 0 <= a < b < |loads| && 0 < loads[a] < K ensures !(0 < loads[b] < K) {
        BinPackProfile(j, K, Rank(nodes, a));
        BinPackProfile(j, K, Rank(nodes, b));
        RankIsOrder(nodes, a, b);
      }
    }
  }

  /** `loads` puts so many of the tasks on each node, none of them beyond its capacity. */
  ghost predicate Feasible(loads: seq<nat>, n: nat, cap: Resources, request: Resources) {
    |loads| == n && forall i :: 0 <= i < n && loads[i] > 0 ==> request.Times(loads[i]).AtMost(cap)
  }

  lemma FeasibleBound(loads: seq<nat>, n: nat, cap: Resources, request: Resources)
    requires Feasible(loads, n, cap, request) && request.Positive()
    ensures AtMostEach(loads, Fit(cap, request))
  {
    forall i | 0 <= i < n ensures loads[i] <= Fit(cap, request) {
      if loads[i] > 0 {
        FitBound(cap, request, loads[i]);
      }
    }
  }

  /** No feasible assignment of the batch's tasks places more of them than bin-pack does, and one
      that places as many occupies at least as many nodes. */
  lemma BinPackOptimal(nodes: seq<Node>, reqs: seq<TaskRequest>, like: TaskRequest, cap: Resources, other: seq<nat>)
    requires UniformNodes(nodes, cap, like.constraints) && Identical(reqs, like) && like.policy != SPREAD
    requires Feasible(other, |nodes|, cap, like.request) && Sum(other) <= |reqs|
    ensures var placed := Batch(nodes, map[], reqs);
            var loads := Loads(|nodes|, placed);
            && Feasible(loads, |nodes|, cap, like.request)
            && Sum(loads) == PlacedCount(placed)
            && Sum(other) <= Sum(loads)
            && (Sum(other) == Sum(loads) ==> Used(loads) <= Used(other))
  {
    var K := Fit(cap, like.request);
    var placed := Batch(nodes, map[], reqs);
    var loads := Loads(|nodes|, placed);
    BinPackClosedForm(nodes, reqs, like, cap, |reqs|, |nodes| * K);
    BinPackOnePartial(nodes, placed, |reqs|, K);
    SumOfLoads(|nodes|, placed);
    FeasibleBound(other, |nodes|, cap, like.request);
    LoadsFeasible(loads, cap, like.request);
    Compare(loads, other, |nodes|, K);
  }

  lemma LoadsFeasible(loads: seq<nat>, cap: Resources, request: Resources)
    requires request.Positive() && AtMostEach(loads, Fit(cap, request))
    ensures Feasible(loads, |loads|, cap, request)
  {
    forall i | 0 <= i < |loads| && loads[i] > 0 ensures request.Times(loads[i]).AtMost(cap) {
      FitBound(cap, request, loads[i]);
    }
  }

  lemma Compare(loads: seq<nat>, other: seq<nat>, n: nat, K: nat)
    requires |other| == n && AtMostEach(other, K) && AtMostEach(loads, K) && OnePartial(loads, K)
    ensures Sum(other) <= n * K
    ensures Sum(other) == Sum(loads) ==> Used(loads) <= Used(other)
  {
    SumBound(other, K);
    if K == 0 {
      NoneUsed(loads);
    } else {
      TightSum(loads, K);
      FewestNodes(Used(loads), Sum(loads), Used(other), Sum(other), n, K);
    }
  }

  lemma FewestNodes(u: nat, s: nat, v: nat, t: nat, n: nat, K: nat)
    requires K > 0 && t <= v * K && v <= n && (u > 0 ==> s > (u - 1) * K)
    ensures t <= n * K
    ensures t == s ==> u <= v
  {
    TimesMonotone(K, v, n);
    if u > v {
      TimesMonotone(K, v, u - 1);
    }
  }

  lemma {:induction false} NoneUsed(loads: seq<nat>)
    requires AtMostEach(loads, 0)
    ensures Used(loads) == 0
  {
    if loads != [] {
      NoneUsed(loads[..|loads| - 1]);
    }
  }
}
