/** The position of a node in the hostname order of a list, whatever order the list itself is in. */
module Ranks {
  import opened Entities
  import opened Hostnames
  import opened Placement

  /** How many of the first `n` hostnames come before `h`. */
  function CountBelow(nodes: seq<Node>, h: string, n: nat): nat
    requires n <= |nodes|
  {
    if n == 0 then 0
    else CountBelow(nodes, h, n - 1) + if Less(nodes[n - 1].hostname, h) then 1 else 0
  }

  function Rank(nodes: seq<Node>, k: nat): nat
    requires k < |nodes|
  {
    CountBelow(nodes, nodes[k].hostname, |nodes|)
  }

  lemma {:induction false} CountBound(nodes: seq<Node>, h: string, n: nat)
    requires n <= |nodes|
    ensures CountBelow(nodes, h, n) <= n
    ensures (exists k :: 0 <= k < n && nodes[k].hostname == h) ==> CountBelow(nodes, h, n) < n
  {
    LessIrreflexive(h);
    if n > 0 {
      CountBound(nodes, h, n - 1);
    }
  }

  lemma RankBound(nodes: seq<Node>, k: nat)
    requires k < |nodes|
    ensures Rank(nodes, k) < |nodes|
  {
    CountBound(nodes, nodes[k].hostname, |nodes|);
  }

  lemma {:induction false} CountOrder(nodes: seq<Node>, g: string, h: string, n: nat)
    requires n <= |nodes| && Less(g, h)
    ensures CountBelow(nodes, g, n) <= CountBelow(nodes, h, n)
    ensures (exists k :: 0 <= k < n && nodes[k].hostname == g) ==> CountBelow(nodes, g, n) < CountBelow(nodes, h, n)
  {
    LessIrreflexive(g);
    if n > 0 {
      CountOrder(nodes, g, h, n - 1);
      if Less(nodes[n - 1].hostname, g) {
        LessTransitive(nodes[n - 1].hostname, g, h);
      }
    }
  }

  /** Comparing ranks is comparing hostnames. */
  lemma RankIsOrder(nodes: seq<Node>, a: nat, b: nat)
    requires a < |nodes| && b < |nodes| && DistinctHostnames(nodes)
    ensures Rank(nodes, a) < Rank(nodes, b) <==> Less(nodes[a].hostname, nodes[b].hostname)
    ensures Rank(nodes, a) == Rank(nodes, b) <==> a == b
  {
    LessIrreflexive(nodes[a].hostname);
    if a != b {
      LessTotal(nodes[a].hostname, nodes[b].hostname);
      if Less(nodes[a].hostname, nodes[b].hostname) {
        CountOrder(nodes, nodes[a].hostname, nodes[b].hostname, |nodes|);
      } else {
        CountOrder(nodes, nodes[b].hostname, nodes[a].hostname, |nodes|);
      }
    }
  }

  /** The ranks of the first `n` nodes. */
  function RanksUpto(nodes: seq<Node>, n: nat): set<nat>
    requires n <= |nodes|
  {
    if n == 0 then {} else RanksUpto(nodes, n - 1) + {Rank(nodes, n - 1)}
  }

  lemma {:induction false} HolderOf(nodes: seq<Node>, n: nat, r: nat) returns (k: nat)
    requires n <= |nodes| && r in RanksUpto(nodes, n)
    ensures k < n && Rank(nodes, k) == r
  {
    if r == Rank(nodes, n - 1) {
      k := n - 1;
    } else {
      k := HolderOf(nodes, n - 1, r);
    }
  }

  lemma {:induction false} RanksUptoSize(nodes: seq<Node>, n: nat)
    requires n <= |nodes| && DistinctHostnames(nodes)
    ensures |RanksUpto(nodes, n)| == n
    ensures forall r <- RanksUpto(nodes, n) :: r < |nodes|
  {
    if n > 0 {
      RanksUptoSize(nodes, n - 1);
      RankBound(nodes, n - 1);
      if Rank(nodes, n - 1) in RanksUpto(nodes, n - 1) {
        var k := HolderOf(nodes, n - 1, Rank(nodes, n - 1));
        RankIsOrder(nodes, k, n - 1);
        assert false;
      }
    }
  }

  /** A set of `n` numbers below `n` has all of them. */
  lemma {:induction false} AllBelow(s: set<nat>, n: nat, r: nat)
    requires |s| == n && (forall x <- s :: x < n) && r < n
    ensures r in s
  {
    if r !in s {
      var t := s - {n - 1};
      assert forall x <- t :: x < n - 1;
      if n - 1 in s {
        AllBelow(t, n - 1, r);
      } else {
        SmallSet(s, n - 1);
      }
    }
  }

  lemma {:induction false} SmallSet(s: set<nat>, n: nat)
    requires forall x <- s :: x < n
    ensures |s| <= n
  {
    if n == 0 {
      assert s == {};
    } else {
      SmallSet(s - {n - 1}, n - 1);
    }
  }

  /** Every rank is taken by one node. */
  lemma NodeWithRank(nodes: seq<Node>, r: nat) returns (k: nat)
    requires r < |nodes| && DistinctHostnames(nodes)
    ensures k < |nodes| && Rank(nodes, k) == r
  {
    RanksUptoSize(nodes, |nodes|);
    AllBelow(RanksUpto(nodes, |nodes|), |nodes|, r);
    k := HolderOf(nodes, |nodes|, r);
  }
}
