/** The placement part of a scheduling tick: the batch loop with its running reservations. */
module Engine {
  import opened Entities
  import opened Placement

  function PlaceNext(nodes: seq<Node>, alloc: map<NodeId, Resources>, req: TaskRequest): (r: Option<nat>)
    ensures r.Some? ==> r.value < |nodes|
  {
    Best(nodes, alloc, req, DEFAULT_FILTERS, ScorerForPolicy(req.policy))
  }

  /** Reserve what a task asks for on the node that was chosen for it. */
  function Reserve(nodes: seq<Node>, alloc: map<NodeId, Resources>, req: TaskRequest, choice: Option<nat>)
    : map<NodeId, Resources>
  {
    if choice.None? || choice.value >= |nodes| then alloc
    else
      var id := nodes[choice.value].id;
      alloc[id := Reserved(alloc, id).Plus(req.request)]
  }

  /** The reservations (`pendingAlloc`) once the first tasks of the batch got the nodes in `placed`. */
  function PendingAlloc(nodes: seq<Node>, allocs: map<NodeId, Resources>, reqs: seq<TaskRequest>, placed: seq<Option<nat>>)
    : map<NodeId, Resources>
    requires |placed| <= |reqs|
  {
    if placed == [] then allocs
    else
      var last := |placed| - 1;
      Reserve(nodes, PendingAlloc(nodes, allocs, reqs, placed[..last]), reqs[last], placed[last])
  }

  /** The node chosen for each of the first `j` tasks. */
  function BatchUpTo(nodes: seq<Node>, allocs: map<NodeId, Resources>, reqs: seq<TaskRequest>, j: nat)
    : (placed: seq<Option<nat>>)
    requires j <= |reqs|
    ensures |placed| == j
    ensures forall i :: 0 <= i < j && placed[i].Some? ==> placed[i].value < |nodes|
  {
    if j == 0 then []
    else
      var placed := BatchUpTo(nodes, allocs, reqs, j - 1);
      placed + [PlaceNext(nodes, PendingAlloc(nodes, allocs, reqs, placed), reqs[j - 1])]
  }

  function Batch(nodes: seq<Node>, allocs: map<NodeId, Resources>, reqs: seq<TaskRequest>): (placed: seq<Option<nat>>)
    ensures |placed| == |reqs|
    ensures forall i :: 0 <= i < |reqs| && placed[i].Some? ==> placed[i].value < |nodes|
  {
    BatchUpTo(nodes, allocs, reqs, |reqs|)
  }

  /** The choice is node `n` of the list. */
  predicate Is(nodes: seq<Node>, choice: Option<nat>, n: NodeId) {
    choice.Some? && choice.value < |nodes| && nodes[choice.value].id == n
  }

  /** What the tasks handled so far add to node `n`. */
  function Added(nodes: seq<Node>, placed: seq<Option<nat>>, reqs: seq<TaskRequest>, n: NodeId): Resources
    requires |placed| <= |reqs|
  {
    if placed == [] then NOTHING
    else
      var last := |placed| - 1;
      var before := Added(nodes, placed[..last], reqs, n);
      if Is(nodes, placed[last], n) then before.Plus(reqs[last].request) else before
  }

  lemma ReserveAt(nodes: seq<Node>, alloc: map<NodeId, Resources>, req: TaskRequest, choice: Option<nat>, n: NodeId)
    ensures Reserved(Reserve(nodes, alloc, req, choice), n)
            == if Is(nodes, choice, n) then Reserved(alloc, n).Plus(req.request) else Reserved(alloc, n)
  {}

  /** The running reservations are the snapshot plus exactly what this batch placed. */
  lemma {:induction false} PendingAllocAccounting(nodes: seq<Node>, allocs: map<NodeId, Resources>,
                                             reqs: seq<TaskRequest>, placed: seq<Option<nat>>, n: NodeId)
    requires |placed| <= |reqs|
    ensures Reserved(PendingAlloc(nodes, allocs, reqs, placed), n)
            .IsSum(Reserved(allocs, n), Added(nodes, placed, reqs, n))
  {
    if placed != [] {
      var last := |placed| - 1;
      PendingAllocAccounting(nodes, allocs, reqs, placed[..last], n);
      ReserveAt(nodes, PendingAlloc(nodes, allocs, reqs, placed[..last]), reqs[last], placed[last], n);
    }
  }

  ghost predicate NonNegative(reqs: seq<TaskRequest>) {
    forall i :: 0 <= i < |reqs| ==> NOTHING.AtMost(reqs[i].request)
  }

  /** Reservations never shrink as the batch proceeds. */
  lemma {:induction false} ReservationsGrow(nodes: seq<Node>, allocs: map<NodeId, Resources>,
                                            reqs: seq<TaskRequest>, placed: seq<Option<nat>>, i: nat, n: NodeId)
    requires i <= |placed| <= |reqs| && NonNegative(reqs)
    ensures Reserved(PendingAlloc(nodes, allocs, reqs, placed[..i]), n)
            .AtMost(Reserved(PendingAlloc(nodes, allocs, reqs, placed), n))
  {
    if i == |placed| {
      assert placed[..i] == placed;
    } else {
      ReservationsGrow(nodes, allocs, reqs, placed[..|placed| - 1], i, n);
      assert placed[..|placed| - 1][..i] == placed[..i];
    }
  }

  lemma PrefixOfLonger<T>(s: seq<T>, last: T, i: nat)
    requires i <= |s|
    ensures (s + [last])[..i] == s[..i]
  {}

  /** Choices made earlier are kept. */
  lemma {:induction false} ChoicesKept(nodes: seq<Node>, allocs: map<NodeId, Resources>,
                                       reqs: seq<TaskRequest>, i: nat, j: nat)
    requires i <= j <= |reqs|
    ensures BatchUpTo(nodes, allocs, reqs, j)[..i] == BatchUpTo(nodes, allocs, reqs, i)
  {
    if i < j {
      ChoicesKept(nodes, allocs, reqs, i, j - 1);
      var prev := BatchUpTo(nodes, allocs, reqs, j - 1);
      PrefixOfLonger(prev, PlaceNext(nodes, PendingAlloc(nodes, allocs, reqs, prev), reqs[j - 1]), i);
    } else {
      assert BatchUpTo(nodes, allocs, reqs, j)[..i] == BatchUpTo(nodes, allocs, reqs, i);
    }
  }

  /** Each choice is what placement picks under the reservations of the choices before it. */
  lemma ChoiceAt(nodes: seq<Node>, allocs: map<NodeId, Resources>, reqs: seq<TaskRequest>, i: nat)
    requires i < |reqs|
    ensures var placed := Batch(nodes, allocs, reqs);
            placed[i] == PlaceNext(nodes, PendingAlloc(nodes, allocs, reqs, placed[..i]), reqs[i])
  {
    ChoicesKept(nodes, allocs, reqs, i, |reqs|);
    ChoicesKept(nodes, allocs, reqs, i + 1, |reqs|);
    assert Batch(nodes, allocs, reqs)[i] == Batch(nodes, allocs, reqs)[..i + 1][i];
  }

  /** A node is chosen exactly when some listed node admits the task, and the chosen one does. */
  lemma PlaceNextAdmits(nodes: seq<Node>, alloc: map<NodeId, Resources>, req: TaskRequest)
    ensures match PlaceNext(nodes, alloc, req)
            case Some(k) => Admits(nodes[k], alloc, req)
            case None => forall k :: 0 <= k < |nodes| ==> !Admits(nodes[k], alloc, req)
  {
    BestUpToIsChoice(nodes, alloc, req, DEFAULT_FILTERS, ScorerForPolicy(req.policy), |nodes|);
    forall k | 0 <= k < |nodes|
      ensures Eligible(nodes[k], alloc, req, DEFAULT_FILTERS) <==> Admits(nodes[k], alloc, req)
    {
      EligibleIsAdmits(nodes[k], alloc, req);
    }
  }

  /** What a tick decides about each claimed task, in terms of the reservations it ends with:
      a placed task went to a ready node with matching labels; a task left pending fits no listed
      node even then. */
  lemma BatchMaximal(nodes: seq<Node>, allocs: map<NodeId, Resources>, reqs: seq<TaskRequest>, i: nat)
    requires i < |reqs| && NonNegative(reqs)
    ensures var placed := Batch(nodes, allocs, reqs);
            match placed[i]
            case Some(k) => nodes[k].status == Ready && Carries(nodes[k], reqs[i].constraints)
            case None => forall k :: 0 <= k < |nodes| ==>
                                       !Admits(nodes[k], PendingAlloc(nodes, allocs, reqs, placed), reqs[i])
  {
    var placed := Batch(nodes, allocs, reqs);
    ChoiceAt(nodes, allocs, reqs, i);
    PlaceNextAdmits(nodes, PendingAlloc(nodes, allocs, reqs, placed[..i]), reqs[i]);
    forall k | 0 <= k < |nodes|
      ensures Reserved(PendingAlloc(nodes, allocs, reqs, placed[..i]), nodes[k].id)
              .AtMost(Reserved(PendingAlloc(nodes, allocs, reqs, placed), nodes[k].id))
    {
      ReservationsGrow(nodes, allocs, reqs, placed, i, nodes[k].id);
    }
  }

  ghost predicate DistinctIds(nodes: seq<Node>) {
    forall i, j :: 0 <= i < j < |nodes| ==> nodes[i].id != nodes[j].id
  }

  /** A batch never reserves beyond capacity: a node it gave work to ends within its capacity, and
      a node that it left alone keeps the reservation it had. */
  lemma {:induction false} BatchWithinCapacity(nodes: seq<Node>, allocs: map<NodeId, Resources>,
                                               reqs: seq<TaskRequest>, k: nat, j: nat)
    requires j <= |reqs| && k < |nodes| && DistinctIds(nodes)
    ensures var placed := BatchUpTo(nodes, allocs, reqs, j);
            var reserved := Reserved(PendingAlloc(nodes, allocs, reqs, placed), nodes[k].id);
            if Some(k) in placed then reserved.AtMost(nodes[k].capacity) else reserved == Reserved(allocs, nodes[k].id)
  {
    if j > 0 {
      BatchWithinCapacity(nodes, allocs, reqs, k, j - 1);
      var placed := BatchUpTo(nodes, allocs, reqs, j);
      var prev := placed[..j - 1];
      assert prev == BatchUpTo(nodes, allocs, reqs, j - 1);
      PlaceNextAdmits(nodes, PendingAlloc(nodes, allocs, reqs, prev), reqs[j - 1]);
      assert placed == prev + [placed[j - 1]];
      ReserveAt(nodes, PendingAlloc(nodes, allocs, reqs, prev), reqs[j - 1], placed[j - 1], nodes[k].id);
    }
  }
}
