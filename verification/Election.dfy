/** The lease protocol over real time: replicas with clocks that are off by at most `eps` run lease
    transactions, whose replies arrive later or not at all. */
module Election {
  import opened Entities
  import opened Lease

  /** A reply on its way, and the real time at which its transaction read the clock. */
  datatype Reply = Reply(result: Acquisition, at: int)

  /** `grantedAt` is the real time of the transaction behind the cached leadership. */
  datatype Replica = Replica(cached: Leadership, grantedAt: int, inFlight: Option<Reply>)

  const STARTED := Replica(Leadership(false, 0, ""), 0, None)

  datatype System = System(time: int, row: LeaseRow, elected: seq<string>, replicas: map<string, Replica>)

  datatype Config = Config(ttl: int, eps: int)

  predicate ConfigOk(c: Config) {
    c.ttl > 0 && c.eps >= 0
  }

  function InitialSystem(time: int): System {
    System(time, UNHELD, [], map[])
  }

  datatype Step =
    | Advance(delay: nat)
    | Start(id: string)                 // a replica (re)starts with nothing cached
    | Transact(id: string, clock: int)  // its lease transaction commits; `clock` is what its clock says
    | Deliver(id: string)               // the reply arrives
    | Lose(id: string)                  // the reply is lost: the tick failed

  predicate Enabled(c: Config, s: System, a: Step) {
    match a
    case Advance(_) => true
    case Start(id) => id != ""
    case Transact(id, clock) =>
      id in s.replicas && s.replicas[id].inFlight.None? && s.time - c.eps <= clock <= s.time + c.eps
    case Deliver(id) => id in s.replicas && s.replicas[id].inFlight.Some?
    case Lose(id) => id in s.replicas
  }

  function Apply(c: Config, s: System, a: Step): System
    requires Enabled(c, s, a)
  {
    match a
    case Advance(delay) => s.(time := s.time + delay)
    case Start(id) => s.(replicas := s.replicas[id := STARTED])
    case Transact(id, clock) =>
      var r := Acquire(s.row, id, id, c.ttl, clock);
      s.(row := r.lease, elected := s.elected + (if r.epochBumped then [id] else []),
         replicas := s.replicas[id := s.replicas[id].(inFlight := Some(Reply(r, s.time)))])
    case Deliver(id) =>
      var rep := s.replicas[id];
      s.(replicas := s.replicas[id := Replica(Remember(id, rep.inFlight.value.result), rep.inFlight.value.at, None)])
    case Lose(id) => s.(replicas := s.replicas[id := s.replicas[id].(inFlight := None)])
  }

  datatype Run = Run(states: seq<System>, steps: seq<Step>)

  ghost predicate StepAt(c: Config, run: Run, i: nat) {
    && i < |run.steps| && i + 1 < |run.states|
    && Enabled(c, run.states[i], run.steps[i])
    && run.states[i + 1] == Apply(c, run.states[i], run.steps[i])
  }

  ghost predicate IsRun(c: Config, run: Run) {
    && |run.states| == |run.steps| + 1
    && run.states[0] == InitialSystem(run.states[0].time)
    && forall i: nat :: i < |run.steps| ==> StepAt(c, run, i)
  }

  // ---------- the history of the row ----------

  /** The identity that was elected into epoch `e`. */
  predicate Holds(s: System, id: string, e: int) {
    1 <= e <= |s.elected| && s.elected[e - 1] == id
  }

  /** The row's epoch counts the elections, its leader is the last one elected, and no identity is
      elected twice in a row. */
  ghost predicate RowHistory(s: System) {
    && s.row.epoch == |s.elected|
    && s.row.leader == (if s.elected == [] then "" else s.elected[|s.elected| - 1])
    && s.row.addr == s.row.leader
    && (forall i :: 0 <= i < |s.elected| ==> s.elected[i] != "")
    && (forall i :: 0 <= i < |s.elected| - 1 ==> s.elected[i] != s.elected[i + 1])
  }

  /** The address is that of the one elected into epoch `e`, or empty before the first election. A replica's
      address is its identity here. */
  predicate AddressOf(s: System, addr: string, e: int) {
    if e == 0 then addr == "" else Holds(s, addr, e)
  }

  /** A replica that thinks it leads, or is about to, was elected into the epoch it has; what it has
      cached is not ahead of what is on its way, nor that of the row; and the leader's address it has cached
      goes with the epoch. */
  ghost predicate ReplicaHistory(s: System, id: string, r: Replica) {
    && id != ""
    && 0 <= r.cached.epoch <= s.row.epoch
    && (r.cached.isLeader ==> Holds(s, id, r.cached.epoch))
    && AddressOf(s, r.cached.leaderAddr, r.cached.epoch)
    && (r.inFlight.Some? ==>
          && r.cached.epoch <= r.inFlight.value.result.lease.epoch <= s.row.epoch
          && AddressOf(s, r.inFlight.value.result.lease.addr, r.inFlight.value.result.lease.epoch)
          && (r.inFlight.value.result.acquired ==> Holds(s, id, r.inFlight.value.result.lease.epoch)))
  }

  ghost predicate History(s: System) {
    RowHistory(s) && forall id :: id in s.replicas ==> ReplicaHistory(s, id, s.replicas[id])
  }

  lemma StepKeepsRowHistory(c: Config, s: System, a: Step)
    requires RowHistory(s) && Enabled(c, s, a) && (a.Transact? ==> a.id != "")
    ensures RowHistory(Apply(c, s, a))
  {}

  /** Elections are only added. */
  lemma StillHolds(c: Config, s: System, a: Step, id: string, e: int)
    requires Enabled(c, s, a) && Holds(s, id, e)
    ensures Holds(Apply(c, s, a), id, e)
  {}

  lemma BystanderKeepsHistory(c: Config, s: System, a: Step, id: string, r: Replica)
    requires RowHistory(s) && Enabled(c, s, a) && ReplicaHistory(s, id, r)
    ensures ReplicaHistory(Apply(c, s, a), id, r)
  {
    if r.cached.isLeader {
      StillHolds(c, s, a, id, r.cached.epoch);
    }
    if r.inFlight.Some? && r.inFlight.value.result.acquired {
      StillHolds(c, s, a, id, r.inFlight.value.result.lease.epoch);
    }
  }

  lemma ActorKeepsHistory(c: Config, s: System, a: Step)
    requires RowHistory(s) && Enabled(c, s, a) && !a.Advance?
    requires a.id in s.replicas ==> ReplicaHistory(s, a.id, s.replicas[a.id])
    ensures a.id in Apply(c, s, a).replicas && ReplicaHistory(Apply(c, s, a), a.id, Apply(c, s, a).replicas[a.id])
  {
    if a.id in s.replicas {
      BystanderKeepsHistory(c, s, a, a.id, s.replicas[a.id]);
    }
  }

  lemma StepKeepsHistory(c: Config, s: System, a: Step)
    requires History(s) && Enabled(c, s, a)
    ensures History(Apply(c, s, a))
  {
    if !a.Advance? {
      ActorKeepsHistory(c, s, a);
    }
    StepKeepsRowHistory(c, s, a);
    var s' := Apply(c, s, a);
    forall id | id in s'.replicas ensures ReplicaHistory(s', id, s'.replicas[id]) {
      if id in s.replicas && (a.Advance? || id != a.id) {
        BystanderKeepsHistory(c, s, a, id, s.replicas[id]);
      }
    }
  }

  /** In every state of every run: the row's epoch is the number of elections, consecutive elected
      identities differ, each epoch has one holder, and no replica's cached epoch exceeds the row's. */
  lemma {:induction false} RunHistory(c: Config, run: Run, i: nat)
    requires IsRun(c, run) && i < |run.states|
    ensures History(run.states[i])
  {
    if i > 0 {
      RunHistory(c, run, i - 1);
      assert StepAt(c, run, i - 1);
      StepKeepsHistory(c, run.states[i - 1], run.steps[i - 1]);
    }
  }

  /** Two replicas that both think they lead, however stale they are, do so in different epochs. */
  lemma LeadersDifferInEpoch(c: Config, run: Run, i: nat, a: string, b: string)
    requires IsRun(c, run) && i < |run.states| && a != b
    requires a in run.states[i].replicas && run.states[i].replicas[a].cached.isLeader
    requires b in run.states[i].replicas && run.states[i].replicas[b].cached.isLeader
    ensures run.states[i].replicas[a].cached.epoch != run.states[i].replicas[b].cached.epoch
  {
    RunHistory(c, run, i);
    assert ReplicaHistory(run.states[i], a, run.states[i].replicas[a]);
    assert ReplicaHistory(run.states[i], b, run.states[i].replicas[b]);
  }

  /** A step changes the holder only when the lease had expired by the clock of the one who takes it,
      and appends that one to the elections. Unless the replica itself restarts, the epoch it has
      cached never goes back. */
  lemma StepChangesHolder(c: Config, s: System, a: Step)
    requires History(s) && Enabled(c, s, a)
    ensures var s' := Apply(c, s, a);
            if s'.row.leader == s.row.leader then s'.row.epoch == s.row.epoch && s'.elected == s.elected
            else a.Transact? && s.row.expiresAt <= a.clock && s'.row.leader == a.id && s'.elected == s.elected + [a.id]
    ensures var s' := Apply(c, s, a);
            forall id :: id in s.replicas && a != Start(id) ==>
                           id in s'.replicas && s.replicas[id].cached.epoch <= s'.replicas[id].cached.epoch
  {
    if a.Deliver? {
      assert ReplicaHistory(s, a.id, s.replicas[a.id]);
    }
    if a.Transact? && Apply(c, s, a).row.leader == s.row.leader {
      assert Apply(c, s, a).elected == s.elected;
    }
  }

  // ---------- renewal ----------

  /** A lease transaction succeeds exactly when the lease is the caller's or has expired by the caller's
      clock. The row is then the caller's for TTL more, in the same epoch if it was before and else in the
      next; otherwise the row is as it was. */
  lemma TransactMeaning(c: Config, s: System, id: string, clock: int)
    requires Enabled(c, s, Transact(id, clock))
    ensures var s' := Apply(c, s, Transact(id, clock));
            && id in s'.replicas && s'.replicas[id].inFlight.Some? && s'.replicas[id].cached == s.replicas[id].cached
            && var reply := s'.replicas[id].inFlight.value;
               && reply.at == s.time && reply.result.lease == s'.row
               && (reply.result.acquired <==> s.row.leader == id || s.row.expiresAt <= clock)
               && if reply.result.acquired
                  then s'.row.leader == id && s'.row.addr == id && s'.row.expiresAt == clock + c.ttl
                       && s'.row.epoch == s.row.epoch + (if s.row.leader == id then 0 else 1)
                       && s'.elected == s.elected + (if s.row.leader == id then [] else [id])
                  else s'.row == s.row && s'.elected == s.elected
  {}

  predicate Transacts(a: Step, id: string) {
    a.Transact? && a.id == id
  }

  /** `id` has run a lease transaction since step `i`, less than TTL - 2 eps before state `k`. */
  ghost predicate RenewedAt(c: Config, run: Run, id: string, i: nat, k: nat)
    requires k <= |run.steps| && |run.states| == |run.steps| + 1
  {
    exists m: nat :: i <= m < k && Transacts(run.steps[m], id) && run.states[k].time - run.states[m].time < c.ttl - 2 * c.eps
  }

  /** The row is `id`'s, under epoch `e`, and outlasts each of its transactions since step `i` by TTL - eps;
      a reply to it that is on its way says so. */
  ghost predicate Leads(c: Config, run: Run, id: string, e: int, i: nat, k: nat)
    requires k <= |run.steps| && |run.states| == |run.steps| + 1
  {
    var s := run.states[k];
    && s.row.leader == id && s.row.epoch == e && id in s.replicas
    && (s.replicas[id].inFlight.Some? ==>
          var a := s.replicas[id].inFlight.value.result;
          a.acquired && a.lease.epoch == e)
    && forall m: nat :: i <= m < k && Transacts(run.steps[m], id) ==> s.row.expiresAt >= run.states[m].time + c.ttl - c.eps
  }

  lemma {:induction false} TimeForward(c: Config, run: Run, i: nat, k: nat)
    requires IsRun(c, run) && i <= k < |run.states|
    ensures run.states[i].time <= run.states[k].time
  {
    if i < k {
      TimeForward(c, run, i, k - 1);
      assert StepAt(c, run, k - 1);
    }
  }

  lemma StepKeepsLead(c: Config, run: Run, id: string, e: int, i: nat, k: nat)
    requires ConfigOk(c) && IsRun(c, run) && i < k < |run.steps| && Leads(c, run, id, e, i, k) && RenewedAt(c, run, id, i, k)
    ensures Leads(c, run, id, e, i, k + 1)
    ensures run.steps[k] == Deliver(id) ==> run.states[k + 1].replicas[id].cached == Leadership(true, e, id)
  {
    assert StepAt(c, run, k);
    forall m: nat | i <= m < k + 1 && Transacts(run.steps[m], id)
      ensures run.states[k + 1].row.expiresAt >= run.states[m].time + c.ttl - c.eps
    {
      TimeForward(c, run, m, k);
    }
  }

  /** A replica that has got the lease, at step `i`, and keeps running lease transactions less than TTL - 2 eps
      apart remains the row's leader in one and the same epoch, whatever the others do and however the clocks
      are off; and each reply that reaches it leaves it thinking that it leads. */
  lemma {:induction false} RenewalKeepsLeader(c: Config, run: Run, id: string, clock: int, i: nat, j: nat)
    requires ConfigOk(c) && IsRun(c, run) && i < j < |run.states| && run.steps[i] == Transact(id, clock)
    requires run.states[i].row.leader == id || run.states[i].row.expiresAt <= clock
    requires forall k: nat :: i < k < j ==> RenewedAt(c, run, id, i, k)
    ensures Leads(c, run, id, run.states[i + 1].row.epoch, i, j)
    ensures run.states[j].row.leader == id && run.states[j].row.epoch == run.states[i + 1].row.epoch
    ensures run.steps[j - 1] == Deliver(id) ==>
              id in run.states[j].replicas && run.states[j].replicas[id].cached == Leadership(true, run.states[i + 1].row.epoch, id)
  {
    if j == i + 1 {
      assert StepAt(c, run, i);
      TransactMeaning(c, run.states[i], id, clock);
    } else {
      RenewalKeepsLeader(c, run, id, clock, i, j - 1);
      StepKeepsLead(c, run, id, run.states[i + 1].row.epoch, i, j - 1);
    }
  }

  // ---------- exclusion ----------

  /** The lease granted to `id` at real time `at` is still `id`'s, or is too old to count on. */
  ghost predicate GrantStands(c: Config, s: System, id: string, at: int) {
    && at <= s.time
    && (s.time >= at + c.ttl - 2 * c.eps
        || (s.row.leader == id && s.row.expiresAt >= at + c.ttl - c.eps))
  }

  ghost predicate GrantsStand(c: Config, s: System) {
    forall id :: id in s.replicas ==>
                   && (s.replicas[id].cached.isLeader ==> GrantStands(c, s, id, s.replicas[id].grantedAt))
                   && (s.replicas[id].inFlight.Some? && s.replicas[id].inFlight.value.result.acquired ==>
                         GrantStands(c, s, id, s.replicas[id].inFlight.value.at))
  }

  lemma StepKeepsGrant(c: Config, s: System, a: Step, id: string, at: int)
    requires ConfigOk(c) && Enabled(c, s, a) && GrantStands(c, s, id, at)
    ensures GrantStands(c, Apply(c, s, a), id, at)
  {}

  lemma StepKeepsGrants(c: Config, s: System, a: Step)
    requires ConfigOk(c) && Enabled(c, s, a) && GrantsStand(c, s)
    ensures GrantsStand(c, Apply(c, s, a))
  {
    var s' := Apply(c, s, a);
    forall id | id in s.replicas && s.replicas[id].cached.isLeader
      ensures GrantStands(c, s', id, s.replicas[id].grantedAt)
    {
      StepKeepsGrant(c, s, a, id, s.replicas[id].grantedAt);
    }
    forall id | id in s.replicas && s.replicas[id].inFlight.Some? && s.replicas[id].inFlight.value.result.acquired
      ensures GrantStands(c, s', id, s.replicas[id].inFlight.value.at)
    {
      StepKeepsGrant(c, s, a, id, s.replicas[id].inFlight.value.at);
    }
  }

  lemma {:induction false} RunGrants(c: Config, run: Run, i: nat)
    requires ConfigOk(c) && IsRun(c, run) && i < |run.states|
    ensures GrantsStand(c, run.states[i])
  {
    if i > 0 {
      RunGrants(c, run, i - 1);
      assert StepAt(c, run, i - 1);
      StepKeepsGrants(c, run.states[i - 1], run.steps[i - 1]);
    }
  }

  /** `id` thinks it leads, by a lease granted less than `bound` ago. */
  predicate FreshLeader(s: System, id: string, bound: int) {
    id in s.replicas && s.replicas[id].cached.isLeader && s.time - s.replicas[id].grantedAt < bound
  }

  /** Some run reaches `s`. */
  ghost predicate Reachable(c: Config, s: System) {
    exists run: Run :: IsRun(c, run) && run.states[|run.states| - 1] == s
  }

  /** A replica that thinks it leads by a lease younger than TTL - 2 eps is the row's leader, so no two
      replicas do so at once. */
  lemma LeaderExclusion(c: Config, s: System, a: string, b: string)
    requires ConfigOk(c) && Reachable(c, s)
    requires FreshLeader(s, a, c.ttl - 2 * c.eps) && FreshLeader(s, b, c.ttl - 2 * c.eps)
    ensures s.row.leader == a == b
  {
    var run: Run :| IsRun(c, run) && run.states[|run.states| - 1] == s;
    RunGrants(c, run, |run.states| - 1);
  }

  // ---------- the bound is exact ----------

  lemma ReachInitial(c: Config, time: int)
    ensures Reachable(c, InitialSystem(time))
  {
    var run := Run([InitialSystem(time)], []);
    assert IsRun(c, run) && run.states[|run.states| - 1] == InitialSystem(time);
  }

  lemma ReachNext(c: Config, s: System, a: Step)
    requires Reachable(c, s) && Enabled(c, s, a)
    ensures Reachable(c, Apply(c, s, a))
  {
    var run: Run :| IsRun(c, run) && run.states[|run.states| - 1] == s;
    var run' := Run(run.states + [Apply(c, s, a)], run.steps + [a]);
    forall i: nat | i < |run'.steps| ensures StepAt(c, run', i) {
      if i < |run.steps| {
        assert StepAt(c, run, i);
      } else {
        assert run'.states[i] == s;
      }
    }
    assert run'.states[|run'.states| - 1] == Apply(c, s, a);
  }

  /** Starting, running a lease transaction and getting the reply, all at one moment. */
  function Elect(c: Config, s: System, id: string, clock: int): System
    requires id != "" && s.time - c.eps <= clock <= s.time + c.eps
  {
    Apply(c, Apply(c, Apply(c, s, Start(id)), Transact(id, clock)), Deliver(id))
  }

  lemma ReachElect(c: Config, s: System, id: string, clock: int)
    requires Reachable(c, s) && id != "" && s.time - c.eps <= clock <= s.time + c.eps
    ensures Reachable(c, Elect(c, s, id, clock))
  {
    ReachNext(c, s, Start(id));
    var s1 := Apply(c, s, Start(id));
    ReachNext(c, s1, Transact(id, clock));
    ReachNext(c, Apply(c, s1, Transact(id, clock)), Deliver(id));
  }

  function Max(a: int, b: int): int {
    if a < b then b else a
  }

  /** With the first clock slow by eps and the second fast by eps, the second replica takes over after
      exactly TTL - 2 eps, while the first still thinks it leads. */
  lemma TwoLeaders(c: Config) returns (s: System)
    requires ConfigOk(c)
    ensures Reachable(c, s)
    ensures FreshLeader(s, "a", Max(0, c.ttl - 2 * c.eps) + 1) && FreshLeader(s, "b", Max(0, c.ttl - 2 * c.eps) + 1)
  {
    var gap := Max(0, c.ttl - 2 * c.eps);
    var s0 := InitialSystem(c.eps);
    ReachInitial(c, c.eps);
    var s1 := Elect(c, s0, "a", 0);
    ReachElect(c, s0, "a", 0);
    var s2 := Apply(c, s1, Advance(gap));
    ReachNext(c, s1, Advance(gap));
    s := Elect(c, s2, "b", s2.time + c.eps);
    ReachElect(c, s2, "b", s2.time + c.eps);
  }

  /** Any two replicas that think they lead by leases younger than `bound` are the same one, in every
      reachable state, if and only if `bound` is at most TTL - 2 eps (or no lease is that young). */
  lemma ExclusionExactly(c: Config, bound: int)
    requires ConfigOk(c)
    ensures (forall s, a, b :: Reachable(c, s) && FreshLeader(s, a, bound) && FreshLeader(s, b, bound) ==> a == b)
            <==> bound <= Max(0, c.ttl - 2 * c.eps)
  {
    if bound <= Max(0, c.ttl - 2 * c.eps) {
      forall s, a, b | Reachable(c, s) && FreshLeader(s, a, bound) && FreshLeader(s, b, bound) ensures a == b {
        var run: Run :| IsRun(c, run) && run.states[|run.states| - 1] == s;
        RunGrants(c, run, |run.states| - 1);
      }
    } else {
      var s := TwoLeaders(c);
      assert FreshLeader(s, "a", bound) && FreshLeader(s, "b", bound);
    }
  }
}
