/** The single lease row, and the state each replica caches about it. */
module Lease {
  import opened Entities

  datatype LeaseRow = LeaseRow(leader: string, addr: string, epoch: int, acquiredAt: int, expiresAt: int)

  /** The row the migration inserts: nobody holds it and it expired long ago. */
  const UNHELD := LeaseRow("", "", 0, 0, 0)

  /** What the lease transaction returns: whether the caller holds the lease now, the row after the
      call, and whether the lease was taken from another holder. */
  datatype Acquisition = Acquisition(acquired: bool, lease: LeaseRow, epochBumped: bool)

  function Acquire(row: LeaseRow, identity: string, addr: string, ttl: int, now: int): Acquisition {
    var expired := row.expiresAt <= now;
    var ours := row.leader == identity;
    if !expired && !ours then Acquisition(false, row, false)
    else Acquisition(true, LeaseRow(identity, addr, if ours then row.epoch else row.epoch + 1, now, now + ttl), !ours)
  }

  class LeaseStore {
    var row: LeaseRow
    var elected: seq<string>  // the identities in the leader_elected events

    constructor ()
      ensures row == UNHELD && elected == []
    {
      row := UNHELD;
      elected := [];
    }

    /** Take the lease if it is expired or already ours, otherwise leave it. The holder keeps its epoch, anyone
        else steps it. */
    method TryAcquireOrRenew(identity: string, addr: string, ttl: int, now: int) returns (r: Option<Acquisition>)
      modifies this
      ensures r.None? <==> identity == "" || ttl <= 0
      ensures r.None? ==> row == old(row) && elected == old(elected)
      ensures r.Some? ==>
                && r.value == Acquire(old(row), identity, addr, ttl, now)
                && row == r.value.lease
                && elected == old(elected) + if r.value.epochBumped then [identity] else []
      ensures r.Some? ==>
                if old(row).leader == identity || old(row).expiresAt <= now then
                  && r.value == Acquisition(true, row, old(row).leader != identity)
                  && row == LeaseRow(identity, addr, if old(row).leader == identity then old(row).epoch else old(row).epoch + 1,
                                     now, now + ttl)
                else row == old(row) && r.value == Acquisition(false, row, false)
    {
      if identity == "" || ttl <= 0 {
        return None;
      }
      var expired := row.expiresAt <= now;
      var ours := row.leader == identity;
      if !expired && !ours {
        return Some(Acquisition(false, row, false));
      }
      var newEpoch := row.epoch;
      var bumped := false;
      if !ours {
        newEpoch := newEpoch + 1;
        bumped := true;
      }
      row := LeaseRow(identity, addr, newEpoch, now, now + ttl);
      if bumped {
        elected := elected + [identity];
      }
      return Some(Acquisition(true, row, bumped));
    }
  }

  /** What a replica remembers between lease ticks. */
  datatype Leadership = Leadership(isLeader: bool, epoch: int, leaderAddr: string)

  function Remember(addr: string, a: Acquisition): Leadership {
    Leadership(a.acquired, a.lease.epoch, if a.acquired then addr else a.lease.addr)
  }

  class Elector {
    const identity: string
    const advertiseAddr: string
    const ttl: int
    const store: LeaseStore
    var isLeader: bool
    var epoch: int
    var leaderAddr: string

    constructor (store: LeaseStore, identity: string, advertiseAddr: string, ttl: int)
      ensures this.store == store && this.identity == identity && this.advertiseAddr == advertiseAddr && this.ttl == ttl
      ensures Cached() == Leadership(false, 0, "")
    {
      this.store := store;
      this.identity := identity;
      this.advertiseAddr := advertiseAddr;
      this.ttl := ttl;
      isLeader := false;
      epoch := 0;
      leaderAddr := "";
    }

    function Cached(): Leadership
      reads this
    {
      Leadership(isLeader, epoch, leaderAddr)
    }

    /** One lease tick at local time `now`. It renews a lease that is ours, expired or not, and takes one that
        has expired; the cache then says what the row says. When the reply is lost the transaction may have
        happened, but the cache keeps saying what it said. */
    method Tick(now: int, replyLost: bool)
      modifies this, store
      ensures identity == "" || ttl <= 0 ==>
                Cached() == old(Cached()) && store.row == old(store.row) && store.elected == old(store.elected)
      ensures identity != "" && ttl > 0 ==>
                var a := Acquire(old(store.row), identity, advertiseAddr, ttl, now);
                && store.row == a.lease
                && store.elected == old(store.elected) + (if a.epochBumped then [identity] else [])
                && Cached() == if replyLost then old(Cached()) else Remember(advertiseAddr, a)
      ensures identity != "" && ttl > 0 ==>
                && (store.row.leader == identity <==> old(store.row).leader == identity || old(store.row).expiresAt <= now)
                && (!replyLost ==>
                      isLeader == (store.row.leader == identity) && epoch == store.row.epoch && leaderAddr == store.row.addr)
    {
      var result := store.TryAcquireOrRenew(identity, advertiseAddr, ttl, now);
      if result.None? || replyLost {
        return;
      }
      isLeader := result.value.acquired;
      epoch := result.value.lease.epoch;
      leaderAddr := if result.value.acquired then advertiseAddr else result.value.lease.addr;
    }
  }
}
