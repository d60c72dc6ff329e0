/** The queue service: a table that its methods update, each in one transaction.

    The ghost history records the transactions, so that every object of this class is a run of the queue and
    the theorems about runs apply to it.
 */
module JobService {
  import opened Wrappers
  import opened JobQueue

  ghost predicate NoneQueued(t: Table, ids: set<JobId>, scope: string) {
    forall id :: id in ids && id in t ==> !Claimable(t[id], scope)
  }

  ghost predicate IsOldest(t: Table, ids: set<JobId>, best: JobId, scope: string) {
    best in t && Claimable(t[best], scope)
    && forall id :: id in ids && id in t && Claimable(t[id], scope) ==> t[best].created <= t[id].created
  }

  // ----- What the contracts speak of, on the fields of the rows -----

  /** The jobs that a cancellation concerns. */
  function OwnedAndLive(t: Table, owner: string, hunt: string): set<JobId> {
    set id | id in t && t[id].owner == owner && t[id].hunt == hunt && t[id].status in {Queued, Claimed}
  }

  /** The claims that a recovery returns to the queue. */
  function Lapsed(t: Table, now: int): set<JobId> {
    set id | && id in t && t[id].status == Claimed && !t[id].cancelRequested
             && t[id].expiry.Some? && t[id].expiry.value <= now
  }

  class Service {
    const cfg: Config
    var table: Table
    ghost var tables: seq<Table>
    ghost var actions: seq<Action>

    ghost predicate Valid()
      reads this
    {
      cfg.leaseSeconds > 0 && IsRun(cfg, tables, actions) && tables[|actions|] == table
    }

    constructor (leaseSeconds: int, maxActiveHunts: Option<nat>)
      requires leaseSeconds > 0 && (maxActiveHunts.Some? ==> maxActiveHunts.value > 0)
      ensures Valid() && table == map[] && cfg == Config(leaseSeconds, maxActiveHunts)
    {
      cfg := Config(leaseSeconds, maxActiveHunts);
      table := map[];
      tables := [map[]];
      actions := [];
    }

    /** One committed transaction. */
    method Commit(a: Action, next: Table)
      requires Valid() && Step(cfg, table, a, next)
      modifies this
      ensures Valid() && table == next && actions == old(actions) + [a] && tables == old(tables) + [next]
    {
      table := next;
      tables := tables + [next];
      actions := actions + [a];
    }

    /** Insert a job unless its idempotency key is already used, in which case the stored row is returned. */
    method EnqueueJob(id: JobId, owner: string, hunt: string, scope: string, key: string, payload: string, now: int)
      returns (row: Job)
      requires Valid() && id !in table
      modifies this
      ensures Valid() && row in table.Values && row.key == key
      ensures (forall id' :: id' in old(table) ==> old(table)[id'].key != key) ==>
                && row == Job(hunt, owner, scope, Queued, None, None, None, 0, key, payload, false, None, now, now)
                && table == old(table)[id := row]
      ensures (exists id' :: id' in old(table) && old(table)[id'].key == key) ==>
                row in old(table).Values && table == old(table)
    {
      if existing :| existing in table && table[existing].key == key {
        row := table[existing];
        return;
      }
      row := NewJob(owner, hunt, scope, key, payload, now);
      Commit(Enqueue(id, row), table[id := row]);
      assert table[id] == row;
    }

    /** The oldest queued job of a scope. */
    method OldestQueued(scope: string) returns (best: Option<JobId>)
      ensures best.None? ==> NoneQueued(table, table.Keys, scope)
      ensures best.Some? ==> IsOldest(table, table.Keys, best.value, scope)
    {
      best := None;
      var todo := table.Keys;
      while todo != {}
        invariant todo <= table.Keys
        invariant best.None? ==> NoneQueued(table, table.Keys - todo, scope)
        invariant best.Some? ==> IsOldest(table, table.Keys - todo, best.value, scope)
        decreases |todo|
      {
        var id :| id in todo;
        todo := todo - {id};
        if Claimable(table[id], scope) && (best.None? || table[id].created < table[best.value].created) {
          best := Some(id);
        }
      }
    }

    /** Issue a lease on the oldest queued job, unless the scope is full or has none. */
    method ClaimNext(worker: string, scope: string, now: int) returns (lease: Option<Lease>)
      requires Valid()
      modifies this
      ensures Valid()
      ensures lease.None? ==> table == old(table) && actions == old(actions)
      ensures lease.None? <==>
              || (cfg.maxActiveHunts.Some?
                  && cfg.maxActiveHunts.value <=
                     |set id | id in old(table) && old(table)[id].status == Claimed && old(table)[id].scope == scope
                         :: old(table)[id].hunt|)
              || forall id :: id in old(table) ==>
                   !(old(table)[id].status == Queued && !old(table)[id].cancelRequested
                     && old(table)[id].scope == scope)
      ensures lease.Some? ==> actions == old(actions) + [Claim(lease.value, now)]
      ensures lease.Some? ==> Holds(table, lease.value, now)
      ensures lease.Some? ==>
                var l := lease.value;
                l.job in old(table)
                && var j := old(table)[l.job];
                   && j.status == Queued && !j.cancelRequested && j.scope == scope
                   && l == Lease(l.job, j.hunt, j.owner, scope, worker, j.attempts + 1, now + cfg.leaseSeconds)
                   && table == old(table)[l.job :=
                        j.(status := Claimed, worker := Some(worker), expiry := Some(now + cfg.leaseSeconds),
                           heartbeat := Some(now), attempts := j.attempts + 1, updated := now)]
      ensures lease.Some? ==>
                forall id ::
                  && id in old(table) && old(table)[id].status == Queued && !old(table)[id].cancelRequested
                  && old(table)[id].scope == scope
                  ==> lease.value.job in old(table) && old(table)[lease.value.job].created <= old(table)[id].created
    {
      assert ActiveHunts(table, scope) ==
             set id | id in table && table[id].status == Claimed && table[id].scope == scope :: table[id].hunt;
      if !Admits(cfg, table, scope) {
        return None;
      }
      var row := OldestQueued(scope);
      if row.None? {
        return None;
      }
      var id, expiry := row.value, now + cfg.leaseSeconds;
      var l := LeaseOn(id, table[id], worker, expiry);
      Commit(Claim(l, now), table[id := ClaimedBy(table[id], worker, expiry, now)]);
      return Some(l);
    }

    /** The row of a live claim, or `None` where the source raises a conflict. */
    method RequireLease(id: JobId, worker: string, generation: Option<nat>, scope: Option<string>, now: int)
      returns (row: Option<Job>)
      ensures row.Some? <==> Required(table, id, worker, generation, scope, now)
      ensures row.Some? <==>
              id in table
              && var j := table[id];
                 && j.status == Claimed && j.worker == Some(worker) && !j.cancelRequested
                 && (generation.Some? ==> generation.value == j.attempts)
                 && (scope.Some? ==> scope.value == j.scope)
                 && j.expiry.Some? && now < j.expiry.value
      ensures row.Some? ==> row.value == table[id]
    {
      if id !in table {
        return None;
      }
      var j := table[id];
      if j.status != Claimed || j.worker != Some(worker) || j.cancelRequested {
        return None;
      }
      if generation.Some? && j.attempts != generation.value {
        return None;
      }
      if scope.Some? && j.scope != scope.value {
        return None;
      }
      if j.expiry.None? || j.expiry.value <= now {
        return None;
      }
      return Some(j);
    }

    /** Extend a lease that still holds; a conflict changes nothing. */
    method Beat(l: Lease, now: int) returns (renewed: Option<Lease>)
      requires Valid()
      modifies this
      ensures Valid() && (renewed.Some? <==> old(Holds(table, l, now)))
      ensures renewed.Some? <==>
              l.job in old(table)
              && var j := old(table)[l.job];
                 && j.status == Claimed && j.worker == Some(l.worker) && !j.cancelRequested
                 && j.attempts == l.generation && j.scope == l.scope && j.expiry.Some? && now < j.expiry.value
      ensures renewed.Some? ==>
                l.job in old(table)
                && table == old(table)[l.job := old(table)[l.job].(expiry := Some(now + cfg.leaseSeconds),
                                                                  heartbeat := Some(now), updated := now)]
      ensures renewed.Some? ==> renewed.value == l.(expiry := now + cfg.leaseSeconds)
      ensures renewed.Some? ==> Holds(table, renewed.value, now)
      ensures renewed.Some? ==> actions == old(actions) + [Heartbeat(l, now)]
      ensures renewed.None? ==> table == old(table) && actions == old(actions)
    {
      if !Holds(table, l, now) {
        return None;
      }
      var expiry := now + cfg.leaseSeconds;
      Commit(Heartbeat(l, now), table[l.job := Renewed(table[l.job], expiry, now)]);
      return Some(l.(expiry := expiry));
    }

    /** End a job whose lease still holds; a conflict or an invalid status changes nothing. */
    method Finish(l: Lease, status: Status, error: Option<string>, now: int) returns (done: bool)
      requires Valid()
      modifies this
      ensures Valid() && (done <==> Terminal(status) && old(Holds(table, l, now)))
      ensures done <==>
              (status == Completed || status == Failed || status == Cancelled) &&
              l.job in old(table)
              && var j := old(table)[l.job];
                 && j.status == Claimed && j.worker == Some(l.worker) && !j.cancelRequested
                 && j.attempts == l.generation && j.scope == l.scope && j.expiry.Some? && now < j.expiry.value
      ensures done ==> actions == old(actions) + [Complete(l, status, error, now)]
      ensures done ==>
                l.job in old(table)
                && table == old(table)[l.job := old(table)[l.job].(status := status, worker := None, expiry := None,
                                                heartbeat := None, error := error, updated := now)]
      ensures !done ==> table == old(table) && actions == old(actions)
    {
      if !Terminal(status) || !Holds(table, l, now) {
        return false;
      }
      Commit(Complete(l, status, error, now), table[l.job := Ended(table[l.job], status, error, now)]);
      return true;
    }

    /** Cancel every queued or claimed job of an owned hunt. */
    method RequestCancel(owner: string, hunt: string, now: int) returns (changed: nat)
      requires Valid()
      modifies this
      ensures Valid() && changed == |OwnedAndLive(old(table), owner, hunt)|
      ensures table == map id | id in old(table) ::
                if id in OwnedAndLive(old(table), owner, hunt)
                then old(table)[id].(cancelRequested := true, status := Cancelled, worker := None, expiry := None,
                                     heartbeat := None, updated := now)
                else old(table)[id]
    {
      changed := |set id | id in table && Cancellable(table[id], owner, hunt)|;
      assert OwnedAndLive(table, owner, hunt) == set id | id in table && Cancellable(table[id], owner, hunt);
      Commit(Cancel(owner, hunt, now), CancelAll(table, owner, hunt, now));
    }

    /** Return every expired claim to the queue. */
    method RecoverExpired(now: int) returns (changed: nat)
      requires Valid()
      modifies this
      ensures Valid() && changed == |Lapsed(old(table), now)|
      ensures table == map id | id in old(table) ::
                if id in Lapsed(old(table), now)
                then old(table)[id].(status := Queued, worker := None, expiry := None, heartbeat := None,
                                     updated := now)
                else old(table)[id]
      ensures forall l :: old(Holds(table, l, now)) ==> Holds(table, l, now)
    {
      changed := |set id | id in table && Expired(table[id], now)|;
      assert Lapsed(table, now) == set id | id in table && Expired(table[id], now);
      Commit(Recover(now), RecoverAll(table, now));
    }
  }
}
