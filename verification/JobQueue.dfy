/** The durable job queue: which transactions may change the table, and what holds over every run of
    them by any number of workers.

    Each service call is one atomic transaction.  A worker that crashes simply takes no further step; its
    claim stays in the table until it expires and is recovered.  Clock readings are arbitrary.
 */
module JobQueue {
  import opened Wrappers
  import opened Basics

  type JobId = nat

  datatype Status = Queued | Claimed | Completed | Failed | Cancelled

  predicate Terminal(s: Status) {
    s == Completed || s == Failed || s == Cancelled
  }

  datatype Job = Job(
    hunt: string, owner: string, scope: string, status: Status, worker: Option<string>, expiry: Option<int>,
    heartbeat: Option<int>, attempts: nat, key: string, payload: string, cancelRequested: bool, error: Option<string>,
    created: int, updated: int)

  datatype Lease = Lease(
    job: JobId, hunt: string, owner: string, scope: string, worker: string, generation: nat, expiry: int)

  type Table = map<JobId, Job>

  datatype Config = Config(leaseSeconds: int, maxActiveHunts: Option<nat>)

  // ----- Row changes -----

  function NewJob(owner: string, hunt: string, scope: string, key: string, payload: string, now: int): Job {
    Job(hunt, owner, scope, Queued, None, None, None, 0, key, payload, false, None, now, now)
  }

  predicate Claimable(j: Job, scope: string) {
    j.status == Queued && !j.cancelRequested && j.scope == scope
  }

  function ClaimedBy(j: Job, worker: string, expiry: int, now: int): Job {
    j.(status := Claimed, worker := Some(worker), expiry := Some(expiry), heartbeat := Some(now),
       attempts := j.attempts + 1, updated := now)
  }

  function LeaseOn(id: JobId, j: Job, worker: string, expiry: int): Lease {
    Lease(id, j.hunt, j.owner, j.scope, worker, j.attempts + 1, expiry)
  }

  /** The guard that `heartbeat` and `complete` put on their update. */
  predicate Holds(t: Table, l: Lease, now: int) {
    l.job in t
    && var j := t[l.job];
       j.worker == Some(l.worker) && j.status == Claimed && !j.cancelRequested && j.attempts == l.generation
       && j.scope == l.scope && j.expiry.Some? && j.expiry.value > now
  }

  /** The check before a worker mutates hunt state; generation and scope are optional. */
  predicate Required(t: Table, id: JobId, worker: string, generation: Option<nat>, scope: Option<string>, now: int) {
    id in t
    && var j := t[id];
       j.status == Claimed && j.worker == Some(worker) && !j.cancelRequested
       && (generation.Some? ==> j.attempts == generation.value)
       && (scope.Some? ==> j.scope == scope.value)
       && j.expiry.Some? && j.expiry.value > now
  }

  function Renewed(j: Job, expiry: int, now: int): Job {
    j.(expiry := Some(expiry), heartbeat := Some(now), updated := now)
  }

  function Ended(j: Job, status: Status, error: Option<string>, now: int): Job {
    j.(status := status, worker := None, expiry := None, heartbeat := None, error := error, updated := now)
  }

  predicate Cancellable(j: Job, owner: string, hunt: string) {
    j.owner == owner && j.hunt == hunt && (j.status == Queued || j.status == Claimed)
  }

  function CancelledJob(j: Job, now: int): Job {
    j.(cancelRequested := true, status := Cancelled, worker := None, expiry := None, heartbeat := None, updated := now)
  }

  predicate Expired(j: Job, now: int) {
    j.status == Claimed && j.expiry.Some? && j.expiry.value <= now && !j.cancelRequested
  }

  function Requeued(j: Job, now: int): Job {
    j.(status := Queued, worker := None, expiry := None, heartbeat := None, updated := now)
  }

  function CancelAll(t: Table, owner: string, hunt: string, now: int): Table {
    map id | id in t :: if Cancellable(t[id], owner, hunt) then CancelledJob(t[id], now) else t[id]
  }

  function RecoverAll(t: Table, now: int): Table {
    map id | id in t :: if Expired(t[id], now) then Requeued(t[id], now) else t[id]
  }

  function ActiveHunts(t: Table, scope: string): set<string> {
    set id | id in t && t[id].status == Claimed && t[id].scope == scope :: t[id].hunt
  }

  predicate Admits(cfg: Config, t: Table, scope: string) {
    cfg.maxActiveHunts.Some? ==> |ActiveHunts(t, scope)| < cfg.maxActiveHunts.value
  }

  // ----- Steps and runs -----

  /** A transaction that changed the table; calls that raise or return nothing leave it as it is. */
  datatype Action =
    | Enqueue(id: JobId, job: Job)
    | Claim(lease: Lease, now: int)
    | Heartbeat(lease: Lease, now: int)
    | Complete(lease: Lease, status: Status, error: Option<string>, now: int)
    | Cancel(owner: string, hunt: string, now: int)
    | Recover(now: int)

  predicate FreshKey(t: Table, key: string) {
    forall id :: id in t ==> t[id].key != key
  }

  ghost predicate Step(cfg: Config, t: Table, a: Action, t': Table) {
    match a
    case Enqueue(id, j) =>
      id !in t && FreshKey(t, j.key) && t' == t[id := j]
      && j == NewJob(j.owner, j.hunt, j.scope, j.key, j.payload, j.created)
    case Claim(l, now) =>
      l.job in t && Claimable(t[l.job], l.scope) && Admits(cfg, t, l.scope)
      && l == LeaseOn(l.job, t[l.job], l.worker, now + cfg.leaseSeconds)
      && t' == t[l.job := ClaimedBy(t[l.job], l.worker, now + cfg.leaseSeconds, now)]
    case Heartbeat(l, now) => Holds(t, l, now) && t' == t[l.job := Renewed(t[l.job], now + cfg.leaseSeconds, now)]
    case Complete(l, status, error, now) =>
      Terminal(status) && Holds(t, l, now) && t' == t[l.job := Ended(t[l.job], status, error, now)]
    case Cancel(owner, hunt, now) => t' == CancelAll(t, owner, hunt, now)
    case Recover(now) => t' == RecoverAll(t, now)
  }

  /** A history of the table from empty. */
  ghost predicate IsRun(cfg: Config, tables: seq<Table>, actions: seq<Action>) {
    && |tables| == |actions| + 1
    && tables[0] == map[]
    && forall i :: 0 <= i < |actions| ==> Step(cfg, tables[i], actions[i], tables[i + 1])
  }

  // ----- The queue-wide invariant -----

  predicate RowOk(j: Job) {
    && (j.status == Claimed <==> j.worker.Some?)
    && (j.status == Claimed <==> j.expiry.Some?)
    && (j.status == Claimed ==> j.attempts > 0)
    && (j.cancelRequested ==> j.status == Cancelled)
  }

  ghost predicate RowsOk(t: Table) {
    forall id :: id in t ==> RowOk(t[id])
  }

  ghost predicate KeysUnique(t: Table) {
    forall a, b :: a in t && b in t && t[a].key == t[b].key ==> a == b
  }

  ghost predicate WithinCapacity(cfg: Config, t: Table) {
    cfg.maxActiveHunts.Some? ==> forall scope: string :: |ActiveHunts(t, scope)| <= cfg.maxActiveHunts.value
  }

  ghost predicate QueueInvariant(cfg: Config, t: Table) {
    RowsOk(t) && KeysUnique(t) && WithinCapacity(cfg, t)
  }

  lemma StepKeepsCapacity(cfg: Config, t: Table, a: Action, t': Table, scope: string)
    requires cfg.maxActiveHunts.Some? && Step(cfg, t, a, t')
    requires |ActiveHunts(t, scope)| <= cfg.maxActiveHunts.value
    ensures |ActiveHunts(t', scope)| <= cfg.maxActiveHunts.value
  {
    if a.Claim? && a.lease.scope == scope {
      assert ActiveHunts(t', scope) <= ActiveHunts(t, scope) + {t[a.lease.job].hunt};
      SubsetSize(ActiveHunts(t', scope), ActiveHunts(t, scope) + {t[a.lease.job].hunt});
    } else {
      assert ActiveHunts(t', scope) <= ActiveHunts(t, scope);
      SubsetSize(ActiveHunts(t', scope), ActiveHunts(t, scope));
    }
  }

  lemma StepKeepsKeys(cfg: Config, t: Table, a: Action, t': Table)
    requires KeysUnique(t) && Step(cfg, t, a, t')
    ensures KeysUnique(t')
  {
    if !a.Enqueue? {
      assert forall id :: id in t' ==> id in t && t'[id].key == t[id].key;
    }
  }

  lemma StepKeepsInvariant(cfg: Config, t: Table, a: Action, t': Table)
    requires QueueInvariant(cfg, t) && Step(cfg, t, a, t')
    ensures QueueInvariant(cfg, t')
  {
    StepKeepsKeys(cfg, t, a, t');
    if cfg.maxActiveHunts.Some? {
      forall scope: string ensures |ActiveHunts(t', scope)| <= cfg.maxActiveHunts.value {
        StepKeepsCapacity(cfg, t, a, t', scope);
      }
    }
  }

  /** Every reachable table satisfies the invariant. */
  lemma {:induction false} ReachableInvariant(cfg: Config, tables: seq<Table>, actions: seq<Action>, k: nat)
    requires IsRun(cfg, tables, actions) && k <= |actions|
    ensures QueueInvariant(cfg, tables[k])
  {
    if k == 0 {
      assert forall scope: string :: ActiveHunts(tables[0], scope) == {};
    } else {
      ReachableInvariant(cfg, tables, actions, k - 1);
      StepKeepsInvariant(cfg, tables[k - 1], actions[k - 1], tables[k]);
    }
  }

  // ----- Properties of whole runs -----

  /** Jobs are never deleted, generations never decrease and a terminal row never changes again. */
  ghost predicate Advances(t: Table, t': Table, id: JobId) {
    id in t ==> id in t' && t[id].attempts <= t'[id].attempts && (Terminal(t[id].status) ==> t'[id] == t[id])
  }

  lemma {:induction false} RunAdvances(cfg: Config, tables: seq<Table>, actions: seq<Action>, i: nat, k: nat, id: JobId)
    requires IsRun(cfg, tables, actions) && i <= k <= |actions|
    ensures Advances(tables[i], tables[k], id)
  {
    if i < k {
      RunAdvances(cfg, tables, actions, i, k - 1, id);
      assert Step(cfg, tables[k - 1], actions[k - 1], tables[k]);
      assert Advances(tables[k - 1], tables[k], id);
    }
  }

  /** The lease issued by step `i` carries the generation that its job has right after that step. */
  lemma IssuedGeneration(cfg: Config, tables: seq<Table>, actions: seq<Action>, i: nat)
    requires IsRun(cfg, tables, actions) && i < |actions| && actions[i].Claim?
    ensures var l := actions[i].lease;
            l.job in tables[i] && l.job in tables[i + 1]
            && tables[i][l.job].attempts < l.generation == tables[i + 1][l.job].attempts
  {
    assert Step(cfg, tables[i], actions[i], tables[i + 1]);
  }

  /** Later leases on a job have later generations, so no two issued leases share job and generation. */
  lemma GenerationsIncrease(cfg: Config, tables: seq<Table>, actions: seq<Action>, i: nat, j: nat)
    requires IsRun(cfg, tables, actions) && i < j < |actions|
    requires actions[i].Claim? && actions[j].Claim? && actions[i].lease.job == actions[j].lease.job
    ensures actions[i].lease.generation < actions[j].lease.generation
  {
    IssuedGeneration(cfg, tables, actions, i);
    IssuedGeneration(cfg, tables, actions, j);
    RunAdvances(cfg, tables, actions, i + 1, j, actions[i].lease.job);
  }

  /** Once a job has been claimed again, every older lease on it is rejected in every later state and at every
      time, whoever holds it, by heartbeat, completion and the generation-checked requirement. */
  lemma FencedForever(cfg: Config, tables: seq<Table>, actions: seq<Action>, i: nat, j: nat, k: nat, now: int)
    requires IsRun(cfg, tables, actions) && i < j < k <= |actions|
    requires actions[i].Claim? && actions[j].Claim? && actions[i].lease.job == actions[j].lease.job
    ensures var l := actions[i].lease;
            !Holds(tables[k], l, now)
            && forall worker, scope :: !Required(tables[k], l.job, worker, Some(l.generation), scope, now)
  {
    GenerationsIncrease(cfg, tables, actions, i, j);
    IssuedGeneration(cfg, tables, actions, j);
    RunAdvances(cfg, tables, actions, j + 1, k, actions[j].lease.job);
  }

  /** In any state at most one issued lease on a job passes the guard, at any times. */
  lemma OneLiveLease(cfg: Config, tables: seq<Table>, actions: seq<Action>, i: nat, j: nat, k: nat, now: int, now': int)
    requires IsRun(cfg, tables, actions) && i < k <= |actions| && j < k
    requires actions[i].Claim? && actions[j].Claim? && actions[i].lease.job == actions[j].lease.job
    requires Holds(tables[k], actions[i].lease, now) && Holds(tables[k], actions[j].lease, now')
    ensures i == j
  {
    if i < j {
      GenerationsIncrease(cfg, tables, actions, i, j);
    } else if j < i {
      GenerationsIncrease(cfg, tables, actions, j, i);
    }
  }

  // ----- How long a lease lives -----

  /** The expiry that the lease issued by step `i` has before step `k`: that of its last renewal. */
  function LastExpiry(cfg: Config, actions: seq<Action>, i: nat, k: nat): int
    requires i < k <= |actions| && actions[i].Claim?
  {
    if k == i + 1 then actions[i].now + cfg.leaseSeconds
    else if actions[k - 1].Heartbeat? && actions[k - 1].lease.job == actions[i].lease.job
    then actions[k - 1].now + cfg.leaseSeconds
    else LastExpiry(cfg, actions, i, k - 1)
  }

  /** What ends a live lease: its completion, a cancellation of its hunt by its owner, or a recovery once it has
      expired. */
  predicate Ends(a: Action, l: Lease, expiry: int) {
    match a
    case Complete(l', _, _, _) => l'.job == l.job
    case Cancel(owner, hunt, _) => owner == l.owner && hunt == l.hunt
    case Recover(now) => expiry <= now
    case _ => false
  }

  predicate Unended(cfg: Config, actions: seq<Action>, i: nat, k: nat)
    requires i < k <= |actions| && actions[i].Claim?
  {
    i + 1 < k ==>
      && Unended(cfg, actions, i, k - 1)
      && !Ends(actions[k - 1], actions[i].lease, LastExpiry(cfg, actions, i, k - 1))
  }

  lemma {:induction false} UnendedAt(cfg: Config, actions: seq<Action>, i: nat, k: nat)
    requires i < k <= |actions| && actions[i].Claim?
    ensures Unended(cfg, actions, i, k) <==>
            forall m :: i < m < k ==> !Ends(actions[m], actions[i].lease, LastExpiry(cfg, actions, i, m))
  {
    if i + 1 < k {
      UnendedAt(cfg, actions, i, k - 1);
    }
  }

  /** The row of a lease while it lives, and once it has ended. */
  predicate LiveRow(t: Table, l: Lease, expiry: int) {
    l.job in t
    && var j := t[l.job];
       j.status == Claimed && j.worker == Some(l.worker) && !j.cancelRequested && j.attempts == l.generation
       && j.scope == l.scope && j.hunt == l.hunt && j.owner == l.owner && j.expiry == Some(expiry)
  }

  predicate EndedRow(t: Table, l: Lease) {
    l.job in t && (t[l.job].attempts > l.generation
                   || (t[l.job].attempts == l.generation && t[l.job].status != Claimed))
  }

  lemma LiveStep(cfg: Config, t: Table, a: Action, t': Table, l: Lease, expiry: int)
    requires Step(cfg, t, a, t') && LiveRow(t, l, expiry)
    ensures Ends(a, l, expiry) ==> EndedRow(t', l)
    ensures !Ends(a, l, expiry) ==>
              LiveRow(t', l, if a.Heartbeat? && a.lease.job == l.job then a.now + cfg.leaseSeconds else expiry)
  {
  }

  lemma EndedStep(cfg: Config, t: Table, a: Action, t': Table, l: Lease)
    requires Step(cfg, t, a, t') && EndedRow(t, l)
    ensures EndedRow(t', l)
  {
  }

  lemma ClaimedRow(cfg: Config, t: Table, a: Action, t': Table)
    requires Step(cfg, t, a, t') && a.Claim?
    ensures LiveRow(t', a.lease, a.now + cfg.leaseSeconds)
  {
  }

  lemma LeaseStep(cfg: Config, t: Table, actions: seq<Action>, t': Table, i: nat, k: nat)
    requires i + 1 < k <= |actions| && actions[i].Claim? && Step(cfg, t, actions[k - 1], t')
    requires if Unended(cfg, actions, i, k - 1) then LiveRow(t, actions[i].lease, LastExpiry(cfg, actions, i, k - 1))
             else EndedRow(t, actions[i].lease)
    ensures if Unended(cfg, actions, i, k) then LiveRow(t', actions[i].lease, LastExpiry(cfg, actions, i, k))
            else EndedRow(t', actions[i].lease)
  {
    var l, a, expiry := actions[i].lease, actions[k - 1], LastExpiry(cfg, actions, i, k - 1);
    if Unended(cfg, actions, i, k - 1) {
      LiveStep(cfg, t, a, t', l, expiry);
    } else {
      EndedStep(cfg, t, a, t', l);
    }
  }

  lemma {:induction false} LeaseRow(cfg: Config, tables: seq<Table>, actions: seq<Action>, i: nat, k: nat)
    requires IsRun(cfg, tables, actions) && i < k <= |actions| && actions[i].Claim?
    ensures if Unended(cfg, actions, i, k) then LiveRow(tables[k], actions[i].lease, LastExpiry(cfg, actions, i, k))
            else EndedRow(tables[k], actions[i].lease)
  {
    assert Step(cfg, tables[k - 1], actions[k - 1], tables[k]);
    if k == i + 1 {
      ClaimedRow(cfg, tables[i], actions[i], tables[k]);
    } else {
      LeaseRow(cfg, tables, actions, i, k - 1);
      LeaseStep(cfg, tables[k - 1], actions, tables[k], i, k);
    }
  }

  /** An issued lease passes the guard if and only if its last expiry has not come and since its claim there was no
      completion of its job, no cancellation of its hunt by its owner, and no recovery at or after its expiry. */
  lemma LeaseLivesExactly(cfg: Config, tables: seq<Table>, actions: seq<Action>, i: nat, k: nat, now: int)
    requires IsRun(cfg, tables, actions) && i < k <= |actions| && actions[i].Claim?
    ensures Holds(tables[k], actions[i].lease, now) <==>
            && now < LastExpiry(cfg, actions, i, k)
            && forall m :: i < m < k ==>
                 && !(actions[m].Complete? && actions[m].lease.job == actions[i].lease.job)
                 && !(actions[m].Cancel? && actions[m].owner == actions[i].lease.owner
                      && actions[m].hunt == actions[i].lease.hunt)
                 && !(actions[m].Recover? && LastExpiry(cfg, actions, i, m) <= actions[m].now)
  {
    LeaseRow(cfg, tables, actions, i, k);
    UnendedAt(cfg, actions, i, k);
  }

  /** A job is completed at most once, and it is never claimed or completed again after that. */
  lemma CompletedOnce(cfg: Config, tables: seq<Table>, actions: seq<Action>, i: nat, j: nat)
    requires IsRun(cfg, tables, actions) && i < j < |actions|
    requires actions[i].Complete? && (actions[j].Complete? || actions[j].Claim? || actions[j].Heartbeat?)
    ensures actions[i].lease.job != actions[j].lease.job
  {
    assert Step(cfg, tables[i], actions[i], tables[i + 1]);
    assert Step(cfg, tables[j], actions[j], tables[j + 1]);
    RunAdvances(cfg, tables, actions, i + 1, j, actions[i].lease.job);
  }

  /** Without a generation the requirement does not fence a superseded lease of the worker that claimed again:
      it passes exactly when that worker holds the current claim. */
  lemma UnfencedRequirement(cfg: Config, tables: seq<Table>, actions: seq<Action>, i: nat, j: nat, k: nat, now: int)
    requires IsRun(cfg, tables, actions) && i < j < k <= |actions|
    requires actions[i].Claim? && actions[j].Claim? && actions[i].lease.job == actions[j].lease.job
    requires Holds(tables[k], actions[j].lease, now)
    ensures Required(tables[k], actions[i].lease.job, actions[i].lease.worker, None, None, now)
       <==> actions[i].lease.worker == actions[j].lease.worker
  {
  }

  /** A worker whose lease expired claims the job again: its old lease passes the requirement without a generation,
      although no guard with the generation accepts it. */
  lemma OldLeasePassesUnfenced(id: JobId, worker: string, owner: string, hunt: string, scope: string, key: string)
    returns (tables: seq<Table>, actions: seq<Action>)
    ensures IsRun(Config(10, None), tables, actions) && |actions| == 4
    ensures actions[1].Claim? && actions[3].Claim? && actions[1].lease.job == actions[3].lease.job == id
    ensures actions[1].lease.worker == worker == actions[3].lease.worker
    ensures Required(tables[4], id, worker, None, None, 25)
    ensures !Holds(tables[4], actions[1].lease, 25)
    ensures !Required(tables[4], id, worker, Some(actions[1].lease.generation), None, 25)
  {
    var queued := NewJob(owner, hunt, scope, key, "", 0);
    var claimed := ClaimedBy(queued, worker, 10, 0);
    var again := Requeued(claimed, 10);
    var reclaimed := ClaimedBy(again, worker, 30, 20);
    tables := [map[], map[id := queued], map[id := claimed], map[id := again], map[id := reclaimed]];
    actions := [
      Enqueue(id, queued), Claim(LeaseOn(id, queued, worker, 10), 0), Recover(10),
      Claim(LeaseOn(id, again, worker, 30), 20)];
    assert RecoverAll(tables[2], 10) == tables[3];
    assert forall i :: 0 <= i < 4 ==> Step(Config(10, None), tables[i], actions[i], tables[i + 1]);
  }
}
