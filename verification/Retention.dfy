/** Restartable cleanup of due hunts, under a failure or a crash at any operation. */
module Retention {
  import opened CleanupState
  import opened Decimals

  const DAY: nat := 86400

  datatype Policy = Policy(huntDays: nat, abandonedDays: nat)

  /** A hunt's activity as the locked row shows it; times are in seconds. */
  datatype Snapshot = Snapshot(state: string, updatedAt: int, activeWorker: bool, activeExternalJob: bool)
  {
    predicate Terminal() { state in {"finalized", "cancelled", "failed"} }
  }

  predicate IsAbandoned(s: Snapshot, now: int, policy: Policy) {
    && !s.Terminal() && !s.activeWorker && !s.activeExternalJob
    && now >= s.updatedAt + policy.abandonedDays * DAY
  }

  predicate RetentionDue(s: Snapshot, now: int, policy: Policy) {
    if s.Terminal() then now >= s.updatedAt + policy.huntDays * DAY
    else IsAbandoned(s, now, policy)
  }

  /** Only idle time makes a hunt due, and an unfinished hunt with work under way never is. */
  lemma DueExactly(s: Snapshot, now: int, policy: Policy)
    ensures RetentionDue(s, now, policy) <==>
            if s.state == "finalized" || s.state == "cancelled" || s.state == "failed"
            then s.updatedAt + policy.huntDays * 86400 <= now
            else !s.activeWorker && !s.activeExternalJob && s.updatedAt + policy.abandonedDays * 86400 <= now
  {
  }

  /** How one operation ends; a failure may come before or after its effect is durable. */
  datatype Fate = Succeeds | Raises(applied: bool) | Crashes(applied: bool)

  datatype Flow = Going | Raised | Crashed

  datatype Result =
    | AlreadyMissing
    | SkippedActive
    | RetryableFailure(deleted: seq<string>)
    | Deleted(deleted: seq<string>)
    | Propagated
    | Died

  datatype Candidate = Candidate(hunt: string, owner: string, snapshot: Snapshot, now: int)

  function Stopped(flow: Flow): Result {
    if flow == Crashed then Died else Propagated
  }

  ghost predicate HasAudit(tables: seq<set<Row>>, hunt: string, owner: string)
    requires |tables| == TABLES
  {
    exists r :: r in tables[AUDIT] && r.hunt == hunt && r.owner == owner
  }

  /** The artifacts emptied from the cursor on, by name. */
  predicate Reached(cursor: nat, deleted: seq<string>) {
    && cursor + |deleted| <= TABLES == |ARTIFACTS|
    && deleted == ARTIFACTS[cursor..cursor + |deleted|]
  }

  function Emptied(cursor: nat, count: nat): (names: seq<string>)
    requires cursor + count <= TABLES
    ensures |names| == count && Reached(cursor, names)
  {
    ARTIFACTS[cursor..cursor + count]
  }

  /** The result lists what this attempt emptied: all from the cursor it found, and up to the one it saved if it
      failed. */
  predicate Listed(found: nat, saved: nat, result: Result) {
    match result
    case Deleted(deleted) => Reached(found, deleted) && found + |deleted| == TABLES
    case RetryableFailure(deleted) => Reached(found, deleted) && saved == found + |deleted|
    case _ => true
  }

  /** Every hunt reported as deleted is erased. */
  ghost predicate AllErased(init: seq<set<Row>>, store: Store, candidates: seq<Candidate>, results: seq<Result>)
    requires |results| <= |candidates|
  {
    forall i :: 0 <= i < |results| && results[i].Deleted? ==>
                  Erased(init, store, candidates[i].hunt, candidates[i].owner)
  }

  class Cleaner {
    const policy: Policy
    /** What happens to the n-th operation. */
    const fates: nat -> Fate
    var operations: nat
    var store: Store

    constructor (policy: Policy, fates: nat -> Fate, store: Store)
      ensures this.policy == policy && this.fates == fates && this.store == store
      ensures WellFormed(store.tables) && store.tasks == map[] ==> forall h, o :: Safe(store.tables, this.store, h, o)
    {
      this.policy := policy;
      this.fates := fates;
      this.store := store;
      operations := 0;
      new;
      if WellFormed(store.tables) && store.tasks == map[] {
        forall h, o ensures Safe(store.tables, store, h, o) {
          InitiallySafe(store, h, o);
        }
      }
    }

    /** No operation fails or crashes. */
    ghost predicate Reliable() {
      forall n: nat :: fates(n).Succeeds?
    }

    /** One durable operation. */
    method Perform(next: Store) returns (flow: Flow)
      modifies this
      ensures store == next || store == old(store)
      ensures flow == Going ==> store == next
      ensures Reliable() ==> flow == Going
    {
      var fate := fates(operations);
      operations := operations + 1;
      if fate.Succeeds? || fate.applied {
        store := next;
      }
      flow := match fate case Succeeds => Going case Raises(_) => Raised case Crashes(_) => Crashed;
    }

    /** The files that the hunt's report and uploads name. */
    method ArtifactPaths(hunt: string, owner: string) returns (paths: set<string>)
      requires WellFormed(store.tables)
      ensures forall p :: p in paths <==> Named(store.tables, hunt, owner, p)
    {
      paths := {};
      var reports := set r | r in store.tables[REPORTS] && Mine(r, hunt, owner);
      if reports != {} {
        var first :| first in reports;
        assert forall p :: Names(store.tables[REPORTS], hunt, owner, p) <==> p != "" && first.path == p;
        if first.path != "" {
          paths := {first.path};
        }
      }
      assert forall r :: r in store.tables[REPORTS] && Mine(r, hunt, owner) ==> r in reports;
      var uploads := set r | r in store.tables[UPLOADS] && Mine(r, hunt, owner) && r.path != "" :: r.path;
      assert forall p :: p in uploads <==> Names(store.tables[UPLOADS], hunt, owner, p);
      paths := paths + uploads;
    }

    method RemoveFiles(ghost init: seq<set<Row>>, ghost pre: Store, hunt: string, owner: string, paths: set<string>)
      returns (flow: Flow)
      requires Keeps(init, pre, store, hunt, owner)
      requires forall p :: p in paths ==> Named(pre.tables, hunt, owner, p)
      modifies this
      ensures Keeps(init, pre, store, hunt, owner)
      ensures store.tables == old(store.tables) && store.tasks == old(store.tasks)
      ensures flow == Going ==> forall p :: p in paths ==> p !in store.files
      ensures Reliable() ==> flow == Going
    {
      flow := Going;
      var left := paths;
      while left != {} && flow == Going
        invariant left <= paths
        invariant Reliable() ==> flow == Going
        invariant Keeps(init, pre, store, hunt, owner)
        invariant store.tables == old(store.tables) && store.tasks == old(store.tasks)
        invariant flow == Going ==> forall p :: p in paths && p !in left ==> p !in store.files
        decreases |left|
      {
        var p :| p in left;
        flow := Perform(WithoutFile(store, p));
        left := left - {p};
      }
    }

    /** Empties the tables from the cursor on, saving the cursor after each. */
    method DeleteTables(ghost init: seq<set<Row>>, ghost pre: Store, hunt: string, owner: string, cursor: nat)
      returns (flow: Flow, deleted: nat)
      requires Keeps(init, pre, store, hunt, owner)
      requires hunt in store.tasks && store.tasks[hunt].owner == owner
      requires cursor <= TABLES && EmptyBelow(store.tables, cursor, hunt, owner)
      requires forall p :: Named(store.tables, hunt, owner, p) ==> p !in store.files
      modifies this
      ensures Keeps(init, pre, store, hunt, owner)
      ensures hunt in store.tasks && store.tasks[hunt].owner == owner
      ensures store.tasks[hunt].completed == old(store.tasks[hunt].completed)
      ensures cursor + deleted <= TABLES && EmptyBelow(store.tables, cursor + deleted, hunt, owner)
      ensures flow == Going ==> cursor + deleted == TABLES
      ensures Reliable() ==> flow == Going
    {
      flow, deleted := Going, 0;
      while cursor + deleted < TABLES
        invariant flow == Going && cursor + deleted <= TABLES
        invariant Keeps(init, pre, store, hunt, owner)
        invariant hunt in store.tasks && store.tasks[hunt].owner == owner
        invariant store.tasks[hunt].completed == old(store.tasks[hunt].completed)
        invariant EmptyBelow(store.tables, cursor + deleted, hunt, owner)
        invariant forall p :: Named(store.tables, hunt, owner, p) ==> p !in store.files
      {
        var i := cursor + deleted;
        RowsKeep(init, pre, store, hunt, owner, i);
        flow := Perform(WithoutRows(store, i, hunt, owner));
        if flow != Going {
          return;
        }
        deleted := deleted + 1;
        CursorKeeps(init, pre, store, hunt, owner, i + 1);
        flow := Perform(WithCursor(store, hunt, i + 1));
        if flow != Going {
          return;
        }
      }
    }

    /** The guarded part of an attempt: the started record, the files, the tables, the completed record. */
    method Erase(
      ghost init: seq<set<Row>>, ghost pre: Store, hunt: string, owner: string, paths: set<string>, cursor: nat)
      returns (flow: Flow, deleted: nat)
      requires Keeps(init, pre, store, hunt, owner)
      requires store.tables == pre.tables
      requires hunt in store.tasks && store.tasks[hunt].owner == owner && !store.tasks[hunt].completed
      requires cursor <= TABLES && EmptyBelow(store.tables, cursor, hunt, owner)
      requires forall p :: p in paths <==> Named(store.tables, hunt, owner, p)
      modifies this
      ensures Keeps(init, pre, store, hunt, owner)
      ensures hunt in store.tasks && store.tasks[hunt].owner == owner
      ensures cursor + deleted <= TABLES && EmptyBelow(store.tables, cursor + deleted, hunt, owner)
      ensures flow == Going ==> cursor + deleted == TABLES
      ensures store.tasks[hunt].completed ==> cursor + deleted == TABLES
      ensures flow == Going ==> store.tasks[hunt].completed && HasAudit(store.tables, hunt, owner)
      ensures Reliable() ==> flow == Going
    {
      deleted := 0;
      flow := Audit(init, pre, hunt, owner);
      if flow != Going {
        return;
      }
      flow := RemoveFiles(init, pre, hunt, owner, paths);
      if flow != Going {
        return;
      }
      flow, deleted := DeleteTables(init, pre, hunt, owner, cursor);
      if flow != Going {
        return;
      }
      CompleteKeeps(init, pre, store, hunt, owner);
      flow := Perform(Completed(store, hunt));
      if flow != Going {
        return;
      }
      flow := Audit(init, pre, hunt, owner);
    }

    /** Writes an audit record of the hunt. */
    method Audit(ghost init: seq<set<Row>>, ghost pre: Store, hunt: string, owner: string) returns (flow: Flow)
      requires Keeps(init, pre, store, hunt, owner)
      modifies this
      ensures Keeps(init, pre, store, hunt, owner)
      ensures store.tasks == old(store.tasks) && store.files == old(store.files)
      ensures forall i :: 0 <= i < TABLES && i != AUDIT ==> store.tables[i] == old(store.tables[i])
      ensures flow == Going ==> HasAudit(store.tables, hunt, owner)
      ensures Reliable() ==> flow == Going
    {
      var r := Row(Decimal(operations), hunt, owner, "");
      flow := Perform(Audited(store, r));
      assert flow == Going ==> r in store.tables[AUDIT];
    }

    /** One attempt at a hunt. */
    method CleanupHunt(ghost init: seq<set<Row>>, c: Candidate) returns (result: Result)
      requires Safe(init, store, c.hunt, c.owner)
      modifies this
      ensures Safe(init, store, c.hunt, c.owner)
      ensures Scoped(old(store), store, c.hunt, c.owner)
      ensures result.Deleted? ==> Erased(init, store, c.hunt, c.owner)
      ensures result.AlreadyMissing? && !Empty(init[HUNT], c.hunt, c.owner) ==>
                Erased(init, store, c.hunt, c.owner)
      ensures var s := c.snapshot;
              && s.state != "finalized" && s.state != "cancelled" && s.state != "failed"
              && (s.activeWorker || s.activeExternalJob || c.now < s.updatedAt + policy.abandonedDays * 86400)
              ==> store.tables == old(store.tables) && store.files == old(store.files)
      ensures var s := c.snapshot;
              && (s.state == "finalized" || s.state == "cancelled" || s.state == "failed")
              && c.now < s.updatedAt + policy.huntDays * 86400
              ==> store.tables == old(store.tables) && store.files == old(store.files)
      ensures Listed(old(CursorOf(store, c.hunt, c.owner)), CursorOf(store, c.hunt, c.owner), result)
      ensures Reliable() && (c.hunt in old(store).tasks ==> old(store).tasks[c.hunt].owner == c.owner) ==>
                var s := c.snapshot;
                var ended := s.state == "finalized" || s.state == "cancelled" || s.state == "failed";
                var due := if ended then s.updatedAt + policy.huntDays * 86400 <= c.now
                           else !s.activeWorker && !s.activeExternalJob
                                && s.updatedAt + policy.abandonedDays * 86400 <= c.now;
                var present := exists r :: r in old(store).tables[14] && r.hunt == c.hunt && r.owner == c.owner;
                && (result.AlreadyMissing? <==> !present)
                && (result.SkippedActive? <==> present && !due)
                && (result.Deleted? <==> present && due)
      ensures result.AlreadyMissing? ==> Empty(old(store.tables[HUNT]), c.hunt, c.owner)
      ensures result.Deleted? || result.AlreadyMissing? || result.SkippedActive? ==>
                c.hunt in store.tasks && store.tasks[c.hunt].completed
      ensures result.RetryableFailure? ==>
                c.hunt in store.tasks && (store.tasks[c.hunt].completed ==> Erased(init, store, c.hunt, c.owner))
      ensures result.Deleted? || result.RetryableFailure? ==>
                exists r :: r in store.tables[13] && r.hunt == c.hunt && r.owner == c.owner
    {
      ghost var pre := store;
      var hunt, owner := c.hunt, c.owner;
      DueExactly(c.snapshot, c.now, policy);
      assert Keeps(init, pre, store, hunt, owner);
      if hunt in store.tasks && store.tasks[hunt].owner != owner {
        return Propagated;
      }
      ClaimKeeps(init, pre, store, hunt, owner);
      var flow := Perform(Claimed(store, hunt, owner));
      if flow != Going {
        return Stopped(flow);
      }
      var missing := forall r :: r in store.tables[HUNT] ==> !Mine(r, hunt, owner);
      if missing || !RetentionDue(c.snapshot, c.now, policy) {
        CompleteKeeps(init, pre, store, hunt, owner);
        flow := Perform(Completed(store, hunt));
        if missing && !Empty(init[HUNT], hunt, owner) {
          EmptyLeavesNoFile(init, store, hunt, owner);
        }
        return if flow != Going then Stopped(flow) else if missing then AlreadyMissing else SkippedActive;
      }
      result := Attempt(init, pre, hunt, owner);
    }

    /** The deletion itself, and the record of where it failed. */
    method Attempt(ghost init: seq<set<Row>>, ghost pre: Store, hunt: string, owner: string) returns (result: Result)
      requires Keeps(init, pre, store, hunt, owner)
      requires store.tables == pre.tables
      requires hunt in store.tasks && store.tasks[hunt].owner == owner && !store.tasks[hunt].completed
      modifies this
      ensures Keeps(init, pre, store, hunt, owner)
      ensures result.RetryableFailure? ==>
                hunt in store.tasks && (store.tasks[hunt].completed ==> Erased(init, store, hunt, owner))
      ensures result.Deleted? ==> Erased(init, store, hunt, owner)
      ensures !result.AlreadyMissing? && !result.SkippedActive?
      ensures Reliable() ==> result.Deleted?
      ensures result.Deleted? ==> hunt in store.tasks && store.tasks[hunt].completed
      ensures result.Deleted? || result.RetryableFailure? ==> HasAudit(store.tables, hunt, owner)
      ensures Listed(old(CursorOf(store, hunt, owner)), CursorOf(store, hunt, owner), result)
    {
      var paths := ArtifactPaths(hunt, owner);
      var cursor := store.tasks[hunt].cursor;
      var flow, deleted := Erase(init, pre, hunt, owner, paths, cursor);
      var names := Emptied(cursor, deleted);
      if flow == Crashed {
        return Died;
      }
      if flow == Raised {
        CursorKeeps(init, pre, store, hunt, owner, cursor + deleted);
        flow := Perform(WithCursor(store, hunt, cursor + deleted));
        if flow != Going {
          return Stopped(flow);
        }
        flow := Audit(init, pre, hunt, owner);
        if cursor + deleted == TABLES {
          EmptyLeavesNoFile(init, store, hunt, owner);
        }
        return if flow != Going then Stopped(flow) else RetryableFailure(names);
      }
      EmptyLeavesNoFile(init, store, hunt, owner);
      result := Deleted(names);
    }

    /** Any sequence of attempts, on any hunts, keeps what holds of every hunt. */
    method Cleanup(ghost init: seq<set<Row>>, candidates: seq<Candidate>) returns (results: seq<Result>)
      requires forall h, o :: Safe(init, store, h, o)
      modifies this
      ensures forall h, o :: Safe(init, store, h, o)
      ensures |results| <= |candidates|
      ensures AllErased(init, store, candidates, results)
    {
      results := [];
      while |results| < |candidates|
        invariant |results| <= |candidates|
        invariant forall h, o :: Safe(init, store, h, o)
        invariant AllErased(init, store, candidates, results)
      {
        var c := candidates[|results|];
        ghost var before := store;
        var result := CleanupHunt(init, c);
        forall h, o ensures Safe(init, store, h, o) {
          if h != c.hunt || o != c.owner {
            OthersStaySafe(init, before, store, c.hunt, c.owner, h, o);
          }
        }
        forall i | 0 <= i < |results| && results[i].Deleted?
          ensures Erased(init, store, candidates[i].hunt, candidates[i].owner)
        {
          ErasedStays(init, before, store, c.hunt, c.owner, candidates[i].hunt, candidates[i].owner);
        }
        results := results + [result];
        if result.Died? || result.Propagated? {
          return;
        }
      }
    }
  }
}
