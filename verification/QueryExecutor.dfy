/** One policy-checked search, submitted or resumed, within the hunt's budgets. */
module QueryExecutor {
  import opened Wrappers
  import opened Basics
  import opened Budgets
  import opened Retrieval

  /** How a submitted search ends on the server: finished with results, or by cancellation, deadline or failure. */
  datatype Search = Finished(server: Server) | Unfinished

  /** A proposal as the policy judged it, and what the outside world does with it. */
  datatype Query = Query(
    allowed: bool, maxResults: nat, enforcedRows: nat, enforcedBytes: nat,
    resumes: bool, late: bool, submitFails: bool, search: Search)

  datatype Outcome = Rejected | StorageExhausted | Late | QueriesExhausted | Raised | Returned(execution: Execution)

  function QueryRows(limits: Limits, q: Query): int {
    Min(Min(q.maxResults, q.enforcedRows), limits.maxCachedRowsPerQuery)
  }

  function QueryBytes(limits: Limits, q: Query): int {
    Min(q.enforcedBytes, limits.maxCachedBytesPerQuery)
  }

  function RowLimit(limits: Limits, u: Usage, q: Query): int {
    Min(QueryRows(limits, q), limits.maxCachedRowsPerHunt - u.cachedRows)
  }

  function ByteLimit(limits: Limits, u: Usage, q: Query): int {
    Min(QueryBytes(limits, q), limits.maxCachedBytesPerHunt - u.cachedBytes)
  }

  /** Room for at least one row and for the brackets of an empty array. */
  predicate HasRoom(limits: Limits, u: Usage, q: Query) {
    0 < RowLimit(limits, u, q) && 2 <= ByteLimit(limits, u, q)
  }

  function BoundsOf(limits: Limits, u: Usage, q: Query): (b: Bounds)
    requires HasRoom(limits, u, q)
    ensures b.Valid()
    ensures b.rowStop == QueryRowLimit ==> b.rowLimit in {q.maxResults, q.enforcedRows, limits.maxCachedRowsPerQuery}
    ensures b.rowStop == HuntRowLimit ==> u.cachedRows + b.rowLimit == limits.maxCachedRowsPerHunt
    ensures b.byteStop == QueryByteLimit ==> b.byteLimit in {q.enforcedBytes, limits.maxCachedBytesPerQuery}
    ensures b.byteStop == HuntByteLimit ==> u.cachedBytes + b.byteLimit == limits.maxCachedBytesPerHunt
    ensures var left := limits.maxCachedRowsPerHunt - u.cachedRows;
            b.rowStop == HuntRowLimit <==>
              left < q.maxResults && left < q.enforcedRows && left < limits.maxCachedRowsPerQuery
    ensures var left := limits.maxCachedBytesPerHunt - u.cachedBytes;
            b.byteStop == HuntByteLimit <==> left < q.enforcedBytes && left < limits.maxCachedBytesPerQuery
    ensures b.rowLimit <= q.maxResults && b.rowLimit <= q.enforcedRows && b.rowLimit <= limits.maxCachedRowsPerQuery
    ensures u.cachedRows + b.rowLimit <= limits.maxCachedRowsPerHunt
    ensures b.byteLimit <= q.enforcedBytes && b.byteLimit <= limits.maxCachedBytesPerQuery
    ensures u.cachedBytes + b.byteLimit <= limits.maxCachedBytesPerHunt
  {
    Bounds(
      RowLimit(limits, u, q), ByteLimit(limits, u, q),
      if limits.maxCachedRowsPerHunt - u.cachedRows < QueryRows(limits, q) then HuntRowLimit else QueryRowLimit,
      if limits.maxCachedBytesPerHunt - u.cachedBytes < QueryBytes(limits, q) then HuntByteLimit else QueryByteLimit)
  }

  /** The ledger event of an outcome: none before the search is started. */
  function EventsOf(q: Query, o: Outcome): seq<Event> {
    match o
    case Raised => [Event.Search(!q.resumes, true, 0, 0)]
    case Returned(x) => [Event.Search(!q.resumes, x.stop == Some(QueryTimeout), |x.rows|, x.resultBytes)]
    case _ => []
  }

  /** No limit of the query or the hunt leaves less than one row or two bytes. */
  predicate Storable(limits: Limits, u: Usage, q: Query) {
    && 0 < q.maxResults && 0 < q.enforcedRows && 0 < limits.maxCachedRowsPerQuery
    && u.cachedRows < limits.maxCachedRowsPerHunt
    && 2 <= q.enforcedBytes && 2 <= limits.maxCachedBytesPerQuery
    && u.cachedBytes + 2 <= limits.maxCachedBytesPerHunt
  }

  /** Which refusals happen, in the order of the executor's own checks. */
  predicate Refuses(limits: Limits, u: Usage, q: Query, o: Outcome) {
    && (o.Rejected? <==> !q.allowed)
    && (o.StorageExhausted? <==> q.allowed && !Storable(limits, u, q))
    && (o.Late? <==> q.allowed && Storable(limits, u, q) && !q.resumes && q.late)
    && (o.QueriesExhausted? <==>
          && q.allowed && Storable(limits, u, q) && !q.resumes && !q.late
          && u.splunkQueries >= limits.maxSplunkQueries)
  }

  /** A returned execution is faithful to the server within the bounds that the ledger left. */
  ghost predicate Returns(limits: Limits, u: Usage, q: Query, x: Execution) {
    HasRoom(limits, u, q) && q.search.Finished? && Faithful(q.search.server, BoundsOf(limits, u, q), x)
  }

  lemma ReturnedIsPermitted(limits: Limits, u: Usage, q: Query, x: Execution, failed: bool)
    requires Returns(limits, u, q, x)
    requires q.resumes || u.splunkQueries < limits.maxSplunkQueries
    ensures May(limits, u, Event.Search(!q.resumes, failed, |x.rows|, x.resultBytes))
  {
    assert Exact(q.search.server.rows, BoundsOf(limits, u, q), x.rows, x.resultBytes);
  }

  /** Submission, polling and paging; `None` is a raised failure. */
  method RunSearch(q: Query, b: Bounds) returns (x: Option<Execution>)
    requires b.Valid()
    ensures x.Some? ==> q.search.Finished? && Faithful(q.search.server, b, x.value)
    ensures x.Some? ==> q.resumes || !q.submitFails
    ensures x.None? && q.search.Finished? && (q.resumes || !q.submitFails) ==> !FaultFree(q.search.server)
  {
    if (!q.resumes && q.submitFails) || q.search.Unfinished? {
      return None;
    }
    var execution, raised := Retrieve(q.search.server, b);
    x := if raised.Some? then None else Some(execution);
  }

  /** The ledger once the search is counted: a resumed search was counted when it was first submitted. */
  function Submitted(u: Usage, q: Query): Usage {
    if q.resumes then u else u.(splunkQueries := u.splunkQueries + 1)
  }

  class Executor {
    const limits: Limits
    const counters: Counters

    constructor (limits: Limits, counters: Counters)
      ensures this.limits == limits && this.counters == counters
    {
      this.limits := limits;
      this.counters := counters;
    }

    method ExecuteQuery(q: Query) returns (o: Outcome)
      requires counters.Valid(limits)
      modifies counters
      ensures counters.Valid(limits)
      ensures counters.history == old(counters.history) + EventsOf(q, o)
      ensures Refuses(limits, old(counters.Now()), q, o)
      ensures o.Returned? ==> Returns(limits, old(counters.Now()), q, o.execution)
    {
      if !q.allowed {
        return Rejected;
      }
      ghost var before := counters.Now();
      if RowLimit(limits, counters.Now(), q) <= 0 || ByteLimit(limits, counters.Now(), q) < 2 {
        return StorageExhausted;
      }
      var b := BoundsOf(limits, counters.Now(), q);
      if !q.resumes {
        if q.late {
          return Late;
        }
        if counters.splunkQueries >= limits.maxSplunkQueries {
          return QueriesExhausted;
        }
        counters.RecordSplunkQuery();
      }
      o := Collect(q, b, before);
    }

    /** From the counted submission on: wait for the search, fetch its pages and record what was kept. */
    method Collect(q: Query, b: Bounds, ghost before: Usage) returns (o: Outcome)
      requires IsRun(limits, UNUSED, counters.history) && before == Replay(UNUSED, counters.history)
      requires HasRoom(limits, before, q) && b == BoundsOf(limits, before, q)
      requires q.resumes || before.splunkQueries < limits.maxSplunkQueries
      requires counters.Now() == Submitted(before, q)
      modifies counters
      ensures counters.Valid(limits)
      ensures counters.history == old(counters.history) + EventsOf(q, o)
      ensures o.Raised? || o.Returned?
      ensures o.Returned? ==> Returns(limits, before, q, o.execution)
    {
      var x := RunSearch(q, b);
      if x.None? {
        Settle(q, true, 0, 0, before);
        return Raised;
      }
      var timedOut := x.value.stop == Some(QueryTimeout);
      ReturnedIsPermitted(limits, before, q, x.value, timedOut);
      Settle(q, timedOut, |x.value.rows|, x.value.resultBytes, before);
      o := Returned(x.value);
    }

    /** Counts a failure and adds the kept rows and bytes to the ledger. */
    method Settle(q: Query, failed: bool, rows: nat, bytes: nat, ghost before: Usage)
      requires IsRun(limits, UNUSED, counters.history) && before == Replay(UNUSED, counters.history)
      requires May(limits, before, Event.Search(!q.resumes, failed, rows, bytes))
      requires counters.Now() == Submitted(before, q)
      modifies counters
      ensures counters.Valid(limits)
      ensures counters.history == old(counters.history) + [Event.Search(!q.resumes, failed, rows, bytes)]
    {
      if failed {
        counters.RecordFailedQuery();
      }
      counters.RecordResult(rows, bytes);
      counters.Close(limits, before, Event.Search(!q.resumes, failed, rows, bytes));
    }
  }
}
