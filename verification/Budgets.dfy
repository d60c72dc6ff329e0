/** The hunt's usage ledger: one record per external action, and what every run of records keeps. */
module Budgets {

  datatype Limits = Limits(
    maxSplunkQueries: nat,
    maxModelCalls: nat,
    maxContextCharacters: nat,
    maxModelInputTokens: nat,
    maxModelOutputTokens: nat,
    maxModelOutputTokensPerCall: nat,
    maxCachedRowsPerQuery: nat,
    maxCachedBytesPerQuery: nat,
    maxCachedRowsPerHunt: nat,
    maxCachedBytesPerHunt: nat,
    maxRepresentativeEvents: nat,
    maxTargetedEvents: nat)
  {
    /** What the limit validator demands of these fields. */
    predicate Valid() {
      && 0 < maxSplunkQueries && 0 < maxModelCalls
      && 0 < maxContextCharacters && 0 < maxModelInputTokens
      && 0 < maxModelOutputTokensPerCall <= maxModelOutputTokens
      && 0 < maxCachedRowsPerQuery <= maxCachedRowsPerHunt
      && 0 < maxCachedBytesPerQuery <= maxCachedBytesPerHunt
      && 0 < maxRepresentativeEvents <= maxTargetedEvents
    }
  }

  datatype Usage = Usage(
    modelCalls: nat, failedModelCalls: nat, modelRepairAttempts: nat,
    modelInputTokens: nat, modelOutputTokens: nat,
    splunkQueries: nat, failedSplunkQueries: nat,
    cachedRows: nat, cachedBytes: nat)

  const UNUSED: Usage := Usage(0, 0, 0, 0, 0, 0, 0, 0, 0)

  /** Framing that every request estimate includes. */
  const FRAMING: nat := 1024

  /** The relationships of the counter validator, and the hunt's hard limits. */
  predicate Within(limits: Limits, u: Usage) {
    && u.failedModelCalls <= u.modelCalls
    && u.modelRepairAttempts <= u.modelCalls
    && u.failedSplunkQueries <= u.splunkQueries
    && u.modelCalls <= limits.maxModelCalls
    && u.splunkQueries <= limits.maxSplunkQueries
    && u.cachedRows <= limits.maxCachedRowsPerHunt
    && u.cachedBytes <= limits.maxCachedBytesPerHunt
  }

  /** One external action: a search that was submitted or resumed, or one model request. */
  datatype Event =
    | Search(submitted: bool, failed: bool, rows: nat, bytes: nat)
    | Call(estimate: nat, allowance: nat, repair: bool, failedCall: bool, inputTokens: nat, outputTokens: nat)

  /** When the executor or the runner starts this action at all. */
  predicate May(limits: Limits, u: Usage, e: Event) {
    match e
    case Search(submitted, _, rows, bytes) =>
      && (submitted ==> u.splunkQueries < limits.maxSplunkQueries)
      && u.cachedRows + rows <= limits.maxCachedRowsPerHunt
      && u.cachedBytes + bytes <= limits.maxCachedBytesPerHunt
    case Call(estimate, allowance, _, _, _, _) =>
      && u.modelCalls < limits.maxModelCalls
      && FRAMING <= estimate
      && u.modelInputTokens + estimate <= limits.maxModelInputTokens
      && 0 < allowance <= limits.maxModelOutputTokensPerCall
      && u.modelOutputTokens + allowance <= limits.maxModelOutputTokens
  }

  /** The ledger after this action. */
  function After(u: Usage, e: Event): Usage {
    match e
    case Search(submitted, failed, rows, bytes) =>
      var queries := u.splunkQueries + if submitted then 1 else 0;
      u.(splunkQueries := queries,
         failedSplunkQueries := u.failedSplunkQueries + (if failed && u.failedSplunkQueries < queries then 1 else 0),
         cachedRows := u.cachedRows + rows,
         cachedBytes := u.cachedBytes + bytes)
    case Call(_, _, repair, failed, inputTokens, outputTokens) =>
      u.(modelCalls := u.modelCalls + 1,
         failedModelCalls := u.failedModelCalls + (if failed then 1 else 0),
         modelRepairAttempts := u.modelRepairAttempts + (if repair then 1 else 0),
         modelInputTokens := u.modelInputTokens + inputTokens,
         modelOutputTokens := u.modelOutputTokens + outputTokens)
  }

  function Replay(u: Usage, events: seq<Event>): Usage
    decreases |events|
  {
    if events == [] then u
    else After(Replay(u, events[..|events| - 1]), events[|events| - 1])
  }

  /** Every action of the run was permitted by the ledger at the time it started. */
  predicate IsRun(limits: Limits, u: Usage, events: seq<Event>)
    decreases |events|
  {
    events != [] ==> (
      var rest := events[..|events| - 1];
      IsRun(limits, u, rest) && May(limits, Replay(u, rest), events[|events| - 1]))
  }

  /** Runs compose, so a hunt's whole history is a run whenever each operation contributes one. */
  lemma {:induction false} RunsCompose(limits: Limits, u: Usage, first: seq<Event>, second: seq<Event>)
    requires IsRun(limits, u, first)
    requires IsRun(limits, Replay(u, first), second)
    ensures IsRun(limits, u, first + second)
    ensures Replay(u, first + second) == Replay(Replay(u, first), second)
    decreases |second|
  {
    if second == [] {
      assert first + second == first;
    } else {
      var rest, e := second[..|second| - 1], second[|second| - 1];
      RunsCompose(limits, u, first, rest);
      assert first + second == (first + rest) + [e];
    }
  }

  lemma {:induction false} PrefixIsRun(limits: Limits, u: Usage, events: seq<Event>, k: nat)
    requires IsRun(limits, u, events)
    requires k <= |events|
    ensures IsRun(limits, u, events[..k])
    decreases |events|
  {
    if k < |events| {
      PrefixIsRun(limits, u, events[..|events| - 1], k);
      assert events[..|events| - 1][..k] == events[..k];
    } else {
      assert events[..k] == events;
    }
  }

  lemma {:induction false} RunStaysWithin(limits: Limits, u: Usage, events: seq<Event>)
    requires Within(limits, u)
    requires IsRun(limits, u, events)
    ensures Within(limits, Replay(u, events))
    decreases |events|
  {
    if events != [] {
      RunStaysWithin(limits, u, events[..|events| - 1]);
    }
  }

  /** The budgets hold in every state of every run, whatever fails in it. */
  lemma BudgetsHold(limits: Limits, u: Usage, events: seq<Event>, k: nat)
    requires IsRun(limits, u, events)
    requires Within(limits, u)
    requires k <= |events|
    ensures Within(limits, Replay(u, events[..k]))
  {
    PrefixIsRun(limits, u, events, k);
    RunStaysWithin(limits, u, events[..k]);
  }

  // ---- What the ledger adds up to ----

  function Rows(e: Event): nat { if e.Search? then e.rows else 0 }
  function Bytes(e: Event): nat { if e.Search? then e.bytes else 0 }
  function Submissions(e: Event): nat { if e.Search? && e.submitted then 1 else 0 }
  function Calls(e: Event): nat { if e.Call? then 1 else 0 }
  function Repairs(e: Event): nat { if e.Call? && e.repair then 1 else 0 }
  function FailedCalls(e: Event): nat { if e.Call? && e.failedCall then 1 else 0 }
  function InputTokens(e: Event): nat { if e.Call? then e.inputTokens else 0 }
  function OutputTokens(e: Event): nat { if e.Call? then e.outputTokens else 0 }

  function Sum(measure: Event -> nat, events: seq<Event>): nat {
    if events == [] then 0
    else Sum(measure, events[..|events| - 1]) + measure(events[|events| - 1])
  }

  /** Every counter but the failed-search one is exactly the sum over the actions taken. */
  ghost predicate Accounts(u: Usage, events: seq<Event>) {
    && u.cachedRows == Sum(Rows, events)
    && u.cachedBytes == Sum(Bytes, events)
    && u.splunkQueries == Sum(Submissions, events)
    && u.modelCalls == Sum(Calls, events)
    && u.modelRepairAttempts == Sum(Repairs, events)
    && u.failedModelCalls == Sum(FailedCalls, events)
    && u.modelInputTokens == Sum(InputTokens, events)
    && u.modelOutputTokens == Sum(OutputTokens, events)
  }

  lemma {:induction false} LedgerAccounts(events: seq<Event>)
    ensures Accounts(Replay(UNUSED, events), events)
    decreases |events|
  {
    if events != [] {
      LedgerAccounts(events[..|events| - 1]);
    }
  }

  /** The rows, bytes, searches and calls of a whole hunt, added up, never pass the hunt's limits. */
  lemma ActionsStayWithinBudget(limits: Limits, events: seq<Event>)
    requires IsRun(limits, UNUSED, events)
    ensures Sum(Rows, events) <= limits.maxCachedRowsPerHunt
    ensures Sum(Bytes, events) <= limits.maxCachedBytesPerHunt
    ensures Sum(Submissions, events) <= limits.maxSplunkQueries
    ensures Sum(Calls, events) <= limits.maxModelCalls
  {
    LedgerAccounts(events);
    RunStaysWithin(limits, UNUSED, events);
  }

  /** Tokens can pass their limits only through the last call: what the actions before any call used is below them. */
  lemma NoCallAfterTokensRunOut(limits: Limits, events: seq<Event>, k: nat)
    requires IsRun(limits, UNUSED, events)
    requires k < |events| && events[k].Call?
    ensures Sum(OutputTokens, events[..k]) < limits.maxModelOutputTokens
    ensures Sum(InputTokens, events[..k]) + 1024 <= limits.maxModelInputTokens
    ensures Sum(Calls, events[..k]) < limits.maxModelCalls
  {
    PrefixIsRun(limits, UNUSED, events, k + 1);
    assert events[..k + 1][..k] == events[..k];
    LedgerAccounts(events[..k]);
  }

  /** A provider that reports no more input than was estimated and no more output than was allowed. */
  predicate Honours(e: Event) {
    e.Call? ==> e.inputTokens <= e.estimate && e.outputTokens <= e.allowance
  }

  /** With such a provider the token limits hold too, in every state of every run. */
  lemma {:induction false} HonouredTokensStayWithin(limits: Limits, events: seq<Event>)
    requires IsRun(limits, UNUSED, events)
    requires forall e :: e in events ==> Honours(e)
    ensures Replay(UNUSED, events).modelInputTokens <= limits.maxModelInputTokens
    ensures Replay(UNUSED, events).modelOutputTokens <= limits.maxModelOutputTokens
    decreases |events|
  {
    if events != [] {
      HonouredTokensStayWithin(limits, events[..|events| - 1]);
      assert Honours(events[|events| - 1]);
    }
  }

  /** The mutable ledger that the executor and the model runner share. */
  class Counters {
    var modelCalls: nat
    var failedModelCalls: nat
    var modelRepairAttempts: nat
    var modelInputTokens: nat
    var modelOutputTokens: nat
    var splunkQueries: nat
    var failedSplunkQueries: nat
    var cachedRows: nat
    var cachedBytes: nat

    /** The hunt's external actions so far. */
    ghost var history: seq<Event>

    /** The counters are what the hunt's permitted actions add up to. */
    ghost predicate Valid(limits: Limits)
      reads this
    {
      IsRun(limits, UNUSED, history) && Now() == Replay(UNUSED, history)
    }

    function Now(): (u: Usage)
      reads this
    {
      Usage(modelCalls, failedModelCalls, modelRepairAttempts, modelInputTokens, modelOutputTokens,
            splunkQueries, failedSplunkQueries, cachedRows, cachedBytes)
    }

    constructor ()
      ensures Now() == UNUSED && history == []
    {
      history := [];
      modelCalls, failedModelCalls, modelRepairAttempts := 0, 0, 0;
      modelInputTokens, modelOutputTokens := 0, 0;
      splunkQueries, failedSplunkQueries, cachedRows, cachedBytes := 0, 0, 0, 0;
    }

    method RecordModelCall(inputTokens: nat, outputTokens: nat, failed: bool, repair: bool)
      modifies this
      ensures history == old(history)
      ensures Now() == old(Now()).(
                         modelCalls := old(modelCalls) + 1,
                         modelInputTokens := old(modelInputTokens) + inputTokens,
                         modelOutputTokens := old(modelOutputTokens) + outputTokens,
                         failedModelCalls := old(failedModelCalls) + (if failed then 1 else 0),
                         modelRepairAttempts := old(modelRepairAttempts) + (if repair then 1 else 0))
    {
      modelCalls := modelCalls + 1;
      modelInputTokens := modelInputTokens + inputTokens;
      modelOutputTokens := modelOutputTokens + outputTokens;
      if failed { failedModelCalls := failedModelCalls + 1; }
      if repair { modelRepairAttempts := modelRepairAttempts + 1; }
    }

    method RecordSplunkQuery()
      modifies this
      ensures history == old(history)
      ensures Now() == old(Now()).(splunkQueries := old(splunkQueries) + 1)
    {
      splunkQueries := splunkQueries + 1;
    }

    /** A failure is counted against a submitted search only. */
    method RecordFailedQuery()
      modifies this
      ensures history == old(history)
      ensures Now() == if old(failedSplunkQueries) < old(splunkQueries)
                       then old(Now()).(failedSplunkQueries := old(failedSplunkQueries) + 1)
                       else old(Now())
    {
      if failedSplunkQueries < splunkQueries {
        failedSplunkQueries := failedSplunkQueries + 1;
      }
    }

    method RecordResult(rows: nat, bytes: nat)
      modifies this
      ensures history == old(history)
      ensures Now() == old(Now()).(cachedRows := old(cachedRows) + rows, cachedBytes := old(cachedBytes) + bytes)
    {
      cachedRows := cachedRows + rows;
      cachedBytes := cachedBytes + bytes;
    }

    /** Closes an action: the counters moved exactly as this permitted event moves them. */
    ghost method Close(limits: Limits, before: Usage, e: Event)
      requires IsRun(limits, UNUSED, history) && before == Replay(UNUSED, history)
      requires May(limits, before, e) && Now() == After(before, e)
      modifies this`history
      ensures Valid(limits) && Now() == old(Now())
      ensures history == old(history) + [e]
    {
      history := history + [e];
    }
  }
}
