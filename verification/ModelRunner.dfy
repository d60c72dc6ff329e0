/** One structured model request, with its context fitted first and one bounded repair after. */
module ModelRunner {
  import opened Wrappers
  import opened Basics
  import opened Budgets
  import opened ContextFit

  datatype Finish = Completed | Refusal | TokenLimit

  /** What the provider answers; `valid` says whether the contract accepts it, `repairSize` measures the request that
      would repair it. */
  datatype Answer =
    | Unreachable
    | Answered(inputTokens: nat, outputTokens: nat, afterDeadline: bool, finish: Finish, valid: bool, repairSize: Size)

  /** What the world does around one call. */
  datatype Reply = Reply(cancelled: bool, late: bool, answer: Answer)

  datatype Refused = Cancelled | Late | NoCallsLeft | DoesNotFit

  datatype CallResult =
    | NotStarted(why: Refused)
    | CallFailed
    | TokensExhausted
    | Response

  /** The context is built for a row limit, or is the payload as given. */
  datatype Context = Rows(build: nat -> Size) | Payload(size: Size)

  datatype RunResult =
    | OutputExhausted
    | Stopped(call: CallResult)
    | ContractInvalid
    | Accepted

  /** The most output tokens that both limits still allow one call. */
  ghost predicate MostOutput(limits: Limits, u: Usage, allowance: nat) {
    && allowance <= limits.maxModelOutputTokensPerCall
    && u.modelOutputTokens + allowance <= limits.maxModelOutputTokens
    && (allowance == limits.maxModelOutputTokensPerCall
        || u.modelOutputTokens + allowance == limits.maxModelOutputTokens)
  }

  lemma MostIsLargest(limits: Limits, u: Usage, allowance: nat, b: nat)
    requires MostOutput(limits, u, allowance)
    requires b <= limits.maxModelOutputTokensPerCall && u.modelOutputTokens + b <= limits.maxModelOutputTokens
    ensures b <= allowance
  {
  }

  /** The output budget granted to one request; `None` when nothing is left. */
  function OutputAllowance(limits: Limits, u: Usage): (a: Option<nat>)
    ensures a.None? <==> u.modelOutputTokens >= limits.maxModelOutputTokens
    ensures a.Some? ==> MostOutput(limits, u, a.value)
  {
    var remaining := limits.maxModelOutputTokens - u.modelOutputTokens;
    if remaining <= 0 then None else Some(Min(limits.maxModelOutputTokensPerCall, remaining))
  }

  predicate Fails(a: Answer) {
    a.Unreachable? || a.afterDeadline || a.finish != Completed
  }

  function EventOf(size: Size, allowance: nat, repair: bool, a: Answer): (e: Event) {
    Call(size.Estimate(), allowance, repair, Fails(a),
         if a.Answered? then a.inputTokens else 0,
         if a.Answered? then a.outputTokens else 0)
  }

  predicate OverTokens(limits: Limits, u: Usage) {
    u.modelInputTokens > limits.maxModelInputTokens || u.modelOutputTokens > limits.maxModelOutputTokens
  }

  /** Whether a call starts, in the order of the runner's checks. */
  function Admission(limits: Limits, u: Usage, size: Size, reply: Reply): Option<Refused> {
    if reply.cancelled then Some(Cancelled)
    else if reply.late then Some(Late)
    else if u.modelCalls >= limits.maxModelCalls then Some(NoCallsLeft)
    else if !Fits(limits, u, size) then Some(DoesNotFit)
    else None
  }

  /** How a started call ends. */
  function Verdict(limits: Limits, after: Usage, a: Answer): CallResult {
    if Fails(a) then CallFailed
    else if OverTokens(limits, after) then TokensExhausted
    else Response
  }

  /** One call from ledger `u`: its result and the events it leaves. */
  ghost predicate CallSpec(
    limits: Limits, u: Usage, size: Size, allowance: nat, repair: bool, reply: Reply, r: CallResult, events: seq<Event>)
  {
    match Admission(limits, u, size, reply)
    case Some(why) => r == NotStarted(why) && events == []
    case None =>
      var e := EventOf(size, allowance, repair, reply.answer);
      events == [e] && r == Verdict(limits, After(u, e), reply.answer)
  }

  /** The request measured by `size` carries the largest context that fits, or none fits and the smallest is left. */
  ghost predicate Prepared(limits: Limits, u: Usage, context: Context, size: Size, row: nat) {
    match context
    case Rows(build) =>
      && size == build(row)
      && Boundary(limits, u, build, row)
      && (DownwardClosed(limits, u, build) ==> Largest(limits, u, build, row))
    case Payload(given) => size == given
  }

  predicate Accepts(reply: Reply) { !Fails(reply.answer) && reply.answer.valid }
  predicate Breaks(reply: Reply) { !Fails(reply.answer) && !reply.answer.valid }

  /** A call starts: nothing stops the run, and both the number of calls and the size of the request leave room. */
  predicate Starts(limits: Limits, u: Usage, size: Size, reply: Reply) {
    && !reply.cancelled && !reply.late && u.modelCalls < limits.maxModelCalls
    && size.characters <= limits.maxContextCharacters
    && u.modelInputTokens + size.utf8 + 1024 <= limits.maxModelInputTokens
  }

  ghost predicate First(limits: Limits, u: Usage, size: Size, call: Event)
    requires call.Call?
  {
    !call.repair && call.estimate == size.utf8 + 1024 && MostOutput(limits, u, call.allowance)
  }

  ghost predicate Second(limits: Limits, u: Usage, size: Size, reply: Reply, call: Event)
    requires call.Call?
  {
    && call.repair && call.estimate == size.utf8 + 1024 && MostOutput(limits, u, call.allowance)
    && Starts(limits, u, size, reply)
  }

  /** At most two calls, the second only to repair a complete response that broke the contract. */
  ghost predicate Attempted(
    limits: Limits, u: Usage, size: Size, first: Reply, second: Reply, r: RunResult, calls: seq<Event>)
  {
    && |calls| <= 2
    && (forall e :: e in calls ==> e.Call?)
    && (calls == [] <==> !Starts(limits, u, size, first))
    && (calls != [] ==> First(limits, u, size, calls[0]))
    && (|calls| == 2 ==> Breaks(first)
                         && Second(limits, Replay(u, calls[..1]), first.answer.repairSize, second, calls[1]))
    && (r.Accepted? ==> (|calls| == 1 && Accepts(first)) || (|calls| == 2 && Accepts(second)))
    && (r.ContractInvalid? ==> |calls| == 2 && Breaks(second))
    && (r.OutputExhausted? ==> |calls| == 1 && Breaks(first)
                               && Replay(u, calls).modelOutputTokens >= limits.maxModelOutputTokens)
    && (!r.Stopped? ==> Replay(u, calls).modelInputTokens <= limits.maxModelInputTokens
                        && Replay(u, calls).modelOutputTokens <= limits.maxModelOutputTokens)
    && (r.Stopped? ==> Halts(limits, u, size, first, second, calls, r.call))
  }

  /** Why a run ends on a call: it was not started, it failed, or it took the tokens past their limits. */
  ghost predicate Halts(
    limits: Limits, u: Usage, size: Size, first: Reply, second: Reply, calls: seq<Event>, c: CallResult)
  {
    var last := if |calls| < 2 then first else second;
    match c
    case NotStarted(why) =>
      if calls == [] then Admission(limits, u, size, first) == Some(why)
      else
        && |calls| == 1 && Breaks(first)
        && Admission(limits, Replay(u, calls), first.answer.repairSize, second) == Some(why)
    case CallFailed => calls != [] && Fails(last.answer)
    case TokensExhausted => calls != [] && !Fails(last.answer)
      && (Replay(u, calls).modelInputTokens > limits.maxModelInputTokens
          || Replay(u, calls).modelOutputTokens > limits.maxModelOutputTokens)
    case Response => false
  }

  lemma ReplayAppends(u: Usage, calls: seq<Event>, more: seq<Event>)
    requires |more| <= 1
    ensures Replay(u, calls + more) == if more == [] then Replay(u, calls) else After(Replay(u, calls), more[0])
  {
    if more == [] {
      assert calls + more == calls;
    } else {
      assert (calls + more)[..|calls|] == calls;
    }
  }

  /** A run that ends with its first call. */
  lemma AttemptedOnce(
    limits: Limits, u: Usage, size: Size, allowance: nat, first: Reply, second: Reply, c: CallResult, r: RunResult,
    calls: seq<Event>)
    requires CallSpec(limits, u, size, allowance, false, first, c, calls)
    requires c != Response ==> r == Stopped(c)
    requires c == Response ==> r == if first.answer.valid then Accepted else OutputExhausted
    requires r == OutputExhausted ==> Replay(u, calls).modelOutputTokens >= limits.maxModelOutputTokens
    requires MostOutput(limits, u, allowance)
    ensures Attempted(limits, u, size, first, second, r, calls)
  {
    ReplayAppends(u, [], calls);
    assert [] + calls == calls;
  }

  /** A run that goes on to repair a response. */
  lemma AttemptedTwice(
    limits: Limits, u: Usage, size: Size, allowance: nat, again: nat, first: Reply, second: Reply, c: CallResult,
    r: RunResult, calls: seq<Event>, more: seq<Event>)
    requires CallSpec(limits, u, size, allowance, false, first, Response, calls) && !first.answer.valid
    requires CallSpec(limits, Replay(u, calls), first.answer.repairSize, again, true, second, c, more)
    requires c != Response ==> r == Stopped(c)
    requires c == Response ==> r == if second.answer.valid then Accepted else ContractInvalid
    requires MostOutput(limits, u, allowance) && MostOutput(limits, Replay(u, calls), again)
    ensures Attempted(limits, u, size, first, second, r, calls + more)
  {
    ReplayAppends(u, calls, more);
    if more == [] {
      assert calls + more == calls;
    } else {
      assert (calls + more)[..1] == calls;
    }
  }

  class Runner {
    const limits: Limits
    const counters: Counters

    constructor (limits: Limits, counters: Counters)
      ensures this.limits == limits && this.counters == counters
    {
      this.limits := limits;
      this.counters := counters;
    }

    method CallModel(size: Size, allowance: nat, repair: bool, reply: Reply)
      returns (r: CallResult, ghost events: seq<Event>)
      requires limits.Valid() && counters.Valid(limits)
      requires OutputAllowance(limits, counters.Now()) == Some(allowance)
      modifies counters
      ensures counters.Valid(limits)
      ensures counters.history == old(counters.history) + events
      ensures CallSpec(limits, old(counters.Now()), size, allowance, repair, reply, r, events)
      ensures counters.Now() == Replay(old(counters.Now()), events)
    {
      events := [];
      if reply.cancelled { return NotStarted(Cancelled), []; }
      if reply.late { return NotStarted(Late), []; }
      if counters.modelCalls >= limits.maxModelCalls { return NotStarted(NoCallsLeft), []; }
      if !Fits(limits, counters.Now(), size) { return NotStarted(DoesNotFit), []; }
      ghost var before := counters.Now();
      counters.RecordModelCall(0, 0, false, repair);
      var a := reply.answer;
      if a.Answered? {
        counters.modelInputTokens := counters.modelInputTokens + a.inputTokens;
        counters.modelOutputTokens := counters.modelOutputTokens + a.outputTokens;
      }
      if a.Unreachable? || a.afterDeadline || a.finish != Completed {
        counters.failedModelCalls := counters.failedModelCalls + 1;
        r := CallFailed;
      } else if OverTokens(limits, counters.Now()) {
        r := TokensExhausted;
      } else {
        r := Response;
      }
      ghost var e := EventOf(size, allowance, repair, a);
      counters.Close(limits, before, e);
      events := [e];
    }

    /** The request that is sent: the fitted context, or the payload as given. */
    method Prepare(context: Context) returns (size: Size, row: nat)
      requires limits.Valid()
      ensures Prepared(limits, counters.Now(), context, size, row)
    {
      match context {
        case Rows(build) =>
          var builds;
          row, builds := FitContext(limits, counters.Now(), build);
          size := build(row);
        case Payload(given) =>
          size, row := given, 0;
      }
    }

    /** The first call, and one repair of a response that breaks the contract. */
    method Attempt(size: Size, allowance: nat, first: Reply, second: Reply)
      returns (r: RunResult, ghost calls: seq<Event>)
      requires limits.Valid() && counters.Valid(limits)
      requires OutputAllowance(limits, counters.Now()) == Some(allowance)
      modifies counters
      ensures counters.Valid(limits)
      ensures counters.history == old(counters.history) + calls
      ensures Attempted(limits, old(counters.Now()), size, first, second, r, calls)
    {
      var call;
      ghost var before := counters.Now();
      call, calls := CallModel(size, allowance, false, first);
      if call != Response || first.answer.valid {
        r := if call != Response then Stopped(call) else Accepted;
        AttemptedOnce(limits, before, size, allowance, first, second, call, r, calls);
        return;
      }
      var again := OutputAllowance(limits, counters.Now());
      if again.None? {
        AttemptedOnce(limits, before, size, allowance, first, second, call, OutputExhausted, calls);
        return OutputExhausted, calls;
      }
      ghost var more;
      call, more := CallModel(first.answer.repairSize, again.value, true, second);
      r := if call != Response then Stopped(call) else if second.answer.valid then Accepted else ContractInvalid;
      AttemptedTwice(limits, before, size, allowance, again.value, first, second, call, r, calls, more);
      calls := calls + more;
    }

    method Run(context: Context, first: Reply, second: Reply) returns (r: RunResult, ghost calls: seq<Event>)
      requires limits.Valid() && counters.Valid(limits)
      modifies counters
      ensures counters.Valid(limits)
      ensures counters.history == old(counters.history) + calls
      ensures old(counters.modelOutputTokens) >= limits.maxModelOutputTokens ==> r == OutputExhausted && calls == []
      ensures old(counters.modelOutputTokens) < limits.maxModelOutputTokens ==>
                exists size, row ::
                  && Prepared(limits, old(counters.Now()), context, size, row)
                  && Attempted(limits, old(counters.Now()), size, first, second, r, calls)
    {
      var allowance := OutputAllowance(limits, counters.Now());
      if allowance.None? {
        return OutputExhausted, [];
      }
      var size, row := Prepare(context);
      r, calls := Attempt(size, allowance.value, first, second);
    }
  }
}
