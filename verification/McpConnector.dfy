/** The connector's `submit` as the sequence of ledger accesses and provider calls that it makes.

    Every access takes one step of the protocol, so an execution of this method is a path of the interleaved
    model and the theorems about runs apply to it.
 */
module McpConnector {
  import opened Wrappers
  import opened McpSubmit

  /** What the transport does with a submit call. */
  datatype Transport = Undelivered(status: RowStatus) | Lost(status: RowStatus) | Reply(named: Option<Job>)

  predicate ErrorStatus(s: RowStatus) {
    s == UnknownRow || s == FailedRow
  }

  class Connector {
    const pending: RequestId -> Job
    var ledger: Ledger
    ghost var workers: map<Worker, Invocation>
    ghost var sends: seq<Call>
    ghost var states: seq<State>
    ghost var actions: seq<Action>

    ghost function Current(): State
      reads this
    {
      State(ledger, workers, sends)
    }

    ghost predicate Valid()
      reads this
    {
      IsRun(pending, states, actions) && states[|actions|] == Current()
    }

    constructor (pending: RequestId -> Job)
      ensures Valid() && Current() == INITIAL && this.pending == pending
    {
      this.pending := pending;
      ledger, workers, sends := map[], map[], [];
      states, actions := [INITIAL], [];
    }

    /** One step of the protocol, with its effect on the ledger. */
    method Take(a: Action, next: Ledger)
      requires Valid()
      requires Next(pending, Current(), a).Some? && next == Next(pending, Current(), a).value.ledger
      modifies this
      ensures Valid() && Some(Current()) == Next(pending, old(Current()), a)
    {
      ghost var st := Next(pending, Current(), a).value;
      ledger := next;
      workers, sends := st.workers, st.sends;
      states, actions := states + [st], actions + [a];
    }

    /** The tail of `submit` for a slot that already has a row: replay it, or ask the provider once and store what
        it names.  Nothing is submitted. */
    method Resume(w: Worker, call: Call, status: Option<Job>) returns (r: Option<Job>)
      requires Valid() && w in workers && workers[w].call == call
      requires workers[w].pc == AfterRead(ledger, call, Stopped)
      modifies this
      ensures Valid() && sends == old(sends)
      ensures w in workers && workers[w] == Invocation(call, Outcome(r))
      ensures ReplayResult(old(ledger), call, status, r)
      ensures ledger == Replayed(old(ledger), call, status)
      ensures r.Some? ==> Stored(ledger, call, r.value)
    {
      var s := SlotOf(call);
      if s !in ledger || ledger[s].digest != call.digest {
        return None;
      }
      if ledger[s].sid.Some? {
        return ledger[s].sid;
      }
      var rid := ledger[s].rid;
      Take(Action(w, StatusAnswer(status)), ledger);
      if status.None? {
        return None;
      }
      Take(Action(w, Write(true)), MarkSubmitted(ledger, rid, status.value));
      return status;
    }

    /** The provider call of a reserved row, and the write of its outcome. */
    method CallProvider(w: Worker, call: Call, transport: Transport) returns (r: Option<Job>)
      requires Valid() && w in workers && workers[w] == Invocation(call, Reserved) && Owns(ledger, call)
      requires !transport.Reply? ==> ErrorStatus(transport.status)
      modifies this
      ensures Valid() && w in workers && workers[w] == Invocation(call, Outcome(r))
      ensures r == CallResult(pending, call, transport) && (r.Some? ==> Stored(ledger, call, r.value))
      ensures sends == old(sends) + if transport.Undelivered? then [] else [call]
      ensures ledger == if transport.Reply? then MarkSubmitted(old(ledger), call.rid, r.value)
                        else MarkFailed(old(ledger), call.rid, transport.status)
    {
      if transport.Undelivered? {
        Take(Action(w, CallError(transport.status)), ledger);
        Take(Action(w, Write(true)), MarkFailed(ledger, call.rid, transport.status));
        return None;
      }
      Take(Action(w, Deliver), ledger);
      if transport.Lost? {
        Take(Action(w, CallError(transport.status)), ledger);
        Take(Action(w, Write(true)), MarkFailed(ledger, call.rid, transport.status));
        return None;
      }
      Take(Action(w, Answer(transport.named)), ledger);
      r := CallResult(pending, call, transport);
      Take(Action(w, Write(true)), MarkSubmitted(ledger, call.rid, r.value));
    }

    /** Submit one request: replay or reconcile a known key, otherwise reserve it and call the provider. */
    method Submit(w: Worker, call: Call, transport: Transport, status: Option<Job>) returns (r: Option<Job>)
      requires Valid() && w !in workers
      requires !transport.Reply? ==> ErrorStatus(transport.status)
      modifies this
      ensures Valid() && w in workers && workers[w] == Invocation(call, Outcome(r))
      ensures r.Some? ==> Stored(ledger, call, r.value)
      ensures var s := Slot(call.subject, call.key);
              s !in old(ledger) && (forall s' :: s' in old(ledger) ==> old(ledger)[s'].rid != call.rid) ==>
                && r == (if !transport.Reply? then None
                         else if transport.named.Some? then transport.named else Some(pending(call.rid)))
                && sends == old(sends) + (if transport.Undelivered? then [] else [call])
                && ledger == old(ledger)[s :=
                     Row(call.rid, call.digest, if transport.Reply? then SubmittedRow else transport.status, r)]
      ensures var s := Slot(call.subject, call.key);
              s !in old(ledger) && (exists s' :: s' in old(ledger) && old(ledger)[s'].rid == call.rid) ==>
                r == None && ledger == old(ledger) && sends == old(sends)
      ensures var s := Slot(call.subject, call.key);
              s in old(ledger) && old(ledger)[s].digest != call.digest ==>
                r == None && ledger == old(ledger) && sends == old(sends)
      ensures var s := Slot(call.subject, call.key);
              s in old(ledger) && old(ledger)[s].digest == call.digest && old(ledger)[s].sid.Some? ==>
                r == old(ledger)[s].sid && ledger == old(ledger) && sends == old(sends)
      ensures var s := Slot(call.subject, call.key);
              s in old(ledger) && old(ledger)[s].digest == call.digest && old(ledger)[s].sid.None? ==>
                && r == status && sends == old(sends)
                && ledger == (if status.None? then old(ledger)
                              else old(ledger)[s := Row(old(ledger)[s].rid, call.digest, SubmittedRow, status)])
    {
      Take(Action(w, Start(call)), ledger);
      Take(Action(w, Read), ledger);
      if SlotOf(call) !in ledger {
        if Insertable(ledger, call) {
          MarkReserved(ledger, call);
          Take(Action(w, InsertRow(true)), Reserve(ledger, call));
          r := CallProvider(w, call, transport);
          return;
        }
        Take(Action(w, InsertFails), ledger);
        Take(Action(w, Read), ledger);
      } else {
        ReachableSafe(pending, states, actions, |actions|);
        MarkOne(ledger, SlotOf(call));
      }
      r := Resume(w, call, status);
    }
  }

  function Outcome(r: Option<Job>): Pc {
    if r.Some? then Returned(r.value) else Stopped
  }

  function CallResult(pending: RequestId -> Job, call: Call, transport: Transport): Option<Job> {
    if !transport.Reply? then None
    else if transport.named.Some? then transport.named else Some(pending(call.rid))
  }

  predicate Stored(ledger: Ledger, call: Call, job: Job) {
    SlotOf(call) in ledger && ledger[SlotOf(call)].sid == Some(job) && ledger[SlotOf(call)].digest == call.digest
  }

  /** What a replay answers: a conflict is rejected, a stored job is returned, anything else is what status names. */
  predicate ReplayResult(ledger: Ledger, call: Call, status: Option<Job>, r: Option<Job>) {
    var s := SlotOf(call);
    r == if s !in ledger || ledger[s].digest != call.digest then None
         else if ledger[s].sid.Some? then ledger[s].sid else status
  }

  /** The ledger after a replay: only a job that status names is written. */
  function Replayed(ledger: Ledger, call: Call, status: Option<Job>): Ledger {
    var s := SlotOf(call);
    if s in ledger && ledger[s].digest == call.digest && ledger[s].sid.None? && status.Some?
    then MarkSubmitted(ledger, ledger[s].rid, status.value) else ledger
  }
}
