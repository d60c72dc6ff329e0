/** The idempotent submit protocol over the request ledger, with any number of interleaved invocations.

    An invocation reserves a ledger row, calls the provider and writes the answer back; an invocation that
    finds a row replays it or reconciles it through the provider's status.  Every database access and every
    provider message is one step, an access may fail with or without its effect being committed, and an
    invocation may stop for ever between any two steps.
 */
module McpSubmit {
  import opened Wrappers

  type RequestId = string
  type Job = string

  /** The normalised envelope of one invocation. */
  datatype Call = Call(subject: string, key: string, digest: string, rid: RequestId)

  datatype Slot = Slot(subject: string, key: string)

  function SlotOf(c: Call): Slot {
    Slot(c.subject, c.key)
  }

  datatype RowStatus = ReservedRow | UnknownRow | FailedRow | SubmittedRow

  datatype Row = Row(rid: RequestId, digest: string, status: RowStatus, sid: Option<Job>)

  type Ledger = map<Slot, Row>

  /** Where an invocation stands. */
  datatype Pc =
    | Begin
    | Missed
    | Conflicted
    | Reserved
    | Sent
    | Answered(job: Job)
    | CallFailed(status: RowStatus)
    | Reconciling(rid: RequestId)
    | Found(rid: RequestId, job: Job)
    | Returned(job: Job)
    | Stopped

  datatype Invocation = Invocation(call: Call, pc: Pc)

  type Worker = nat

  /** `sends` lists the submit calls that reached the provider. */
  datatype State = State(ledger: Ledger, workers: map<Worker, Invocation>, sends: seq<Call>)

  const INITIAL := State(map[], map[], [])

  // ----- Ledger operations -----

  predicate RidUsed(ledger: Ledger, rid: RequestId) {
    exists s :: s in ledger && ledger[s].rid == rid
  }

  /** Both unique constraints of the table admit the row. */
  predicate Insertable(ledger: Ledger, c: Call) {
    SlotOf(c) !in ledger && !RidUsed(ledger, c.rid)
  }

  function Reserve(ledger: Ledger, c: Call): Ledger {
    ledger[SlotOf(c) := Row(c.rid, c.digest, ReservedRow, None)]
  }

  function MarkSubmitted(ledger: Ledger, rid: RequestId, job: Job): Ledger {
    map s | s in ledger ::
      if ledger[s].rid == rid then ledger[s].(status := SubmittedRow, sid := Some(job)) else ledger[s]
  }

  function MarkFailed(ledger: Ledger, rid: RequestId, status: RowStatus): Ledger {
    map s | s in ledger :: if ledger[s].rid == rid then ledger[s].(status := status) else ledger[s]
  }

  /** What an invocation does after reading its slot; `absent` is where it goes when there is no row. */
  function AfterRead(ledger: Ledger, c: Call, absent: Pc): Pc {
    var s := SlotOf(c);
    if s !in ledger then absent
    else if ledger[s].digest != c.digest then Stopped
    else if ledger[s].sid.Some? then Returned(ledger[s].sid.value)
    else Reconciling(ledger[s].rid)
  }

  // ----- Steps -----

  /** The outcomes that the environment chooses.  Provider answers carry the job they name, if any. */
  datatype Event =
    | Start(call: Call)
    | Read
    | InsertRow(reported: bool)
    | InsertFails
    | Deliver
    | CallError(status: RowStatus)
    | Answer(named: Option<Job>)
    | StatusAnswer(named: Option<Job>)
    | Write(reported: bool)
    | Stop

  datatype Action = Action(worker: Worker, event: Event)

  function Put(st: State, w: Worker, i: Invocation): State {
    st.(workers := st.workers[w := i])
  }

  /** A committed write of a job id; the invocation returns it if the commit is reported to it. */
  function Finish(st: State, w: Worker, c: Call, job: Job, reported: bool, ledger: Ledger): State {
    Put(st, w, Invocation(c, if reported then Returned(job) else Stopped)).(ledger := ledger)
  }

  /** The effect of one action; `None` when it is not enabled.  `pending` is the deterministic job id. */
  function Next(pending: RequestId -> Job, st: State, a: Action): Option<State> {
    var w := a.worker;
    if a.event.Start? then
      if w in st.workers then None else Some(Put(st, w, Invocation(a.event.call, Begin)))
    else if w !in st.workers then None
    else
      var c, pc := st.workers[w].call, st.workers[w].pc;
      match a.event
      case Start(_) => None
      case Stop => if pc.Returned? then None else Some(Put(st, w, Invocation(c, Stopped)))
      case Read =>
        if pc == Begin then Some(Put(st, w, Invocation(c, AfterRead(st.ledger, c, Missed))))
        else if pc == Conflicted then Some(Put(st, w, Invocation(c, AfterRead(st.ledger, c, Stopped))))
        else None
      case InsertRow(reported) =>
        if pc == Missed && Insertable(st.ledger, c) then
          Some(Put(st, w, Invocation(c, if reported then Reserved else Conflicted)).(ledger := Reserve(st.ledger, c)))
        else None
      case InsertFails => if pc == Missed then Some(Put(st, w, Invocation(c, Conflicted))) else None
      case Deliver => if pc == Reserved then Some(Put(st, w, Invocation(c, Sent)).(sends := st.sends + [c])) else None
      case CallError(status) =>
        if (pc == Reserved || pc == Sent) && (status == UnknownRow || status == FailedRow)
        then Some(Put(st, w, Invocation(c, CallFailed(status)))) else None
      case Answer(named) =>
        if pc == Sent
        then Some(Put(st, w, Invocation(c, Answered(if named.Some? then named.value else pending(c.rid))))) else None
      case StatusAnswer(named) =>
        if pc.Reconciling?
        then Some(Put(st, w, Invocation(c, if named.Some? then Found(pc.rid, named.value) else Stopped))) else None
      case Write(reported) =>
        if pc.Answered? then Some(Finish(st, w, c, pc.job, reported, MarkSubmitted(st.ledger, c.rid, pc.job)))
        else if pc.CallFailed? then
          Some(Put(st, w, Invocation(c, Stopped)).(ledger := MarkFailed(st.ledger, c.rid, pc.status)))
        else if pc.Found? then Some(Finish(st, w, c, pc.job, reported, MarkSubmitted(st.ledger, pc.rid, pc.job)))
        else None
  }

  ghost predicate IsRun(pending: RequestId -> Job, states: seq<State>, actions: seq<Action>) {
    && |states| == |actions| + 1
    && states[0] == INITIAL
    && forall i :: 0 <= i < |actions| ==> Next(pending, states[i], actions[i]) == Some(states[i + 1])
  }

  // ----- At most one submit -----

  ghost predicate RidsUnique(ledger: Ledger) {
    forall s, s' :: s in ledger && s' in ledger && ledger[s].rid == ledger[s'].rid ==> s == s'
  }

  /** The row of this call was reserved for it. */
  predicate Owns(ledger: Ledger, c: Call) {
    SlotOf(c) in ledger && ledger[SlotOf(c)].rid == c.rid && ledger[SlotOf(c)].digest == c.digest
  }

  predicate Submitting(pc: Pc) {
    pc.Reserved? || pc.Sent? || pc.Answered? || pc.CallFailed?
  }

  ghost predicate SubmittersOwn(st: State) {
    forall w :: w in st.workers && Submitting(st.workers[w].pc) ==> Owns(st.ledger, st.workers[w].call)
  }

  ghost predicate SendsOwn(st: State) {
    forall i :: 0 <= i < |st.sends| ==> Owns(st.ledger, st.sends[i])
  }

  predicate Reserves(st: State, w: Worker, s: Slot) {
    w in st.workers && st.workers[w].pc == Reserved && SlotOf(st.workers[w].call) == s
  }

  ghost predicate OneReservation(st: State) {
    forall w, w', s :: Reserves(st, w, s) && Reserves(st, w', s) ==> w == w'
  }

  ghost predicate ReservationUnsent(st: State) {
    forall w, i :: 0 <= i < |st.sends| ==> !Reserves(st, w, SlotOf(st.sends[i]))
  }

  ghost predicate SendsDistinct(st: State) {
    forall i, j :: 0 <= i < j < |st.sends| ==> SlotOf(st.sends[i]) != SlotOf(st.sends[j])
  }

  ghost predicate Safe(st: State) {
    && RidsUnique(st.ledger) && SubmittersOwn(st) && SendsOwn(st)
    && OneReservation(st) && ReservationUnsent(st) && SendsDistinct(st)
  }

  /** Rows are never deleted, never change their request or digest, and never lose a stored job. */
  ghost predicate LedgerGrows(ledger: Ledger, ledger': Ledger) {
    forall s :: s in ledger ==>
                  && s in ledger' && ledger'[s].rid == ledger[s].rid && ledger'[s].digest == ledger[s].digest
                  && (ledger[s].sid.Some? ==> ledger'[s].sid.Some?)
  }

  lemma NextGrows(pending: RequestId -> Job, st: State, a: Action, st': State)
    requires Next(pending, st, a) == Some(st')
    ensures LedgerGrows(st.ledger, st'.ledger)
  {
  }

  /** An action changes no other invocation. */
  lemma Others(pending: RequestId -> Job, st: State, a: Action, st': State, w: Worker)
    requires Next(pending, st, a) == Some(st') && w != a.worker
    ensures w in st'.workers <==> w in st.workers
    ensures w in st.workers ==> st'.workers[w] == st.workers[w]
  {
  }

  lemma ActorOwns(pending: RequestId -> Job, st: State, a: Action, st': State)
    requires Next(pending, st, a) == Some(st') && SubmittersOwn(st)
    ensures a.worker in st'.workers
    ensures Submitting(st'.workers[a.worker].pc) ==> Owns(st'.ledger, st'.workers[a.worker].call)
  {
  }

  lemma NextKeepsSubmitters(pending: RequestId -> Job, st: State, a: Action, st': State)
    requires Next(pending, st, a) == Some(st') && SubmittersOwn(st)
    ensures SubmittersOwn(st')
  {
    NextGrows(pending, st, a, st');
    ActorOwns(pending, st, a, st');
    forall w | w in st'.workers && Submitting(st'.workers[w].pc) ensures Owns(st'.ledger, st'.workers[w].call) {
      if w != a.worker {
        Others(pending, st, a, st', w);
      }
    }
  }

  lemma NextKeepsSends(pending: RequestId -> Job, st: State, a: Action, st': State)
    requires Next(pending, st, a) == Some(st') && SubmittersOwn(st) && SendsOwn(st)
    ensures SendsOwn(st')
  {
    NextGrows(pending, st, a, st');
  }

  /** Whoever reserves a slot after the step either did so before or has just inserted its row. */
  lemma ReservedBefore(pending: RequestId -> Job, st: State, a: Action, st': State, w: Worker, s: Slot)
    requires Next(pending, st, a) == Some(st') && Reserves(st', w, s)
    ensures Reserves(st, w, s) || (w == a.worker && a.event.InsertRow? && s !in st.ledger && st'.sends == st.sends)
    ensures w == a.worker ==> a.event.InsertRow?
  {
    if w != a.worker {
      Others(pending, st, a, st', w);
    }
  }

  lemma NextKeepsReservation(pending: RequestId -> Job, st: State, a: Action, st': State)
    requires Next(pending, st, a) == Some(st') && Safe(st)
    ensures OneReservation(st')
  {
    forall w, w', s | Reserves(st', w, s) && Reserves(st', w', s) ensures w == w' {
      ReservedBefore(pending, st, a, st', w, s);
      ReservedBefore(pending, st, a, st', w', s);
    }
  }

  lemma NextKeepsUnsent(pending: RequestId -> Job, st: State, a: Action, st': State)
    requires Next(pending, st, a) == Some(st') && Safe(st)
    ensures ReservationUnsent(st')
  {
    forall w, i | 0 <= i < |st'.sends| ensures !Reserves(st', w, SlotOf(st'.sends[i])) {
      var s := SlotOf(st'.sends[i]);
      if Reserves(st', w, s) {
        ReservedBefore(pending, st, a, st', w, s);
        SendsFrom(pending, st, a, st', i);
        assert false;
      }
    }
  }

  lemma SendsFrom(pending: RequestId -> Job, st: State, a: Action, st': State, i: nat)
    requires Next(pending, st, a) == Some(st') && i < |st'.sends|
    ensures (i < |st.sends| && st'.sends[i] == st.sends[i])
         || (a.event.Deliver? && Reserves(st, a.worker, SlotOf(st'.sends[i])))
  {
  }

  lemma NextKeepsDistinct(pending: RequestId -> Job, st: State, a: Action, st': State)
    requires Next(pending, st, a) == Some(st') && Safe(st)
    ensures SendsDistinct(st')
  {
    if st'.sends != st.sends {
      assert Reserves(st, a.worker, SlotOf(st.workers[a.worker].call));
    }
  }

  lemma {:induction false} ReachableSafe(pending: RequestId -> Job, states: seq<State>, actions: seq<Action>, k: nat)
    requires IsRun(pending, states, actions) && k <= |actions|
    ensures Safe(states[k])
  {
    if k > 0 {
      var st, a, st' := states[k - 1], actions[k - 1], states[k];
      ReachableSafe(pending, states, actions, k - 1);
      NextKeepsSubmitters(pending, st, a, st');
      NextKeepsSends(pending, st, a, st');
      NextKeepsReservation(pending, st, a, st');
      NextKeepsUnsent(pending, st, a, st');
      NextKeepsDistinct(pending, st, a, st');
    }
  }

  /** In every reachable state the provider has received at most one submit per subject and idempotency key. */
  lemma SubmittedAtMostOnce(pending: RequestId -> Job, states: seq<State>, actions: seq<Action>, k: nat, i: nat, j: nat)
    requires IsRun(pending, states, actions) && k <= |actions| && i < j < |states[k].sends|
    ensures SlotOf(states[k].sends[i]) != SlotOf(states[k].sends[j])
  {
    ReachableSafe(pending, states, actions, k);
  }

  // ----- What the steps do, on the fields -----

  /** A missed invocation can insert its row if and only if no row has its subject and key and none its request id;
      the new row is its own, reserved and without a job, and no other row or invocation changes. */
  lemma InsertExactly(pending: RequestId -> Job, st: State, w: Worker, reported: bool)
    requires w in st.workers && st.workers[w].pc == Missed
    ensures var c := st.workers[w].call;
            var r := Next(pending, st, Action(w, InsertRow(reported)));
            && (r.Some? <==>
                  Slot(c.subject, c.key) !in st.ledger && forall s :: s in st.ledger ==> st.ledger[s].rid != c.rid)
            && (r.Some? ==>
                  && r.value.ledger == st.ledger[Slot(c.subject, c.key) := Row(c.rid, c.digest, ReservedRow, None)]
                  && r.value.workers == st.workers[w := Invocation(c, if reported then Reserved else Conflicted)]
                  && r.value.sends == st.sends)
  {
  }

  /** What the first read of a slot decides. */
  lemma ReadExactly(pending: RequestId -> Job, st: State, w: Worker, st': State)
    requires w in st.workers && st.workers[w].pc == Begin && Next(pending, st, Action(w, Read)) == Some(st')
    ensures var s := Slot(st.workers[w].call.subject, st.workers[w].call.key);
            var same := s in st.ledger && st.ledger[s].digest == st.workers[w].call.digest;
            && (st'.workers[w].pc == Missed <==> s !in st.ledger)
            && (st'.workers[w].pc == Stopped <==> s in st.ledger && !same)
            && (forall j :: st'.workers[w].pc == Returned(j) <==> same && st.ledger[s].sid == Some(j))
            && (forall rid :: st'.workers[w].pc == Reconciling(rid) <==>
                                same && st.ledger[s].sid == None && st.ledger[s].rid == rid)
  {
  }

  lemma MarkOne(ledger: Ledger, s: Slot)
    requires RidsUnique(ledger) && s in ledger
    ensures forall job :: MarkSubmitted(ledger, ledger[s].rid, job) ==
                          ledger[s := Row(ledger[s].rid, ledger[s].digest, SubmittedRow, Some(job))]
  {
    forall job
      ensures MarkSubmitted(ledger, ledger[s].rid, job) ==
              ledger[s := Row(ledger[s].rid, ledger[s].digest, SubmittedRow, Some(job))]
    {
      var marked := MarkSubmitted(ledger, ledger[s].rid, job);
      forall x | x in ledger && x != s ensures marked[x] == ledger[x] {
        assert ledger[x].rid != ledger[s].rid;
      }
    }
  }

  /** Marking a row that has just been reserved touches that row only. */
  lemma MarkReserved(ledger: Ledger, c: Call)
    requires Insertable(ledger, c)
    ensures forall job :: MarkSubmitted(Reserve(ledger, c), c.rid, job) ==
                          ledger[SlotOf(c) := Row(c.rid, c.digest, SubmittedRow, Some(job))]
    ensures forall status :: MarkFailed(Reserve(ledger, c), c.rid, status) ==
                             ledger[SlotOf(c) := Row(c.rid, c.digest, status, None)]
  {
  }

  // ----- Agreement on the digest and on the job -----

  /** The provider names one job per request: every answer about a request amounts to the same job id. */
  ghost predicate Honest(pending: RequestId -> Job, jobOf: RequestId -> Job, st: State, a: Action) {
    a.worker in st.workers ==>
      var c, pc := st.workers[a.worker].call, st.workers[a.worker].pc;
      match a.event
      case Answer(named) => jobOf(c.rid) == if named.Some? then named.value else pending(c.rid)
      case StatusAnswer(Some(named)) => pc.Reconciling? ==> named == jobOf(pc.rid)
      case _ => true
  }

  ghost predicate HonestRun(
    pending: RequestId -> Job, jobOf: RequestId -> Job, states: seq<State>, actions: seq<Action>)
  {
    IsRun(pending, states, actions) && forall i :: 0 <= i < |actions| ==> Honest(pending, jobOf, states[i], actions[i])
  }

  /** What an invocation knows about the row of its slot. */
  predicate Knows(ledger: Ledger, i: Invocation) {
    var s := SlotOf(i.call);
    (i.pc.Reconciling? || i.pc.Found? || i.pc.Returned?) ==>
      && s in ledger && ledger[s].digest == i.call.digest
      && ((i.pc.Reconciling? || i.pc.Found?) ==> ledger[s].rid == i.pc.rid)
      && (i.pc.Returned? ==> ledger[s].sid.Some?)
  }

  ghost predicate AllKnow(st: State) {
    forall w :: w in st.workers ==> Knows(st.ledger, st.workers[w])
  }

  ghost predicate StoredJobs(jobOf: RequestId -> Job, ledger: Ledger) {
    forall s :: s in ledger && ledger[s].sid.Some? ==> ledger[s].sid.value == jobOf(ledger[s].rid)
  }

  ghost predicate HeldJob(jobOf: RequestId -> Job, ledger: Ledger, i: Invocation) {
    match i.pc
    case Answered(job) => job == jobOf(i.call.rid)
    case Found(rid, job) => job == jobOf(rid)
    case Returned(job) => SlotOf(i.call) in ledger && job == jobOf(ledger[SlotOf(i.call)].rid)
    case _ => true
  }

  ghost predicate HeldJobs(jobOf: RequestId -> Job, st: State) {
    forall w :: w in st.workers ==> HeldJob(jobOf, st.ledger, st.workers[w])
  }

  lemma ReadKnows(ledger: Ledger, c: Call, absent: Pc)
    requires absent.Missed? || absent.Stopped?
    ensures Knows(ledger, Invocation(c, AfterRead(ledger, c, absent)))
  {
  }

  lemma ActorKnows(pending: RequestId -> Job, st: State, a: Action, st': State)
    requires Next(pending, st, a) == Some(st') && SubmittersOwn(st) && AllKnow(st)
    ensures a.worker in st'.workers && Knows(st'.ledger, st'.workers[a.worker])
  {
    if !a.event.Start? {
      var i := st.workers[a.worker];
      assert Knows(st.ledger, i);
      if a.event.Read? {
        ReadKnows(st.ledger, i.call, Missed);
        ReadKnows(st.ledger, i.call, Stopped);
      } else if a.event.Write? {
        NextGrows(pending, st, a, st');
      }
    }
  }

  lemma NextKeepsKnowledge(pending: RequestId -> Job, st: State, a: Action, st': State)
    requires Next(pending, st, a) == Some(st') && SubmittersOwn(st) && AllKnow(st)
    ensures AllKnow(st')
  {
    NextGrows(pending, st, a, st');
    ActorKnows(pending, st, a, st');
    forall w | w in st'.workers ensures Knows(st'.ledger, st'.workers[w]) {
      if w != a.worker {
        Others(pending, st, a, st', w);
      }
    }
  }

  lemma NextKeepsHeld(pending: RequestId -> Job, jobOf: RequestId -> Job, st: State, a: Action, st': State)
    requires Next(pending, st, a) == Some(st') && Honest(pending, jobOf, st, a)
    requires SubmittersOwn(st) && AllKnow(st) && StoredJobs(jobOf, st.ledger) && HeldJobs(jobOf, st)
    ensures HeldJobs(jobOf, st')
  {
    NextGrows(pending, st, a, st');
    forall w | w in st'.workers ensures HeldJob(jobOf, st'.ledger, st'.workers[w]) {
      if w != a.worker {
        Others(pending, st, a, st', w);
      }
    }
  }

  lemma {:induction false} ReachableAgrees(
    pending: RequestId -> Job, jobOf: RequestId -> Job, states: seq<State>, actions: seq<Action>, k: nat)
    requires IsRun(pending, states, actions) && k <= |actions|
    ensures AllKnow(states[k])
    ensures HonestRun(pending, jobOf, states, actions) ==>
              StoredJobs(jobOf, states[k].ledger) && HeldJobs(jobOf, states[k])
  {
    if k > 0 {
      var st, a, st' := states[k - 1], actions[k - 1], states[k];
      ReachableAgrees(pending, jobOf, states, actions, k - 1);
      ReachableSafe(pending, states, actions, k - 1);
      NextKeepsKnowledge(pending, st, a, st');
      if HonestRun(pending, jobOf, states, actions) {
        NextKeepsHeld(pending, jobOf, st, a, st');
      }
    }
  }

  /** Every call that was submitted or answered under one subject and key has the digest that reserved it. */
  lemma OneDigestPerKey(pending: RequestId -> Job, states: seq<State>, actions: seq<Action>, k: nat, s: Slot)
    requires IsRun(pending, states, actions) && k <= |actions|
    ensures forall i :: 0 <= i < |states[k].sends| && SlotOf(states[k].sends[i]) == s
              ==> s in states[k].ledger && states[k].sends[i].digest == states[k].ledger[s].digest
    ensures forall w :: w in states[k].workers && SlotOf(states[k].workers[w].call) == s
                        && states[k].workers[w].pc.Returned?
              ==> s in states[k].ledger && states[k].workers[w].call.digest == states[k].ledger[s].digest
  {
    ReachableSafe(pending, states, actions, k);
    ReachableAgrees(pending, pending, states, actions, k);
  }

  /** Given an honest provider, all invocations that return under one subject and key return the same job, and it
      is the one stored in the ledger. */
  lemma JobsAgree(pending: RequestId -> Job, jobOf: RequestId -> Job, states: seq<State>, actions: seq<Action>, k: nat,
                  w: Worker, w': Worker)
    requires HonestRun(pending, jobOf, states, actions) && k <= |actions|
    requires w in states[k].workers && w' in states[k].workers
    requires SlotOf(states[k].workers[w].call) == SlotOf(states[k].workers[w'].call)
    requires states[k].workers[w].pc.Returned? && states[k].workers[w'].pc.Returned?
    ensures states[k].workers[w].pc.job == states[k].workers[w'].pc.job
    ensures var s := SlotOf(states[k].workers[w].call);
            s in states[k].ledger && states[k].ledger[s].sid == Some(states[k].workers[w].pc.job)
  {
    ReachableAgrees(pending, jobOf, states, actions, k);
    assert HeldJob(jobOf, states[k].ledger, states[k].workers[w]);
    assert HeldJob(jobOf, states[k].ledger, states[k].workers[w']);
  }

  /** What an invocation returned it has returned in every later state. */
  lemma {:induction false} ReturnedStays(
    pending: RequestId -> Job, states: seq<State>, actions: seq<Action>, i: nat, k: nat, w: Worker)
    requires IsRun(pending, states, actions) && i <= k <= |actions|
    requires w in states[i].workers && states[i].workers[w].pc.Returned?
    ensures w in states[k].workers && states[k].workers[w] == states[i].workers[w]
  {
    if i < k {
      ReturnedStays(pending, states, actions, i, k - 1, w);
      assert Next(pending, states[k - 1], actions[k - 1]) == Some(states[k]);
    }
  }
}
