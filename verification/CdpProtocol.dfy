/**
  The request/settlement protocol of the CDP client (src/engine/cdp_api.cc).

  Senders, the incoming-message worker, the timeout sweeper and shutdown race over
  `m_pending_requests` and over one `completed` flag per request.  A step of the
  machine is one lock region of `m_requests_mutex`, one atomic exchange, one store to
  a promise or one load of the shutdown flag; any interleaving of steps is a run.
 */
module CdpProtocol {
  import opened Wrappers

  type Payload = string

  /** The part of an incoming message that `process_message` looks at. */
  datatype Reply = Reply(id: int, error: Option<Option<string>>, result: Option<Payload>)

  /** What a promise is settled with. */
  datatype Outcome =
    | Value(result: Payload)
    | CdpError(message: string)
    | InvalidResponse
    | SendFailed
    | TimedOut(at: int)
    | ClientShutdown
    | ShutdownDrain

  /** How `send_host` came to its end: the payload was taken, or not, or the client was shut down before. */
  datatype SendEnd = Sent | Failed | Refused

  /** Where the thread running `send_host` for a request is. */
  datatype Sender = Created | Registered | SendRejected | Returned(end: SendEnd)

  /** An `async_request`; `settled` lists every `set_value`/`set_exception` made on its promise. */
  datatype Request = Request(timestamp: int, timeout: int, completed: bool, settled: seq<Outcome>, sender: Sender)

  datatype Worker =
    | WorkerIdle
    | WorkerChecked(reply: Reply)
    | WorkerHolding(k: nat, reply: Reply)
    | WorkerWon(k: nat, reply: Reply)

  datatype Sweeper =
    | SweeperIdle
    | SweeperChecked(now: int)
    | SweeperHolding(now: int, queue: seq<nat>)
    | SweeperWon(now: int, k: nat, queue: seq<nat>)

  datatype State = State(
    requests: seq<Request>,
    pending: map<int, nat>,
    shutdown: bool,
    drained: bool,
    worker: Worker,
    sweeper: Sweeper,
    received: seq<Reply>)

  datatype Step =
    | Create(now: int, timeout: int)
    | Register(k: nat)
    | Send(k: nat, ok: bool)
    | FailSend(k: nat)
    | WorkerCheck(reply: Reply)
    | WorkerLookup
    | WorkerExchange
    | WorkerSettle
    | SweepCheck(now: int)
    | SweepRegion(order: seq<nat>)
    | SweepExchange
    | SweepSettle
    | RaiseShutdown
    | Drain

  const ID_COUNT: int := 0x1_0000_0000
  const NS_PER_MS: int := 1_000_000

  /** The value of the k-th `m_next_id.fetch_add(1)`: an `int` that starts at 1 and wraps. */
  function IdOf(k: nat): (id: int)
    ensures -0x8000_0000 <= id < 0x8000_0000 && (id - (k + 1)) % ID_COUNT == 0
  {
    var u := (k + 1) % ID_COUNT;
    if u < 0x8000_0000 then u else u - ID_COUNT
  }

  /** `duration_cast<milliseconds>`: division that truncates toward zero. */
  function ElapsedMs(now: int, timestamp: int): int {
    if now >= timestamp then (now - timestamp) / NS_PER_MS else -((timestamp - now) / NS_PER_MS)
  }

  predicate Expired(r: Request, now: int) {
    ElapsedMs(now, r.timestamp) > r.timeout
  }

  function ReplyOutcome(r: Reply): Outcome {
    match r.error
    case Some(Some(text)) => CdpError(text)
    case Some(None) => CdpError("CDP Error")
    case None => if r.result.Some? then Value(r.result.value) else InvalidResponse
  }

  /** `if (!completed.exchange(true)) promise.set_*(o)`. */
  function Complete(r: Request, o: Outcome): Request {
    if r.completed then r else r.(completed := true, settled := r.settled + [o])
  }

  predicate InPending(s: State, k: nat) {
    IdOf(k) in s.pending && s.pending[IdOf(k)] == k
  }

  /** `k` is the value of some entry of the map. */
  ghost predicate Mapped(s: State, k: nat) {
    exists id | id in s.pending :: s.pending[id] == k
  }

  function Init(): State {
    State([], map[], false, false, WorkerIdle, SweeperIdle, [])
  }

  /** The order in which one pass over the unordered map collects the expired requests. */
  ghost predicate IsSweepOrder(s: State, now: int, order: seq<nat>) {
    && (forall i, j | 0 <= i < j < |order| :: order[i] != order[j])
    && (forall i | 0 <= i < |order| :: order[i] < |s.requests| && Expired(s.requests[order[i]], now) && Mapped(s, order[i]))
    && (forall id | id in s.pending && s.pending[id] < |s.requests| && Expired(s.requests[s.pending[id]], now) ::
          s.pending[id] in order)
  }

  ghost predicate Enabled(s: State, step: Step) {
    match step
    case Create(_, _) => true
    case Register(k) => k < |s.requests| && s.requests[k].sender.Created?
    case Send(k, _) => k < |s.requests| && s.requests[k].sender.Registered?
    case FailSend(k) => k < |s.requests| && s.requests[k].sender.SendRejected?
    case WorkerCheck(_) => s.worker.WorkerIdle? && !s.shutdown
    case WorkerLookup => s.worker.WorkerChecked?
    case WorkerExchange => s.worker.WorkerHolding? && s.worker.k < |s.requests|
    case WorkerSettle => s.worker.WorkerWon? && s.worker.k < |s.requests|
    case SweepCheck(_) => s.sweeper.SweeperIdle? && !s.shutdown
    case SweepRegion(order) => s.sweeper.SweeperChecked? && IsSweepOrder(s, s.sweeper.now, order)
    case SweepExchange => s.sweeper.SweeperHolding? && (s.sweeper.queue == [] || s.sweeper.queue[0] < |s.requests|)
    case SweepSettle => s.sweeper.SweeperWon? && s.sweeper.k < |s.requests|
    case RaiseShutdown => !s.shutdown
    case Drain => s.shutdown && !s.drained
  }

  function Update(s: State, k: nat, r: Request): State
    requires k < |s.requests|
  {
    s.(requests := s.requests[k := r])
  }

  /** The lock region of `send_host` that tests the shutdown flag and registers. */
  function ApplyRegister(s: State, k: nat): State
    requires k < |s.requests|
  {
    var r := s.requests[k];
    if s.shutdown then
      Update(s, k, Complete(r, ClientShutdown).(sender := Returned(Refused)))
    else
      Update(s, k, r.(sender := Registered)).(pending := s.pending[IdOf(k) := k])
  }

  /** The lock region of `send_host` after the transport refused the payload. */
  function ApplyFailSend(s: State, k: nat): State
    requires k < |s.requests|
  {
    Update(s, k, Complete(s.requests[k], SendFailed).(sender := Returned(Failed))).(pending := s.pending - {IdOf(k)})
  }

  /** The lock region of `process_message`. */
  function ApplyLookup(s: State): State
    requires s.worker.WorkerChecked?
  {
    var reply := s.worker.reply;
    var heard := s.(received := s.received + [reply]);
    if reply.id in s.pending then
      heard.(pending := s.pending - {reply.id}, worker := WorkerHolding(s.pending[reply.id], reply))
    else
      heard.(worker := WorkerIdle)
  }

  /** The pending entries that the sweep leaves in place. */
  function Fresh(s: State, now: int): map<int, nat> {
    map id | id in s.pending && !(s.pending[id] < |s.requests| && Expired(s.requests[s.pending[id]], now)) :: s.pending[id]
  }

  /** The lock region of `shutdown`: fail everything registered, then clear the map. */
  ghost function ApplyDrain(s: State): State {
    s.(requests := seq(|s.requests|, k requires 0 <= k < |s.requests| =>
                       if Mapped(s, k) then Complete(s.requests[k], ShutdownDrain) else s.requests[k]),
       pending := map[],
       drained := true)
  }

  ghost function Apply(s: State, step: Step): State
    requires Enabled(s, step)
  {
    match step
    case Create(now, timeout) => s.(requests := s.requests + [Request(now, timeout, false, [], Created)])
    case Register(k) => ApplyRegister(s, k)
    case Send(k, ok) => Update(s, k, s.requests[k].(sender := if ok then Returned(Sent) else SendRejected))
    case FailSend(k) => ApplyFailSend(s, k)
    case WorkerCheck(reply) => s.(worker := WorkerChecked(reply))
    case WorkerLookup => ApplyLookup(s)
    case WorkerExchange =>
      var k := s.worker.k;
      if s.requests[k].completed then s.(worker := WorkerIdle)
      else Update(s, k, s.requests[k].(completed := true)).(worker := WorkerWon(k, s.worker.reply))
    case WorkerSettle =>
      var r := s.requests[s.worker.k];
      Update(s, s.worker.k, r.(settled := r.settled + [ReplyOutcome(s.worker.reply)])).(worker := WorkerIdle)
    case SweepCheck(now) => s.(sweeper := SweeperChecked(now))
    case SweepRegion(order) =>
      s.(pending := Fresh(s, s.sweeper.now), sweeper := SweeperHolding(s.sweeper.now, order))
    case SweepExchange =>
      if s.sweeper.queue == [] then s.(sweeper := SweeperIdle)
      else
        var k, rest := s.sweeper.queue[0], s.sweeper.queue[1..];
        if s.requests[k].completed then s.(sweeper := SweeperHolding(s.sweeper.now, rest))
        else Update(s, k, s.requests[k].(completed := true)).(sweeper := SweeperWon(s.sweeper.now, k, rest))
    case SweepSettle =>
      var r := s.requests[s.sweeper.k];
      Update(s, s.sweeper.k, r.(settled := r.settled + [TimedOut(s.sweeper.now)]))
      .(sweeper := SweeperHolding(s.sweeper.now, s.sweeper.queue))
    case RaiseShutdown => s.(shutdown := true)
    case Drain => ApplyDrain(s)
  }

  ghost predicate EnabledRun(s: State, steps: seq<Step>)
    decreases |steps|
  {
    steps == [] || (Enabled(s, steps[0]) && EnabledRun(Apply(s, steps[0]), steps[1..]))
  }

  ghost function Run(s: State, steps: seq<Step>): State
    requires EnabledRun(s, steps)
    decreases |steps|
  {
    if steps == [] then s else Run(Apply(s, steps[0]), steps[1..])
  }

  // ---------------------------------------------------------------- invariant

  predicate HeldByWorker(s: State, k: nat) {
    (s.worker.WorkerHolding? || s.worker.WorkerWon?) && s.worker.k == k
  }

  predicate HeldBySweeper(s: State, k: nat) {
    || (s.sweeper.SweeperHolding? && k in s.sweeper.queue)
    || (s.sweeper.SweeperWon? && (k == s.sweeper.k || k in s.sweeper.queue))
  }

  /** A thread has won the exchange on `k` and is about to store to its promise. */
  predicate Won(s: State, k: nat) {
    (s.worker.WorkerWon? && s.worker.k == k) || (s.sweeper.SweeperWon? && s.sweeper.k == k)
  }

  ghost predicate PendingInv(s: State) {
    forall id | id in s.pending ::
      && s.pending[id] < |s.requests|
      && IdOf(s.pending[id]) == id
      && !s.requests[s.pending[id]].completed
      && !s.requests[s.pending[id]].sender.Created?
      && !HeldByWorker(s, s.pending[id])
      && !HeldBySweeper(s, s.pending[id])
  }

  ghost predicate HolderInv(s: State) {
    && (s.worker.WorkerHolding? || s.worker.WorkerWon? ==>
          && s.worker.k < |s.requests|
          && !s.requests[s.worker.k].sender.Created?
          && s.worker.reply.id == IdOf(s.worker.k)
          && s.worker.reply in s.received)
    && (forall k: nat | HeldBySweeper(s, k) ::
          k < |s.requests| && !s.requests[k].sender.Created? && Expired(s.requests[k], s.sweeper.now))
    && !(s.worker.WorkerWon? && s.sweeper.SweeperWon? && s.worker.k == s.sweeper.k)
  }

  /** The text of an error object: its message, if it has one. */
  function ErrorText(message: Option<string>): string {
    if message.Some? then message.value else "CDP Error"
  }

  /** More whole milliseconds have passed than the timeout allows, the nanoseconds being cut toward zero. */
  predicate Overdue(ns: int, timeout: int) {
    if timeout >= 0 then ns >= (timeout + 1) * 1_000_000 else ns > timeout * 1_000_000
  }

  lemma ExpiredIffOverdue(r: Request, now: int)
    ensures Expired(r, now) <==> Overdue(now - r.timestamp, r.timeout)
  {
  }

  /** Which event a settled promise testifies to. */
  ghost predicate Justified(s: State, k: nat, o: Outcome)
    requires k < |s.requests|
  {
    match o
    case Value(x) => exists r | r in s.received :: r.id == IdOf(k) && r.error.None? && r.result == Some(x)
    case CdpError(m) =>
      exists r | r in s.received :: r.id == IdOf(k) && r.error.Some? && m == ErrorText(r.error.value)
    case InvalidResponse => exists r | r in s.received :: r.id == IdOf(k) && r.error.None? && r.result.None?
    case SendFailed => s.requests[k].sender == Returned(Failed)
    case TimedOut(at) => Overdue(at - s.requests[k].timestamp, s.requests[k].timeout)
    case ClientShutdown => s.shutdown && s.requests[k].sender == Returned(Refused)
    case ShutdownDrain => s.drained
  }

  ghost predicate RequestInv(s: State, k: nat)
    requires k < |s.requests|
  {
    var r := s.requests[k];
    && |r.settled| <= 1
    && (r.settled != [] ==> r.completed && Justified(s, k, r.settled[0]))
    && (r.completed && r.settled == [] <==> Won(s, k))
    && (r.sender.Created? ==> !r.completed)
  }

  ghost predicate Inv(s: State) {
    && PendingInv(s)
    && HolderInv(s)
    && (forall k: nat | k < |s.requests| :: RequestInv(s, k))
    && (s.drained ==> s.shutdown && s.pending == map[])
  }

  /** Unsettled, outside the map and in no receiving thread's hands: only its own sender can still settle it. */
  ghost predicate Untracked(s: State, k: nat)
    requires k < |s.requests|
  {
    && s.requests[k].settled == []
    && !s.requests[k].sender.Created?
    && !InPending(s, k)
    && !HeldByWorker(s, k)
    && !HeldBySweeper(s, k)
  }

  ghost predicate NoneUntracked(s: State) {
    forall k: nat | k < |s.requests| :: !Untracked(s, k)
  }

  /** A request that nobody will ever settle: its sender has returned as well. */
  ghost predicate Stranded(s: State, k: nat)
    requires k < |s.requests|
  {
    Untracked(s, k) && s.requests[k].sender.Returned?
  }

  ghost predicate NoneStranded(s: State) {
    forall k: nat | k < |s.requests| :: !Stranded(s, k)
  }

  // ---------------------------------------------------------------- every step keeps the invariant

  /** Whatever the other threads do to the requests, the sweeper's claims stay justified. */
  lemma SweeperClaimsStand(s: State, t: State)
    requires HolderInv(s) && t.sweeper == s.sweeper && |s.requests| <= |t.requests|
    requires forall k: nat | k < |s.requests| ::
               && t.requests[k].timestamp == s.requests[k].timestamp
               && t.requests[k].timeout == s.requests[k].timeout
               && (t.requests[k].sender.Created? ==> s.requests[k].sender.Created?)
    ensures forall k: nat | HeldBySweeper(t, k) ::
              k < |t.requests| && !t.requests[k].sender.Created? && Expired(t.requests[k], t.sweeper.now)
  {
    forall k: nat | HeldBySweeper(t, k)
      ensures k < |t.requests| && !t.requests[k].sender.Created? && Expired(t.requests[k], t.sweeper.now)
    {
      assert HeldBySweeper(s, k);
    }
  }

  lemma RegisterKeepsInv(s: State, k: nat)
    requires Inv(s) && Enabled(s, Register(k))
    ensures Inv(Apply(s, Register(k)))
  {
    var t := Apply(s, Register(k));
    SweeperClaimsStand(s, t);
    assert RequestInv(s, k);
    forall j: nat | j < |t.requests| ensures RequestInv(t, j) {
      assert RequestInv(s, j);
    }
  }

  lemma FailSendKeepsInv(s: State, k: nat)
    requires Inv(s) && Enabled(s, FailSend(k))
    ensures Inv(Apply(s, FailSend(k)))
  {
    var t := Apply(s, FailSend(k));
    SweeperClaimsStand(s, t);
    assert RequestInv(s, k);
    forall j: nat | j < |t.requests| ensures RequestInv(t, j) {
      assert RequestInv(s, j);
    }
  }

  lemma LookupKeepsInv(s: State)
    requires Inv(s) && Enabled(s, WorkerLookup)
    ensures Inv(Apply(s, WorkerLookup))
  {
    var t := Apply(s, WorkerLookup);
    SweeperClaimsStand(s, t);
    forall j: nat | j < |t.requests| ensures RequestInv(t, j) {
      assert RequestInv(s, j);
    }
  }

  lemma WorkerExchangeKeepsInv(s: State)
    requires Inv(s) && Enabled(s, WorkerExchange)
    ensures Inv(Apply(s, WorkerExchange))
  {
    var t := Apply(s, WorkerExchange);
    SweeperClaimsStand(s, t);
    assert RequestInv(s, s.worker.k);
    forall j: nat | j < |t.requests| ensures RequestInv(t, j) {
      assert RequestInv(s, j);
    }
  }

  lemma WorkerSettleKeepsInv(s: State)
    requires Inv(s) && Enabled(s, WorkerSettle)
    ensures Inv(Apply(s, WorkerSettle))
  {
    var t := Apply(s, WorkerSettle);
    SweeperClaimsStand(s, t);
    assert RequestInv(s, s.worker.k);
    forall j: nat | j < |t.requests| ensures RequestInv(t, j) {
      assert RequestInv(s, j);
    }
  }

  lemma SweepRegionKeepsInv(s: State, order: seq<nat>)
    requires Inv(s) && Enabled(s, SweepRegion(order))
    ensures Inv(Apply(s, SweepRegion(order)))
  {
    var t := Apply(s, SweepRegion(order));
    forall j: nat | HeldBySweeper(t, j)
      ensures j < |t.requests| && !t.requests[j].sender.Created? && Expired(t.requests[j], t.sweeper.now)
    {
      var id :| id in s.pending && s.pending[id] == j;
      assert !s.requests[s.pending[id]].sender.Created?;
    }
    forall j: nat | j < |t.requests| ensures RequestInv(t, j) {
      assert RequestInv(s, j);
    }
  }

  lemma SweepExchangeKeepsInv(s: State)
    requires Inv(s) && Enabled(s, SweepExchange)
    ensures Inv(Apply(s, SweepExchange))
  {
    var t := Apply(s, SweepExchange);
    if s.sweeper.queue != [] {
      assert HeldBySweeper(s, s.sweeper.queue[0]);
      assert RequestInv(s, s.sweeper.queue[0]);
    }
    forall j: nat | HeldBySweeper(t, j)
      ensures j < |t.requests| && !t.requests[j].sender.Created? && Expired(t.requests[j], t.sweeper.now)
    {
      assert HeldBySweeper(s, j);
    }
    forall j: nat | j < |t.requests| ensures RequestInv(t, j) {
      assert RequestInv(s, j);
    }
  }

  lemma SweepSettleKeepsInv(s: State)
    requires Inv(s) && Enabled(s, SweepSettle)
    ensures Inv(Apply(s, SweepSettle))
  {
    var t := Apply(s, SweepSettle);
    assert HeldBySweeper(s, s.sweeper.k);
    assert RequestInv(s, s.sweeper.k);
    ExpiredIffOverdue(s.requests[s.sweeper.k], s.sweeper.now);
    forall j: nat | HeldBySweeper(t, j)
      ensures j < |t.requests| && !t.requests[j].sender.Created? && Expired(t.requests[j], t.sweeper.now)
    {
      assert HeldBySweeper(s, j);
    }
    forall j: nat | j < |t.requests| ensures RequestInv(t, j) {
      assert RequestInv(s, j);
    }
  }

  lemma DrainKeepsInv(s: State)
    requires Inv(s) && Enabled(s, Drain)
    ensures Inv(Apply(s, Drain))
  {
    var t := Apply(s, Drain);
    SweeperClaimsStand(s, t);
    forall j: nat | j < |t.requests| ensures RequestInv(t, j) {
      assert RequestInv(s, j);
      assert Won(t, j) == Won(s, j);
      if Mapped(s, j) {
        var id :| id in s.pending && s.pending[id] == j;
        assert !s.requests[s.pending[id]].sender.Created?;
      }
    }
  }

  /** The steps that touch no promise, no flag and no entry of the map. */
  lemma LocalStepKeepsInv(s: State, step: Step)
    requires step.Create? || step.Send? || step.WorkerCheck? || step.SweepCheck? || step.RaiseShutdown?
    requires Inv(s) && Enabled(s, step)
    ensures Inv(Apply(s, step))
  {
    var t := Apply(s, step);
    if !step.SweepCheck? {
      SweeperClaimsStand(s, t);
    }
    forall j: nat | j < |t.requests| ensures RequestInv(t, j) {
      if j < |s.requests| {
        assert RequestInv(s, j);
      }
    }
  }

  lemma StepKeepsInv(s: State, step: Step)
    requires Inv(s) && Enabled(s, step)
    ensures Inv(Apply(s, step))
  {
    match step
    case Register(k) => RegisterKeepsInv(s, k);
    case FailSend(k) => FailSendKeepsInv(s, k);
    case WorkerLookup => LookupKeepsInv(s);
    case WorkerExchange => WorkerExchangeKeepsInv(s);
    case WorkerSettle => WorkerSettleKeepsInv(s);
    case SweepRegion(order) => SweepRegionKeepsInv(s, order);
    case SweepExchange => SweepExchangeKeepsInv(s);
    case SweepSettle => SweepSettleKeepsInv(s);
    case Drain => DrainKeepsInv(s);
    case _ => LocalStepKeepsInv(s, step);
  }

  // ---------------------------------------------------------------- runs

  lemma {:induction false} RunKeepsInv(s: State, steps: seq<Step>)
    requires Inv(s) && EnabledRun(s, steps)
    ensures Inv(Run(s, steps))
    decreases |steps|
  {
    if steps != [] {
      StepKeepsInv(s, steps[0]);
      RunKeepsInv(Apply(s, steps[0]), steps[1..]);
    }
  }

  /** In every interleaving each promise is settled at most once, and with an outcome that happened. */
  lemma SettledAtMostOnce(steps: seq<Step>, k: nat)
    requires EnabledRun(Init(), steps)
    requires k < |Run(Init(), steps).requests|
    ensures var s := Run(Init(), steps);
            |s.requests[k].settled| <= 1 && forall o | o in s.requests[k].settled :: Justified(s, k, o)
  {
    RunKeepsInv(Init(), steps);
    assert RequestInv(Run(Init(), steps), k);
  }

  lemma StepKeepsSettled(s: State, step: Step, k: nat)
    requires Inv(s) && Enabled(s, step)
    requires k < |s.requests| && s.requests[k].settled != []
    ensures k < |Apply(s, step).requests|
    ensures Apply(s, step).requests[k].settled == s.requests[k].settled
  {
    assert RequestInv(s, k);
    if step.WorkerSettle? {
      assert RequestInv(s, s.worker.k);
    }
  }

  /** A settled promise keeps its outcome, whatever happens next. */
  lemma {:induction false} SettledForGood(s: State, steps: seq<Step>, k: nat)
    requires Inv(s) && EnabledRun(s, steps)
    requires k < |s.requests| && s.requests[k].settled != []
    ensures k < |Run(s, steps).requests|
    ensures Run(s, steps).requests[k].settled == s.requests[k].settled
    decreases |steps|
  {
    if steps != [] {
      StepKeepsInv(s, steps[0]);
      StepKeepsSettled(s, steps[0], k);
      SettledForGood(Apply(s, steps[0]), steps[1..], k);
    }
  }

  /** Once shutdown has drained the map, it stays empty. */
  lemma {:induction false} DrainedForGood(s: State, steps: seq<Step>)
    requires Inv(s) && s.drained && EnabledRun(s, steps)
    ensures Run(s, steps).drained && Run(s, steps).pending == map[]
    decreases |steps|
  {
    if steps != [] {
      StepKeepsInv(s, steps[0]);
      DrainedForGood(Apply(s, steps[0]), steps[1..]);
    }
  }

  // ---------------------------------------------------------------- stranded requests

  /** A request found anywhere in the map stands under its own id. */
  lemma MappedIsPending(s: State, k: nat)
    requires PendingInv(s)
    ensures Mapped(s, k) <==> InPending(s, k)
  {
    if Mapped(s, k) {
      var id :| id in s.pending && s.pending[id] == k;
      assert IdOf(s.pending[id]) == id;
    }
  }

  lemma StrandedStays(s: State, step: Step, k: nat)
    requires Inv(s) && Enabled(s, step) && k < |s.requests| && Stranded(s, k)
    ensures k < |Apply(s, step).requests| && Stranded(Apply(s, step), k)
  {
    assert RequestInv(s, k);
    MappedIsPending(s, k);
  }

  /** A stranded request stays unsettled whatever happens next. */
  lemma {:induction false} StrandedForGood(s: State, steps: seq<Step>, k: nat)
    requires Inv(s) && EnabledRun(s, steps) && k < |s.requests| && Stranded(s, k)
    ensures k < |Run(s, steps).requests| && Stranded(Run(s, steps), k)
    decreases |steps|
  {
    if steps != [] {
      StepKeepsInv(s, steps[0]);
      StrandedStays(s, steps[0], k);
      StrandedForGood(Apply(s, steps[0]), steps[1..], k);
    }
  }

  /** The step takes the map entry of another request: by registering over it, or by erasing it after a failed send. */
  ghost predicate Evicts(s: State, step: Step)
    requires Enabled(s, step)
  {
    match step
    case Register(k) => !s.shutdown && IdOf(k) in s.pending
    case FailSend(k) => IdOf(k) in s.pending && s.pending[IdOf(k)] != k
    case _ => false
  }

  /** The request whose entry is taken. */
  ghost function Victim(s: State, step: Step): (j: nat)
    requires Inv(s) && Enabled(s, step) && Evicts(s, step)
    ensures j < |s.requests|
  {
    s.pending[IdOf(step.k)]
  }

  /** The request evicted is untracked from then on. */
  lemma VictimIsUntracked(s: State, step: Step)
    requires Inv(s) && Enabled(s, step) && Evicts(s, step)
    ensures var j, t := Victim(s, step), Apply(s, step);
            && j < |t.requests| && Untracked(t, j)
            && t.requests[j].sender == s.requests[j].sender
  {
    var j := Victim(s, step);
    assert RequestInv(s, j) && RequestInv(s, step.k);
    assert IdOf(j) == IdOf(step.k);
  }

  /** No other step makes a request untracked. */
  lemma OthersStayTracked(s: State, step: Step, k: nat)
    requires Inv(s) && Enabled(s, step) && k < |s.requests| && !Untracked(s, k)
    requires Evicts(s, step) ==> Victim(s, step) != k
    ensures k < |Apply(s, step).requests| && !Untracked(Apply(s, step), k)
  {
    assert RequestInv(s, k);
    match step
    case Register(j) => RegisterKeepsTracked(s, j, k);
    case FailSend(j) => FailSendKeepsTracked(s, j, k);
    case SweepRegion(order) => SweepKeepsTracked(s, step, k);
    case SweepExchange => SweepKeepsTracked(s, step, k);
    case SweepSettle => SweepKeepsTracked(s, step, k);
    case Drain => DrainKeepsTracked(s, k);
    case _ => PlainStepKeepsTracked(s, step, k);
  }

  lemma RegisterKeepsTracked(s: State, j: nat, k: nat)
    requires Inv(s) && Enabled(s, Register(j)) && k < |s.requests| && !Untracked(s, k)
    requires Evicts(s, Register(j)) ==> s.pending[IdOf(j)] != k
    ensures !Untracked(Apply(s, Register(j)), k)
  {
    assert RequestInv(s, k) && RequestInv(s, j);
  }

  lemma FailSendKeepsTracked(s: State, j: nat, k: nat)
    requires Inv(s) && Enabled(s, FailSend(j)) && k < |s.requests| && !Untracked(s, k)
    requires Evicts(s, FailSend(j)) ==> s.pending[IdOf(j)] != k
    ensures !Untracked(Apply(s, FailSend(j)), k)
  {
    assert RequestInv(s, k) && RequestInv(s, j);
    if j == k && s.requests[k].completed && s.requests[k].settled == [] {
      assert Won(s, k);
    }
  }

  lemma DrainKeepsTracked(s: State, k: nat)
    requires Inv(s) && Enabled(s, Drain) && k < |s.requests| && !Untracked(s, k)
    ensures !Untracked(Apply(s, Drain), k)
  {
    assert RequestInv(s, k);
    if InPending(s, k) {
      assert !s.requests[s.pending[IdOf(k)]].completed;
      assert Apply(s, Drain).requests[k].settled != [];
    }
  }

  lemma SweepKeepsTracked(s: State, step: Step, k: nat)
    requires step.SweepRegion? || step.SweepExchange? || step.SweepSettle?
    requires Inv(s) && Enabled(s, step) && k < |s.requests| && !Untracked(s, k)
    ensures !Untracked(Apply(s, step), k)
  {
    assert RequestInv(s, k);
  }

  /** The steps of the worker, and those that only create, send, check or raise the flag. */
  lemma PlainStepKeepsTracked(s: State, step: Step, k: nat)
    requires step.Create? || step.Send? || step.WorkerCheck? || step.WorkerLookup? || step.WorkerExchange?
             || step.WorkerSettle? || step.SweepCheck? || step.RaiseShutdown?
    requires Inv(s) && Enabled(s, step) && k < |s.requests| && !Untracked(s, k)
    ensures !Untracked(Apply(s, step), k)
  {
    assert RequestInv(s, k);
  }

  /** While every request is tracked, a step changes that exactly when it takes another request's entry. */
  lemma UntracksIff(s: State, step: Step)
    requires Inv(s) && NoneUntracked(s) && Enabled(s, step)
    ensures NoneUntracked(Apply(s, step)) <==> !Evicts(s, step)
  {
    var t := Apply(s, step);
    if Evicts(s, step) {
      VictimIsUntracked(s, step);
    } else {
      forall k: nat | k < |t.requests| ensures !Untracked(t, k) {
        if k < |s.requests| {
          OthersStayTracked(s, step, k);
        }
      }
    }
  }

  /**
    The step leaves a request that nobody will settle: it evicts one already sent, or it is the
    return of an untracked one's sender.
   */
  ghost predicate Strands(s: State, step: Step)
    requires Inv(s) && Enabled(s, step)
  {
    || (Evicts(s, step) && s.requests[Victim(s, step)].sender.Returned?)
    || (step.Send? && step.ok && Untracked(s, step.k))
  }

  lemma StrandsIff(s: State, step: Step)
    requires Inv(s) && NoneStranded(s) && Enabled(s, step)
    ensures NoneStranded(Apply(s, step)) <==> !Strands(s, step)
  {
    var t := Apply(s, step);
    if Evicts(s, step) {
      VictimIsUntracked(s, step);
    }
    if Strands(s, step) {
      var k := if Evicts(s, step) then Victim(s, step) else step.k;
      assert Stranded(t, k);
    } else {
      forall k: nat | k < |t.requests| ensures !Stranded(t, k) {
        NotStrandedBy(s, step, k);
      }
    }
  }

  lemma NotStrandedBy(s: State, step: Step, k: nat)
    requires Inv(s) && NoneStranded(s) && Enabled(s, step) && !Strands(s, step) && k < |Apply(s, step).requests|
    ensures !Stranded(Apply(s, step), k)
  {
    if k < |s.requests| {
      assert !Stranded(s, k) && RequestInv(s, k);
      if Evicts(s, step) && Victim(s, step) == k {
        VictimIsUntracked(s, step);
      } else if !Untracked(s, k) {
        OthersStayTracked(s, step, k);
      }
    }
  }

  /** No step of the run strands a request. */
  ghost predicate StrandFree(s: State, steps: seq<Step>)
    requires Inv(s) && EnabledRun(s, steps)
    decreases |steps|
  {
    steps == []
    || (!Strands(s, steps[0])
        && (StepKeepsInv(s, steps[0]); StrandFree(Apply(s, steps[0]), steps[1..])))
  }

  /** No step of the run takes the entry of another request. */
  ghost predicate EvictionFree(s: State, steps: seq<Step>)
    requires EnabledRun(s, steps)
    decreases |steps|
  {
    steps == [] || (!Evicts(s, steps[0]) && EvictionFree(Apply(s, steps[0]), steps[1..]))
  }

  /** A run leaves nobody stranded exactly when none of its steps strands anybody. */
  lemma {:induction false} RunStrandsIff(s: State, steps: seq<Step>)
    requires Inv(s) && NoneStranded(s) && EnabledRun(s, steps)
    ensures NoneStranded(Run(s, steps)) <==> StrandFree(s, steps)
    decreases |steps|
  {
    if steps != [] {
      var t := Apply(s, steps[0]);
      StepKeepsInv(s, steps[0]);
      StrandsIff(s, steps[0]);
      if Strands(s, steps[0]) {
        var k: nat :| k < |t.requests| && Stranded(t, k);
        StrandedForGood(t, steps[1..], k);
      } else {
        RunStrandsIff(t, steps[1..]);
      }
    }
  }

  lemma {:induction false} EvictionFreeTracks(s: State, steps: seq<Step>)
    requires Inv(s) && NoneUntracked(s) && EnabledRun(s, steps) && EvictionFree(s, steps)
    ensures NoneUntracked(Run(s, steps)) && StrandFree(s, steps)
    decreases |steps|
  {
    if steps != [] {
      StepKeepsInv(s, steps[0]);
      UntracksIff(s, steps[0]);
      EvictionFreeTracks(Apply(s, steps[0]), steps[1..]);
    }
  }

  /** Two requests share an id exactly when they are a multiple of 2^32 apart. */
  lemma SameIdIff(j: nat, k: nat)
    ensures IdOf(j) == IdOf(k) <==> (j - k) % ID_COUNT == 0
  {
    var a, b := (j + 1) / 0x1_0000_0000, (k + 1) / 0x1_0000_0000;
    var u, v := (j + 1) % 0x1_0000_0000, (k + 1) % 0x1_0000_0000;
    assert j - k == (a - b) * 0x1_0000_0000 + (u - v);
  }

  lemma {:induction false} RequestsOnlyGrow(s: State, steps: seq<Step>)
    requires EnabledRun(s, steps)
    ensures |s.requests| <= |Run(s, steps).requests|
    decreases |steps|
  {
    if steps != [] {
      RequestsOnlyGrow(Apply(s, steps[0]), steps[1..]);
    }
  }

  lemma FewEvictNothing(s: State, step: Step)
    requires Inv(s) && Enabled(s, step) && |s.requests| <= ID_COUNT
    ensures !Evicts(s, step)
  {
    if step.Register? || step.FailSend? {
      assert RequestInv(s, step.k);
      if IdOf(step.k) in s.pending {
        SameIdIff(s.pending[IdOf(step.k)], step.k);
      }
    }
  }

  /** Up to 2^32 requests no two share an id, so no entry is ever taken from another. */
  lemma {:induction false} FewRequestsEvictNothing(s: State, steps: seq<Step>)
    requires Inv(s) && EnabledRun(s, steps) && |Run(s, steps).requests| <= ID_COUNT
    ensures EvictionFree(s, steps)
    decreases |steps|
  {
    if steps != [] {
      RequestsOnlyGrow(s, steps);
      FewEvictNothing(s, steps[0]);
      StepKeepsInv(s, steps[0]);
      FewRequestsEvictNothing(Apply(s, steps[0]), steps[1..]);
    }
  }

  /** Its sender is not done, it is in the map, or a thread about to settle it holds it. */
  ghost predicate Owned(s: State, k: nat)
    requires k < |s.requests|
  {
    !s.requests[k].sender.Returned? || InPending(s, k) || HeldByWorker(s, k) || HeldBySweeper(s, k)
  }

  /** After any run every unsettled request has an owner, exactly when no step of the run stranded one. */
  lemma UnsettledIsOwnedIff(steps: seq<Step>)
    requires EnabledRun(Init(), steps)
    ensures var s := Run(Init(), steps);
            (forall k: nat | k < |s.requests| && s.requests[k].settled == [] :: Owned(s, k)) <==> StrandFree(Init(), steps)
  {
    var s := Run(Init(), steps);
    RunStrandsIff(Init(), steps);
    if forall k: nat | k < |s.requests| && s.requests[k].settled == [] :: Owned(s, k) {
      forall k: nat | k < |s.requests| ensures !Stranded(s, k) {
      }
    }
    if NoneStranded(s) {
      forall k: nat | k < |s.requests| && s.requests[k].settled == [] ensures Owned(s, k) {
        assert !Stranded(s, k);
      }
    }
  }

  /** Where no entry was taken, an unsettled request is still being created, in the map, or in a thread's hands. */
  lemma UnsettledIsTracked(steps: seq<Step>, k: nat)
    requires EnabledRun(Init(), steps) && EvictionFree(Init(), steps)
    requires k < |Run(Init(), steps).requests| && Run(Init(), steps).requests[k].settled == []
    ensures var s := Run(Init(), steps);
            s.requests[k].sender.Created? || InPending(s, k) || HeldByWorker(s, k) || HeldBySweeper(s, k)
  {
    EvictionFreeTracks(Init(), steps);
    assert !Untracked(Run(Init(), steps), k);
  }

  /** Shutdown has drained the map and no thread is inside an operation. */
  ghost predicate Quiescent(s: State) {
    && s.drained
    && s.worker.WorkerIdle?
    && s.sweeper.SweeperIdle?
    && forall k: nat | k < |s.requests| :: s.requests[k].sender.Returned?
  }

  ghost predicate AllSettledOnce(s: State) {
    forall k: nat | k < |s.requests| :: |s.requests[k].settled| == 1
  }

  /** At quiescence every future is settled, exactly when no step of the run stranded a request. */
  lemma QuiescentIsSettledIff(steps: seq<Step>)
    requires EnabledRun(Init(), steps) && Quiescent(Run(Init(), steps))
    ensures AllSettledOnce(Run(Init(), steps)) <==> StrandFree(Init(), steps)
  {
    var s := Run(Init(), steps);
    RunKeepsInv(Init(), steps);
    RunStrandsIff(Init(), steps);
    forall k: nat | k < |s.requests| ensures |s.requests[k].settled| == 1 <==> !Stranded(s, k) {
      assert RequestInv(s, k) && s.requests[k].sender.Returned?;
    }
  }

  /** In particular when no registration met its id in the map and no failed send another request's entry. */
  lemma QuiescentIsSettled(steps: seq<Step>)
    requires EnabledRun(Init(), steps) && Quiescent(Run(Init(), steps))
    ensures EvictionFree(Init(), steps) ==> AllSettledOnce(Run(Init(), steps))
    ensures |Run(Init(), steps).requests| <= ID_COUNT ==> AllSettledOnce(Run(Init(), steps))
  {
    if |Run(Init(), steps).requests| <= ID_COUNT {
      FewRequestsEvictNothing(Init(), steps);
    }
    if EvictionFree(Init(), steps) {
      EvictionFreeTracks(Init(), steps);
      QuiescentIsSettledIff(steps);
    }
  }

  /** A request evicted after its send had returned is never settled. */
  lemma EvictedIsNeverSettled(s: State, step: Step, steps: seq<Step>)
    requires Inv(s) && Enabled(s, step) && Evicts(s, step) && s.requests[Victim(s, step)].sender.Returned?
    requires EnabledRun(Apply(s, step), steps)
    ensures var j, t := Victim(s, step), Run(Apply(s, step), steps);
            j < |t.requests| && t.requests[j].settled == []
  {
    StepKeepsInv(s, step);
    VictimIsUntracked(s, step);
    StrandedForGood(Apply(s, step), steps, Victim(s, step));
  }

  // ---------------------------------------------------------------- shutdown can always finish

  function SenderRank(p: Sender): nat {
    match p
    case Created => 3
    case Registered => 2
    case SendRejected => 1
    case Returned(_) => 0
  }

  function SendersRank(rs: seq<Request>): nat {
    if rs == [] then 0 else SenderRank(rs[0].sender) + SendersRank(rs[1..])
  }

  function WorkerRank(w: Worker): nat {
    match w
    case WorkerIdle => 0
    case WorkerChecked(_) => 3
    case WorkerHolding(_, _) => 2
    case WorkerWon(_, _) => 1
  }

  function SweeperRank(w: Sweeper): nat {
    match w
    case SweeperIdle => 0
    case SweeperChecked(_) => 2
    case SweeperHolding(_, queue) => 1 + 2 * |queue|
    case SweeperWon(_, _, queue) => 2 + 2 * |queue|
  }

  lemma {:induction false} SendersRankUpdate(rs: seq<Request>, k: nat, r: Request)
    requires k < |rs|
    ensures SendersRank(rs[k := r]) == SendersRank(rs) - SenderRank(rs[k].sender) + SenderRank(r.sender)
  {
    if k == 0 {
      assert rs[k := r][1..] == rs[1..];
    } else {
      SendersRankUpdate(rs[1..], k - 1, r);
      assert rs[k := r][1..] == rs[1..][k - 1 := r];
    }
  }

  lemma {:induction false} SendersRankOf(rs: seq<Request>, ts: seq<Request>)
    requires |rs| == |ts| && forall k | 0 <= k < |rs| :: rs[k].sender == ts[k].sender
    ensures SendersRank(rs) == SendersRank(ts)
  {
    if rs != [] {
      SendersRankOf(rs[1..], ts[1..]);
    }
  }

  /** The work left before the client is quiescent, assuming nobody starts a new operation. */
  function WorkLeft(s: State): nat {
    (if s.shutdown then 0 else 1) + (if s.drained then 0 else 1)
    + WorkerRank(s.worker) + SweeperRank(s.sweeper) + SendersRank(s.requests)
  }

  lemma WorkerProgress(s: State) returns (step: Step)
    requires Inv(s) && !s.worker.WorkerIdle?
    ensures Enabled(s, step) && !step.Create? && WorkLeft(Apply(s, step)) < WorkLeft(s)
  {
    step := match s.worker
      case WorkerChecked(_) => WorkerLookup
      case WorkerHolding(_, _) => WorkerExchange
      case _ => WorkerSettle;
    SendersRankOf(s.requests, Apply(s, step).requests);
  }

  lemma SweeperProgress(s: State) returns (step: Step)
    requires Inv(s) && s.drained && !s.sweeper.SweeperIdle?
    ensures Enabled(s, step) && !step.Create? && WorkLeft(Apply(s, step)) < WorkLeft(s)
  {
    if s.sweeper.SweeperChecked? {
      step := SweepRegion([]);
    } else if s.sweeper.SweeperHolding? {
      step := SweepExchange;
      if s.sweeper.queue != [] {
        assert HeldBySweeper(s, s.sweeper.queue[0]);
      }
    } else {
      step := SweepSettle;
      assert HeldBySweeper(s, s.sweeper.k);
    }
    SendersRankOf(s.requests, Apply(s, step).requests);
  }

  lemma SenderProgress(s: State, k: nat) returns (step: Step)
    requires k < |s.requests| && !s.requests[k].sender.Returned?
    ensures Enabled(s, step) && !step.Create? && WorkLeft(Apply(s, step)) < WorkLeft(s)
  {
    step := match s.requests[k].sender
      case Created => Register(k)
      case Registered => Send(k, true)
      case _ => FailSend(k);
    SendersRankUpdate(s.requests, k, Apply(s, step).requests[k]);
  }

  /** Some step other than a new request is enabled and leaves strictly less work. */
  lemma ProgressStep(s: State) returns (step: Step)
    requires Inv(s) && !Quiescent(s)
    ensures Enabled(s, step) && !step.Create? && WorkLeft(Apply(s, step)) < WorkLeft(s)
  {
    if !s.shutdown {
      step := RaiseShutdown;
    } else if !s.drained {
      step := Drain;
      SendersRankOf(s.requests, Apply(s, step).requests);
    } else if !s.worker.WorkerIdle? {
      step := WorkerProgress(s);
    } else if !s.sweeper.SweeperIdle? {
      step := SweeperProgress(s);
    } else {
      var k: nat :| k < |s.requests| && !s.requests[k].sender.Returned?;
      step := SenderProgress(s, k);
    }
  }

  /** No reachable state is stuck: from each one shutdown can be run to quiescence. */
  lemma {:induction false} ShutdownCanFinish(s: State) returns (steps: seq<Step>)
    requires Inv(s)
    ensures EnabledRun(s, steps) && Quiescent(Run(s, steps))
    decreases WorkLeft(s)
  {
    if Quiescent(s) {
      steps := [];
    } else {
      var step := ProgressStep(s);
      StepKeepsInv(s, step);
      var rest := ShutdownCanFinish(Apply(s, step));
      steps := [step] + rest;
      assert steps[1..] == rest;
    }
  }

  // ---------------------------------------------------------------- and does finish

  lemma {:induction false} SendersRankAppend(rs: seq<Request>, r: Request)
    ensures SendersRank(rs + [r]) == SendersRank(rs) + SenderRank(r.sender)
  {
    if rs == [] {
      assert (rs + [r])[1..] == [];
    } else {
      SendersRankAppend(rs[1..], r);
      assert (rs + [r])[1..] == rs[1..] + [r];
    }
  }

  lemma SenderStepWork(s: State, step: Step)
    requires s.shutdown && Enabled(s, step) && (step.Create? || step.Register? || step.Send? || step.FailSend?)
    ensures WorkLeft(Apply(s, step)) <= WorkLeft(s) + if step.Create? then 3 else -1
  {
    if step.Create? {
      SendersRankAppend(s.requests, Request(step.now, step.timeout, false, [], Created));
    } else {
      SendersRankUpdate(s.requests, step.k, Apply(s, step).requests[step.k]);
    }
  }

  /** Once the map is drained every step but a new request leaves strictly less work. */
  lemma DrainedStepLowersWork(s: State, step: Step)
    requires Inv(s) && s.drained && Enabled(s, step)
    ensures WorkLeft(Apply(s, step)) <= WorkLeft(s) + if step.Create? then 3 else -1
  {
    if step.Create? || step.Register? || step.Send? || step.FailSend? {
      SenderStepWork(s, step);
    } else {
      if step.SweepRegion? {
        NothingToSweep(s, step.order);
      }
      SendersRankOf(s.requests, Apply(s, step).requests);
    }
  }

  lemma NothingToSweep(s: State, order: seq<nat>)
    requires Inv(s) && s.drained && Enabled(s, SweepRegion(order))
    ensures order == []
  {
    assert order != [] ==> Mapped(s, order[0]);
  }

  function Creates(steps: seq<Step>): nat {
    if steps == [] then 0 else (if steps[0].Create? then 1 else 0) + Creates(steps[1..])
  }

  /** So every run from then on is bounded by the work left and the requests it adds. */
  lemma {:induction false} DrainedRunsEnd(s: State, steps: seq<Step>)
    requires Inv(s) && s.drained && EnabledRun(s, steps)
    ensures |steps| + WorkLeft(Run(s, steps)) <= WorkLeft(s) + 4 * Creates(steps)
    decreases |steps|
  {
    if steps != [] {
      StepKeepsInv(s, steps[0]);
      DrainedStepLowersWork(s, steps[0]);
      DrainedRunsEnd(Apply(s, steps[0]), steps[1..]);
    }
  }

  // ---------------------------------------------------------------- a run that strands a request

  lemma {:induction false} RunAppend(s: State, a: seq<Step>, b: seq<Step>)
    requires EnabledRun(s, a) && EnabledRun(Run(s, a), b)
    ensures EnabledRun(s, a + b) && Run(s, a + b) == Run(Run(s, a), b)
    decreases |a|
  {
    if a == [] {
      assert a + b == b;
    } else {
      RunAppend(Apply(s, a[0]), a[1..], b);
      assert (a + b)[0] == a[0] && (a + b)[1..] == a[1..] + b;
    }
  }

  lemma OneStep(s: State, step: Step)
    requires Enabled(s, step)
    ensures EnabledRun(s, [step]) && Run(s, [step]) == Apply(s, step)
  {
    var rest := [step][1..];
    assert rest == [] && EnabledRun(Apply(s, step), rest);
    assert Run(Apply(s, step), rest) == Apply(s, step);
  }

  /** Requests are created until one takes the id of a request already sent. */
  lemma {:induction false} CreateUntilWrap(s: State, n: nat) returns (steps: seq<Step>)
    requires Inv(s) && !s.shutdown && IdOf(|s.requests| + n) in s.pending
    requires s.requests[s.pending[IdOf(|s.requests| + n)]].sender.Returned?
    ensures EnabledRun(s, steps)
    ensures var j := s.pending[IdOf(|s.requests| + n)]; j < |Run(s, steps).requests| && Stranded(Run(s, steps), j)
    decreases n
  {
    var k, create := |s.requests|, Create(0, 0);
    var t := Apply(s, create);
    StepKeepsInv(s, create);
    if n == 0 {
      VictimIsUntracked(t, Register(k));
      OneStep(t, Register(k));
      steps := [create, Register(k)];
      assert steps[1..] == [Register(k)];
    } else {
      var rest := CreateUntilWrap(t, n - 1);
      steps := [create] + rest;
      assert steps[1..] == rest;
    }
  }

  /**
    One request sent and left pending while 2^32 more are created, and then shutdown: quiescent,
    and its future never settled.
   */
  lemma WrappedIdStrandsRequest() returns (steps: seq<Step>)
    ensures EnabledRun(Init(), steps) && Quiescent(Run(Init(), steps))
    ensures Run(Init(), steps).requests != [] && Run(Init(), steps).requests[0].settled == []
  {
    var s1 := Apply(Init(), Create(0, 0));
    var s2 := Apply(s1, Register(0));
    var s3 := Apply(s2, Send(0, true));
    OneStep(Init(), Create(0, 0));
    OneStep(s1, Register(0));
    OneStep(s2, Send(0, true));
    RunAppend(Init(), [Create(0, 0)], [Register(0)]);
    RunAppend(Init(), [Create(0, 0)] + [Register(0)], [Send(0, true)]);
    var first := [Create(0, 0)] + [Register(0)] + [Send(0, true)];
    RunKeepsInv(Init(), first);
    assert IdOf(0) == 1 == IdOf(0x1_0000_0000) && |s3.requests| == 1 && s3.pending == map[1 := 0];
    var wrap := CreateUntilWrap(s3, 0xFFFF_FFFF);
    RunKeepsInv(s3, wrap);
    var last := ShutdownCanFinish(Run(s3, wrap));
    StrandedForGood(Run(s3, wrap), last, 0);
    RunAppend(s3, wrap, last);
    RunAppend(Init(), first, wrap + last);
    steps := first + (wrap + last);
  }
}
