/**
  What the steps of the DevTools client (src/engine/cdp_api.cc) bring about: every outcome goes
  back to an event of the run, and every event that decides a request settles it.
 */
module CdpOutcomes {
  import opened Wrappers
  import opened CdpProtocol

  // ---------------------------------------------------------------- outcomes have causes

  /** What the past of a state must contain for it to be what it is. */
  ghost predicate Caused(s: State, past: seq<Step>) {
    && (forall r | r in s.received :: WorkerCheck(r) in past)
    && (!s.worker.WorkerIdle? ==> WorkerCheck(s.worker.reply) in past)
    && (!s.sweeper.SweeperIdle? ==> SweepCheck(s.sweeper.now) in past)
    && (s.shutdown ==> RaiseShutdown in past)
    && (s.drained ==> Drain in past)
    && (forall k: nat | k < |s.requests| :: RequestCaused(s.requests[k], k, past))
  }

  ghost predicate RequestCaused(r: Request, k: nat, past: seq<Step>) {
    && Create(r.timestamp, r.timeout) in past
    && (r.sender == Returned(Sent) ==> Send(k, true) in past)
    && (r.sender == SendRejected || r.sender == Returned(Failed) ==> Send(k, false) in past)
    && (r.sender == Returned(Refused) ==> RaiseShutdown in past)
    && (forall at | TimedOut(at) in r.settled :: SweepCheck(at) in past)
  }

  lemma {:induction false} CausesStand(r: Request, k: nat, past: seq<Step>, step: Step)
    requires RequestCaused(r, k, past)
    ensures RequestCaused(r, k, past + [step])
  {
  }

  lemma StepHasCause(s: State, past: seq<Step>, step: Step)
    requires Caused(s, past) && Enabled(s, step)
    ensures Caused(Apply(s, step), past + [step])
  {
    var t, more := Apply(s, step), past + [step];
    assert more[|past|] == step;
    forall k: nat | k < |t.requests| ensures RequestCaused(t.requests[k], k, more) {
      if k < |s.requests| {
        CausesStand(s.requests[k], k, past, step);
      }
    }
  }

  lemma {:induction false} RunHasCauses(s: State, past: seq<Step>, steps: seq<Step>)
    requires Caused(s, past) && EnabledRun(s, steps)
    ensures Caused(Run(s, steps), past + steps)
    decreases |steps|
  {
    if steps == [] {
      assert past + steps == past;
    } else {
      StepHasCause(s, past, steps[0]);
      RunHasCauses(Apply(s, steps[0]), past + [steps[0]], steps[1..]);
      assert past + [steps[0]] + steps[1..] == past + steps;
    }
  }

  /** The event of the run that an outcome of request k goes back to. */
  ghost predicate HasEvent(steps: seq<Step>, r: Request, k: nat, o: Outcome) {
    match o
    case Value(x) => exists m | WorkerCheck(m) in steps :: m.id == IdOf(k) && m.error.None? && m.result == Some(x)
    case CdpError(text) =>
      exists m | WorkerCheck(m) in steps :: m.id == IdOf(k) && m.error.Some? && text == ErrorText(m.error.value)
    case InvalidResponse => exists m | WorkerCheck(m) in steps :: m.id == IdOf(k) && m.error.None? && m.result.None?
    case SendFailed => Send(k, false) in steps
    case TimedOut(at) => SweepCheck(at) in steps && Overdue(at - r.timestamp, r.timeout)
    case ClientShutdown => RaiseShutdown in steps && Send(k, true) !in steps && Send(k, false) !in steps
    case ShutdownDrain => RaiseShutdown in steps && Drain in steps
  }

  /** A sender that was refused never got to send. */
  ghost predicate Unsent(s: State, past: seq<Step>) {
    && (forall k: nat, ok | Send(k, ok) in past :: k < |s.requests|)
    && (forall k: nat | k < |s.requests| && Early(s.requests[k].sender) :: Send(k, true) !in past && Send(k, false) !in past)
  }

  predicate Early(sender: Sender) {
    sender.Created? || sender.Registered? || sender == Returned(Refused)
  }

  lemma StepKeepsUnsent(s: State, past: seq<Step>, step: Step)
    requires Unsent(s, past) && Enabled(s, step)
    ensures Unsent(Apply(s, step), past + [step])
  {
  }

  lemma {:induction false} RunKeepsUnsent(s: State, past: seq<Step>, steps: seq<Step>)
    requires Unsent(s, past) && EnabledRun(s, steps)
    ensures Unsent(Run(s, steps), past + steps)
    decreases |steps|
  {
    if steps == [] {
      assert past + steps == past;
    } else {
      StepKeepsUnsent(s, past, steps[0]);
      RunKeepsUnsent(Apply(s, steps[0]), past + [steps[0]], steps[1..]);
      assert past + [steps[0]] + steps[1..] == past + steps;
    }
  }

  lemma StateHasEvent(s: State, steps: seq<Step>, k: nat, o: Outcome)
    requires Inv(s) && Caused(s, steps) && Unsent(s, steps) && k < |s.requests| && o in s.requests[k].settled
    ensures HasEvent(steps, s.requests[k], k, o)
  {
    assert RequestInv(s, k) && RequestCaused(s.requests[k], k, steps);
    assert o == s.requests[k].settled[0];
    match o
    case Value(x) =>
      var r :| r in s.received && r.id == IdOf(k) && r.error.None? && r.result == Some(x);
      assert WorkerCheck(r) in steps;
    case CdpError(m) =>
      var r :| r in s.received && r.id == IdOf(k) && r.error.Some? && m == ErrorText(r.error.value);
      assert WorkerCheck(r) in steps;
    case InvalidResponse =>
      var r :| r in s.received && r.id == IdOf(k) && r.error.None? && r.result.None?;
      assert WorkerCheck(r) in steps;
    case _ =>
  }

  /** After any run, the outcome of a request goes back to an event of that run that calls for it. */
  lemma OutcomeHasEvent(steps: seq<Step>, k: nat, o: Outcome)
    requires EnabledRun(Init(), steps) && k < |Run(Init(), steps).requests|
    requires o in Run(Init(), steps).requests[k].settled
    ensures HasEvent(steps, Run(Init(), steps).requests[k], k, o)
  {
    RunKeepsInv(Init(), steps);
    RunHasCauses(Init(), [], steps);
    RunKeepsUnsent(Init(), [], steps);
    assert [] + steps == steps;
    StateHasEvent(Run(Init(), steps), steps, k, o);
  }

  // ---------------------------------------------------------------- deciding events settle

  /** Request k has got the outcome o and left the map; all other requests and entries are as before. */
  ghost predicate SettledAlone(s: State, t: State, k: nat, o: Outcome)
    requires k < |s.requests|
  {
    && |t.requests| == |s.requests| && t.requests[k].settled == s.requests[k].settled + [o] && t.requests[k].completed
    && (forall j: nat | j < |s.requests| && j != k :: t.requests[j] == s.requests[j])
    && t.pending == s.pending - {IdOf(k)}
  }

  /** What a reply says, read off its fields. */
  predicate Says(r: Reply, o: Outcome) {
    && (r.error.Some? ==> o == CdpError(ErrorText(r.error.value)))
    && (r.error.None? && r.result.Some? ==> o == Value(r.result.value))
    && (r.error.None? && r.result.None? ==> o == InvalidResponse)
  }

  lemma FourSteps(s: State, w: Step, x: Step, y: Step, z: Step, a: State, b: State, c: State)
    requires Enabled(s, w) && a == Apply(s, w) && Enabled(a, x) && b == Apply(a, x)
    requires Enabled(b, y) && c == Apply(b, y) && Enabled(c, z)
    ensures EnabledRun(s, [w, x, y, z]) && Run(s, [w, x, y, z]) == Apply(c, z)
  {
    OneStep(s, w);
    OneStep(a, x);
    RunAppend(s, [w], [x]);
    OneStep(b, y);
    RunAppend(s, [w] + [x], [y]);
    OneStep(c, z);
    RunAppend(s, [w] + [x] + [y], [z]);
    assert [w] + [x] + [y] + [z] == [w, x, y, z];
  }

  /** A reply to a pending request, taken by the worker undisturbed, settles it with what the reply says, and no other. */
  lemma ReplySettles(s: State, r: Reply, k: nat, o: Outcome)
    requires Inv(s) && s.worker.WorkerIdle? && !s.shutdown
    requires k < |s.requests| && InPending(s, k) && r.id == IdOf(k) && Says(r, o)
    ensures EnabledRun(s, [WorkerCheck(r), WorkerLookup, WorkerExchange, WorkerSettle])
    ensures var t := Run(s, [WorkerCheck(r), WorkerLookup, WorkerExchange, WorkerSettle]);
            SettledAlone(s, t, k, o) && s.requests[k].settled == [] && t.worker.WorkerIdle?
  {
    assert RequestInv(s, k);
    var a := Apply(s, WorkerCheck(r));
    var b := Apply(a, WorkerLookup);
    var c := Apply(b, WorkerExchange);
    FourSteps(s, WorkerCheck(r), WorkerLookup, WorkerExchange, WorkerSettle, a, b, c);
  }

  /** A reply whose id is not in the map touches no request and no entry. */
  lemma StrayReplyIsDropped(s: State, r: Reply)
    requires Inv(s) && s.worker.WorkerIdle? && !s.shutdown && r.id !in s.pending
    ensures Enabled(s, WorkerCheck(r)) && Enabled(Apply(s, WorkerCheck(r)), WorkerLookup)
    ensures Apply(Apply(s, WorkerCheck(r)), WorkerLookup) == s.(received := s.received + [r])
  {
  }

  /** A send that failed settles its request, unless another thread has been faster, and takes it out of the map. */
  lemma FailedSendSettles(s: State, k: nat)
    requires Inv(s) && k < |s.requests| && s.requests[k].sender.Registered?
    ensures Enabled(s, Send(k, false)) && Enabled(Apply(s, Send(k, false)), FailSend(k))
    ensures var t := Apply(Apply(s, Send(k, false)), FailSend(k));
            && IdOf(k) !in t.pending && t.requests[k].sender == Returned(Failed)
            && t.requests[k].settled == (if s.requests[k].completed then s.requests[k].settled else [SendFailed])
  {
    assert RequestInv(s, k);
  }

  /** A send that succeeded leaves its request pending. */
  lemma SentStaysPending(s: State, k: nat)
    requires Inv(s) && k < |s.requests| && s.requests[k].sender.Created? && !s.shutdown
    ensures Enabled(s, Register(k)) && Enabled(Apply(s, Register(k)), Send(k, true))
    ensures var t := Apply(Apply(s, Register(k)), Send(k, true));
            InPending(t, k) && t.requests[k].settled == [] && t.requests[k].sender == Returned(Sent)
  {
    assert RequestInv(s, k);
  }

  /** After shutdown began a request is refused: settled at once, and never in the map. */
  lemma RefusedIsSettled(s: State, k: nat)
    requires Inv(s) && k < |s.requests| && s.requests[k].sender.Created? && s.shutdown
    ensures Enabled(s, Register(k))
    ensures var t := Apply(s, Register(k));
            t.requests[k].settled == [ClientShutdown] && t.requests[k].sender == Returned(Refused) && t.pending == s.pending
  {
    assert RequestInv(s, k);
  }

  /** The drain settles exactly the requests in the map. */
  lemma DrainSettles(s: State)
    requires Inv(s) && Enabled(s, Drain)
    ensures var t := Apply(s, Drain);
            && t.pending == map[] && |t.requests| == |s.requests|
            && forall k: nat | k < |s.requests| ::
                 if InPending(s, k) then t.requests[k].settled == [ShutdownDrain] else t.requests[k] == s.requests[k]
  {
    forall k: nat | k < |s.requests|
      ensures if InPending(s, k) then Apply(s, Drain).requests[k].settled == [ShutdownDrain]
              else Apply(s, Drain).requests[k] == s.requests[k]
    {
      assert RequestInv(s, k);
      if InPending(s, k) {
        assert Mapped(s, k);
      } else if Mapped(s, k) {
        MappedIsPending(s, k);
        assert false;
      }
    }
  }

  // ---------------------------------------------------------------- one sweep

  /** The steps by which the sweeper works off a queue of n requests nobody else has completed. */
  function SettleSteps(n: nat): seq<Step> {
    if n == 0 then [SweepExchange] else [SweepExchange, SweepSettle] + SettleSteps(n - 1)
  }

  /** The queue is worked off: its requests are timed out, all others untouched. */
  ghost predicate WorkedOff(s: State, t: State, now: int, queue: seq<nat>) {
    && |t.requests| == |s.requests| && t.sweeper.SweeperIdle? && t.pending == s.pending
    && (forall k: nat | k < |s.requests| ::
          if k in queue then t.requests[k].settled == s.requests[k].settled + [TimedOut(now)]
          else t.requests[k] == s.requests[k])
  }

  ghost predicate Open(s: State, queue: seq<nat>) {
    && (forall i, j | 0 <= i < j < |queue| :: queue[i] != queue[j])
    && (forall i | 0 <= i < |queue| :: queue[i] < |s.requests| && !s.requests[queue[i]].completed)
  }

  lemma SettleOne(s: State, now: int, queue: seq<nat>)
    requires s.sweeper == SweeperHolding(now, queue) && queue != [] && Open(s, queue)
    ensures EnabledRun(s, [SweepExchange, SweepSettle])
    ensures var t := Run(s, [SweepExchange, SweepSettle]);
            && t.sweeper == SweeperHolding(now, queue[1..]) && t.pending == s.pending && Open(t, queue[1..])
            && |t.requests| == |s.requests|
            && t.requests[queue[0]].settled == s.requests[queue[0]].settled + [TimedOut(now)]
            && forall k: nat | k < |s.requests| && k != queue[0] :: t.requests[k] == s.requests[k]
  {
    var a := Apply(s, SweepExchange);
    OneStep(s, SweepExchange);
    OneStep(a, SweepSettle);
    RunAppend(s, [SweepExchange], [SweepSettle]);
    assert [SweepExchange] + [SweepSettle] == [SweepExchange, SweepSettle];
  }

  lemma {:induction false} QueueIsWorkedOff(s: State, now: int, queue: seq<nat>)
    requires s.sweeper == SweeperHolding(now, queue) && Open(s, queue)
    ensures EnabledRun(s, SettleSteps(|queue|)) && WorkedOff(s, Run(s, SettleSteps(|queue|)), now, queue)
    decreases |queue|
  {
    if queue == [] {
      OneStep(s, SweepExchange);
    } else {
      SettleOne(s, now, queue);
      var two := [SweepExchange, SweepSettle];
      var t := Run(s, two);
      QueueIsWorkedOff(t, now, queue[1..]);
      RunAppend(s, two, SettleSteps(|queue| - 1));
      assert queue == [queue[0]] + queue[1..];
    }
  }

  /**
    A sweep at time `now`, undisturbed and in any order, times out exactly the pending requests
    that are overdue, takes them out of the map and leaves all others where they are.
   */
  lemma SweepSettlesOverdue(s: State, now: int, order: seq<nat>)
    requires Inv(s) && s.sweeper.SweeperIdle? && !s.shutdown && IsSweepOrder(s, now, order)
    ensures EnabledRun(s, [SweepCheck(now), SweepRegion(order)] + SettleSteps(|order|))
    ensures var t := Run(s, [SweepCheck(now), SweepRegion(order)] + SettleSteps(|order|));
            && |t.requests| == |s.requests| && t.sweeper.SweeperIdle?
            && forall k: nat | k < |s.requests| :: SweptRight(s, t, now, k)
  {
    var a := Apply(s, SweepCheck(now));
    var b := Apply(a, SweepRegion(order));
    OneStep(s, SweepCheck(now));
    OneStep(a, SweepRegion(order));
    RunAppend(s, [SweepCheck(now)], [SweepRegion(order)]);
    assert [SweepCheck(now)] + [SweepRegion(order)] == [SweepCheck(now), SweepRegion(order)];
    OverdueIsOpen(s, b, now, order);
    QueueIsWorkedOff(b, now, order);
    RunAppend(s, [SweepCheck(now), SweepRegion(order)], SettleSteps(|order|));
    var t := Run(b, SettleSteps(|order|));
    forall k: nat | k < |s.requests| ensures SweptRight(s, t, now, k) {
      OneSwept(s, b, t, now, order, k);
    }
  }

  ghost predicate SweptRight(s: State, t: State, now: int, k: nat)
    requires k < |s.requests| == |t.requests|
  {
    if InPending(s, k) && Overdue(now - s.requests[k].timestamp, s.requests[k].timeout) then
      t.requests[k].settled == [TimedOut(now)] && !InPending(t, k)
    else
      t.requests[k] == s.requests[k] && (InPending(t, k) <==> InPending(s, k))
  }

  lemma OverdueIsOpen(s: State, b: State, now: int, order: seq<nat>)
    requires Inv(s) && IsSweepOrder(s, now, order) && b.requests == s.requests
    ensures Open(b, order)
  {
    forall i | 0 <= i < |order| ensures !s.requests[order[i]].completed {
      MappedIsPending(s, order[i]);
    }
  }

  lemma OneSwept(s: State, b: State, t: State, now: int, order: seq<nat>, k: nat)
    requires Inv(s) && IsSweepOrder(s, now, order) && k < |s.requests|
    requires b.requests == s.requests && b.pending == Fresh(s, now) && WorkedOff(b, t, now, order)
    ensures SweptRight(s, t, now, k)
  {
    ExpiredIffOverdue(s.requests[k], now);
    MappedIsPending(s, k);
    assert RequestInv(s, k);
  }
}
