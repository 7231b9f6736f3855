/**
  Nothing is lost between a plugin and its host (src/engine/child_process.cc and
  src/lua_host/rpc.cc): while the link is up, whoever waits has its request or the answer to it
  on the way.
 */
module PluginTrips {
  import opened Wrappers
  import opened PluginRpc

  predicate Up(s: State) {
    s.child.connected && s.parent.running
  }

  /** A thread of the parent waits for call i and has not been told anything. */
  predicate ParentWaits(p: Parent, i: nat) {
    i < |p.calls| && p.calls[i].phase.Waiting? && p.calls[i].promise.None?
  }

  predicate ChildWaits(c: Child, id: int) {
    CallFrame(id) in c.stack
  }

  ghost predicate HasRequest(q: seq<Msg>, id: int) {
    exists m | m in q :: m.Request? && m.id == id
  }

  ghost predicate HasResponse(q: seq<Msg>, id: int) {
    exists m | m in q :: m.Response? && m.id == id
  }

  ghost predicate HasHandler(stack: seq<Frame>, id: int) {
    exists f | f in stack :: f.HandleFrame? && f.id == id
  }

  /** The parent's request is on the way, being handled, or answered with the answer on the way. */
  ghost predicate DownTrip(s: State, i: int) {
    || HasRequest(s.toChild, i)
    || HasHandler(s.child.stack, i)
    || HasResponse(s.toParent, i)
    || (s.parent.reader.Delivering? && s.parent.reader.id == i)
  }

  /** The child's request is on the way, being handled, or answered with the answer on the way or stashed. */
  ghost predicate UpTrip(s: State, id: int) {
    || HasRequest(s.toParent, id)
    || (s.parent.reader.Handling? && s.parent.reader.id == id)
    || HasResponse(s.toChild, id)
    || id in s.child.stash
  }

  /** Who has not been told anything can still be told. */
  ghost predicate Listed(p: Parent) {
    p.running ==>
      forall i: nat | i < |p.calls| && p.calls[i].promise.None? &&
                      (p.calls[i].phase.Registered? || p.calls[i].phase.Waiting?) ::
        i in p.pending || (p.reader.Delivering? && p.reader.id == i)
  }

  ghost predicate Tracked(s: State) {
    && Listed(s.parent)
    && (Up(s) ==> forall i: nat | ParentWaits(s.parent, i) :: DownTrip(s, i))
    && (Up(s) ==> forall id | ChildWaits(s.child, id) :: UpTrip(s, id))
  }

  /** The parent's answer to a request of the child could not be written. */
  predicate Drops(step: Step) {
    step.ReaderAnswer? && !step.ok
  }

  // ---------------------------------------------------------------- queues

  lemma Appended(q: seq<Msg>, m: Msg, id: int)
    ensures HasRequest(q, id) || (m.Request? && m.id == id) <==> HasRequest(q + [m], id)
    ensures HasResponse(q, id) || (m.Response? && m.id == id) <==> HasResponse(q + [m], id)
  {
    assert forall x :: x in q + [m] <==> x in q || x == m;
  }

  lemma Taken(q: seq<Msg>, id: int)
    requires q != []
    ensures HasRequest(q, id) ==> HasRequest(q[1..], id) || (q[0].Request? && q[0].id == id)
    ensures HasResponse(q, id) ==> HasResponse(q[1..], id) || (q[0].Response? && q[0].id == id)
  {
    assert q == [q[0]] + q[1..];
  }

  lemma Stacked(stack: seq<Frame>, f: Frame, id: int)
    ensures HasHandler(stack, id) || (f.HandleFrame? && f.id == id) <==> HasHandler(stack + [f], id)
  {
    assert forall x :: x in stack + [f] <==> x in stack || x == f;
  }

  lemma Unstacked(stack: seq<Frame>, id: int)
    requires stack != []
    ensures var f := stack[|stack| - 1];
            HasHandler(stack, id) ==> HasHandler(stack[..|stack| - 1], id) || (f.HandleFrame? && f.id == id)
  {
    assert stack == stack[..|stack| - 1] + [stack[|stack| - 1]];
  }

  // ---------------------------------------------------------------- every step

  lemma StepKeepsListed(s: State, step: Step)
    requires Listed(s.parent) && Enabled(s, step)
    ensures Listed(Apply(s, step).parent)
  {
  }

  lemma CallerKeepsTrips(s: State, step: Step, i: nat, id: int)
    requires Tracked(s) && Enabled(s, step) && ByCaller(step) && Up(s)
    ensures ParentWaits(Apply(s, step).parent, i) ==> DownTrip(Apply(s, step), i)
    ensures ChildWaits(s.child, id) ==> UpTrip(Apply(s, step), id)
  {
    assert ParentWaits(Apply(s, step).parent, i) ==> ParentWaits(s.parent, i) || (step.ParentSend? && step.i == i);
    if step.ParentSend? && step.ok {
      var m := Request(step.i, s.parent.calls[step.i].body);
      Appended(s.toChild, m, i);
      Appended(s.toChild, m, id);
    } else if step.ParentNotify? {
      Appended(s.toChild, Notify(step.note), i);
      Appended(s.toChild, Notify(step.note), id);
    }
  }

  lemma ReaderReadKeepsTrips(s: State, i: nat, id: int)
    requires Tracked(s) && Enabled(s, ReaderRead) && Up(s)
    ensures ParentWaits(Apply(s, ReaderRead).parent, i) ==> DownTrip(Apply(s, ReaderRead), i)
    ensures ChildWaits(s.child, id) ==> UpTrip(Apply(s, ReaderRead), id)
  {
    assert ParentWaits(Apply(s, ReaderRead).parent, i) ==> ParentWaits(s.parent, i);
    Taken(s.toParent, i);
    Taken(s.toParent, id);
  }

  lemma ReaderKeepsTrips(s: State, step: Step, i: nat, id: int)
    requires Tracked(s) && Enabled(s, step) && ByReader(step) && !step.ReaderDie? && !Drops(step) && Up(s)
    ensures ParentWaits(Apply(s, step).parent, i) ==> DownTrip(Apply(s, step), i)
    ensures ChildWaits(s.child, id) ==> UpTrip(Apply(s, step), id)
  {
    assert ParentWaits(Apply(s, step).parent, i) ==> ParentWaits(s.parent, i);
    if step.ReaderRead? {
      ReaderReadKeepsTrips(s, i, id);
    } else if step.ReaderAnswer? {
      var m := Response(s.parent.reader.id, step.reply);
      Appended(s.toChild, m, i);
      Appended(s.toChild, m, id);
    }
  }

  /** A frame below the innermost call waits for another answer. */
  lemma OuterFrame(c: Child, id: int)
    requires InCall(c) && DistinctCalls(c.stack) && CallFrame(id) in c.stack[..|c.stack| - 1]
    ensures CallFrame(id) in c.stack && id != c.stack[|c.stack| - 1].id
  {
    var k :| 0 <= k < |c.stack| - 1 && c.stack[k] == CallFrame(id);
  }

  lemma ChildReadKeepsTrips(s: State, i: nat, id: int)
    requires Tracked(s) && Inv(s) && Enabled(s, ChildRead) && Up(s)
    ensures ParentWaits(s.parent, i) ==> DownTrip(Apply(s, ChildRead), i)
    ensures ChildWaits(Apply(s, ChildRead).child, id) ==> UpTrip(Apply(s, ChildRead), id)
  {
    var c, m := s.child, s.toChild[0];
    Taken(s.toChild, i);
    Taken(s.toChild, id);
    if m.Request? {
      Stacked(c.stack, HandleFrame(m.id, m.body), i);
    } else if m.Notify? {
      Stacked(c.stack, DispatchFrame(m.note), i);
    } else if InCall(c) {
      Unstacked(c.stack, i);
      if CallFrame(id) in c.stack[..|c.stack| - 1] {
        OuterFrame(c, id);
      }
    }
    assert ChildWaits(Apply(s, ChildRead).child, id) ==> ChildWaits(c, id);
  }

  lemma ChildStepKeepsDown(s: State, step: Step, i: nat)
    requires Tracked(s) && Enabled(s, step) && !ByCaller(step) && !ByReader(step) && !step.ChildRead?
    requires Up(s) && Up(Apply(s, step))
    ensures ParentWaits(s.parent, i) ==> DownTrip(Apply(s, step), i)
  {
    var c := s.child;
    match step
    case ChildTakeStash => Unstacked(c.stack, i);
    case ChildCall(body, ok) =>
      Stacked(c.stack, CallFrame(c.nextId), i);
      Appended(s.toParent, Request(c.nextId, body), i);
    case ChildAnswer(reply, ok) =>
      Unstacked(c.stack, i);
      Appended(s.toParent, Response(c.stack[|c.stack| - 1].id, reply), i);
    case ChildDispatched => Unstacked(c.stack, i);
    case ChildDrain =>
      if c.batch != [] {
        Stacked(c.stack, DispatchFrame(c.batch[0]), i);
      }
    case ChildNotify(note, ok) => Appended(s.toParent, Notify(note), i);
    case _ =>
  }

  lemma TakeStashKeepsUp(s: State, id: int)
    requires Tracked(s) && FrameInv(s.child) && Enabled(s, ChildTakeStash) && Up(s)
    ensures ChildWaits(Apply(s, ChildTakeStash).child, id) ==> UpTrip(Apply(s, ChildTakeStash), id)
  {
    if CallFrame(id) in s.child.stack[..|s.child.stack| - 1] {
      OuterFrame(s.child, id);
      assert ChildWaits(s.child, id);
    }
  }

  lemma ChildStepKeepsUp(s: State, step: Step, id: int)
    requires Tracked(s) && Inv(s) && Enabled(s, step) && !ByCaller(step) && !ByReader(step) && !step.ChildRead?
    requires Up(s) && Up(Apply(s, step))
    ensures ChildWaits(Apply(s, step).child, id) ==> UpTrip(Apply(s, step), id)
  {
    var c := s.child;
    assert ChildWaits(Apply(s, step).child, id) ==> ChildWaits(c, id) || (step.ChildCall? && id == c.nextId);
    match step
    case ChildCall(body, ok) => Appended(s.toParent, Request(c.nextId, body), id);
    case ChildAnswer(reply, ok) => Appended(s.toParent, Response(c.stack[|c.stack| - 1].id, reply), id);
    case ChildNotify(note, ok) => Appended(s.toParent, Notify(note), id);
    case ChildTakeStash => TakeStashKeepsUp(s, id);
    case _ =>
  }

  lemma ChildKeepsTrips(s: State, step: Step, i: nat, id: int)
    requires Tracked(s) && Inv(s) && Enabled(s, step) && !ByCaller(step) && !ByReader(step)
    requires Up(s) && Up(Apply(s, step))
    ensures ParentWaits(s.parent, i) ==> DownTrip(Apply(s, step), i)
    ensures ChildWaits(Apply(s, step).child, id) ==> UpTrip(Apply(s, step), id)
  {
    if step.ChildRead? {
      ChildReadKeepsTrips(s, i, id);
    } else {
      ChildStepKeepsDown(s, step, i);
      ChildStepKeepsUp(s, step, id);
    }
  }

  lemma StepKeepsTrips(s: State, step: Step, i: nat, id: int)
    requires Tracked(s) && Inv(s) && Enabled(s, step) && !Drops(step) && Up(Apply(s, step))
    ensures ParentWaits(Apply(s, step).parent, i) ==> DownTrip(Apply(s, step), i)
    ensures ChildWaits(Apply(s, step).child, id) ==> UpTrip(Apply(s, step), id)
  {
    LinkNeverReturns(s, step);
    if ByCaller(step) {
      CallerKeepsTrips(s, step, i, id);
    } else if ByReader(step) {
      ReaderKeepsTrips(s, step, i, id);
    } else {
      ChildKeepsTrips(s, step, i, id);
    }
  }

  lemma LinkNeverReturns(s: State, step: Step)
    requires Enabled(s, step) && Up(Apply(s, step))
    ensures Up(s)
  {
  }

  lemma StepKeepsTracked(s: State, step: Step)
    requires Tracked(s) && Inv(s) && Enabled(s, step) && !Drops(step)
    ensures Tracked(Apply(s, step))
  {
    var t := Apply(s, step);
    StepKeepsListed(s, step);
    if Up(t) {
      forall i: nat | ParentWaits(t.parent, i) ensures DownTrip(t, i) {
        StepKeepsTrips(s, step, i, 0);
      }
      forall id | ChildWaits(t.child, id) ensures UpTrip(t, id) {
        StepKeepsTrips(s, step, 0, id);
      }
    }
  }

  // ---------------------------------------------------------------- when the reader dies

  /** Every call that waits when the reader loop dies is told so, and no other call is touched. */
  lemma DeathReleasesAll(s: State, i: nat)
    requires Tracked(s) && PromiseInv(s.parent) && Enabled(s, ReaderDie) && i < |s.parent.calls|
    ensures var p := Apply(s, ReaderDie).parent;
            && |p.calls| == |s.parent.calls| && p.pending == {} && !p.running
            && (ParentWaits(s.parent, i) ==> p.calls[i].promise == Some(Disconnected))
            && (s.parent.calls[i].promise.Some? ==> p.calls[i] == s.parent.calls[i])
  {
  }

  /** An entry of `m_pending` belongs to a call that is still going on. */
  ghost predicate Live(p: Parent) {
    forall i | i in p.pending ::
      0 <= i < |p.calls| && (p.calls[i].phase.Registered? || p.calls[i].phase.Waiting? || p.calls[i].phase.TimingOut?)
  }

  lemma StepKeepsLive(s: State, step: Step)
    requires Live(s.parent) && PromiseInv(s.parent) && Enabled(s, step)
    ensures Live(Apply(s, step).parent)
  {
  }

  /** So none is left behind by a call that has returned or thrown, in any run. */
  lemma {:induction false} RunKeepsLive(s: State, steps: seq<Step>)
    requires Inv(s) && Live(s.parent) && EnabledRun(s, steps)
    ensures Live(Run(s, steps).parent)
    decreases |steps|
  {
    if steps != [] {
      StepKeepsLive(s, steps[0]);
      StepKeepsInv(s, steps[0]);
      RunKeepsLive(Apply(s, steps[0]), steps[1..]);
    }
  }

  // ---------------------------------------------------------------- the one way to lose something

  /** The child waits for an answer that the parent has given and that is nowhere. */
  ghost predicate Lost(s: State, id: int) {
    ChildWaits(s.child, id) && id in s.parent.handled && !UpTrip(s, id)
  }

  /** An answer that could not be written is lost. */
  lemma DroppedIsLost(s: State, step: Step)
    requires Inv(s) && Enabled(s, step) && Drops(step) && s.child.connected
    ensures Lost(Apply(s, step), s.parent.reader.id)
  {
  }

  lemma ParentKeepsLost(s: State, step: Step, id: int)
    requires Inv(s) && Enabled(s, step) && Lost(s, id) && (ByCaller(step) || ByReader(step))
    ensures Lost(Apply(s, step), id)
  {
    match step
    case ParentSend(i, ok) => Appended(s.toChild, Request(i, s.parent.calls[i].body), id);
    case ParentNotify(note, ok) => Appended(s.toChild, Notify(note), id);
    case ReaderAnswer(reply, ok) => Appended(s.toChild, Response(s.parent.reader.id, reply), id);
    case _ =>
  }

  lemma ChildKeepsLost(s: State, step: Step, id: int)
    requires Inv(s) && Enabled(s, step) && Lost(s, id) && !ByCaller(step) && !ByReader(step) && Up(Apply(s, step))
    ensures Lost(Apply(s, step), id)
  {
    var c := s.child;
    match step
    case ChildCall(body, ok) => Appended(s.toParent, Request(c.nextId, body), id);
    case ChildAnswer(reply, ok) => Appended(s.toParent, Response(c.stack[|c.stack| - 1].id, reply), id);
    case ChildNotify(note, ok) => Appended(s.toParent, Notify(note), id);
    case _ =>
  }

  lemma StepKeepsLost(s: State, step: Step, id: int)
    requires Inv(s) && Enabled(s, step) && Lost(s, id) && Up(Apply(s, step))
    ensures Lost(Apply(s, step), id)
  {
    if ByCaller(step) || ByReader(step) {
      ParentKeepsLost(s, step, id);
    } else {
      ChildKeepsLost(s, step, id);
    }
  }

  lemma LostIsNotTracked(s: State, id: int)
    requires Lost(s, id) && Up(s)
    ensures !Tracked(s)
  {
  }

  predicate NoneDropped(steps: seq<Step>) {
    forall i :: 0 <= i < |steps| ==> !Drops(steps[i])
  }

  lemma {:induction false} RunNeverReturns(s: State, steps: seq<Step>)
    requires EnabledRun(s, steps) && Up(Run(s, steps))
    ensures Up(s)
    decreases |steps|
  {
    if steps != [] {
      RunNeverReturns(Apply(s, steps[0]), steps[1..]);
      LinkNeverReturns(s, steps[0]);
    }
  }

  lemma {:induction false} RunKeepsLost(s: State, steps: seq<Step>, id: int)
    requires Inv(s) && EnabledRun(s, steps) && Lost(s, id) && Up(Run(s, steps))
    ensures Lost(Run(s, steps), id)
    decreases |steps|
  {
    if steps != [] {
      var t := Apply(s, steps[0]);
      RunNeverReturns(t, steps[1..]);
      StepKeepsInv(s, steps[0]);
      StepKeepsLost(s, steps[0], id);
      RunKeepsLost(t, steps[1..], id);
    }
  }

  lemma {:induction false} RunTracksIff(s: State, steps: seq<Step>)
    requires Inv(s) && Tracked(s) && EnabledRun(s, steps) && Up(Run(s, steps))
    ensures Tracked(Run(s, steps)) <==> NoneDropped(steps)
    decreases |steps|
  {
    if steps != [] {
      var t, rest := Apply(s, steps[0]), steps[1..];
      StepKeepsInv(s, steps[0]);
      RunNeverReturns(t, rest);
      LinkNeverReturns(s, steps[0]);
      if Drops(steps[0]) {
        DroppedIsLost(s, steps[0]);
        RunKeepsLost(t, rest, s.parent.reader.id);
        LostIsNotTracked(Run(t, rest), s.parent.reader.id);
      } else {
        StepKeepsTracked(s, steps[0]);
        RunTracksIff(t, rest);
        assert NoneDropped(steps) <==> NoneDropped(rest) by {
          assert forall i :: 0 <= i < |rest| ==> rest[i] == steps[i + 1];
        }
      }
    }
  }

  /**
    In any run that ends with the link up, every waiting call of either side has its request or the
    answer to it on the way, exactly when no answer of the parent failed to be written.
   */
  lemma NothingIsLostIff(steps: seq<Step>)
    requires EnabledRun(Init(), steps) && Up(Run(Init(), steps))
    ensures Tracked(Run(Init(), steps)) <==> NoneDropped(steps)
  {
    RunTracksIff(Init(), steps);
  }

  /** So once all is quiet every call of the parent has been answered. */
  lemma QuietIsAnswered(steps: seq<Step>, i: nat)
    requires EnabledRun(Init(), steps) && NoneDropped(steps)
    requires var s := Run(Init(), steps);
             Up(s) && s.toChild == [] && s.toParent == [] && s.child.stack == [] && s.parent.reader.Idle?
    ensures !ParentWaits(Run(Init(), steps).parent, i)
  {
    NothingIsLostIff(steps);
  }
}
