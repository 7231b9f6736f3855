/**
  The 32-bit ids of the plugin RPC: `m_next_id` is an `int` on both sides
  (src/include/millennium/child_process.h, src/lua_host/include/rpc.h), so a side that has
  made 2^32 calls reuses its ids.

  The machine of `PluginRpc` numbers calls without bound.  Here the numbers stay, as names
  for the calls, but everything the two processes compare or use as a key is the number
  modulo 2^32: the entries of `m_pending`, the id a waiting call looks for, and the stash.
 */
module PluginWire {
  import opened Wrappers
  import opened PluginRpc

  /** Call numbers that go over the wire as the same `int`. */
  predicate Same(a: int, b: int) {
    (a - b) % 0x1_0000_0000 == 0
  }

  /** `erase(id)` on a map or a set keyed by the `int`. */
  function Without(ids: set<int>, id: int): set<int> {
    set i | i in ids && !Same(i, id)
  }

  function StashWithout(stash: map<int, Reply>, id: int): map<int, Reply> {
    map i | i in stash && !Same(i, id) :: stash[i]
  }

  /** `find(id)`. */
  ghost predicate Holds(ids: set<int>, id: int) {
    exists i :: i in ids && Same(i, id)
  }

  ghost function Find(ids: set<int>, id: int): (i: int)
    requires Holds(ids, id)
    ensures i in ids && Same(i, id)
  {
    var i :| i in ids && Same(i, id);
    i
  }

  // ---------------------------------------------------------------- steps

  ghost predicate WireEnabled(s: State, step: Step) {
    var c := s.child;
    match step
    case ChildRead =>
      c.connected && s.toChild != [] && (AtPoll(c) || (InCall(c) && !Holds(c.stash.Keys, Top(c).value.id)))
    case ChildTakeStash => c.connected && InCall(c) && Holds(c.stash.Keys, Top(c).value.id)
    case _ => Enabled(s, step)
  }

  ghost function WireReaderRead(s: State): State
    requires s.toParent != []
  {
    var m, t := s.toParent[0], s.(toParent := s.toParent[1..]);
    if !m.Response? then ApplyReaderRead(s)
    else if !Holds(s.parent.pending, m.id) then t
    else
      var i := Find(s.parent.pending, m.id);
      t.(parent := s.parent.(pending := s.parent.pending - {i}, reader := Delivering(i, m.reply)))
  }

  function WireCallTakes(c: Child, m: Msg): Child
    requires InCall(c)
  {
    var id := c.stack[|c.stack| - 1].id;
    if !m.Response? then CallTakes(c, m)
    else if Same(m.id, id) then Pop(c).(returned := c.returned[id := m.reply])
    else c.(stash := StashWithout(c.stash, m.id)[m.id := m.reply])
  }

  ghost function WireTakeStash(c: Child): Child
    requires InCall(c) && Holds(c.stash.Keys, c.stack[|c.stack| - 1].id)
  {
    var id := c.stack[|c.stack| - 1].id;
    var k := Find(c.stash.Keys, id);
    Pop(c).(returned := c.returned[id := c.stash[k]], stash := c.stash - {k})
  }

  function SetPending(s: State, pending: set<int>): State {
    s.(parent := s.parent.(pending := pending))
  }

  ghost function WireApply(s: State, step: Step): State
    requires WireEnabled(s, step)
  {
    var p, c := s.parent, s.child;
    match step
    case ParentBegin(_) => SetPending(Apply(s, step), Without(p.pending, |p.calls|) + {|p.calls|})
    case ParentSend(i, ok) => if ok then Apply(s, step) else SetPending(Apply(s, step), Without(p.pending, i))
    case ParentErase(i) => SetPending(Apply(s, step), Without(p.pending, i))
    case ReaderRead => WireReaderRead(s)
    case ChildRead =>
      if InCall(c) then s.(toChild := s.toChild[1..], child := WireCallTakes(c, s.toChild[0])) else Apply(s, step)
    case ChildTakeStash => s.(child := WireTakeStash(c))
    case _ => Apply(s, step)
  }

  ghost predicate WireEnabledRun(s: State, steps: seq<Step>)
    decreases |steps|
  {
    steps == [] || (WireEnabled(s, steps[0]) && WireEnabledRun(WireApply(s, steps[0]), steps[1..]))
  }

  ghost function WireRun(s: State, steps: seq<Step>): State
    requires WireEnabledRun(s, steps)
    decreases |steps|
  {
    if steps == [] then s else WireRun(WireApply(s, steps[0]), steps[1..])
  }

  // ---------------------------------------------------------------- ids in use

  /** An answer to the parent's call `r` may still arrive. */
  ghost predicate DownDue(s: State, r: int) {
    || (0 <= r < |s.parent.calls| && s.parent.calls[r].phase.Registered?)
    || (exists m :: m in s.toChild && m.Request? && m.id == r)
    || (exists f :: f in s.child.stack && f.HandleFrame? && f.id == r)
    || (exists m :: m in s.toParent && m.Response? && m.id == r)
  }

  /** An answer to the child's request `r` may still be taken. */
  ghost predicate UpDue(s: State, r: int) {
    || (exists m :: m in s.toParent && m.Request? && m.id == r)
    || (s.parent.reader.Handling? && s.parent.reader.id == r)
    || (exists m :: m in s.toChild && m.Response? && m.id == r)
    || r in s.child.stash
  }

  predicate UpWaiting(s: State, c: int) {
    CallFrame(c) in s.child.stack
  }

  /** No answer that is due looks like the answer to another call that waits. */
  ghost predicate NoClash(s: State) {
    && (forall r, j :: DownDue(s, r) && j in s.parent.pending && Same(r, j) ==> r == j)
    && (forall r, c :: UpDue(s, r) && UpWaiting(s, c) && Same(r, c) ==> r == c)
  }

  /** A new call takes an id that no call still waiting or still to be answered goes by. */
  ghost predicate Fresh(s: State, step: Step) {
    && (step.ParentBegin? ==> forall r :: DownDue(s, r) ==> !Same(r, |s.parent.calls|))
    && (step.ChildCall? ==> forall r :: UpDue(s, r) || UpWaiting(s, r) ==> !Same(r, s.child.nextId))
  }

  ghost predicate FreshRun(s: State, steps: seq<Step>)
    requires WireEnabledRun(s, steps)
    decreases |steps|
  {
    steps == [] || (Fresh(s, steps[0]) && FreshRun(WireApply(s, steps[0]), steps[1..]))
  }

  // ---------------------------------------------------------------- without a clash the bits suffice

  /** The same state but for entries of `m_pending` and of the stash that are gone. */
  ghost predicate Thinned(t: State, u: State) {
    && u == t.(parent := t.parent.(pending := u.parent.pending), child := t.child.(stash := u.child.stash))
    && u.parent.pending <= t.parent.pending
    && (forall i | i in u.child.stash :: i in t.child.stash && u.child.stash[i] == t.child.stash[i])
  }

  lemma ThinnedKeepsInv(t: State, u: State)
    requires Inv(t) && Thinned(t, u)
    ensures Inv(u)
  {
  }

  lemma WireEnabledIsEnabled(s: State, step: Step)
    requires NoClash(s) && WireEnabled(s, step)
    ensures Enabled(s, step)
  {
  }

  lemma WireReaderReadIsRead(s: State)
    requires NoClash(s) && WireEnabled(s, ReaderRead)
    ensures WireApply(s, ReaderRead) == Apply(s, ReaderRead)
  {
    var m := s.toParent[0];
    if m.Response? {
      assert m in s.toParent && DownDue(s, m.id);
      if m.id in s.parent.pending {
        assert Same(m.id, m.id) && Holds(s.parent.pending, m.id);
        SameFlips(Find(s.parent.pending, m.id), m.id);
      } else if Holds(s.parent.pending, m.id) {
        SameFlips(Find(s.parent.pending, m.id), m.id);
        assert false;
      }
    }
  }

  lemma SameFlips(a: int, b: int)
    ensures Same(a, b) <==> Same(b, a)
  {
  }

  lemma SameThrough(a: int, b: int, c: int)
    requires Same(a, b) && Same(c, b)
    ensures Same(a, c)
  {
  }

  lemma WireTakeStashIsTake(s: State)
    requires NoClash(s) && WireEnabled(s, ChildTakeStash) && Enabled(s, ChildTakeStash)
    ensures WireApply(s, ChildTakeStash) == Apply(s, ChildTakeStash)
  {
    var id := s.child.stack[|s.child.stack| - 1].id;
    var k := Find(s.child.stash.Keys, id);
    assert UpDue(s, k) && UpWaiting(s, id);
  }

  lemma WireCallReadThins(s: State)
    requires NoClash(s) && WireEnabled(s, ChildRead) && Enabled(s, ChildRead) && InCall(s.child)
    ensures Thinned(Apply(s, ChildRead), WireApply(s, ChildRead))
  {
    var m, id := s.toChild[0], s.child.stack[|s.child.stack| - 1].id;
    assert UpWaiting(s, id);
    if m.Response? {
      assert m in s.toChild && UpDue(s, m.id);
    }
  }

  lemma WireStepThins(s: State, step: Step)
    requires NoClash(s) && WireEnabled(s, step) && Enabled(s, step)
    ensures Thinned(Apply(s, step), WireApply(s, step))
  {
    if step.ReaderRead? {
      WireReaderReadIsRead(s);
    } else if step.ChildTakeStash? {
      WireTakeStashIsTake(s);
    } else if step.ChildRead? && InCall(s.child) {
      WireCallReadThins(s);
    }
  }

  // ---------------------------------------------------------------- no clash arises from fresh ids

  lemma DownDueShrinks(s: State, step: Step, r: int)
    requires Enabled(s, step) && !step.ParentBegin? && DownDue(Apply(s, step), r)
    ensures DownDue(s, r)
  {
    if ByCaller(step) {
      CallerDownDueShrinks(s, step, r);
    } else if ByReader(step) {
    } else {
      ChildDownDueShrinks(s, step, r);
    }
  }

  lemma CallerDownDueShrinks(s: State, step: Step, r: int)
    requires Enabled(s, step) && ByCaller(step) && !step.ParentBegin? && DownDue(Apply(s, step), r)
    ensures DownDue(s, r)
  {
  }

  lemma ReadDownDueShrinks(s: State, r: int)
    requires Enabled(s, ChildRead) && DownDue(Apply(s, ChildRead), r)
    ensures DownDue(s, r)
  {
  }

  lemma ChildDownDueShrinks(s: State, step: Step, r: int)
    requires Enabled(s, step) && !ByCaller(step) && !ByReader(step) && DownDue(Apply(s, step), r)
    ensures DownDue(s, r)
  {
    if step.ChildRead? {
      ReadDownDueShrinks(s, r);
    }
  }

  lemma UpDueShrinks(s: State, step: Step, r: int)
    requires Enabled(s, step) && UpDue(Apply(s, step), r)
    ensures UpDue(s, r) || (step.ChildCall? && r == s.child.nextId)
  {
  }

  lemma UpWaitingShrinks(s: State, step: Step, c: int)
    requires Enabled(s, step) && UpWaiting(Apply(s, step), c)
    ensures UpWaiting(s, c) || (step.ChildCall? && c == s.child.nextId)
  {
    var before, after := s.child.stack, Apply(s, step).child.stack;
    StackStep(s, step);
    if |after| <= |before| {
      assert after == before[..|after|];
    } else {
      assert after == before + [after[|before|]];
    }
  }

  /** A step leaves the stack, pops a frame, or pushes one, a call only when it starts that call. */
  lemma StackStep(s: State, step: Step)
    requires Enabled(s, step)
    ensures var before, after := s.child.stack, Apply(s, step).child.stack;
            || after <= before
            || (|after| == |before| + 1 && before <= after
                && (after[|before|].CallFrame? ==> step.ChildCall? && after[|before|].id == s.child.nextId))
  {
    if step.ChildRead? {
      ReadStackStep(s);
    }
  }

  lemma ReadStackStep(s: State)
    requires Enabled(s, ChildRead)
    ensures var before, after := s.child.stack, Apply(s, ChildRead).child.stack;
            after <= before || (|after| == |before| + 1 && before <= after && !after[|before|].CallFrame?)
  {
  }

  lemma PendingShrinks(s: State, step: Step)
    requires Enabled(s, step) && !step.ParentBegin?
    ensures Apply(s, step).parent.pending <= s.parent.pending
  {
  }

  lemma BeginKeepsNoClash(s: State, step: Step)
    requires NoClash(s) && WireEnabled(s, step) && step.ParentBegin? && Fresh(s, step)
    ensures NoClash(WireApply(s, step))
  {
    var t, n := WireApply(s, step), |s.parent.calls|;
    forall r, j | DownDue(t, r) && j in t.parent.pending && Same(r, j) ensures r == j {
      BeginDownDue(s, step, r);
      SameFlips(r, j);
    }
    forall r, c | UpDue(t, r) && UpWaiting(t, c) && Same(r, c) ensures r == c {
      assert UpDue(s, r) && UpWaiting(s, c);
    }
  }

  lemma BeginDownDue(s: State, step: Step, r: int)
    requires WireEnabled(s, step) && step.ParentBegin? && DownDue(WireApply(s, step), r)
    ensures DownDue(s, r) || r == |s.parent.calls|
  {
  }

  lemma OtherKeepsNoClash(s: State, step: Step)
    requires NoClash(s) && WireEnabled(s, step) && Enabled(s, step) && !step.ParentBegin? && Fresh(s, step)
    requires Thinned(Apply(s, step), WireApply(s, step))
    ensures NoClash(WireApply(s, step))
  {
    var a, t := Apply(s, step), WireApply(s, step);
    PendingShrinks(s, step);
    forall r, j | DownDue(t, r) && j in t.parent.pending && Same(r, j) ensures r == j {
      assert DownDue(a, r);
      DownDueShrinks(s, step, r);
    }
    forall r, c | UpDue(t, r) && UpWaiting(t, c) && Same(r, c) ensures r == c {
      assert UpDue(a, r) && UpWaiting(a, c);
      UpDueShrinks(s, step, r);
      UpWaitingShrinks(s, step, c);
      SameFlips(r, c);
    }
  }

  /** Every step with a fresh id keeps the invariant of the unbounded machine. */
  lemma WireStepKeepsInv(s: State, step: Step)
    requires Inv(s) && NoClash(s) && WireEnabled(s, step) && Fresh(s, step)
    ensures Inv(WireApply(s, step)) && NoClash(WireApply(s, step))
  {
    WireEnabledIsEnabled(s, step);
    StepKeepsInv(s, step);
    WireStepThins(s, step);
    ThinnedKeepsInv(Apply(s, step), WireApply(s, step));
    if step.ParentBegin? {
      BeginKeepsNoClash(s, step);
    } else {
      OtherKeepsNoClash(s, step);
    }
  }

  lemma {:induction false} WireRunKeepsInv(s: State, steps: seq<Step>)
    requires Inv(s) && NoClash(s) && WireEnabledRun(s, steps) && FreshRun(s, steps)
    ensures Inv(WireRun(s, steps)) && NoClash(WireRun(s, steps))
    decreases |steps|
  {
    if steps != [] {
      WireStepKeepsInv(s, steps[0]);
      WireRunKeepsInv(WireApply(s, steps[0]), steps[1..]);
    }
  }

  /** With 32-bit ids each call gets its own reply in every run whose new ids are fresh. */
  lemma WireGetsItsOwnReply(steps: seq<Step>)
    requires WireEnabledRun(Init(), steps) && FreshRun(Init(), steps)
    ensures var s := WireRun(Init(), steps);
            && (forall i, reply | 0 <= i < |s.parent.calls| && s.parent.calls[i].phase == Returned(Replied(reply)) ::
                  i in s.child.handled && s.child.handled[i] == Handled(s.parent.calls[i].body, reply))
            && (forall id | id in s.child.returned ::
                  && id in s.child.bodies && id in s.parent.handled
                  && s.parent.handled[id] == Handled(s.child.bodies[id], s.child.returned[id]))
  {
    WireRunKeepsInv(Init(), steps);
    var s := WireRun(Init(), steps);
    forall i, reply | 0 <= i < |s.parent.calls| && s.parent.calls[i].phase == Returned(Replied(reply))
      ensures i in s.child.handled && s.child.handled[i] == Handled(s.parent.calls[i].body, reply)
    {
      RepliedIsHandled(s, i, reply);
    }
    forall id | id in s.child.returned
      ensures id in s.child.bodies && id in s.parent.handled
      ensures s.parent.handled[id] == Handled(s.child.bodies[id], s.child.returned[id])
    {
      ReturnedIsHandled(s, id);
    }
  }

  // ---------------------------------------------------------------- how long ids stay fresh

  function Begins(steps: seq<Step>): nat {
    if steps == [] then 0 else (if steps[0].ParentBegin? then 1 else 0) + Begins(steps[1..])
  }

  function Asks(steps: seq<Step>): nat {
    if steps == [] then 0 else (if steps[0].ChildCall? then 1 else 0) + Asks(steps[1..])
  }

  lemma CountStep(s: State, step: Step)
    requires Enabled(s, step)
    ensures |Apply(s, step).parent.calls| == |s.parent.calls| + if step.ParentBegin? then 1 else 0
    ensures Apply(s, step).child.nextId == s.child.nextId + if step.ChildCall? then 1 else 0
  {
    if ByCaller(step) || ByReader(step) {
      assert Apply(s, step).child == s.child;
    } else {
      assert Apply(s, step).parent == s.parent;
    }
  }

  lemma DownDueInRange(s: State, r: int)
    requires Inv(s) && DownDue(s, r)
    ensures 0 <= r < |s.parent.calls|
  {
    if exists m :: m in s.toParent && m.Response? && m.id == r {
      var m :| m in s.toParent && m.Response? && m.id == r;
      assert Answered(s.child.handled, m.id, m.reply);
    }
  }

  lemma UpDueInRange(s: State, r: int)
    requires Inv(s) && (UpDue(s, r) || UpWaiting(s, r))
    ensures 1 <= r < s.child.nextId
  {
    UpDueIsIssued(s, r);
  }

  lemma UpDueIsIssued(s: State, r: int)
    requires Inv(s) && (UpDue(s, r) || UpWaiting(s, r))
    ensures r in s.child.bodies
  {
    if r in s.child.stash {
      assert Answered(s.parent.handled, r, s.child.stash[r]);
    } else if exists m :: m in s.toChild && m.Response? && m.id == r {
      var m :| m in s.toChild && m.Response? && m.id == r;
      assert Answered(s.parent.handled, m.id, m.reply);
    }
  }

  lemma EarlyStepIsFresh(s: State, step: Step)
    requires Inv(s) && WireEnabled(s, step)
    requires step.ParentBegin? ==> |s.parent.calls| < 0x1_0000_0000
    requires step.ChildCall? ==> s.child.nextId <= 0x1_0000_0000
    ensures Fresh(s, step)
  {
    if step.ParentBegin? {
      forall r | DownDue(s, r) ensures !Same(r, |s.parent.calls|) {
        DownDueInRange(s, r);
      }
    }
    if step.ChildCall? {
      forall r | UpDue(s, r) || UpWaiting(s, r) ensures !Same(r, s.child.nextId) {
        UpDueInRange(s, r);
      }
    }
  }

  /** The first 2^32 calls of either side have fresh ids, whatever happens in between. */
  lemma {:induction false} EarlyRunIsFresh(s: State, steps: seq<Step>)
    requires Inv(s) && NoClash(s) && WireEnabledRun(s, steps)
    requires |s.parent.calls| + Begins(steps) <= 0x1_0000_0000
    requires s.child.nextId + Asks(steps) <= 0x1_0000_0001
    ensures FreshRun(s, steps)
    decreases |steps|
  {
    if steps != [] {
      EarlyStepIsFresh(s, steps[0]);
      WireStepKeepsInv(s, steps[0]);
      WireEnabledIsEnabled(s, steps[0]);
      WireStepThins(s, steps[0]);
      CountStep(s, steps[0]);
      EarlyRunIsFresh(WireApply(s, steps[0]), steps[1..]);
    }
  }

  // ---------------------------------------------------------------- a clash hands a reply to another call

  ghost predicate Reaches(s: State, steps: seq<Step>, t: State) {
    WireEnabledRun(s, steps) && WireRun(s, steps) == t
  }

  lemma ReachStep(s: State, step: Step)
    requires WireEnabled(s, step)
    ensures Reaches(s, [step], WireApply(s, step))
  {
    var t := WireApply(s, step);
    assert [step][1..] == [];
    assert WireEnabledRun(t, []) && WireRun(t, []) == t;
  }

  lemma {:induction false} ReachJoin(s: State, a: seq<Step>, t: State, b: seq<Step>, u: State)
    requires Reaches(s, a, t) && Reaches(t, b, u)
    ensures Reaches(s, a + b, u)
    decreases |a|
  {
    if a == [] {
      assert a + b == b;
    } else {
      ReachJoin(WireApply(s, a[0]), a[1..], t, b, u);
      assert (a + b)[0] == a[0] && (a + b)[1..] == a[1..] + b;
    }
  }

  /** One step after a run. */
  lemma ReachNext(s: State, steps: seq<Step>, t: State, step: Step, u: State)
    requires Reaches(s, steps, t) && WireEnabled(t, step) && WireApply(t, step) == u
    ensures Reaches(s, steps + [step], u)
  {
    ReachStep(t, step);
    ReachJoin(s, steps, t, [step], u);
  }

  /** `m_pending` holds one entry for an `int`. */
  ghost predicate OneEntryPerId(pending: set<int>) {
    forall i, j | i in pending && j in pending && Same(i, j) :: i == j
  }

  lemma StepKeepsOneEntry(s: State, step: Step)
    requires OneEntryPerId(s.parent.pending) && WireEnabled(s, step)
    ensures OneEntryPerId(WireApply(s, step).parent.pending)
  {
    var pending := WireApply(s, step).parent.pending;
    if step.ParentBegin? {
      forall i, j | i in pending && j in pending && Same(i, j) ensures i == j {
        SameFlips(i, j);
      }
    } else {
      assert pending <= s.parent.pending;
    }
  }

  lemma {:induction false} RunKeepsOneEntry(s: State, steps: seq<Step>)
    requires OneEntryPerId(s.parent.pending) && WireEnabledRun(s, steps)
    ensures OneEntryPerId(WireRun(s, steps).parent.pending)
    decreases |steps|
  {
    if steps != [] {
      StepKeepsOneEntry(s, steps[0]);
      RunKeepsOneEntry(WireApply(s, steps[0]), steps[1..]);
    }
  }

  /** Reading an answer settles no call but the one it answers, exactly when no other pending call goes by its id. */
  lemma ReadIsOwnIff(s: State)
    requires OneEntryPerId(s.parent.pending) && WireEnabled(s, ReaderRead) && s.toParent[0].Response?
    ensures var r, reader := s.toParent[0].id, WireApply(s, ReaderRead).parent.reader;
            (reader.Delivering? ==> reader.id == r) <==> forall j | j in s.parent.pending && Same(j, r) :: j == r
  {
    var r, pending := s.toParent[0].id, s.parent.pending;
    if Holds(pending, r) {
      var i := Find(pending, r);
      forall j | j in pending && Same(j, r) ensures j == i {
        SameThrough(j, r, i);
      }
    }
  }

  /** The call that holds a reused id is handed the answer to the earlier one. */
  lemma ClashMisdelivers(s: State, r: int, reply: Reply, j: nat)
    requires s.parent.running && s.parent.reader.Idle?
    requires s.toParent != [] && s.toParent[0] == Response(r, reply)
    requires OneEntryPerId(s.parent.pending) && j in s.parent.pending && Same(j, r)
    requires j < |s.parent.calls| && s.parent.calls[j].phase.Waiting?
    ensures WireEnabledRun(s, [ReaderRead, ReaderDeliver, ParentReturn(j)])
    ensures var t := WireRun(s, [ReaderRead, ReaderDeliver, ParentReturn(j)]);
            && |t.parent.calls| == |s.parent.calls| && t.parent.calls[j].phase == Returned(Replied(reply))
            && t.child == s.child
  {
    var a := WireApply(s, ReaderRead);
    assert Find(s.parent.pending, r) == j by {
      SameThrough(Find(s.parent.pending, r), r, j);
    }
    var b := WireApply(a, ReaderDeliver);
    ReachStep(s, ReaderRead);
    ReachNext(s, [ReaderRead], a, ReaderDeliver, b);
    assert [ReaderRead] + [ReaderDeliver] == [ReaderRead, ReaderDeliver];
    ReachNext(s, [ReaderRead, ReaderDeliver], b, ParentReturn(j), WireApply(b, ParentReturn(j)));
    assert [ReaderRead, ReaderDeliver] + [ParentReturn(j)] == [ReaderRead, ReaderDeliver, ParentReturn(j)];
  }

  // ---------------------------------------------------------------- a run that gets there

  /** States in which the child is at its poll and has made no call. */
  function Resting(calls: seq<Call>, pending: set<int>, handled: map<int, Handled>,
                   toChild: seq<Msg>, toParent: seq<Msg>): State
  {
    State(Parent(calls, pending, true, Idle, map[]),
          Child(map[], 1, [], map[], [], [], true, map[], handled, []),
          toChild, toParent, [])
  }

  lemma SetsEqual(a: set<int>, b: set<int>)
    ensures (forall i :: i in a <==> i in b) ==> a == b
  {
    if forall i :: i in a <==> i in b {
    }
  }

  lemma BeginOne(calls: seq<Call>, handled: map<int, Handled>, toChild: seq<Msg>, toParent: seq<Msg>, body: Payload)
    ensures var s := Resting(calls, {}, handled, toChild, toParent);
            WireApply(s, ParentBegin(body))
            == Resting(calls + [Call(body, Registered, None)], {|calls|}, handled, toChild, toParent)
  {
    SetsEqual(Without({}, |calls|) + {|calls|}, {|calls|});
  }

  /** A call whose request cannot be written. */
  lemma FailOne(calls: seq<Call>, handled: map<int, Handled>, toParent: seq<Msg>, body: Payload)
    ensures Reaches(Resting(calls, {}, handled, [], toParent), [ParentBegin(body), ParentSend(|calls|, false)],
                    Resting(calls + [Call(body, Thrown, None)], {}, handled, [], toParent))
  {
    var s := Resting(calls, {}, handled, [], toParent);
    var t := Resting(calls + [Call(body, Registered, None)], {|calls|}, handled, [], toParent);
    var u := Resting(calls + [Call(body, Thrown, None)], {}, handled, [], toParent);
    BeginOne(calls, handled, [], toParent, body);
    ReachStep(s, ParentBegin(body));
    SetsEqual(Without({|calls|}, |calls|), {});
    assert (calls + [Call(body, Registered, None)])[|calls| := Call(body, Thrown, None)]
           == calls + [Call(body, Thrown, None)];
    assert WireApply(t, ParentSend(|calls|, false)) == u;
    ReachNext(s, [ParentBegin(body)], t, ParentSend(|calls|, false), u);
    assert [ParentBegin(body)] + [ParentSend(|calls|, false)] == [ParentBegin(body), ParentSend(|calls|, false)];
  }

  function Failed(n: nat): seq<Call> {
    if n == 0 then [] else Failed(n - 1) + [Call("", Thrown, None)]
  }

  lemma {:induction false} FailMany(calls: seq<Call>, handled: map<int, Handled>, toParent: seq<Msg>, n: nat)
    returns (steps: seq<Step>)
    ensures |Failed(n)| == n
    ensures Reaches(Resting(calls, {}, handled, [], toParent), steps, Resting(calls + Failed(n), {}, handled, [], toParent))
    decreases n
  {
    var s := Resting(calls, {}, handled, [], toParent);
    if n == 0 {
      steps := [];
      assert calls + Failed(0) == calls;
    } else {
      var before := FailMany(calls, handled, toParent, n - 1);
      var mid := calls + Failed(n - 1);
      FailOne(mid, handled, toParent, "");
      assert mid + [Call("", Thrown, None)] == calls + Failed(n);
      steps := before + [ParentBegin(""), ParentSend(|mid|, false)];
      ReachJoin(s, before, Resting(mid, {}, handled, [], toParent), [ParentBegin(""), ParentSend(|mid|, false)],
                Resting(calls + Failed(n), {}, handled, [], toParent));
    }
  }

  /** A call whose request is written. */
  lemma BeginAndSend(calls: seq<Call>, handled: map<int, Handled>, toParent: seq<Msg>)
    ensures Reaches(Resting(calls, {}, handled, [], toParent), [ParentBegin(""), ParentSend(|calls|, true)],
                    Resting(calls + [Call("", Waiting, None)], {|calls|}, handled, [Request(|calls|, "")], toParent))
  {
    var n := |calls|;
    var s := Resting(calls, {}, handled, [], toParent);
    var t := Resting(calls + [Call("", Registered, None)], {n}, handled, [], toParent);
    var u := Resting(calls + [Call("", Waiting, None)], {n}, handled, [Request(n, "")], toParent);
    BeginOne(calls, handled, [], toParent, "");
    ReachStep(s, ParentBegin(""));
    assert t.parent.calls[n := Call("", Waiting, None)] == u.parent.calls;
    assert t.toChild + [Request(n, "")] == u.toChild;
    assert WireApply(t, ParentSend(n, true)) == u;
    ReachNext(s, [ParentBegin("")], t, ParentSend(n, true), u);
    assert [ParentBegin("")] + [ParentSend(n, true)] == [ParentBegin(""), ParentSend(n, true)];
  }

  /** The same, while the child handles request `n`. */
  function Serving(calls: seq<Call>, pending: set<int>, handled: map<int, Handled>, n: int): State {
    State(Parent(calls, pending, true, Idle, map[]),
          Child(map[], 1, [HandleFrame(n, "")], map[], [], [], true, map[], handled, []),
          [], [], [])
  }

  lemma ReadRequest(calls: seq<Call>, pending: set<int>, handled: map<int, Handled>, n: int)
    ensures WireApply(Resting(calls, pending, handled, [Request(n, "")], []), ChildRead)
            == Serving(calls, pending, handled, n)
  {
    assert [Request(n, "")][1..] == [];
    assert [] + [HandleFrame(n, "")] == [HandleFrame(n, "")];
  }

  lemma AnswerRequest(calls: seq<Call>, pending: set<int>, handled: map<int, Handled>, n: int, reply: Reply)
    ensures WireApply(Serving(calls, pending, handled, n), ChildAnswer(reply, true))
            == Resting(calls, pending, handled[n := Handled("", reply)], [], [Response(n, reply)])
  {
    assert [HandleFrame(n, "")][..0] == [];
    assert [] + [Response(n, reply)] == [Response(n, reply)];
  }

  /** The child reads a request and answers it. */
  lemma ReadAndAnswer(calls: seq<Call>, pending: set<int>, handled: map<int, Handled>, n: int, reply: Reply)
    ensures Reaches(Resting(calls, pending, handled, [Request(n, "")], []), [ChildRead, ChildAnswer(reply, true)],
                    Resting(calls, pending, handled[n := Handled("", reply)], [], [Response(n, reply)]))
  {
    var s, t := Resting(calls, pending, handled, [Request(n, "")], []), Serving(calls, pending, handled, n);
    var u := Resting(calls, pending, handled[n := Handled("", reply)], [], [Response(n, reply)]);
    ReadRequest(calls, pending, handled, n);
    AnswerRequest(calls, pending, handled, n, reply);
    ReachStep(s, ChildRead);
    ReachNext(s, [ChildRead], t, ChildAnswer(reply, true), u);
    assert [ChildRead] + [ChildAnswer(reply, true)] == [ChildRead, ChildAnswer(reply, true)];
  }

  /** The waiting call is handed its answer. */
  lemma DeliverAndReturn(calls: seq<Call>, handled: map<int, Handled>, n: nat, reply: Reply)
    requires n < |calls| && calls[n] == Call("", Waiting, None)
    ensures Reaches(Resting(calls, {n}, handled, [], [Response(n, reply)]), [ReaderRead, ReaderDeliver, ParentReturn(n)],
                    Resting(calls[n := Call("", Returned(Replied(reply)), Some(Replied(reply)))], {}, handled, [], []))
  {
    var s := Resting(calls, {n}, handled, [], [Response(n, reply)]);
    assert Same(n, n) && Holds({n}, n);
    var i := Find({n}, n);
    var a, b := WireApply(s, ReaderRead), WireApply(WireApply(s, ReaderRead), ReaderDeliver);
    var c := WireApply(b, ParentReturn(n));
    SetsEqual({n} - {i}, {});
    assert c.parent.calls == calls[n := Call("", Returned(Replied(reply)), Some(Replied(reply)))];
    ReachStep(s, ReaderRead);
    ReachNext(s, [ReaderRead], a, ReaderDeliver, b);
    assert [ReaderRead] + [ReaderDeliver] == [ReaderRead, ReaderDeliver];
    ReachNext(s, [ReaderRead, ReaderDeliver], b, ParentReturn(n), c);
    assert [ReaderRead, ReaderDeliver] + [ParentReturn(n)] == [ReaderRead, ReaderDeliver, ParentReturn(n)];
  }

  /** The waiting call gives up although its answer is on the way. */
  lemma GiveUpAndErase(calls: seq<Call>, handled: map<int, Handled>, n: nat, toParent: seq<Msg>)
    requires n < |calls| && calls[n] == Call("", Waiting, None)
    ensures Reaches(Resting(calls, {n}, handled, [], toParent), [ParentGiveUp(n), ParentErase(n)],
                    Resting(calls[n := Call("", Thrown, None)], {}, handled, [], toParent))
  {
    var s := Resting(calls, {n}, handled, [], toParent);
    var t := WireApply(s, ParentGiveUp(n));
    var u := WireApply(t, ParentErase(n));
    SetsEqual(Without({n}, n), {});
    assert u.parent.calls == calls[n := Call("", Thrown, None)];
    ReachStep(s, ParentGiveUp(n));
    ReachNext(s, [ParentGiveUp(n)], t, ParentErase(n), u);
    assert [ParentGiveUp(n)] + [ParentErase(n)] == [ParentGiveUp(n), ParentErase(n)];
  }

  const DONE := Call("", Returned(Replied(Result(""))), Some(Replied(Result(""))))

  /** INIT is answered; call 1 times out before its answer is read. */
  lemma LateAnswer() returns (steps: seq<Step>)
    ensures Reaches(Init(), steps,
                    Resting([DONE, Call("", Thrown, None)], {},
                            map[0 := Handled("", Result("")), 1 := Handled("", Result("late"))],
                            [], [Response(1, Result("late"))]))
  {
    var waiting := Call("", Waiting, None);
    var h0 := map[0 := Handled("", Result(""))];
    var h1 := map[0 := Handled("", Result("")), 1 := Handled("", Result("late"))];
    assert Init() == Resting([], {}, map[], [], []);
    BeginAndSend([], map[], []);
    assert [] + [waiting] == [waiting];
    assert map[][0 := Handled("", Result(""))] == h0 && h0[1 := Handled("", Result("late"))] == h1;
    ReadAndAnswer([waiting], {0}, map[], 0, Result(""));
    DeliverAndReturn([waiting], h0, 0, Result(""));
    assert [waiting][0 := DONE] == [DONE] && [DONE] + [waiting] == [DONE, waiting];
    BeginAndSend([DONE], h0, []);
    ReadAndAnswer([DONE, waiting], {1}, h0, 1, Result("late"));
    GiveUpAndErase([DONE, waiting], h1, 1, [Response(1, Result("late"))]);
    assert [DONE, waiting][1 := Call("", Thrown, None)] == [DONE, Call("", Thrown, None)];
    steps := [ParentBegin(""), ParentSend(0, true)] + [ChildRead, ChildAnswer(Result(""), true)];
    var s2 := Resting([waiting], {0}, map[], [Request(0, "")], []);
    var s4 := Resting([waiting], {0}, h0, [], [Response(0, Result(""))]);
    var s7 := Resting([DONE], {}, h0, [], []);
    var s9 := Resting([DONE, waiting], {1}, h0, [Request(1, "")], []);
    var s11 := Resting([DONE, waiting], {1}, h1, [], [Response(1, Result("late"))]);
    ReachJoin(Init(), [ParentBegin(""), ParentSend(0, true)], s2, [ChildRead, ChildAnswer(Result(""), true)], s4);
    ReachJoin(Init(), steps, s4, [ReaderRead, ReaderDeliver, ParentReturn(0)], s7);
    steps := steps + [ReaderRead, ReaderDeliver, ParentReturn(0)];
    ReachJoin(Init(), steps, s7, [ParentBegin(""), ParentSend(1, true)], s9);
    steps := steps + [ParentBegin(""), ParentSend(1, true)];
    ReachJoin(Init(), steps, s9, [ChildRead, ChildAnswer(Result("late"), true)], s11);
    steps := steps + [ChildRead, ChildAnswer(Result("late"), true)];
    ReachJoin(Init(), steps, s11, [ParentGiveUp(1), ParentErase(1)],
              Resting([DONE, Call("", Thrown, None)], {}, h1, [], [Response(1, Result("late"))]));
    steps := steps + [ParentGiveUp(1), ParentErase(1)];
  }

  /**
    A run in which it goes wrong: call 1 times out with its answer on the way, 2^32 - 1 calls fail
    to write, and the next one, which goes by the id of call 1, is handed that answer although its
    own request has not been handled at all.
   */
  lemma ReusedIdGetsLateAnswer() returns (steps: seq<Step>)
    ensures WireEnabledRun(Init(), steps)
    ensures var s, n := WireRun(Init(), steps), 0x1_0000_0001;
            && |s.parent.calls| == n + 1 && s.parent.calls[n].phase == Returned(Replied(Result("late")))
            && n !in s.child.handled && 1 in s.child.handled && s.child.handled[1].reply == Result("late")
  {
    var h := map[0 := Handled("", Result("")), 1 := Handled("", Result("late"))];
    var late := [Response(1, Result("late"))];
    var calls := [DONE, Call("", Thrown, None)];
    var first := LateAnswer();
    var more := FailMany(calls, h, late, 0xFFFF_FFFF);
    var all := calls + Failed(0xFFFF_FFFF);
    ReachJoin(Init(), first, Resting(calls, {}, h, [], late), more, Resting(all, {}, h, [], late));
    BeginAndSend(all, h, late);
    var n := |all|;
    var t := Resting(all + [Call("", Waiting, None)], {n}, h, [Request(n, "")], late);
    ReachJoin(Init(), first + more, Resting(all, {}, h, [], late), [ParentBegin(""), ParentSend(n, true)], t);
    steps := first + more + [ParentBegin(""), ParentSend(n, true)];
    ClashMisdelivers(t, 1, Result("late"), n);
    var last := [ReaderRead, ReaderDeliver, ParentReturn(n)];
    ReachJoin(Init(), steps, t, last, WireRun(t, last));
    steps := steps + last;
  }
}
