/**
  The parent/child plugin RPC as one system: `PluginProcess` on the parent side
  (src/engine/child_process.cc) and `rpc_client` on the child side
  (src/lua_host/rpc.cc), joined by two FIFO channels.

  The parent is multi-threaded: any number of calls register, send, wait and time out
  while one reader thread takes frames off the socket.  The child has a single thread
  whose calls nest: a call that waits may be handed a request, whose handler may call
  again.  The stack of active frames is explicit, so that every interleaving of parent
  threads with the nested child is a run of the machine.
 */
module PluginRpc {
  import opened Wrappers

  type Payload = string

  /** What a handler produced: a result, or the text of the exception it threw. */
  datatype Reply = Result(value: Payload) | Error(text: string)

  datatype Msg =
    | Request(id: int, body: Payload)
    | Response(id: int, reply: Reply)
    | Notify(note: Payload)

  /** What a handler was given and what it answered. */
  datatype Handled = Handled(body: Payload, reply: Reply)

  // ---------------------------------------------------------------- the parent

  datatype Settled = Replied(reply: Reply) | Disconnected

  /** Where a thread inside `PluginProcess::call` is. */
  datatype Phase = Registered | Waiting | TimingOut | Returned(settled: Settled) | Thrown

  datatype Call = Call(body: Payload, phase: Phase, promise: Option<Settled>)

  datatype Reader = Idle | Delivering(id: int, reply: Reply) | Handling(id: int, body: Payload)

  /** `calls[0]` is the INIT exchange of `spawn_plugin_process`; `m_next_id` then runs from 1. */
  datatype Parent = Parent(
    calls: seq<Call>,
    pending: set<int>,
    running: bool,
    reader: Reader,
    handled: map<int, Handled>)

  // ---------------------------------------------------------------- the child

  datatype Frame = CallFrame(id: int) | HandleFrame(id: int, body: Payload) | DispatchFrame(note: Payload)

  /** `bodies[c]` is the body of the child's own request `c + 1`; the last frame is the innermost. */
  datatype Child = Child(
    bodies: map<int, Payload>,
    nextId: int,
    stack: seq<Frame>,
    stash: map<int, Reply>,
    deferred: seq<Payload>,
    batch: seq<Payload>,
    connected: bool,
    returned: map<int, Reply>,
    handled: map<int, Handled>,
    dispatched: seq<Payload>)

  datatype State = State(parent: Parent, child: Child, toChild: seq<Msg>, toParent: seq<Msg>, notified: seq<Payload>)

  function Init(): State {
    State(Parent([], {}, true, Idle, map[]),
          Child(map[], 1, [], map[], [], [], true, map[], map[], []),
          [], [], [])
  }

  function Top(c: Child): Option<Frame> {
    if c.stack == [] then None else Some(c.stack[|c.stack| - 1])
  }

  function Pop(c: Child): Child
    requires c.stack != []
  {
    c.(stack := c.stack[..|c.stack| - 1])
  }

  function Push(c: Child, f: Frame): Child {
    c.(stack := c.stack + [f])
  }

  predicate InCall(c: Child) {
    c.stack != [] && c.stack[|c.stack| - 1].CallFrame?
  }

  /** The frame whose code runs plugin handlers: it may start calls and it finishes on its own. */
  predicate InHandler(c: Child) {
    c.stack != [] && !c.stack[|c.stack| - 1].CallFrame?
  }

  /** `run` is about to poll for the next message. */
  predicate AtPoll(c: Child) {
    c.stack == [] && c.batch == [] && c.deferred == []
  }

  // ---------------------------------------------------------------- steps

  datatype Step =
    | ParentBegin(body: Payload)
    | ParentSend(i: nat, ok: bool)
    | ParentGiveUp(i: nat)
    | ParentErase(i: nat)
    | ParentReturn(i: nat)
    | ParentNotify(note: Payload, ok: bool)
    | ReaderRead
    | ReaderDeliver
    | ReaderAnswer(reply: Reply, ok: bool)
    | ReaderDie
    | ChildRead
    | ChildTakeStash
    | ChildCall(body: Payload, ok: bool)
    | ChildAnswer(reply: Reply, ok: bool)
    | ChildDispatched
    | ChildDrain
    | ChildNotify(note: Payload, ok: bool)
    | ChildReadFails
    | ChildCallAborts

  /** Steps of the threads that use `PluginProcess`. */
  predicate ByCaller(step: Step) {
    || step.ParentBegin? || step.ParentSend? || step.ParentGiveUp?
    || step.ParentErase? || step.ParentReturn? || step.ParentNotify?
  }

  /** Steps of the parent's reader thread. */
  predicate ByReader(step: Step) {
    step.ReaderRead? || step.ReaderDeliver? || step.ReaderAnswer? || step.ReaderDie?
  }

  predicate Enabled(s: State, step: Step) {
    var p, c := s.parent, s.child;
    match step
    case ParentBegin(_) => true
    case ParentSend(i, _) => i < |p.calls| && p.calls[i].phase.Registered?
    case ParentGiveUp(i) => i < |p.calls| && p.calls[i].phase.Waiting? && p.calls[i].promise.None?
    case ParentErase(i) => i < |p.calls| && p.calls[i].phase.TimingOut?
    case ParentReturn(i) => i < |p.calls| && p.calls[i].phase.Waiting? && p.calls[i].promise.Some?
    case ParentNotify(_, _) => true
    case ReaderRead => p.running && p.reader.Idle? && s.toParent != []
    case ReaderDeliver => p.reader.Delivering?
    case ReaderAnswer(_, _) => p.reader.Handling?
    case ReaderDie => p.running && p.reader.Idle?
    case ChildRead => c.connected && s.toChild != [] && (AtPoll(c) || (InCall(c) && Top(c).value.id !in c.stash))
    case ChildTakeStash => c.connected && InCall(c) && Top(c).value.id in c.stash
    case ChildCall(_, _) => c.connected && InHandler(c)
    case ChildAnswer(_, _) => InHandler(c) && Top(c).value.HandleFrame?
    case ChildDispatched => InHandler(c) && Top(c).value.DispatchFrame?
    case ChildDrain => c.stack == [] && !(c.batch == [] && c.deferred == [])
    case ChildNotify(_, _) => InHandler(c)
    case ChildReadFails => c.connected && (AtPoll(c) || InCall(c))
    case ChildCallAborts => !c.connected && InCall(c)
  }

  function SetCall(p: Parent, i: nat, call: Call): Parent
    requires i < |p.calls|
  {
    p.(calls := p.calls[i := call])
  }

  /** `promise.set_*` on call `i`; an id that was never issued has no promise. */
  function Settle(p: Parent, i: int, o: Settled): Parent {
    if 0 <= i < |p.calls| then SetCall(p, i, p.calls[i].(promise := Some(o))) else p
  }

  /** `reader_thread_fn` on one frame. */
  function ApplyReaderRead(s: State): State
    requires s.toParent != []
  {
    var m, rest := s.toParent[0], s.toParent[1..];
    var t := s.(toParent := rest);
    match m
    case Response(id, reply) =>
      if id in s.parent.pending then
        t.(parent := s.parent.(pending := s.parent.pending - {id}, reader := Delivering(id, reply)))
      else t
    case Request(id, body) => t.(parent := s.parent.(reader := Handling(id, body)))
    case Notify(_) => t
  }

  /** The reader loop has died: fail everything still pending. */
  function ApplyReaderDie(p: Parent): Parent {
    p.(running := false,
       pending := {},
       calls := seq(|p.calls|, i requires 0 <= i < |p.calls| =>
                    if i in p.pending then p.calls[i].(promise := Some(Disconnected)) else p.calls[i]))
  }

  /** One message taken by a waiting `call`. */
  function CallTakes(c: Child, m: Msg): Child
    requires InCall(c)
  {
    var id := c.stack[|c.stack| - 1].id;
    match m
    case Response(rid, reply) =>
      if rid == id then Pop(c).(returned := c.returned[id := reply]) else c.(stash := c.stash[rid := reply])
    case Request(rid, body) => Push(c, HandleFrame(rid, body))
    case Notify(note) => c.(deferred := c.deferred + [note])
  }

  /** One message taken by the loop of `run`. */
  function RunTakes(c: Child, m: Msg): Child {
    match m
    case Response(_, _) => c
    case Request(rid, body) => Push(c, HandleFrame(rid, body))
    case Notify(note) => Push(c, DispatchFrame(note)).(dispatched := c.dispatched + [note])
  }

  /** One turn of `drain_deferred`. */
  function ApplyDrain(c: Child): Child {
    if c.batch != [] then
      Push(c, DispatchFrame(c.batch[0])).(dispatched := c.dispatched + [c.batch[0]], batch := c.batch[1..])
    else
      c.(batch := c.deferred, deferred := [])
  }

  function ApplyParent(s: State, step: Step): State
    requires Enabled(s, step)
    requires ByCaller(step)
  {
    var p := s.parent;
    match step
    case ParentBegin(body) =>
      s.(parent := p.(calls := p.calls + [Call(body, Registered, None)], pending := p.pending + {|p.calls|}))
    case ParentSend(i, ok) =>
      if ok then
        s.(parent := SetCall(p, i, p.calls[i].(phase := Waiting)), toChild := s.toChild + [Request(i, p.calls[i].body)])
      else
        s.(parent := SetCall(p, i, p.calls[i].(phase := Thrown)).(pending := p.pending - {i}))
    case ParentGiveUp(i) => s.(parent := SetCall(p, i, p.calls[i].(phase := TimingOut)))
    case ParentErase(i) => s.(parent := SetCall(p, i, p.calls[i].(phase := Thrown)).(pending := p.pending - {i}))
    case ParentReturn(i) => s.(parent := SetCall(p, i, p.calls[i].(phase := Returned(p.calls[i].promise.value))))
    case ParentNotify(note, ok) =>
      if ok then s.(toChild := s.toChild + [Notify(note)], notified := s.notified + [note]) else s
  }

  function ApplyReader(s: State, step: Step): State
    requires Enabled(s, step)
    requires ByReader(step)
  {
    var p := s.parent;
    match step
    case ReaderRead => ApplyReaderRead(s)
    case ReaderDeliver => s.(parent := Settle(p, p.reader.id, Replied(p.reader.reply)).(reader := Idle))
    case ReaderAnswer(reply, ok) =>
      var t := s.(parent := p.(reader := Idle, handled := p.handled[p.reader.id := Handled(p.reader.body, reply)]));
      if ok then t.(toChild := s.toChild + [Response(p.reader.id, reply)]) else t
    case ReaderDie => s.(parent := ApplyReaderDie(p))
  }

  function ApplyChild(s: State, step: Step): State
    requires Enabled(s, step)
    requires !ByCaller(step) && !ByReader(step)
  {
    var c := s.child;
    match step
    case ChildRead =>
      s.(toChild := s.toChild[1..], child := if InCall(c) then CallTakes(c, s.toChild[0]) else RunTakes(c, s.toChild[0]))
    case ChildTakeStash =>
      var id := c.stack[|c.stack| - 1].id;
      s.(child := Pop(c).(returned := c.returned[id := c.stash[id]], stash := c.stash - {id}))
    case ChildCall(body, ok) =>
      if ok then
        s.(child := Push(c, CallFrame(c.nextId)).(nextId := c.nextId + 1, bodies := c.bodies[c.nextId := body]),
           toParent := s.toParent + [Request(c.nextId, body)])
      else
        s.(child := c.(nextId := c.nextId + 1, connected := false))
    case ChildAnswer(reply, ok) =>
      var f := c.stack[|c.stack| - 1];
      var d := Pop(c).(handled := c.handled[f.id := Handled(f.body, reply)]);
      if ok then s.(child := d, toParent := s.toParent + [Response(f.id, reply)])
      else s.(child := d.(connected := false))
    case ChildDispatched => s.(child := Pop(c))
    case ChildDrain => s.(child := ApplyDrain(c))
    case ChildNotify(note, ok) =>
      if ok then s.(toParent := s.toParent + [Notify(note)]) else s.(child := c.(connected := false))
    case ChildReadFails =>
      s.(child := (if InCall(c) then Pop(c) else c).(connected := false))
    case ChildCallAborts => s.(child := Pop(c))
  }

  function Apply(s: State, step: Step): State
    requires Enabled(s, step)
  {
    if ByCaller(step) then ApplyParent(s, step)
    else if ByReader(step) then ApplyReader(s, step)
    else ApplyChild(s, step)
  }

  predicate EnabledRun(s: State, steps: seq<Step>)
    decreases |steps|
  {
    steps == [] || (Enabled(s, steps[0]) && EnabledRun(Apply(s, steps[0]), steps[1..]))
  }

  function Run(s: State, steps: seq<Step>): State
    requires EnabledRun(s, steps)
    decreases |steps|
  {
    if steps == [] then s else Run(Apply(s, steps[0]), steps[1..])
  }

  // ---------------------------------------------------------------- invariant

  ghost predicate DistinctRequests(q: seq<Msg>) {
    forall i, j | 0 <= i < j < |q| && q[i].Request? && q[j].Request? :: q[i].id != q[j].id
  }

  ghost predicate DistinctResponses(q: seq<Msg>) {
    forall i, j | 0 <= i < j < |q| && q[i].Response? && q[j].Response? :: q[i].id != q[j].id
  }

  ghost predicate DistinctHandlers(stack: seq<Frame>) {
    forall i, j | 0 <= i < j < |stack| && stack[i].HandleFrame? && stack[j].HandleFrame? :: stack[i].id != stack[j].id
  }

  ghost predicate DistinctCalls(stack: seq<Frame>) {
    forall i, j | 0 <= i < j < |stack| && stack[i].CallFrame? && stack[j].CallFrame? :: stack[i].id != stack[j].id
  }

  /** The parent has put a request with this id and this body on the wire. */
  predicate Asked(p: Parent, id: int, body: Payload) {
    0 <= id < |p.calls| && p.calls[id].body == body && !p.calls[id].phase.Registered?
  }

  predicate Answered(handled: map<int, Handled>, id: int, reply: Reply) {
    id in handled && handled[id].reply == reply
  }

  predicate OutcomeOk(c: Child, i: int, o: Settled) {
    o.Replied? ==> Answered(c.handled, i, o.reply)
  }

  /** Requests of the parent: on the wire, being handled, or answered, and never twice. */
  ghost predicate DownInv(s: State) {
    var p, c := s.parent, s.child;
    && DistinctRequests(s.toChild)
    && DistinctHandlers(c.stack)
    && (forall m | m in s.toChild && m.Request? ::
          Asked(p, m.id, m.body) && m.id !in c.handled && forall f | f in c.stack && f.HandleFrame? :: f.id != m.id)
    && (forall f | f in c.stack && f.HandleFrame? :: Asked(p, f.id, f.body) && f.id !in c.handled)
    && (forall i | i in c.handled :: Asked(p, i, c.handled[i].body))
  }

  /** Answers of the child: each one is what its handler produced for that id. */
  ghost predicate DownReplyInv(s: State) {
    var p, c := s.parent, s.child;
    && (forall m | m in s.toParent && m.Response? :: Answered(c.handled, m.id, m.reply))
    && (p.reader.Delivering? ==> Answered(c.handled, p.reader.id, p.reader.reply))
    && (forall i | 0 <= i < |p.calls| && p.calls[i].promise.Some? :: OutcomeOk(c, i, p.calls[i].promise.value))
    && (forall i | 0 <= i < |p.calls| && p.calls[i].phase.Returned? :: OutcomeOk(c, i, p.calls[i].phase.settled))
  }

  predicate Issued(c: Child, id: int, body: Payload) {
    id in c.bodies && c.bodies[id] == body
  }

  /** Requests of the child: on the wire, being handled, or answered, and never twice. */
  ghost predicate UpInv(s: State) {
    var p, c := s.parent, s.child;
    && 1 <= c.nextId
    && (forall i | i in c.bodies :: 1 <= i < c.nextId)
    && DistinctRequests(s.toParent)
    && (forall m | m in s.toParent && m.Request? ::
          Issued(c, m.id, m.body) && m.id !in p.handled && !(p.reader.Handling? && p.reader.id == m.id))
    && (p.reader.Handling? ==> Issued(c, p.reader.id, p.reader.body) && p.reader.id !in p.handled)
    && (forall i | i in p.handled :: Issued(c, i, p.handled[i].body))
  }

  /** Answers of the parent: on the wire, stashed, or returned, and never twice. */
  ghost predicate UpReplyInv(s: State) {
    var p, c := s.parent, s.child;
    && DistinctResponses(s.toChild)
    && (forall m | m in s.toChild && m.Response? ::
          Answered(p.handled, m.id, m.reply) && m.id !in c.stash && m.id !in c.returned)
    && (forall i | i in c.stash :: Answered(p.handled, i, c.stash[i]) && i !in c.returned)
    && (forall i | i in c.returned :: Answered(p.handled, i, c.returned[i]))
  }

  /** Every request the child still waits for has its frame on the stack while the link is up. */
  ghost predicate FrameInv(c: Child) {
    && DistinctCalls(c.stack)
    && (forall f | f in c.stack && f.CallFrame? :: f.id in c.bodies && f.id !in c.returned)
    && (c.connected ==> forall i | i in c.bodies && i !in c.returned :: CallFrame(i) in c.stack)
  }

  function Notes(q: seq<Msg>): seq<Payload> {
    if q == [] then []
    else (if q[0].Notify? then [q[0].note] else []) + Notes(q[1..])
  }

  /** Notifications: dispatched, then being drained, then deferred, then on the wire, in order. */
  predicate NoteInv(s: State) {
    s.child.dispatched + s.child.batch + s.child.deferred + Notes(s.toChild) == s.notified
  }

  /** An entry of `m_pending`, and an entry the reader has just taken out, has an unset promise. */
  ghost predicate PromiseInv(p: Parent) {
    && (forall i | i in p.pending :: 0 <= i < |p.calls| && p.calls[i].promise.None?)
    && (p.reader.Delivering? ==>
          p.reader.id !in p.pending && 0 <= p.reader.id < |p.calls| && p.calls[p.reader.id].promise.None?)
  }

  ghost predicate Inv(s: State) {
    && DownInv(s) && DownReplyInv(s)
    && UpInv(s) && UpReplyInv(s) && FrameInv(s.child)
    && NoteInv(s) && PromiseInv(s.parent)
  }

  // ---------------------------------------------------------------- every step keeps the invariant

  /** `DownInv` rests on what the child holds, on its channel and on what the parent has asked. */
  lemma SameDown(s: State, t: State)
    requires DownInv(s)
    requires t.child == s.child && t.toChild == s.toChild
    requires forall id, body | Asked(s.parent, id, body) :: Asked(t.parent, id, body)
    ensures DownInv(t)
  {
  }

  /** `UpInv` rests on the parent, on its channel and on what the child has issued. */
  lemma SameUp(s: State, t: State)
    requires UpInv(s)
    requires t.parent == s.parent && t.toParent == s.toParent
    requires t.child.nextId == s.child.nextId && t.child.bodies == s.child.bodies
    ensures UpInv(t)
  {
  }

  /** `UpReplyInv` rests on the parent's answers, on the child's channel and on what the child has taken. */
  lemma SameUpReply(s: State, t: State)
    requires UpReplyInv(s)
    requires t.parent.handled == s.parent.handled && t.toChild == s.toChild
    requires t.child.stash == s.child.stash && t.child.returned == s.child.returned
    ensures UpReplyInv(t)
  {
  }

  lemma SendKeepsDown(s: State, i: nat, ok: bool)
    requires DownInv(s)
    requires Enabled(s, ParentSend(i, ok))
    ensures DownInv(Apply(s, ParentSend(i, ok)))
  {
  }

  lemma NotifyKeepsDown(s: State, note: Payload, ok: bool)
    requires DownInv(s)
    ensures DownInv(Apply(s, ParentNotify(note, ok)))
  {
  }

  lemma CallerKeepsDown(s: State, step: Step)
    requires DownInv(s)
    requires Enabled(s, step) && ByCaller(step)
    ensures DownInv(Apply(s, step))
  {
    if step.ParentSend? {
      SendKeepsDown(s, step.i, step.ok);
    } else if step.ParentNotify? {
      NotifyKeepsDown(s, step.note, step.ok);
    } else {
      SameDown(s, Apply(s, step));
    }
  }

  lemma CallerKeepsDownReply(s: State, step: Step)
    requires DownInv(s) && DownReplyInv(s)
    requires Enabled(s, step) && ByCaller(step)
    ensures DownReplyInv(Apply(s, step))
  {
  }

  lemma CallerKeepsUp(s: State, step: Step)
    requires UpInv(s)
    requires Enabled(s, step) && ByCaller(step)
    ensures UpInv(Apply(s, step))
  {
  }

  lemma CallerKeepsUpReply(s: State, step: Step)
    requires UpInv(s) && UpReplyInv(s)
    requires Enabled(s, step) && ByCaller(step)
    ensures UpReplyInv(Apply(s, step))
  {
  }

  lemma CallerKeepsFrames(s: State, step: Step)
    requires UpInv(s) && UpReplyInv(s) && FrameInv(s.child)
    requires Enabled(s, step) && ByCaller(step)
    ensures FrameInv(Apply(s, step).child)
  {
  }

  lemma ReaderAnswerKeepsDown(s: State, reply: Reply, ok: bool)
    requires DownInv(s)
    requires Enabled(s, ReaderAnswer(reply, ok))
    ensures DownInv(Apply(s, ReaderAnswer(reply, ok)))
  {
  }

  lemma ReaderKeepsDown(s: State, step: Step)
    requires DownInv(s)
    requires Enabled(s, step) && ByReader(step)
    ensures DownInv(Apply(s, step))
  {
    if step.ReaderAnswer? {
      ReaderAnswerKeepsDown(s, step.reply, step.ok);
    } else {
      SameDown(s, Apply(s, step));
    }
  }

  lemma ReaderKeepsDownReply(s: State, step: Step)
    requires DownInv(s) && DownReplyInv(s)
    requires Enabled(s, step) && ByReader(step)
    ensures DownReplyInv(Apply(s, step))
  {
  }

  lemma ReaderKeepsUp(s: State, step: Step)
    requires UpInv(s)
    requires Enabled(s, step) && ByReader(step)
    ensures UpInv(Apply(s, step))
  {
  }

  lemma ReaderAnswerKeepsUpReply(s: State, reply: Reply, ok: bool)
    requires UpInv(s) && UpReplyInv(s)
    requires Enabled(s, ReaderAnswer(reply, ok))
    ensures UpReplyInv(Apply(s, ReaderAnswer(reply, ok)))
  {
  }

  lemma ReaderKeepsUpReply(s: State, step: Step)
    requires UpInv(s) && UpReplyInv(s)
    requires Enabled(s, step) && ByReader(step)
    ensures UpReplyInv(Apply(s, step))
  {
    if step.ReaderAnswer? {
      ReaderAnswerKeepsUpReply(s, step.reply, step.ok);
    } else {
      SameUpReply(s, Apply(s, step));
    }
  }

  lemma ReaderKeepsFrames(s: State, step: Step)
    requires UpInv(s) && UpReplyInv(s) && FrameInv(s.child)
    requires Enabled(s, step) && ByReader(step)
    ensures FrameInv(Apply(s, step).child)
  {
  }

  lemma RequestInCallKeepsDown(s: State)
    requires DownInv(s)
    requires Enabled(s, ChildRead) && InCall(s.child) && s.toChild[0].Request?
    ensures DownInv(Apply(s, ChildRead))
  {
  }

  lemma ReadInCallKeepsDown(s: State)
    requires DownInv(s)
    requires Enabled(s, ChildRead) && InCall(s.child)
    ensures DownInv(Apply(s, ChildRead))
  {
    if s.toChild[0].Request? {
      RequestInCallKeepsDown(s);
    }
  }

  lemma ReadInCallKeepsDownReply(s: State)
    requires DownInv(s) && DownReplyInv(s)
    requires Enabled(s, ChildRead) && InCall(s.child)
    ensures DownReplyInv(Apply(s, ChildRead))
  {
  }

  lemma ReadInCallKeepsUp(s: State)
    requires UpInv(s)
    requires Enabled(s, ChildRead) && InCall(s.child)
    ensures UpInv(Apply(s, ChildRead))
  {
  }

  lemma ReadInCallKeepsUpReply(s: State)
    requires UpInv(s) && UpReplyInv(s)
    requires Enabled(s, ChildRead) && InCall(s.child)
    ensures UpReplyInv(Apply(s, ChildRead))
  {
  }

  lemma ReadInCallKeepsFrames(s: State)
    requires UpInv(s) && UpReplyInv(s) && FrameInv(s.child)
    requires Enabled(s, ChildRead) && InCall(s.child)
    ensures FrameInv(Apply(s, ChildRead).child)
  {
  }

  lemma ReadInRunKeepsDown(s: State)
    requires DownInv(s)
    requires Enabled(s, ChildRead) && !InCall(s.child)
    ensures DownInv(Apply(s, ChildRead))
  {
  }

  lemma ReadInRunKeepsDownReply(s: State)
    requires DownInv(s) && DownReplyInv(s)
    requires Enabled(s, ChildRead) && !InCall(s.child)
    ensures DownReplyInv(Apply(s, ChildRead))
  {
  }

  lemma ReadInRunKeepsUp(s: State)
    requires UpInv(s)
    requires Enabled(s, ChildRead) && !InCall(s.child)
    ensures UpInv(Apply(s, ChildRead))
  {
  }

  lemma ReadInRunKeepsUpReply(s: State)
    requires UpInv(s) && UpReplyInv(s)
    requires Enabled(s, ChildRead) && !InCall(s.child)
    ensures UpReplyInv(Apply(s, ChildRead))
  {
  }

  lemma ReadInRunKeepsFrames(s: State)
    requires UpInv(s) && UpReplyInv(s) && FrameInv(s.child)
    requires Enabled(s, ChildRead) && !InCall(s.child)
    ensures FrameInv(Apply(s, ChildRead).child)
  {
  }

  lemma TakeStashKeepsDown(s: State)
    requires DownInv(s)
    requires Enabled(s, ChildTakeStash)
    ensures DownInv(Apply(s, ChildTakeStash))
  {
  }

  lemma TakeStashKeepsDownReply(s: State)
    requires DownInv(s) && DownReplyInv(s)
    requires Enabled(s, ChildTakeStash)
    ensures DownReplyInv(Apply(s, ChildTakeStash))
  {
  }

  lemma TakeStashKeepsUp(s: State)
    requires UpInv(s)
    requires Enabled(s, ChildTakeStash)
    ensures UpInv(Apply(s, ChildTakeStash))
  {
  }

  lemma TakeStashKeepsUpReply(s: State)
    requires UpInv(s) && UpReplyInv(s)
    requires Enabled(s, ChildTakeStash)
    ensures UpReplyInv(Apply(s, ChildTakeStash))
  {
  }

  lemma TakeStashKeepsFrames(s: State)
    requires UpInv(s) && UpReplyInv(s) && FrameInv(s.child)
    requires Enabled(s, ChildTakeStash)
    ensures FrameInv(Apply(s, ChildTakeStash).child)
  {
  }

  lemma StartCallKeepsDown(s: State, body: Payload, ok: bool)
    requires DownInv(s)
    requires Enabled(s, ChildCall(body, ok))
    ensures DownInv(Apply(s, ChildCall(body, ok)))
  {
  }

  lemma StartCallKeepsDownReply(s: State, body: Payload, ok: bool)
    requires DownInv(s) && DownReplyInv(s)
    requires Enabled(s, ChildCall(body, ok))
    ensures DownReplyInv(Apply(s, ChildCall(body, ok)))
  {
  }

  lemma StartCallKeepsUp(s: State, body: Payload, ok: bool)
    requires UpInv(s)
    requires Enabled(s, ChildCall(body, ok))
    ensures UpInv(Apply(s, ChildCall(body, ok)))
  {
  }

  lemma StartCallKeepsUpReply(s: State, body: Payload, ok: bool)
    requires UpInv(s) && UpReplyInv(s)
    requires Enabled(s, ChildCall(body, ok))
    ensures UpReplyInv(Apply(s, ChildCall(body, ok)))
  {
  }

  lemma StartCallKeepsFrames(s: State, body: Payload, ok: bool)
    requires UpInv(s) && UpReplyInv(s) && FrameInv(s.child)
    requires Enabled(s, ChildCall(body, ok))
    ensures FrameInv(Apply(s, ChildCall(body, ok)).child)
  {
  }

  lemma AnswerKeepsDown(s: State, reply: Reply, ok: bool)
    requires DownInv(s)
    requires Enabled(s, ChildAnswer(reply, ok))
    ensures DownInv(Apply(s, ChildAnswer(reply, ok)))
  {
  }

  lemma AnswerKeepsDownReply(s: State, reply: Reply, ok: bool)
    requires DownInv(s) && DownReplyInv(s)
    requires Enabled(s, ChildAnswer(reply, ok))
    ensures DownReplyInv(Apply(s, ChildAnswer(reply, ok)))
  {
  }

  lemma AnswerKeepsUp(s: State, reply: Reply, ok: bool)
    requires UpInv(s)
    requires Enabled(s, ChildAnswer(reply, ok))
    ensures UpInv(Apply(s, ChildAnswer(reply, ok)))
  {
  }

  lemma AnswerKeepsUpReply(s: State, reply: Reply, ok: bool)
    requires UpInv(s) && UpReplyInv(s)
    requires Enabled(s, ChildAnswer(reply, ok))
    ensures UpReplyInv(Apply(s, ChildAnswer(reply, ok)))
  {
  }

  lemma AnswerKeepsFrames(s: State, reply: Reply, ok: bool)
    requires UpInv(s) && UpReplyInv(s) && FrameInv(s.child)
    requires Enabled(s, ChildAnswer(reply, ok))
    ensures FrameInv(Apply(s, ChildAnswer(reply, ok)).child)
  {
  }

  lemma QuietStepKeepsDown(s: State, step: Step)
    requires DownInv(s)
    requires Enabled(s, step)
    requires step.ChildDispatched? || step.ChildDrain? || step.ChildNotify? || step.ChildReadFails? || step.ChildCallAborts?
    ensures DownInv(Apply(s, step))
  {
  }

  lemma QuietStepKeepsDownReply(s: State, step: Step)
    requires DownInv(s) && DownReplyInv(s)
    requires Enabled(s, step)
    requires step.ChildDispatched? || step.ChildDrain? || step.ChildNotify? || step.ChildReadFails? || step.ChildCallAborts?
    ensures DownReplyInv(Apply(s, step))
  {
  }

  lemma QuietStepKeepsUp(s: State, step: Step)
    requires UpInv(s)
    requires Enabled(s, step)
    requires step.ChildDispatched? || step.ChildDrain? || step.ChildNotify? || step.ChildReadFails? || step.ChildCallAborts?
    ensures UpInv(Apply(s, step))
  {
    if !step.ChildNotify? {
      SameUp(s, Apply(s, step));
    }
  }

  lemma QuietStepKeepsUpReply(s: State, step: Step)
    requires UpInv(s) && UpReplyInv(s)
    requires Enabled(s, step)
    requires step.ChildDispatched? || step.ChildDrain? || step.ChildNotify? || step.ChildReadFails? || step.ChildCallAborts?
    ensures UpReplyInv(Apply(s, step))
  {
  }

  lemma QuietStepKeepsFrames(s: State, step: Step)
    requires UpInv(s) && UpReplyInv(s) && FrameInv(s.child)
    requires Enabled(s, step)
    requires step.ChildDispatched? || step.ChildDrain? || step.ChildNotify? || step.ChildReadFails? || step.ChildCallAborts?
    ensures FrameInv(Apply(s, step).child)
  {
  }

  lemma {:induction false} NotesAppend(q: seq<Msg>, m: Msg)
    ensures Notes(q + [m]) == Notes(q) + (if m.Notify? then [m.note] else [])
  {
    if q != [] {
      NotesAppend(q[1..], m);
      assert (q + [m])[1..] == q[1..] + [m];
    }
  }

  /** A step of the parent appends at most one message to the child's channel. */
  lemma ParentStepKeepsNotes(s: State, step: Step)
    requires NoteInv(s) && Enabled(s, step) && (ByCaller(step) || ByReader(step))
    ensures NoteInv(Apply(s, step))
  {
    var q := Apply(s, step).toChild;
    if q != s.toChild {
      assert q == s.toChild + [q[|s.toChild|]];
      NotesAppend(s.toChild, q[|s.toChild|]);
    }
  }

  lemma ReadKeepsNotes(s: State)
    requires NoteInv(s) && Enabled(s, ChildRead)
    ensures NoteInv(Apply(s, ChildRead))
  {
    var c := s.child;
    var rest := Notes(s.toChild[1..]);
    if s.toChild[0].Notify? {
      var note := [s.toChild[0].note];
      if InCall(c) {
        assert c.dispatched + c.batch + (c.deferred + note) + rest == c.dispatched + c.batch + c.deferred + (note + rest);
      } else {
        assert c.dispatched + note + c.batch + c.deferred + rest == c.dispatched + c.batch + c.deferred + (note + rest);
      }
    } else {
      assert Notes(s.toChild) == rest;
    }
  }

  lemma DrainKeepsNotes(s: State)
    requires NoteInv(s) && Enabled(s, ChildDrain)
    ensures NoteInv(Apply(s, ChildDrain))
  {
    var c := s.child;
    if c.batch != [] {
      assert c.dispatched + [c.batch[0]] + c.batch[1..] == c.dispatched + c.batch;
    } else {
      assert c.dispatched + c.batch + c.deferred == c.dispatched + c.deferred + [];
    }
  }

  lemma StepKeepsNotes(s: State, step: Step)
    requires NoteInv(s) && Enabled(s, step)
    ensures NoteInv(Apply(s, step))
  {
    if ByCaller(step) || ByReader(step) {
      ParentStepKeepsNotes(s, step);
    } else if step.ChildRead? {
      ReadKeepsNotes(s);
    } else if step.ChildDrain? {
      DrainKeepsNotes(s);
    }
  }

  lemma StepKeepsPromises(s: State, step: Step)
    requires PromiseInv(s.parent) && Enabled(s, step)
    ensures PromiseInv(Apply(s, step).parent)
  {
  }

  lemma ChildStepKeepsDown(s: State, step: Step)
    requires DownInv(s) && Enabled(s, step) && !ByCaller(step) && !ByReader(step)
    ensures DownInv(Apply(s, step))
  {
    match step
    case ChildRead =>
      if InCall(s.child) {
        ReadInCallKeepsDown(s);
      } else {
        ReadInRunKeepsDown(s);
      }
    case ChildTakeStash => TakeStashKeepsDown(s);
    case ChildCall(body, ok) => StartCallKeepsDown(s, body, ok);
    case ChildAnswer(reply, ok) => AnswerKeepsDown(s, reply, ok);
    case _ => QuietStepKeepsDown(s, step);
  }

  lemma ChildStepKeepsDownReply(s: State, step: Step)
    requires DownInv(s) && DownReplyInv(s) && Enabled(s, step) && !ByCaller(step) && !ByReader(step)
    ensures DownReplyInv(Apply(s, step))
  {
    match step
    case ChildRead =>
      if InCall(s.child) {
        ReadInCallKeepsDownReply(s);
      } else {
        ReadInRunKeepsDownReply(s);
      }
    case ChildTakeStash => TakeStashKeepsDownReply(s);
    case ChildCall(body, ok) => StartCallKeepsDownReply(s, body, ok);
    case ChildAnswer(reply, ok) => AnswerKeepsDownReply(s, reply, ok);
    case _ => QuietStepKeepsDownReply(s, step);
  }

  lemma ChildStepKeepsUp(s: State, step: Step)
    requires UpInv(s) && Enabled(s, step) && !ByCaller(step) && !ByReader(step)
    ensures UpInv(Apply(s, step))
  {
    match step
    case ChildRead =>
      if InCall(s.child) {
        ReadInCallKeepsUp(s);
      } else {
        ReadInRunKeepsUp(s);
      }
    case ChildTakeStash => TakeStashKeepsUp(s);
    case ChildCall(body, ok) => StartCallKeepsUp(s, body, ok);
    case ChildAnswer(reply, ok) => AnswerKeepsUp(s, reply, ok);
    case _ => QuietStepKeepsUp(s, step);
  }

  lemma ChildStepKeepsUpReply(s: State, step: Step)
    requires UpInv(s) && UpReplyInv(s) && Enabled(s, step) && !ByCaller(step) && !ByReader(step)
    ensures UpReplyInv(Apply(s, step))
  {
    match step
    case ChildRead =>
      if InCall(s.child) {
        ReadInCallKeepsUpReply(s);
      } else {
        ReadInRunKeepsUpReply(s);
      }
    case ChildTakeStash => TakeStashKeepsUpReply(s);
    case ChildCall(body, ok) => StartCallKeepsUpReply(s, body, ok);
    case ChildAnswer(reply, ok) => AnswerKeepsUpReply(s, reply, ok);
    case _ => QuietStepKeepsUpReply(s, step);
  }

  lemma ChildStepKeepsFrames(s: State, step: Step)
    requires UpInv(s) && UpReplyInv(s) && FrameInv(s.child) && Enabled(s, step) && !ByCaller(step) && !ByReader(step)
    ensures FrameInv(Apply(s, step).child)
  {
    match step
    case ChildRead =>
      if InCall(s.child) {
        ReadInCallKeepsFrames(s);
      } else {
        ReadInRunKeepsFrames(s);
      }
    case ChildTakeStash => TakeStashKeepsFrames(s);
    case ChildCall(body, ok) => StartCallKeepsFrames(s, body, ok);
    case ChildAnswer(reply, ok) => AnswerKeepsFrames(s, reply, ok);
    case _ => QuietStepKeepsFrames(s, step);
  }

  lemma StepKeepsInv(s: State, step: Step)
    requires Inv(s) && Enabled(s, step)
    ensures Inv(Apply(s, step))
  {
    StepKeepsNotes(s, step);
    StepKeepsPromises(s, step);
    if ByCaller(step) {
      CallerKeepsDown(s, step);
      CallerKeepsDownReply(s, step);
      CallerKeepsUp(s, step);
      CallerKeepsUpReply(s, step);
      CallerKeepsFrames(s, step);
    } else if ByReader(step) {
      ReaderKeepsDown(s, step);
      ReaderKeepsDownReply(s, step);
      ReaderKeepsUp(s, step);
      ReaderKeepsUpReply(s, step);
      ReaderKeepsFrames(s, step);
    } else {
      ChildStepKeepsDown(s, step);
      ChildStepKeepsDownReply(s, step);
      ChildStepKeepsUp(s, step);
      ChildStepKeepsUpReply(s, step);
      ChildStepKeepsFrames(s, step);
    }
  }

  lemma {:induction false} RunKeepsInv(s: State, steps: seq<Step>)
    requires Inv(s) && EnabledRun(s, steps)
    ensures Inv(Run(s, steps))
    decreases |steps|
  {
    if steps != [] {
      StepKeepsInv(s, steps[0]);
      RunKeepsInv(Apply(s, steps[0]), steps[1..]);
    }
  }

  // ---------------------------------------------------------------- what every run guarantees

  lemma ReachableKeepsInv(steps: seq<Step>)
    requires EnabledRun(Init(), steps)
    ensures Inv(Run(Init(), steps))
  {
    RunKeepsInv(Init(), steps);
  }

  /** A reply handed back to call `i` was recorded by the child for call `i` and its body. */
  lemma RepliedIsHandled(s: State, i: nat, reply: Reply)
    requires Inv(s)
    requires i < |s.parent.calls| && s.parent.calls[i].phase == Returned(Replied(reply))
    ensures i in s.child.handled && s.child.handled[i] == Handled(s.parent.calls[i].body, reply)
  {
    assert OutcomeOk(s.child, i, s.parent.calls[i].phase.settled);
    assert Asked(s.parent, i, s.child.handled[i].body);
  }

  /** A reply handed back to the child's request `id` was recorded by the parent for it and its body. */
  lemma ReturnedIsHandled(s: State, id: int)
    requires Inv(s)
    requires id in s.child.returned
    ensures id in s.child.bodies && id in s.parent.handled
    ensures s.parent.handled[id] == Handled(s.child.bodies[id], s.child.returned[id])
  {
    assert Answered(s.parent.handled, id, s.child.returned[id]);
    assert Issued(s.child, id, s.parent.handled[id].body);
  }

  lemma StashInFrames(s: State)
    requires Inv(s) && s.child.connected
    ensures forall id | id in s.child.stash :: CallFrame(id) in s.child.stack
    ensures s.child.stack == [] ==> s.child.stash == map[]
  {
    forall id | id in s.child.stash ensures CallFrame(id) in s.child.stack {
      assert Answered(s.parent.handled, id, s.child.stash[id]);
      assert Issued(s.child, id, s.parent.handled[id].body);
    }
    if s.child.stack == [] {
      MapsEqual(s.child.stash, map[]);
    }
  }

  lemma NotesInOrder(s: State)
    requires NoteInv(s)
    ensures s.child.dispatched <= s.notified
    ensures AtPoll(s.child) ==> s.child.dispatched + Notes(s.toChild) == s.notified
  {
    var c, rest := s.child, Notes(s.toChild);
    assert c.dispatched + c.batch + c.deferred + rest == c.dispatched + (c.batch + c.deferred + rest);
    if AtPoll(c) {
      assert c.batch + c.deferred + rest == rest;
    }
  }

  /** What `PluginProcess::call` hands back is what the child's handler answered to that very call. */
  lemma ParentGetsItsOwnReply(steps: seq<Step>, i: nat, reply: Reply)
    requires EnabledRun(Init(), steps)
    requires var p := Run(Init(), steps).parent;
             i < |p.calls| && p.calls[i].phase == Returned(Replied(reply))
    ensures var s := Run(Init(), steps);
            i in s.child.handled && s.child.handled[i] == Handled(s.parent.calls[i].body, reply)
  {
    ReachableKeepsInv(steps);
    RepliedIsHandled(Run(Init(), steps), i, reply);
  }

  /** What `rpc_client::call` hands back is what the parent's handler answered to that very call. */
  lemma ChildGetsItsOwnReply(steps: seq<Step>, id: int)
    requires EnabledRun(Init(), steps)
    requires id in Run(Init(), steps).child.returned
    ensures var s := Run(Init(), steps);
            && id in s.child.bodies && id in s.parent.handled
            && s.parent.handled[id] == Handled(s.child.bodies[id], s.child.returned[id])
  {
    ReachableKeepsInv(steps);
    ReturnedIsHandled(Run(Init(), steps), id);
  }

  /** Every answer and every request body of `s` stands in `t`. */
  ghost predicate Extends(s: State, t: State) {
    && (forall i | i in s.child.handled :: i in t.child.handled && t.child.handled[i] == s.child.handled[i])
    && (forall i | i in s.parent.handled :: i in t.parent.handled && t.parent.handled[i] == s.parent.handled[i])
    && (forall i | i in s.child.bodies :: i in t.child.bodies && t.child.bodies[i] == s.child.bodies[i])
  }

  lemma StepExtendsChild(s: State, step: Step)
    requires DownInv(s) && Enabled(s, step)
    ensures var t := Apply(s, step);
            forall i | i in s.child.handled :: i in t.child.handled && t.child.handled[i] == s.child.handled[i]
  {
    if step.ChildAnswer? {
      assert s.child.stack[|s.child.stack| - 1] in s.child.stack;
    }
  }

  lemma StepExtendsParent(s: State, step: Step)
    requires UpInv(s) && Enabled(s, step)
    ensures var t := Apply(s, step);
            && (forall i | i in s.parent.handled :: i in t.parent.handled && t.parent.handled[i] == s.parent.handled[i])
            && (forall i | i in s.child.bodies :: i in t.child.bodies && t.child.bodies[i] == s.child.bodies[i])
  {
  }

  /** A handler's answer is recorded once and never replaced, and no request changes its body. */
  lemma {:induction false} AnswersAreFinal(s: State, steps: seq<Step>)
    requires Inv(s) && EnabledRun(s, steps)
    ensures Extends(s, Run(s, steps))
    decreases |steps|
  {
    if steps != [] {
      StepKeepsInv(s, steps[0]);
      StepExtendsChild(s, steps[0]);
      StepExtendsParent(s, steps[0]);
      AnswersAreFinal(Apply(s, steps[0]), steps[1..]);
    }
  }

  /** No promise is ever set twice: whoever is about to set one finds it unset. */
  lemma PromiseSetAtMostOnce(steps: seq<Step>)
    requires EnabledRun(Init(), steps)
    ensures var p := Run(Init(), steps).parent;
            && (p.reader.Delivering? ==> 0 <= p.reader.id < |p.calls| && p.calls[p.reader.id].promise.None?)
            && (forall i | i in p.pending :: 0 <= i < |p.calls| && p.calls[i].promise.None?)
  {
    ReachableKeepsInv(steps);
  }

  /** While the link is up every stashed response belongs to a frame that is still active. */
  lemma StashFollowsFrames(steps: seq<Step>)
    requires EnabledRun(Init(), steps)
    requires Run(Init(), steps).child.connected
    ensures var c := Run(Init(), steps).child;
            && (forall id | id in c.stash :: CallFrame(id) in c.stack)
            && (c.stack == [] ==> c.stash == map[])
  {
    ReachableKeepsInv(steps);
    StashInFrames(Run(Init(), steps));
  }

  /** Notifications are dispatched once each and in the order they were sent; at the poll none is held back. */
  lemma NotificationsInOrder(steps: seq<Step>)
    requires EnabledRun(Init(), steps)
    ensures var s := Run(Init(), steps);
            && s.child.dispatched <= s.notified
            && (AtPoll(s.child) ==> s.child.dispatched + Notes(s.toChild) == s.notified)
  {
    ReachableKeepsInv(steps);
    NotesInOrder(Run(Init(), steps));
  }
}
