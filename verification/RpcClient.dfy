/**
  `rpc_client` (src/lua_host/rpc.cc) as it runs: one thread, `call` re-entered from the
  handlers it serves while it waits, responses for outer calls stashed, notifications
  deferred and drained later.

  The socket yields the messages of `inbox` in order and then fails.  What plugin handlers
  decide is taken from `plan`; `script` is what is left of it, and `ran` records the handler
  runs that are over.  A write may fail at any time.  No assumption is made about what the
  parent sends; `rogue` collects the ids of responses nobody was waiting for.
 */
module RpcClient {
  import opened Wrappers
  import opened PluginRpc
  import opened RpcLog

  /** How `call` ends: with the peer's reply, or by throwing because the link is gone. */
  datatype CallEnd = Got(reply: Reply) | LinkLost

  lemma {:induction false} NotesSplit(q: seq<Msg>, r: seq<Msg>)
    ensures Notes(q + r) == Notes(q) + Notes(r)
  {
    if q == [] {
      assert q + r == r;
    } else {
      var head, tail := if q[0].Notify? then [q[0].note] else [], q[1..];
      NotesSplit(tail, r);
      assert (q + r)[0] == q[0] && (q + r)[1..] == tail + r;
      assert head + (Notes(tail) + Notes(r)) == head + Notes(tail) + Notes(r);
    }
  }

  /** Reading the message at `hi` extends the notes of the stretch that started at `lo`. */
  lemma NotesExtend(q: seq<Msg>, lo: nat, hi: nat)
    requires lo <= hi < |q|
    ensures Notes(q[lo..hi + 1]) == Notes(q[lo..hi]) + (if q[hi].Notify? then [q[hi].note] else [])
  {
    assert q[lo..hi + 1] == q[lo..hi] + [q[hi]];
    NotesAppend(q[lo..hi], q[hi]);
  }

  lemma NotesPrefix(q: seq<Msg>, mid: nat, hi: nat)
    requires mid <= hi <= |q|
    ensures Notes(q[..hi]) == Notes(q[..mid]) + Notes(q[mid..hi])
  {
    assert q[..hi] == q[..mid] + q[mid..hi];
    NotesSplit(q[..mid], q[mid..hi]);
  }

  /** Two adjacent stretches of reading defer what one long stretch defers. */
  lemma NotesJoin(before: seq<Payload>, q: seq<Msg>, lo: nat, mid: nat, hi: nat)
    requires lo <= mid <= hi <= |q|
    ensures before + Notes(q[lo..mid]) + Notes(q[mid..hi]) == before + Notes(q[lo..hi])
  {
    assert q[lo..hi] == q[lo..mid] + q[mid..hi];
    NotesSplit(q[lo..mid], q[mid..hi]);
    assert before + Notes(q[lo..mid]) + Notes(q[mid..hi]) == before + (Notes(q[lo..mid]) + Notes(q[mid..hi]));
  }

  class Client {
    const inbox: seq<Msg>
    const plan: seq<Decision>
    var pos: nat
    var script: seq<Decision>
    var connected: bool
    var nextId: int
    var stash: map<int, Reply>
    var deferred: seq<Payload>
    var outbox: seq<Msg>
    ghost var ran: seq<Ran>
    ghost var dispatched: seq<Payload>
    ghost var handled: multiset<(int, Payload)>
    ghost var rogue: set<int>
    ghost var stashedAt: map<int, nat>

    constructor (inbox: seq<Msg>, script: seq<Decision>)
      ensures this.inbox == inbox && this.script == script && plan == script
      ensures pos == 0 && connected && nextId == 1 && stash == map[] && deferred == []
      ensures outbox == [] && ran == [] && dispatched == [] && handled == multiset{} && rogue == {} && stashedAt == map[]
    {
      this.inbox, this.script, this.plan := inbox, script, script;
      pos, connected, nextId := 0, true, 1;
      stash, deferred, outbox, ran, dispatched, handled := map[], [], [], [], [], multiset{};
      rogue, stashedAt := {}, map[];
    }

    ghost function Log(): Ledger
      reads this
    {
      Ledger(plan, script, ran, dispatched, handled, outbox, nextId, connected)
    }

    ghost predicate Valid(frames: set<int>)
      reads this
    {
      Framed(frames) && Books(Log(), [])
    }

    /** `frames` are the ids of the calls on the stack; `stashedAt` says where a stashed response was read. */
    ghost predicate Framed(frames: set<int>)
      reads this
    {
      && pos <= |inbox|
      && (forall f | f in frames :: f < nextId)
      && (connected ==> forall i | i in stash :: i in frames || i in rogue)
      && (forall i | i in stash :: i in stashedAt && stashedAt[i] < pos && inbox[stashedAt[i]] == Response(i, stash[i]))
    }

    ghost predicate StashedSince(lo: int, i: int)
      reads this`stashedAt
    {
      i in stashedAt && lo <= stashedAt[i]
    }

    twostate predicate StillStashed(i: int)
      reads this
    {
      i in old(stash) && i in old(stashedAt) && i in stashedAt && stashedAt[i] == old(stashedAt[i])
    }

    /** What any stretch of execution does to the client, whatever the parent sends. */
    twostate predicate Advances()
      reads this
    {
      && old(pos) <= pos <= |inbox|
      && |script| <= old(|script|)
      && old(nextId) <= nextId
      && (connected ==> old(connected))
      && old(rogue) <= rogue
      && dispatched == old(dispatched)
      && old(outbox) <= outbox
      && deferred == old(deferred) + Notes(inbox[old(pos)..pos])
      && (forall i | i in stash :: StashedSince(old(pos), i) || StillStashed(i))
    }

    /** Requests handled, and requests still to be read. */
    ghost function Balance(): multiset<(int, Payload)>
      reads this
      requires pos <= |inbox|
    {
      handled + RequestJobs(inbox[pos..])
    }

    /** What is left of the socket and of the handlers' decisions. */
    ghost function Fuel(): int
      reads this
    {
      |inbox| - pos + |script|
    }

    /** `send_message`. */
    method Send(m: Msg) returns (ok: bool)
      modifies this`connected, this`outbox
      ensures ok ==> connected == old(connected) && outbox == old(outbox) + [m]
      ensures !ok ==> !connected && outbox == old(outbox)
    {
      ok := *;
      if ok {
        outbox := outbox + [m];
      } else {
        connected := false;
      }
    }

    /** The sending half of `call`: a fresh id, and the request written under it. */
    method AskParent(body: Payload, ghost frames: set<int>) returns (sent: bool, id: int)
      requires Framed(frames) && connected && Books(Log(), [Request(nextId, body)])
      modifies this`nextId, this`connected, this`outbox
      ensures Valid(frames) && id == old(nextId) && nextId == id + 1
      ensures sent ==> connected && outbox == old(outbox) + [Request(id, body)]
      ensures !sent ==> !connected && outbox == old(outbox)
    {
      id := nextId;
      AskWritten(Log(), Request(id, body));
      LinkDown(Log(), [Request(id, body)], id + 1);
      nextId := nextId + 1;
      sent := Send(Request(id, body));
    }

    /** `read_message`, when there is one. */
    method Read(ghost active: set<int>) returns (m: Msg)
      requires Valid(active) && pos < |inbox|
      modifies this`pos
      ensures pos == old(pos) + 1 && m == inbox[old(pos)] && Valid(active)
      ensures old(Balance()) == Balance() + if m.Request? then multiset{(m.id, m.body)} else multiset{}
      ensures Notes(inbox[old(pos)..pos]) == if m.Notify? then [m.note] else []
    {
      NotesExtend(inbox, pos, pos);
      ReadOne(inbox, pos);
      m := inbox[pos];
      pos := pos + 1;
    }

    /** A response for another frame is kept for it. */
    method Stash(rid: int, reply: Reply, ghost active: set<int>)
      requires Valid(active) && 0 < pos && inbox[pos - 1] == Response(rid, reply)
      modifies this`stash, this`stashedAt, this`rogue
      ensures Valid(active)
      ensures stash == old(stash)[rid := reply] && stashedAt == old(stashedAt)[rid := pos - 1]
      ensures rogue == old(rogue) + (if rid in active && rid !in old(stash) then {} else {rid})
    {
      if rid !in active || rid in stash {
        rogue := rogue + {rid};
      }
      stash, stashedAt := stash[rid := reply], stashedAt[rid := pos - 1];
    }

    /** The branch of `call` for a message that is not the awaited response. */
    method TakeOther(m: Msg, ghost active: set<int>)
      requires Valid(active) && connected && 0 < pos && inbox[pos - 1] == m
      modifies this
      ensures Valid(active)
      ensures old(pos) <= pos && |script| <= old(|script|) && old(nextId) <= nextId && old(rogue) <= rogue
      ensures old(outbox) <= outbox
      ensures dispatched == old(dispatched)
      ensures deferred == old(deferred) + Notes(inbox[old(pos) - 1..pos])
      ensures forall i | i in stash :: StashedSince(old(pos) - 1, i) || StillStashed(i)
      ensures Balance() == old(Balance()) + if m.Request? then multiset{(m.id, m.body)} else multiset{}
      decreases Fuel(), 3
    {
      NotesExtend(inbox, pos - 1, pos - 1);
      match m
      case Response(rid, reply) =>
        Stash(rid, reply, active);
      case Notify(note) =>
        deferred := deferred + [note];
      case Request(rid, body) =>
        ServeInCall(rid, body, active);
    }

    /** A request that comes while a call waits. */
    method ServeInCall(rid: int, body: Payload, ghost active: set<int>)
      requires Valid(active) && connected && 0 < pos && inbox[pos - 1] == Request(rid, body)
      modifies this
      ensures Valid(active)
      ensures old(pos) <= pos && |script| <= old(|script|) && old(nextId) <= nextId && old(rogue) <= rogue
      ensures old(outbox) <= outbox
      ensures dispatched == old(dispatched)
      ensures deferred == old(deferred) + Notes(inbox[old(pos) - 1..pos])
      ensures forall i | i in stash :: StashedSince(old(pos) - 1, i) || StillStashed(i)
      ensures Balance() == old(Balance()) + multiset{(rid, body)}
      decreases Fuel(), 2
    {
      NotesExtend(inbox, pos - 1, pos - 1);
      Serve(rid, body, active);
      NotesJoin(old(deferred), inbox, old(pos) - 1, old(pos), pos);
    }

    /** Run the handler on a request and write what it answers. */
    method Serve(id: int, body: Payload, ghost active: set<int>)
      requires Valid(active)
      modifies this
      ensures Valid(active) && Advances()
      ensures Balance() == old(Balance()) + multiset{(id, body)}
      ensures ran != [] && ran[|ran| - 1].job == ForRequest(id, body)
      ensures connected ==> outbox != [] && outbox[|outbox| - 1] == Response(id, ran[|ran| - 1].reply)
      decreases Fuel(), 1
    {
      var reply := Handle(ForRequest(id, body), active);
      Respond(id, body, reply, active);
    }

    /** `respond` and `respond_error`: what the handler answered is written under the id of its request. */
    method Respond(id: int, ghost body: Payload, reply: Reply, ghost active: set<int>)
      requires Framed(active) && Closing(Log(), Ran(ForRequest(id, body), reply))
      modifies this`ran, this`handled, this`outbox, this`connected
      ensures Valid(active) && (connected ==> old(connected))
      ensures ran == old(ran) + [Ran(ForRequest(id, body), reply)] && handled == old(handled) + multiset{(id, body)}
      ensures connected ==> outbox == old(outbox) + [Response(id, reply)]
      ensures old(outbox) <= outbox
    {
      RunBooked(Log(), Ran(ForRequest(id, body), reply));
      ran, handled := ran + [Ran(ForRequest(id, body), reply)], handled + multiset{(id, body)};
      var sent := Send(Response(id, reply));
      if !connected {
        LinkIsDown(old(Log()), Log(), Ran(ForRequest(id, body), reply));
      }
    }

    /** A plugin handler: any number of calls, then an answer. */
    method Handle(job: Job, ghost active: set<int>) returns (reply: Reply)
      requires Valid(active)
      modifies this
      ensures Framed(active) && Advances() && Closing(Log(), Ran(job, reply))
      ensures Balance() == old(Balance())
      decreases Fuel(), 0, 1
    {
      while script != []
        invariant Valid(active) && Advances()
        invariant Balance() == old(Balance())
        decreases |script|
      {
        var d := script[0];
        match d
        case Finish(r) =>
          TakeFinish(Log(), job);
          script := script[1..];
          return r;
        case Ask(body) =>
          ghost var mid := pos;
          AskNext(active);
          NotesJoin(old(deferred), inbox, old(pos), mid, pos);
      }
      TakeNothing(Log(), job);
      return Result("null");
    }

    /** The handler calls the parent; whether it gets a value or an exception decides nothing here. */
    method AskNext(ghost active: set<int>)
      requires Valid(active) && script != [] && script[0].Ask?
      modifies this
      ensures Valid(active) && Advances() && |script| < old(|script|)
      ensures Balance() == old(Balance())
      decreases Fuel(), 0, 0
    {
      var body := script[0].body;
      TakeAsk(Log());
      script := script[1..];
      var end, at := Call(body, active);
    }

    /** `rpc_client::call`; `at` is where the response it hands back stood in the stream. */
    method Call(body: Payload, ghost frames: set<int>) returns (end: CallEnd, ghost at: nat)
      requires Framed(frames) && Books(Log(), [Request(nextId, body)])
      modifies this
      ensures Valid(frames) && Advances()
      ensures end.Got? ==> at < pos && inbox[at] == Response(old(nextId), end.reply)
      ensures end.Got? && old(nextId) !in old(rogue) ==> old(pos) <= at
      ensures end.LinkLost? ==> !connected
      ensures end.Got? ==> old(outbox) + [Request(old(nextId), body)] <= outbox
      ensures Balance() == old(Balance())
      decreases Fuel(), 7
    {
      at := 0;
      if !connected {
        LinkDown(Log(), [Request(nextId, body)], nextId);
        return LinkLost, at;
      }
      var sent, id := AskParent(body, frames);
      if !sent {
        return LinkLost, at;
      }
      end, at := Await(id, frames);
    }

    /** A nested call has read the response already. */
    method TakeStashed(id: int, ghost frames: set<int>) returns (reply: Reply)
      requires Valid(frames + {id}) && id in stash
      modifies this`stash
      ensures Valid(frames) && stash == old(stash) - {id}
      ensures stashedAt[id] < pos && inbox[stashedAt[id]] == Response(id, reply)
    {
      reply := stash[id];
      stash := stash - {id};
    }

    /** The loop in which `call` waits for the response to `id`. */
    method Await(id: int, ghost frames: set<int>) returns (end: CallEnd, ghost at: nat)
      requires Valid(frames) && connected && id < nextId
      modifies this
      ensures Valid(frames) && Advances()
      ensures end.Got? ==> at < pos && inbox[at] == Response(id, end.reply)
      ensures end.Got? && id !in old(stash) ==> old(pos) <= at
      ensures end.LinkLost? ==> !connected
      ensures Balance() == old(Balance())
      decreases Fuel(), 6
    {
      var own;
      own, at := AwaitArrival(id, frames + {id});
      if own.Some? {
        return Got(own.value), at;
      }
      if !connected {
        return LinkLost, 0;
      }
      at := stashedAt[id];
      var reply := TakeStashed(id, frames);
      return Got(reply), at;
    }

    /** The turns of that loop, until the response has come, is found in the stash, or cannot come any more. */
    method AwaitArrival(id: int, ghost active: set<int>) returns (own: Option<Reply>, ghost at: nat)
      requires Valid(active) && connected && id < nextId
      modifies this
      ensures Valid(active) && Advances()
      ensures own.Some? ==> id !in stash && old(pos) <= at < pos && inbox[at] == Response(id, own.value)
      ensures own.None? && connected ==> id in stash
      ensures Balance() == old(Balance())
      decreases Fuel(), 5
    {
      while connected && id !in stash
        invariant Valid(active) && Advances() && id < nextId
        invariant Balance() == old(Balance())
        decreases connected, |inbox| - pos
      {
        at := pos;
        own := AwaitTurn(id, active);
        NotesJoin(old(deferred), inbox, old(pos), at, pos);
        if own.Some? {
          return;
        }
      }
      return None, 0;
    }

    /** One message read by the waiting call; the result is its own response, if that is what came. */
    method AwaitTurn(id: int, ghost active: set<int>) returns (reply: Option<Reply>)
      requires Valid(active) && connected && id !in stash
      modifies this
      ensures Valid(active) && Advances()
      ensures (connected ==> old(pos) < pos) && Balance() == old(Balance())
      ensures reply.Some? ==> id !in stash && old(pos) < pos && inbox[old(pos)] == Response(id, reply.value)
      decreases Fuel(), 4
    {
      if pos == |inbox| {
        LinkDown(Log(), [], nextId);
        connected := false;
        return None;
      }
      var m := Read(active);
      if m.Response? && m.id == id {
        return Some(m.reply);
      }
      TakeOther(m, active);
      return None;
    }

    /** The handler is run on one notification; what it answers is ignored. */
    method Dispatch(note: Payload)
      requires Valid({})
      modifies this
      ensures Valid({})
      ensures old(pos) <= pos && (connected ==> old(connected)) && old(rogue) <= rogue
      ensures |script| <= old(|script|)
      ensures Balance() == old(Balance())
      ensures dispatched == old(dispatched) + [note]
      ensures deferred == old(deferred) + Notes(inbox[old(pos)..pos])
    {
      var reply := Handle(ForNote(note), {});
      RunBooked(Log(), Ran(ForNote(note), reply));
      ran, dispatched := ran + [Ran(ForNote(note), reply)], dispatched + [note];
    }

    /** Everything read so far has been dispatched, is in the batch being drained, or is deferred. */
    ghost predicate InOrder(batch: seq<Payload>)
      reads this
    {
      && Valid({})
      && dispatched + batch + deferred == Notes(inbox[..pos])
    }

    /** `dispatch_notification` on the head of a batch that nothing overtakes. */
    method DispatchHead(batch: seq<Payload>)
      requires batch != [] && InOrder(batch)
      modifies this
      ensures InOrder(batch[1..])
      ensures pos == old(pos) ==> deferred == old(deferred)
      ensures Balance() == old(Balance())
      ensures old(pos) <= pos && (connected ==> old(connected)) && old(rogue) <= rogue
      ensures |script| <= old(|script|)
    {
      Dispatch(batch[0]);
      NotesPrefix(inbox, old(pos), pos);
      assert dispatched + batch[1..] == old(dispatched) + batch;
    }

    /** `drain_deferred`: batches are taken until a pass leaves nothing deferred. */
    method DrainDeferred()
      requires InOrder([])
      modifies this
      ensures InOrder([]) && deferred == []
      ensures Balance() == old(Balance())
      ensures old(pos) <= pos && (connected ==> old(connected)) && old(rogue) <= rogue
    {
      while deferred != []
        invariant InOrder([])
        invariant Balance() == old(Balance())
        invariant old(pos) <= pos && (connected ==> old(connected)) && old(rogue) <= rogue
        decreases |inbox| - pos, |deferred|
      {
        var batch := deferred;
        deferred := [];
        assert dispatched + batch + deferred == dispatched + [] + batch;
        ghost var start := pos;
        while batch != []
          invariant InOrder(batch)
          invariant Balance() == old(Balance())
          invariant start <= pos && old(pos) <= pos && (connected ==> old(connected)) && old(rogue) <= rogue
          invariant start == pos ==> deferred == []
          decreases |batch|
        {
          DispatchHead(batch);
          batch := batch[1..];
        }
      }
    }

    /** One message taken by `run`, up to the draining of what it left deferred. */
    method RunOne()
      requires InOrder([]) && deferred == [] && connected && pos < |inbox|
      modifies this
      ensures InOrder([])
      ensures old(pos) < pos && old(rogue) <= rogue
      ensures Balance() == old(Balance())
    {
      var m := Read({});
      NotesPrefix(inbox, old(pos), pos);
      match m
      case Request(id, body) =>
        ServeOne(id, body);
      case Notify(note) =>
        assert dispatched + [note] + deferred == dispatched + [] + deferred + [note];
        DispatchHead([note]);
      case Response(id, _) =>
        rogue := rogue + {id};
    }

    /** A request taken by `run` itself. */
    method ServeOne(id: int, body: Payload)
      requires InOrder([])
      modifies this
      ensures InOrder([])
      ensures old(pos) <= pos && old(rogue) <= rogue
      ensures Balance() == old(Balance()) + multiset{(id, body)}
    {
      Serve(id, body, {});
      NotesPrefix(inbox, old(pos), pos);
    }

    /**
      `rpc_client::run`, without coroutines or watched descriptors.  However it ends, each request
      read was handed to a handler once, with its body, and the notifications read once each in the
      order they arrived; and handlers answered as the plan says.  If the link is still up, what
      was written is every answer and every call, in order; and if no response was rogue, nothing
      is left in the stash.
     */
    method Run()
      requires pos == 0 && stash == map[] && deferred == [] && ran == [] && dispatched == [] && handled == multiset{}
      requires nextId == 1 && outbox == [] && script == plan
      modifies this
      ensures pos <= |inbox| && deferred == [] && NotesOf(ran) == Notes(inbox[..pos])
      ensures Jobs(ran) + RequestJobs(inbox[pos..]) == RequestJobs(inbox)
      ensures Played(plan, script, ran)
      ensures connected ==> Answers(outbox) == AnswersOf(ran) && Calls(outbox) == Asks(Taken(plan, script))
      ensures connected && rogue == {} ==> stash == map[]
      ensures !connected || pos == |inbox|
    {
      assert inbox[0..] == inbox && plan[..0] == [];
      while connected && pos < |inbox|
        invariant InOrder([]) && deferred == []
        invariant Balance() == RequestJobs(inbox)
        decreases |inbox| - pos
      {
        RunOne();
        DrainDeferred();
      }
      BooksSay(Log());
      if connected && rogue == {} {
        MapsEqual(stash, map[]);
      }
    }
  }
}
