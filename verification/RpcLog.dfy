/**
  Book-keeping for `rpc_client` (src/lua_host/rpc.cc): what the plugin's handlers were given and
  what they answered, against what was read from and written to the socket.

  A handler is any finite list of decisions: call the parent, or finish with an answer.  All
  handlers together take them off one list, so the list says which answers there must be, and in
  which order.
 */
module RpcLog {
  import opened PluginRpc

  datatype Decision = Ask(body: Payload) | Finish(reply: Reply)

  /** What a handler was run for. */
  datatype Job = ForRequest(id: int, body: Payload) | ForNote(note: Payload)

  /** A handler run that is over. */
  datatype Ran = Ran(job: Job, reply: Reply)

  // ---------------------------------------------------------------- readings of the logs

  function Replies(ran: seq<Ran>): seq<Reply> {
    if ran == [] then [] else Replies(ran[..|ran| - 1]) + [ran[|ran| - 1].reply]
  }

  /** The responses that the handler runs call for, in order. */
  function AnswersOf(ran: seq<Ran>): seq<Msg> {
    if ran == [] then []
    else
      var last := ran[|ran| - 1];
      AnswersOf(ran[..|ran| - 1]) + if last.job.ForRequest? then [Response(last.job.id, last.reply)] else []
  }

  /** The notifications handed to handlers, in order. */
  function NotesOf(ran: seq<Ran>): seq<Payload> {
    if ran == [] then []
    else
      var last := ran[|ran| - 1];
      NotesOf(ran[..|ran| - 1]) + if last.job.ForNote? then [last.job.note] else []
  }

  /** The requests handed to handlers, with their bodies and multiplicities. */
  function Jobs(ran: seq<Ran>): multiset<(int, Payload)> {
    if ran == [] then multiset{}
    else
      var last := ran[|ran| - 1];
      Jobs(ran[..|ran| - 1]) + if last.job.ForRequest? then multiset{(last.job.id, last.job.body)} else multiset{}
  }

  function Answers(q: seq<Msg>): seq<Msg> {
    if q == [] then [] else Answers(q[..|q| - 1]) + if q[|q| - 1].Response? then [q[|q| - 1]] else []
  }

  /** The requests written, with their ids and bodies, in order. */
  function Calls(q: seq<Msg>): seq<Msg> {
    if q == [] then [] else Calls(q[..|q| - 1]) + if q[|q| - 1].Request? then [q[|q| - 1]] else []
  }

  /** The answers decided on, in order. */
  function Finishes(taken: seq<Decision>): seq<Reply> {
    if taken == [] then []
    else Finishes(taken[..|taken| - 1]) + if taken[|taken| - 1].Finish? then [taken[|taken| - 1].reply] else []
  }

  /** The calls decided on: they carry the ids 1, 2, 3 in this order. */
  function Asks(taken: seq<Decision>): seq<Msg> {
    if taken == [] then []
    else
      var before := Asks(taken[..|taken| - 1]);
      before + if taken[|taken| - 1].Ask? then [Request(|before| + 1, taken[|taken| - 1].body)] else []
  }

  /** The requests in `q`, with their bodies and multiplicities. */
  function RequestJobs(q: seq<Msg>): multiset<(int, Payload)> {
    if q == [] then multiset{}
    else (if q[0].Request? then multiset{(q[0].id, q[0].body)} else multiset{}) + RequestJobs(q[1..])
  }

  // ---------------------------------------------------------------- the books

  /**
    The plan and what is left of it; the handler runs, and the notifications and requests they were
    for; what was written, and the id the next call will have; and whether the link is up.
   */
  datatype Ledger = Ledger(
    plan: seq<Decision>,
    script: seq<Decision>,
    ran: seq<Ran>,
    notes: seq<Payload>,
    jobs: multiset<(int, Payload)>,
    outbox: seq<Msg>,
    next: int,
    up: bool)

  /** What has been taken off the plan. */
  function Taken(plan: seq<Decision>, script: seq<Decision>): seq<Decision>
    requires |script| <= |plan|
  {
    plan[..|plan| - |script|]
  }

  /** Handlers answer what the plan says, one after the other, and null once it is used up. */
  predicate Played(plan: seq<Decision>, script: seq<Decision>, ran: seq<Ran>) {
    && |script| <= |plan| && script == plan[|plan| - |script|..]
    && var decided := Finishes(Taken(plan, script));
       && decided <= Replies(ran) && (script != [] ==> decided == Replies(ran))
       && forall i :: |decided| <= i < |Replies(ran)| ==> Replies(ran)[i] == Result("null")
  }

  /** Every answer and every call decided on has been written, `due` calls apart. */
  predicate Written(l: Ledger, due: seq<Msg>)
    requires |l.script| <= |l.plan|
  {
    && Answers(l.outbox) == AnswersOf(l.ran)
    && Calls(l.outbox) + due == Asks(Taken(l.plan, l.script))
    && l.next == |Calls(l.outbox)| + 1
  }

  /** The runs agree with the plan, and while the link is up so does what was written, `due` calls apart. */
  predicate InOrder(l: Ledger, ran: seq<Ran>, due: seq<Msg>) {
    && Played(l.plan, l.script, ran) && l.notes == NotesOf(l.ran) && l.jobs == Jobs(l.ran)
    && (l.up ==> Written(l, due))
  }

  /** Nothing but a mark: proofs look into books where it is made, and nowhere else. */
  predicate Opened(mark: bool) {
    true
  }

  /** The books are in order, `due` calls apart. */
  ghost predicate Books(l: Ledger, due: seq<Msg>) {
    forall mark {:trigger Opened(mark)} :: Opened(mark) ==> InOrder(l, l.ran, due)
  }

  /** A handler is over; its run is not on the books yet. */
  ghost predicate Closing(l: Ledger, end: Ran) {
    forall mark {:trigger Opened(mark)} :: Opened(mark) ==> InOrder(l, l.ran + [end], [])
  }

  /** The ledger with one more run. */
  function Booked(l: Ledger, end: Ran): Ledger {
    l.(ran := l.ran + [end],
       notes := l.notes + (if end.job.ForNote? then [end.job.note] else []),
       jobs := l.jobs + (if end.job.ForRequest? then multiset{(end.job.id, end.job.body)} else multiset{}))
  }

  // ---------------------------------------------------------------- entries

  lemma RanMore(ran: seq<Ran>, end: Ran)
    ensures Replies(ran + [end]) == Replies(ran) + [end.reply]
    ensures AnswersOf(ran + [end])
            == AnswersOf(ran) + if end.job.ForRequest? then [Response(end.job.id, end.reply)] else []
    ensures NotesOf(ran + [end]) == NotesOf(ran) + if end.job.ForNote? then [end.job.note] else []
    ensures Jobs(ran + [end])
            == Jobs(ran) + if end.job.ForRequest? then multiset{(end.job.id, end.job.body)} else multiset{}
  {
    assert (ran + [end])[..|ran|] == ran;
  }

  lemma WroteMore(q: seq<Msg>, m: Msg)
    ensures Answers(q + [m]) == Answers(q) + if m.Response? then [m] else []
    ensures Calls(q + [m]) == Calls(q) + if m.Request? then [m] else []
  {
    assert (q + [m])[..|q|] == q;
  }

  /** Reading the message at `pos`. */
  lemma ReadOne(q: seq<Msg>, pos: nat)
    requires pos < |q|
    ensures RequestJobs(q[pos..])
            == (if q[pos].Request? then multiset{(q[pos].id, q[pos].body)} else multiset{}) + RequestJobs(q[pos + 1..])
  {
    assert q[pos..][1..] == q[pos + 1..];
  }

  lemma TookMore(plan: seq<Decision>, script: seq<Decision>)
    requires 0 < |script| <= |plan| && script == plan[|plan| - |script|..]
    ensures Taken(plan, script[1..]) == Taken(plan, script) + [script[0]]
    ensures script[1..] == plan[|plan| - |script[1..]|..]
    ensures Finishes(Taken(plan, script[1..]))
            == Finishes(Taken(plan, script)) + if script[0].Finish? then [script[0].reply] else []
    ensures Asks(Taken(plan, script[1..]))
            == Asks(Taken(plan, script))
               + if script[0].Ask? then [Request(|Asks(Taken(plan, script))| + 1, script[0].body)] else []
  {
    var taken := Taken(plan, script);
    assert Taken(plan, script[1..]) == taken + [script[0]];
    assert (taken + [script[0]])[..|taken|] == taken;
  }

  /** A call is decided on: it is due until it is written. */
  lemma TakeAsk(l: Ledger)
    requires Books(l, []) && l.script != [] && l.script[0].Ask?
    ensures Books(l.(script := l.script[1..]), [Request(l.next, l.script[0].body)])
  {
    assert Opened(true);
    TookMore(l.plan, l.script);
  }

  lemma TakeFinish(l: Ledger, job: Job)
    requires Books(l, []) && l.script != [] && l.script[0].Finish?
    ensures Closing(l.(script := l.script[1..]), Ran(job, l.script[0].reply))
  {
    assert Opened(true);
    TookMore(l.plan, l.script);
    RanMore(l.ran, Ran(job, l.script[0].reply));
  }

  lemma TakeNothing(l: Ledger, job: Job)
    requires Books(l, []) && l.script == []
    ensures Closing(l, Ran(job, Result("null")))
  {
    assert Opened(true);
    RanMore(l.ran, Ran(job, Result("null")));
  }

  /** The call that was due is written. */
  lemma AskWritten(l: Ledger, m: Msg)
    requires Books(l, [m]) && m.Request?
    ensures Books(l.(outbox := l.outbox + [m], next := l.next + 1), [])
  {
    assert Opened(true);
    WroteMore(l.outbox, m);
  }

  /** The run goes on the books, and its answer, if it has one to give, is written. */
  lemma RunBooked(l: Ledger, end: Ran)
    requires Closing(l, end)
    ensures end.job.ForRequest? ==>
              Books(Booked(l, end).(outbox := l.outbox + [Response(end.job.id, end.reply)]), [])
    ensures end.job.ForNote? ==> Books(Booked(l, end), [])
  {
    assert Opened(true);
    RanMore(l.ran, end);
    if end.job.ForRequest? {
      WroteMore(l.outbox, Response(end.job.id, end.reply));
    }
  }

  lemma LinkDown(l: Ledger, due: seq<Msg>, next: int)
    requires Books(l, due)
    ensures Books(l.(up := false, next := next), [])
  {
    assert Opened(true);
  }

  /** With the link down only the run counts, not what was written. */
  lemma LinkIsDown(l: Ledger, m: Ledger, end: Ran)
    requires Closing(l, end) && !m.up && m == Booked(l, end).(outbox := m.outbox, up := false)
    ensures Books(m, [])
  {
    assert Opened(true);
    RanMore(l.ran, end);
  }

  /** What books in order mean, spelled out. */
  lemma BooksSay(l: Ledger)
    requires Books(l, [])
    ensures Played(l.plan, l.script, l.ran) && l.notes == NotesOf(l.ran) && l.jobs == Jobs(l.ran)
    ensures l.up ==> Answers(l.outbox) == AnswersOf(l.ran) && Calls(l.outbox) == Asks(Taken(l.plan, l.script))
  {
    assert Opened(true);
  }
}
