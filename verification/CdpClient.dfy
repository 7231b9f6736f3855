/**
  The lock regions of `cdp_client` (src/engine/cdp_api.cc) as they update the object in
  place, each proved to be the step of `CdpProtocol` that carries its name.
 */
module CdpClient {
  import opened Wrappers
  import opened CdpProtocol

  /** The next key an unordered map happens to yield. */
  method AnyOf(ids: set<int>) returns (id: int)
    requires ids != {}
    ensures id in ids
  {
    if forall i :: i !in ids {
      assert false;
    }
    id :| id in ids;
  }

  /** The map and the collected requests once the sweep has seen the entries in `seen`. */
  ghost predicate Visited(s: State, seen: set<int>, now: int, pending: map<int, nat>, order: seq<nat>) {
    && PendingInv(s)
    && (forall id :: id in pending <==> id in s.pending && !(id in seen && Expired(s.requests[s.pending[id]], now)))
    && (forall id | id in pending :: pending[id] == s.pending[id])
    && (forall i, j | 0 <= i < j < |order| :: order[i] != order[j])
    && (forall i | 0 <= i < |order| ::
          order[i] < |s.requests| && Expired(s.requests[order[i]], now) && IdOf(order[i]) in seen && InPending(s, order[i]))
    && (forall id | id in seen && id in s.pending && Expired(s.requests[s.pending[id]], now) :: s.pending[id] in order)
  }

  lemma VisitOne(s: State, seen: set<int>, now: int, pending: map<int, nat>, order: seq<nat>, id: int)
    requires Visited(s, seen, now, pending, order) && id in s.pending && id !in seen
    ensures id in pending && pending[id] == s.pending[id] && s.pending[id] < |s.requests|
    ensures if Expired(s.requests[s.pending[id]], now)
            then Visited(s, seen + {id}, now, pending - {id}, order + [s.pending[id]])
            else Visited(s, seen + {id}, now, pending, order)
  {
    var k := s.pending[id];
    if Expired(s.requests[k], now) {
      var grown := order + [k];
      forall j | j in seen + {id} && j in s.pending && Expired(s.requests[s.pending[j]], now)
        ensures s.pending[j] in grown
      {
        if j == id {
          assert grown[|order|] == k;
        }
      }
    }
  }

  lemma VisitedAll(s: State, now: int, pending: map<int, nat>, order: seq<nat>)
    requires Visited(s, s.pending.Keys, now, pending, order)
    ensures pending == Fresh(s, now) && IsSweepOrder(s, now, order)
  {
    MapsEqual(pending, Fresh(s, now));
    forall i | 0 <= i < |order| ensures Mapped(s, order[i]) {
      assert InPending(s, order[i]);
    }
  }

  class Client {
    var requests: seq<Request>
    var pending: map<int, nat>
    var shutdown: bool
    var drained: bool
    var worker: Worker
    var sweeper: Sweeper
    var received: seq<Reply>

    ghost function View(): State
      reads this
    {
      State(requests, pending, shutdown, drained, worker, sweeper, received)
    }

    constructor ()
      ensures View() == Init()
    {
      requests, pending, shutdown, drained := [], map[], false, false;
      worker, sweeper, received := WorkerIdle, SweeperIdle, [];
    }

    /** `send_host` up to the registration region; the result indexes the new request. */
    method CreateRequest(now: int, timeout: int) returns (k: nat)
      modifies this
      ensures k == old(|requests|)
      ensures View() == Apply(old(View()), Create(now, timeout))
    {
      k := |requests|;
      requests := requests + [Request(now, timeout, false, [], Created)];
    }

    /** `if (!completed.exchange(true)) promise.set_exception(o)` on request `k`. */
    method Settle(k: nat, o: Outcome)
      requires k < |requests|
      modifies this`requests
      ensures requests == old(requests)[k := Complete(old(requests)[k], o)]
    {
      if !requests[k].completed {
        requests := requests[k := requests[k].(completed := true, settled := requests[k].settled + [o])];
      }
    }

    method RegisterRequest(k: nat)
      requires Enabled(View(), Register(k))
      modifies this
      ensures View() == Apply(old(View()), Register(k))
    {
      if shutdown {
        Settle(k, ClientShutdown);
        requests := requests[k := requests[k].(sender := Returned(Refused))];
      } else {
        pending := pending[IdOf(k) := k];
        requests := requests[k := requests[k].(sender := Registered)];
      }
    }

    method RejectSend(k: nat)
      requires Enabled(View(), FailSend(k))
      modifies this
      ensures View() == Apply(old(View()), FailSend(k))
    {
      pending := pending - {IdOf(k)};
      Settle(k, SendFailed);
      requests := requests[k := requests[k].(sender := Returned(Failed))];
    }

    /** The region of `process_message` that takes a request out of the map. */
    method TakePending()
      requires Enabled(View(), WorkerLookup)
      modifies this
      ensures View() == Apply(old(View()), WorkerLookup)
    {
      var reply := worker.reply;
      received := received + [reply];
      if reply.id in pending {
        worker := WorkerHolding(pending[reply.id], reply);
        pending := pending - {reply.id};
      } else {
        worker := WorkerIdle;
      }
    }

    /** The region of `cleanup_stale_requests`: one pass over the map, in whatever order it iterates. */
    method CollectStale() returns (order: seq<nat>)
      requires Inv(View()) && sweeper.SweeperChecked?
      modifies this
      ensures Enabled(old(View()), SweepRegion(order))
      ensures View() == Apply(old(View()), SweepRegion(order))
    {
      var now := sweeper.now;
      var left := pending.Keys;
      order := [];
      ghost var before := View();
      while left != {}
        invariant left <= before.pending.Keys
        invariant View() == before.(pending := pending)
        invariant Visited(before, before.pending.Keys - left, now, pending, order)
      {
        var id := AnyOf(left);
        VisitOne(before, before.pending.Keys - left, now, pending, order, id);
        left := left - {id};
        var k := pending[id];
        if Expired(requests[k], now) {
          order := order + [k];
          pending := pending - {id};
        }
        assert before.pending.Keys - left == before.pending.Keys - (left + {id}) + {id};
      }
      assert before.pending.Keys - left == before.pending.Keys;
      VisitedAll(before, now, pending, order);
      sweeper := SweeperHolding(now, order);
    }

    /** The region of `shutdown` that releases every caller still blocked on a future. */
    method DrainPending()
      requires Inv(View()) && Enabled(View(), Drain)
      modifies this
      ensures View() == Apply(old(View()), Drain)
    {
      ghost var before := View();
      var left := pending.Keys;
      while left != {}
        invariant left <= pending.Keys
        invariant View() == before.(requests := requests) && |requests| == |before.requests|
        invariant forall k | 0 <= k < |requests| ::
                    requests[k] == if IdOf(k) in pending.Keys - left && pending[IdOf(k)] == k
                                   then Complete(before.requests[k], ShutdownDrain) else before.requests[k]
      {
        var id := AnyOf(left);
        left := left - {id};
        assert IdOf(pending[id]) == id;
        Settle(pending[id], ShutdownDrain);
      }
      forall k: nat | k < |requests| ensures requests[k] == Apply(before, Drain).requests[k] {
        if Mapped(before, k) {
          var id :| id in pending && pending[id] == k;
          assert IdOf(pending[id]) == id;
        }
      }
      pending := map[];
      drained := true;
      assert requests == Apply(before, Drain).requests;
    }
  }
}
