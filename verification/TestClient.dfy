/**
  The client side of test_client: the one-slot look-ahead `th_local.req` in front of the ring, and
  the broadcast of `server_write_request`.
 */
module TestClient {
  import opened Wrappers
  import opened Messages
  import opened SignalRing
  import opened CacheDataModule
  import opened Delivery

  /** How `clib_poll_for_data` ends: -1, a plugin's descriptor, -2, or the loop left by a shutdown. */
  datatype PollResult = RequestPending | PluginReady(fd: int) | TimedOut | Stopped

  /** How many rounds of at most two seconds a timeout allows; at least one. */
  function RoundsFor(timeout: nat): nat {
    if timeout == 0 then 1 else (timeout + 1) / 2
  }

  /** The selects from one to before another found nothing. */
  predicate Quiet(selects: seq<seq<int>>, from: nat, to: nat) {
    from <= to <= |selects| && forall k :: from <= k < to ==> selects[k] == []
  }

  /** One `_poll`: the first select that finds something, or nothing for as long as the timeout allows. */
  predicate Polled(selects: seq<seq<int>>, from: nat, timeout: int, ready: seq<int>, next: nat) {
    && from <= next <= |selects|
    && (from < |selects| ==> from < next)
    && (ready != [] ==> next > from && ready == selects[next - 1])
    && Quiet(selects, from, if ready == [] then next else next - 1)
    && (timeout >= 0 ==> next - from <= RoundsFor(timeout))
    && (ready == [] && next < |selects| ==> timeout >= 0 && next - from == RoundsFor(timeout))
  }

  /**
    `_poll`.  `selects` is what successive selects return, each after at most two seconds, and `from`
    the next one; when they are used up shutdown is seen.
   */
  method Poll(selects: seq<seq<int>>, from: nat, timeout: int) returns (ready: seq<int>, next: nat)
    requires from <= |selects|
    ensures Polled(selects, from, timeout, ready, next)
  {
    var left := timeout;
    next := from;
    while next < |selects|
      invariant from <= next <= |selects|
      invariant forall k :: from <= k < next ==> selects[k] == []
      invariant timeout < 0 ==> left == timeout
      invariant timeout >= 0 && next > from ==> left > 0 && left == timeout - 2 * (next - from)
      invariant next == from ==> left == timeout
    {
      var wait := 2;
      if left >= 0 {
        if left < wait {
          wait := left;
        }
        left := left - wait;
      }
      next := next + 1;
      if selects[next - 1] != [] {
        return selects[next - 1], next;
      }
      if left == 0 {
        return [], next;
      }
    }
    ready := [];
  }

  /** Whatever the first n selects found ready had the signal's descriptor in it. */
  predicate NoPlugin(selects: seq<seq<int>>, signalFd: int, n: nat)
    requires n <= |selects|
  {
    forall k :: 0 <= k < n ==> selects[k] == [] || signalFd in selects[k]
  }

  /** Among the first n selects a positive timeout was never used up. */
  predicate InTime(selects: seq<seq<int>>, timeout: int, n: nat) {
    timeout > 0 ==> forall i: nat, j: nat :: Quiet(selects, i, j) && j <= n ==> j - i < RoundsFor(timeout)
  }

  predicate Signalled(selects: seq<seq<int>>, signalFd: int, n: nat)
    requires n <= |selects|
  {
    exists k :: 0 <= k < n && signalFd in selects[k]
  }

  /** How the selects decide a poll: its answer comes with select number `used`, and none before decided. */
  predicate Decided(selects: seq<seq<int>>, signalFd: int, timeout: int, result: PollResult, used: nat)
    requires used <= |selects|
  {
    match result
    case PluginReady(fd) =>
      && used > 0 && NoPlugin(selects, signalFd, used - 1) && InTime(selects, timeout, used - 1)
      && selects[used - 1] != [] && selects[used - 1][0] == fd && signalFd !in selects[used - 1]
    case RequestPending =>
      && used > 0 && NoPlugin(selects, signalFd, used) && InTime(selects, timeout, used - 1)
      && signalFd in selects[used - 1]
    case TimedOut =>
      && used > 0 && NoPlugin(selects, signalFd, used) && InTime(selects, timeout, used - 1)
      && timeout > 0 && selects[used - 1] == []
      && (used == |selects| || !InTime(selects, timeout, used))
    case Stopped =>
      used == |selects| && Undecided(selects, signalFd, timeout, used)
  }

  /** The selects so far have decided nothing. */
  predicate Undecided(selects: seq<seq<int>>, signalFd: int, timeout: int, used: nat)
    requires used <= |selects|
  {
    && NoPlugin(selects, signalFd, used)
    && InTime(selects, timeout, used)
    && (timeout > 0 && used > 0 ==> selects[used - 1] != [])
  }

  /** A stretch of quiet selects that begins after one that was not quiet, or at the start. */
  lemma StretchInTime(selects: seq<seq<int>>, timeout: int, used: nat, after: nat)
    requires timeout > 0 && used < after <= |selects| && after - used <= RoundsFor(timeout)
    requires InTime(selects, timeout, used) && (used > 0 ==> selects[used - 1] != [])
    ensures InTime(selects, timeout, after - 1)
  {
    forall i: nat, j: nat | Quiet(selects, i, j) && j <= after - 1 ensures j - i < RoundsFor(timeout)
    {
      assert j <= used || i >= used;
    }
  }

  lemma BusySelectInTime(selects: seq<seq<int>>, timeout: int, after: nat)
    requires 0 < after <= |selects| && selects[after - 1] != [] && InTime(selects, timeout, after - 1)
    ensures InTime(selects, timeout, after)
  {
    if timeout > 0 {
      forall i: nat, j: nat | Quiet(selects, i, j) && j <= after ensures j - i < RoundsFor(timeout)
      {
        assert j <= after - 1 || i >= after;
      }
    }
  }

  lemma PollInTime(selects: seq<seq<int>>, signalFd: int, timeout: int, used: nat, ready: seq<int>, after: nat)
    requires used < |selects| && Undecided(selects, signalFd, timeout, used) && Polled(selects, used, timeout, ready, after)
    ensures InTime(selects, timeout, after - 1)
    ensures NoPlugin(selects, signalFd, after - 1)
    ensures ready == [] ==> NoPlugin(selects, signalFd, after)
  {
    if timeout > 0 {
      StretchInTime(selects, timeout, used, after);
    }
  }

  lemma ReadyDecides(selects: seq<seq<int>>, signalFd: int, timeout: int, used: nat, ready: seq<int>, after: nat)
    requires used < |selects| && Undecided(selects, signalFd, timeout, used) && Polled(selects, used, timeout, ready, after)
    requires ready != []
    ensures signalFd !in ready ==> Decided(selects, signalFd, timeout, PluginReady(ready[0]), after)
    ensures signalFd in ready ==>
              Decided(selects, signalFd, timeout, RequestPending, after) && Undecided(selects, signalFd, timeout, after)
  {
    PollInTime(selects, signalFd, timeout, used, ready, after);
    BusySelectInTime(selects, timeout, after);
  }

  lemma NothingDecides(selects: seq<seq<int>>, signalFd: int, timeout: int, used: nat, after: nat)
    requires used < |selects| && Undecided(selects, signalFd, timeout, used) && Polled(selects, used, timeout, [], after)
    ensures timeout > 0 ==> Decided(selects, signalFd, timeout, TimedOut, after)
    ensures timeout <= 0 ==> Undecided(selects, signalFd, timeout, after)
  {
    PollInTime(selects, signalFd, timeout, used, [], after);
    assert Quiet(selects, used, after);
  }

  lemma SignalsAdd(selects: seq<seq<int>>, signalFd: int, used: nat, ready: seq<int>, after: nat, timeout: int)
    requires used < |selects| && Polled(selects, used, timeout, ready, after)
    ensures Signalled(selects, signalFd, after) <==> Signalled(selects, signalFd, used) || signalFd in ready
  {
    if signalFd in ready {
      assert signalFd in selects[after - 1];
    }
  }

  class Client {
    const cache: CacheData // server to client
    const actions: seq<string>
    var req: Option<Message>
    ghost var delivered: seq<Message>

    constructor (cache: CacheData, actions: seq<string>)
      requires cache.Valid() && cache.reader.ReaderIdle? && cache.returned == []
      ensures Valid() && this.cache == cache && this.actions == actions
      ensures req == None && delivered == []
    {
      this.cache, this.actions := cache, actions;
      req, delivered := None, [];
    }

    ghost function Slot(): seq<Message>
      reads this
    {
      if req.Some? then [req.value] else []
    }

    ghost predicate Valid()
      reads this, cache
    {
      && cache.Valid()
      && cache.reader.ReaderIdle?
      && cache.returned <= cache.accepted
      && delivered + Slot() == Mine(actions, cache.returned)
    }

    /** `_read_req`: fills the slot unless it is taken; a request of no concern is dropped. */
    method ReadReq(timeout: int, rounds: nat) returns (ok: bool)
      requires Valid()
      modifies this`req, cache
      ensures Valid() && ok == req.Some?
      ensures old(req).Some? ==> req == old(req) && cache.returned == old(cache.returned)
      ensures old(cache.accepted) <= cache.accepted
      ensures old(cache.returned) <= cache.returned && |cache.returned| <= |old(cache.returned)| + 1
      ensures old(req).None? ==>
                req == if |cache.returned| == |old(cache.returned)| then None
                       else Taken(actions, cache.returned[|cache.returned| - 1])
      ensures old(req).None? && cache.returned == old(cache.returned) ==> cache.WasEmpty(|old(cache.moves)|)
      ensures old(cache.moves) <= cache.moves
    {
      if req.Some? {
        return true;
      }
      var found, items := cache.Read(timeout, rounds);
      if !found {
        assert cache.returned == old(cache.returned);
        return false;
      }
      var m := items[0];
      MineOne(actions, old(cache.returned), m);
      if !m.Single? || m.key != REQ_ACTION_REQUEST {
        return false;
      }
      if m.body.requestType != REQ_ACTION_TYPE_SHUTDOWN && m.body.actionName !in actions {
        return false;
      }
      req := Some(m);
      return true;
    }

    /** `clib_read_action_request`: hands out the slot. */
    method ReadActionRequest(timeout: int, rounds: nat) returns (answer: Option<Message>)
      requires Valid()
      modifies this, cache
      ensures Valid() && req == None
      ensures delivered == old(delivered) + (if answer.Some? then [answer.value] else [])
      ensures old(req).Some? ==> answer == old(req)
      ensures old(req).None? && cache.returned == old(cache.returned) ==> cache.WasEmpty(|old(cache.moves)|)
      ensures old(cache.accepted) <= cache.accepted
    {
      var ok := ReadReq(timeout, rounds);
      if !ok {
        return None;
      }
      answer := req;
      delivered := delivered + [req.value];
      req := None;
    }

    /**
      `clib_poll_for_data`, with the signal descriptor among those selected.  A poll never hands out a
      request, it only moves one into the slot.  `used` counts the selects it took.
     */
    method PollForData(selects: seq<seq<int>>, signalFd: int, timeout: int)
      returns (result: PollResult, used: nat)
      requires Valid()
      modifies this`req, cache
      ensures Valid() && used <= |selects|
      ensures Decided(selects, signalFd, timeout, result, used)
      ensures Signalled(selects, signalFd, used) ==> (result == RequestPending <==> req.Some?)
      ensures !Signalled(selects, signalFd, used) ==> req == old(req)
      ensures Signalled(selects, signalFd, used) && old(req).None? && cache.returned == old(cache.returned) ==>
                cache.WasEmpty(|old(cache.moves)|)
      ensures old(req).Some? ==> req == old(req)
      ensures old(cache.accepted) <= cache.accepted
    {
      used := 0;
      while used < |selects|
        invariant 0 <= used <= |selects|
        invariant Valid()
        invariant Undecided(selects, signalFd, timeout, used)
        invariant if Signalled(selects, signalFd, used) then req.None? else req == old(req)
        invariant old(req).Some? ==> req == old(req)
        invariant old(cache.accepted) <= cache.accepted
        invariant old(cache.moves) <= cache.moves && old(cache.returned) <= cache.returned
        invariant Signalled(selects, signalFd, used) && old(req).None? && cache.returned == old(cache.returned) ==>
                    cache.WasEmpty(|old(cache.moves)|)
        decreases |selects| - used
      {
        var ready, after := Poll(selects, used, timeout);
        SignalsAdd(selects, signalFd, used, ready, after, timeout);
        if ready != [] {
          ReadyDecides(selects, signalFd, timeout, used, ready, after);
          if signalFd !in ready {
            return PluginReady(ready[0]), after;
          }
          var ok := ReadReq(0, 0);
          if req.Some? {
            return RequestPending, after;
          }
        } else {
          NothingDecides(selects, signalFd, timeout, used, after);
          if timeout > 0 {
            return TimedOut, after;
          }
        }
        used := after;
      }
      return Stopped, used;
    }

    /** Nothing addressed to this client is lost, repeated or reordered on its way through the slot. */
    lemma LookAhead()
      requires Valid()
      ensures delivered + Slot() + Mine(actions, cache.accepted[|cache.returned|..]) == Mine(actions, cache.accepted)
      ensures delivered <= Mine(actions, cache.accepted)
    {
      MineConcat(actions, cache.returned, cache.accepted[|cache.returned|..]);
      assert cache.accepted == cache.returned + cache.accepted[|cache.returned|..];
    }
  }

  ghost predicate AllReady(services: seq<CacheData>)
    reads services
  {
    forall i :: 0 <= i < |services| ==> services[i].Valid() && services[i].writer.WriterIdle?
  }

  /** A ring that took m at the end of `before`, or left it out because it was full since move `from`. */
  ghost predicate TookOrFull(cache: CacheData, before: seq<Message>, from: nat, m: Message)
    reads cache
  {
    cache.accepted == before + [m] || (cache.accepted == before && cache.WasFull(from))
  }

  /** The write into one client's ring. */
  method WriteToClient(cache: CacheData, m: Message)
    requires cache.Valid() && cache.writer.WriterIdle?
    modifies cache
    ensures cache.Valid() && cache.writer.WriterIdle?
    ensures TookOrFull(cache, old(cache.accepted), |old(cache.moves)|, m)
  {
    var room := cache.Write(m);
  }

  /** `server_write_request`: one write into every client's ring, whether or not it has room. */
  method ServerWriteRequest(services: seq<CacheData>, m: Message) returns (ok: bool)
    requires forall i, j :: 0 <= i < j < |services| ==> services[i] != services[j]
    requires AllReady(services)
    modifies services
    ensures AllReady(services)
    ensures ok == (m.Single? && m.key == "action_request")
    ensures ok ==> forall i :: 0 <= i < |services| ==>
              TookOrFull(services[i], old(services[i].accepted), |old(services[i].moves)|, m)
    ensures !ok ==> unchanged(services)
  {
    if !m.Single? || m.key != REQ_ACTION_REQUEST {
      return false;
    }
    var n := 0;
    while n < |services|
      invariant 0 <= n <= |services|
      invariant AllReady(services)
      invariant forall i :: 0 <= i < n ==>
                  TookOrFull(services[i], old(services[i].accepted), |old(services[i].moves)|, m)
      invariant forall i :: n <= i < |services| ==> unchanged(services[i])
    {
      WriteToClient(services[n], m);
      n := n + 1;
    }
    return true;
  }
}
