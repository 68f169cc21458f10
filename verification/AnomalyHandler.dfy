/** test_main.AnomalyHandler and the engine loop as objects that the methods update in place. */
module AnomalyHandlerModule {
  import opened Wrappers
  import opened Mitigation
  import MitigationHandler
  import E = MitigationEngine

  /** The module-level `mitigation_lock`, with the source of fresh ids and the unanswered requests. */
  class Shared {
    var mitigationLock: bool
    var nextId: nat
    ghost var outstanding: map<nat, Request>

    constructor ()
      ensures View() == World(false, 0, map[])
    {
      mitigationLock, nextId, outstanding := false, 0, map[];
    }

    ghost function View(): World
      reads this
    {
      World(mitigationLock, nextId, outstanding)
    }
  }

  class AnomalyHandler {
    const shared: Shared
    const actions: seq<string>
    const runCnt: int
    const lockTimeout: int
    var runIndex: nat
    var runComplete: bool
    var index: nat
    var ctId: nat
    var anomalyId: Option<nat>
    var key: string
    var anomaly: Option<Anomaly>
    var context: map<string, string>
    var lock: Lock
    var lockExp: int
    ghost var trace: seq<Event>

    constructor (shared: Shared, name: string, bindings: seq<string>, runCnt: int, lockTimeout: int)
      ensures View() == NewHandler(name, bindings, runCnt, lockTimeout) && this.shared == shared
    {
      this.shared, actions, this.runCnt, this.lockTimeout := shared, [name] + bindings, runCnt, lockTimeout;
      runIndex, runComplete, index, ctId := 0, false, 0, 0;
      anomalyId, key, anomaly, context := None, "", None, map[];
      lock, lockExp, trace := NoLock, 0, [];
    }

    ghost function View(): Handler
      reads this
    {
      Handler(actions, runCnt, lockTimeout, runIndex, runComplete, index, ctId, anomalyId, key,
              anomaly, context, lock, lockExp, trace)
    }

    /** This handler and what all handlers share. */
    ghost function Both(): Turn
      reads this, shared
    {
      Turn(View(), shared.View())
    }

    method WriteRequest()
      requires index < |actions|
      modifies this, shared
      ensures Both() == Mitigation.WriteRequest(old(View()), old(shared.View()))
    {
      ctId := shared.nextId;
      shared.nextId := shared.nextId + 1;
      if anomalyId.None? {
        anomalyId := Some(ctId);
      }
      var req := Request(actions[index], ctId, anomalyId.value, key, context);
      shared.outstanding := shared.outstanding[ctId := req];
      trace := trace + [Requested(index, req, lock == Locked && shared.mitigationLock)];
    }

    method Start() returns (ok: bool)
      requires actions != []
      modifies this, shared
      ensures ok == !old(runComplete)
      ensures old(runComplete) ==> Both() == old(Both())
      ensures Both() == Mitigation.Start(old(View()), old(shared.View()))
    {
      if runComplete {
        return false;
      }
      Reset();
      WriteRequest();
      return true;
    }

    /** Each sequence begins at the anomaly action with nothing known. */
    method Reset()
      modifies this
      ensures View() == Mitigation.Reset(old(View()))
    {
      index, context, anomalyId, key, anomaly := 0, map[], None, "", None;
      trace := trace + [Started];
    }

    method Publish(state: State, code: int)
      modifies this
      ensures View() == Mitigation.Publish(old(View()), state, code)
    {
      anomaly := Some(Anomaly(state, code));
      trace := trace + [Published(state, code)];
    }

    /** `process_plugin_heartbeat`. */
    method ProcessHeartbeat(action: string, id: nat) returns (taken: bool)
      requires index < |actions|
      modifies this
      ensures taken == Matches(old(View()), action, id)
      ensures View() == Mitigation.ProcessHeartbeat(old(View()), action, id)
    {
      if action != actions[index] || id != ctId {
        return false;
      }
      if anomaly.None? {
        trace := trace + [Beat];
      } else {
        Publish(InProgress, anomaly.value.code);
      }
      return true;
    }

    /** `_manage_lock`: takes the lock if waited for and free, or releases it if held. */
    method ManageLock(acquire: bool, now: int) returns (done: bool)
      modifies this, shared
      ensures done == if acquire then CanAcquire(old(View()), old(shared.View())) else old(lock) == Locked
      ensures Both() ==
                if !acquire then Release(old(View()), old(shared.View()))
                else if done then Acquire(old(View()), old(shared.View()), now)
                else Turn(old(View()), old(shared.View()))
    {
      if acquire {
        if lock == Pending {
          if shared.mitigationLock {
            return false;
          }
          shared.mitigationLock := true;
          lockExp := now + lockTimeout;
          lock := Locked;
          trace := trace + [Granted(now)];
          return true;
        } else {
          return false;
        }
      } else if lock == Locked {
        shared.mitigationLock := false;
        lockExp := 0;
        lock := NoLock;
        return true;
      } else {
        return false;
      }
    }

    method Resume(now: int)
      requires index < |actions|
      modifies this, shared
      ensures Both() == Mitigation.Resume(old(View()), old(shared.View()), now)
    {
      var acquired := ManageLock(true, now);
      if acquired {
        WriteRequest();
      } else if lockExp != 0 && now > lockExp {
        var released := ManageLock(false, now);
        Publish(Timeout, MITIGATION_TIMEOUT);
      }
    }

    method Receive(r: Response)
      modifies this
      ensures View() == Mitigation.Receive(old(View()), r)
    {
      if key == "" {
        key := r.key;
      }
      trace := trace + [Answered(r)];
      if anomaly.None? {
        Publish(Init, r.code);
      } else {
        trace := trace + [Relayed];
      }
    }

    /** Whether the sequence is complete, and the code it ends with. */
    method Judge(code: int) returns (complete: bool, result: int)
      modifies this
      ensures (View(), if complete then Finished(result) else Continue) == Mitigation.Judge(old(View()), code)
    {
      complete, result := false, code;
      if code != 0 {
        complete := true;
      } else {
        index := index + 1;
        complete := index >= |actions|;
      }
      if !complete && index == 1 {
        if lock == Locked {
          result, complete := LOCK_BEFORE_START, true;
        } else {
          lock := Pending;
        }
      }
      if !complete && lock == NoLock {
        result, complete := LOCK_TIMED_OUT, true;
      }
    }

    method Close(code: int)
      modifies this, shared
      ensures Both() == Mitigation.Close(old(View()), old(shared.View()), code)
    {
      var result := if |actions| == 1 then NO_MITIGATION else code;
      var released := ManageLock(false, 0);
      Publish(Complete, result);
      runIndex := runIndex + 1;
      runComplete := runIndex >= runCnt;
    }

    method Finish(code: int)
      requires actions != []
      modifies this, shared
      ensures Both() == Mitigation.Finish(old(View()), old(shared.View()), code)
    {
      Close(code);
      if !runComplete {
        var started := Start();
      }
    }

    /** `process_plugin_response`: true when the response was taken and ended a sequence. */
    method ProcessResponse(r: Response, now: int) returns (ended: bool)
      requires index < |actions|
      modifies this, shared
      ensures ended == EndsSequence(old(View()), r)
      ensures Both() == Mitigation.ProcessResponse(old(View()), old(shared.View()), r, now)
    {
      var actionName := actions[index];
      if r.action != actionName || r.id != ctId {
        return false;
      }
      shared.outstanding := shared.outstanding - {r.id};
      Receive(r);
      var complete, result := Judge(r.code);
      if complete {
        Finish(result);
        return true;
      }
      context := context[actionName := r.data];
      if lock == Locked {
        WriteRequest();
      } else {
        Resume(now);
      }
      return false;
    }
  }

  // ---------- the loop ----------

  ghost function Views(hs: seq<AnomalyHandler>): (views: seq<Handler>)
    reads hs
    ensures |views| == |hs|
    ensures forall i :: 0 <= i < |hs| ==> views[i] == hs[i].View()
  {
    if hs == [] then [] else Views(hs[..|hs| - 1]) + [hs[|hs| - 1].View()]
  }

  ghost predicate Together(hs: seq<AnomalyHandler>, shared: Shared) {
    && (forall i :: 0 <= i < |hs| ==> hs[i].shared == shared)
    && (forall i, j :: 0 <= i < j < |hs| ==> hs[i] != hs[j])
  }

  ghost predicate Within(left: seq<AnomalyHandler>, hs: seq<AnomalyHandler>) {
    forall i :: 0 <= i < |left| ==> left[i] in hs
  }

  ghost function State(hs: seq<AnomalyHandler>, shared: Shared, dropped: seq<Handler>): E.Engine
    reads hs, shared
  {
    E.Engine(Views(hs), shared.View(), dropped)
  }

  ghost predicate InRange(hs: seq<AnomalyHandler>, from: nat)
    reads hs
  {
    forall i :: from <= i < |hs| ==> hs[i].index < |hs[i].actions|
  }

  method NewStarted(shared: Shared, c: E.Config) returns (h: AnomalyHandler)
    modifies shared
    ensures fresh(h) && h.shared == shared
    ensures h.Both() == Start(NewHandler(c.name, c.bindings, c.runCnt, c.lockTimeout), old(shared.View()))
  {
    h := new AnomalyHandler(shared, c.name, c.bindings, c.runCnt, c.lockTimeout);
    var started := h.Start();
  }

  method StartOne(hs: seq<AnomalyHandler>, shared: Shared, c: E.Config) returns (more: seq<AnomalyHandler>)
    requires Together(hs, shared)
    modifies shared
    ensures Together(more, shared) && hs <= more && fresh(more[|hs|..])
    ensures State(more, shared, []) == E.StartNext(old(State(hs, shared, [])), c)
  {
    ghost var views := Views(hs);
    var h := NewStarted(shared, c);
    more := hs + [h];
    assert Views(more) == views + [h.View()];
  }

  /** Constructs and starts one handler per configured anomaly, in order. */
  method StartHandlers(configs: seq<E.Config>) returns (hs: seq<AnomalyHandler>, shared: Shared)
    ensures fresh(shared) && fresh(hs) && Together(hs, shared)
    ensures State(hs, shared, []) == E.StartAll(configs)
  {
    shared := new Shared();
    hs := [];
    var i := 0;
    while i < |configs|
      invariant 0 <= i <= |configs|
      invariant fresh(shared) && fresh(hs) && Together(hs, shared)
      invariant State(hs, shared, []) == E.StartAll(configs[..i])
    {
      hs := StartOne(hs, shared, configs[i]);
      E.StartOneMore(configs, i);
      i := i + 1;
    }
    assert configs[..i] == configs;
  }

  /** Handler i's turn in the sweep. */
  method ResumeOne(hs: seq<AnomalyHandler>, shared: Shared, i: nat, now: int, ghost dropped: seq<Handler>)
    requires Together(hs, shared) && i < |hs| && hs[i].index < |hs[i].actions|
    modifies hs[i], shared
    ensures State(hs, shared, dropped) ==
              E.Replace(old(State(hs, shared, dropped)), i, Resume(old(hs[i].View()), old(shared.View()), now))
  {
    ghost var e := State(hs, shared, dropped);
    hs[i].Resume(now);
    assert Views(hs) == e.handlers[i := hs[i].View()];
  }

  /** The resume sweep at the end of each pass of the loop. */
  method Sweep(hs: seq<AnomalyHandler>, shared: Shared, clock: seq<int>, ghost dropped: seq<Handler>)
    requires Together(hs, shared) && |clock| == |hs| && InRange(hs, 0)
    modifies hs, shared
    ensures State(hs, shared, dropped) == E.Sweep(old(State(hs, shared, dropped)), 0, clock)
  {
    var i := 0;
    while i < |hs|
      invariant 0 <= i <= |hs|
      invariant InRange(hs, i)
      invariant E.Sweep(State(hs, shared, dropped), i, clock) == E.Sweep(old(State(hs, shared, dropped)), 0, clock)
    {
      ResumeOne(hs, shared, i, clock[i], dropped);
      i := i + 1;
    }
  }

  /** Handler i is asked whether it takes the response. */
  method OfferOne(hs: seq<AnomalyHandler>, shared: Shared, i: nat, r: Response, now: int, ghost dropped: seq<Handler>)
    returns (ended: bool)
    requires Together(hs, shared) && i < |hs| && hs[i].index < |hs[i].actions|
    modifies hs[i], shared
    ensures ended == EndsSequence(old(hs[i].View()), r)
    ensures State(hs, shared, dropped) ==
              E.Replace(old(State(hs, shared, dropped)), i, ProcessResponse(old(hs[i].View()), old(shared.View()), r, now))
  {
    ghost var e := State(hs, shared, dropped);
    ended := hs[i].ProcessResponse(r, now);
    assert Views(hs) == e.handlers[i := hs[i].View()];
  }

  /** `test_anomalies.pop` on a handler that is done. */
  method DropIfDone(hs: seq<AnomalyHandler>, shared: Shared, i: nat, ghost before: seq<Handler>)
    returns (left: seq<AnomalyHandler>, ghost dropped: seq<Handler>)
    requires Together(hs, shared) && i < |hs|
    ensures Together(left, shared) && Within(left, hs)
    ensures State(left, shared, dropped) ==
              if hs[i].runComplete then E.Drop(State(hs, shared, before), i) else State(hs, shared, before)
  {
    if !hs[i].runComplete {
      return hs, before;
    }
    left := hs[..i] + hs[i + 1..];
    dropped := before + [hs[i].View()];
    assert Views(left) == Views(hs)[..i] + Views(hs)[i + 1..];
  }

  /** Offers a response to the handlers in order until one, at position `at`, says that it ended a sequence. */
  method OfferInOrder(hs: seq<AnomalyHandler>, shared: Shared, r: Response, now: int, ghost dropped: seq<Handler>)
    returns (at: nat)
    requires Together(hs, shared) && InRange(hs, 0)
    modifies hs, shared
    ensures at <= |hs|
    ensures E.OfferResponse(old(State(hs, shared, dropped)), 0, r, now) ==
              if at < |hs| && hs[at].runComplete then E.Drop(State(hs, shared, dropped), at) else State(hs, shared, dropped)
  {
    at := 0;
    while at < |hs|
      invariant at <= |hs|
      invariant InRange(hs, at)
      invariant E.OfferResponse(State(hs, shared, dropped), at, r, now) == E.OfferResponse(old(State(hs, shared, dropped)), 0, r, now)
    {
      var ended := OfferOne(hs, shared, at, r, now, dropped);
      if ended {
        return;
      }
      at := at + 1;
    }
  }

  method OfferResponse(hs: seq<AnomalyHandler>, shared: Shared, r: Response, now: int, ghost before: seq<Handler>)
    returns (left: seq<AnomalyHandler>, ghost dropped: seq<Handler>)
    requires Together(hs, shared) && InRange(hs, 0)
    modifies hs, shared
    ensures Together(left, shared) && Within(left, hs)
    ensures State(left, shared, dropped) == E.OfferResponse(old(State(hs, shared, before)), 0, r, now)
  {
    ghost var expected := E.OfferResponse(State(hs, shared, before), 0, r, now);
    var at := OfferInOrder(hs, shared, r, now, before);
    if at < |hs| {
      left, dropped := DropIfDone(hs, shared, at, before);
    } else {
      left, dropped := hs, before;
    }
    assert State(left, shared, dropped) == expected;
  }

  method BeatOne(hs: seq<AnomalyHandler>, shared: Shared, i: nat, action: string, id: nat, ghost dropped: seq<Handler>)
    returns (taken: bool)
    requires Together(hs, shared) && i < |hs| && hs[i].index < |hs[i].actions|
    modifies hs[i]
    ensures taken == Matches(old(hs[i].View()), action, id)
    ensures State(hs, shared, dropped) ==
              if taken then E.Beat(old(State(hs, shared, dropped)), i, action, id) else old(State(hs, shared, dropped))
  {
    ghost var views := Views(hs);
    taken := hs[i].ProcessHeartbeat(action, id);
    assert Views(hs) == views[i := hs[i].View()];
  }

  /** Offers a heartbeat to the handlers in order until one takes it. */
  method OfferHeartbeat(hs: seq<AnomalyHandler>, shared: Shared, action: string, id: nat, ghost dropped: seq<Handler>)
    requires Together(hs, shared) && InRange(hs, 0)
    modifies hs
    ensures State(hs, shared, dropped) == E.OfferHeartbeat(old(State(hs, shared, dropped)), 0, action, id)
  {
    var i := 0;
    while i < |hs|
      invariant 0 <= i <= |hs|
      invariant InRange(hs, i)
      invariant E.OfferHeartbeat(State(hs, shared, dropped), i, action, id) ==
                E.OfferHeartbeat(old(State(hs, shared, dropped)), 0, action, id)
    {
      var taken := BeatOne(hs, shared, i, action, id, dropped);
      if taken {
        return;
      }
      i := i + 1;
    }
  }

  lemma EngineInRange(hs: seq<AnomalyHandler>, shared: Shared, dropped: seq<Handler>)
    requires E.EngineInv(State(hs, shared, dropped))
    ensures InRange(hs, 0)
  {
    forall i | 0 <= i < |hs| ensures hs[i].index < |hs[i].actions|
    {
      assert MitigationHandler.Running(Views(hs)[i]);
    }
  }

  method Dispatch(hs: seq<AnomalyHandler>, shared: Shared, m: E.Message, ghost before: seq<Handler>)
    returns (left: seq<AnomalyHandler>, ghost dropped: seq<Handler>)
    requires Together(hs, shared) && InRange(hs, 0)
    modifies hs, shared
    ensures Together(left, shared) && Within(left, hs)
    ensures State(left, shared, dropped) == E.Dispatch(old(State(hs, shared, before)), m)
  {
    left, dropped := hs, before;
    match m {
      case Quiet =>
      case Heartbeat(action, id) =>
        OfferHeartbeat(hs, shared, action, id, before);
      case Answer(r, now) =>
        left, dropped := OfferResponse(hs, shared, r, now, before);
    }
  }

  /** One pass of the loop: offer the message, then sweep. */
  method RunPass(hs: seq<AnomalyHandler>, shared: Shared, pass: E.Pass, ghost before: seq<Handler>)
    returns (left: seq<AnomalyHandler>, ghost dropped: seq<Handler>)
    requires Together(hs, shared) && E.EngineInv(State(hs, shared, before))
    requires E.Possible(State(hs, shared, before), pass)
    modifies hs, shared
    ensures Together(left, shared) && Within(left, hs)
    ensures State(left, shared, dropped) == E.RunPass(old(State(hs, shared, before)), pass)
    ensures E.EngineInv(State(left, shared, dropped))
  {
    EngineInRange(hs, shared, before);
    E.PassKeepsInv(State(hs, shared, before), pass);
    E.DispatchKeepsInv(State(hs, shared, before), pass);
    left, dropped := Dispatch(hs, shared, pass.message, before);
    EngineInRange(left, shared, dropped);
    Sweep(left, shared, pass.clock, dropped);
  }

  /**
    The loop: one pass after another while a handler is tracked.  The passes are what the clients
    and the clock do; they can happen if they lead from the present state to some `end`.
   */
  method RunLoop(hs: seq<AnomalyHandler>, shared: Shared, passes: seq<E.Pass>, ghost before: seq<Handler>, ghost end: E.Engine)
    returns (left: seq<AnomalyHandler>, ghost dropped: seq<Handler>)
    requires Together(hs, shared) && E.EngineInv(State(hs, shared, before))
    requires E.Reaches(State(hs, shared, before), passes, end)
    modifies hs, shared
    ensures Together(left, shared) && State(left, shared, dropped) == end
  {
    left, dropped := hs, before;
    var rest := passes;
    while rest != [] && left != []
      invariant Together(left, shared) && Within(left, hs) && E.EngineInv(State(left, shared, dropped))
      invariant E.Reaches(State(left, shared, dropped), rest, end)
      decreases |rest|
    {
      E.FirstPass(State(left, shared, dropped), rest, end);
      left, dropped := RunPass(left, shared, rest[0], dropped);
      rest := rest[1..];
    }
    if left == [] {
      E.NothingLeftToDo(State(left, shared, dropped), rest, end);
    }
  }
}
