/**
  The engine loop of test_main.run_a_testcase: one message offered to the handlers in order, then a
  resume sweep over all of them; and the invariant that every such run keeps.
 */
module MitigationEngine {
  import opened Mitigation
  import opened MitigationHandler

  /** The tracked handlers in dictionary order; `dropped` remembers those that are done. */
  datatype Engine = Engine(handlers: seq<Handler>, world: World, dropped: seq<Handler>)

  datatype Config = Config(name: string, bindings: seq<string>, runCnt: int, lockTimeout: int)

  datatype Message = Quiet | Heartbeat(action: string, id: nat) | Answer(resp: Response, now: int)

  /** One pass of the loop: what was read, and the clock each handler's `resume` sees. */
  datatype Pass = Pass(message: Message, clock: seq<int>)

  function StartNext(e: Engine, c: Config): Engine {
    var t := Start(NewHandler(c.name, c.bindings, c.runCnt, c.lockTimeout), e.world);
    Engine(e.handlers + [t.h], t.w, [])
  }

  function StartAll(configs: seq<Config>): Engine {
    if configs == [] then Engine([], World(false, 0, map[]), [])
    else StartNext(StartAll(configs[..|configs| - 1]), configs[|configs| - 1])
  }

  lemma StartOneMore(configs: seq<Config>, i: nat)
    requires i < |configs|
    ensures StartAll(configs[..i + 1]) == StartNext(StartAll(configs[..i]), configs[i])
  {
    assert configs[..i + 1][..i] == configs[..i];
  }

  /** Handler i has taken its turn. */
  function Replace(e: Engine, i: nat, t: Turn): Engine
    requires i < |e.handlers|
  {
    Engine(e.handlers[i := t.h], t.w, e.dropped)
  }

  /** Handler i has finished its last run and is no longer tracked. */
  function Drop(e: Engine, i: nat): Engine
    requires i < |e.handlers|
  {
    Engine(e.handlers[..i] + e.handlers[i + 1..], e.world, e.dropped + [e.handlers[i]])
  }

  /** Offers a response to handlers i, i+1, ... until one answers true. */
  function OfferResponse(e: Engine, i: nat, r: Response, now: int): Engine
    requires i <= |e.handlers|
    decreases |e.handlers| - i
  {
    if i == |e.handlers| then e
    else
      var t := ProcessResponse(e.handlers[i], e.world, r, now);
      var e1 := Replace(e, i, t);
      if !EndsSequence(e.handlers[i], r) then OfferResponse(e1, i + 1, r, now)
      else if t.h.runComplete then Drop(e1, i)
      else e1
  }

  /** Handler i publishes the heartbeat. */
  function Beat(e: Engine, i: nat, action: string, id: nat): Engine
    requires i < |e.handlers|
  {
    e.(handlers := e.handlers[i := ProcessHeartbeat(e.handlers[i], action, id)])
  }

  function OfferHeartbeat(e: Engine, i: nat, action: string, id: nat): Engine
    requires i <= |e.handlers|
    decreases |e.handlers| - i
  {
    if i == |e.handlers| then e
    else if Matches(e.handlers[i], action, id) then Beat(e, i, action, id)
    else OfferHeartbeat(e, i + 1, action, id)
  }

  function Dispatch(e: Engine, m: Message): Engine {
    match m
    case Quiet => e
    case Heartbeat(action, id) => OfferHeartbeat(e, 0, action, id)
    case Answer(r, now) => OfferResponse(e, 0, r, now)
  }

  /** `resume` on handlers i, i+1, ... */
  function Sweep(e: Engine, i: nat, clock: seq<int>): Engine
    requires i <= |e.handlers| == |clock|
    decreases |e.handlers| - i
  {
    if i == |e.handlers| then e
    else
      var h := e.handlers[i];
      var t := if InSequence(h) then Resume(h, e.world, clock[i]) else Turn(h, e.world);
      Sweep(Replace(e, i, t), i + 1, clock)
  }

  /** Clients answer only what is outstanding, and name the action that was asked for. */
  predicate Answers(w: World, r: Response) {
    r.id in w.outstanding && w.outstanding[r.id].action == r.action
  }

  predicate Possible(e: Engine, p: Pass) {
    && (p.message.Answer? ==> Answers(e.world, p.message.resp))
    && |p.clock| == |Dispatch(e, p.message).handlers|
  }

  function RunPass(e: Engine, p: Pass): Engine
    requires Possible(e, p)
  {
    Sweep(Dispatch(e, p.message), 0, p.clock)
  }

  predicate Reaches(e: Engine, ps: seq<Pass>, e': Engine)
    decreases |ps|
  {
    if ps == [] then e' == e
    else Possible(e, ps[0]) && Reaches(RunPass(e, ps[0]), ps[1..], e')
  }

  lemma FirstPass(e: Engine, ps: seq<Pass>, e': Engine)
    requires ps != [] && Reaches(e, ps, e')
    ensures Possible(e, ps[0]) && Reaches(RunPass(e, ps[0]), ps[1..], e')
  {
  }

  // ---------- the invariant ----------

  ghost predicate EachRuns(hs: seq<Handler>, w: World) {
    forall i :: 0 <= i < |hs| ==> Running(hs[i]) && Fits(hs[i], w)
  }

  /** The lock is taken exactly when some handler is Locked, and by one handler only. */
  ghost predicate Exclusive(hs: seq<Handler>, w: World) {
    && (w.lock <==> exists i :: 0 <= i < |hs| && hs[i].lock == Locked)
    && (forall i, j :: 0 <= i < j < |hs| ==> hs[i].lock != Locked || hs[j].lock != Locked)
  }

  ghost predicate OwnIds(hs: seq<Handler>) {
    forall i, j :: 0 <= i < j < |hs| ==> hs[i].ctId != hs[j].ctId
  }

  /** Every outstanding request was written by a tracked handler. */
  ghost predicate Owned(hs: seq<Handler>, w: World) {
    forall id :: id in w.outstanding ==> exists i :: 0 <= i < |hs| && hs[i].ctId == id
  }

  ghost predicate AllDone(hs: seq<Handler>) {
    forall i :: 0 <= i < |hs| ==> Done(hs[i])
  }

  ghost predicate EngineInv(e: Engine) {
    && EachRuns(e.handlers, e.world)
    && Exclusive(e.handlers, e.world)
    && OwnIds(e.handlers)
    && Owned(e.handlers, e.world)
    && AllDone(e.dropped)
  }

  lemma TurnIds(hs: seq<Handler>, w: World, i: nat, t: Turn)
    requires i < |hs| && EachRuns(hs, w) && OwnIds(hs) && IdStep(hs[i], w, t)
    ensures OwnIds(hs[i := t.h])
  {
  }

  lemma TurnExclusive(hs: seq<Handler>, w: World, i: nat, t: Turn)
    requires i < |hs| && Exclusive(hs, w) && LockStep(hs[i], w, t)
    ensures Exclusive(hs[i := t.h], t.w)
  {
    var hs' := hs[i := t.h];
    assert forall j :: 0 <= j < |hs| && j != i ==> hs'[j] == hs[j];
    if t.w.lock {
      if w.lock && t.h.lock != Locked {
        var k :| 0 <= k < |hs| && hs[k].lock == Locked;
        assert hs'[k].lock == Locked;
      } else {
        assert hs'[i].lock == Locked;
      }
    }
  }

  lemma TurnOwned(hs: seq<Handler>, w: World, i: nat, t: Turn)
    requires i < |hs| && Owned(hs, w) && RequestStep(hs[i], w, t)
    ensures Owned(hs[i := t.h], t.w)
  {
    var hs' := hs[i := t.h];
    forall id | id in t.w.outstanding ensures exists j :: 0 <= j < |hs'| && hs'[j].ctId == id
    {
      if id == t.h.ctId {
        assert hs'[i].ctId == id;
      } else {
        var k :| 0 <= k < |hs| && hs[k].ctId == id;
        assert hs'[k].ctId == id;
      }
    }
  }

  lemma TurnFits(hs: seq<Handler>, w: World, i: nat, t: Turn, j: nat)
    requires i < |hs| && j < |hs| && i != j && EachRuns(hs, w) && OwnIds(hs)
    requires hs[i].lock != Locked || hs[j].lock != Locked
    requires SharedStep(hs[i], w, t)
    ensures Fits(hs[j], t.w)
  {
    assert hs[i].ctId != hs[j].ctId;
  }

  lemma TurnKeepsInv(e: Engine, i: nat, t: Turn)
    requires EngineInv(e) && i < |e.handlers|
    requires SharedStep(e.handlers[i], e.world, t) && Running(t.h)
    ensures EngineInv(Replace(e, i, t))
  {
    TurnIds(e.handlers, e.world, i, t);
    TurnExclusive(e.handlers, e.world, i, t);
    TurnOwned(e.handlers, e.world, i, t);
    var hs := e.handlers[i := t.h];
    forall j | 0 <= j < |hs| ensures Running(hs[j]) && Fits(hs[j], t.w)
    {
      if j != i {
        TurnFits(e.handlers, e.world, i, t, j);
      }
    }
  }

  lemma DropExclusive(hs: seq<Handler>, w: World, i: nat)
    requires i < |hs| && Exclusive(hs, w) && hs[i].lock != Locked
    ensures Exclusive(hs[..i] + hs[i + 1..], w)
  {
    var hs' := hs[..i] + hs[i + 1..];
    if w.lock {
      var k :| 0 <= k < |hs| && hs[k].lock == Locked;
      assert hs'[if k < i then k else k - 1] == hs[k];
    }
  }

  lemma DropOwned(hs: seq<Handler>, w: World, i: nat)
    requires i < |hs| && Owned(hs, w) && hs[i].ctId !in w.outstanding
    ensures Owned(hs[..i] + hs[i + 1..], w)
  {
    var hs' := hs[..i] + hs[i + 1..];
    forall id | id in w.outstanding ensures exists j :: 0 <= j < |hs'| && hs'[j].ctId == id
    {
      var k :| 0 <= k < |hs| && hs[k].ctId == id;
      assert hs'[if k < i then k else k - 1] == hs[k];
    }
  }

  lemma DropIds(hs: seq<Handler>, i: nat)
    requires i < |hs| && OwnIds(hs)
    ensures OwnIds(hs[..i] + hs[i + 1..])
  {
  }

  lemma DropRuns(hs: seq<Handler>, w: World, i: nat, t: Turn)
    requires i < |hs| && EachRuns(hs, w) && OwnIds(hs) && Exclusive(hs, w) && SharedStep(hs[i], w, t)
    ensures EachRuns(hs[..i] + hs[i + 1..], t.w)
  {
    var hs' := hs[..i] + hs[i + 1..];
    forall j | 0 <= j < |hs'| ensures Running(hs'[j]) && Fits(hs'[j], t.w)
    {
      var k := if j < i then j else j + 1;
      assert hs'[j] == hs[k];
      TurnFits(hs, w, i, t, k);
    }
  }

  /** Dropping a finished handler strands neither the lock nor a request. */
  lemma DropKeepsInv(e: Engine, i: nat, t: Turn)
    requires EngineInv(e) && i < |e.handlers|
    requires SharedStep(e.handlers[i], e.world, t) && Done(t.h)
    ensures EngineInv(Drop(Replace(e, i, t), i))
  {
    var hs := e.handlers[i := t.h];
    TurnIds(e.handlers, e.world, i, t);
    TurnExclusive(e.handlers, e.world, i, t);
    TurnOwned(e.handlers, e.world, i, t);
    DropIds(hs, i);
    DropExclusive(hs, t.w, i);
    DropOwned(hs, t.w, i);
    DropRuns(e.handlers, e.world, i, t);
    assert hs[..i] == e.handlers[..i] && hs[i + 1..] == e.handlers[i + 1..];
  }

  // ---------- every pass keeps it ----------

  /** Handlers i, i+1, ... are still to be asked; one that would take the response waits for it. */
  ghost predicate StillAwaited(e: Engine, i: nat, r: Response) {
    forall j :: i <= j < |e.handlers| && Matches(e.handlers[j], r.action, r.id) ==> Awaits(e.handlers[j])
  }

  /** Handler i takes the response: it stays, or it is done and dropped. */
  function Served(e: Engine, i: nat, r: Response, now: int): Engine
    requires i < |e.handlers| && Matches(e.handlers[i], r.action, r.id)
  {
    var t := Respond(e.handlers[i], e.world, r, now);
    if t.h.runComplete then Drop(Replace(e, i, t), i) else Replace(e, i, t)
  }

  lemma TakerKeepsInv(e: Engine, i: nat, r: Response, now: int)
    requires EngineInv(e) && i < |e.handlers| && Matches(e.handlers[i], r.action, r.id) && Awaits(e.handlers[i])
    ensures EngineInv(Served(e, i, r, now))
  {
    var h := e.handlers[i];
    assert Running(h) && Fits(h, e.world);
    var t := Respond(h, e.world, r, now);
    RespondRuns(h, e.world, r, now);
    RespondShares(h, e.world, r, now);
    if t.h.runComplete {
      DropKeepsInv(e, i, t);
    } else {
      TurnKeepsInv(e, i, t);
    }
  }

  /** Handler i does not take the response and is as it was. */
  lemma OthersPass(e: Engine, i: nat, r: Response, now: int)
    requires i < |e.handlers| && !Matches(e.handlers[i], r.action, r.id)
    ensures Replace(e, i, ProcessResponse(e.handlers[i], e.world, r, now)) == e
    ensures OfferResponse(e, i, r, now) == OfferResponse(e, i + 1, r, now)
  {
  }

  /** What the offer to handler i leads to when it takes the response. */
  lemma TakerOffers(e: Engine, i: nat, r: Response, now: int)
    requires i < |e.handlers| && Matches(e.handlers[i], r.action, r.id)
    ensures var t := Respond(e.handlers[i], e.world, r, now);
            OfferResponse(e, i, r, now) ==
              if !EndsSequence(e.handlers[i], r) then OfferResponse(Replace(e, i, t), i + 1, r, now)
              else if t.h.runComplete then Drop(Replace(e, i, t), i)
              else Replace(e, i, t)
  {
  }

  lemma {:induction false} OfferResponseKeepsInv(e: Engine, i: nat, r: Response, now: int)
    requires EngineInv(e) && i <= |e.handlers| && StillAwaited(e, i, r)
    ensures EngineInv(OfferResponse(e, i, r, now))
    decreases |e.handlers| - i
  {
    if i < |e.handlers| {
      var h := e.handlers[i];
      if Matches(h, r.action, r.id) {
        TakerKeepsInv(e, i, r, now);
        TakerOffers(e, i, r, now);
        if !EndsSequence(h, r) {
          RunningIsNotComplete(e, i);
          ContinuingIsNotComplete(h, e.world, r, now);
          OfferResponseKeepsInv(Replace(e, i, Respond(h, e.world, r, now)), i + 1, r, now);
        }
      } else {
        OthersPass(e, i, r, now);
        OfferResponseKeepsInv(e, i + 1, r, now);
      }
    }
  }

  lemma RunningIsNotComplete(e: Engine, i: nat)
    requires EngineInv(e) && i < |e.handlers|
    ensures !e.handlers[i].runComplete
  {
    assert Running(e.handlers[i]);
  }

  lemma ContinuingIsNotComplete(h: Handler, w: World, r: Response, now: int)
    requires !h.runComplete && !EndsSequence(h, r)
    ensures !ProcessResponse(h, w, r, now).h.runComplete
  {
  }

  lemma {:induction false} OfferHeartbeatKeepsInv(e: Engine, i: nat, action: string, id: nat)
    requires EngineInv(e) && i <= |e.handlers|
    ensures EngineInv(OfferHeartbeat(e, i, action, id))
    decreases |e.handlers| - i
  {
    if i < |e.handlers| {
      var h := e.handlers[i];
      if Matches(h, action, id) {
        HeartbeatRuns(h, action, id);
        TurnKeepsInv(e, i, Turn(ProcessHeartbeat(h, action, id), e.world));
      } else {
        OfferHeartbeatKeepsInv(e, i + 1, action, id);
      }
    }
  }

  lemma {:induction false} SweepKeepsInv(e: Engine, i: nat, clock: seq<int>)
    requires EngineInv(e) && i <= |e.handlers| == |clock|
    ensures EngineInv(Sweep(e, i, clock))
    decreases |e.handlers| - i
  {
    if i < |e.handlers| {
      var h := e.handlers[i];
      var t := Resume(h, e.world, clock[i]);
      ResumeRuns(h, e.world, clock[i]);
      ResumeShares(h, e.world, clock[i]);
      TurnKeepsInv(e, i, t);
      SweepKeepsInv(Replace(e, i, t), i + 1, clock);
    }
  }

  lemma DispatchKeepsInv(e: Engine, p: Pass)
    requires EngineInv(e) && Possible(e, p)
    ensures EngineInv(Dispatch(e, p.message))
  {
    match p.message
    case Quiet =>
    case Heartbeat(action, id) => OfferHeartbeatKeepsInv(e, 0, action, id);
    case Answer(r, now) => OfferResponseKeepsInv(e, 0, r, now);
  }

  lemma PassKeepsInv(e: Engine, p: Pass)
    requires EngineInv(e) && Possible(e, p)
    ensures EngineInv(RunPass(e, p))
  {
    DispatchKeepsInv(e, p);
    SweepKeepsInv(Dispatch(e, p.message), 0, p.clock);
  }

  lemma StartShares(h: Handler, w: World)
    requires AtRest(h)
    ensures var t := Start(h, w);
            && t.w.lock == w.lock && t.h.lock == NoLock
            && t.h.ctId == w.nextId && t.w.nextId == w.nextId + 1
            && t.w.outstanding == w.outstanding[w.nextId := t.w.outstanding[w.nextId]]
            && Fits(t.h, t.w)
  {
    StartRuns(h, w);
  }

  lemma {:induction false} StartAllInv(configs: seq<Config>)
    ensures EngineInv(StartAll(configs))
  {
    if configs != [] {
      var e := StartAll(configs[..|configs| - 1]);
      StartAllInv(configs[..|configs| - 1]);
      var c := configs[|configs| - 1];
      var h := NewHandler(c.name, c.bindings, c.runCnt, c.lockTimeout);
      StartRuns(h, e.world);
      StartShares(h, e.world);
      AppendKeepsInv(e, Start(h, e.world));
    }
  }

  lemma AppendExclusive(hs: seq<Handler>, w: World, t: Turn)
    requires Exclusive(hs, w) && t.w.lock == w.lock && t.h.lock == NoLock
    ensures Exclusive(hs + [t.h], t.w)
  {
    if w.lock {
      var k :| 0 <= k < |hs| && hs[k].lock == Locked;
      assert (hs + [t.h])[k].lock == Locked;
    }
  }

  lemma AppendOwned(hs: seq<Handler>, w: World, t: Turn)
    requires Owned(hs, w)
    requires forall id :: id in t.w.outstanding ==> id == t.h.ctId || id in w.outstanding
    ensures Owned(hs + [t.h], t.w)
  {
    var hs' := hs + [t.h];
    forall id | id in t.w.outstanding ensures exists j :: 0 <= j < |hs'| && hs'[j].ctId == id
    {
      if id == t.h.ctId {
        assert hs'[|hs|].ctId == id;
      } else {
        var k :| 0 <= k < |hs| && hs[k].ctId == id;
        assert hs'[k].ctId == id;
      }
    }
  }

  lemma AppendIds(hs: seq<Handler>, w: World, t: Turn)
    requires EachRuns(hs, w) && OwnIds(hs) && t.h.ctId == w.nextId
    ensures OwnIds(hs + [t.h])
  {
    assert forall i :: 0 <= i < |hs| ==> Fits(hs[i], w);
  }

  lemma AppendRuns(hs: seq<Handler>, w: World, t: Turn)
    requires EachRuns(hs, w) && Running(t.h) && Fits(t.h, t.w)
    requires t.w.lock == w.lock && t.w.nextId == w.nextId + 1 && w.nextId in t.w.outstanding
    requires t.w.outstanding == w.outstanding[w.nextId := t.w.outstanding[w.nextId]]
    ensures EachRuns(hs + [t.h], t.w)
  {
    var hs' := hs + [t.h];
    forall i | 0 <= i < |hs'| ensures Running(hs'[i]) && Fits(hs'[i], t.w)
    {
      if i < |hs| {
        OlderRequestsStay(hs[i], w, t.w);
      }
    }
  }

  lemma OlderRequestsStay(h: Handler, w: World, w': World)
    requires Fits(h, w) && w'.lock == w.lock && w'.nextId == w.nextId + 1 && w.nextId in w'.outstanding
    requires w'.outstanding == w.outstanding[w.nextId := w'.outstanding[w.nextId]]
    ensures Fits(h, w')
  {
  }

  lemma AppendKeepsInv(e: Engine, t: Turn)
    requires EngineInv(e) && Running(t.h) && Fits(t.h, t.w)
    requires t.w.lock == e.world.lock && t.h.lock == NoLock
    requires t.h.ctId == e.world.nextId && t.w.nextId == e.world.nextId + 1
    requires e.world.nextId in t.w.outstanding
    requires t.w.outstanding == e.world.outstanding[e.world.nextId := t.w.outstanding[e.world.nextId]]
    ensures EngineInv(Engine(e.handlers + [t.h], t.w, []))
  {
    AppendExclusive(e.handlers, e.world, t);
    AppendOwned(e.handlers, e.world, t);
    AppendIds(e.handlers, e.world, t);
    AppendRuns(e.handlers, e.world, t);
  }

  lemma {:induction false} ReachedInv(e: Engine, ps: seq<Pass>, e': Engine)
    requires EngineInv(e) && Reaches(e, ps, e')
    ensures EngineInv(e')
    decreases |ps|
  {
    if ps != [] {
      PassKeepsInv(e, ps[0]);
      ReachedInv(RunPass(e, ps[0]), ps[1..], e');
    }
  }

  /** With no handler tracked, further passes change nothing: the loop may stop. */
  lemma {:induction false} NothingLeftToDo(e: Engine, ps: seq<Pass>, e': Engine)
    requires e.handlers == [] && Reaches(e, ps, e')
    ensures e' == e
    decreases |ps|
  {
    if ps != [] {
      NothingLeftToDo(RunPass(e, ps[0]), ps[1..], e');
    }
  }
}
