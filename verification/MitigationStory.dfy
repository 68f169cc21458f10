/**
  What a handler's trace says about the requests, the lock and the publications, read off the events
  alone, and that every handler's fields agree with it in every reachable state.
 */
module MitigationStory {
  import opened Wrappers
  import opened Mitigation
  import opened MitigationHandler
  import opened MitigationEngine
  import opened MitigationProperties

  /** The id of the first request of the present sequence. */
  function FirstRequest(trace: seq<Event>): Option<nat> {
    if trace == [] then None
    else
      var before := FirstRequest(trace[..|trace| - 1]);
      match trace[|trace| - 1]
      case Started => None
      case Requested(_, req, _) => if before.None? then Some(req.id) else before
      case _ => before
  }

  /** The first key that a response of the present sequence named. */
  function KeyFound(trace: seq<Event>): string {
    if trace == [] then ""
    else
      var before := KeyFound(trace[..|trace| - 1]);
      match trace[|trace| - 1]
      case Started => ""
      case Answered(r) => if before == "" then r.key else before
      case _ => before
  }

  /** The latest publication of the anomaly in the present sequence. */
  function LatestPublished(trace: seq<Event>): Option<Anomaly> {
    if trace == [] then None
    else
      match trace[|trace| - 1]
      case Started => None
      case Published(state, code) => Some(Anomaly(state, code))
      case _ => LatestPublished(trace[..|trace| - 1])
  }

  /** When the lock was granted last. */
  function LatestGrant(trace: seq<Event>): Option<int> {
    if trace == [] then None
    else if trace[|trace| - 1].Granted? then Some(trace[|trace| - 1].time)
    else LatestGrant(trace[..|trace| - 1])
  }

  /** A response has been taken and is still to be published. */
  predicate Owing(trace: seq<Event>) {
    trace != [] && trace[|trace| - 1].Answered?
  }

  /** What may follow these events. */
  predicate Follows(before: seq<Event>, e: Event) {
    && (Owing(before) <==> e.Relayed? || (e.Published? && e.state == Init))
    && (e.Requested? ==>
          && e.req.anomalyId == (if FirstRequest(before).Some? then FirstRequest(before).value else e.req.id)
          && e.req.key == KeyFound(before))
    && (e.Published? && e.state == InProgress ==>
          LatestPublished(before).Some? && e.code == LatestPublished(before).value.code)
    && (e.Beat? ==> LatestPublished(before).None?)
    && (e.Relayed? ==> LatestPublished(before).Some?)
  }

  predicate Tidy(trace: seq<Event>) {
    forall p :: 0 <= p < |trace| ==> Follows(trace[..p], trace[p])
  }

  /** The handler's fields are what its trace says. */
  predicate Told(h: Handler) {
    && Tidy(h.trace)
    && !Owing(h.trace)
    && h.anomalyId == FirstRequest(h.trace)
    && h.key == KeyFound(h.trace)
    && h.anomaly == LatestPublished(h.trace)
    && (h.lock == Locked ==> LatestGrant(h.trace) == Some(h.lockExp - h.lockTimeout))
  }

  lemma TidySnoc(trace: seq<Event>, e: Event)
    requires Tidy(trace) && Follows(trace, e)
    ensures Tidy(trace + [e])
  {
    var longer := trace + [e];
    forall p | 0 <= p < |longer| ensures Follows(longer[..p], longer[p])
    {
      if p < |trace| {
        assert longer[..p] == trace[..p];
      } else {
        assert longer[..p] == trace;
      }
    }
  }

  /** One more event, read by each of the functions. */
  lemma OneMore(trace: seq<Event>, e: Event)
    ensures (trace + [e])[..|trace|] == trace
  {
  }

  lemma StartTells(h: Handler, w: World)
    requires h.actions != [] && !h.runComplete && h.lock != Locked && Tidy(h.trace) && !Owing(h.trace)
    ensures Told(Start(h, w).h)
  {
    TidySnoc(h.trace, Started);
    OneMore(h.trace, Started);
    WriteRequestTells(Reset(h), w);
  }

  lemma WriteRequestTells(h: Handler, w: World)
    requires Told(h) && InSequence(h)
    ensures Told(WriteRequest(h, w).h)
  {
    var e := Requested(h.index, NextRequest(h, w.nextId), h.lock == Locked && w.lock);
    TidySnoc(h.trace, e);
    OneMore(h.trace, e);
  }

  lemma AcquireTells(h: Handler, w: World, now: int)
    requires Told(h)
    ensures Told(Acquire(h, w, now).h)
  {
    TidySnoc(h.trace, Granted(now));
    OneMore(h.trace, Granted(now));
  }

  lemma PublishTells(h: Handler, state: State, code: int)
    requires Tidy(h.trace) && h.anomalyId == FirstRequest(h.trace) && h.key == KeyFound(h.trace)
    requires h.lock == Locked ==> LatestGrant(h.trace) == Some(h.lockExp - h.lockTimeout)
    requires Follows(h.trace, Published(state, code))
    ensures Told(Publish(h, state, code))
  {
    TidySnoc(h.trace, Published(state, code));
    OneMore(h.trace, Published(state, code));
  }

  lemma ResumeTells(h: Handler, w: World, now: int)
    requires Told(h) && InSequence(h)
    ensures Told(Resume(h, w, now).h)
  {
    if CanAcquire(h, w) {
      AcquireTells(h, w, now);
      var t := Acquire(h, w, now);
      WriteRequestTells(t.h, t.w);
    } else if Expires(h, now) {
      PublishTells(Release(h, w).h, Timeout, MITIGATION_TIMEOUT);
    }
  }

  lemma BeatTells(h: Handler)
    requires Told(h) && h.anomaly.None?
    ensures Told(Log(h, Beat))
  {
    TidySnoc(h.trace, Beat);
    OneMore(h.trace, Beat);
  }

  lemma HeartbeatTells(h: Handler, action: string, id: nat)
    requires Told(h)
    ensures Told(ProcessHeartbeat(h, action, id))
  {
    if Matches(h, action, id) {
      if h.anomaly.None? {
        BeatTells(h);
      } else {
        PublishTells(h, InProgress, h.anomaly.value.code);
      }
    }
  }

  lemma AnswerTells(h: Handler, r: Response)
    requires Told(h)
    ensures var h1 := Log(h.(key := if h.key == "" then r.key else h.key), Answered(r));
            && Tidy(h1.trace) && Owing(h1.trace)
            && h1.anomalyId == FirstRequest(h1.trace)
            && h1.key == KeyFound(h1.trace)
            && h1.anomaly == LatestPublished(h1.trace)
            && LatestGrant(h1.trace) == LatestGrant(h.trace)
  {
    TidySnoc(h.trace, Answered(r));
    OneMore(h.trace, Answered(r));
  }

  lemma RelayTells(h: Handler)
    requires Tidy(h.trace) && Owing(h.trace) && h.anomaly.Some?
    requires h.anomalyId == FirstRequest(h.trace) && h.key == KeyFound(h.trace) && h.anomaly == LatestPublished(h.trace)
    requires h.lock == Locked ==> LatestGrant(h.trace) == Some(h.lockExp - h.lockTimeout)
    ensures Told(Log(h, Relayed))
  {
    TidySnoc(h.trace, Relayed);
    OneMore(h.trace, Relayed);
  }

  lemma ReceiveTells(h: Handler, r: Response)
    requires Told(h)
    ensures Told(Receive(h, r))
  {
    AnswerTells(h, r);
    var h1 := Log(h.(key := if h.key == "" then r.key else h.key), Answered(r));
    if h1.anomaly.None? {
      PublishTells(h1, Init, r.code);
    } else {
      RelayTells(h1);
    }
  }

  lemma FinishTells(h: Handler, w: World, code: int)
    requires Told(h) && h.actions != [] && !h.runComplete && h.lock != Pending
    ensures Told(Finish(h, w, code).h)
  {
    var r := Release(h, w);
    PublishTells(r.h, Complete, if |h.actions| == 1 then NO_MITIGATION else code);
    var t := Close(h, w, code);
    if !t.h.runComplete {
      StartTells(t.h, t.w);
    }
  }

  lemma ProceedTells(h: Handler, w: World, now: int)
    requires Told(h) && InSequence(h)
    ensures Told(Proceed(h, w, now).h)
  {
    if h.lock == Locked {
      WriteRequestTells(h, w);
    } else {
      ResumeTells(h, w, now);
    }
  }

  lemma JudgeTells(h: Handler, code: int)
    requires Told(h) && h.lock != Pending
    ensures Told(Judge(h, code).0)
    ensures Judge(h, code).1.Continue? ==> InSequence(Judge(h, code).0)
    ensures Judge(h, code).1.Finished? ==> Judge(h, code).0.lock != Pending
  {
  }

  /** The part of a response after it is recorded. */
  lemma VerdictTells(h: Handler, w: World, r: Response, now: int)
    requires Told(h) && !h.runComplete && h.lock != Pending && InSequence(h)
    ensures var (h1, verdict) := Judge(h, r.code);
            match verdict
            case Finished(code) => Told(Finish(h1, w, code).h)
            case Continue => Told(Proceed(h1.(context := h1.context[r.action := r.data]), w, now).h)
  {
    var (h1, verdict) := Judge(h, r.code);
    JudgeTells(h, r.code);
    match verdict
    case Finished(code) => FinishTells(h1, w, code);
    case Continue => ProceedTells(h1.(context := h1.context[r.action := r.data]), w, now);
  }

  lemma RespondTells(h: Handler, w: World, r: Response, now: int)
    requires Told(h) && !h.runComplete && h.lock != Pending && Matches(h, r.action, r.id)
    ensures Told(Respond(h, w, r, now).h)
  {
    ReceiveTells(h, r);
    ReceiveKeeps(h, r);
    VerdictTells(Receive(h, r), w.(outstanding := w.outstanding - {r.id}), r, now);
  }

  lemma ReceiveKeeps(h: Handler, r: Response)
    ensures var h1 := Receive(h, r);
            h1 == h.(key := h1.key, anomaly := h1.anomaly, trace := h1.trace)
  {
  }

  // ---------- every reachable state ----------

  predicate AllTold(e: Engine) {
    && (forall i :: 0 <= i < |e.handlers| ==> Told(e.handlers[i]))
    && (forall i :: 0 <= i < |e.dropped| ==> Told(e.dropped[i]))
  }

  lemma {:induction false} SweepTells(e: Engine, i: nat, clock: seq<int>)
    requires AllTold(e) && i <= |e.handlers| == |clock|
    ensures AllTold(Sweep(e, i, clock))
    decreases |e.handlers| - i
  {
    if i < |e.handlers| {
      var h := e.handlers[i];
      var t := Turn(h, e.world);
      if InSequence(h) {
        t := Resume(h, e.world, clock[i]);
        ResumeTells(h, e.world, clock[i]);
      }
      SweepTells(Replace(e, i, t), i + 1, clock);
    }
  }

  lemma {:induction false} OfferHeartbeatTells(e: Engine, i: nat, action: string, id: nat)
    requires AllTold(e) && i <= |e.handlers|
    ensures AllTold(OfferHeartbeat(e, i, action, id))
    decreases |e.handlers| - i
  {
    if i < |e.handlers| {
      if Matches(e.handlers[i], action, id) {
        HeartbeatTells(e.handlers[i], action, id);
      } else {
        OfferHeartbeatTells(e, i + 1, action, id);
      }
    }
  }

  lemma ReplaceTells(e: Engine, k: nat, t: Turn)
    requires AllTold(e) && k < |e.handlers| && Told(t.h)
    ensures AllTold(Replace(e, k, t))
  {
  }

  lemma DropTells(e: Engine, k: nat)
    requires AllTold(e) && k < |e.handlers|
    ensures AllTold(Drop(e, k))
  {
  }

  lemma ServedTells(e: Engine, k: nat, r: Response, now: int)
    requires AllTold(e) && EngineInv(e) && k < |e.handlers| && Matches(e.handlers[k], r.action, r.id)
    requires Awaits(e.handlers[k])
    ensures AllTold(Served(e, k, r, now))
  {
    RespondTells(e.handlers[k], e.world, r, now);
    var t := Respond(e.handlers[k], e.world, r, now);
    ReplaceTells(e, k, t);
    DropTells(Replace(e, k, t), k);
  }

  /** The handler that waits for an answer to this request. */
  lemma TheWaiting(e: Engine, id: nat) returns (k: nat)
    requires EngineInv(e) && id in e.world.outstanding
    ensures k < |e.handlers| && e.handlers[k].ctId == id && Awaits(e.handlers[k])
  {
    k :| 0 <= k < |e.handlers| && e.handlers[k].ctId == id;
    assert Fits(e.handlers[k], e.world);
  }

  lemma DispatchTells(e: Engine, p: Pass)
    requires AllTold(e) && EngineInv(e) && Possible(e, p)
    ensures AllTold(Dispatch(e, p.message))
  {
    match p.message
    case Quiet =>
    case Heartbeat(action, id) => OfferHeartbeatTells(e, 0, action, id);
    case Answer(r, now) =>
      var k := TheWaiting(e, r.id);
      ResponseReachesItsHandler(e, k, r, now);
      ServedTells(e, k, r, now);
  }

  lemma {:induction false} StartAllTells(configs: seq<Config>)
    ensures AllTold(StartAll(configs))
  {
    if configs != [] {
      var e := StartAll(configs[..|configs| - 1]);
      var c := configs[|configs| - 1];
      StartAllTells(configs[..|configs| - 1]);
      StartTells(NewHandler(c.name, c.bindings, c.runCnt, c.lockTimeout), e.world);
    }
  }

  lemma {:induction false} ReachedTells(e: Engine, ps: seq<Pass>, e': Engine)
    requires AllTold(e) && EngineInv(e) && Reaches(e, ps, e')
    ensures AllTold(e')
    decreases |ps|
  {
    if ps != [] {
      DispatchTells(e, ps[0]);
      SweepTells(Dispatch(e, ps[0].message), 0, ps[0].clock);
      PassKeepsInv(e, ps[0]);
      ReachedTells(RunPass(e, ps[0]), ps[1..], e');
    }
  }

  lemma EveryHandlerIsTold(configs: seq<Config>, ps: seq<Pass>, e: Engine, h: Handler)
    requires Reachable(configs, ps, e) && (h in e.handlers || h in e.dropped)
    ensures Told(h)
  {
    StartAllTells(configs);
    StartAllInv(configs);
    ReachedTells(StartAll(configs), ps, e);
  }

  // ---------- requests and publications ----------

  /**
    Every request carries the id of its sequence's first request as anomaly id, and the first key that
    a response of the sequence has named so far.
   */
  lemma RequestsCarryTheAnomaly(configs: seq<Config>, ps: seq<Pass>, e: Engine, h: Handler, p: nat)
    requires Reachable(configs, ps, e) && (h in e.handlers || h in e.dropped)
    requires p < |h.trace| && h.trace[p].Requested?
    ensures var req, first := h.trace[p].req, FirstRequest(h.trace[..p]);
            && req.anomalyId == (if first.Some? then first.value else req.id)
            && req.key == KeyFound(h.trace[..p])
  {
    EveryHandlerIsTold(configs, ps, e, h);
    assert Follows(h.trace[..p], h.trace[p]);
  }

  /**
    Every response taken is published next, as the anomaly itself if it is the first and as it came
    otherwise, and nothing else is published in these two ways.
   */
  lemma ResponsesArePublished(configs: seq<Config>, ps: seq<Pass>, e: Engine, h: Handler, p: nat)
    requires Reachable(configs, ps, e) && (h in e.handlers || h in e.dropped) && p < |h.trace|
    ensures h.trace[p].Answered? ==>
              && p + 1 < |h.trace|
              && (h.trace[p + 1] == Relayed || h.trace[p + 1] == Published(Init, h.trace[p].resp.code))
    ensures h.trace[p] == Relayed || (h.trace[p].Published? && h.trace[p].state == Init) ==>
              p > 0 && h.trace[p - 1].Answered?
    ensures h.trace[p] == Relayed ==> LatestPublished(h.trace[..p]).Some?
  {
    EveryHandlerIsTold(configs, ps, e, h);
    assert Follows(h.trace[..p], h.trace[p]);
    if h.trace[p].Answered? {
      AnswerIsFollowed(h.trace, p);
      if h.trace[p + 1].Published? {
        ResultCodes(configs, ps, e, h, p + 1);
        LastCodeIs(h.trace, p);
      }
    }
  }

  lemma AnswerIsFollowed(trace: seq<Event>, p: nat)
    requires Tidy(trace) && !Owing(trace) && p < |trace| && trace[p].Answered?
    ensures p + 1 < |trace|
    ensures trace[p + 1].Relayed? || (trace[p + 1].Published? && trace[p + 1].state == Init)
  {
    assert trace[..p + 1][p] == trace[p];
    assert Follows(trace[..p + 1], trace[p + 1]);
  }

  lemma LastCodeIs(trace: seq<Event>, p: nat)
    requires p < |trace| && trace[p].Answered?
    ensures LastCode(trace[..p + 1]) == trace[p].resp.code
  {
    assert trace[..p + 1][p] == trace[p];
  }

  // ---------- the lock's time ----------

  /** The holder's time is up: more than its timeout has passed since the grant. */
  predicate TimeIsUp(h: Handler, granted: int, now: int) {
    now > granted + h.lockTimeout && granted + h.lockTimeout != 0
  }

  lemma ResumeByTime(h: Handler, w: World, granted: int, now: int)
    requires InSequence(h) && h.lock == Locked && h.lockExp == granted + h.lockTimeout
    ensures Resume(h, w, now).h.lock == (if TimeIsUp(h, granted, now) then NoLock else Locked)
    ensures !TimeIsUp(h, granted, now) ==> Resume(h, w, now) == Turn(h, w)
  {
  }

  lemma ResumeGrantsAt(h: Handler, w: World, now: int)
    requires InSequence(h) && h.lock != Locked
    ensures Resume(h, w, now).h.lock == Locked <==> h.lock == Pending && !w.lock
    ensures Resume(h, w, now).h.lock == Locked ==>
              LatestGrant(Resume(h, w, now).h.trace) == Some(now) && Resume(h, w, now).h.lockTimeout == h.lockTimeout
  {
    if CanAcquire(h, w) {
      OneMore(h.trace, Granted(now));
      var t := Acquire(h, w, now);
      OneMore(t.h.trace, Requested(h.index, NextRequest(t.h, w.nextId), true));
    }
  }

  /** In a sweep every handler has its own turn, with its own reading of the clock. */
  lemma {:induction false} TurnInSweep(e: Engine, i: nat, k: nat, clock: seq<int>) returns (w: World)
    requires i <= k < |e.handlers| == |clock| && InSequence(e.handlers[k])
    ensures |Sweep(e, i, clock).handlers| == |e.handlers|
    ensures Sweep(e, i, clock).handlers[k] == Resume(e.handlers[k], w, clock[k]).h
    decreases k - i
  {
    var h := e.handlers[i];
    var t := if InSequence(h) then Resume(h, e.world, clock[i]) else Turn(h, e.world);
    SweepKeepsCount(e, i, clock);
    if i < k {
      w := TurnInSweep(Replace(e, i, t), i + 1, k, clock);
    } else {
      w := e.world;
      PassedInSweep(Replace(e, k, t), k + 1, k, clock);
    }
  }

  lemma {:induction false} PassedInSweep(e: Engine, i: nat, k: nat, clock: seq<int>)
    requires k < i <= |e.handlers| == |clock|
    ensures |Sweep(e, i, clock).handlers| == |e.handlers| && Sweep(e, i, clock).handlers[k] == e.handlers[k]
    decreases |e.handlers| - i
  {
    if i < |e.handlers| {
      var h := e.handlers[i];
      var t := if InSequence(h) then Resume(h, e.world, clock[i]) else Turn(h, e.world);
      PassedInSweep(Replace(e, i, t), i + 1, k, clock);
    }
  }

  lemma TrackedFacts(configs: seq<Config>, ps: seq<Pass>, e: Engine, k: nat)
    requires Reachable(configs, ps, e) && k < |e.handlers|
    ensures EngineInv(e) && InSequence(e.handlers[k]) && Told(e.handlers[k])
  {
    ReachableInv(configs, ps, e);
    assert Running(e.handlers[k]);
    EveryHandlerIsTold(configs, ps, e, e.handlers[k]);
  }

  /**
    A handler that is Locked was granted the lock at some time t, and a sweep takes it away if and only
    if the clock that the sweep reads for it is past t plus the mitigation timeout.  (A sum of zero
    counts as no expiry.)
   */
  lemma LockLastsItsTime(configs: seq<Config>, ps: seq<Pass>, e: Engine, k: nat, clock: seq<int>)
    requires Reachable(configs, ps, e) && k < |e.handlers| == |clock| && e.handlers[k].lock == Locked
    ensures LatestGrant(e.handlers[k].trace).Some?
    ensures |Sweep(e, 0, clock).handlers| == |e.handlers|
    ensures Sweep(e, 0, clock).handlers[k].lock ==
              if TimeIsUp(e.handlers[k], LatestGrant(e.handlers[k].trace).value, clock[k]) then NoLock else Locked
  {
    TrackedFacts(configs, ps, e, k);
    var w := TurnInSweep(e, 0, k, clock);
    ResumeByTime(e.handlers[k], w, LatestGrant(e.handlers[k].trace).value, clock[k]);
  }

  /** Whoever becomes Locked in a sweep is recorded as granted at the clock that was read for it. */
  lemma SweepGrantsAreTimed(configs: seq<Config>, ps: seq<Pass>, e: Engine, k: nat, clock: seq<int>)
    requires Reachable(configs, ps, e) && k < |e.handlers| == |clock| && e.handlers[k].lock != Locked
    ensures |Sweep(e, 0, clock).handlers| == |e.handlers|
    ensures Sweep(e, 0, clock).handlers[k].lock == Locked ==>
              e.handlers[k].lock == Pending && LatestGrant(Sweep(e, 0, clock).handlers[k].trace) == Some(clock[k])
  {
    TrackedFacts(configs, ps, e, k);
    var w := TurnInSweep(e, 0, k, clock);
    ResumeGrantsAt(e.handlers[k], w, clock[k]);
  }

  lemma ProceedGrantsAt(h: Handler, w: World, now: int)
    requires InSequence(h) && h.lock == Pending
    ensures var t := Proceed(h, w, now);
            if w.lock then t.h.lock == Pending
            else t.h.lock == Locked && t.w.lock && LatestGrant(t.h.trace) == Some(now)
                 && w.nextId in t.w.outstanding && t.w.outstanding[w.nextId].action == h.actions[h.index]
  {
    ResumeGrantsAt(h, w, now);
  }

  /**
    Mitigation begins at once: a good response for the anomaly, with mitigation to follow and the lock
    free, takes the lock at the time of the response and requests the first mitigation action; with
    the lock taken the handler waits.
   */
  lemma MitigationBeginsAtOnce(configs: seq<Config>, ps: seq<Pass>, e: Engine, k: nat, r: Response, now: int)
    requires Reachable(configs, ps, e) && k < |e.handlers| && Matches(e.handlers[k], r.action, r.id)
    requires BeginsMitigation(Receive(e.handlers[k], r), r.code)
    ensures var h, t := e.handlers[k], Respond(e.handlers[k], e.world, r, now);
            if e.world.lock then t.h.lock == Pending
            else t.h.lock == Locked && t.w.lock && LatestGrant(t.h.trace) == Some(now)
                 && e.world.nextId in t.w.outstanding && t.w.outstanding[e.world.nextId].action == h.actions[1]
  {
    var h := e.handlers[k];
    LockErrorsAreUnreachable(configs, ps, e, h, r);
    ReceiveKeeps(h, r);
    var w1 := e.world.(outstanding := e.world.outstanding - {r.id});
    var h1 := Judge(Receive(h, r), r.code).0;
    ProceedGrantsAt(h1.(context := h1.context[r.action := r.data]), w1, now);
  }

  // ---------- messages that nobody waits for, and heartbeats ----------

  /** The handler's present action and request. */
  predicate IsFor(h: Handler, action: string, id: nat) {
    h.index < |h.actions| && action == h.actions[h.index] && id == h.ctId
  }

  /** A response or heartbeat for no handler's present request changes nothing. */
  lemma {:induction false} StrayMessagesAreIgnored(e: Engine, i: nat, r: Response, now: int)
    requires i <= |e.handlers| && forall k :: i <= k < |e.handlers| ==> !IsFor(e.handlers[k], r.action, r.id)
    ensures OfferResponse(e, i, r, now) == e
    ensures OfferHeartbeat(e, i, r.action, r.id) == e
    decreases |e.handlers| - i
  {
    if i < |e.handlers| {
      OthersPass(e, i, r, now);
      StrayMessagesAreIgnored(e, i + 1, r, now);
    }
  }

  lemma {:induction false} HeartbeatsPassOn(e: Engine, i: nat, k: nat, action: string, id: nat)
    requires i <= k <= |e.handlers|
    requires forall j :: i <= j < k ==> !IsFor(e.handlers[j], action, id)
    ensures OfferHeartbeat(e, i, action, id) == OfferHeartbeat(e, k, action, id)
    decreases k - i
  {
    if i < k {
      HeartbeatsPassOn(e, i + 1, k, action, id);
    }
  }

  /** What a heartbeat publishes: the anomaly as in-progress once it is out, before that the heartbeat. */
  function BeatEvent(trace: seq<Event>): Event {
    if LatestPublished(trace).None? then Beat else Published(InProgress, LatestPublished(trace).value.code)
  }

  lemma TakenBeat(h: Handler, action: string, id: nat)
    requires Told(h) && IsFor(h, action, id)
    ensures var t := ProcessHeartbeat(h, action, id);
            t == h.(trace := h.trace + [BeatEvent(h.trace)], anomaly := t.anomaly)
  {
  }

  /** A heartbeat for a handler's present request is published by it, once, and touches nothing else. */
  lemma HeartbeatsArePublished(configs: seq<Config>, ps: seq<Pass>, e: Engine, k: nat, action: string, id: nat)
    requires Reachable(configs, ps, e) && k < |e.handlers| && IsFor(e.handlers[k], action, id)
    ensures var h, e' := e.handlers[k], Dispatch(e, Heartbeat(action, id));
            && |e'.handlers| == |e.handlers|
            && e' == e.(handlers := e.handlers[k := e'.handlers[k]])
            && e'.handlers[k] == h.(trace := h.trace + [BeatEvent(h.trace)], anomaly := e'.handlers[k].anomaly)
  {
    TrackedFacts(configs, ps, e, k);
    OnlyOneIsAsked(e, k, action, id);
    HeartbeatsPassOn(e, 0, k, action, id);
    TakenBeat(e.handlers[k], action, id);
  }

  lemma OnlyOneIsAsked(e: Engine, k: nat, action: string, id: nat)
    requires EngineInv(e) && k < |e.handlers| && e.handlers[k].ctId == id
    ensures forall j :: 0 <= j < |e.handlers| && j != k ==> !IsFor(e.handlers[j], action, id)
  {
  }
}
