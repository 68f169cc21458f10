/** What every method of one handler keeps, and how it changes what handlers share. */
module MitigationHandler {
  import opened Wrappers
  import opened Mitigation

  function PhaseFor(h: Handler): Phase {
    if h.index == 0 then Fresh else if h.lock == NoLock then Expired else Open
  }

  ghost predicate LockShape(h: Handler) {
    && (h.index == 0) == h.anomaly.None?
    && (h.index == 0 ==> h.lock == NoLock)
    && (h.lock == Pending ==> h.index == 1)
    && (h.lockExp != 0 ==> h.lock == Locked)
  }

  ghost predicate CleanTrace(h: Handler) {
    Read(h).guarded && Read(h).exact && Read(h).honest
  }

  ghost predicate ContextShape(h: Handler) {
    Read(h).context == h.context && h.context.Keys == Names(h.actions, h.index) && Read(h).good == h.index
  }

  /** How many sequences a handler runs before it is complete. */
  function Runs(h: Handler): nat {
    if h.runCnt >= 1 then h.runCnt else 1
  }

  /** The responses taken in the runs already counted and in `extra` steps of the present one. */
  ghost predicate Counted(h: Handler, extra: nat) {
    Read(h).answers <= h.runIndex * |h.actions| + extra
  }

  /** A handler between calls. */
  ghost predicate Running(h: Handler) {
    && h.actions != []
    && !h.runComplete
    && InSequence(h)
    && LockShape(h)
    && Read(h).phase == PhaseFor(h)
    && CleanTrace(h)
    && ContextShape(h)
    && h.runIndex < Runs(h)
    && Counted(h, h.index)
  }

  /** A handler whose last run is over. */
  ghost predicate Done(h: Handler) {
    && h.runComplete
    && h.lock == NoLock
    && Read(h).phase == Closed
    && CleanTrace(h)
    && h.runIndex == Runs(h)
    && Counted(h, 0)
  }

  /** A handler that has published its final state and may start over. */
  ghost predicate AtRest(h: Handler) {
    && h.actions != []
    && !h.runComplete
    && h.lock == NoLock
    && h.lockExp == 0
    && (Read(h).phase == Closed || Read(h).phase == NotStarted)
    && CleanTrace(h)
    && h.runIndex < Runs(h)
    && Counted(h, 0)
  }

  lemma StartRuns(h: Handler, w: World)
    requires AtRest(h)
    ensures Running(Start(h, w).h)
  {
    ReadLog(h.(index := 0, context := map[], anomalyId := None, key := "", anomaly := None), Started);
    var h1 := Reset(h);
    assert Read(h1) == NextDigest(h.actions, Read(h), Started);
    WriteRequestRuns(h1, w);
  }

  /** A request may be written at the start of a sequence, or under the lock. */
  lemma WriteRequestRuns(h: Handler, w: World)
    requires Running(h)
    requires h.index >= 1 ==> h.lock == Locked && w.lock
    ensures Running(WriteRequest(h, w).h)
  {
    var h1 := h.(ctId := w.nextId, anomalyId := Some(NextRequest(h, w.nextId).anomalyId));
    ReadLog(h1, Requested(h.index, NextRequest(h, w.nextId), h.lock == Locked && w.lock));
  }

  lemma ReleaseAndPublish(h: Handler, state: State, code: int)
    ensures Read(Publish(h, state, code)) == NextDigest(h.actions, Read(h), Published(state, code))
  {
    ReadLog(h.(anomaly := Some(Anomaly(state, code))), Published(state, code));
  }

  lemma ResumeRuns(h: Handler, w: World, now: int)
    requires Running(h)
    ensures Running(Resume(h, w, now).h)
  {
    if CanAcquire(h, w) {
      var t := Acquire(h, w, now);
      ReadLog(h.(lock := Locked, lockExp := now + h.lockTimeout), Granted(now));
      WriteRequestRuns(t.h, t.w);
    } else if Expires(h, now) {
      ReleaseAndPublish(Release(h, w).h, Timeout, MITIGATION_TIMEOUT);
    }
  }

  lemma HeartbeatRuns(h: Handler, action: string, id: nat)
    requires Running(h)
    ensures Running(ProcessHeartbeat(h, action, id))
  {
    ReadLog(h, Beat);
    if h.anomaly.Some? {
      ReleaseAndPublish(h, InProgress, h.anomaly.value.code);
    }
  }

  // ---------- a response ----------

  /** Halfway through a response: published, but the index and the lock not moved yet. */
  ghost predicate Received(h: Handler, r: Response, h1: Handler) {
    && h1 == h.(key := h1.key, anomaly := h1.anomaly, trace := h1.trace)
    && h1.anomaly.Some?
    && Read(h1).phase == (if h.index == 0 then Open else PhaseFor(h))
    && CleanTrace(h1)
    && Read(h1).answers == Read(h).answers + 1
    && Read(h1).last == r.code
    && Read(h1).good == (if r.code == 0 then h.index + 1 else h.index)
    && Read(h1).context == (if r.code == 0 then h.context[r.action := r.data] else h.context)
  }

  lemma ReceiveShape(h: Handler, r: Response)
    requires Running(h)
    ensures Received(h, r, Receive(h, r))
  {
    var h0 := h.(key := if h.key == "" then r.key else h.key);
    ReadLog(h0, Answered(r));
    var h1 := Log(h0, Answered(r));
    ReleaseAndPublish(h1, Init, r.code);
    ReadLog(h1, Relayed);
  }

  lemma OneRunMore(runs: nat, n: nat)
    ensures (runs + 1) * n == runs * n + n
  {
  }

  /** The code that `Judge` found is the one that the responses of the sequence call for. */
  ghost predicate Deserved(h: Handler, code: int) {
    && (|h.actions| != 1 ==> code == FinalCode(h.actions, Read(h).good, Read(h).last))
    && (|h.actions| != 1 && Read(h).last == 0 && Read(h).good != |h.actions| ==> Read(h).phase.Expired?)
  }

  lemma CloseRests(h: Handler, w: World, code: int)
    requires h.actions != [] && !h.runComplete && CleanTrace(h)
    requires h.lock != Pending && (h.lockExp != 0 ==> h.lock == Locked)
    requires Read(h).phase == Open || Read(h).phase == Expired
    requires h.runIndex < Runs(h) && Counted(h, |h.actions|) && Deserved(h, code)
    ensures var h' := Close(h, w, code).h;
            if h'.runComplete then Done(h') else AtRest(h')
  {
    OneRunMore(h.runIndex, |h.actions|);
    ReleaseAndPublish(Release(h, w).h, Complete, if |h.actions| == 1 then NO_MITIGATION else code);
  }

  lemma FinishRuns(h: Handler, w: World, code: int)
    requires h.actions != [] && !h.runComplete && CleanTrace(h)
    requires h.lock != Pending && (h.lockExp != 0 ==> h.lock == Locked)
    requires Read(h).phase == Open || Read(h).phase == Expired
    requires h.runIndex < Runs(h) && Counted(h, |h.actions|) && Deserved(h, code)
    ensures var h' := Finish(h, w, code).h;
            if h'.runComplete then Done(h') else Running(h')
  {
    CloseRests(h, w, code);
    var t := Close(h, w, code);
    if !t.h.runComplete {
      StartRuns(t.h, t.w);
    }
  }

  lemma NamesGrow(actions: seq<string>, k: nat)
    requires k < |actions|
    ensures Names(actions, k + 1) == Names(actions, k) + {actions[k]}
  {
  }

  /** The context kept by the handler catches up with the response that was just recorded. */
  lemma ContinueRuns(h: Handler, r: Response, h1: Handler)
    requires Running(h) && Matches(h, r.action, r.id) && h.lock != Pending
    requires Received(h, r, h1) && Judge(h1, r.code).1.Continue?
    ensures var h2 := Judge(h1, r.code).0;
            Running(h2.(context := h2.context[r.action := r.data])) && h2.index == h.index + 1
    ensures Judge(h1, r.code).0.lock == if h.index == 0 then Pending else Locked
  {
    NamesGrow(h.actions, h.index);
    var h2 := Judge(h1, r.code).0;
    assert Read(h2.(context := h2.context[r.action := r.data])) == Read(h1);
  }

  lemma ProceedRuns(h: Handler, w: World, now: int)
    requires Running(h) && h.index >= 1 && (h.lock == Locked ==> w.lock)
    ensures Running(Proceed(h, w, now).h)
  {
    if h.lock == Locked {
      WriteRequestRuns(h, w);
    } else {
      ResumeRuns(h, w, now);
    }
  }

  lemma RespondRuns(h: Handler, w: World, r: Response, now: int)
    requires Running(h) && Matches(h, r.action, r.id)
    requires h.lock != Pending && (h.lock == Locked ==> w.lock)
    ensures var h' := Respond(h, w, r, now).h;
            if h'.runComplete then Done(h') else Running(h')
  {
    ReceiveShape(h, r);
    var h1 := Receive(h, r);
    var w1 := w.(outstanding := w.outstanding - {r.id});
    var (h2, verdict) := Judge(h1, r.code);
    match verdict
    case Finished(code) =>
      assert Read(h2) == Read(h1);
      FinishRuns(h2, w1, code);
    case Continue =>
      ContinueRuns(h, r, h1);
      ProceedRuns(h2.(context := h2.context[r.action := r.data]), w1, now);
  }

  // ---------- the shared part ----------

  predicate Awaits(h: Handler) {
    !h.runComplete && h.lock != Pending
  }

  predicate LockStep(h: Handler, w: World, t: Turn) {
    || (w.lock == t.w.lock && (h.lock == Locked) == (t.h.lock == Locked))
    || (!w.lock && t.w.lock && h.lock != Locked && t.h.lock == Locked)
    || (!t.w.lock && h.lock == Locked && t.h.lock != Locked)
  }

  predicate IdStep(h: Handler, w: World, t: Turn) {
    || (t.h.ctId == h.ctId && t.w.nextId == w.nextId)
    || (t.h.ctId == w.nextId && t.w.nextId == w.nextId + 1)
  }

  ghost predicate RequestStep(h: Handler, w: World, t: Turn) {
    && (forall id :: id != h.ctId && id != t.h.ctId ==>
         (id in t.w.outstanding <==> id in w.outstanding) &&
         (id in w.outstanding ==> t.w.outstanding[id] == w.outstanding[id]))
    && (t.h.ctId in t.w.outstanding <==> Awaits(t.h))
    && (t.h.ctId != h.ctId ==> h.ctId !in t.w.outstanding)
    && (Awaits(t.h) ==> InSequence(t.h) && t.w.outstanding[t.h.ctId].action == t.h.actions[t.h.index])
  }

  /** How one handler's turn may change the lock, the ids and the outstanding requests. */
  ghost predicate SharedStep(h: Handler, w: World, t: Turn) {
    LockStep(h, w, t) && IdStep(h, w, t) && RequestStep(h, w, t)
  }

  /** The handler's own view of the shared part. */
  ghost predicate Fits(h: Handler, w: World) {
    && h.ctId < w.nextId
    && (h.lock == Locked ==> w.lock)
    && (h.ctId in w.outstanding <==> Awaits(h))
    && (Awaits(h) ==> InSequence(h) && w.outstanding[h.ctId].action == h.actions[h.index])
  }

  lemma ResumeShares(h: Handler, w: World, now: int)
    requires Running(h) && Fits(h, w)
    ensures SharedStep(h, w, Resume(h, w, now))
  {
  }

  lemma RestartShares(h: Handler, h2: Handler, w: World, w2: World)
    requires AtRest(h2) && h2.ctId == h.ctId < w.nextId
    requires w2.nextId == w.nextId && w2.outstanding == w.outstanding - {h.ctId}
    ensures IdStep(h, w, Start(h2, w2)) && RequestStep(h, w, Start(h2, w2))
    ensures Start(h2, w2).w.lock == w2.lock && Start(h2, w2).h.lock == NoLock
  {
  }

  lemma FinishShares(h: Handler, h2: Handler, w: World, w2: World, code: int)
    requires Fits(h, w) && h2.ctId == h.ctId && h2.lock == h.lock != Pending
    requires w2.lock == w.lock && w2.nextId == w.nextId && w2.outstanding == w.outstanding - {h.ctId}
    requires h2.actions != [] && !h2.runComplete && CleanTrace(h2)
    requires h2.lockExp != 0 ==> h2.lock == Locked
    requires Read(h2).phase == Open || Read(h2).phase == Expired
    requires h2.runIndex < Runs(h2) && Counted(h2, |h2.actions|) && Deserved(h2, code)
    ensures SharedStep(h, w, Finish(h2, w2, code))
  {
    CloseRests(h2, w2, code);
    var t := Close(h2, w2, code);
    if !t.h.runComplete {
      RestartShares(h, t.h, w, t.w);
    }
  }

  lemma ProceedShares(h: Handler, h2: Handler, w: World, w2: World, now: int)
    requires Fits(h, w) && h2.ctId == h.ctId && Running(h2)
    requires (h2.lock == Locked) == (h.lock == Locked) && h2.lock != NoLock
    requires w2.lock == w.lock && w2.nextId == w.nextId && w2.outstanding == w.outstanding - {h.ctId}
    ensures SharedStep(h, w, Proceed(h2, w2, now))
  {
  }

  lemma RespondShares(h: Handler, w: World, r: Response, now: int)
    requires Running(h) && Fits(h, w) && Matches(h, r.action, r.id) && h.lock != Pending
    ensures SharedStep(h, w, Respond(h, w, r, now))
  {
    ReceiveShape(h, r);
    var h1 := Receive(h, r);
    var w1 := w.(outstanding := w.outstanding - {r.id});
    var (h2, verdict) := Judge(h1, r.code);
    match verdict
    case Finished(code) =>
      assert Read(h2) == Read(h1);
      FinishShares(h, h2, w, w1, code);
    case Continue =>
      ContinueRuns(h, r, h1);
      ProceedShares(h, h2.(context := h2.context[r.action := r.data]), w, w1, now);
  }
}
