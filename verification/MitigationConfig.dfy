/** What stays of the configuration: every configured anomaly is tracked or done, each exactly once. */
module MitigationConfig {
  import opened Sequences
  import opened Mitigation
  import opened MitigationHandler
  import opened MitigationEngine
  import opened MitigationProperties
  import opened MitigationStory

  /** What a handler was configured with. */
  datatype Shape = Shape(actions: seq<string>, runCnt: int, lockTimeout: int)

  function ShapeOf(h: Handler): Shape {
    Shape(h.actions, h.runCnt, h.lockTimeout)
  }

  predicate HasShape(h: Handler, s: Shape) {
    ShapeOf(h) == s
  }

  /** How many of the handlers have this shape. */
  function Count(hs: seq<Handler>, s: Shape): nat {
    if hs == [] then 0 else Count(hs[..|hs| - 1], s) + (if HasShape(hs[|hs| - 1], s) then 1 else 0)
  }

  /** The anomaly action followed by its bindings, with the configured run count and timeout. */
  function Configured(c: Config): Shape {
    Shape([c.name] + c.bindings, c.runCnt, c.lockTimeout)
  }

  /** How many anomalies are configured with this shape. */
  function Wanted(configs: seq<Config>, s: Shape): nat {
    if configs == [] then 0
    else Wanted(configs[..|configs| - 1], s) + (if Configured(configs[|configs| - 1]) == s then 1 else 0)
  }

  lemma CountSnoc(hs: seq<Handler>, h: Handler, s: Shape)
    ensures Count(hs + [h], s) == Count(hs, s) + (if HasShape(h, s) then 1 else 0)
  {
    assert (hs + [h])[..|hs|] == hs;
  }

  lemma {:induction false} CountConcat(a: seq<Handler>, b: seq<Handler>, s: Shape)
    ensures Count(a + b, s) == Count(a, s) + Count(b, s)
    decreases |b|
  {
    if b == [] {
      assert a + b == a;
    } else {
      var before := b[..|b| - 1];
      CountConcat(a, before, s);
      CountSnoc(a + before, b[|b| - 1], s);
      SplitLast(a, b);
    }
  }

  lemma CountSplit(hs: seq<Handler>, i: nat, s: Shape)
    requires i < |hs|
    ensures Count(hs, s) == Count(hs[..i], s) + (if HasShape(hs[i], s) then 1 else 0) + Count(hs[i + 1..], s)
  {
    CountConcat(hs[..i + 1], hs[i + 1..], s);
    CountSnoc(hs[..i], hs[i], s);
    assert hs == hs[..i + 1] + hs[i + 1..];
    assert hs[..i + 1] == hs[..i] + [hs[i]];
  }

  function CountAll(e: Engine, s: Shape): nat {
    Count(e.handlers, s) + Count(e.dropped, s)
  }

  lemma ReplaceKeepsCount(e: Engine, i: nat, t: Turn, s: Shape)
    requires i < |e.handlers| && ShapeOf(t.h) == ShapeOf(e.handlers[i])
    ensures CountAll(Replace(e, i, t), s) == CountAll(e, s)
  {
    var hs := e.handlers[i := t.h];
    CountSplit(e.handlers, i, s);
    CountSplit(hs, i, s);
    assert hs[..i] == e.handlers[..i] && hs[i + 1..] == e.handlers[i + 1..];
  }

  lemma DropKeepsCount(e: Engine, i: nat, s: Shape)
    requires i < |e.handlers|
    ensures CountAll(Drop(e, i), s) == CountAll(e, s)
  {
    CountSplit(e.handlers, i, s);
    CountConcat(e.handlers[..i], e.handlers[i + 1..], s);
    CountSnoc(e.dropped, e.handlers[i], s);
  }

  lemma ResumeKeepsShape(h: Handler, w: World, now: int)
    requires InSequence(h)
    ensures ShapeOf(Resume(h, w, now).h) == ShapeOf(h)
  {
  }

  lemma RespondKeepsShape(h: Handler, w: World, r: Response, now: int)
    requires Matches(h, r.action, r.id)
    ensures ShapeOf(Respond(h, w, r, now).h) == ShapeOf(h)
  {
    ReceiveKeeps(h, r);
    var (h1, verdict) := Judge(Receive(h, r), r.code);
    var w1 := w.(outstanding := w.outstanding - {r.id});
    match verdict
    case Finished(code) => FinishKeepsShape(h1, w1, code);
    case Continue => ProceedKeepsShape(h1.(context := h1.context[r.action := r.data]), w1, now);
  }

  lemma FinishKeepsShape(h: Handler, w: World, code: int)
    requires h.actions != []
    ensures ShapeOf(Finish(h, w, code).h) == ShapeOf(h)
  {
  }

  lemma ProceedKeepsShape(h: Handler, w: World, now: int)
    requires InSequence(h)
    ensures ShapeOf(Proceed(h, w, now).h) == ShapeOf(h)
  {
  }

  lemma {:induction false} SweepKeepsCountOf(e: Engine, i: nat, clock: seq<int>, s: Shape)
    requires i <= |e.handlers| == |clock|
    ensures CountAll(Sweep(e, i, clock), s) == CountAll(e, s)
    decreases |e.handlers| - i
  {
    if i < |e.handlers| {
      var h := e.handlers[i];
      var t := Turn(h, e.world);
      if InSequence(h) {
        t := Resume(h, e.world, clock[i]);
        ResumeKeepsShape(h, e.world, clock[i]);
      }
      ReplaceKeepsCount(e, i, t, s);
      SweepKeepsCountOf(Replace(e, i, t), i + 1, clock, s);
    }
  }

  lemma HeartbeatKeepsShape(h: Handler, action: string, id: nat)
    ensures ShapeOf(ProcessHeartbeat(h, action, id)) == ShapeOf(h)
  {
  }

  lemma {:induction false} OfferHeartbeatKeepsCount(e: Engine, i: nat, action: string, id: nat, s: Shape)
    requires i <= |e.handlers|
    ensures CountAll(OfferHeartbeat(e, i, action, id), s) == CountAll(e, s)
    decreases |e.handlers| - i
  {
    if i < |e.handlers| {
      if Matches(e.handlers[i], action, id) {
        HeartbeatKeepsShape(e.handlers[i], action, id);
        ReplaceKeepsCount(e, i, Turn(ProcessHeartbeat(e.handlers[i], action, id), e.world), s);
      } else {
        OfferHeartbeatKeepsCount(e, i + 1, action, id, s);
      }
    }
  }

  lemma ServedKeepsCount(e: Engine, k: nat, r: Response, now: int, s: Shape)
    requires k < |e.handlers| && Matches(e.handlers[k], r.action, r.id)
    ensures CountAll(Served(e, k, r, now), s) == CountAll(e, s)
  {
    RespondKeepsShape(e.handlers[k], e.world, r, now);
    var t := Respond(e.handlers[k], e.world, r, now);
    ReplaceKeepsCount(e, k, t, s);
    DropKeepsCount(Replace(e, k, t), k, s);
  }

  lemma DispatchKeepsCount(e: Engine, p: Pass, s: Shape)
    requires EngineInv(e) && Possible(e, p)
    ensures CountAll(Dispatch(e, p.message), s) == CountAll(e, s)
  {
    match p.message
    case Quiet =>
    case Heartbeat(action, id) => OfferHeartbeatKeepsCount(e, 0, action, id, s);
    case Answer(r, now) =>
      var k := TheWaiting(e, r.id);
      ResponseReachesItsHandler(e, k, r, now);
      ServedKeepsCount(e, k, r, now, s);
  }

  lemma {:induction false} ReachedKeepsCount(e: Engine, ps: seq<Pass>, e': Engine, s: Shape)
    requires EngineInv(e) && Reaches(e, ps, e')
    ensures CountAll(e', s) == CountAll(e, s)
    decreases |ps|
  {
    if ps != [] {
      DispatchKeepsCount(e, ps[0], s);
      SweepKeepsCountOf(Dispatch(e, ps[0].message), 0, ps[0].clock, s);
      PassKeepsInv(e, ps[0]);
      ReachedKeepsCount(RunPass(e, ps[0]), ps[1..], e', s);
    }
  }

  lemma NewHasItsShape(c: Config, w: World)
    ensures var h := NewHandler(c.name, c.bindings, c.runCnt, c.lockTimeout);
            h.actions != [] && ShapeOf(Start(h, w).h) == Configured(c)
  {
  }

  lemma {:induction false} StartedInOrder(configs: seq<Config>)
    ensures |StartAll(configs).handlers| == |configs| && StartAll(configs).dropped == []
    ensures forall i :: 0 <= i < |configs| ==> HasShape(StartAll(configs).handlers[i], Configured(configs[i]))
    decreases |configs|
  {
    if configs != [] {
      StartedInOrder(configs[..|configs| - 1]);
      NewHasItsShape(configs[|configs| - 1], StartAll(configs[..|configs| - 1]).world);
    }
  }

  lemma {:induction false} StartedAsConfigured(configs: seq<Config>, s: Shape)
    ensures CountAll(StartAll(configs), s) == Wanted(configs, s)
    decreases |configs|
  {
    if configs != [] {
      var before := StartAll(configs[..|configs| - 1]);
      var c := configs[|configs| - 1];
      StartedAsConfigured(configs[..|configs| - 1], s);
      StartedInOrder(configs[..|configs| - 1]);
      NewHasItsShape(c, before.world);
      CountSnoc(before.handlers, Start(NewHandler(c.name, c.bindings, c.runCnt, c.lockTimeout), before.world).h, s);
    }
  }

  /**
    Handlers start in the order of the configuration, and in every reachable state those tracked and
    those done are together exactly the configured ones, as often as configured, each with its action
    sequence, run count and timeout.
   */
  lemma HandlersAreConfigured(configs: seq<Config>, ps: seq<Pass>, e: Engine, s: Shape)
    requires Reachable(configs, ps, e)
    ensures Count(e.handlers, s) + Count(e.dropped, s) == Wanted(configs, s)
    ensures ps == [] ==> |e.handlers| == |configs|
    ensures ps == [] ==> forall i :: 0 <= i < |configs| ==> HasShape(e.handlers[i], Configured(configs[i]))
  {
    StartAllInv(configs);
    StartedInOrder(configs);
    StartedAsConfigured(configs, s);
    ReachedKeepsCount(StartAll(configs), ps, e, s);
  }
}
