/** What holds in every state that the engine can reach, whatever the clients answer and when. */
module MitigationProperties {
  import opened Wrappers
  import opened Mitigation
  import opened MitigationHandler
  import opened MitigationEngine

  ghost predicate Reachable(configs: seq<Config>, ps: seq<Pass>, e: Engine) {
    Reaches(StartAll(configs), ps, e)
  }

  lemma ReachableInv(configs: seq<Config>, ps: seq<Pass>, e: Engine)
    requires Reachable(configs, ps, e)
    ensures EngineInv(e)
  {
    StartAllInv(configs);
    ReachedInv(StartAll(configs), ps, e);
  }

  /**
    The global flag is set exactly when one tracked handler is Locked, no two are, a set expiry
    belongs to the Locked one, a handler before mitigation neither holds nor awaits the lock, and
    no handler is dropped while Locked.
   */
  lemma MutualExclusion(configs: seq<Config>, ps: seq<Pass>, e: Engine)
    requires Reachable(configs, ps, e)
    ensures e.world.lock <==> exists i :: 0 <= i < |e.handlers| && e.handlers[i].lock == Locked
    ensures forall i, j :: 0 <= i < j < |e.handlers| ==> e.handlers[i].lock != Locked || e.handlers[j].lock != Locked
    ensures forall i :: 0 <= i < |e.handlers| ==>
              && (e.handlers[i].lockExp != 0 ==> e.handlers[i].lock == Locked)
              && (e.handlers[i].index == 0 ==> e.handlers[i].lock == NoLock)
    ensures forall i :: 0 <= i < |e.dropped| ==> e.dropped[i].lock == NoLock
  {
    ReachableInv(configs, ps, e);
  }

  /** A response with this code begins the mitigation of a received handler. */
  predicate BeginsMitigation(h: Handler, code: int) {
    code == 0 && h.index + 1 < |h.actions| && h.index + 1 == 1
  }

  /**
    Whatever response reaches whichever tracked handler, when mitigation begins its lock is neither
    held, which would be the "has lock before start" branch, nor waited for, which would be the
    "Expect None" branch; the handler goes on and waits for the lock.
   */
  lemma LockErrorsAreUnreachable(configs: seq<Config>, ps: seq<Pass>, e: Engine, h: Handler, r: Response)
    requires Reachable(configs, ps, e) && h in e.handlers
    requires BeginsMitigation(Receive(h, r), r.code)
    ensures Receive(h, r).lock != Locked && Receive(h, r).lock != Pending
    ensures Judge(Receive(h, r), r.code) == (Receive(h, r).(index := 1, lock := Pending), Continue)
  {
    ReachableInv(configs, ps, e);
    var i :| 0 <= i < |e.handlers| && e.handlers[i] == h;
    assert Running(h);
  }

  // ---------- progress ----------

  /** Somebody is asked to do something, unless nobody is left. */
  predicate Busy(e: Engine) {
    e.handlers != [] ==> e.world.outstanding != map[]
  }

  lemma IdleMeansWaiting(e: Engine)
    requires EngineInv(e) && e.world.outstanding == map[]
    ensures !e.world.lock
    ensures forall i :: 0 <= i < |e.handlers| ==> e.handlers[i].lock == Pending
  {
    forall i | 0 <= i < |e.handlers| ensures e.handlers[i].lock == Pending
    {
      assert Fits(e.handlers[i], e.world) && Running(e.handlers[i]);
    }
  }

  lemma ResumeKeepsRequests(h: Handler, w: World, now: int)
    requires InSequence(h) && w.outstanding != map[]
    ensures Resume(h, w, now).w.outstanding != map[]
  {
    if CanAcquire(h, w) {
      assert w.nextId in Resume(h, w, now).w.outstanding;
    }
  }

  lemma {:induction false} SweepKeepsRequests(e: Engine, i: nat, clock: seq<int>)
    requires i <= |e.handlers| == |clock| && e.world.outstanding != map[]
    ensures Sweep(e, i, clock).world.outstanding != map[]
    decreases |e.handlers| - i
  {
    if i < |e.handlers| {
      var h := e.handlers[i];
      var t := Turn(h, e.world);
      if InSequence(h) {
        ResumeKeepsRequests(h, e.world, clock[i]);
        t := Resume(h, e.world, clock[i]);
      }
      SweepKeepsRequests(Replace(e, i, t), i + 1, clock);
    }
  }

  lemma {:induction false} SweepKeepsCount(e: Engine, i: nat, clock: seq<int>)
    requires i <= |e.handlers| == |clock|
    ensures |Sweep(e, i, clock).handlers| == |e.handlers|
    decreases |e.handlers| - i
  {
    if i < |e.handlers| {
      var h := e.handlers[i];
      var t := if InSequence(h) then Resume(h, e.world, clock[i]) else Turn(h, e.world);
      SweepKeepsCount(Replace(e, i, t), i + 1, clock);
    }
  }

  /** A pass ends with a request outstanding unless no handler is left. */
  lemma PassLeavesBusy(e: Engine, p: Pass)
    requires EngineInv(e) && Possible(e, p)
    ensures Busy(RunPass(e, p))
  {
    DispatchKeepsInv(e, p);
    var d := Dispatch(e, p.message);
    SweepKeepsCount(d, 0, p.clock);
    if d.world.outstanding != map[] {
      SweepKeepsRequests(d, 0, p.clock);
    } else if d.handlers != [] {
      IdleMeansWaiting(d);
      SweepFromFree(d, 0, 0, p.clock);
      assert d.world.nextId in Sweep(d, 0, p.clock).world.outstanding;
    }
  }

  lemma {:induction false} ReachedIsBusy(e: Engine, ps: seq<Pass>, e': Engine)
    requires EngineInv(e) && Busy(e) && Reaches(e, ps, e')
    ensures Busy(e')
    decreases |ps|
  {
    if ps != [] {
      PassKeepsInv(e, ps[0]);
      PassLeavesBusy(e, ps[0]);
      ReachedIsBusy(RunPass(e, ps[0]), ps[1..], e');
    }
  }

  lemma StartIsBusy(configs: seq<Config>)
    ensures Busy(StartAll(configs))
  {
    StartAllInv(configs);
    var e := StartAll(configs);
    if configs != [] {
      var before := StartAll(configs[..|configs| - 1]);
      assert before.world.nextId in e.world.outstanding;
    }
  }

  /**
    The engine never stalls: in every reachable state with a tracked handler some request is
    outstanding, so the loop has an answer to wait for.
   */
  lemma EngineNeverStalls(configs: seq<Config>, ps: seq<Pass>, e: Engine)
    requires Reachable(configs, ps, e) && e.handlers != []
    ensures exists id, i :: id in e.world.outstanding && 0 <= i < |e.handlers| && e.handlers[i].ctId == id
  {
    StartAllInv(configs);
    StartIsBusy(configs);
    ReachedIsBusy(StartAll(configs), ps, e);
    ReachableInv(configs, ps, e);
    var id :| id in e.world.outstanding;
  }

  // ---------- events ----------

  lemma {:induction false} PrefixIsClean(actions: seq<string>, trace: seq<Event>, p: nat)
    requires p <= |trace|
    ensures var d, d0 := DigestOf(actions, trace), DigestOf(actions, trace[..p]);
            && (d.guarded ==> d0.guarded)
            && (d.exact ==> d0.exact)
            && (d.honest ==> d0.honest)
            && (!d.phase.Broken? ==> !d0.phase.Broken?)
    decreases |trace|
  {
    if p == |trace| {
      assert trace[..p] == trace;
    } else {
      PrefixIsClean(actions, trace[..|trace| - 1], p);
      assert trace[..|trace| - 1][..p] == trace[..p];
    }
  }

  /** The states published since the last start of a sequence. */
  function Current(trace: seq<Event>): seq<State> {
    if trace == [] then []
    else
      match trace[|trace| - 1]
      case Started => []
      case Published(s, _) => Current(trace[..|trace| - 1]) + [s]
      case _ => Current(trace[..|trace| - 1])
  }

  /** A prefix of: init, in-progress*, (timeout, in-progress*)?, complete. */
  predicate InOrder(states: seq<State>) {
    && (forall i :: 0 <= i < |states| ==> (states[i] == Init <==> i == 0))
    && (forall i :: 0 <= i < |states| && states[i] == Complete ==> i == |states| - 1)
    && (forall i, j :: 0 <= i < j < |states| ==> states[i] != Timeout || states[j] != Timeout)
  }

  predicate PhaseShows(p: Phase, states: seq<State>) {
    match p
    case NotStarted => states == []
    case Fresh => states == []
    case Open => states != [] && Timeout !in states && Complete !in states
    case Expired => states != [] && Timeout in states && Complete !in states
    case Closed => states != [] && states[|states| - 1] == Complete
    case Broken => true
  }

  lemma {:induction false} PhaseIsOrder(actions: seq<string>, trace: seq<Event>)
    requires !DigestOf(actions, trace).phase.Broken?
    ensures InOrder(Current(trace)) && PhaseShows(DigestOf(actions, trace).phase, Current(trace))
    decreases |trace|
  {
    if trace != [] {
      PrefixIsClean(actions, trace, |trace| - 1);
      PhaseIsOrder(actions, trace[..|trace| - 1]);
    }
  }

  /** Facts about the event at position p of a clean trace. */
  lemma EventFacts(actions: seq<string>, trace: seq<Event>, p: nat)
    requires p < |trace|
    requires DigestOf(actions, trace).guarded && DigestOf(actions, trace).exact && !DigestOf(actions, trace).phase.Broken?
    ensures var before := trace[..p];
            && InOrder(Current(before))
            && InOrder(Current(trace[..p + 1]))
            && (trace[p].Started? && p > 0 && Current(before) != [] ==> Current(before)[|Current(before)| - 1] == Complete)
            && (trace[p].Requested? && trace[p].index >= 1 ==>
                  trace[p].held && Timeout !in Current(before) && Complete !in Current(before))
            && ExactRequest(actions, DigestOf(actions, before).context, trace[p])
  {
    PrefixIsClean(actions, trace, p);
    PrefixIsClean(actions, trace, p + 1);
    assert trace[..p + 1][..p] == trace[..p];
    PhaseIsOrder(actions, trace[..p]);
    PhaseIsOrder(actions, trace[..p + 1]);
  }

  ghost predicate Clean(h: Handler) {
    CleanTrace(h) && !Read(h).phase.Broken?
  }

  lemma EveryTraceIsClean(configs: seq<Config>, ps: seq<Pass>, e: Engine, h: Handler)
    requires Reachable(configs, ps, e) && (h in e.handlers || h in e.dropped)
    ensures Clean(h)
  {
    ReachableInv(configs, ps, e);
    if h in e.handlers {
      var i :| 0 <= i < |e.handlers| && e.handlers[i] == h;
      assert Running(h);
    } else {
      var i :| 0 <= i < |e.dropped| && e.dropped[i] == h;
    }
  }

  /**
    At every moment of every run, the states published since a sequence began are a prefix of
    init, in-progress*, (timeout, in-progress*)?, complete; a sequence that has published anything
    is complete before the next begins.
   */
  lemma PublicationGrammar(configs: seq<Config>, ps: seq<Pass>, e: Engine, h: Handler, p: nat)
    requires Reachable(configs, ps, e) && (h in e.handlers || h in e.dropped)
    requires p < |h.trace|
    ensures InOrder(Current(h.trace[..p])) && InOrder(Current(h.trace))
    ensures h.trace[p].Started? && Current(h.trace[..p]) != [] ==>
              Current(h.trace[..p])[|Current(h.trace[..p])| - 1] == Complete
  {
    EveryTraceIsClean(configs, ps, e, h);
    EventFacts(h.actions, h.trace, p);
    PhaseIsOrder(h.actions, h.trace);
  }

  /**
    A request for a mitigation action is written only while its handler holds the lock, and never
    after the lock of that sequence has expired.  Every outstanding mitigation request belongs to
    the lock holder or to a handler whose lock was released by expiry.
   */
  lemma GuardedMitigation(configs: seq<Config>, ps: seq<Pass>, e: Engine)
    requires Reachable(configs, ps, e)
    ensures forall h, p {:trigger h.trace[p]} ::
              (h in e.handlers || h in e.dropped) && 0 <= p < |h.trace| && h.trace[p].Requested? && h.trace[p].index >= 1 ==>
                h.trace[p].held && Timeout !in Current(h.trace[..p])
    ensures forall id :: id in e.world.outstanding ==> exists i :: 0 <= i < |e.handlers| && HoldsRequest(e, i, id)
  {
    ReachableInv(configs, ps, e);
    forall h, p {:trigger h.trace[p]} | (h in e.handlers || h in e.dropped) && 0 <= p < |h.trace| && h.trace[p].Requested? && h.trace[p].index >= 1
      ensures h.trace[p].held && Timeout !in Current(h.trace[..p])
    {
      EveryTraceIsClean(configs, ps, e, h);
      EventFacts(h.actions, h.trace, p);
    }
    forall id | id in e.world.outstanding ensures exists i :: 0 <= i < |e.handlers| && HoldsRequest(e, i, id)
    {
      var i :| 0 <= i < |e.handlers| && e.handlers[i].ctId == id;
      RequestHasHolder(e, i);
    }
  }

  /** Request id is the one handler i waits for; past the anomaly it holds the lock or has timed out. */
  ghost predicate HoldsRequest(e: Engine, i: nat, id: nat)
    requires i < |e.handlers|
  {
    var h := e.handlers[i];
    && h.ctId == id
    && id in e.world.outstanding
    && h.index < |h.actions|
    && e.world.outstanding[id].action == h.actions[h.index]
    && (h.index >= 1 ==>
          if h.lock == Locked then e.world.lock else h.lock == NoLock && Timeout in Current(h.trace))
  }

  lemma RequestHasHolder(e: Engine, i: nat)
    requires EngineInv(e) && i < |e.handlers| && e.handlers[i].ctId in e.world.outstanding
    ensures HoldsRequest(e, i, e.handlers[i].ctId)
  {
    var h := e.handlers[i];
    assert Running(h) && Fits(h, e.world);
    PhaseIsOrder(h.actions, h.trace);
  }

  // ---------- contexts ----------

  /** The data of the latest good response of an action in the present sequence. */
  function LatestData(trace: seq<Event>, action: string): Option<string> {
    if trace == [] then None
    else
      match trace[|trace| - 1]
      case Started => None
      case Answered(r) =>
        if r.code == 0 && r.action == action then Some(r.data) else LatestData(trace[..|trace| - 1], action)
      case _ => LatestData(trace[..|trace| - 1], action)
  }

  lemma {:induction false} ContextIsLatest(actions: seq<string>, trace: seq<Event>, action: string)
    ensures var c := DigestOf(actions, trace).context;
            LatestData(trace, action) == if action in c then Some(c[action]) else None
    decreases |trace|
  {
    if trace != [] {
      ContextIsLatest(actions, trace[..|trace| - 1], action);
    }
  }

  /**
    Every request for the k-th action names that action and carries a context whose keys are
    exactly the names of actions 0..k-1, each with the data of its latest response in this sequence.
   */
  lemma ContextExactness(configs: seq<Config>, ps: seq<Pass>, e: Engine, h: Handler, p: nat)
    requires Reachable(configs, ps, e) && (h in e.handlers || h in e.dropped)
    requires p < |h.trace| && h.trace[p].Requested?
    ensures var k, req := h.trace[p].index, h.trace[p].req;
            && k < |h.actions|
            && req.action == h.actions[k]
            && req.context.Keys == Names(h.actions, k)
            && forall a :: a in req.context ==> LatestData(h.trace[..p], a) == Some(req.context[a])
  {
    EveryTraceIsClean(configs, ps, e, h);
    EventFacts(h.actions, h.trace, p);
    forall a ensures LatestData(h.trace[..p], a) ==
                     var c := DigestOf(h.actions, h.trace[..p]).context; if a in c then Some(c[a]) else None
    {
      ContextIsLatest(h.actions, h.trace[..p], a);
    }
  }

  // ---------- result codes ----------

  /** The result code of the latest response. */
  function LastCode(trace: seq<Event>): int {
    if trace == [] then 0
    else if trace[|trace| - 1].Answered? then trace[|trace| - 1].resp.code
    else LastCode(trace[..|trace| - 1])
  }

  /** How many responses of the present sequence were good. */
  function GoodResponses(trace: seq<Event>): nat {
    if trace == [] then 0
    else
      match trace[|trace| - 1]
      case Started => 0
      case Answered(r) => GoodResponses(trace[..|trace| - 1]) + (if r.code == 0 then 1 else 0)
      case _ => GoodResponses(trace[..|trace| - 1])
  }

  lemma {:induction false} CodesAreRead(actions: seq<string>, trace: seq<Event>)
    ensures DigestOf(actions, trace).last == LastCode(trace)
    ensures DigestOf(actions, trace).good == GoodResponses(trace)
    decreases |trace|
  {
    if trace != [] {
      CodesAreRead(actions, trace[..|trace| - 1]);
    }
  }

  lemma CodeFacts(actions: seq<string>, trace: seq<Event>, p: nat)
    requires p < |trace| && DigestOf(actions, trace).honest && !DigestOf(actions, trace).phase.Broken?
    ensures HonestCode(actions, DigestOf(actions, trace[..p]), trace[p])
    ensures DigestOf(actions, trace[..p]).phase.Expired? ==> Timeout in Current(trace[..p])
  {
    PrefixIsClean(actions, trace, p);
    PrefixIsClean(actions, trace, p + 1);
    assert trace[..p + 1][..p] == trace[..p];
    PhaseIsOrder(actions, trace[..p]);
  }

  /**
    Every published result code tells what happened.  A sequence completes with -1 when there is no
    mitigation, else with the code of its failing response, else with 0 exactly when every action
    answered well, and otherwise with -2, and then the lock had expired.
   */
  lemma ResultCodes(configs: seq<Config>, ps: seq<Pass>, e: Engine, h: Handler, p: nat)
    requires Reachable(configs, ps, e) && (h in e.handlers || h in e.dropped)
    requires p < |h.trace| && h.trace[p].Published?
    ensures var before, code := h.trace[..p], h.trace[p].code;
            match h.trace[p].state
            case Init => code == LastCode(before)
            case InProgress => true
            case Timeout => code == -3
            case Complete =>
              if |h.actions| == 1 then code == -1
              else if LastCode(before) != 0 then code == LastCode(before)
              else if GoodResponses(before) == |h.actions| then code == 0
              else code == -2 && Timeout in Current(before)
  {
    EveryTraceIsClean(configs, ps, e, h);
    CodeFacts(h.actions, h.trace, p);
    CodesAreRead(h.actions, h.trace[..p]);
  }

  // ---------- termination ----------

  function ResponsesTaken(trace: seq<Event>): nat {
    if trace == [] then 0
    else ResponsesTaken(trace[..|trace| - 1]) + (if trace[|trace| - 1].Answered? then 1 else 0)
  }

  lemma {:induction false} ResponsesAreCounted(actions: seq<string>, trace: seq<Event>)
    ensures DigestOf(actions, trace).answers == ResponsesTaken(trace)
    decreases |trace|
  {
    if trace != [] {
      ResponsesAreCounted(actions, trace[..|trace| - 1]);
    }
  }

  lemma {:induction false} Product(a: nat, b: nat, c: nat)
    requires a < b
    ensures a * c + c <= b * c
  {
    if a + 1 < b {
      Product(a, b - 1, c);
      assert b * c == (b - 1) * c + c;
    }
  }

  /** A handler takes at most one response per action and run, whatever the result codes and timeouts. */
  lemma ResponsesAreBounded(configs: seq<Config>, ps: seq<Pass>, e: Engine, h: Handler)
    requires Reachable(configs, ps, e) && (h in e.handlers || h in e.dropped)
    ensures ResponsesTaken(h.trace) <= Runs(h) * |h.actions|
    ensures h in e.handlers ==> ResponsesTaken(h.trace) < Runs(h) * |h.actions|
  {
    ReachableInv(configs, ps, e);
    ResponsesAreCounted(h.actions, h.trace);
    if h in e.handlers {
      var i :| 0 <= i < |e.handlers| && e.handlers[i] == h;
      assert Running(h);
      Product(h.runIndex, Runs(h), |h.actions|);
    } else {
      var i :| 0 <= i < |e.dropped| && e.dropped[i] == h;
    }
  }

  /** h' has fewer (runs left, actions left) than h, in the lexicographic order. */
  predicate Lower(h': Handler, h: Handler) {
    && h'.actions == h.actions
    && h'.runCnt == h.runCnt
    && (|| (h'.runIndex == h.runIndex + 1 <= Runs(h) && (h'.runComplete <==> h'.runIndex == Runs(h)))
        || (h'.runIndex == h.runIndex && h.index < h'.index < |h.actions|))
  }

  lemma FinishCountsTheRun(h: Handler, w: World, code: int)
    requires h.actions != [] && !h.runComplete && h.runIndex < Runs(h)
    ensures var h' := Finish(h, w, code).h;
            && h'.actions == h.actions && h'.runCnt == h.runCnt && h'.runIndex == h.runIndex + 1
            && (h'.runComplete <==> h'.runIndex == Runs(h))
  {
  }

  lemma ProceedKeepsTheIndex(h: Handler, w: World, now: int)
    requires InSequence(h)
    ensures var h' := Proceed(h, w, now).h;
            h'.actions == h.actions && h'.runCnt == h.runCnt && h'.runIndex == h.runIndex && h'.index == h.index
  {
  }

  /** Every accepted response lowers (runs left, actions left) in the lexicographic order. */
  lemma ResponseLowersMeasure(h: Handler, w: World, r: Response, now: int)
    requires Running(h) && Fits(h, w) && Awaits(h) && Matches(h, r.action, r.id)
    ensures Lower(Respond(h, w, r, now).h, h)
  {
    var (h1, verdict) := Judge(Receive(h, r), r.code);
    var w1 := w.(outstanding := w.outstanding - {r.id});
    match verdict
    case Finished(code) => FinishCountsTheRun(h1, w1, code);
    case Continue => ProceedKeepsTheIndex(h1.(context := h1.context[r.action := r.data]), w1, now);
  }

  // ---------- dispatch ----------

  lemma OnlyTheWriterMatches(e: Engine, k: nat, r: Response)
    requires EngineInv(e) && k < |e.handlers| && Answers(e.world, r) && e.handlers[k].ctId == r.id
    ensures Matches(e.handlers[k], r.action, r.id)
    ensures forall i :: 0 <= i < |e.handlers| && i != k ==> !Matches(e.handlers[i], r.action, r.id)
  {
    assert Fits(e.handlers[k], e.world);
  }

  lemma {:induction false} OffersPassOn(e: Engine, i: nat, k: nat, r: Response, now: int)
    requires i <= k <= |e.handlers|
    requires forall j :: i <= j < k ==> !Matches(e.handlers[j], r.action, r.id)
    ensures OfferResponse(e, i, r, now) == OfferResponse(e, k, r, now)
    decreases k - i
  {
    if i < k {
      OthersPass(e, i, r, now);
      OffersPassOn(e, i + 1, k, r, now);
    }
  }

  /** A possible response reaches the one handler that waits for it, wherever it stands, and no other. */
  lemma ResponseReachesItsHandler(e: Engine, k: nat, r: Response, now: int)
    requires EngineInv(e) && k < |e.handlers|
    requires Answers(e.world, r) && e.handlers[k].ctId == r.id
    ensures Matches(e.handlers[k], r.action, r.id) && OfferResponse(e, 0, r, now) == Served(e, k, r, now)
  {
    OnlyTheWriterMatches(e, k, r);
    OffersPassOn(e, 0, k, r, now);
    TakerIsTheLast(e, k, r, now);
  }

  lemma TakerIsTheLast(e: Engine, k: nat, r: Response, now: int)
    requires EngineInv(e) && k < |e.handlers| && Matches(e.handlers[k], r.action, r.id)
    ensures OfferResponse(e, k, r, now) == Served(e, k, r, now)
  {
    var h := e.handlers[k];
    TakerOffers(e, k, r, now);
    if !EndsSequence(h, r) {
      RunningIsNotComplete(e, k);
      ContinuingIsNotComplete(h, e.world, r, now);
      NobodyElseMatches(Replace(e, k, Respond(h, e.world, r, now)), k + 1, r, now);
    }
  }

  lemma {:induction false} NobodyElseMatches(e: Engine, i: nat, r: Response, now: int)
    requires i <= |e.handlers|
    requires forall j :: i <= j < |e.handlers| ==> e.handlers[j].ctId != r.id
    ensures OfferResponse(e, i, r, now) == e
    decreases |e.handlers| - i
  {
    if i < |e.handlers| {
      assert Replace(e, i, Turn(e.handlers[i], e.world)) == e;
      NobodyElseMatches(e, i + 1, r, now);
    }
  }

  // ---------- sweeps ----------

  /** `resume` on handler i would change nothing now. */
  predicate Idle(e: Engine, i: nat, clock: seq<int>)
    requires i < |e.handlers| == |clock|
  {
    !CanAcquire(e.handlers[i], e.world) && !Expires(e.handlers[i], clock[i])
  }

  lemma {:induction false} IdleSweep(e: Engine, i: nat, j: nat, clock: seq<int>)
    requires i <= j <= |e.handlers| == |clock|
    requires forall k :: i <= k < j ==> Idle(e, k, clock)
    ensures Sweep(e, i, clock) == Sweep(e, j, clock)
    decreases j - i
  {
    if i < j {
      assert Idle(e, i, clock);
      assert Replace(e, i, Turn(e.handlers[i], e.world)) == e;
      IdleSweep(e, i + 1, j, clock);
    }
  }

  predicate FirstPending(e: Engine, from: nat, k: nat) {
    && from <= k < |e.handlers|
    && e.handlers[k].lock == Pending
    && forall j :: from <= j < k ==> e.handlers[j].lock != Pending
  }

  /** The handler k takes the lock and writes the first request of its mitigation. */
  ghost predicate Grants(e: Engine, k: nat, e': Engine)
    requires k < |e.handlers|
  {
    && |e'.handlers| == |e.handlers|
    && (forall j :: 0 <= j < |e.handlers| && j != k ==> e'.handlers[j] == e.handlers[j])
    && InSequence(e.handlers[k])
    && e'.handlers[k].lock == Locked
    && e'.world.lock
    && e'.world.nextId == e.world.nextId + 1
    && e'.world.outstanding == e.world.outstanding[e.world.nextId := NextRequest(e.handlers[k], e.world.nextId)]
  }

  lemma NobodyHolds(e: Engine)
    requires EngineInv(e) && !e.world.lock
    ensures forall j :: 0 <= j < |e.handlers| ==> e.handlers[j].lock != Locked && e.handlers[j].lockExp == 0
  {
    forall j | 0 <= j < |e.handlers| ensures e.handlers[j].lock != Locked && e.handlers[j].lockExp == 0
    {
      assert Running(e.handlers[j]);
    }
  }

  lemma ResumeGrants(e: Engine, k: nat, now: int)
    requires k < |e.handlers| && InSequence(e.handlers[k]) && CanAcquire(e.handlers[k], e.world)
    ensures Grants(e, k, Replace(e, k, Resume(e.handlers[k], e.world, now)))
  {
  }

  lemma SweepFromFree(e: Engine, i: nat, k: nat, clock: seq<int>)
    requires EngineInv(e) && !e.world.lock && |clock| == |e.handlers| && FirstPending(e, i, k)
    ensures Grants(e, k, Sweep(e, i, clock))
  {
    NobodyHolds(e);
    IdleSweep(e, i, k, clock);
    assert Running(e.handlers[k]);
    ResumeGrants(e, k, clock[k]);
    IdleSweep(Replace(e, k, Resume(e.handlers[k], e.world, clock[k])), k + 1, |e.handlers|, clock);
  }

  /**
    A sweep that finds the lock free and somebody waiting gives it to the first Pending handler,
    which writes one request; every other handler stays as it is.
   */
  lemma SweepGrantsTheLock(e: Engine, k: nat, clock: seq<int>)
    requires EngineInv(e) && !e.world.lock && |clock| == |e.handlers| && FirstPending(e, 0, k)
    ensures Grants(e, k, Sweep(e, 0, clock))
  {
    SweepFromFree(e, 0, k, clock);
  }

  /** A sweep during which the holder's lock has not expired, or with nobody to serve, changes nothing. */
  lemma SweepKeepsTheLock(e: Engine, clock: seq<int>)
    requires EngineInv(e) && |clock| == |e.handlers|
    requires forall i :: 0 <= i < |e.handlers| ==>
               if e.world.lock then e.handlers[i].lock == Locked ==> !Expires(e.handlers[i], clock[i])
               else e.handlers[i].lock != Pending
    ensures Sweep(e, 0, clock) == e
  {
    forall k | 0 <= k < |e.handlers| ensures Idle(e, k, clock)
    {
      assert Running(e.handlers[k]);
    }
    IdleSweep(e, 0, |e.handlers|, clock);
  }

  /** The state in mid-sweep, once the expired holder k has given up the lock. */
  function Released(e: Engine, k: nat): Engine
    requires k < |e.handlers|
  {
    var t := Release(e.handlers[k], e.world);
    Replace(e, k, Turn(Publish(t.h, Timeout, MITIGATION_TIMEOUT), t.w))
  }

  lemma SweepReachesTheHolder(e: Engine, k: nat, clock: seq<int>)
    requires EngineInv(e) && k < |e.handlers| == |clock|
    requires e.handlers[k].lock == Locked && Expires(e.handlers[k], clock[k])
    ensures EngineInv(Released(e, k)) && !Released(e, k).world.lock
    ensures Sweep(e, 0, clock) == Sweep(Released(e, k), k + 1, clock)
  {
    HolderIsAlone(e, k);
    forall j | 0 <= j < k ensures Idle(e, j, clock)
    {
      assert Running(e.handlers[j]);
    }
    IdleSweep(e, 0, k, clock);
    assert Running(e.handlers[k]);
    ResumeRuns(e.handlers[k], e.world, clock[k]);
    ResumeShares(e.handlers[k], e.world, clock[k]);
    TurnKeepsInv(e, k, Resume(e.handlers[k], e.world, clock[k]));
  }

  /**
    A sweep past the holder's expiry releases it and publishes the timeout; the first handler after
    it in order that waits for the lock gets it in the same sweep.
   */
  lemma SweepReleasesTheHolder(e: Engine, k: nat, clock: seq<int>)
    requires EngineInv(e) && k < |e.handlers| == |clock|
    requires e.handlers[k].lock == Locked && Expires(e.handlers[k], clock[k])
    ensures var e1 := Released(e, k);
            && !e1.world.lock
            && e1.handlers[k].lock == NoLock
            && Timeout in Current(e1.handlers[k].trace)
            && (forall p :: FirstPending(e, k + 1, p) ==> Grants(e1, p, Sweep(e, 0, clock)))
            && ((forall p :: k < p < |e.handlers| ==> e.handlers[p].lock != Pending) ==> Sweep(e, 0, clock) == e1)
  {
    SweepReachesTheHolder(e, k, clock);
    TimeoutIsPublished(e.handlers[k], e.world);
    var e1 := Released(e, k);
    forall p | FirstPending(e, k + 1, p) ensures Grants(e1, p, Sweep(e, 0, clock))
    {
      SweepFromFree(e1, k + 1, p, clock);
    }
    if forall p :: k < p < |e.handlers| ==> e.handlers[p].lock != Pending {
      forall j | k < j < |e1.handlers| ensures Idle(e1, j, clock)
      {
        assert Running(e1.handlers[j]);
      }
      IdleSweep(e1, k + 1, |e1.handlers|, clock);
    }
  }

  lemma HolderIsAlone(e: Engine, k: nat)
    requires EngineInv(e) && k < |e.handlers| && e.handlers[k].lock == Locked
    ensures e.world.lock
    ensures forall j :: 0 <= j < |e.handlers| && j != k ==> e.handlers[j].lock != Locked && e.handlers[j].lockExp == 0
  {
    forall j | 0 <= j < |e.handlers| && j != k ensures e.handlers[j].lock != Locked && e.handlers[j].lockExp == 0
    {
      assert Running(e.handlers[j]);
    }
  }

  lemma TimeoutIsPublished(h: Handler, w: World)
    ensures Timeout in Current(Publish(Release(h, w).h, Timeout, MITIGATION_TIMEOUT).trace)
  {
    var trace := Publish(Release(h, w).h, Timeout, MITIGATION_TIMEOUT).trace;
    assert trace[..|trace| - 1] == h.trace;
    assert Current(trace)[|Current(h.trace)|] == Timeout;
  }
}
