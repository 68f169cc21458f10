/**
  The mitigation protocol of test_main.AnomalyHandler on values: what each method does to one
  handler and to what all handlers share.
 */
module Mitigation {
  import opened Wrappers

  datatype Lock = NoLock | Locked | Pending

  datatype State = Init | InProgress | Timeout | Complete

  datatype Request = Request(action: string, id: nat, anomalyId: nat, key: string, context: map<string, string>)

  datatype Response = Response(action: string, id: nat, key: string, data: string, code: int)

  /** The re-published anomaly: its state and result code. */
  datatype Anomaly = Anomaly(state: State, code: int)

  /** What a handler does that others can see; `held` tells whether it held the lock when it wrote. */
  datatype Event =
    | Started
    | Requested(index: nat, req: Request, held: bool)
    | Granted(time: int) // the lock, by the clock that was read
    | Answered(resp: Response)
    | Beat     // a heartbeat published before the anomaly itself
    | Relayed  // a later response, published as it came
    | Published(state: State, code: int)

  datatype Handler = Handler(
    actions: seq<string>, // the anomaly action, then its bindings
    runCnt: int,
    lockTimeout: int,
    runIndex: nat,
    runComplete: bool,
    index: nat,
    ctId: nat,
    anomalyId: Option<nat>,
    key: string,
    anomaly: Option<Anomaly>,
    context: map<string, string>,
    lock: Lock,
    lockExp: int,
    trace: seq<Event>) // history

  /** The global lock, the next fresh instance id, and the requests not answered yet. */
  datatype World = World(lock: bool, nextId: nat, outstanding: map<nat, Request>)

  datatype Turn = Turn(h: Handler, w: World)

  datatype Verdict = Continue | Finished(code: int)

  const NO_MITIGATION := -1
  const LOCK_BEFORE_START := -1
  const LOCK_TIMED_OUT := -2
  const MITIGATION_TIMEOUT := -3

  function NewHandler(name: string, bindings: seq<string>, runCnt: int, lockTimeout: int): Handler {
    Handler([name] + bindings, runCnt, lockTimeout, 0, false, 0, 0, None, "", None, map[], NoLock, 0, [])
  }

  function Log(h: Handler, e: Event): Handler {
    h.(trace := h.trace + [e])
  }

  function Publish(h: Handler, state: State, code: int): Handler {
    Log(h.(anomaly := Some(Anomaly(state, code))), Published(state, code))
  }

  predicate InSequence(h: Handler) {
    h.index < |h.actions|
  }

  function NextRequest(h: Handler, id: nat): Request
    requires InSequence(h)
  {
    Request(h.actions[h.index], id, if h.anomalyId.Some? then h.anomalyId.value else id, h.key, h.context)
  }

  function WriteRequest(h: Handler, w: World): Turn
    requires InSequence(h)
  {
    var req := NextRequest(h, w.nextId);
    Turn(Log(h.(ctId := w.nextId, anomalyId := Some(req.anomalyId)),
             Requested(h.index, req, h.lock == Locked && w.lock)),
         w.(nextId := w.nextId + 1, outstanding := w.outstanding[w.nextId := req]))
  }

  function Reset(h: Handler): Handler {
    Log(h.(index := 0, context := map[], anomalyId := None, key := "", anomaly := None), Started)
  }

  function Start(h: Handler, w: World): Turn
    requires h.actions != []
  {
    if h.runComplete then Turn(h, w) else WriteRequest(Reset(h), w)
  }

  function Release(h: Handler, w: World): Turn {
    if h.lock == Locked then Turn(h.(lock := NoLock, lockExp := 0), w.(lock := false)) else Turn(h, w)
  }

  function Acquire(h: Handler, w: World, now: int): Turn {
    Turn(Log(h.(lock := Locked, lockExp := now + h.lockTimeout), Granted(now)), w.(lock := true))
  }

  predicate CanAcquire(h: Handler, w: World) {
    h.lock == Pending && !w.lock
  }

  predicate Expires(h: Handler, now: int) {
    h.lockExp != 0 && now > h.lockExp
  }

  /** `resume`: takes the lock if it is waited for and free, else gives it up if it has expired. */
  function Resume(h: Handler, w: World, now: int): Turn
    requires InSequence(h)
  {
    if CanAcquire(h, w) then
      var t := Acquire(h, w, now);
      WriteRequest(t.h, t.w)
    else if Expires(h, now) then
      var t := Release(h, w);
      Turn(Publish(t.h, Timeout, MITIGATION_TIMEOUT), t.w)
    else Turn(h, w)
  }

  /** The bookkeeping at the end of a sequence: release, publish, count the run. */
  function Close(h: Handler, w: World, code: int): Turn {
    var t := Release(h, w);
    var h1 := Publish(t.h, Complete, if |h.actions| == 1 then NO_MITIGATION else code);
    Turn(h1.(runIndex := h1.runIndex + 1, runComplete := h1.runIndex + 1 >= h1.runCnt), t.w)
  }

  function Finish(h: Handler, w: World, code: int): Turn
    requires h.actions != []
  {
    var t := Close(h, w, code);
    if t.h.runComplete then t else Start(t.h, t.w)
  }

  predicate Matches(h: Handler, action: string, id: nat) {
    InSequence(h) && h.actions[h.index] == action && h.ctId == id
  }

  /** The part of `process_plugin_response` that records and publishes the response. */
  function Receive(h: Handler, r: Response): Handler {
    var h1 := Log(h.(key := if h.key == "" then r.key else h.key), Answered(r));
    if h1.anomaly.None? then Publish(h1, Init, r.code) else Log(h1, Relayed)
  }

  /** Whether the sequence goes on after a result code, and with what lock state. */
  function Judge(h: Handler, code: int): (Handler, Verdict) {
    if code != 0 then (h, Finished(code))
    else
      var h1 := h.(index := h.index + 1);
      if h1.index >= |h1.actions| then (h1, Finished(0))
      else if h1.index == 1 then
        if h1.lock == Locked then (h1, Finished(LOCK_BEFORE_START)) else (h1.(lock := Pending), Continue)
      else if h1.lock == NoLock then (h1, Finished(LOCK_TIMED_OUT))
      else (h1, Continue)
  }

  function Proceed(h: Handler, w: World, now: int): Turn
    requires InSequence(h)
  {
    if h.lock == Locked then WriteRequest(h, w) else Resume(h, w, now)
  }

  function Respond(h: Handler, w: World, r: Response, now: int): Turn
    requires Matches(h, r.action, r.id)
  {
    var w1 := w.(outstanding := w.outstanding - {r.id});
    var (h1, verdict) := Judge(Receive(h, r), r.code);
    match verdict
    case Finished(code) => Finish(h1, w1, code)
    case Continue => Proceed(h1.(context := h1.context[r.action := r.data]), w1, now)
  }

  /** `process_plugin_response` answers true only when the response ended a sequence. */
  predicate EndsSequence(h: Handler, r: Response) {
    Matches(h, r.action, r.id) && Judge(Receive(h, r), r.code).1.Finished?
  }

  function ProcessResponse(h: Handler, w: World, r: Response, now: int): Turn {
    if Matches(h, r.action, r.id) then Respond(h, w, r, now) else Turn(h, w)
  }

  function ProcessHeartbeat(h: Handler, action: string, id: nat): Handler {
    if !Matches(h, action, id) then h
    else if h.anomaly.None? then Log(h, Beat)
    else Publish(h, InProgress, h.anomaly.value.code)
  }

  // ---------- reading a trace ----------

  /** How far the latest sequence in a trace has come. */
  datatype Phase = NotStarted | Fresh | Open | Expired | Closed | Broken

  /** `actions` names the sequence that the requests are checked against. */
  datatype Digest = Digest(
    phase: Phase,
    context: map<string, string>, // latest good response of each action in this sequence
    guarded: bool,                // every mitigation request was written under the lock
    exact: bool,                  // every request carried exactly that context
    honest: bool,                 // every published result code told what happened
    good: nat,                    // good responses in this sequence
    last: int,                    // code of the latest response
    answers: nat)

  function NextPhase(p: Phase, e: Event): Phase {
    match e
    case Started => if p.NotStarted? || p.Closed? then Fresh else Broken
    case Requested(k, _, _) => if (if k == 0 then p.Fresh? else p.Open?) then p else Broken
    case Published(Init, _) => if p.Fresh? then Open else Broken
    case Published(InProgress, _) => if p.Open? || p.Expired? then p else Broken
    case Published(Timeout, _) => if p.Open? then Expired else Broken
    case Published(Complete, _) => if p.Open? || p.Expired? then Closed else Broken
    case _ => if p.Fresh? || p.Open? || p.Expired? then p else Broken
  }

  function NextContext(c: map<string, string>, e: Event): map<string, string> {
    match e
    case Started => map[]
    case Answered(r) => if r.code == 0 then c[r.action := r.data] else c
    case _ => c
  }

  function Names(actions: seq<string>, k: nat): set<string> {
    set i | 0 <= i < k && i < |actions| :: actions[i]
  }

  predicate ExactRequest(actions: seq<string>, c: map<string, string>, e: Event) {
    e.Requested? ==>
      e.index < |actions| && e.req.action == actions[e.index] && e.req.context == c && c.Keys == Names(actions, e.index)
  }

  /** The result code that a sequence ends with, from its responses alone. */
  function FinalCode(actions: seq<string>, good: nat, last: int): int {
    if |actions| == 1 then NO_MITIGATION
    else if last != 0 then last
    else if good == |actions| then 0
    else LOCK_TIMED_OUT
  }

  predicate HonestCode(actions: seq<string>, d: Digest, e: Event) {
    match e
    case Published(Init, code) => code == d.last
    case Published(Timeout, code) => code == MITIGATION_TIMEOUT
    case Published(Complete, code) =>
      && code == FinalCode(actions, d.good, d.last)
      && (|actions| != 1 && d.last == 0 && d.good != |actions| ==> d.phase.Expired?)
    case _ => true
  }

  function NextDigest(actions: seq<string>, d: Digest, e: Event): Digest {
    Digest(NextPhase(d.phase, e), NextContext(d.context, e),
           d.guarded && (e.Requested? && e.index >= 1 ==> e.held),
           d.exact && ExactRequest(actions, d.context, e),
           d.honest && HonestCode(actions, d, e),
           if e.Started? then 0 else if e.Answered? && e.resp.code == 0 then d.good + 1 else d.good,
           if e.Answered? then e.resp.code else d.last,
           d.answers + (if e.Answered? then 1 else 0))
  }

  function DigestOf(actions: seq<string>, trace: seq<Event>): Digest {
    if trace == [] then Digest(NotStarted, map[], true, true, true, 0, 0, 0)
    else NextDigest(actions, DigestOf(actions, trace[..|trace| - 1]), trace[|trace| - 1])
  }

  function Read(h: Handler): Digest {
    DigestOf(h.actions, h.trace)
  }

  lemma ReadLog(h: Handler, e: Event)
    ensures Read(Log(h, e)) == NextDigest(h.actions, Read(h), e)
  {
    assert (h.trace + [e])[..|h.trace|] == h.trace;
  }
}
