/**
  The hand-off of plugin_proc.LoMPluginHolder between the main thread and its request threads, one
  statement at a time.  A move whose thread cannot go on leaves the holder as it is, so every
  sequence of moves is a run.
 */
module HolderSteps {
  import opened Wrappers

  /** A request or a response: the holder passes both on unread. */
  type Payload = int

  /** Where a request thread stands in `_run_request`. */
  datatype Thread =
    | Created                      // made, not started
    | Begun                        // about to read last_request
    | Working(request: Payload)     // inside plugin.request
    | Touched(request: Payload)     // inside do_touch_heartbeat, before its signal
    | ResponseSet
    | EndSet
    | Signalled                    // has raised its last signal, still alive
    | Dead

  /** Where the main thread stands in `handle_response` or `send_request`. */
  datatype Main =
    | MainIdle
    | TestPipe
    | ReadPipe
    | TestEnd
    | SendBeat
    | TestResponse
    | WriteResponse
    | ClearResponse
    | ClearEnd
    | CheckThread(req: Payload)
    | TestPending(req: Payload)
    | SetRequest(req: Payload)
    | MakeThread
    | StartThread
    | MainFailed                   // req_end set but no response to write

  datatype Answer = Answer(request: Payload, response: Payload)

  datatype Holder = Holder(
    main: Main,
    threads: seq<Thread>,
    thr: Option<nat>,
    response: Option<Payload>,
    reqEnd: bool,
    lastRequest: Payload,
    touch: Option<int>,
    touchSent: Option<int>,
    pipe: nat,              // bytes
    accepted: seq<Payload>,  // history: requests whose thread was started
    answers: seq<Answer>,   // history: what the plugin was asked and gave back
    written: seq<Payload>,   // history: responses sent to the engine
    beats: nat)             // history: heartbeats sent to the engine

  datatype Move =
    | CallHandle
    | CallSend(request: Payload)
    | MainStep
    | ThreadStep(thread: nat)
    | Touch(thread: nat, time: int)
    | Return(thread: nat, result: Payload)

  const SIGNAL_SIZE := 5  // "Hello"
  const DRAIN_SIZE := 100

  function Init(): Holder {
    Holder(MainIdle, [], None, None, false, 0, None, None, 0, [], [], [], 0)
  }

  predicate Alive(t: Thread) {
    t != Created && t != Dead
  }

  function HandleMove(s: Holder): Holder {
    match s.main
    case TestPipe => s.(main := if s.pipe > 0 then ReadPipe else TestEnd)
    case ReadPipe => s.(pipe := if s.pipe <= DRAIN_SIZE then 0 else s.pipe - DRAIN_SIZE, main := TestEnd)
    case TestEnd => s.(main := if s.reqEnd then TestResponse else SendBeat)
    case SendBeat =>
      if s.touchSent != s.touch then s.(touchSent := s.touch, beats := s.beats + 1, main := MainIdle)
      else s.(main := MainIdle)
    case TestResponse => s.(main := if s.response.None? then MainFailed else WriteResponse)
    case WriteResponse =>
      if s.response.None? then s.(main := MainFailed)
      else s.(written := s.written + [s.response.value], main := ClearResponse)
    case ClearResponse => s.(response := None, main := ClearEnd)
    case ClearEnd => s.(reqEnd := false, main := MainIdle)
    case _ => s
  }

  function SendMove(s: Holder): Holder {
    match s.main
    case CheckThread(req) =>
      if s.thr.Some? && s.thr.value < |s.threads| && Alive(s.threads[s.thr.value]) then s.(main := MainIdle)
      else s.(thr := None, main := TestPending(req))
    case TestPending(req) => s.(main := if s.response.Some? then MainIdle else SetRequest(req))
    case SetRequest(req) => s.(lastRequest := req, main := MakeThread)
    case MakeThread => s.(threads := s.threads + [Created], thr := Some(|s.threads|), main := StartThread)
    case StartThread =>
      if s.thr.Some? && s.thr.value < |s.threads|
      then s.(threads := s.threads[s.thr.value := Begun], accepted := s.accepted + [s.lastRequest], main := MainIdle)
      else s
    case _ => s
  }

  predicate Handling(m: Main) {
    || m.TestPipe? || m.ReadPipe? || m.TestEnd? || m.SendBeat?
    || m.TestResponse? || m.WriteResponse? || m.ClearResponse? || m.ClearEnd?
  }

  function MainMove(s: Holder): Holder {
    if Handling(s.main) then HandleMove(s) else SendMove(s)
  }

  function ThreadMove(s: Holder, t: nat): Holder
    requires t < |s.threads|
  {
    match s.threads[t]
    case Begun => s.(threads := s.threads[t := Working(s.lastRequest)])
    case Touched(req) => s.(threads := s.threads[t := Working(req)], pipe := s.pipe + SIGNAL_SIZE)
    case ResponseSet => s.(threads := s.threads[t := EndSet], reqEnd := true)
    case EndSet => s.(threads := s.threads[t := Signalled], pipe := s.pipe + SIGNAL_SIZE)
    case Signalled => s.(threads := s.threads[t := Dead])
    case _ => s
  }

  function ReturnMove(s: Holder, t: nat, result: Payload): Holder
    requires t < |s.threads| && s.threads[t].Working?
  {
    s.(threads := s.threads[t := ResponseSet], response := Some(result),
       answers := s.answers + [Answer(s.threads[t].request, result)])
  }

  function TouchMove(s: Holder, t: nat, time: int): Holder
    requires t < |s.threads| && s.threads[t].Working?
  {
    s.(threads := s.threads[t := Touched(s.threads[t].request)], touch := Some(time))
  }

  function Step(s: Holder, m: Move): Holder {
    match m
    case CallHandle => if s.main == MainIdle then s.(main := TestPipe) else s
    case CallSend(req) => if s.main == MainIdle then s.(main := CheckThread(req)) else s
    case MainStep => MainMove(s)
    case ThreadStep(t) => if t < |s.threads| then ThreadMove(s, t) else s
    case Touch(t, time) => if t < |s.threads| && s.threads[t].Working? then TouchMove(s, t, time) else s
    case Return(t, result) => if t < |s.threads| && s.threads[t].Working? then ReturnMove(s, t, result) else s
  }

  function Run(ms: seq<Move>): Holder {
    if ms == [] then Init() else Step(Run(ms[..|ms| - 1]), ms[|ms| - 1])
  }

  lemma RunSnoc(ms: seq<Move>, m: Move)
    ensures Run(ms + [m]) == Step(Run(ms), m)
  {
    assert (ms + [m])[..|ms|] == ms;
  }

  // ---------- the invariant ----------

  /** The newest request thread; the older ones are dead. */
  function Newest(s: Holder): Thread {
    if s.threads == [] then Dead else s.threads[|s.threads| - 1]
  }

  predicate BeforeResponse(t: Thread) {
    t.Created? || t.Begun? || t.Working? || t.Touched?
  }

  predicate PastEnd(t: Thread) {
    t.EndSet? || t.Signalled? || t.Dead?
  }

  ghost predicate Threads(s: Holder) {
    && (forall i :: 0 <= i < |s.threads| - 1 ==> s.threads[i] == Dead)
    && (s.thr.Some? ==> s.thr.value == |s.threads| - 1)
    && (s.thr.None? ==> Newest(s) == Dead)
    && (Newest(s) == Created <==> s.main == StartThread)
    && (s.main.TestPending? || s.main.SetRequest? || s.main.MakeThread? ==> Newest(s) == Dead)
    && |s.accepted| == |s.threads| - (if s.main == StartThread then 1 else 0)
  }

  /** The thread works on the request it was started for. */
  ghost predicate Requests(s: Holder) {
    && (Newest(s).Begun? ==> |s.accepted| == |s.threads| && s.lastRequest == s.accepted[|s.threads| - 1])
    && (Newest(s).Working? || Newest(s).Touched? ==>
          |s.accepted| == |s.threads| && Newest(s).request == s.accepted[|s.threads| - 1])
    && |s.answers| == |s.threads| - (if BeforeResponse(Newest(s)) then 1 else 0)
    && |s.answers| <= |s.accepted|
    && (forall i :: 0 <= i < |s.answers| ==> s.answers[i].request == s.accepted[i])
  }

  /** An answer is set and not yet written. */
  predicate Unwritten(s: Holder) {
    |s.written| < |s.answers|
  }

  ghost predicate Answers(s: Holder) {
    && |s.answers| - 1 <= |s.written| <= |s.answers|
    && (forall i :: 0 <= i < |s.written| ==> s.written[i] == s.answers[i].response)
    && (BeforeResponse(Newest(s)) ==> !Unwritten(s))
    && (Newest(s).ResponseSet? ==> Unwritten(s))
    && (s.main.SetRequest? || s.main.MakeThread? || s.main.StartThread? ==> !Unwritten(s))
    && s.main != MainFailed
  }

  ghost predicate Flags(s: Holder) {
    && (s.response.Some? <==> Unwritten(s) || s.main == ClearResponse)
    && (s.response.Some? && Unwritten(s) ==> s.response.value == s.answers[|s.answers| - 1].response)
    && (s.reqEnd <==> (Unwritten(s) && Newest(s) != ResponseSet) || s.main == ClearResponse || s.main == ClearEnd)
    && (s.main == TestResponse || s.main == WriteResponse ==> Unwritten(s) && s.reqEnd)
    && (s.main == ClearResponse || s.main == ClearEnd ==> !Unwritten(s) && PastEnd(Newest(s)))
  }

  /** Main has drained the pipe in this call and is still to look at the response. */
  predicate PastDrain(m: Main) {
    m.TestEnd? || m.TestResponse? || m.WriteResponse?
  }

  ghost predicate Signals(s: Holder) {
    && (s.main == ReadPipe ==> s.pipe > 0)
    && (Unwritten(s) && (Newest(s) == Signalled || Newest(s) == Dead) && !PastDrain(s.main) ==> s.pipe > 0)
  }

  ghost predicate Inv(s: Holder) {
    Threads(s) && Requests(s) && Answers(s) && Flags(s) && Signals(s)
  }

  lemma HandleKeepsThreads(s: Holder)
    requires Handling(s.main) && Threads(s) && Requests(s)
    ensures Threads(HandleMove(s)) && Requests(HandleMove(s))
  {
  }

  lemma HandleKeepsAnswers(s: Holder)
    requires Handling(s.main) && Answers(s) && Flags(s)
    ensures Answers(HandleMove(s))
  {
  }

  lemma HandleKeepsFlags(s: Holder)
    requires Handling(s.main) && Inv(s)
    ensures Flags(HandleMove(s))
  {
  }

  lemma HandleKeepsSignals(s: Holder)
    requires Handling(s.main) && Inv(s)
    ensures Signals(HandleMove(s))
  {
  }

  lemma SendKeepsThreads(s: Holder)
    requires Threads(s)
    ensures Threads(SendMove(s))
  {
  }

  lemma SendKeepsRequests(s: Holder)
    requires Inv(s)
    ensures Requests(SendMove(s))
  {
  }

  lemma SendKeepsAnswers(s: Holder)
    requires Inv(s)
    ensures Answers(SendMove(s))
  {
  }

  lemma SendKeepsFlags(s: Holder)
    requires Inv(s)
    ensures Flags(SendMove(s))
  {
  }

  lemma SendKeepsSignals(s: Holder)
    requires Inv(s)
    ensures Signals(SendMove(s))
  {
  }

  lemma OnlyTheNewestMoves(s: Holder, t: nat)
    requires Threads(s) && t < |s.threads| - 1
    ensures ThreadMove(s, t) == s
  {
  }

  lemma ThreadKeepsThreads(s: Holder)
    requires Inv(s) && s.threads != []
    ensures Threads(ThreadMove(s, |s.threads| - 1)) && Requests(ThreadMove(s, |s.threads| - 1))
  {
  }

  lemma ThreadKeepsFlags(s: Holder)
    requires Inv(s) && s.threads != []
    ensures Answers(ThreadMove(s, |s.threads| - 1)) && Flags(ThreadMove(s, |s.threads| - 1))
  {
  }

  lemma ThreadKeepsSignals(s: Holder)
    requires Inv(s) && s.threads != []
    ensures Signals(ThreadMove(s, |s.threads| - 1))
  {
  }

  lemma TouchKeepsInv(s: Holder, t: nat, time: int)
    requires Inv(s) && t < |s.threads| && s.threads[t].Working?
    ensures Inv(TouchMove(s, t, time))
  {
  }

  lemma ReturnKeepsInv(s: Holder, t: nat, result: Payload)
    requires Inv(s) && t < |s.threads| && s.threads[t].Working?
    ensures Inv(ReturnMove(s, t, result))
  {
  }

  lemma MainKeepsInv(s: Holder)
    requires Inv(s)
    ensures Inv(MainMove(s))
  {
    if Handling(s.main) {
      HandleKeepsThreads(s);
      HandleKeepsAnswers(s);
      HandleKeepsFlags(s);
      HandleKeepsSignals(s);
    } else {
      SendKeepsThreads(s);
      SendKeepsRequests(s);
      SendKeepsAnswers(s);
      SendKeepsFlags(s);
      SendKeepsSignals(s);
    }
  }

  lemma ThreadKeepsInv(s: Holder, t: nat)
    requires Inv(s) && t < |s.threads|
    ensures Inv(ThreadMove(s, t))
  {
    if t < |s.threads| - 1 {
      OnlyTheNewestMoves(s, t);
    } else {
      ThreadKeepsThreads(s);
      ThreadKeepsFlags(s);
      ThreadKeepsSignals(s);
    }
  }

  lemma CallKeepsThreads(s: Holder, m: Main)
    requires Threads(s) && Requests(s) && s.main == MainIdle && (m == TestPipe || m.CheckThread?)
    ensures Threads(s.(main := m)) && Requests(s.(main := m))
  {
  }

  lemma CallKeepsAnswers(s: Holder, m: Main)
    requires Answers(s) && Flags(s) && s.main == MainIdle && (m == TestPipe || m.CheckThread?)
    ensures Answers(s.(main := m)) && Flags(s.(main := m))
  {
  }

  lemma CallKeepsInv(s: Holder, m: Main)
    requires Inv(s) && s.main == MainIdle && (m == TestPipe || m.CheckThread?)
    ensures Inv(s.(main := m))
  {
    CallKeepsThreads(s, m);
    CallKeepsAnswers(s, m);
  }

  lemma StepKeepsInv(s: Holder, m: Move)
    requires Inv(s)
    ensures Inv(Step(s, m))
  {
    match m
    case CallHandle => if s.main == MainIdle { CallKeepsInv(s, TestPipe); }
    case CallSend(req) => if s.main == MainIdle { CallKeepsInv(s, CheckThread(req)); }
    case MainStep => MainKeepsInv(s);
    case ThreadStep(t) => if t < |s.threads| { ThreadKeepsInv(s, t); }
    case Touch(t, time) => if t < |s.threads| && s.threads[t].Working? { TouchKeepsInv(s, t, time); }
    case Return(t, result) => if t < |s.threads| && s.threads[t].Working? { ReturnKeepsInv(s, t, result); }
  }

  lemma {:induction false} RunKeepsInv(ms: seq<Move>)
    ensures Inv(Run(ms))
  {
    if ms != [] {
      RunKeepsInv(ms[..|ms| - 1]);
      StepKeepsInv(Run(ms[..|ms| - 1]), ms[|ms| - 1]);
    }
  }
}
