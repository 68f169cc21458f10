/**
  What a plugin holder does, told by the moves of a run alone: what was asked, what the plugin gave
  back, when it touched, and what each call of `handle_response` made of it.
 */
module HolderHistory {
  import opened Wrappers
  import opened HolderSteps
  import opened HolderProperties

  // ---------- requests and results ----------

  predicate Returns(s: Holder, m: Move) {
    m.Return? && m.thread < |s.threads| && s.threads[m.thread].Working?
  }

  /** What the plugin's `request` returned, call after call. */
  function Results(ms: seq<Move>): seq<Payload> {
    if ms == [] then []
    else
      var before, m := ms[..|ms| - 1], ms[|ms| - 1];
      Results(before) + (if Returns(Run(before), m) then [m.result] else [])
  }

  function Responses(answers: seq<Answer>): seq<Payload> {
    if answers == [] then [] else Responses(answers[..|answers| - 1]) + [answers[|answers| - 1].response]
  }

  lemma ResponsesSnoc(answers: seq<Answer>, a: Answer)
    ensures Responses(answers + [a]) == Responses(answers) + [a.response]
  {
    assert (answers + [a])[..|answers|] == answers;
  }

  lemma {:induction false} ResponseAt(answers: seq<Answer>)
    ensures |Responses(answers)| == |answers|
    ensures forall i :: 0 <= i < |answers| ==> Responses(answers)[i] == answers[i].response
  {
    if answers != [] {
      ResponseAt(answers[..|answers| - 1]);
    }
  }

  lemma StepAnswers(s: Holder, m: Move)
    ensures Responses(Step(s, m).answers) == Responses(s.answers) + (if Returns(s, m) then [m.result] else [])
  {
    if Returns(s, m) {
      ResponsesSnoc(s.answers, Answer(s.threads[m.thread].request, m.result));
    } else {
      OthersAnswerNothing(s, m);
    }
  }

  lemma OthersAnswerNothing(s: Holder, m: Move)
    requires !Returns(s, m)
    ensures Step(s, m).answers == s.answers
  {
  }

  lemma {:induction false} AnswersAreResults(ms: seq<Move>)
    ensures Responses(Run(ms).answers) == Results(ms)
  {
    if ms != [] {
      AnswersAreResults(ms[..|ms| - 1]);
      StepAnswers(Run(ms[..|ms| - 1]), ms[|ms| - 1]);
    }
  }

  /** The responses written are the plugin's results, in order, and at most the last result is unwritten. */
  lemma ResultsAreWritten(ms: seq<Move>)
    ensures Run(ms).written <= Results(ms)
    ensures |Results(ms)| <= |Run(ms).written| + 1
  {
    AnswersAreResults(ms);
    ResponseAt(Run(ms).answers);
    ExactlyOnce(ms);
    ResultsReachAtMostOneMore(ms);
  }

  lemma ResultsReachAtMostOneMore(ms: seq<Move>)
    ensures |Run(ms).answers| <= |Run(ms).written| + 1
  {
    RunKeepsInv(ms);
  }

  /** The request that `send_request` was called with last. */
  function Asked(ms: seq<Move>): Payload {
    if ms == [] then 0
    else
      var before, m := ms[..|ms| - 1], ms[|ms| - 1];
      if m.CallSend? && Run(before).main == MainIdle then m.request else Asked(before)
  }

  /** The requests for which a thread was started. */
  function Started(ms: seq<Move>): seq<Payload> {
    if ms == [] then []
    else
      var before, m := ms[..|ms| - 1], ms[|ms| - 1];
      Started(before) + (if m == MainStep && Run(before).main == StartThread then [Asked(before)] else [])
  }

  /** Main carries the request it was called with. */
  predicate CarriesRequest(s: Holder, asked: Payload) {
    match s.main
    case CheckThread(req) => req == asked
    case TestPending(req) => req == asked
    case SetRequest(req) => req == asked
    case MakeThread => s.lastRequest == asked
    case StartThread => s.lastRequest == asked
    case _ => true
  }

  lemma StepCarries(s: Holder, m: Move, asked: Payload)
    requires CarriesRequest(s, asked)
    ensures CarriesRequest(Step(s, m), if m.CallSend? && s.main == MainIdle then m.request else asked)
  {
  }

  lemma StepStarts(s: Holder, m: Move)
    requires Threads(s)
    ensures Step(s, m).accepted ==
              s.accepted + (if m == MainStep && s.main == StartThread then [s.lastRequest] else [])
  {
  }

  lemma {:induction false} StartedAsAsked(ms: seq<Move>)
    ensures CarriesRequest(Run(ms), Asked(ms)) && Run(ms).accepted == Started(ms)
  {
    if ms != [] {
      var before := ms[..|ms| - 1];
      StartedAsAsked(before);
      RunKeepsInv(before);
      StepCarries(Run(before), ms[|ms| - 1], Asked(before));
      StepStarts(Run(before), ms[|ms| - 1]);
    }
  }

  /**
    Told by the calls alone: the i-th response written is what the plugin returned for the i-th request
    that was called with and got a thread, and at most one such request is without its response.
   */
  lemma ExactlyOnceFromTheCalls(ms: seq<Move>)
    ensures Run(ms).written <= Results(ms) && |Results(ms)| <= |Started(ms)| <= |Run(ms).written| + 1
    ensures forall i :: 0 <= i < |Results(ms)| ==> i < |Run(ms).answers| && Run(ms).answers[i].request == Started(ms)[i]
  {
    ResultsAreWritten(ms);
    AnswersAreResults(ms);
    ResponseAt(Run(ms).answers);
    StartedAsAsked(ms);
    ExactlyOnce(ms);
    RunKeepsInv(ms);
  }

  // ---------- touches and heartbeats ----------

  predicate Touches(s: Holder, m: Move) {
    m.Touch? && m.thread < |s.threads| && s.threads[m.thread].Working?
  }

  /** The time of the plugin's latest touch. */
  function LatestTouch(ms: seq<Move>): Option<int> {
    if ms == [] then None
    else
      var before, m := ms[..|ms| - 1], ms[|ms| - 1];
      if Touches(Run(before), m) then Some(m.time) else LatestTouch(before)
  }

  lemma StepTouches(s: Holder, m: Move)
    ensures Step(s, m).touch == if Touches(s, m) then Some(m.time) else s.touch
  {
  }

  lemma {:induction false} TouchIsLatest(ms: seq<Move>)
    ensures Run(ms).touch == LatestTouch(ms)
  {
    if ms != [] {
      TouchIsLatest(ms[..|ms| - 1]);
      StepTouches(Run(ms[..|ms| - 1]), ms[|ms| - 1]);
    }
  }

  /** A touch is signalled by this move. */
  predicate SignalsTouch(s: Holder, m: Move) {
    m.ThreadStep? && m.thread < |s.threads| && s.threads[m.thread].Touched?
  }

  /** A touch was signalled, and since then main has neither looked at the touch nor written a response. */
  function Owed(ms: seq<Move>): bool {
    if ms == [] then false
    else
      var before, m := ms[..|ms| - 1], ms[|ms| - 1];
      if SignalsTouch(Run(before), m) then true
      else if m == MainStep && (Run(before).main == SendBeat || Run(before).main == WriteResponse) then false
      else Owed(before)
  }

  predicate AfterDrain(m: Main) {
    m.TestEnd? || m.SendBeat? || m.TestResponse? || m.WriteResponse?
  }

  lemma StepKeepsOwed(s: Holder, m: Move, owed: bool)
    requires Inv(s) && (owed ==> s.pipe > 0 || AfterDrain(s.main))
    ensures var t := Step(s, m);
            var owed' := SignalsTouch(s, m) || (owed && !(m == MainStep && (s.main == SendBeat || s.main == WriteResponse)));
            owed' ==> t.pipe > 0 || AfterDrain(t.main)
  {
  }

  lemma {:induction false} OwedIsSignalled(ms: seq<Move>)
    ensures Owed(ms) ==> Run(ms).pipe > 0 || AfterDrain(Run(ms).main)
  {
    if ms != [] {
      var before := ms[..|ms| - 1];
      OwedIsSignalled(before);
      RunKeepsInv(before);
      StepKeepsOwed(Run(before), ms[|ms| - 1], Owed(before));
    }
  }

  /**
    No touch is lost: one that was signalled, and that main has not looked at nor passed over for a
    response since, leaves the pipe non-empty whenever main is outside `handle_response`.
   */
  lemma NoLostTouch(ms: seq<Move>)
    ensures Owed(ms) && !Handling(Run(ms).main) ==> Run(ms).pipe > 0
  {
    OwedIsSignalled(ms);
  }

  /** The pipe never holds part of a signal, so a drain of 100 bytes takes whole signals. */
  lemma {:induction false} SignalsStayWhole(ms: seq<Move>)
    ensures Run(ms).pipe % |"Hello"| == 0
  {
    if ms != [] {
      SignalsStayWhole(ms[..|ms| - 1]);
      StepKeepsWhole(Run(ms[..|ms| - 1]), ms[|ms| - 1]);
    }
  }

  lemma StepKeepsWhole(s: Holder, m: Move)
    requires s.pipe % 5 == 0
    ensures Step(s, m).pipe % 5 == 0
  {
  }

  // ---------- one thread alone ----------

  /** From the plugin's return a request thread, undisturbed, sets the response, then req_end, signals and dies. */
  lemma RequestRunsToItsEnd(s: Holder, t: nat, result: Payload)
    requires t < |s.threads| && s.threads[t].Working?
    ensures var s1 := Step(s, Return(t, result));
            var s4 := Step(Step(Step(s1, ThreadStep(t)), ThreadStep(t)), ThreadStep(t));
            && s1.response == Some(result) && s1.reqEnd == s.reqEnd && s1.pipe == s.pipe
            && s4 == s1.(threads := s.threads[t := Dead], reqEnd := true, pipe := s.pipe + |"Hello"|)
  {
    var s1 := Step(s, Return(t, result));
    var s2 := Step(s1, ThreadStep(t));
    assert s2 == s1.(threads := s.threads[t := EndSet], reqEnd := true);
    var s3 := Step(s2, ThreadStep(t));
    assert s3 == s2.(threads := s.threads[t := Signalled], pipe := s.pipe + 5);
  }

  /** The fate of a request: dropped while the last thread lives or its response is unwritten, else started. */
  lemma RequestIsStartedOrDropped(ms: seq<Move>, req: Payload)
    requires Run(ms).main == MainIdle
    ensures var s := Run(ms);
            var c := Step(s, CallSend(req));
            if Newest(s) != Dead then MainMoves(c, 1) == s
            else if s.response.Some? then MainMoves(c, 2) == s.(thr := None)
            else MainMoves(c, 5) == s.(thr := Some(|s.threads|), lastRequest := req,
                                       threads := s.threads + [Begun], accepted := s.accepted + [req])
  {
    RunKeepsInv(ms);
    var s := Run(ms);
    var c := Step(s, CallSend(req));
    if Newest(s) != Dead {
      LastMove(c);
    } else {
      DeadIsLetGo(s, req);
      assert MainMoves(c, 2) == MainMoves(MainMove(c), 1);
      LastMove(MainMove(c));
      if s.response.None? {
        RequestIsStarted(s, req);
        assert MainMoves(c, 5) == MainMoves(MainMove(c), 4);
      }
    }
  }

  lemma DeadIsLetGo(s: Holder, req: Payload)
    requires Threads(s) && s.main == MainIdle && Newest(s) == Dead
    ensures MainMove(Step(s, CallSend(req))) == s.(thr := None, main := TestPending(req))
  {
  }

  lemma RequestIsStarted(s: Holder, req: Payload)
    requires s.response.None?
    ensures MainMoves(s.(thr := None, main := TestPending(req)), 4) ==
              s.(thr := Some(|s.threads|), lastRequest := req, main := MainIdle,
                 threads := s.threads + [Begun], accepted := s.accepted + [req])
  {
    var s0 := s.(thr := None, main := TestPending(req));
    FewMoves(s0);
    assert MainMove(MainMove(s0)) == s.(thr := None, lastRequest := req, main := MakeThread);
    var s3 := MainMove(MainMove(MainMove(s0)));
    assert s3 == s.(thr := Some(|s.threads|), lastRequest := req, main := StartThread, threads := s.threads + [Created]);
    assert (s.threads + [Created])[|s.threads| := Begun] == s.threads + [Begun];
  }

  // ---------- what a call of handle_response comes to ----------

  /** The state at the latest call of `handle_response`. */
  function AtCall(ms: seq<Move>): Holder {
    if ms == [] then Init()
    else
      var before := ms[..|ms| - 1];
      if ms[|ms| - 1] == CallHandle && Run(before).main == MainIdle then Run(before) else AtCall(before)
  }

  /** So far the call has written at most one response and sent no heartbeat. */
  ghost predicate WithinCall(s: Holder, c: Holder) {
    Handling(s.main) ==>
      && s.touchSent == c.touchSent
      && s.beats == c.beats
      && |s.written| == |c.written| + (if s.main == ClearResponse || s.main == ClearEnd then 1 else 0)
  }

  lemma StepStaysWithin(s: Holder, m: Move, c: Holder)
    requires WithinCall(s, c)
    ensures WithinCall(Step(s, m), if m == CallHandle && s.main == MainIdle then s else c)
  {
  }

  lemma {:induction false} RunStaysWithin(ms: seq<Move>)
    ensures WithinCall(Run(ms), AtCall(ms))
  {
    if ms != [] {
      RunStaysWithin(ms[..|ms| - 1]);
      StepStaysWithin(Run(ms[..|ms| - 1]), ms[|ms| - 1], AtCall(ms[..|ms| - 1]));
    }
  }

  /** t is the state in which a call that began in c ends. */
  predicate CallEnds(c: Holder, t: Holder) {
    if |t.written| == |c.written|
    then t.touchSent == t.touch && t.beats == (if t.touch != c.touchSent then c.beats + 1 else c.beats)
    else |t.written| == |c.written| + 1 && t.touchSent == c.touchSent && t.beats == c.beats
  }

  lemma LastStepEnds(s: Holder, m: Move, c: Holder)
    requires WithinCall(s, c) && s.main != MainFailed && Handling(s.main) && Step(s, m).main == MainIdle
    ensures CallEnds(c, Step(s, m))
  {
  }

  /**
    However the threads interleave, a call of `handle_response` either writes one response and sends no
    heartbeat, or it writes none, ends with the present touch marked as sent, and has sent one
    heartbeat exactly if that touch was not the one marked before.
   */
  lemma EveryCallAnswersOrBeats(ms: seq<Move>, m: Move)
    requires Handling(Run(ms).main) && Run(ms + [m]).main == MainIdle
    ensures CallEnds(AtCall(ms), Run(ms + [m]))
  {
    RunStaysWithin(ms);
    RunSnoc(ms, m);
    LastStepEnds(Run(ms), m, AtCall(ms));
  }
}
