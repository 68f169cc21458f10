/**
  plugin_proc.LoMPluginHolder as an object: the main thread's two entry points, with the request
  threads running between any two of their statements.  ThreadsGuarantee shows that every run of
  the request threads meets the contract of `ThreadsProceed`, and MainGuarantee that every run of main
  meets that of `MainProceeds`.
 */
module PluginHolderModule {
  import opened Wrappers
  import opened HolderSteps
  import opened HolderProperties

  ghost predicate LeadsTo(ms: seq<Move>, s: Holder) {
    s == Run(ms)
  }

  /** Some run of the two kinds of threads leads to s. */
  ghost predicate Reachable(s: Holder) {
    exists ms :: LeadsTo(ms, s)
  }

  lemma StepIsReachable(s: Holder, m: Move)
    requires Reachable(s)
    ensures Reachable(Step(s, m))
  {
    var ms :| LeadsTo(ms, s);
    RunSnoc(ms, m);
    assert LeadsTo(ms + [m], Step(s, m));
  }

  lemma ReachableInv(s: Holder)
    requires Reachable(s)
    ensures Inv(s)
  {
    var ms :| LeadsTo(ms, s);
    RunKeepsInv(ms);
  }

  /** With `req_end` found set there is a response to write. */
  lemma ResponseIsThere(s: Holder)
    requires Reachable(s)
    ensures s.main == TestResponse ==> s.response.Some?
    ensures s.main == WriteResponse ==>
              s.response.Some? && s.answers != [] && s.response.value == s.answers[|s.answers| - 1].response
    ensures s.main == WriteResponse ==> |s.answers| == |s.threads|
  {
    ReachableInv(s);
  }

  lemma NothingIsLeftToWrite(s: Holder)
    requires Reachable(s) && s.main == ClearEnd
    ensures !Unwritten(s) && s.response.None?
  {
    ReachableInv(s);
  }

  /** The i-th response written is the plugin's i-th answer. */
  ghost predicate Answered(written: seq<Payload>, answers: seq<Answer>) {
    |written| <= |answers| && forall i :: 0 <= i < |written| ==> written[i] == answers[i].response
  }

  lemma WrittenIsAnswered(s: Holder)
    requires Reachable(s)
    ensures Answered(s.written, s.answers)
  {
    ReachableInv(s);
  }

  /** The thread object that the holder keeps is the newest thread; without one all are dead. */
  lemma KeptThreadIsNewest(s: Holder)
    requires Reachable(s) && s.main.CheckThread?
    ensures s.thr.Some? ==> s.thr.value < |s.threads| && s.threads[s.thr.value] == Newest(s)
    ensures s.thr.None? ==> Newest(s) == Dead
    ensures Newest(s) != Created
  {
    ReachableInv(s);
  }

  class LoMPluginHolder {
    var thr: Option<nat>       // the thread object kept by the holder
    var threads: seq<Thread>   // all thread objects made so far
    var response: Option<Payload>
    var reqEnd: bool           // req_end is set
    var lastRequest: Payload
    var touch: Option<int>
    var touchSent: Option<int>
    var pipe: nat
    ghost var main: Main
    ghost var accepted: seq<Payload>
    ghost var answers: seq<Answer>
    ghost var written: seq<Payload>
    ghost var beats: nat
    ghost var holder: Holder   // the state after the last complete statement

    ghost function View(): Holder
      reads this
    {
      Holder(main, threads, thr, response, reqEnd, lastRequest, touch, touchSent, pipe,
             accepted, answers, written, beats)
    }

    /** Every statement run so far, by any thread, was a move of the step relation. */
    ghost predicate Valid()
      reads this
    {
      Reachable(holder) && View() == holder
    }

    constructor ()
      ensures Valid() && View() == Init()
    {
      thr, threads, response, reqEnd, lastRequest := None, [], None, false, 0;
      touch, touchSent, pipe := None, None, 0;
      main, accepted, answers, written, beats := MainIdle, [], [], [], 0;
      holder := Init();
      new;
      assert LeadsTo([], holder);
    }

    ghost method Did(m: Move)
      requires Reachable(holder) && View() == Step(holder, m)
      modifies this`holder
      ensures Valid()
    {
      StepIsReachable(holder, m);
      holder := View();
    }

    ghost method MainDid()
      requires Reachable(holder) && View() == MainMove(holder)
      modifies this`holder
      ensures Valid()
    {
      Did(MainStep);
    }

    /** The request threads run any number of statements, none included. */
    method ThreadsProceed()
      requires Valid()
      modifies this`threads, this`response, this`reqEnd, this`touch, this`pipe, this`answers,
               this`holder
      ensures Valid()
      ensures |threads| == |old(threads)|
      ensures old(answers) <= answers && old(pipe) <= pipe
      ensures old(reqEnd) ==> reqEnd
      ensures old(response).Some? ==> response == old(response)
      ensures Newest(old(View())) == Dead ==>
                threads == old(threads) && response == old(response) && reqEnd == old(reqEnd)
    {
    }

    /** The `os.read` of `_drain_signal`. */
    method TakeSignals()
      requires Valid() && main == ReadPipe
      modifies this
      ensures Valid() && main == TestEnd
      ensures written == old(written) && old(answers) <= answers
      ensures old(reqEnd) ==> reqEnd
      ensures touchSent == old(touchSent) && beats == old(beats)
    {
      ThreadsProceed();
      pipe := if pipe <= DRAIN_SIZE then 0 else pipe - DRAIN_SIZE;
      main := TestEnd;
      MainDid();
    }

    /** `_drain_signal`: one read takes up to 100 bytes, however many signals they are. */
    method DrainSignal()
      requires Valid() && main == TestPipe
      modifies this
      ensures Valid() && main == TestEnd
      ensures written == old(written) && old(answers) <= answers
      ensures old(reqEnd) ==> reqEnd
      ensures touchSent == old(touchSent) && beats == old(beats)
    {
      ThreadsProceed();
      if pipe > 0 {
        main := ReadPipe;
        MainDid();
        TakeSignals();
      } else {
        main := TestEnd;
        MainDid();
      }
    }

    /** `send_heartbeat`: at most one heartbeat for each new touch. */
    method SendHeartbeat()
      requires Valid() && main == SendBeat
      modifies this
      ensures Valid() && main == MainIdle
      ensures written == old(written) && old(answers) <= answers
      ensures touchSent == touch && beats == old(beats) + (if touchSent != old(touchSent) then 1 else 0)
    {
      ThreadsProceed();
      if touchSent != touch {
        touchSent := touch;
        beats := beats + 1;
      }
      main := MainIdle;
      MainDid();
    }

    /** The write of the response to the engine. */
    method WriteActionResponse()
      requires Valid() && main == WriteResponse
      modifies this
      ensures Valid() && main == ClearResponse
      ensures answers != [] && |answers| == |old(answers)| && old(answers) <= answers
      ensures written == old(written) + [answers[|answers| - 1].response]
      ensures touchSent == old(touchSent) && beats == old(beats)
    {
      ResponseIsThere(holder);
      ThreadsProceed();
      ResponseIsThere(holder);
      written := written + [response.value];
      main := ClearResponse;
      MainDid();
    }

    /** `response` is reset first ... */
    method ForgetResponse()
      requires Valid() && main == ClearResponse
      modifies this
      ensures Valid() && main == ClearEnd
      ensures written == old(written) && old(answers) <= answers
      ensures touchSent == old(touchSent) && beats == old(beats)
    {
      ThreadsProceed();
      response := None;
      main := ClearEnd;
      MainDid();
    }

    /** ... and `req_end` last. */
    method ForgetEnd()
      requires Valid() && main == ClearEnd
      modifies this
      ensures Valid() && main == MainIdle
      ensures written == old(written) && old(answers) <= answers
      ensures !reqEnd && response.None? && !Unwritten(View())
      ensures touchSent == old(touchSent) && beats == old(beats)
    {
      ThreadsProceed();
      NothingIsLeftToWrite(holder);
      reqEnd := false;
      main := MainIdle;
      MainDid();
    }

    /** Writes the response and resets `response` and `req_end`, in this order. */
    method WriteAndForget()
      requires Valid() && main == WriteResponse
      modifies this
      ensures Valid() && main == MainIdle
      ensures old(answers) <= answers && !Unwritten(View()) && response.None? && !reqEnd
      ensures |written| == |old(written)| + 1 && old(written) <= written
      ensures touchSent == old(touchSent) && beats == old(beats)
    {
      WriteActionResponse();
      ForgetResponse();
      ForgetEnd();
    }

    /** `handle_response` after the drain, when `req_end` is found set. */
    method HandOver()
      requires Valid() && main == TestResponse
      modifies this
      ensures Valid() && main == MainIdle
      ensures old(answers) <= answers && !Unwritten(View()) && response.None? && !reqEnd
      ensures |written| == |old(written)| + 1 && old(written) <= written
      ensures touchSent == old(touchSent) && beats == old(beats)
    {
      ThreadsProceed();
      ResponseIsThere(holder);
      if response == None {
        assert false;
      } else {
        main := WriteResponse;
        MainDid();
        WriteAndForget();
      }
    }

    /** `handle_response` after the drain. */
    method AnswerEngine()
      requires Valid() && main == TestEnd
      modifies this
      ensures Valid() && main == MainIdle
      ensures old(written) <= written && |written| <= |old(written)| + 1
      ensures old(reqEnd) ==> |written| == |old(written)| + 1
      ensures if |written| == |old(written)|
              then touchSent == touch && beats == old(beats) + (if touchSent != old(touchSent) then 1 else 0)
              else touchSent == old(touchSent) && beats == old(beats)
    {
      ThreadsProceed();
      if !reqEnd {
        main := SendBeat;
        MainDid();
        SendHeartbeat();
      } else {
        main := TestResponse;
        MainDid();
        HandOver();
      }
    }

    /**
      `handle_response`: sends a heartbeat, or writes the one unwritten response.  A completion
      signalled before the call is always written.
     */
    method HandleResponse()
      requires Valid() && main == MainIdle
      modifies this
      ensures Valid() && main == MainIdle
      ensures old(written) <= written && |written| <= |old(written)| + 1
      ensures Answered(written, answers)
      ensures old(reqEnd) ==> |written| == |old(written)| + 1
      ensures if |written| == |old(written)|
              then touchSent == touch && beats == old(beats) + (if touchSent != old(touchSent) then 1 else 0)
              else touchSent == old(touchSent) && beats == old(beats)
    {
      main := TestPipe;
      Did(CallHandle);
      DrainSignal();
      AnswerEngine();
      WrittenIsAnswered(holder);
    }

    /** The join: only a dead thread is let go. */
    method JoinIfDead(req: Payload) returns (done: bool)
      requires Valid() && main == CheckThread(req)
      modifies this`thr, this`main, this`holder
      ensures Valid() && main == (if done then TestPending(req) else MainIdle)
      ensures done <==> Newest(View()) == Dead
      ensures done ==> thr == None
    {
      KeptThreadIsNewest(holder);
      if thr.Some? && Alive(threads[thr.value]) {
        main := MainIdle;
        MainDid();
        return false;
      }
      thr := None;
      main := TestPending(req);
      MainDid();
      return true;
    }

    /** `_chk_thread_done`: false while the last request thread is alive. */
    method CheckThreadDone(req: Payload) returns (done: bool)
      requires Valid() && main == CheckThread(req)
      modifies this
      ensures Valid() && main == (if done then TestPending(req) else MainIdle)
      ensures done ==> thr == None && Newest(View()) == Dead
      ensures Newest(old(View())) == Dead ==> done && threads == old(threads) && response == old(response)
      ensures old(response).Some? ==> response == old(response)
      ensures written == old(written) && accepted == old(accepted)
    {
      ThreadsProceed();
      done := JoinIfDead(req);
    }

    /** Keeps the request for the thread to come. */
    method KeepRequest(req: Payload)
      requires Valid() && main == SetRequest(req)
      modifies this
      ensures Valid() && main == MakeThread && lastRequest == req
      ensures written == old(written) && accepted == old(accepted)
    {
      lastRequest := req;
      main := MakeThread;
      MainDid();
    }

    method NewThread()
      requires Valid() && main == MakeThread
      modifies this
      ensures Valid() && main == StartThread && lastRequest == old(lastRequest)
      ensures written == old(written) && accepted == old(accepted)
    {
      threads := threads + [Created];
      thr := Some(|threads| - 1);
      main := StartThread;
      MainDid();
    }

    method RunThread()
      requires Valid() && main == StartThread
      modifies this
      ensures Valid() && main == MainIdle && lastRequest == old(lastRequest)
      ensures written == old(written) && accepted == old(accepted) + [lastRequest]
      ensures Newest(View()) == Begun
    {
      ReachableInv(holder);
      threads := threads[thr.value := Begun];
      accepted := accepted + [lastRequest];
      main := MainIdle;
      MainDid();
    }

    /** The tail of `send_request`: keeps the request, makes the thread, starts it. */
    method StartRequest(req: Payload)
      requires Valid() && main == SetRequest(req)
      modifies this
      ensures Valid() && main == MainIdle
      ensures written == old(written) && accepted == old(accepted) + [req]
      ensures lastRequest == req && Newest(View()) == Begun
    {
      KeepRequest(req);
      NewThread();
      RunThread();
    }

    /** `send_request` once the last thread is known to be dead. */
    method SubmitRequest(req: Payload) returns (taken: bool)
      requires Valid() && main == TestPending(req)
      modifies this
      ensures Valid() && main == MainIdle
      ensures written == old(written)
      ensures accepted == if taken then old(accepted) + [req] else old(accepted)
      ensures taken == old(response).None?
    {
      if response.Some? {
        main := MainIdle;
        MainDid();
        return false;
      }
      main := SetRequest(req);
      MainDid();
      StartRequest(req);
      return true;
    }

    /**
      `send_request`: dropped while the last thread is alive or its response is unwritten, and
      accepted whenever neither was so at the call.
     */
    method SendRequest(req: Payload) returns (taken: bool)
      requires Valid() && main == MainIdle
      modifies this
      ensures Valid() && main == MainIdle
      ensures written == old(written)
      ensures accepted == if taken then old(accepted) + [req] else old(accepted)
      ensures Newest(old(View())) == Dead ==> taken == old(response).None?
      ensures old(response).Some? ==> !taken
    {
      main := CheckThread(req);
      Did(CallSend(req));
      taken := CheckThreadDone(req);
      if taken {
        taken := SubmitRequest(req);
      }
    }

    // ---------- the request thread ----------

    /** The main thread runs any number of statements, none included, while thread t stands where it is. */
    method MainProceeds(t: nat)
      requires Valid() && t < |threads| && threads[t] != Created
      modifies this`main, this`thr, this`threads, this`response, this`reqEnd, this`lastRequest, this`touchSent,
               this`pipe, this`accepted, this`written, this`beats, this`holder
      ensures Valid() && t < |threads| && threads[t] == old(threads[t])
      ensures Alive(threads[t]) ==> lastRequest == old(lastRequest) && accepted == old(accepted)
    {
    }

    ghost method ThreadDid(t: nat)
      requires Reachable(holder) && t < |holder.threads| && View() == ThreadMove(holder, t)
      modifies this`holder
      ensures Valid()
    {
      Did(ThreadStep(t));
    }

    /** `do_touch_heartbeat`: the time first, then the signal. */
    method DoTouchHeartbeat(t: nat, time: int)
      requires Valid() && t < |threads| && threads[t].Working?
      modifies this
      ensures Valid() && t < |threads| && threads[t] == old(threads[t])
      ensures touch == Some(time) && answers == old(answers)
      ensures lastRequest == old(lastRequest) && accepted == old(accepted)
    {
      touch := Some(time);
      threads := threads[t := Touched(threads[t].request)];
      Did(Touch(t, time));
      MainProceeds(t);
      RaiseTouchSignal(t);
    }

    method RaiseTouchSignal(t: nat)
      requires Valid() && t < |threads| && threads[t].Touched?
      modifies this`threads, this`pipe, this`holder
      ensures Valid() && t < |threads| && threads[t] == Working(old(threads[t].request))
      ensures pipe == old(pipe) + SIGNAL_SIZE
    {
      pipe := pipe + SIGNAL_SIZE;
      threads := threads[t := Working(threads[t].request)];
      ThreadDid(t);
    }

    /** The thread takes up the request that it finds. */
    method TakeRequest(t: nat)
      requires Valid() && t < |threads| && threads[t] == Begun
      modifies this
      ensures Valid() && t < |threads| && threads[t] == Working(old(lastRequest))
      ensures answers == old(answers) && accepted == old(accepted)
    {
      MainProceeds(t);
      threads := threads[t := Working(lastRequest)];
      ThreadDid(t);
    }

    /** The plugin's `request` returns into `response`. */
    method SetResponse(t: nat, result: Payload)
      requires Valid() && t < |threads| && threads[t].Working?
      modifies this
      ensures Valid() && t < |threads| && threads[t] == ResponseSet
      ensures answers == old(answers) + [Answer(old(threads[t].request), result)]
    {
      MainProceeds(t);
      response := Some(result);
      answers := answers + [Answer(threads[t].request, result)];
      threads := threads[t := ResponseSet];
      Did(Return(t, result));
    }

    /** `req_end` is set only then ... */
    method SetEnd(t: nat)
      requires Valid() && t < |threads| && threads[t] == ResponseSet
      modifies this
      ensures Valid() && t < |threads| && threads[t] == EndSet && answers == old(answers)
    {
      MainProceeds(t);
      reqEnd := true;
      threads := threads[t := EndSet];
      ThreadDid(t);
    }

    /** ... and the signal comes last. */
    method RaiseLastSignal(t: nat)
      requires Valid() && t < |threads| && threads[t] == EndSet
      modifies this
      ensures Valid() && t < |threads| && threads[t] == Signalled && answers == old(answers) && pipe >= SIGNAL_SIZE
    {
      MainProceeds(t);
      pipe := pipe + SIGNAL_SIZE;
      threads := threads[t := Signalled];
      ThreadDid(t);
    }

    method Terminate(t: nat)
      requires Valid() && t < |threads| && threads[t] == Signalled
      modifies this
      ensures Valid() && t < |threads| && threads[t] == Dead && answers == old(answers)
    {
      MainProceeds(t);
      threads := threads[t := Dead];
      ThreadDid(t);
    }

    /** The plugin at work: it touches at these times. */
    method Work(t: nat, touches: seq<int>)
      requires Valid() && t < |threads| && threads[t].Working?
      modifies this
      ensures Valid() && t < |threads| && threads[t] == old(threads[t]) && answers == old(answers)
      ensures touches != [] ==> touch == Some(touches[|touches| - 1])
    {
      var i := 0;
      while i < |touches|
        invariant 0 <= i <= |touches|
        invariant Valid() && t < |threads| && threads[t] == old(threads[t]) && answers == old(answers)
        invariant i > 0 ==> touch == Some(touches[i - 1])
      {
        DoTouchHeartbeat(t, touches[i]);
        i := i + 1;
      }
    }

    /** `_run_request`, with main interfering at every statement: one answer, to the request that was kept. */
    method RunRequest(t: nat, touches: seq<int>, result: Payload)
      requires Valid() && t < |threads| && threads[t] == Begun
      modifies this
      ensures Valid() && t < |threads| && threads[t] == Dead
      ensures answers == old(answers) + [Answer(old(lastRequest), result)]
    {
      TakeRequest(t);
      Work(t, touches);
      SetResponse(t, result);
      SetEnd(t);
      RaiseLastSignal(t);
      Terminate(t);
    }
  }
}
