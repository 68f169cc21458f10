/** What every interleaving of the main thread and the request threads of a plugin holder keeps. */
module HolderProperties {
  import opened Wrappers
  import opened Sequences
  import opened HolderSteps

  /**
    Exactly-once hand-off: the i-th response written is what the plugin gave back for the i-th
    accepted request, and at most one accepted request is without its response.
   */
  lemma ExactlyOnce(ms: seq<Move>)
    ensures var s := Run(ms);
            && |s.written| <= |s.answers| <= |s.accepted| <= |s.written| + 1
            && (forall i :: 0 <= i < |s.written| ==>
                  s.answers[i].request == s.accepted[i] && s.written[i] == s.answers[i].response)
            && s.main != MainFailed
  {
    RunKeepsInv(ms);
  }

  /** At most one request thread of a holder is alive. */
  lemma OneLiveThread(ms: seq<Move>, i: nat, j: nat)
    requires i < |Run(ms).threads| && j < |Run(ms).threads|
    requires Alive(Run(ms).threads[i]) && Alive(Run(ms).threads[j])
    ensures i == j
  {
    RunKeepsInv(ms);
  }

  /**
    No lost completion: once a request thread has raised its last signal and its response is still
    unwritten, the holder's pipe is non-empty whenever main is outside `handle_response`.
   */
  lemma NoLostCompletion(ms: seq<Move>)
    ensures var s := Run(ms);
            Completed(s) && !Handling(s.main) ==> s.pipe > 0
  {
    RunKeepsInv(ms);
  }

  /** A completed request whose response waits to be written. */
  predicate Completed(s: Holder) {
    Unwritten(s) && (Newest(s) == Signalled || Newest(s) == Dead)
  }

  /** n statements of the main thread, undisturbed. */
  function MainMoves(s: Holder, n: nat): Holder
    decreases n
  {
    if n == 0 then s else MainMoves(MainMove(s), n - 1)
  }

  lemma ThreeMoves(s: Holder, n: nat)
    requires n >= 3
    ensures MainMoves(s, n) == MainMoves(MainMove(MainMove(MainMove(s))), n - 3)
  {
    assert MainMoves(s, n) == MainMoves(MainMove(s), n - 1);
    assert MainMoves(MainMove(s), n - 1) == MainMoves(MainMove(MainMove(s)), n - 2);
  }

  lemma CompletionIsSeen(s: Holder)
    requires Flags(s) && s.main == TestPipe && Completed(s) && s.pipe > 0
    ensures MainMove(MainMove(MainMove(s))) ==
              s.(main := TestResponse, pipe := if s.pipe <= DRAIN_SIZE then 0 else s.pipe - DRAIN_SIZE)
  {
  }

  lemma ResponseGoesOut(s: Holder)
    requires s.main == TestResponse && s.response.Some?
    ensures MainMove(MainMove(s)) == s.(main := ClearResponse, written := s.written + [s.response.value])
  {
  }

  lemma FlagsAreReset(s: Holder)
    requires s.main == ClearResponse
    ensures MainMove(MainMove(s)) == s.(main := MainIdle, response := None, reqEnd := false)
  {
  }

  lemma ResponseIsWritten(s: Holder)
    requires s.main == TestResponse && s.response.Some?
    ensures MainMoves(s, 4) == s.(main := MainIdle, response := None, reqEnd := false,
                                  written := s.written + [s.response.value])
  {
    ThreeMoves(s, 4);
    LastMove(MainMove(MainMove(MainMove(s))));
    ResponseGoesOut(s);
    FlagsAreReset(MainMove(MainMove(s)));
  }

  lemma LastMove(s: Holder)
    ensures MainMoves(s, 1) == MainMove(s)
  {
  }

  /** The poll finds such a completion, and one undisturbed `handle_response` writes it. */
  lemma CompletionIsWritten(ms: seq<Move>)
    requires Run(ms).main == MainIdle && Completed(Run(ms))
    ensures var s := Run(ms);
            var t := MainMoves(Step(s, CallHandle), 7);
            && s.pipe > 0
            && s.answers != []
            && t == s.(response := None, reqEnd := false, pipe := if s.pipe <= 100 then 0 else s.pipe - 100,
                       written := s.written + [s.answers[|s.answers| - 1].response])
  {
    NoLostCompletion(ms);
    RunKeepsInv(ms);
    var s := Run(ms);
    CallKeepsInv(s, TestPipe);
    var s0 := Step(s, CallHandle);
    ThreeMoves(s0, 7);
    CompletionIsSeen(s0);
    ResponseIsWritten(MainMove(MainMove(MainMove(s0))));
  }

  lemma FewMoves(s: Holder)
    ensures MainMoves(s, 3) == MainMove(MainMove(MainMove(s)))
    ensures MainMoves(s, 4) == MainMove(MainMove(MainMove(MainMove(s))))
  {
    ThreeMoves(s, 3);
    ThreeMoves(s, 4);
    LastMove(MainMove(MainMove(MainMove(s))));
  }

  /** While no request has ended, one undisturbed `handle_response` sends a heartbeat iff there was a new touch. */
  lemma HeartbeatIsSent(s: Holder)
    requires s.main == MainIdle && !s.reqEnd
    ensures MainMoves(Step(s, CallHandle), if s.pipe > 0 then 4 else 3) ==
              s.(touchSent := s.touch, beats := if s.touch != s.touchSent then s.beats + 1 else s.beats,
                 pipe := if s.pipe <= 100 then 0 else s.pipe - 100)
  {
    FewMoves(Step(s, CallHandle));
  }

  predicate ThreadsOnly(m: Move) {
    m.ThreadStep? || m.Touch? || m.Return?
  }

  /** What the request threads leave alone, and what they can only add to. */
  ghost predicate OnlyThreadsMoved(s: Holder, t: Holder) {
    && t == s.(threads := t.threads, response := t.response, reqEnd := t.reqEnd, touch := t.touch,
               pipe := t.pipe, answers := t.answers)
    && |t.threads| == |s.threads|
    && s.answers <= t.answers
    && (s.reqEnd ==> t.reqEnd)
    && (s.response.Some? ==> t.response == s.response)
    && s.pipe <= t.pipe
    && (Newest(s) == Dead ==> t == s)
  }

  lemma ThreadStepIsOwn(s: Holder, m: Move)
    requires Inv(s) && ThreadsOnly(m)
    ensures OnlyThreadsMoved(s, Step(s, m))
  {
  }

  lemma ThreadMovesCompose(r: Holder, s: Holder, t: Holder)
    requires OnlyThreadsMoved(r, s) && OnlyThreadsMoved(s, t)
    ensures OnlyThreadsMoved(r, t)
  {
  }

  lemma RunOneMore(ms: seq<Move>, more: seq<Move>)
    requires more != []
    ensures Run(ms + more) == Step(Run(ms + more[..|more| - 1]), more[|more| - 1])
  {
    SplitLast(ms, more);
    RunSnoc(ms + more[..|more| - 1], more[|more| - 1]);
  }

  /** However many statements the request threads run, they keep to that. */
  lemma {:induction false} ThreadsGuarantee(ms: seq<Move>, more: seq<Move>)
    requires forall i :: 0 <= i < |more| ==> ThreadsOnly(more[i])
    ensures OnlyThreadsMoved(Run(ms), Run(ms + more))
    decreases |more|
  {
    if more == [] {
      assert ms + more == ms;
    } else {
      var between := Run(ms + more[..|more| - 1]);
      ThreadsGuarantee(ms, more[..|more| - 1]);
      RunKeepsInv(ms + more[..|more| - 1]);
      ThreadStepIsOwn(between, more[|more| - 1]);
      RunOneMore(ms, more);
      ThreadMovesCompose(Run(ms), between, Run(ms + more));
    }
  }

  // ---------- what main leaves alone ----------

  predicate MainOnly(m: Move) {
    m.CallHandle? || m.CallSend? || m.MainStep?
  }

  /** Main leaves request thread k where it stands, with what the plugin gave it and the request it works on. */
  ghost predicate OnlyMainMoved(s: Holder, t: Holder, k: nat)
    requires k < |s.threads|
  {
    && |s.threads| <= |t.threads|
    && t.threads[k] == s.threads[k]
    && t.touch == s.touch
    && t.answers == s.answers
    && (Alive(s.threads[k]) ==>
          |t.threads| == |s.threads| && t.lastRequest == s.lastRequest && t.accepted == s.accepted)
  }

  lemma MainStepIsOwn(s: Holder, m: Move, k: nat)
    requires Inv(s) && MainOnly(m) && k < |s.threads| && s.threads[k] != Created
    ensures OnlyMainMoved(s, Step(s, m), k)
  {
  }

  /** However many statements main runs, it keeps to that. */
  lemma {:induction false} MainGuarantee(ms: seq<Move>, more: seq<Move>, k: nat)
    requires forall i :: 0 <= i < |more| ==> MainOnly(more[i])
    requires k < |Run(ms).threads| && Run(ms).threads[k] != Created
    ensures OnlyMainMoved(Run(ms), Run(ms + more), k)
    decreases |more|
  {
    if more == [] {
      assert ms + more == ms;
    } else {
      var before := ms + more[..|more| - 1];
      MainGuarantee(ms, more[..|more| - 1], k);
      RunKeepsInv(before);
      MainStepIsOwn(Run(before), more[|more| - 1], k);
      RunOneMore(ms, more);
    }
  }
}
