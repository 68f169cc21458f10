/** What every interleaving of one writer and one reader of the signalled ring keeps. */
module RingProperties {
  import opened Sequences
  import opened SignalRing

  /**
    No wake-up is lost: while the reader is not in the middle of a read, the pipe holds a
    token for every unread item, except one that the writer is just about to announce.
   */
  lemma NoLostWakeUp<T>(limit: int, ms: seq<Move<T>>)
    ensures var s := Run(limit, ms);
            && (!PastDrain(s.reader) && !s.reader.DrainSignal? ==>
                  s.tokens >= s.wrCnt - s.rdCnt - (if s.writer.RaiseSignal? then 1 else 0))
            && (s.reader.ReaderIdle? && s.writer.WriterIdle? ==> s.tokens >= s.wrCnt - s.rdCnt)
            && (s.reader.DrainSignal? ==> s.tokens > 0)
  {
    RunKeepsInv(limit, ms);
  }

  /** However long the run, completed reads exceed drained tokens by at most two. */
  lemma StrayTokenBound<T>(limit: int, ms: seq<Move<T>>)
    ensures var s := Run(limit, ms);
            && |s.returned| - s.drained <= 2
            && s.tokens <= Capacity(limit) + 2
  {
    RunKeepsInv(limit, ms);
  }

  /** Counters, indices and the items handed out, at any moment of any run. */
  lemma ItemsComeOutInOrder<T>(limit: int, ms: seq<Move<T>>)
    ensures var s := Run(limit, ms);
            && s.wrCnt == |s.accepted|
            && s.rdCnt == |s.returned|
            && s.returned <= s.accepted
            && 0 <= s.wrCnt - s.rdCnt <= Capacity(limit)
            && (s.writer.WriterIdle? && limit > 0 ==> s.wrIndex == s.wrCnt % limit)
            && (s.reader.ReaderIdle? && limit > 0 ==> s.rdIndex == s.rdCnt % limit)
  {
    RunKeepsInv(limit, ms);
    if limit > 0 {
      SlotIsMod(limit, Run(limit, ms).wrCnt);
      SlotIsMod(limit, Run(limit, ms).rdCnt);
    }
  }

  /**
    The writer never stores into the slot that the reader is about to copy, and the reader
    always finds the copied slot filled with the oldest unread item.
   */
  lemma CopiedSlotIsStable<T>(limit: int, ms: seq<Move<T>>)
    ensures var s := Run(limit, ms);
            && !s.reader.ReaderFailed?
            && (s.reader.CopySlot? ==>
                  && 0 <= s.rdCnt < |s.accepted|
                  && s.rdIndex in s.data
                  && s.data[s.rdIndex] == s.accepted[s.rdCnt]
                  && (s.writer.StoreSlot? ==> s.wrIndex != s.rdIndex))
  {
    RunKeepsInv(limit, ms);
    var s := Run(limit, ms);
    if s.reader.CopySlot? && s.writer.StoreSlot? {
      SlotsDiffer(limit, s.rdCnt, s.wrCnt);
    }
  }

  // ---------- refinement of a bounded first-in first-out queue ----------

  datatype Effect<T> = Silent | Enqueue(item: T) | Dequeue(item: T) | Refuse | ReportEmpty

  /** The one move of each call that decides its answer, and that answer. */
  function EffectOf<T>(s: Ring<T>, m: Move<T>): Effect<T> {
    match m
    case WriterStep =>
      if s.writer.CountWrite? then Enqueue(s.writer.item)
      else if s.writer.TestFull? && WriterMove(s).writer.WriterIdle? then Refuse
      else Silent
    case ReaderStep =>
      if s.reader.CountRead? then Dequeue(s.reader.item)
      else if s.reader.TestEmpty? && ReaderMove(s).reader.ReaderIdle? then ReportEmpty
      else Silent
    case _ => Silent
  }

  predicate QueueStep<T(==)>(capacity: nat, q: seq<T>, e: Effect<T>, q': seq<T>) {
    match e
    case Silent => q' == q
    case Enqueue(item) => |q| < capacity && q' == q + [item]
    case Dequeue(item) => q != [] && q[0] == item && q' == q[1..]
    case Refuse => |q| == capacity && q' == q
    case ReportEmpty => q == [] && q' == q
  }

  function Queue<T>(s: Ring<T>): seq<T> {
    if 0 <= s.rdCnt <= |s.accepted| then s.accepted[s.rdCnt..] else []
  }

  /** Every move of every run is a move of a bounded queue: the ring is linearisable. */
  lemma RefinesQueue<T>(limit: int, ms: seq<Move<T>>, m: Move<T>)
    ensures QueueStep(Capacity(limit), Queue(Run(limit, ms)), EffectOf(Run(limit, ms), m),
                      Queue(Run(limit, ms + [m])))
  {
    RunSnoc(limit, ms, m);
    RunKeepsInv(limit, ms);
    StepKeepsInv(Run(limit, ms), m);
    EffectIsQueueStep(Run(limit, ms), m);
  }

  lemma WriterIsQueueStep<T>(s: Ring<T>)
    requires Counts(s)
    ensures QueueStep(Capacity(s.limit), Queue(s), EffectOf(s, WriterStep), Queue(WriterMove(s)))
  {
    if s.writer.CountWrite? {
      assert (s.accepted + [s.writer.item])[s.rdCnt..] == s.accepted[s.rdCnt..] + [s.writer.item];
    }
  }

  lemma ReaderIsQueueStep<T>(s: Ring<T>)
    requires Counts(s) && Contents(s)
    ensures QueueStep(Capacity(s.limit), Queue(s), EffectOf(s, ReaderStep), Queue(ReaderMove(s)))
  {
    if s.reader.CountRead? {
      assert s.accepted[s.rdCnt..][1..] == s.accepted[s.rdCnt + 1..];
    }
  }

  lemma EffectIsQueueStep<T>(s: Ring<T>, m: Move<T>)
    requires Counts(s) && Contents(s)
    ensures QueueStep(Capacity(s.limit), Queue(s), EffectOf(s, m), Queue(Step(s, m)))
  {
    match m
    case WriterStep => WriterIsQueueStep(s);
    case ReaderStep => ReaderIsQueueStep(s);
    case _ =>
  }

  // ---------- how long a read waits ----------

  /**
    Of the latest read: its timeout, the rounds that went by without a signal, how many of them ended
    after a shutdown, and whether the read took a token.
   */
  datatype Spent = Spent(asked: int, rounds: nat, late: nat, took: bool)

  function NextSpent<T>(x: Spent, s: Ring<T>, m: Move<T>): Spent {
    match m
    case CallRead(timeout) => if s.reader.ReaderIdle? then Spent(timeout, 0, 0, false) else x
    case WaitExpires => if s.reader.Waiting? && s.tokens == 0
      then x.(rounds := x.rounds + 1, late := if s.shutdown then x.late + 1 else x.late) else x
    case ReaderStep => if s.reader.DrainSignal? && s.tokens > 0 then x.(took := true) else x
    case _ => x
  }

  function SpentBy<T>(limit: int, ms: seq<Move<T>>): Spent {
    if ms == [] then Spent(0, 0, 0, false)
    else NextSpent(SpentBy(limit, ms[..|ms| - 1]), Run(limit, ms[..|ms| - 1]), ms[|ms| - 1])
  }

  /** Rounds of two seconds have used up the timeout; a negative one is never used up. */
  predicate TimeUp(x: Spent) {
    0 <= x.asked <= 2 * x.rounds
  }

  function TimeLeft(x: Spent): int {
    if x.asked < 0 then x.asked else if TimeUp(x) then 0 else x.asked - 2 * x.rounds
  }

  ghost predicate Patient<T>(s: Ring<T>, x: Spent) {
    && (x.asked >= 0 ==> 2 * x.rounds <= x.asked + 1)
    && x.late <= 1
    && (x.late > 0 ==> s.shutdown)
    && match s.reader
       case TestWait(timeout) => timeout == TimeLeft(x) && !x.took
       case Waiting(timeout) =>
         timeout == TimeLeft(x.(rounds := x.rounds + 1)) && !x.took && !TimeUp(x) && x.late == 0
       case TestSignal => s.shutdown || TimeUp(x) || s.rdCnt < s.wrCnt || s.tokens > 0
       case TestEmpty => s.shutdown || TimeUp(x) || s.rdCnt < s.wrCnt || x.took
       case _ => true
  }

  lemma WriterKeepsPatient<T>(s: Ring<T>, x: Spent)
    requires Patient(s, x)
    ensures Patient(WriterMove(s), x)
  {
  }

  lemma ReaderKeepsPatient<T>(s: Ring<T>, x: Spent)
    requires Patient(s, x)
    ensures Patient(ReaderMove(s), NextSpent(x, s, ReaderStep))
  {
  }

  lemma StepKeepsPatient<T>(s: Ring<T>, x: Spent, m: Move<T>)
    requires Patient(s, x)
    ensures Patient(Step(s, m), NextSpent(x, s, m))
  {
    match m
    case WriterStep => WriterKeepsPatient(s, x);
    case ReaderStep => ReaderKeepsPatient(s, x);
    case _ =>
  }

  lemma {:induction false} RunIsPatient<T>(limit: int, ms: seq<Move<T>>)
    ensures Patient(Run(limit, ms), SpentBy(limit, ms))
    decreases |ms|
  {
    if ms != [] {
      RunIsPatient(limit, ms[..|ms| - 1]);
      StepKeepsPatient(Run(limit, ms[..|ms| - 1]), SpentBy(limit, ms[..|ms| - 1]), ms[|ms| - 1]);
    }
  }

  /**
    A read answers that the ring is empty only after it has waited for as many rounds as its timeout
    allows, or a shutdown, or a token of an item that an earlier read took; and it never waits longer,
    and after a shutdown at most to the end of the round that it is in.
   */
  lemma EmptyAnswersAreDue<T>(limit: int, ms: seq<Move<T>>)
    ensures var s, x := Run(limit, ms), SpentBy(limit, ms);
            && (EffectOf(s, ReaderStep) == ReportEmpty ==> s.shutdown || x.took || 0 <= x.asked <= 2 * x.rounds)
            && (x.asked >= 0 ==> 2 * x.rounds <= x.asked + 1)
            && x.late <= 1
  {
    RunIsPatient(limit, ms);
  }

  // ---------- what one thread leaves alone ----------

  predicate OfReader<T>(m: Move<T>) {
    m.CallRead? || m.ReaderStep? || m.WaitExpires? || m.RaiseShutdown?
  }

  predicate OfWriter<T>(m: Move<T>) {
    m.CallWrite? || m.WriterStep? || m.RaiseShutdown?
  }

  /** t may differ from s only in the fields that `read` assigns. */
  ghost predicate OnlyReaderMoved<T>(s: Ring<T>, t: Ring<T>) {
    && t == s.(rdIndex := t.rdIndex, rdCnt := t.rdCnt, tokens := t.tokens, shutdown := t.shutdown,
               reader := t.reader, returned := t.returned, drained := t.drained)
    && (s.shutdown ==> t.shutdown)
  }

  /** t may differ from s only in the fields that `write` assigns. */
  ghost predicate OnlyWriterMoved<T>(s: Ring<T>, t: Ring<T>) {
    && t == s.(wrIndex := t.wrIndex, wrCnt := t.wrCnt, data := t.data, tokens := t.tokens,
               shutdown := t.shutdown, writer := t.writer, accepted := t.accepted)
    && s.accepted <= t.accepted
    && (s.shutdown ==> t.shutdown)
  }

  lemma ReaderStepIsOwn<T>(s: Ring<T>, m: Move<T>)
    requires OfReader(m)
    ensures OnlyReaderMoved(s, Step(s, m))
  {
  }

  lemma WriterStepIsOwn<T>(s: Ring<T>, m: Move<T>)
    requires OfWriter(m)
    ensures OnlyWriterMoved(s, Step(s, m))
  {
  }

  lemma MovesCompose<T>(r: Ring<T>, s: Ring<T>, t: Ring<T>)
    ensures OnlyReaderMoved(r, s) && OnlyReaderMoved(s, t) ==> OnlyReaderMoved(r, t)
    ensures OnlyWriterMoved(r, s) && OnlyWriterMoved(s, t) ==> OnlyWriterMoved(r, t)
  {
  }

  lemma RunOneMore<T>(limit: int, ms: seq<Move<T>>, more: seq<Move<T>>)
    requires more != []
    ensures Run(limit, ms + more) == Step(Run(limit, ms + more[..|more| - 1]), more[|more| - 1])
  {
    SplitLast(ms, more);
    RunSnoc(limit, ms + more[..|more| - 1], more[|more| - 1]);
  }

  /** However many statements the reading thread runs, the fields that `write` assigns stay as they are. */
  lemma {:induction false} ReaderLeavesTheWriterAlone<T>(limit: int, ms: seq<Move<T>>, more: seq<Move<T>>)
    requires forall i :: 0 <= i < |more| ==> OfReader(more[i])
    ensures OnlyReaderMoved(Run(limit, ms), Run(limit, ms + more))
    decreases |more|
  {
    if more == [] {
      assert ms + more == ms;
    } else {
      var between := Run(limit, ms + more[..|more| - 1]);
      ReaderLeavesTheWriterAlone(limit, ms, more[..|more| - 1]);
      ReaderStepIsOwn(between, more[|more| - 1]);
      RunOneMore(limit, ms, more);
      MovesCompose(Run(limit, ms), between, Run(limit, ms + more));
    }
  }

  /** And the fields that `read` assigns stay as they are while the writing thread runs. */
  lemma {:induction false} WriterLeavesTheReaderAlone<T>(limit: int, ms: seq<Move<T>>, more: seq<Move<T>>)
    requires forall i :: 0 <= i < |more| ==> OfWriter(more[i])
    ensures OnlyWriterMoved(Run(limit, ms), Run(limit, ms + more))
    decreases |more|
  {
    if more == [] {
      assert ms + more == ms;
    } else {
      var between := Run(limit, ms + more[..|more| - 1]);
      WriterLeavesTheReaderAlone(limit, ms, more[..|more| - 1]);
      WriterStepIsOwn(between, more[|more| - 1]);
      RunOneMore(limit, ms, more);
      MovesCompose(Run(limit, ms), between, Run(limit, ms + more));
    }
  }

  // ---------- stretches of one thread ----------

  lemma CountIn<T>(limit: int, ms: seq<Move<T>>, x: T) returns (ms': seq<Move<T>>)
    requires Run(limit, ms).writer.WriterIdle?
    requires Run(limit, ms).wrCnt - Run(limit, ms).rdCnt < limit
    ensures var s, t := Run(limit, ms), Run(limit, ms');
            t == s.(writer := RaiseSignal, wrCnt := s.wrCnt + 1, accepted := s.accepted + [x],
                    wrIndex := t.wrIndex, data := t.data)
  {
    RunKeepsInv(limit, ms);
    ms' := ms + [CallWrite(x)];
    RunSnoc(limit, ms, CallWrite(x));
    ms' := WriterTakesStep(limit, ms');
    ms' := WriterTakesStep(limit, ms');
    ms' := WriterTakesStep(limit, ms');
    ms' := WriterTakesStep(limit, ms');
    ms' := WriterTakesStep(limit, ms');
  }

  lemma WriterTakesStep<T>(limit: int, ms: seq<Move<T>>) returns (ms': seq<Move<T>>)
    ensures ms' == ms + [WriterStep] && Run(limit, ms') == WriterMove(Run(limit, ms))
  {
    ms' := ms + [WriterStep];
    RunSnoc(limit, ms, WriterStep);
  }

  lemma ReaderTakesStep<T>(limit: int, ms: seq<Move<T>>) returns (ms': seq<Move<T>>)
    ensures ms' == ms + [ReaderStep] && Run(limit, ms') == ReaderMove(Run(limit, ms))
  {
    ms' := ms + [ReaderStep];
    RunSnoc(limit, ms, ReaderStep);
  }

  /** A read up to its drain: it takes a token when there is one. */
  lemma ReadUpToTest<T>(limit: int, ms: seq<Move<T>>, timeout: int) returns (ms': seq<Move<T>>)
    requires Run(limit, ms).reader.ReaderIdle?
    requires timeout == 0 || Run(limit, ms).rdCnt < Run(limit, ms).wrCnt
    ensures ms <= ms' && forall i :: |ms| <= i < |ms'| ==> ms'[i] == CallRead(timeout) || ms'[i] == ReaderStep
    ensures var s, t := Run(limit, ms), Run(limit, ms');
            var taken := if s.tokens > 0 then 1 else 0;
            t == s.(reader := TestEmpty, tokens := s.tokens - taken, drained := s.drained + taken)
  {
    ms' := ms + [CallRead(timeout)];
    RunSnoc(limit, ms, CallRead(timeout));
    ms' := ReaderTakesStep(limit, ms');
    ms' := ReaderTakesStep(limit, ms');
    if Run(limit, ms).tokens > 0 {
      ms' := ReaderTakesStep(limit, ms');
    }
  }

  lemma FetchItem<T>(limit: int, ms: seq<Move<T>>) returns (ms': seq<Move<T>>)
    requires Run(limit, ms).reader.TestEmpty? && Run(limit, ms).rdCnt < Run(limit, ms).wrCnt
    ensures ms' == ms + [ReaderStep, ReaderStep]
    ensures var s, t := Run(limit, ms), Run(limit, ms');
            0 <= s.rdCnt < |s.accepted| && t == s.(reader := AdvanceRead(s.accepted[s.rdCnt]))
  {
    ms' := ReaderTakesStep(limit, ms);
    CopiedSlotIsStable(limit, ms');
    ms' := ReaderTakesStep(limit, ms');
  }

  /** The rest of a read that finds an item. */
  lemma CountOut<T>(limit: int, ms: seq<Move<T>>) returns (ms': seq<Move<T>>)
    requires Run(limit, ms).reader.TestEmpty? && Run(limit, ms).rdCnt < Run(limit, ms).wrCnt
    ensures ms <= ms' && forall i :: |ms| <= i < |ms'| ==> ms'[i] == ReaderStep
    ensures var s, t := Run(limit, ms), Run(limit, ms');
            && 0 <= s.rdCnt < |s.accepted|
            && t == s.(reader := ReaderIdle, rdCnt := s.rdCnt + 1,
                       returned := s.returned + [s.accepted[s.rdCnt]], rdIndex := t.rdIndex)
  {
    ms' := FetchItem(limit, ms);
    ms' := ReaderTakesStep(limit, ms');
    ms' := ReaderTakesStep(limit, ms');
    ms' := ReaderTakesStep(limit, ms');
  }

  /**
    Between calls, a non-empty ring is readable: the pipe that the caller polls is ready, and a
    read with any timeout, running alone, returns the oldest unread item.
   */
  lemma NonEmptyRingIsReadable<T>(limit: int, ms: seq<Move<T>>, timeout: int) returns (ms': seq<Move<T>>)
    requires Run(limit, ms).reader.ReaderIdle? && Run(limit, ms).writer.WriterIdle?
    requires Run(limit, ms).rdCnt < Run(limit, ms).wrCnt
    ensures Run(limit, ms).tokens > 0
    ensures ms <= ms' && forall i :: |ms| <= i < |ms'| ==> ms'[i] == CallRead(timeout) || ms'[i] == ReaderStep
    ensures var s, t := Run(limit, ms), Run(limit, ms');
            && t.reader.ReaderIdle?
            && 0 <= s.rdCnt < |s.accepted|
            && t.returned == s.returned + [s.accepted[s.rdCnt]]
  {
    NoLostWakeUp(limit, ms);
    var drained := ReadUpToTest(limit, ms, timeout);
    ms' := CountOut(limit, drained);
  }

  // ---------- the stray-token bound is tight ----------

  lemma {:induction false} Fill<T>(limit: int, ms: seq<Move<T>>, x: T, n: nat) returns (ms': seq<Move<T>>)
    requires Run(limit, ms).writer.WriterIdle?
    requires Run(limit, ms).wrCnt - Run(limit, ms).rdCnt + n <= limit
    ensures Run(limit, ms').tokens == Run(limit, ms).tokens + n
    decreases n
  {
    ms' := ms;
    if n > 0 {
      ms' := CountIn(limit, ms, x);
      ms' := WriterTakesStep(limit, ms');
      ms' := Fill(limit, ms', x, n - 1);
    }
  }

  /**
    For every limit some run reaches `limit + 2` tokens: two reads each look at the pipe just
    before the signal of the item that they then find counted in.
   */
  lemma StrayTokenBoundIsTight<T>(limit: int, x: T) returns (ms: seq<Move<T>>)
    requires limit > 0
    ensures Run(limit, ms).tokens == limit + 2
  {
    ms := CountIn(limit, [], x);
    ms := ReadUpToTest(limit, ms, 0);
    ms := CountOut(limit, ms);
    ms := ReadUpToTest(limit, ms, 0);
    ms := WriterTakesStep(limit, ms);
    ms := CountIn(limit, ms, x);
    ms := CountOut(limit, ms);
    ms := WriterTakesStep(limit, ms);
    ms := Fill(limit, ms, x, limit);
  }
}
