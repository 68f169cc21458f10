/**
  The bounded ring of test_client.CacheData, seen one statement at a time.

  One writer and one reader share indices, counters, slots and a pipe that holds
  one token per write.  No lock protects them.  A run is any sequence of moves of
  the two threads; a move whose thread cannot go on (a blocked read, a call while
  another call is open) leaves the ring as it is, so every schedule is a run.
 */
module SignalRing {

  /** Where the writer stands in `write`: each constructor names the statement to come. */
  datatype Writer<T> =
    | WriterIdle
    | TestFull(item: T)
    | StoreSlot(item: T)
    | AdvanceWrite(item: T)
    | WrapWrite(item: T)
    | CountWrite(item: T)
    | RaiseSignal

  /** Where the reader stands in `read` and `_drain_signal`. */
  datatype Reader<T> =
    | ReaderIdle
    | TestWait(timeout: int)
    | Waiting(timeout: int)
    | TestSignal
    | DrainSignal
    | TestEmpty
    | CopySlot
    | AdvanceRead(item: T)
    | WrapRead(item: T)
    | CountRead(item: T)
    | ReaderFailed // the copied slot had no entry

  /** The shared fields, the two positions, and what the run has done so far. */
  datatype Ring<T> = Ring(
    limit: int,
    rdIndex: int,
    wrIndex: int,
    rdCnt: int,
    wrCnt: int,
    data: map<int, T>,
    tokens: nat,
    shutdown: bool,
    writer: Writer<T>,
    reader: Reader<T>,
    accepted: seq<T>, // history: items counted in by the writer
    returned: seq<T>, // history: items counted out by the reader
    drained: nat)     // history: tokens taken from the pipe

  datatype Move<T> =
    | CallWrite(arg: T)
    | WriterStep
    | CallRead(wait: int)
    | ReaderStep
    | WaitExpires
    | RaiseShutdown

  function Init<T>(limit: int): Ring<T> {
    Ring(limit, 0, 0, 0, 0, map[], 0, false, WriterIdle, ReaderIdle, [], [], 0)
  }

  /** The timeout left after one round of `select`, which waits for at most two seconds. */
  function TimeoutLeft(timeout: int): int {
    if timeout > 0 then timeout - (if timeout < 2 then timeout else 2) else timeout
  }

  function WriterMove<T>(s: Ring<T>): Ring<T> {
    match s.writer
    case WriterIdle => s
    case TestFull(item) =>
      if s.wrCnt - s.rdCnt >= s.limit then s.(writer := WriterIdle) else s.(writer := StoreSlot(item))
    case StoreSlot(item) => s.(data := s.data[s.wrIndex := item], writer := AdvanceWrite(item))
    case AdvanceWrite(item) => s.(wrIndex := s.wrIndex + 1, writer := WrapWrite(item))
    case WrapWrite(item) =>
      s.(wrIndex := if s.wrIndex >= s.limit then 0 else s.wrIndex, writer := CountWrite(item))
    case CountWrite(item) =>
      s.(wrCnt := s.wrCnt + 1, accepted := s.accepted + [item], writer := RaiseSignal)
    case RaiseSignal => s.(tokens := s.tokens + 1, writer := WriterIdle)
  }

  function ReaderMove<T>(s: Ring<T>): Ring<T> {
    match s.reader
    case ReaderIdle => s
    case TestWait(timeout) =>
      if !s.shutdown && timeout != 0 && s.rdCnt >= s.wrCnt
      then s.(reader := Waiting(TimeoutLeft(timeout)))
      else s.(reader := TestSignal)
    case Waiting(_) => if s.tokens > 0 then s.(reader := TestSignal) else s
    case TestSignal => if s.tokens > 0 then s.(reader := DrainSignal) else s.(reader := TestEmpty)
    case DrainSignal =>
      if s.tokens > 0
      then s.(tokens := s.tokens - 1, drained := s.drained + 1, reader := TestEmpty)
      else s
    case TestEmpty => if s.rdCnt < s.wrCnt then s.(reader := CopySlot) else s.(reader := ReaderIdle)
    case CopySlot =>
      if s.rdIndex in s.data then s.(reader := AdvanceRead(s.data[s.rdIndex])) else s.(reader := ReaderFailed)
    case AdvanceRead(item) => s.(rdIndex := s.rdIndex + 1, reader := WrapRead(item))
    case WrapRead(item) =>
      s.(rdIndex := if s.rdIndex >= s.limit then 0 else s.rdIndex, reader := CountRead(item))
    case CountRead(item) =>
      s.(rdCnt := s.rdCnt + 1, returned := s.returned + [item], reader := ReaderIdle)
    case ReaderFailed => s
  }

  function Step<T>(s: Ring<T>, m: Move<T>): Ring<T> {
    match m
    case CallWrite(item) => if s.writer.WriterIdle? then s.(writer := TestFull(item)) else s
    case WriterStep => WriterMove(s)
    case CallRead(timeout) => if s.reader.ReaderIdle? then s.(reader := TestWait(timeout)) else s
    case ReaderStep => ReaderMove(s)
    case WaitExpires =>
      if s.reader.Waiting? && s.tokens == 0 then s.(reader := TestWait(s.reader.timeout)) else s
    case RaiseShutdown => s.(shutdown := true)
  }

  function Run<T>(limit: int, ms: seq<Move<T>>): Ring<T> {
    if ms == [] then Init(limit) else Step(Run(limit, ms[..|ms| - 1]), ms[|ms| - 1])
  }

  lemma RunSnoc<T>(limit: int, ms: seq<Move<T>>, m: Move<T>)
    ensures Run(limit, ms + [m]) == Step(Run(limit, ms), m)
  {
    assert (ms + [m])[..|ms|] == ms;
  }

  // ---------- slots ----------

  function Capacity(limit: int): nat {
    if limit > 0 then limit else 0
  }

  /** The slot that the n-th item of the run occupies: one further each time, back to 0 at the limit. */
  function Slot(limit: int, n: nat): nat {
    if n == 0 || Slot(limit, n - 1) + 1 >= limit then 0 else Slot(limit, n - 1) + 1
  }

  lemma Multiples(k: int, d: int)
    requires d > 0
    ensures k >= 1 ==> k * d >= d
    ensures k <= 0 ==> k * d <= 0
  {
  }

  lemma {:induction false} Laps(limit: int, n: nat) returns (laps: nat)
    requires limit > 0
    ensures n == laps * limit + Slot(limit, n) && Slot(limit, n) < limit
  {
    if n == 0 {
      laps := 0;
    } else {
      var before := Laps(limit, n - 1);
      laps := if Slot(limit, n) == 0 then before + 1 else before;
      assert (before + 1) * limit == before * limit + limit;
    }
  }

  lemma RemaindersAgree(d: int, p: int, x: int, q: int, y: int)
    requires p * d + x == q * d + y && 0 <= x < d && 0 <= y < d
    ensures x == y
  {
    assert (p - q) * d == p * d - q * d;
    assert (q - p) * d == q * d - p * d;
    Multiples(p - q, d);
    Multiples(q - p, d);
  }

  lemma SlotIsMod(limit: int, n: nat)
    requires limit > 0
    ensures Slot(limit, n) == n % limit
  {
    var laps := Laps(limit, n);
    RemaindersAgree(limit, laps, Slot(limit, n), n / limit, n % limit);
  }

  /** Two items that can be in the ring at once never share a slot. */
  lemma SlotsDiffer(limit: int, i: nat, j: nat)
    requires i < j < i + limit
    ensures Slot(limit, i) != Slot(limit, j)
  {
    var a := Laps(limit, i);
    var b := Laps(limit, j);
    assert (b - a) * limit == b * limit - a * limit;
    Multiples(b - a, limit);
  }

  // ---------- the invariant ----------

  /** The writer's index, with the half-done advance of a write in progress. */
  function WriteIndexAt<T>(s: Ring<T>): int
    requires s.wrCnt >= 0
  {
    match s.writer
    case WrapWrite(_) => Slot(s.limit, s.wrCnt) + 1
    case CountWrite(_) => Slot(s.limit, s.wrCnt + 1)
    case _ => Slot(s.limit, s.wrCnt)
  }

  function ReadIndexAt<T>(s: Ring<T>): int
    requires s.rdCnt >= 0
  {
    match s.reader
    case WrapRead(_) => Slot(s.limit, s.rdCnt) + 1
    case CountRead(_) => Slot(s.limit, s.rdCnt + 1)
    case _ => Slot(s.limit, s.rdCnt)
  }

  predicate HasRoom<T>(w: Writer<T>) {
    w.StoreSlot? || w.AdvanceWrite? || w.WrapWrite? || w.CountWrite?
  }

  predicate HasItem<T>(r: Reader<T>) {
    r.CopySlot? || r.AdvanceRead? || r.WrapRead? || r.CountRead?
  }

  predicate PastDrain<T>(r: Reader<T>) {
    r.TestEmpty? || HasItem(r) || r.ReaderFailed?
  }

  /** Tokens written to the pipe so far: all counted writes but the one about to signal. */
  function Raised<T>(s: Ring<T>): int {
    s.wrCnt - (if s.writer.RaiseSignal? then 1 else 0)
  }

  ghost predicate Counts<T>(s: Ring<T>) {
    && s.wrCnt == |s.accepted|
    && s.rdCnt == |s.returned| <= s.wrCnt <= s.rdCnt + Capacity(s.limit)
    && s.returned == s.accepted[..s.rdCnt]
    && (HasRoom(s.writer) ==> s.wrCnt - s.rdCnt < s.limit)
    && (HasItem(s.reader) ==> s.rdCnt < s.wrCnt)
  }

  ghost predicate Indices<T>(s: Ring<T>) {
    && s.rdCnt >= 0
    && s.wrCnt >= 0
    && s.wrIndex == WriteIndexAt(s)
    && s.rdIndex == ReadIndexAt(s)
  }

  ghost predicate Contents<T>(s: Ring<T>)
    requires s.wrCnt == |s.accepted| && 0 <= s.rdCnt <= s.wrCnt
  {
    && (forall i :: s.rdCnt <= i < s.wrCnt ==>
         Slot(s.limit, i) in s.data && s.data[Slot(s.limit, i)] == s.accepted[i])
    && (s.writer.AdvanceWrite? || s.writer.WrapWrite? || s.writer.CountWrite? ==>
          Slot(s.limit, s.wrCnt) in s.data && s.data[Slot(s.limit, s.wrCnt)] == s.writer.item)
    && (s.reader.AdvanceRead? || s.reader.WrapRead? || s.reader.CountRead? ==>
          s.rdCnt < s.wrCnt && s.reader.item == s.accepted[s.rdCnt])
    && !s.reader.ReaderFailed?
  }

  ghost predicate Signals<T>(s: Ring<T>) {
    && s.tokens == Raised(s) - s.drained
    && (s.reader.DrainSignal? ==> s.tokens > 0)
    && (if PastDrain(s.reader)
        then s.drained - 1 <= s.rdCnt <= s.drained + 1
        else s.drained <= s.rdCnt <= s.drained + 2)
  }

  ghost predicate Inv<T>(s: Ring<T>) {
    Counts(s) && Indices(s) && Contents(s) && Signals(s)
  }

  lemma WriterKeepsCounts<T>(s: Ring<T>)
    requires Counts(s)
    ensures Counts(WriterMove(s))
  {
  }

  lemma ReaderKeepsCounts<T>(s: Ring<T>)
    requires Counts(s) && Contents(s)
    ensures Counts(ReaderMove(s))
  {
    if s.reader.CountRead? {
      assert s.accepted[..s.rdCnt] + [s.accepted[s.rdCnt]] == s.accepted[..s.rdCnt + 1];
    }
  }

  lemma WriterKeepsIndices<T>(s: Ring<T>)
    requires Indices(s)
    ensures Indices(WriterMove(s))
  {
  }

  lemma ReaderKeepsIndices<T>(s: Ring<T>)
    requires Indices(s)
    ensures Indices(ReaderMove(s))
  {
  }

  lemma WriterKeepsContents<T>(s: Ring<T>)
    requires Counts(s) && Indices(s) && Contents(s) && Counts(WriterMove(s))
    ensures Contents(WriterMove(s))
  {
    if s.writer.StoreSlot? {
      var s' := WriterMove(s);
      forall i | s.rdCnt <= i < s.wrCnt
        ensures Slot(s.limit, i) in s'.data && s'.data[Slot(s.limit, i)] == s.accepted[i]
      {
        SlotsDiffer(s.limit, i, s.wrCnt);
      }
    }
  }

  lemma ReaderKeepsContents<T>(s: Ring<T>)
    requires Counts(s) && Indices(s) && Contents(s) && Counts(ReaderMove(s))
    ensures Contents(ReaderMove(s))
  {
  }

  lemma WriterKeepsSignals<T>(s: Ring<T>)
    requires Counts(s) && Signals(s)
    ensures Signals(WriterMove(s))
  {
  }

  lemma ReaderKeepsSignals<T>(s: Ring<T>)
    requires Counts(s) && Signals(s) && Counts(ReaderMove(s))
    ensures Signals(ReaderMove(s))
  {
    match s.reader
    case TestSignal => assert s.tokens == 0 ==> s.rdCnt <= s.wrCnt <= s.drained + 1;
    case TestEmpty => assert s.drained <= s.wrCnt;
    case CountRead(_) =>
    case _ =>
  }

  lemma WriterKeepsInv<T>(s: Ring<T>)
    requires Inv(s)
    ensures Inv(WriterMove(s))
  {
    WriterKeepsCounts(s);
    WriterKeepsIndices(s);
    WriterKeepsContents(s);
    WriterKeepsSignals(s);
  }

  lemma ReaderKeepsInv<T>(s: Ring<T>)
    requires Inv(s)
    ensures Inv(ReaderMove(s))
  {
    ReaderKeepsCounts(s);
    ReaderKeepsIndices(s);
    ReaderKeepsContents(s);
    ReaderKeepsSignals(s);
  }

  lemma StepKeepsInv<T>(s: Ring<T>, m: Move<T>)
    requires Inv(s)
    ensures Inv(Step(s, m))
  {
    match m
    case WriterStep => WriterKeepsInv(s);
    case ReaderStep => ReaderKeepsInv(s);
    case _ =>
  }

  lemma {:induction false} RunKeepsInv<T>(limit: int, ms: seq<Move<T>>)
    ensures Inv(Run(limit, ms)) && Run(limit, ms).limit == limit
  {
    if ms != [] {
      RunKeepsInv(limit, ms[..|ms| - 1]);
      StepKeepsInv(Run(limit, ms[..|ms| - 1]), ms[|ms| - 1]);
    }
  }
}
