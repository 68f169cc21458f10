/**
  test_client.CacheData as an object that two threads use at once.

  Between any two statements of one thread the other may run any number of its own.  That is
  what `ReaderProceeds` and `WriterProceeds` stand for: each may change only the fields that its
  thread assigns, and only by moves of the ring's step relation.  ReaderLeavesTheWriterAlone and
  WriterLeavesTheReaderAlone show that every run of one thread meets that contract.
 */
module CacheDataModule {
  import opened Messages
  import opened SignalRing
  import opened RingProperties

  ghost predicate LeadsTo(limit: int, ms: seq<Move<Message>>, s: Ring<Message>) {
    s == Run(limit, ms)
  }

  class CacheData {
    const limit: int
    var rdIndex: int
    var wrIndex: int
    var rdCnt: int
    var wrCnt: int
    var data: map<int, Message>
    var tokens: nat // the signal pipe
    var shutdown: bool
    ghost var writer: Writer<Message>
    ghost var reader: Reader<Message>
    ghost var accepted: seq<Message>
    ghost var returned: seq<Message>
    ghost var drained: nat
    ghost var moves: seq<Move<Message>> // every statement run so far, by either thread
    ghost var ring: Ring<Message> // the state they lead to

    ghost function View(): Ring<Message>
      reads this
    {
      Ring(limit, rdIndex, wrIndex, rdCnt, wrCnt, data, tokens, shutdown,
           writer, reader, accepted, returned, drained)
    }

    /** The moves recorded so far lead to `ring`, and to no other state. */
    ghost predicate Recorded()
      reads this
    {
      forall r | LeadsTo(limit, moves, r) :: r == ring
    }

    ghost predicate Valid()
      reads this
    {
      Recorded() && View() == ring
    }

    lemma ViewIsRun()
      requires Valid()
      ensures View() == Run(limit, moves) && Inv(View())
    {
      assert LeadsTo(limit, moves, Run(limit, moves));
      RunKeepsInv(limit, moves);
    }

    lemma SlotIsFilled()
      requires Valid() && reader.CopySlot?
      ensures |returned| < |accepted| && rdIndex in data && data[rdIndex] == accepted[|returned|]
    {
      ViewIsRun();
    }

    constructor (limit: int)
      ensures Valid() && this.limit == limit && moves == []
      ensures writer.WriterIdle? && reader.ReaderIdle? && accepted == returned == []
    {
      this.limit := limit;
      rdIndex, wrIndex, rdCnt, wrCnt, data := 0, 0, 0, 0, map[];
      tokens, shutdown := 0, false;
      writer, reader, accepted, returned, drained, moves := WriterIdle, ReaderIdle, [], [], 0, [];
      ring := Init(limit);
    }

    /** Records that the statement just run was move m of the step relation. */
    ghost method Did(m: Move<Message>)
      requires Recorded() && View() == Step(ring, m)
      modifies this`moves, this`ring
      ensures Valid() && moves == old(moves) + [m]
    {
      assert LeadsTo(limit, moves, Run(limit, moves));
      RunSnoc(limit, moves, m);
      moves := moves + [m];
      ring := View();
    }

    ghost method WriterDid()
      requires Recorded() && View() == WriterMove(ring)
      modifies this`moves, this`ring
      ensures Valid() && moves == old(moves) + [WriterStep]
    {
      Did(WriterStep);
    }

    ghost method ReaderDid()
      requires Recorded() && View() == ReaderMove(ring)
      modifies this`moves, this`ring
      ensures Valid() && moves == old(moves) + [ReaderStep]
    {
      Did(ReaderStep);
    }

    /** The reading thread runs any number of statements, none included. */
    method ReaderProceeds()
      requires Valid()
      modifies this`rdIndex, this`rdCnt, this`tokens, this`shutdown, this`reader, this`returned,
               this`drained, this`moves, this`ring
      ensures Valid() && old(moves) <= moves && (old(shutdown) ==> shutdown)
    {
    }

    /** The writing thread runs any number of statements, none included. */
    method WriterProceeds()
      requires Valid()
      modifies this`wrIndex, this`wrCnt, this`data, this`tokens, this`shutdown, this`writer,
               this`accepted, this`moves, this`ring
      ensures Valid() && old(moves) <= moves && old(accepted) <= accepted && (old(shutdown) ==> shutdown)
    {
    }

    /** The queue was full at some moment between the call and the return. */
    ghost predicate WasFull(from: nat)
      reads this
    {
      exists k :: from <= k <= |moves| && |Queue(Run(limit, moves[..k]))| == Capacity(limit)
    }

    ghost predicate WasEmpty(from: nat)
      reads this
    {
      exists k :: from <= k <= |moves| && |Queue(Run(limit, moves[..k]))| == 0
    }

    /** The overflow answer of `write`: the ring is full at this moment. */
    method Refuse()
      requires Valid() && writer.TestFull? && wrCnt - rdCnt >= limit
      modifies this`writer, this`moves, this`ring
      ensures Valid() && writer.WriterIdle? && old(moves) <= moves
      ensures WasFull(|old(moves)|)
    {
      ViewIsRun();
      ghost var before := moves;
      writer := WriterIdle;
      WriterDid();
      assert moves[..|before|] == before;
    }

    /** The room test of `write`. */
    method TestRoom(item: Message) returns (room: bool)
      requires Valid() && writer == TestFull(item)
      modifies this
      ensures Valid() && old(moves) <= moves && accepted == old(accepted)
      ensures writer == if room then StoreSlot(item) else WriterIdle
      ensures !room ==> WasFull(|old(moves)|)
    {
      ReaderProceeds();
      room := wrCnt - rdCnt < limit;
      if room {
        writer := StoreSlot(item);
        WriterDid();
      } else {
        Refuse();
      }
    }

    method Write(item: Message) returns (ok: bool)
      requires Valid() && writer.WriterIdle?
      modifies this
      ensures Valid() && writer.WriterIdle? && old(moves) <= moves
      ensures accepted == if ok then old(accepted) + [item] else old(accepted)
      ensures !ok ==> WasFull(|old(moves)|)
    {
      writer := TestFull(item);
      Did(CallWrite(item));
      ok := TestRoom(item);
      if ok {
        StoreItem(item);
        CountItem(item);
      }
    }

    method StoreItem(item: Message)
      requires Valid() && writer == StoreSlot(item)
      modifies this
      ensures Valid() && writer == CountWrite(item) && old(moves) <= moves
      ensures accepted == old(accepted)
    {
      ReaderProceeds();
      data := data[wrIndex := item];
      writer := AdvanceWrite(item);
      WriterDid();
      ReaderProceeds();
      AdvanceWriteIndex(item);
    }

    /** The index advance of `write`; only the writer sees the index at the limit. */
    method AdvanceWriteIndex(item: Message)
      requires Valid() && writer == AdvanceWrite(item)
      modifies this
      ensures Valid() && writer == CountWrite(item) && old(moves) <= moves
      ensures accepted == old(accepted)
    {
      wrIndex := wrIndex + 1;
      writer := WrapWrite(item);
      WriterDid();
      ReaderProceeds();
      WrapWriteIndex(item);
    }

    method WrapWriteIndex(item: Message)
      requires Valid() && writer == WrapWrite(item)
      modifies this`wrIndex, this`writer, this`moves, this`ring
      ensures Valid() && writer == CountWrite(item) && old(moves) <= moves
    {
      if wrIndex >= limit {
        wrIndex := 0;
      }
      writer := CountWrite(item);
      WriterDid();
    }

    /** The counter bump of `write`, and only then the signal. */
    method CountItem(item: Message)
      requires Valid() && writer == CountWrite(item)
      modifies this
      ensures Valid() && writer.WriterIdle? && old(moves) <= moves
      ensures accepted == old(accepted) + [item]
    {
      ReaderProceeds();
      wrCnt := wrCnt + 1;
      accepted := accepted + [item];
      writer := Writer.RaiseSignal;
      WriterDid();
      RaiseSignal();
    }

    /** `_raise_signal`. */
    method RaiseSignal()
      requires Valid() && writer.RaiseSignal?
      modifies this
      ensures Valid() && writer.WriterIdle? && old(moves) <= moves
      ensures accepted == old(accepted)
    {
      ReaderProceeds();
      tokens := tokens + 1;
      writer := WriterIdle;
      WriterDid();
    }

    /** The `os.read` of `_drain_signal`; the pipe still holds a token, so it does not block. */
    method TakeToken()
      requires Valid() && reader.DrainSignal?
      modifies this
      ensures Valid() && reader.TestEmpty? && old(moves) <= moves
      ensures returned == old(returned) && old(accepted) <= accepted && drained == old(drained) + 1
    {
      WriterProceeds();
      ViewIsRun();
      tokens := tokens - 1;
      drained := drained + 1;
      reader := TestEmpty;
      ReaderDid();
    }

    /** `_drain_signal`: takes one token if the pipe has one. */
    method DrainSignal()
      requires Valid() && reader.TestSignal?
      modifies this
      ensures Valid() && reader.TestEmpty? && old(moves) <= moves
      ensures returned == old(returned) && old(accepted) <= accepted
      ensures old(drained) <= drained <= old(drained) + 1
    {
      WriterProceeds();
      if tokens > 0 {
        reader := Reader.DrainSignal;
        ReaderDid();
        TakeToken();
      } else {
        reader := TestEmpty;
        ReaderDid();
      }
    }

    /** The time that one `select` may take off the caller's timeout. */
    method SpendRound(timeout: int) returns (left: int)
      ensures left == TimeoutLeft(timeout)
      ensures timeout > 0 ==> 0 <= left < timeout && timeout - left <= 2
    {
      var t := 2;
      left := timeout;
      if timeout > 0 {
        if timeout < t {
          t := timeout;
        }
        left := timeout - t;
      }
    }

    /** One round of the wait in `read`, of at most two seconds: true once the pipe is ready. */
    method AwaitSignal(timeout: int) returns (ready: bool, left: int)
      requires Valid() && reader == TestWait(timeout)
      requires !shutdown && timeout != 0 && rdCnt >= wrCnt
      modifies this
      ensures Valid() && reader == (if ready then TestSignal else TestWait(left)) && old(moves) <= moves
      ensures left == TimeoutLeft(timeout) && drained == old(drained)
      ensures returned == old(returned) && old(accepted) <= accepted && (old(shutdown) ==> shutdown)
    {
      left := SpendRound(timeout);
      reader := Waiting(left);
      ReaderDid();
      WriterProceeds();
      ready := LookAtPipe(left);
    }

    /** `select` comes back: the pipe is ready, or the time is up. */
    method LookAtPipe(left: int) returns (ready: bool)
      requires Valid() && reader == Waiting(left)
      modifies this`reader, this`moves, this`ring
      ensures Valid() && reader == (if ready then TestSignal else TestWait(left)) && old(moves) <= moves
    {
      ready := tokens > 0;
      if ready {
        reader := TestSignal;
        ReaderDid();
      } else {
        reader := TestWait(left);
        Did(WaitExpires);
      }
    }

    /** An empty round is over; when no more are left, shutdown is seen. */
    method EndRound(left: nat)
      requires Valid() && reader.TestWait?
      modifies this
      ensures Valid() && reader == old(reader) && old(moves) <= moves
      ensures left == 0 ==> shutdown
      ensures returned == old(returned) && old(accepted) <= accepted
    {
      if left == 0 {
        shutdown := true;
        Did(RaiseShutdown);
      }
      WriterProceeds();
    }

    /** The wait loop of `read`.  `rounds` is how many empty rounds pass before shutdown is seen. */
    method Wait(wait: int, rounds: nat)
      requires Valid() && reader == TestWait(wait)
      modifies this
      ensures Valid() && reader.TestSignal? && old(moves) <= moves
      ensures returned == old(returned) && old(accepted) <= accepted
    {
      var timeout, left := wait, rounds;
      var ready := false;
      WriterProceeds();
      while !ready && !shutdown && timeout != 0 && rdCnt >= wrCnt
        invariant Valid() && reader == (if ready then TestSignal else TestWait(timeout))
        invariant old(moves) <= moves && returned == old(returned) && old(accepted) <= accepted
        decreases if ready || shutdown then 0 else left + 1
      {
        ready, timeout := AwaitSignal(timeout);
        if !ready {
          EndRound(left);
          left := if left == 0 then 0 else left - 1;
        }
      }
      if !ready {
        reader := TestSignal;
        ReaderDid();
      }
    }

    method AdvanceReadIndex(item: Message)
      requires Valid() && reader == AdvanceRead(item)
      modifies this
      ensures Valid() && reader == CountRead(item) && old(moves) <= moves
      ensures old(accepted) <= accepted && returned == old(returned)
    {
      rdIndex := rdIndex + 1;
      reader := WrapRead(item);
      ReaderDid();
      WriterProceeds();
      WrapReadIndex(item);
    }

    method WrapReadIndex(item: Message)
      requires Valid() && reader == WrapRead(item)
      modifies this`rdIndex, this`reader, this`moves, this`ring
      ensures Valid() && reader == CountRead(item) && old(moves) <= moves
    {
      if rdIndex >= limit {
        rdIndex := 0;
      }
      reader := CountRead(item);
      ReaderDid();
    }

    /** The copy of a slot: it has an entry, and that is the oldest item not handed out yet. */
    method CopyItem() returns (item: Message)
      requires Valid() && reader.CopySlot?
      modifies this`reader, this`moves, this`ring
      ensures Valid() && reader == AdvanceRead(item) && old(moves) <= moves
      ensures rdIndex in data && item == data[rdIndex]
      ensures |returned| < |accepted| && item == accepted[|returned|]
    {
      SlotIsFilled();
      item := data[rdIndex];
      reader := AdvanceRead(item);
      ReaderDid();
    }

    method CountItemOut(item: Message)
      requires Valid() && reader == CountRead(item)
      modifies this
      ensures Valid() && reader.ReaderIdle? && old(moves) <= moves
      ensures accepted == old(accepted) && returned == old(returned) + [item]
    {
      rdCnt := rdCnt + 1;
      returned := returned + [item];
      reader := ReaderIdle;
      ReaderDid();
    }

    method TakeItem() returns (item: Message)
      requires Valid() && reader.CopySlot?
      modifies this
      ensures Valid() && reader.ReaderIdle? && old(moves) <= moves
      ensures old(accepted) <= accepted && returned == old(returned) + [item]
    {
      item := CopyItem();
      WriterProceeds();
      AdvanceReadIndex(item);
      WriterProceeds();
      CountItemOut(item);
    }

    /** The end of a `read` that finds nothing: the ring is empty at this moment. */
    method ReportEmpty()
      requires Valid() && reader.TestEmpty? && rdCnt >= wrCnt
      modifies this`reader, this`moves, this`ring
      ensures Valid() && reader.ReaderIdle? && old(moves) <= moves
      ensures WasEmpty(|old(moves)|)
    {
      ViewIsRun();
      ghost var before := moves;
      reader := ReaderIdle;
      ReaderDid();
      assert moves[..|before|] == before;
    }

    /** What `read` does once it has drained its token: takes an item or reports an empty ring. */
    method TakeIfAny() returns (ok: bool, items: seq<Message>)
      requires Valid() && reader.TestEmpty?
      modifies this
      ensures Valid() && reader.ReaderIdle? && old(moves) <= moves
      ensures old(accepted) <= accepted
      ensures |items| == (if ok then 1 else 0) && returned == old(returned) + items
      ensures !ok ==> WasEmpty(|old(moves)|)
    {
      WriterProceeds();
      if rdCnt < wrCnt {
        reader := CopySlot;
        ReaderDid();
        WriterProceeds();
        var item := TakeItem();
        ok, items := true, [item];
      } else {
        ReportEmpty();
        ok, items := false, [];
      }
    }

    /** `items` holds the item read, if any. */
    method Read(timeout: int, rounds: nat) returns (ok: bool, items: seq<Message>)
      requires Valid() && reader.ReaderIdle?
      modifies this
      ensures Valid() && reader.ReaderIdle? && old(moves) <= moves
      ensures old(accepted) <= accepted && returned <= accepted
      ensures |items| == (if ok then 1 else 0) && returned == old(returned) + items
      ensures !ok ==> WasEmpty(|old(moves)|)
    {
      reader := TestWait(timeout);
      Did(CallRead(timeout));
      Wait(timeout, rounds);
      DrainSignal();
      ok, items := TakeIfAny();
      ViewIsRun();
    }
  }
}
