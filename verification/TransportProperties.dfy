/** What every interleaving of client writes and engine reads keeps. */
module TransportProperties {
  import opened Framing
  import opened TransportSteps

  /** What a client wrote in the moves of a run, as far as the transport can carry it. */
  function Written(ms: seq<Move>, client: string): seq<Message> {
    if ms == [] then []
    else
      var m := ms[|ms| - 1];
      Written(ms[..|ms| - 1], client)
      + (if m.ClientWrite? && m.client == client && |m.message| <= 2048 && 0 !in m.message then [m.message] else [])
  }

  /** A client's descriptor, its pipe and its record exist. */
  ghost predicate Connected(s: Server, client: string) {
    client in s.rfds && s.rfds[client] in s.pipes && client in s.sent
  }

  lemma ClientIsConnected(s: Server, client: string)
    requires Inv(s) && client in s.rfds
    ensures Connected(s, client)
  {
    assert Channel(s, s.rfds[client]);
  }

  lemma StepRecords(s: Server, m: Move, client: string)
    requires Inv(s) && client in s.rfds
    ensures client in s.sent && client in Step(s, m).sent
    ensures Step(s, m).sent[client] ==
              s.sent[client] + (if m.ClientWrite? && m.client == client && Sendable(m.message) then [m.message] else [])
  {
    ClientIsConnected(s, client);
  }

  lemma {:induction false} RecordedIsWritten(names: seq<string>, firstFd: int, ms: seq<Move>, client: string)
    requires client in names
    ensures var s := Run(Open(names, firstFd), ms);
            client in s.rfds && client in s.sent && s.sent[client] == Written(ms, client)
    decreases |ms|
  {
    OpenInv(names, firstFd);
    OpenNames(names, firstFd, client);
    if ms == [] {
      NothingIsRecorded(names, firstFd, client);
    } else {
      var before := ms[..|ms| - 1];
      RecordedIsWritten(names, firstFd, before, client);
      RunKeepsInv(Open(names, firstFd), before);
      RunKeepsMaps(Open(names, firstFd), ms);
      StepRecords(Run(Open(names, firstFd), before), ms[|ms| - 1], client);
    }
  }

  lemma {:induction false} NothingIsRecorded(names: seq<string>, firstFd: int, client: string)
    ensures client in Open(names, firstFd).sent <==> client in names
    ensures client in names ==> Open(names, firstFd).sent[client] == []
    decreases |names|
  {
    if names != [] {
      var n := |names| - 1;
      NothingIsRecorded(names[..n], firstFd, client);
      assert names == names[..n] + [names[n]];
    }
  }

  /**
    However the complete writes of the clients and the reads interleave, the messages read under a
    client's name are a prefix, in order, of what that client wrote, and its pipe holds exactly the
    frames of the rest; nothing is read under any other name.
   */
  lemma EachClientIsReadInOrder(names: seq<string>, firstFd: int, ms: seq<Move>, client: string)
    ensures var s := Run(Open(names, firstFd), ms);
            var wrote, got := Written(ms, client), From(s.received, client);
            if client in names
            then && client in s.rfds && s.rfds[client] in s.pipes
                 && got <= wrote
                 && AllSendable(wrote[|got|..])
                 && s.pipes[s.rfds[client]] == Frames(wrote[|got|..])
            else got == []
  {
    OpenInv(names, firstFd);
    RunKeepsInv(Open(names, firstFd), ms);
    OpenNames(names, firstFd, client);
    RunKeepsMaps(Open(names, firstFd), ms);
    var s := Run(Open(names, firstFd), ms);
    if client in names {
      RecordedIsWritten(names, firstFd, ms, client);
      assert Channel(s, s.rfds[client]);
    }
  }

  /** What `read` hands out is what is noted as read, and only that. */
  lemma ReadsAreNoted(s: Server)
    ensures Read(s).0.received == match Read(s).1 case Got(t) => s.received + [t] case _ => s.received
  {
  }

  lemma {:induction false} RunKeepsMaps(s: Server, ms: seq<Move>)
    ensures Run(s, ms).rfds == s.rfds && Run(s, ms).rclients == s.rclients && Run(s, ms).lst == s.lst
    decreases |ms|
  {
    if ms != [] {
      RunKeepsMaps(s, ms[..|ms| - 1]);
    }
  }

  lemma {:induction false} OpenNames(names: seq<string>, firstFd: int, client: string)
    ensures client in Open(names, firstFd).rfds <==> client in names
    decreases |names|
  {
    if names != [] {
      var n := |names| - 1;
      OpenNames(names[..n], firstFd, client);
      assert names == names[..n] + [names[n]];
    }
  }

  // ---------- the two maps ----------

  predicate Distinct(names: seq<string>) {
    forall i, j :: 0 <= i < j < |names| ==> names[i] != names[j]
  }

  lemma {:induction false} OpenedMaps(names: seq<string>, firstFd: int)
    ensures var s := Open(names, firstFd);
            && |s.lst| == |names|
            && (forall i :: 0 <= i < |names| ==>
                  s.lst[i] == firstFd + i && s.lst[i] in s.rclients && s.rclients[s.lst[i]] == names[i])
            && (forall i :: 0 <= i < |names| ==> names[i] in s.rfds && s.rfds[names[i]] >= firstFd + i)
    decreases |names|
  {
    if names != [] {
      OpenedMaps(names[..|names| - 1], firstFd);
    }
  }

  /** The engine's fd-to-client map inverts its client-to-fd map exactly when the names are distinct. */
  lemma MapsInvertEachOther(names: seq<string>, firstFd: int)
    ensures var s := Open(names, firstFd);
            && (forall c :: c in s.rfds ==> s.rfds[c] in s.rclients && s.rclients[s.rfds[c]] == c)
            && ((forall fd :: fd in s.lst ==> fd in s.rclients && s.rclients[fd] in s.rfds && s.rfds[s.rclients[fd]] == fd)
                  <==> Distinct(names))
  {
    OpenInv(names, firstFd);
    OpenedMaps(names, firstFd);
    var s := Open(names, firstFd);
    if Distinct(names) {
      forall fd | fd in s.lst ensures fd in s.rclients && s.rclients[fd] in s.rfds && s.rfds[s.rclients[fd]] == fd
      {
        var i :| 0 <= i < |s.lst| && s.lst[i] == fd;
        var other := s.rfds[names[i]];
        assert other in s.lst && s.rclients[other] == names[i];
        var j :| 0 <= j < |s.lst| && s.lst[j] == other;
        assert names[j] == names[i];
      }
    } else {
      var i, j :| 0 <= i < j < |names| && names[i] == names[j];
      assert s.lst[i] in s.lst;
      assert s.rfds[names[j]] >= firstFd + j;
    }
  }

  // ---------- progress ----------

  predicate HasData(s: Server) {
    exists fd :: fd in s.lst && fd in s.pipes && s.pipes[fd] != []
  }

  /**
    A read hands out a message if and only if some pipe holds one and no descriptor is left over
    from an earlier poll.
   */
  lemma ReadDelivers(s: Server)
    requires Inv(s)
    ensures Read(s).1.Got? <==> s.readyCnt == 0 && HasData(s)
    ensures !Read(s).1.ReadFailed?
  {
    if s.readyCnt == 0 {
      var r := ReadyOf(s.lst, s.pipes);
      if r != [] {
        ReadyHasData(s.lst, s.pipes, r[0]);
        PollKeepsInv(s);
        TakeReadyKeepsInv(Polled(s));
      } else if HasData(s) {
        var fd :| fd in s.lst && fd in s.pipes && s.pipes[fd] != [];
        ReadyHasData(s.lst, s.pipes, fd);
      }
    }
  }

  /** A read leaves descriptors over exactly when it finds some left over, or at least two ready. */
  lemma ReadLeavesOver(s: Server)
    ensures Read(s).0.readyCnt > 0 <==> s.readyCnt > 0 || |ReadyOf(s.lst, s.pipes)| >= 2
  {
  }

  /**
    The documented round robin (lib/README:31-45) does not happen: once a poll has found two
    descriptors ready, no later read delivers anything, whatever the clients write.
   */
  lemma {:induction false} LeftOversBlockTheReader(s: Server, ms: seq<Move>)
    requires s.readyCnt > 0
    ensures Run(s, ms).received == s.received && Run(s, ms).readyCnt == s.readyCnt
    decreases |ms|
  {
    if ms != [] {
      LeftOversBlockTheReader(s, ms[..|ms| - 1]);
    }
  }

  predicate FindsAtMostOne(s: Server, m: Move) {
    m.ServerRead? ==> |ReadyOf(s.lst, s.pipes)| <= 1
  }

  /** Every read of the run found data on at most one descriptor. */
  predicate NeverTwoReady(s: Server, ms: seq<Move>) {
    forall i :: 0 <= i < |ms| ==> FindsAt(s, ms, i)
  }

  predicate FindsAt(s: Server, ms: seq<Move>, i: nat)
    requires i < |ms|
  {
    FindsAtMostOne(Run(s, ms[..i]), ms[i])
  }

  lemma FindsAtPrefix(s: Server, ms: seq<Move>, n: nat, i: nat)
    requires i < n <= |ms|
    ensures FindsAt(s, ms, i) == FindsAt(s, ms[..n], i)
  {
    assert ms[..n][..i] == ms[..i];
  }

  lemma OneMoveLeavesOver(s: Server, m: Move)
    ensures Step(s, m).readyCnt == 0 <==> s.readyCnt == 0 && FindsAtMostOne(s, m)
  {
    ReadLeavesOver(s);
  }

  lemma OneMoveMore(s: Server, ms: seq<Move>)
    requires ms != []
    ensures var before := ms[..|ms| - 1];
            NeverTwoReady(s, ms) <==> NeverTwoReady(s, before) && FindsAtMostOne(Run(s, before), ms[|ms| - 1])
  {
    var before := ms[..|ms| - 1];
    forall i | 0 <= i < |before| ensures FindsAt(s, ms, i) == FindsAt(s, before, i)
    {
      FindsAtPrefix(s, ms, |before|, i);
    }
    assert FindsAt(s, ms, |before|) == FindsAtMostOne(Run(s, before), ms[|before|]);
  }

  lemma {:induction false} LeftOversComeFromTwo(s: Server, ms: seq<Move>)
    requires s.readyCnt == 0
    ensures Run(s, ms).readyCnt == 0 <==> NeverTwoReady(s, ms)
    decreases |ms|
  {
    if ms != [] {
      var before := ms[..|ms| - 1];
      LeftOversComeFromTwo(s, before);
      OneMoveLeavesOver(Run(s, before), ms[|ms| - 1]);
      OneMoveMore(s, ms);
    }
  }

  /**
    A run leaves the reader able to read, and so never had it blocked, if and only if each of its reads
    found at most one client with unread messages.
   */
  lemma ReaderStaysOpen(names: seq<string>, firstFd: int, ms: seq<Move>)
    ensures Run(Open(names, firstFd), ms).readyCnt == 0 <==> NeverTwoReady(Open(names, firstFd), ms)
  {
    OpenIsSilent(names, firstFd);
    LeftOversComeFromTwo(Open(names, firstFd), ms);
  }

  /** Two clients, one message each: the first is read, the second never. */
  lemma SecondClientIsNeverRead(later: seq<Move>)
    ensures var written := Run(Open(["a", "b"], 3), [ClientWrite("a", [1]), ClientWrite("b", [2])]);
            var s := Run(Read(written).0, later);
            && Read(written).1 == Got(Tagged("a", [1]))
            && From(s.received, "b") == []
  {
    TwoOpen();
    TwoWrites(OpenNext(OpenNext(Open([], 3), "a", 3), "b", 4));
    var written := Run(Open(["a", "b"], 3), [ClientWrite("a", [1]), ClientWrite("b", [2])]);
    FirstOfTwo(written);
    LeftOversBlockTheReader(Read(written).0, later);
    NothingFromB();
  }

  lemma FirstOfTwo(s: Server)
    requires s.lst == [3, 4] && s.readyCnt == 0 && s.received == [] && 3 in s.rclients && s.rclients[3] == "a"
    requires 3 in s.pipes && s.pipes[3] == Frame([1]) && 4 in s.pipes && s.pipes[4] == Frame([2])
    ensures Read(s).1 == Got(Tagged("a", [1]))
    ensures Read(s).0.readyCnt == 1 && Read(s).0.received == [Tagged("a", [1])]
  {
    FrameRoundTrip([1], []);
    assert Frame([1]) + [] == Frame([1]);
    TwoReady(s.pipes);
  }

  lemma NothingFromB()
    ensures From([Tagged("a", [1])], "b") == []
  {
    assert "a"[0] != "b"[0];
    assert From([Tagged("a", [1])], "b") == From([], "b") + [];
  }

  lemma TwoOpen()
    ensures Open(["a", "b"], 3) == OpenNext(OpenNext(Open([], 3), "a", 3), "b", 4)
  {
    assert ["a"][..0] == [];
    assert ["a", "b"][..1] == ["a"];
  }

  lemma TwoWrites(s: Server)
    requires s == OpenNext(OpenNext(Open([], 3), "a", 3), "b", 4)
    ensures var w := Run(s, [ClientWrite("a", [1]), ClientWrite("b", [2])]);
            && w.lst == [3, 4] && w.readyCnt == 0 && w.received == []
            && 3 in w.rclients && w.rclients[3] == "a"
            && 3 in w.pipes && w.pipes[3] == Frame([1])
            && 4 in w.pipes && w.pipes[4] == Frame([2])
  {
    assert "a"[0] != "b"[0];
    var m1, m2 := ClientWrite("a", [1]), ClientWrite("b", [2]);
    assert [m1, m2][..1] == [m1];
    assert [m1][..0] == [];
    assert Run(s, [m1]) == Step(Run(s, []), m1);
    assert [] + Frame([1]) == Frame([1]);
    assert [] + Frame([2]) == Frame([2]);
  }

  lemma TwoReady(pipes: map<int, seq<Byte>>)
    requires 3 in pipes && 4 in pipes && pipes[3] != [] && pipes[4] != []
    ensures ReadyOf([3, 4], pipes) == [3, 4]
  {
    assert [3, 4][1..] == [4];
    assert [4][1..] == [];
    assert ReadyOf([4], pipes) == [4] + ReadyOf([], pipes);
  }
}
