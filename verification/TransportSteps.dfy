/**
  The engine's end of the FIFO transport on values: one pipe per read descriptor, the cached list of
  ready descriptors, and complete writes by any number of clients.
 */
module TransportSteps {
  import opened Wrappers
  import opened Framing

  datatype Tagged = Tagged(client: string, message: Message)

  datatype Server = Server(
    lst: seq<int>,               // read descriptors, ascending
    rfds: map<string, int>,
    rclients: map<int, string>,
    pipes: map<int, seq<Byte>>,
    ready: seq<int>,             // what the last poll found
    readyIndex: nat,
    readyCnt: nat,
    sent: map<string, seq<Message>>, // history: complete writes of each client
    received: seq<Tagged>)           // history: what `read` handed out

  datatype Move = ClientWrite(client: string, message: Message) | ServerRead

  datatype Outcome = NothingRead | Got(tagged: Tagged) | ReadFailed

  /** The descriptors with data, in the order in which poll looks at them. */
  function ReadyOf(lst: seq<int>, pipes: map<int, seq<Byte>>): seq<int> {
    if lst == [] then []
    else (if lst[0] in pipes && pipes[lst[0]] != [] then [lst[0]] else []) + ReadyOf(lst[1..], pipes)
  }

  lemma ReadyStep(lst: seq<int>, i: nat, pipes: map<int, seq<Byte>>, found: seq<int>)
    requires i < |lst|
    ensures found + ReadyOf(lst[i..], pipes)
            == (if lst[i] in pipes && pipes[lst[i]] != [] then found + [lst[i]] else found) + ReadyOf(lst[i + 1..], pipes)
  {
    assert lst[i..][1..] == lst[i + 1..];
  }

  /**
    `read_data` and `read`.  The poll's return code doubles as "something is ready": with
    descriptors still cached there is no poll, the code stays 0, and nothing is read.
   */
  function Read(s: Server): (Server, Outcome) {
    if s.readyCnt != 0 then (s, NothingRead)
    else
      var polled := Polled(s);
      if polled.ready == [] then (polled, NothingRead) else TakeReady(polled)
  }

  /** Reads one message from the next cached descriptor. */
  function TakeReady(s: Server): (Server, Outcome)
    requires s.readyIndex < |s.ready| && s.readyCnt > 0
  {
    var fd := s.ready[s.readyIndex];
    var s1 := s.(readyIndex := s.readyIndex + 1, readyCnt := s.readyCnt - 1);
    if fd !in s.pipes || fd !in s.rclients || |s.pipes[fd]| < HEADER then (s1, ReadFailed)
    else
      var result := ReadFrame(s.pipes[fd]);
      var s2 := s1.(pipes := s1.pipes[fd := result.rest]);
      if result.message.None? then (s2, ReadFailed)
      else
        var tagged := Tagged(s.rclients[fd], result.message.value);
        (s2.(received := s2.received + [tagged]), Got(tagged))
  }

  /** A client's write opens the FIFO of its own name: the engine's latest descriptor for that name. */
  function Write(s: Server, client: string, m: Message): Server
    requires |m| < INT_LIMIT
  {
    if client !in s.rfds || s.rfds[client] !in s.pipes || client !in s.sent then s
    else
      var fd := s.rfds[client];
      s.(pipes := s.pipes[fd := s.pipes[fd] + Frame(m)], sent := s.sent[client := s.sent[client] + [m]])
  }

  /** Messages that the transport cannot carry are left out of runs. */
  function Step(s: Server, m: Move): Server {
    match m
    case ClientWrite(client, message) => if Sendable(message) then Write(s, client, message) else s
    case ServerRead => Read(s).0
  }

  function Run(s: Server, ms: seq<Move>): Server {
    if ms == [] then s else Step(Run(s, ms[..|ms| - 1]), ms[|ms| - 1])
  }

  // ---------- set_server_mode ----------

  /** `create_a_fd` for the read end: a fresh FIFO replaces an earlier one of the same name. */
  function OpenNext(s: Server, name: string, fd: int): Server {
    s.(lst := s.lst + [fd], rfds := s.rfds[name := fd], rclients := s.rclients[fd := name],
       pipes := s.pipes[fd := []], sent := s.sent[name := []])
  }

  /** The engine opens one FIFO per name; descriptors are fresh and ascend. */
  function Open(names: seq<string>, firstFd: int): Server {
    if names == [] then Server([], map[], map[], map[], [], 0, 0, map[], [])
    else OpenNext(Open(names[..|names| - 1], firstFd), names[|names| - 1], firstFd + |names| - 1)
  }

  lemma OpenOneMore(names: seq<string>, i: nat, firstFd: int)
    requires i < |names|
    ensures Open(names[..i + 1], firstFd) == OpenNext(Open(names[..i], firstFd), names[i], firstFd + i)
  {
    assert names[..i + 1][..i] == names[..i];
  }

  // ---------- the invariant ----------

  function From(received: seq<Tagged>, client: string): seq<Message> {
    if received == [] then []
    else
      var t := received[|received| - 1];
      From(received[..|received| - 1], client) + (if t.client == client then [t.message] else [])
  }

  /** The client's messages read so far, and in the pipe the ones still to be read. */
  ghost predicate InStep(got: seq<Message>, sent: seq<Message>, pipe: seq<Byte>) {
    && AllSendable(sent)
    && got <= sent
    && pipe == Frames(sent[|got|..])
  }

  ghost predicate Channel(s: Server, fd: int) {
    && fd in s.pipes
    && fd in s.rclients
    && s.rclients[fd] in s.rfds
    && s.rclients[fd] in s.sent
    && if s.rfds[s.rclients[fd]] == fd
       then InStep(From(s.received, s.rclients[fd]), s.sent[s.rclients[fd]], s.pipes[fd])
       else s.pipes[fd] == []
  }

  ghost predicate Inv(s: Server) {
    && (forall fd :: fd in s.lst ==> Channel(s, fd))
    && (forall c :: c in s.rfds ==> s.rfds[c] in s.lst && s.rfds[c] in s.rclients && s.rclients[s.rfds[c]] == c)
    && (forall c :: c !in s.rfds ==> From(s.received, c) == [])
  }

  lemma InStepWrite(got: seq<Message>, sent: seq<Message>, pipe: seq<Byte>, m: Message)
    requires InStep(got, sent, pipe) && Sendable(m)
    ensures InStep(got, sent + [m], pipe + Frame(m))
  {
    assert (sent + [m])[|got|..] == sent[|got|..] + [m];
    FramesSnoc(sent[|got|..], m);
  }

  lemma InStepRead(got: seq<Message>, sent: seq<Message>, pipe: seq<Byte>)
    requires InStep(got, sent, pipe) && pipe != []
    ensures |pipe| >= HEADER && |got| < |sent|
    ensures var r := ReadFrame(pipe);
            r.message == Some(sent[|got|]) && InStep(got + [sent[|got|]], sent, r.rest)
  {
    ReadOldest(sent[|got|..]);
    assert sent[|got|..][1..] == sent[|got| + 1..];
  }

  lemma WriteKeepsInv(s: Server, client: string, m: Message)
    requires Inv(s) && Sendable(m)
    ensures Inv(Write(s, client, m))
  {
    if client in s.rfds && s.rfds[client] in s.pipes && client in s.sent {
      var fd := s.rfds[client];
      assert Channel(s, fd);
      InStepWrite(From(s.received, client), s.sent[client], s.pipes[fd], m);
      forall x | x in s.lst ensures Channel(Write(s, client, m), x)
      {
        assert Channel(s, x);
      }
    }
  }

  lemma FromSnoc(received: seq<Tagged>, t: Tagged, client: string)
    ensures From(received + [t], client) == From(received, client) + (if t.client == client then [t.message] else [])
  {
    assert (received + [t])[..|received|] == received;
  }

  lemma {:induction false} ReadyHasData(lst: seq<int>, pipes: map<int, seq<Byte>>, fd: int)
    ensures fd in ReadyOf(lst, pipes) <==> fd in lst && fd in pipes && pipes[fd] != []
  {
    if lst != [] {
      ReadyHasData(lst[1..], pipes, fd);
      assert lst == [lst[0]] + lst[1..];
    }
  }

  /** A read that goes through to a ready descriptor hands out that client's oldest unread message. */
  lemma TakeReadyKeepsInv(s: Server)
    requires Inv(s) && s.readyIndex < |s.ready| && s.readyCnt > 0
    requires s.ready[s.readyIndex] in s.lst && s.ready[s.readyIndex] in s.pipes && s.pipes[s.ready[s.readyIndex]] != []
    ensures Inv(TakeReady(s).0) && TakeReady(s).1.Got?
  {
    var fd := s.ready[s.readyIndex];
    assert Channel(s, fd);
    var c := s.rclients[fd];
    InStepRead(From(s.received, c), s.sent[c], s.pipes[fd]);
    var s' := TakeReady(s).0;
    var t := TakeReady(s).1.tagged;
    forall x | x in s.lst ensures Channel(s', x)
    {
      assert Channel(s, x);
      FromSnoc(s.received, t, s.rclients[x]);
    }
    forall x | x !in s.rfds ensures From(s'.received, x) == []
    {
      FromSnoc(s.received, t, x);
    }
  }

  /** The state between the poll and the read that follows it. */
  function Polled(s: Server): Server {
    var r := ReadyOf(s.lst, s.pipes);
    s.(ready := r, readyIndex := 0, readyCnt := |r|)
  }

  lemma PollKeepsInv(s: Server)
    requires Inv(s)
    ensures Inv(Polled(s))
  {
    forall x | x in s.lst ensures Channel(Polled(s), x)
    {
      assert Channel(s, x);
    }
  }

  /** A descriptor whose pipe begins with a whole message of a known client. */
  predicate CanRead(pipes: map<int, seq<Byte>>, rclients: map<int, string>, fd: int) {
    fd in rclients && fd in pipes && |pipes[fd]| >= HEADER && ReadFrame(pipes[fd]).message.Some?
  }

  lemma PipeCanBeRead(s: Server, fd: int)
    requires Inv(s) && fd in s.lst && fd in s.pipes && s.pipes[fd] != []
    ensures CanRead(s.pipes, s.rclients, fd)
  {
    assert Channel(s, fd);
    var c := s.rclients[fd];
    InStepRead(From(s.received, c), s.sent[c], s.pipes[fd]);
  }

  lemma ReadKeepsInv(s: Server)
    requires Inv(s)
    ensures Inv(Read(s).0)
  {
    if s.readyCnt == 0 {
      PollKeepsInv(s);
      var r := ReadyOf(s.lst, s.pipes);
      if r != [] {
        ReadyHasData(s.lst, s.pipes, r[0]);
        TakeReadyKeepsInv(Polled(s));
      }
    }
  }

  /** Nothing has been written yet. */
  ghost predicate Silent(s: Server) {
    && s.received == []
    && s.readyCnt == 0
    && (forall fd :: fd in s.pipes ==> s.pipes[fd] == [])
  }

  lemma OpenNextInv(s: Server, name: string, fd: int)
    requires Inv(s) && Silent(s) && fd !in s.lst
    ensures Inv(OpenNext(s, name, fd)) && Silent(OpenNext(s, name, fd))
  {
    var s' := OpenNext(s, name, fd);
    forall x | x in s'.lst ensures Channel(s', x)
    {
      if x != fd {
        assert Channel(s, x);
      }
    }
    assert fd in s'.lst;
    forall c | c in s'.rfds ensures s'.rfds[c] in s'.lst && s'.rfds[c] in s'.rclients && s'.rclients[s'.rfds[c]] == c
    {
      if c != name {
        assert s.rfds[c] in s.lst;
      }
    }
  }

  lemma {:induction false} OpenBound(names: seq<string>, firstFd: int)
    ensures forall fd :: fd in Open(names, firstFd).lst ==> fd < firstFd + |names|
  {
    if names != [] {
      OpenBound(names[..|names| - 1], firstFd);
    }
  }

  lemma {:induction false} OpenInv(names: seq<string>, firstFd: int)
    ensures Inv(Open(names, firstFd)) && Silent(Open(names, firstFd))
  {
    if names != [] {
      var before := names[..|names| - 1];
      OpenInv(before, firstFd);
      OpenBound(before, firstFd);
      OpenNextInv(Open(before, firstFd), names[|names| - 1], firstFd + |names| - 1);
    }
  }

  lemma {:induction false} RunKeepsInv(s: Server, ms: seq<Move>)
    requires Inv(s)
    ensures Inv(Run(s, ms))
    decreases |ms|
  {
    if ms != [] {
      var before := Run(s, ms[..|ms| - 1]);
      RunKeepsInv(s, ms[..|ms| - 1]);
      match ms[|ms| - 1]
      case ClientWrite(client, message) => if Sendable(message) { WriteKeepsInv(before, client, message); }
      case ServerRead => ReadKeepsInv(before);
    }
  }

  lemma {:induction false} OpenIsSilent(names: seq<string>, firstFd: int)
    ensures var s := Open(names, firstFd);
            s.ready == [] && s.readyIndex == 0 && s.readyCnt == 0 && s.received == []
    decreases |names|
  {
    if names != [] {
      OpenIsSilent(names[..|names| - 1], firstFd);
    }
  }
}
