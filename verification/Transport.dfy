/** reader_writer and the engine's transportImpl as objects over the kernel's FIFOs. */
module Transport {
  import opened Framing
  import T = TransportSteps

  const PATH_BUFFER := 100
  const PATH_PREFIX := "/tmp/lom_fifo_"
  const PATH_SUFFIX := "_to_engine"

  function FullPath(client: string): string {
    PATH_PREFIX + client + PATH_SUFFIX
  }

  /** Different clients never share a FIFO. */
  lemma PathsDiffer(a: string, b: string)
    requires FullPath(a) == FullPath(b)
    ensures a == b
  {
    var start := |PATH_PREFIX|;
    assert FullPath(a)[start..start + |a|] == a;
    assert FullPath(b)[start..start + |b|] == b;
  }

  /** The path of a client's FIFO, standing for the text that FullPath writes out. */
  datatype Path = NoPath | FifoOf(client: string)

  /** `_get_path` for the client-to-engine direction: no path when the name is too long for the buffer. */
  function GetPath(client: string): (path: Path)
    ensures path == NoPath <==> |"/tmp/lom_fifo_" + client + "_to_engine"| >= 100
  {
    if |PATH_PREFIX| + |client| + |PATH_SUFFIX| < PATH_BUFFER then FifoOf(client) else NoPath
  }

  /** The FIFOs: each path names the one made last under it; a read descriptor stands for its FIFO. */
  class Kernel {
    var nodes: map<Path, int>
    var pipes: map<int, seq<Byte>>
    var nextFd: nat

    constructor (firstFd: nat)
      ensures nodes == map[] && pipes == map[] && nextFd == firstFd
    {
      nodes, pipes, nextFd := map[], map[], firstFd;
    }

    /** unlink, mknod and open of a read end. */
    method MakeFifo(path: Path) returns (fd: nat)
      modifies this
      ensures fd == old(nextFd) && nextFd == fd + 1
      ensures nodes == old(nodes)[path := fd] && pipes == old(pipes)[fd := []]
    {
      fd := nextFd;
      nextFd := nextFd + 1;
      nodes := nodes[path := fd];
      pipes := pipes[fd := []];
    }
  }

  /** Every client's path leads to the descriptor that the engine reads for it, and to no other client's. */
  ghost predicate NodesMatch(nodes: map<Path, int>, rfds: map<string, int>) {
    && (forall c :: c in rfds ==> GetPath(c) != NoPath && GetPath(c) in nodes && nodes[GetPath(c)] == rfds[c])
    && (forall c :: GetPath(c) in nodes ==> c in rfds)
  }

  lemma NodesGrow(nodes: map<Path, int>, rfds: map<string, int>, name: string, fd: int)
    requires NodesMatch(nodes, rfds) && GetPath(name) != NoPath
    ensures NodesMatch(nodes[GetPath(name) := fd], rfds[name := fd])
  {
  }

  class ReaderWriter {
    const lst: seq<int>
    var ready: array<int>
    var readyIndex: nat
    var readyCnt: nat

    ghost predicate Valid()
      reads this, ready
    {
      ready.Length == |lst| && readyIndex + readyCnt <= |lst|
    }

    constructor (fds: seq<int>)
      ensures Valid() && fresh(ready) && lst == fds && readyIndex == readyCnt == 0
    {
      lst := fds;
      ready := new int[|fds|](_ => -1);
      readyIndex, readyCnt := 0, 0;
    }

    /** `poll_for_data`: fills `ready` in place and returns how many descriptors have data. */
    method PollForData(kernel: Kernel) returns (rc: nat)
      requires ready.Length == |lst|
      modifies ready
      ensures rc <= |lst| && ready[..rc] == T.ReadyOf(lst, kernel.pipes)
    {
      rc := 0;
      var i := 0;
      while i < |lst|
        invariant 0 <= i <= |lst| && rc <= i
        invariant ready[..rc] + T.ReadyOf(lst[i..], kernel.pipes) == T.ReadyOf(lst, kernel.pipes)
      {
        T.ReadyStep(lst, i, kernel.pipes, ready[..rc]);
        ghost var before := ready[..rc];
        if lst[i] in kernel.pipes && kernel.pipes[lst[i]] != [] {
          ready[rc] := lst[i];
          rc := rc + 1;
          assert ready[..rc] == before + [lst[i]];
        }
        i := i + 1;
      }
      assert ready[..rc] + [] == ready[..rc];
    }

    /** `_reset`: two new vectors and no cached descriptor. */
    method Reset()
      modifies this
      ensures ready.Length == |lst| && fresh(ready) && readyIndex == readyCnt == 0
    {
      ready := new int[|lst|](_ => -1);
      readyIndex, readyCnt := 0, 0;
    }

    /** `_read`: one header and one body; rc is 0 for success. */
    method ReadOne(kernel: Kernel, fd: int) returns (rc: int, data: Message)
      requires fd in kernel.pipes && |kernel.pipes[fd]| >= HEADER
      modifies kernel`pipes
      ensures var r := ReadFrame(old(kernel.pipes[fd]));
              && kernel.pipes == old(kernel.pipes)[fd := r.rest]
              && (rc == 0 <==> r.message.Some?)
              && (rc == 0 ==> data == r.message.value)
    {
      var header := kernel.pipes[fd][..HEADER];
      var body := kernel.pipes[fd][HEADER..];
      var size := Size(header);
      if size < 0 || size > MAX_SIZE {
        kernel.pipes := kernel.pipes[fd := body];
        return -1, [];
      }
      var got := if size <= |body| then size else |body|;
      data := CString(body[..got]);
      kernel.pipes := kernel.pipes[fd := body[got..]];
      return 0, data;
    }

    /** `write_data`: the header, then the bytes. */
    method WriteData(kernel: Kernel, fd: int, data: Message)
      requires fd in kernel.pipes && |data| < INT_LIMIT
      modifies kernel`pipes
      ensures kernel.pipes == old(kernel.pipes)[fd := old(kernel.pipes[fd]) + Frame(data)]
    {
      kernel.pipes := kernel.pipes[fd := kernel.pipes[fd] + Header(|data|)];
      kernel.pipes := kernel.pipes[fd := kernel.pipes[fd] + data];
      assert old(kernel.pipes[fd]) + Header(|data|) + data == old(kernel.pipes[fd]) + Frame(data);
    }
  }

  /** The engine's transportImpl after a successful `set_server_mode`. */
  class ServerTransport {
    const kernel: Kernel
    const rfds: map<string, int>
    const rclients: map<int, string>
    const rw: ReaderWriter
    ghost var sent: map<string, seq<Message>>
    ghost var received: seq<T.Tagged>

    constructor (kernel: Kernel, rfds: map<string, int>, rclients: map<int, string>, rw: ReaderWriter,
                 ghost sent: map<string, seq<Message>>)
      ensures this.kernel == kernel && this.rfds == rfds && this.rclients == rclients && this.rw == rw
      ensures this.sent == sent && received == []
    {
      this.kernel, this.rfds, this.rclients, this.rw := kernel, rfds, rclients, rw;
      this.sent, received := sent, [];
    }

    ghost function View(): T.Server
      requires rw.readyIndex + rw.readyCnt <= rw.ready.Length
      reads this, kernel, rw, rw.ready
    {
      T.Server(rw.lst, rfds, rclients, kernel.pipes, rw.ready[..rw.readyIndex + rw.readyCnt],
               rw.readyIndex, rw.readyCnt, sent, received)
    }

    ghost predicate Valid()
      reads this, kernel, rw, rw.ready
    {
      rw.Valid() && T.Inv(View()) && Descriptors() && NodesMatch(kernel.nodes, rfds)
    }

    /** What `read_data` returns for each outcome of a read. */
    ghost predicate Shows(outcome: T.Outcome, rc: int, data: Message, fd: int) {
      match outcome
      case NothingRead => rc == 0 && fd == -1
      case Got(t) => rc == 0 && fd >= 0 && fd in rclients && rclients[fd] == t.client && data == t.message
      case ReadFailed => rc != 0
    }

    /** The branch of `read_data` that takes the next cached descriptor. */
    method TakeReady() returns (rc: int, data: Message, fd: int)
      requires rw.readyIndex + rw.readyCnt <= rw.ready.Length && rw.readyCnt > 0
      requires rw.ready[rw.readyIndex] >= 0 && T.CanRead(kernel.pipes, rclients, rw.ready[rw.readyIndex])
      modifies rw, kernel`pipes, this`received
      ensures rw.ready == old(rw.ready) && rw.readyIndex + rw.readyCnt <= rw.ready.Length
      ensures View() == T.TakeReady(old(View())).0
      ensures Shows(T.TakeReady(old(View())).1, rc, data, fd)
    {
      fd := rw.ready[rw.readyIndex];
      rw.readyIndex := rw.readyIndex + 1;
      rw.readyCnt := rw.readyCnt - 1;
      rc, data := rw.ReadOne(kernel, fd);
      received := received + [T.Tagged(rclients[fd], data)];
    }

    /** Open descriptors are not negative. */
    ghost predicate Descriptors()
      reads this, rw
    {
      forall fd :: fd in rw.lst ==> fd >= 0
    }

    method Poll() returns (rc: nat)
      requires Valid() && rw.readyCnt == 0
      modifies rw
      ensures fresh(rw.ready) && rw.Valid() && rw.readyIndex == 0 && rc == rw.readyCnt
      ensures View() == T.Polled(old(View()))
    {
      rw.Reset();
      rc := rw.PollForData(kernel);
      rw.readyCnt := rc;
    }

    method ReadPolled() returns (rc: int, data: Message, fd: int)
      requires Valid() && rw.readyCnt == 0
      modifies rw, kernel`pipes, this`received
      ensures fresh(rw.ready) && rw.ready.Length == |rw.lst| && rw.readyIndex + rw.readyCnt <= |rw.lst|
      ensures View() == T.Read(old(View())).0
      ensures Shows(T.Read(old(View())).1, rc, data, fd)
    {
      T.PollKeepsInv(View());
      ghost var polled := T.Polled(View());
      rc := Poll();
      if rc == 0 {
        assert polled.ready == [];
        return 0, [], -1;
      }
      T.ReadyHasData(rw.lst, kernel.pipes, polled.ready[0]);
      assert polled.ready[0] == rw.ready[0];
      T.PipeCanBeRead(polled, rw.ready[0]);
      rc, data, fd := TakeReady();
    }

    /** `read_data`: polls only when no descriptor is cached. */
    method ReadData() returns (rc: int, data: Message, fd: int)
      requires Valid()
      modifies rw, kernel`pipes, this`received
      ensures rw.ready == old(rw.ready) || fresh(rw.ready)
      ensures Valid() && View() == T.Read(old(View())).0
      ensures Shows(T.Read(old(View())).1, rc, data, fd)
    {
      if rw.readyCnt != 0 {
        return 0, [], -1;
      }
      T.ReadKeepsInv(View());
      rc, data, fd := ReadPolled();
    }

    /** `read`: the message with its client's name, or two empty strings when there is none. */
    method Read() returns (rc: int, client: string, msg: Message)
      requires Valid()
      modifies rw, kernel`pipes, this`received
      ensures rw.ready == old(rw.ready) || fresh(rw.ready)
      ensures Valid() && View() == T.Read(old(View())).0
      ensures match T.Read(old(View())).1
              case NothingRead => rc == 0 && client == "" && msg == []
              case Got(t) => rc == 0 && client == t.client && msg == t.message
              case ReadFailed => rc != 0
    {
      var fd;
      rc, msg, fd := ReadData();
      client := "";
      if rc == 0 {
        if fd >= 0 {
          client := rclients[fd];
        } else {
          msg := [];
        }
      }
    }

    method SendTo(fd: int, client: string, msg: Message)
      requires Valid() && |msg| < INT_LIMIT && client in rfds && rfds[client] == fd
      modifies kernel`pipes, this`sent
      ensures View() == T.Write(old(View()), client, msg)
      ensures Sendable(msg) ==> Valid()
    {
      if Sendable(msg) {
        T.WriteKeepsInv(View(), client, msg);
      }
      assert T.Channel(View(), fd);
      rw.WriteData(kernel, fd, msg);
      sent := sent[client := sent[client] + [msg]];
    }

    /**
      A client's `write`: its write end is opened through the path of its own name.  Any message is
      written; the pipe stays readable message by message if the transport can carry this one.
     */
    method ClientWrite(client: string, msg: Message) returns (rc: int)
      requires Valid() && |msg| < INT_LIMIT
      modifies kernel`pipes, this`sent
      ensures View() == T.Write(old(View()), client, msg)
      ensures Sendable(msg) ==> Valid()
      ensures rc == 0 <==> client in rfds
    {
      var path := GetPath(client);
      if path !in kernel.nodes {
        return -1;
      }
      SendTo(kernel.nodes[path], client, msg);
      return 0;
    }
  }

  // ---------- set_server_mode ----------

  /** Every name has a path, so every FIFO can be made. */
  predicate Openable(names: seq<string>) {
    forall i :: 0 <= i < |names| ==> GetPath(names[i]) != NoPath
  }

  /** What opening the read ends so far has produced. */
  ghost predicate Opened(kernel: Kernel, rfds: map<string, int>, rclients: map<int, string>, s: T.Server)
    reads kernel
  {
    s.rfds == rfds && s.rclients == rclients && s.pipes == kernel.pipes && NodesMatch(kernel.nodes, rfds)
  }

  /** The same after the first n names. */
  ghost predicate OpenedUpTo(kernel: Kernel, rfds: map<string, int>, rclients: map<int, string>,
                             names: seq<string>, n: nat, firstFd: nat)
    requires n <= |names|
    reads kernel
  {
    Opened(kernel, rfds, rclients, T.Open(names[..n], firstFd)) && kernel.nextFd == firstFd + n
  }

  /** `create_a_fd` for the read end of one name. */
  method OpenReadEnd(kernel: Kernel, names: seq<string>, i: nat, ghost firstFd: nat,
                     rfds: map<string, int>, rclients: map<int, string>)
    returns (rfds': map<string, int>, rclients': map<int, string>)
    requires i < |names| && OpenedUpTo(kernel, rfds, rclients, names, i, firstFd) && GetPath(names[i]) != NoPath
    modifies kernel
    ensures OpenedUpTo(kernel, rfds', rclients', names, i + 1, firstFd)
  {
    NodesGrow(kernel.nodes, rfds, names[i], kernel.nextFd);
    T.OpenOneMore(names, i, firstFd);
    var fd := kernel.MakeFifo(GetPath(names[i]));
    rfds' := rfds[names[i] := fd];
    rclients' := rclients[fd := names[i]];
  }

  /** The read ends, one per name in order; stops at the first name without a path. */
  method OpenReadEnds(kernel: Kernel, names: seq<string>)
    returns (rc: int, rfds: map<string, int>, rclients: map<int, string>)
    requires kernel.nodes == map[] && kernel.pipes == map[]
    modifies kernel
    ensures rc == 0 <==> Openable(names)
    ensures rc == 0 ==>
              && Opened(kernel, rfds, rclients, T.Open(names, old(kernel.nextFd)))
              && kernel.nextFd == old(kernel.nextFd) + |names|
  {
    rc, rfds, rclients := 0, map[], map[];
    var i := 0;
    while i < |names|
      invariant 0 <= i <= |names|
      invariant forall j :: 0 <= j < i ==> GetPath(names[j]) != NoPath
      invariant OpenedUpTo(kernel, rfds, rclients, names, i, old(kernel.nextFd))
    {
      if GetPath(names[i]) == NoPath {
        return -1, rfds, rclients;
      }
      rfds, rclients := OpenReadEnd(kernel, names, i, old(kernel.nextFd), rfds, rclients);
      i := i + 1;
    }
    assert names[..i] == names;
  }

  /** The keys of m_rclients in ascending order, as the map is iterated. */
  method AscendingKeys(rclients: map<int, string>, lo: nat, hi: nat) returns (lst: seq<int>)
    requires lo <= hi
    ensures lst == Keys(rclients, lo, hi)
  {
    lst := [];
    var fd := lo;
    while fd < hi
      invariant lo <= fd <= hi && lst == Keys(rclients, lo, fd)
    {
      if fd in rclients {
        lst := lst + [fd];
      }
      fd := fd + 1;
    }
  }

  function Keys(rclients: map<int, string>, lo: nat, hi: nat): seq<int>
    requires lo <= hi
  {
    if lo == hi then [] else Keys(rclients, lo, hi - 1) + (if hi - 1 in rclients then [hi - 1] else [])
  }

  lemma {:induction false} KeysOfOpen(names: seq<string>, firstFd: nat, more: map<int, string>)
    requires forall fd :: fd in T.Open(names, firstFd).rclients ==> fd in more
    ensures Keys(more, firstFd, firstFd + |names|) == T.Open(names, firstFd).lst
    ensures forall fd :: fd in T.Open(names, firstFd).lst ==> fd >= firstFd
    decreases |names|
  {
    if names != [] {
      KeysOfOpen(names[..|names| - 1], firstFd, more);
    }
  }

  method NewServerTransport(kernel: Kernel, rfds: map<string, int>, rclients: map<int, string>, lst: seq<int>, ghost s: T.Server)
    returns (server: ServerTransport)
    requires T.Inv(s) && T.Silent(s) && s.ready == [] && s.readyIndex == 0 && s.lst == lst
    requires forall fd :: fd in lst ==> fd >= 0
    requires Opened(kernel, rfds, rclients, s)
    ensures fresh(server) && server.kernel == kernel && fresh(server.rw) && fresh(server.rw.ready)
    ensures server.Valid() && server.View() == s
  {
    var rw := new ReaderWriter(lst);
    server := new ServerTransport(kernel, rfds, rclients, rw, s.sent);
    assert server.View() == s;
  }

  /** `init_server_transport`: null unless there are names and each has a path. */
  method InitServerTransport(names: seq<string>, firstFd: nat) returns (server: ServerTransport?)
    ensures server != null <==> names != [] && Openable(names)
    ensures server != null ==> fresh(server) && server.Valid() && server.View() == T.Open(names, firstFd)
  {
    if names == [] {
      return null;
    }
    var kernel := new Kernel(firstFd);
    var rc, rfds, rclients := OpenReadEnds(kernel, names);
    if rc != 0 {
      return null;
    }
    var lst := AscendingKeys(rclients, firstFd, kernel.nextFd);
    KeysOfOpen(names, firstFd, rclients);
    T.OpenInv(names, firstFd);
    T.OpenIsSilent(names, firstFd);
    server := NewServerTransport(kernel, rfds, rclients, lst, T.Open(names, firstFd));
  }
}
