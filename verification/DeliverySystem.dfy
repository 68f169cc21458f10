/**
  The engine's broadcasts and the clients that pick them up, as one system: a ring per client, the
  engine's thread writing into one ring after the other, and every client's thread reading its own,
  all one statement at a time and in any order.
 */
module DeliverySystem {
  import opened Wrappers
  import opened Messages
  import opened SignalRing
  import opened RingProperties
  import opened Delivery

  /** One client: its ring, its look-ahead slot, and what it has handed out. */
  datatype Peer = Peer(
    actions: seq<string>,
    ring: Ring<Message>,
    slot: Option<Message>,
    delivered: seq<Message>, // history
    room: seq<bool>)         // history: what `write` answered for each broadcast

  /** A broadcast under way: the client whose ring is next, and whether its `write` has begun. */
  datatype Cast = Cast(m: Message, next: nat, called: bool)

  datatype System = System(
    peers: seq<Peer>,
    log: seq<Message>,       // history: the broadcasts
    cast: Option<Cast>)

  /** A statement of the engine's thread or of a client's. */
  datatype Act =
    | Broadcast(m: Message)
    | EngineStep
    | ClientReads(client: nat, timeout: int)
    | ClientStep(client: nat)
    | WaitEnds(client: nat)
    | HandOut(client: nat)
    | Shutdown(client: nat)

  function Start(actions: seq<seq<string>>, limit: int): System {
    System(seq(|actions|, i requires 0 <= i < |actions| => Peer(actions[i], Init(limit), None, [], [])), [], None)
  }

  /** The next statement of `write` on this client's ring; its answer is noted when it returns. */
  function Written(p: Peer): Peer {
    var ring := WriterMove(p.ring);
    if ring.writer.WriterIdle? then p.(ring := ring, room := p.room + [p.ring.writer.RaiseSignal?])
    else p.(ring := ring)
  }

  /** The next statement of `read`; an item read is filtered into the slot. */
  function Stepped(p: Peer): Peer {
    var ring := ReaderMove(p.ring);
    if p.ring.reader.CountRead? then p.(ring := ring, slot := Taken(p.actions, p.ring.reader.item))
    else p.(ring := ring)
  }

  /** `_read_req` reads only while the slot is empty. */
  function Reads(p: Peer, timeout: int): Peer {
    if p.slot.Some? then p else p.(ring := Step(p.ring, CallRead(timeout)))
  }

  function HandedOut(p: Peer): Peer {
    if p.slot.Some? then p.(slot := None, delivered := p.delivered + [p.slot.value]) else p
  }

  function ClientMove(p: Peer, a: Act): Peer {
    match a
    case ClientReads(_, timeout) => Reads(p, timeout)
    case ClientStep(_) => Stepped(p)
    case WaitEnds(_) => p.(ring := Step(p.ring, WaitExpires))
    case HandOut(_) => HandedOut(p)
    case Shutdown(_) => p.(ring := Step(p.ring, RaiseShutdown))
    case _ => p
  }

  function EngineMove(s: System, c: Cast): System {
    if c.next >= |s.peers| then s.(cast := None)
    else
      var p := s.peers[c.next];
      if !c.called then
        s.(peers := s.peers[c.next := p.(ring := Step(p.ring, CallWrite(c.m)))], cast := Some(c.(called := true)))
      else
        var p' := Written(p);
        s.(peers := s.peers[c.next := p'],
           cast := Some(if p'.ring.writer.WriterIdle? then Cast(c.m, c.next + 1, false) else c))
  }

  function Next(s: System, a: Act): System {
    match a
    case Broadcast(m) => if s.cast.None? && IsRequest(m) then s.(log := s.log + [m], cast := Some(Cast(m, 0, false))) else s
    case EngineStep => if s.cast.Some? then EngineMove(s, s.cast.value) else s
    case _ => if a.client < |s.peers| then s.(peers := s.peers[a.client := ClientMove(s.peers[a.client], a)]) else s
  }

  function After(actions: seq<seq<string>>, limit: int, acts: seq<Act>): System {
    if acts == [] then Start(actions, limit)
    else Next(After(actions, limit, acts[..|acts| - 1]), acts[|acts| - 1])
  }

  // ---------- the invariant of one client ----------

  function Held(p: Peer): seq<Message> {
    if p.slot.Some? then [p.slot.value] else []
  }

  /** Handed out and held is the filter of what was read; nothing is read while the slot is full. */
  ghost predicate Filtered(p: Peer) {
    && p.delivered + Held(p) == Mine(p.actions, p.ring.returned)
    && (p.slot.Some? ==> p.ring.reader.ReaderIdle?)
  }

  /** The item that a `write` under way is about. */
  predicate Carries(w: Writer<Message>, m: Message) {
    match w
    case WriterIdle => true
    case RaiseSignal => true
    case _ => w.item == m
  }

  /** The ring took exactly the broadcasts that it had room for. */
  ghost predicate Noted(p: Peer, log: seq<Message>) {
    && |p.room| <= |log|
    && (!p.ring.writer.WriterIdle? ==> |p.room| < |log| && Carries(p.ring.writer, log[|p.room|]))
    && p.ring.accepted == Accepted(log[..|p.room|], p.room)
                          + (if p.ring.writer.RaiseSignal? then [log[|p.room|]] else [])
  }

  ghost predicate PeerInv(p: Peer, log: seq<Message>) {
    Inv(p.ring) && Filtered(p) && Noted(p, log)
  }

  lemma AcceptedSnoc(log: seq<Message>, room: seq<bool>, ok: bool)
    requires |room| < |log|
    ensures Accepted(log[..|room| + 1], room + [ok]) ==
            Accepted(log[..|room|], room) + (if ok then [log[|room|]] else [])
  {
    assert log[..|room| + 1][..|room|] == log[..|room|];
    assert (room + [ok])[..|room|] == room;
  }

  /** `write` returns: its answer is noted. */
  lemma AnswerIsNoted(p: Peer, log: seq<Message>)
    requires Noted(p, log) && !p.ring.writer.WriterIdle? && WriterMove(p.ring).writer.WriterIdle?
    ensures Noted(Written(p), log)
  {
    AcceptedSnoc(log, p.room, p.ring.writer.RaiseSignal?);
  }

  lemma WrittenKeepsNoted(p: Peer, log: seq<Message>)
    requires Noted(p, log) && !p.ring.writer.WriterIdle?
    ensures Noted(Written(p), log)
  {
    if WriterMove(p.ring).writer.WriterIdle? {
      AnswerIsNoted(p, log);
    }
  }

  lemma WrittenKeepsFiltered(p: Peer)
    requires Filtered(p)
    ensures Filtered(Written(p))
  {
  }

  lemma WrittenKeepsRing(p: Peer)
    requires Inv(p.ring)
    ensures Inv(Written(p).ring)
  {
    WriterKeepsInv(p.ring);
  }

  lemma SteppedKeepsRing(p: Peer)
    requires Inv(p.ring)
    ensures Inv(Stepped(p).ring)
  {
    ReaderKeepsInv(p.ring);
  }

  lemma WrittenKeepsInv(p: Peer, log: seq<Message>)
    requires PeerInv(p, log) && !p.ring.writer.WriterIdle?
    ensures PeerInv(Written(p), log)
  {
    WrittenKeepsRing(p);
    WrittenKeepsFiltered(p);
    WrittenKeepsNoted(p, log);
  }

  lemma ItemIsFiltered(p: Peer)
    requires Filtered(p) && p.ring.reader.CountRead?
    ensures Filtered(Stepped(p))
  {
    var item := p.ring.reader.item;
    MineOne(p.actions, p.ring.returned, item);
    assert Stepped(p).delivered + Held(Stepped(p)) == p.delivered + (if ForMe(p.actions, item) then [item] else []);
  }

  lemma SteppedKeepsFiltered(p: Peer)
    requires Filtered(p)
    ensures Filtered(Stepped(p))
  {
    if p.ring.reader.CountRead? {
      ItemIsFiltered(p);
    }
  }

  lemma SteppedKeepsNoted(p: Peer, log: seq<Message>)
    requires Noted(p, log)
    ensures Noted(Stepped(p), log)
  {
  }

  lemma RingMoveKeepsInv(p: Peer, log: seq<Message>, m: Move<Message>)
    requires PeerInv(p, log) && (m.CallRead? || m.WaitExpires? || m.RaiseShutdown?)
    requires m.CallRead? ==> p.slot.None?
    ensures PeerInv(p.(ring := Step(p.ring, m)), log)
  {
    StepKeepsInv(p.ring, m);
  }

  lemma SteppedKeepsInv(p: Peer, log: seq<Message>)
    requires PeerInv(p, log)
    ensures PeerInv(Stepped(p), log)
  {
    SteppedKeepsRing(p);
    SteppedKeepsFiltered(p);
    SteppedKeepsNoted(p, log);
  }

  lemma HandedOutKeepsInv(p: Peer, log: seq<Message>)
    requires PeerInv(p, log)
    ensures PeerInv(HandedOut(p), log)
  {
    assert Noted(HandedOut(p), log);
  }

  lemma ClientKeepsInv(p: Peer, log: seq<Message>, a: Act)
    requires PeerInv(p, log)
    ensures PeerInv(ClientMove(p, a), log)
  {
    match a
    case ClientReads(_, timeout) => if p.slot.None? { RingMoveKeepsInv(p, log, CallRead(timeout)); }
    case ClientStep(_) => SteppedKeepsInv(p, log);
    case WaitEnds(_) => RingMoveKeepsInv(p, log, WaitExpires);
    case HandOut(_) => HandedOutKeepsInv(p, log);
    case Shutdown(_) => RingMoveKeepsInv(p, log, RaiseShutdown);
    case _ =>
  }

  /** A client's own statements leave alone what the engine's thread is doing to its ring. */
  lemma ClientKeepsPlace(p: Peer, a: Act)
    ensures var t := ClientMove(p, a);
            t.room == p.room && t.actions == p.actions && t.ring.writer == p.ring.writer && t.ring.limit == p.ring.limit
  {
  }

  // ---------- the invariant of the system ----------

  /** Client i is written before the ones after it; only the one whose turn it is sees a `write` under way. */
  ghost predicate Placed(p: Peer, i: nat, n: nat, cast: Option<Cast>) {
    && |p.room| == n - (if cast.Some? && i >= cast.value.next then 1 else 0)
    && (p.ring.writer.WriterIdle? <==> !(cast.Some? && i == cast.value.next && cast.value.called))
  }

  ghost predicate PlacedPeers(s: System) {
    forall i :: 0 <= i < |s.peers| ==> Placed(s.peers[i], i, |s.log|, s.cast)
  }

  ghost predicate SoundPeers(s: System) {
    forall i :: 0 <= i < |s.peers| ==> PeerInv(s.peers[i], s.log)
  }

  ghost predicate CastIsLast(s: System) {
    s.cast.Some? ==> s.log != [] && s.log[|s.log| - 1] == s.cast.value.m
  }

  ghost predicate Requests(log: seq<Message>) {
    forall i :: 0 <= i < |log| ==> IsRequest(log[i])
  }

  ghost predicate SystemInv(s: System) {
    PlacedPeers(s) && SoundPeers(s) && CastIsLast(s) && Requests(s.log)
  }

  lemma StartInv(actions: seq<seq<string>>, limit: int)
    ensures SystemInv(Start(actions, limit))
  {
    var s := Start(actions, limit);
    forall i | 0 <= i < |s.peers| ensures PeerInv(s.peers[i], s.log)
    {
      assert s.peers[i] == Peer(actions[i], Init(limit), None, [], []);
      RunKeepsInv<Message>(limit, []);
    }
  }

  lemma LongerLog(p: Peer, log: seq<Message>, m: Message)
    requires PeerInv(p, log)
    ensures PeerInv(p, log + [m])
  {
    assert (log + [m])[..|p.room|] == log[..|p.room|];
  }

  lemma BroadcastKeepsInv(s: System, m: Message)
    requires SystemInv(s) && s.cast.None? && IsRequest(m)
    ensures SystemInv(Next(s, Broadcast(m)))
  {
    forall i | 0 <= i < |s.peers| ensures PeerInv(s.peers[i], s.log + [m]) && Placed(s.peers[i], i, |s.log| + 1, Some(Cast(m, 0, false)))
    {
      LongerLog(s.peers[i], s.log, m);
    }
  }

  lemma CallKeepsPeer(p: Peer, log: seq<Message>, m: Message)
    requires PeerInv(p, log) && p.ring.writer.WriterIdle? && |p.room| < |log| && log[|p.room|] == m
    ensures PeerInv(p.(ring := Step(p.ring, CallWrite(m))), log)
    ensures !Step(p.ring, CallWrite(m)).writer.WriterIdle?
  {
    StepKeepsInv(p.ring, CallWrite(m));
  }

  /** Only client k has changed, and where the broadcast stands. */
  lemma OnePeerMoved(s: System, k: nat, p: Peer, cast: Option<Cast>)
    requires SystemInv(s) && k < |s.peers| && s.cast.Some? && cast.Some? && s.cast.value.next == k
    requires cast.value.m == s.cast.value.m && k <= cast.value.next <= k + 1 && (cast.value.next == k + 1 ==> !cast.value.called)
    requires PeerInv(p, s.log) && Placed(p, k, |s.log|, cast)
    ensures SystemInv(s.(peers := s.peers[k := p], cast := cast))
  {
    var t := s.(peers := s.peers[k := p], cast := cast);
    forall i | 0 <= i < |t.peers| ensures PeerInv(t.peers[i], t.log) && Placed(t.peers[i], i, |t.log|, cast)
    {
      if i != k {
        assert t.peers[i] == s.peers[i];
        assert Placed(s.peers[i], i, |s.log|, s.cast);
      }
    }
  }

  lemma EngineKeepsInv(s: System, c: Cast)
    requires SystemInv(s) && s.cast == Some(c)
    ensures SystemInv(EngineMove(s, c))
  {
    if c.next < |s.peers| {
      var p := s.peers[c.next];
      assert Placed(p, c.next, |s.log|, s.cast) && PeerInv(p, s.log);
      if !c.called {
        CallKeepsPeer(p, s.log, c.m);
        OnePeerMoved(s, c.next, p.(ring := Step(p.ring, CallWrite(c.m))), Some(c.(called := true)));
      } else {
        WrittenKeepsInv(p, s.log);
        var p' := Written(p);
        OnePeerMoved(s, c.next, p', Some(if p'.ring.writer.WriterIdle? then Cast(c.m, c.next + 1, false) else c));
      }
    } else {
      CastIsOver(s, c);
    }
  }

  lemma CastIsOver(s: System, c: Cast)
    requires SystemInv(s) && s.cast == Some(c) && c.next >= |s.peers|
    ensures SystemInv(s.(cast := None))
  {
    forall i | 0 <= i < |s.peers| ensures Placed(s.peers[i], i, |s.log|, None)
    {
      assert Placed(s.peers[i], i, |s.log|, s.cast);
    }
  }

  lemma ClientActKeepsInv(s: System, k: nat, a: Act)
    requires SystemInv(s) && k < |s.peers|
    ensures SystemInv(s.(peers := s.peers[k := ClientMove(s.peers[k], a)]))
  {
    ClientKeepsInv(s.peers[k], s.log, a);
    ClientKeepsPlace(s.peers[k], a);
    var t := s.(peers := s.peers[k := ClientMove(s.peers[k], a)]);
    forall i | 0 <= i < |t.peers| ensures PeerInv(t.peers[i], t.log) && Placed(t.peers[i], i, |t.log|, t.cast)
    {
      assert Placed(s.peers[i], i, |s.log|, s.cast);
    }
  }

  lemma NextKeepsInv(s: System, a: Act)
    requires SystemInv(s)
    ensures SystemInv(Next(s, a))
  {
    match a
    case Broadcast(m) => if s.cast.None? && IsRequest(m) { BroadcastKeepsInv(s, m); }
    case EngineStep => if s.cast.Some? { EngineKeepsInv(s, s.cast.value); }
    case _ => if a.client < |s.peers| { ClientActKeepsInv(s, a.client, a); }
  }

  lemma {:induction false} AfterInv(actions: seq<seq<string>>, limit: int, acts: seq<Act>)
    ensures SystemInv(After(actions, limit, acts))
    decreases |acts|
  {
    if acts == [] {
      StartInv(actions, limit);
    } else {
      AfterInv(actions, limit, acts[..|acts| - 1]);
      NextKeepsInv(After(actions, limit, acts[..|acts| - 1]), acts[|acts| - 1]);
    }
  }

  ghost predicate SameClients(actions: seq<seq<string>>, limit: int, s: System) {
    |s.peers| == |actions| &&
    forall i :: 0 <= i < |actions| ==> s.peers[i].actions == actions[i] && s.peers[i].ring.limit == limit
  }

  lemma StartClients(actions: seq<seq<string>>, limit: int)
    ensures SameClients(actions, limit, Start(actions, limit))
  {
    forall i | 0 <= i < |actions| ensures Start(actions, limit).peers[i] == Peer(actions[i], Init(limit), None, [], [])
    {
    }
  }

  lemma NextKeepsClients(actions: seq<seq<string>>, limit: int, s: System, a: Act)
    requires SameClients(actions, limit, s)
    ensures SameClients(actions, limit, Next(s, a))
  {
    if !a.Broadcast? && !a.EngineStep? && a.client < |s.peers| {
      ClientKeepsPlace(s.peers[a.client], a);
    }
  }

  lemma {:induction false} AfterClients(actions: seq<seq<string>>, limit: int, acts: seq<Act>)
    ensures SameClients(actions, limit, After(actions, limit, acts))
    decreases |acts|
  {
    if acts == [] {
      StartClients(actions, limit);
    } else {
      AfterClients(actions, limit, acts[..|acts| - 1]);
      NextKeepsClients(actions, limit, After(actions, limit, acts[..|acts| - 1]), acts[|acts| - 1]);
    }
  }

  // ---------- what every run delivers ----------

  /** The answers of `write` on this ring, counting the item that is in and only its signal is missing. */
  function RoomSoFar(p: Peer): seq<bool> {
    if p.ring.writer.RaiseSignal? then p.room + [true] else p.room
  }

  lemma Reached(actions: seq<seq<string>>, limit: int, acts: seq<Act>, c: nat)
    requires c < |actions|
    ensures var s := After(actions, limit, acts);
            && c < |s.peers| == |actions|
            && s.peers[c].actions == actions[c]
            && s.peers[c].ring.limit == limit
            && PeerInv(s.peers[c], s.log)
            && Placed(s.peers[c], c, |s.log|, s.cast)
  {
    AfterInv(actions, limit, acts);
    AfterClients(actions, limit, acts);
  }

  lemma AcceptedSoFar(p: Peer, log: seq<Message>)
    requires Noted(p, log)
    ensures |RoomSoFar(p)| <= |log| && p.ring.accepted == Accepted(log[..|RoomSoFar(p)|], RoomSoFar(p))
  {
    if p.ring.writer.RaiseSignal? {
      AcceptedSnoc(log, p.room, true);
    }
  }

  /**
    At every moment each ring has accepted exactly the broadcasts for which its `write` found room;
    between broadcasts every ring has answered to every one of them.
   */
  lemma RingsHoldWhatTheyHadRoomFor(actions: seq<seq<string>>, limit: int, acts: seq<Act>, c: nat)
    requires c < |actions|
    ensures var s := After(actions, limit, acts);
            && c < |s.peers|
            && |RoomSoFar(s.peers[c])| <= |s.log|
            && s.peers[c].ring.accepted == Accepted(s.log[..|RoomSoFar(s.peers[c])|], RoomSoFar(s.peers[c]))
            && (s.cast.None? ==> RoomSoFar(s.peers[c]) == s.peers[c].room && |s.peers[c].room| == |s.log|)
  {
    Reached(actions, limit, acts, c);
    var s := After(actions, limit, acts);
    AcceptedSoFar(s.peers[c], s.log);
  }

  lemma RefusedWhenFull(p: Peer)
    requires Inv(p.ring) && !p.ring.writer.WriterIdle?
    ensures |Written(p).room| > |p.room| && !p.ring.writer.RaiseSignal? ==> |Queue(p.ring)| == Capacity(p.ring.limit)
  {
  }

  /** An answer is given once per broadcast, by the engine's thread, and is no only if the ring is full then. */
  lemma RefusedOnlyWhenFull(actions: seq<seq<string>>, limit: int, acts: seq<Act>, a: Act, c: nat)
    requires c < |actions|
    ensures var s, t := After(actions, limit, acts), Next(After(actions, limit, acts), a);
            && c < |s.peers| && c < |t.peers|
            && s.peers[c].room <= t.peers[c].room
            && |t.peers[c].room| <= |s.peers[c].room| + 1
            && (|t.peers[c].room| > |s.peers[c].room| && !t.peers[c].room[|s.peers[c].room|] ==>
                  |Queue(s.peers[c].ring)| == Capacity(limit))
  {
    Reached(actions, limit, acts, c);
    var s := After(actions, limit, acts);
    if a.EngineStep? && s.cast.Some? && s.cast.value.next == c && s.cast.value.called {
      RefusedWhenFull(s.peers[c]);
    } else if !a.EngineStep? && !a.Broadcast? && a.client == c {
      ClientKeepsPlace(s.peers[c], a);
    }
  }

  lemma ShareAddsUp(p: Peer)
    requires Counts(p.ring) && Filtered(p)
    ensures p.delivered + Held(p) + Mine(p.actions, Queue(p.ring)) == Mine(p.actions, p.ring.accepted)
  {
    MineConcat(p.actions, p.ring.returned, Queue(p.ring));
    assert p.ring.accepted == p.ring.returned + Queue(p.ring);
  }

  /**
    Nothing on its way is lost, repeated or reordered: what a client has handed out, then its slot,
    then its share of what is left in its ring, is its share of all that its ring accepted.
   */
  lemma NothingIsLostOnTheWay(actions: seq<seq<string>>, limit: int, acts: seq<Act>, c: nat)
    requires c < |actions|
    ensures var s := After(actions, limit, acts);
            && c < |s.peers|
            && s.peers[c].delivered + Held(s.peers[c]) + Mine(actions[c], Queue(s.peers[c].ring))
               == Mine(actions[c], s.peers[c].ring.accepted)
  {
    Reached(actions, limit, acts, c);
    ShareAddsUp(After(actions, limit, acts).peers[c]);
  }

  predicate IsActionRequest(m: Message) {
    IsRequest(m) && m.body.requestType != REQ_ACTION_TYPE_SHUTDOWN
  }

  lemma ShareIsDelivered(p: Peer, log: seq<Message>)
    requires PeerInv(p, log)
    ensures p.delivered <= Mine(p.actions, p.ring.accepted)
    ensures Subsequence(p.delivered, log)
    ensures forall m :: m in p.delivered && IsActionRequest(m) ==> m.body.actionName in p.actions
  {
    var room := RoomSoFar(p);
    AcceptedSoFar(p, log);
    ShareAddsUp(p);
    FilteredBroadcasts(log[..|room|], room, p.actions, p.delivered);
    PrefixIsSubsequence(log[..|room|], log);
    SubsequenceTransitive(p.delivered, log[..|room|], log);
  }

  /**
    In every run, what a client hands out is a subsequence of the broadcasts, and an action request is
    handed out only where its action is registered: with disjoint action sets, by one client alone.
   */
  lemma DeliveredToOwnerOnly(actions: seq<seq<string>>, limit: int, acts: seq<Act>, c: nat, d: nat, m: Message)
    requires c < |actions| && d < |actions|
    ensures var s := After(actions, limit, acts);
            && |s.peers| == |actions|
            && Subsequence(s.peers[c].delivered, s.log)
            && (m in s.peers[c].delivered && IsActionRequest(m) ==> m.body.actionName in actions[c])
            && (m in s.peers[c].delivered && IsActionRequest(m) && (forall a :: a in actions[c] ==> a !in actions[d]) ==>
                  m !in s.peers[d].delivered)
  {
    Reached(actions, limit, acts, c);
    Reached(actions, limit, acts, d);
    var s := After(actions, limit, acts);
    ShareIsDelivered(s.peers[c], s.log);
    ShareIsDelivered(s.peers[d], s.log);
  }

  lemma {:induction false} AllAccepted(log: seq<Message>, room: seq<bool>)
    requires |room| == |log| && (forall i :: 0 <= i < |room| ==> room[i])
    ensures Accepted(log, room) == log
  {
    if log != [] {
      var n := |log| - 1;
      AllAccepted(log[..n], room[..n]);
      assert log == log[..n] + [log[n]];
    }
  }

  /**
    Once the broadcasts are over, a client with an empty slot and an empty ring has handed out its
    share of the broadcasts that its ring had room for; if there was room for all, its share of all.
   */
  lemma EverythingIsDelivered(actions: seq<seq<string>>, limit: int, acts: seq<Act>, c: nat)
    requires c < |actions| && c < |After(actions, limit, acts).peers|
    requires var s := After(actions, limit, acts);
             s.cast.None? && s.peers[c].slot.None? && Queue(s.peers[c].ring) == []
    ensures var s := After(actions, limit, acts);
            var p := s.peers[c];
            && |p.room| == |s.log|
            && p.delivered == Mine(actions[c], Accepted(s.log, p.room))
            && ((forall i :: 0 <= i < |p.room| ==> p.room[i]) ==> p.delivered == Mine(actions[c], s.log))
  {
    var s := After(actions, limit, acts);
    var p := s.peers[c];
    NothingIsLostOnTheWay(actions, limit, acts, c);
    RingsHoldWhatTheyHadRoomFor(actions, limit, acts, c);
    assert s.log[..|p.room|] == s.log;
    if forall i :: 0 <= i < |p.room| ==> p.room[i] {
      AllAccepted(s.log, p.room);
    }
  }

  // ---------- every request arrives ----------

  /** How often m occurs. */
  function Occurrences(ms: seq<Message>, m: Message): nat {
    if ms == [] then 0 else Occurrences(ms[..|ms| - 1], m) + (if ms[|ms| - 1] == m then 1 else 0)
  }

  /** A shutdown is for everyone, an action request for whoever registered the action; nothing else is a request. */
  predicate Concerns(actions: seq<string>, m: Message) {
    match m
    case Single(key, body) =>
      key == "action_request" && (body.requestType == "shutdown" || exists i :: 0 <= i < |actions| && actions[i] == body.actionName)
    case Other => false
  }

  lemma OccurrencesSnoc(ms: seq<Message>, x: Message, m: Message)
    ensures Occurrences(ms + [x], m) == Occurrences(ms, m) + (if x == m then 1 else 0)
  {
    assert (ms + [x])[..|ms|] == ms;
  }

  lemma ConcernsIsForMe(actions: seq<string>, m: Message)
    ensures Concerns(actions, m) <==> ForMe(actions, m)
  {
  }

  lemma {:induction false} ShareOccurs(actions: seq<string>, ms: seq<Message>, m: Message)
    ensures Occurrences(Mine(actions, ms), m) == if Concerns(actions, m) then Occurrences(ms, m) else 0
    decreases |ms|
  {
    if ms != [] {
      var x := ms[|ms| - 1];
      ShareOccurs(actions, ms[..|ms| - 1], m);
      ConcernsIsForMe(actions, x);
      if ForMe(actions, x) {
        OccurrencesSnoc(Mine(actions, ms[..|ms| - 1]), x, m);
      } else {
        assert Mine(actions, ms) == Mine(actions, ms[..|ms| - 1]);
      }
    }
  }

  /**
    Every request arrives where it belongs: with the broadcasts over and the slot and the ring empty, a
    client whose ring had room for all has handed out every shutdown, and every action request for an
    action it registered, as often as it was broadcast, and nothing else.
   */
  lemma EveryRequestArrives(actions: seq<seq<string>>, limit: int, acts: seq<Act>, c: nat, m: Message)
    requires c < |actions| && c < |After(actions, limit, acts).peers|
    requires var s := After(actions, limit, acts);
             && s.cast.None? && s.peers[c].slot.None? && Queue(s.peers[c].ring) == []
             && (forall i :: 0 <= i < |s.peers[c].room| ==> s.peers[c].room[i])
    ensures var s := After(actions, limit, acts);
            Occurrences(s.peers[c].delivered, m) == if Concerns(actions[c], m) then Occurrences(s.log, m) else 0
  {
    EverythingIsDelivered(actions, limit, acts, c);
    ShareOccurs(actions[c], After(actions, limit, acts).log, m);
  }

  /** Between broadcasts, the engine takes on every single-key action request, and nothing else. */
  lemma RequestsAreBroadcast(s: System, m: Message)
    requires s.cast.None?
    ensures Next(s, Broadcast(m)).log ==
              if m.Single? && m.key == "action_request" then s.log + [m] else s.log
  {
  }

  // ---------- a client alone empties its ring ----------

  /** n statements of the client's `read`, undisturbed. */
  function Steps(p: Peer, n: nat): Peer
    decreases n
  {
    if n == 0 then p else Steps(Stepped(p), n - 1)
  }

  lemma StepsAdd(p: Peer, m: nat, n: nat)
    ensures Steps(p, m + n) == Steps(Steps(p, m), n)
    decreases m
  {
    if m > 0 {
      StepsAdd(Stepped(p), m - 1, n);
    }
  }

  lemma TwoSteps(p: Peer)
    ensures Steps(p, 2) == Stepped(Stepped(p))
  {
    assert Steps(p, 2) == Steps(Stepped(p), 1) == Steps(Stepped(Stepped(p)), 0);
  }

  /** From the call to the test for an item: a token is taken if there is one. */
  lemma ReadReachesTest(p: Peer)
    requires p.ring.reader.TestWait? && p.ring.rdCnt < p.ring.wrCnt
    ensures var n := if p.ring.tokens > 0 then 3 else 2;
            var t := Steps(p, n);
            && t == p.(ring := t.ring)
            && t.ring == p.ring.(reader := TestEmpty, tokens := t.ring.tokens, drained := t.ring.drained)
  {
    var p1 := Stepped(p);
    TwoSteps(p);
    if p.ring.tokens > 0 {
      StepsAdd(p, 2, 1);
      assert Steps(Stepped(p1), 1) == Stepped(Stepped(p1));
    }
  }

  lemma SlotIsCopied(p: Peer)
    requires Inv(p.ring) && p.ring.reader.TestEmpty? && p.ring.rdCnt < p.ring.wrCnt
    ensures Queue(p.ring) != []
    ensures Steps(p, 2) == p.(ring := p.ring.(reader := AdvanceRead(Queue(p.ring)[0])))
  {
    TwoSteps(p);
    ReaderKeepsInv(p.ring);
    ReaderKeepsInv(ReaderMove(p.ring));
  }

  lemma ItemGoesToTheSlot(p: Peer)
    requires p.ring.reader.AdvanceRead?
    ensures var t := Steps(p, 3);
            && t == p.(ring := t.ring, slot := Taken(p.actions, p.ring.reader.item))
            && t.ring.reader.ReaderIdle?
            && t.ring.returned == p.ring.returned + [p.ring.reader.item]
  {
    StepsAdd(p, 2, 1);
    TwoSteps(p);
    assert Steps(Stepped(Stepped(p)), 1) == Stepped(Stepped(Stepped(p)));
  }

  lemma FetchGoesToTheSlot(p: Peer)
    requires Inv(p.ring) && p.ring.reader.TestEmpty? && p.ring.rdCnt < p.ring.wrCnt
    ensures Queue(p.ring) != []
    ensures var t := Steps(p, 5);
            && t == p.(ring := t.ring, slot := Taken(p.actions, Queue(p.ring)[0]))
            && t.ring.reader.ReaderIdle?
            && t.ring.returned == p.ring.returned + [Queue(p.ring)[0]]
  {
    SlotIsCopied(p);
    ItemGoesToTheSlot(Steps(p, 2));
    StepsAdd(p, 2, 3);
  }

  lemma CallIsMade(p: Peer, timeout: int)
    requires Inv(p.ring) && p.slot.None? && p.ring.reader.ReaderIdle?
    ensures var t := Reads(p, timeout);
            t == p.(ring := p.ring.(reader := TestWait(timeout))) && Inv(t.ring) && Queue(t.ring) == Queue(p.ring)
  {
    StepKeepsInv(p.ring, CallRead(timeout));
  }

  /** Up to the test for an item: the queue is as it was. */
  lemma TestIsReached(p: Peer) returns (n: nat)
    requires Inv(p.ring) && p.ring.reader.TestWait? && Queue(p.ring) != []
    ensures var t := Steps(p, n);
            && t == p.(ring := t.ring) && Inv(t.ring) && t.ring.reader.TestEmpty? && t.ring.rdCnt < t.ring.wrCnt
            && Queue(t.ring) == Queue(p.ring) && t.ring.returned == p.ring.returned
  {
    ReadReachesTest(p);
    n := if p.ring.tokens > 0 then 3 else 2;
    StepsKeepInv(p, n);
  }

  lemma ReadTakes(p: Peer, timeout: int) returns (n: nat)
    requires Inv(p.ring) && p.slot.None? && p.ring.reader.ReaderIdle? && Queue(p.ring) != []
    ensures var t := Steps(Reads(p, timeout), n);
            && t == p.(ring := t.ring, slot := Taken(p.actions, Queue(p.ring)[0]))
            && t.ring.reader.ReaderIdle?
            && t.ring.returned == p.ring.returned + [Queue(p.ring)[0]]
  {
    CallIsMade(p, timeout);
    var p0 := Reads(p, timeout);
    var k := TestIsReached(p0);
    FetchGoesToTheSlot(Steps(p0, k));
    StepsAdd(p0, k, 5);
    n := k + 5;
  }

  /**
    A call to read with an empty slot and items in the ring, undisturbed, takes the oldest one: it is
    in the slot if it concerns the client and dropped otherwise, and from the slot it is handed out.
   */
  lemma ReadTakesTheOldest(actions: seq<seq<string>>, limit: int, acts: seq<Act>, c: nat, timeout: int) returns (n: nat)
    requires c < |actions| && c < |After(actions, limit, acts).peers|
    requires var p := After(actions, limit, acts).peers[c];
             p.slot.None? && p.ring.reader.ReaderIdle? && Queue(p.ring) != []
    ensures var p := After(actions, limit, acts).peers[c];
            var t, oldest := Steps(Reads(p, timeout), n), Queue(p.ring)[0];
            && t.ring.reader.ReaderIdle?
            && t.ring.returned == p.ring.returned + [oldest]
            && t.slot == (if Concerns(actions[c], oldest) then Some(oldest) else None)
            && t.delivered == p.delivered
            && ClientMove(t, HandOut(c)).slot.None?
            && ClientMove(t, HandOut(c)).delivered == p.delivered + (if Concerns(actions[c], oldest) then [oldest] else [])
  {
    Reached(actions, limit, acts, c);
    var p := After(actions, limit, acts).peers[c];
    ConcernsIsForMe(actions[c], Queue(p.ring)[0]);
    n := ReadTakes(p, timeout);
  }

  lemma {:induction false} StepsKeepInv(p: Peer, n: nat)
    requires Inv(p.ring)
    ensures Inv(Steps(p, n).ring)
    decreases n
  {
    if n > 0 {
      SteppedKeepsRing(p);
      StepsKeepInv(Stepped(p), n - 1);
    }
  }
}
