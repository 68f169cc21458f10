/** The client library's calls on values, and what its messages to the engine add up to. */
module ClientSession {
  import opened Wrappers
  import C = Codec

  /** What happens on the wire: a message goes out, or a deregistration's own write fails. */
  datatype Event = Sent(m: C.Msg) | LostClose

  /** The library's static state; `tx` says whether there is a transport. */
  datatype Lib = Lib(name: string, actions: set<string>, tx: bool, log: seq<Event>)

  /** The calls, with the answers of the transport as parameters. */
  datatype Call =
    | RegisterClient(id: string, initOk: bool, writeOk: bool)
    | DeregisterClient(writeOk: bool)
    | RegisterAction(action: string, writeOk: bool)
    | TouchHeartbeat(action: string, instance: string, writeOk: bool)
    | WriteActionResponse(res: C.Msg, writeOk: bool)

  datatype Outcome = Outcome(lib: Lib, ok: bool)

  const START := Lib("", {}, false, [])

  function Opening(name: string): C.Msg {
    C.Msg(C.RegisterClient, map[C.REQ_CLIENT_NAME := name])
  }

  function Closing(name: string): C.Msg {
    C.Msg(C.DeregisterClient, map[C.REQ_CLIENT_NAME := name])
  }

  function Registration(name: string, action: string): C.Msg {
    C.Msg(C.RegisterAction, map[C.REQ_CLIENT_NAME := name, C.REQ_ACTION_NAME := action])
  }

  function Heartbeat(name: string, action: string, instance: string): C.Msg {
    C.Msg(C.HeartbeatClient,
          map[C.REQ_CLIENT_NAME := name, C.REQ_ACTION_NAME := action, C.REQ_INSTANCE_ID := instance])
  }

  function Response(name: string, res: C.Msg): C.Msg {
    res.(data := res.data[C.REQ_CLIENT_NAME := name])
  }

  /** A write that leaves everything but the wire as it was. */
  function Write(s: Lib, m: C.Msg, writeOk: bool): Outcome {
    if writeOk then Outcome(s.(log := s.log + [Sent(m)]), true) else Outcome(s, false)
  }

  function Step(s: Lib, c: Call): Outcome {
    match c
    case RegisterClient(id, initOk, writeOk) =>
      if id == "" || (s.name != "" && s.tx) || !initOk || !writeOk then Outcome(s, false)
      else Outcome(Lib(id, {}, true, s.log + [Sent(Opening(id))]), true)
    case DeregisterClient(writeOk) =>
      if !s.tx || s.name == "" then Outcome(Lib("", {}, false, s.log), false)
      else Outcome(Lib("", {}, false, s.log + [if writeOk then Sent(Closing(s.name)) else LostClose]), writeOk)
    case RegisterAction(action, writeOk) =>
      if !s.tx || action in s.actions || s.name == "" || action == "" || !writeOk then Outcome(s, false)
      else Outcome(s.(actions := s.actions + {action}, log := s.log + [Sent(Registration(s.name, action))]), true)
    case TouchHeartbeat(action, instance, writeOk) =>
      if !s.tx || action !in s.actions || s.name == "" || action == "" || instance == "" then Outcome(s, false)
      else Write(s, Heartbeat(s.name, action, instance), writeOk)
    case WriteActionResponse(res, writeOk) =>
      if !s.tx || s.name == "" then Outcome(s, false) else Write(s, Response(s.name, res), writeOk)
  }

  function Run(calls: seq<Call>): Lib {
    if calls == [] then START else Step(Run(calls[..|calls| - 1]), calls[|calls| - 1]).lib
  }

  /** The caller's side: only responses are written as responses. */
  predicate Fits(c: Call) {
    c.WriteActionResponse? ==> c.res.kind == C.ActionResponse
  }

  // ---------- reading the wire ----------

  function Get(m: C.Msg, key: string): string {
    if key in m.data then m.data[key] else ""
  }

  /** An event at which a session begins or ends. */
  predicate Boundary(e: Event) {
    e.LostClose? || e.m.kind == C.RegisterClient || e.m.kind == C.DeregisterClient
  }

  /** The name of the session that is open after these events; empty when none is. */
  function SessionName(log: seq<Event>): string {
    if log == [] then ""
    else
      var e := log[|log| - 1];
      if !Boundary(e) then SessionName(log[..|log| - 1])
      else if e.Sent? && e.m.kind == C.RegisterClient then Get(e.m, C.REQ_CLIENT_NAME)
      else ""
  }

  /** The actions registered in the session that is open. */
  function Registered(log: seq<Event>): set<string> {
    if log == [] then {}
    else
      var e := log[|log| - 1];
      if Boundary(e) then {}
      else
        Registered(log[..|log| - 1])
        + (if e.Sent? && e.m.kind == C.RegisterAction then {Get(e.m, C.REQ_ACTION_NAME)} else {})
  }

  /** What may come next on the wire. */
  predicate Allowed(log: seq<Event>, e: Event) {
    match e
    case LostClose => SessionName(log) != ""
    case Sent(m) =>
      && Get(m, C.REQ_CLIENT_NAME) != ""
      && (if m.kind == C.RegisterClient then SessionName(log) == ""
          else SessionName(log) == Get(m, C.REQ_CLIENT_NAME))
      && (m.kind == C.RegisterAction ==> Get(m, C.REQ_ACTION_NAME) !in Registered(log))
      && (m.kind == C.HeartbeatClient ==> Get(m, C.REQ_ACTION_NAME) in Registered(log))
      && m.kind != C.ActionRequest
  }

  predicate Disciplined(log: seq<Event>) {
    forall j :: 0 <= j < |log| ==> Allowed(log[..j], log[j])
  }

  predicate Registers(e: Event, action: string) {
    e.Sent? && e.m.kind == C.RegisterAction && Get(e.m, C.REQ_ACTION_NAME) == action
  }

  predicate Opens(e: Event, name: string) {
    e.Sent? && e.m.kind == C.RegisterClient && Get(e.m, C.REQ_CLIENT_NAME) == name
  }

  /** No session begins or ends after event i. */
  predicate UnbrokenAfter(log: seq<Event>, i: nat) {
    forall k :: i < k < |log| ==> !Boundary(log[k])
  }

  // ---------- what the two readings mean ----------

  /** An action counts as registered when some event registered it and no session began or ended since. */
  lemma {:induction false} RegisteredMeans(log: seq<Event>, action: string)
    ensures action in Registered(log) <==>
            exists i :: 0 <= i < |log| && Registers(log[i], action) && UnbrokenAfter(log, i)
  {
    if log != [] {
      var before := log[..|log| - 1];
      RegisteredMeans(before, action);
      assert forall i :: 0 <= i < |before| ==> before[i] == log[i];
      assert forall i :: 0 <= i < |before| ==>
        (UnbrokenAfter(log, i) <==> UnbrokenAfter(before, i) && !Boundary(log[|log| - 1]));
      assert UnbrokenAfter(log, |log| - 1);
    }
  }

  /** A session is open under a name when some event opened it and no session began or ended since. */
  lemma {:induction false} SessionMeans(log: seq<Event>, name: string)
    requires name != ""
    ensures SessionName(log) == name <==>
            exists i :: 0 <= i < |log| && Opens(log[i], name) && UnbrokenAfter(log, i)
  {
    if log != [] {
      var before := log[..|log| - 1];
      SessionMeans(before, name);
      assert forall i :: 0 <= i < |before| ==> before[i] == log[i];
      assert forall i :: 0 <= i < |before| ==>
        (UnbrokenAfter(log, i) <==> UnbrokenAfter(before, i) && !Boundary(log[|log| - 1]));
      assert UnbrokenAfter(log, |log| - 1);
    }
  }

  lemma KeysDiffer()
    ensures C.REQ_CLIENT_NAME != C.REQ_ACTION_NAME
    ensures C.REQ_CLIENT_NAME != C.REQ_INSTANCE_ID
    ensures C.REQ_ACTION_NAME != C.REQ_INSTANCE_ID
  {
    assert C.REQ_CLIENT_NAME[0] == 'c' && C.REQ_ACTION_NAME[0] == 'a' && C.REQ_INSTANCE_ID[0] == 'i';
  }

  // ---------- the invariant ----------

  predicate Inv(s: Lib) {
    && (s.tx <==> s.name != "")
    && s.name == SessionName(s.log)
    && s.actions == Registered(s.log)
    && Disciplined(s.log)
  }

  lemma OneMore(log: seq<Event>, e: Event)
    requires Disciplined(log) && Allowed(log, e)
    ensures Disciplined(log + [e])
    ensures (log + [e])[..|log|] == log
  {
    var longer := log + [e];
    assert longer[..|log|] == log;
    forall j | 0 <= j < |log| ensures Allowed(longer[..j], longer[j])
    {
      assert longer[..j] == log[..j];
    }
  }

  lemma OpenKeepsInv(s: Lib, id: string)
    requires Inv(s) && s.name == "" && id != ""
    ensures Inv(Lib(id, {}, true, s.log + [Sent(Opening(id))]))
  {
    OneMore(s.log, Sent(Opening(id)));
  }

  lemma CloseKeepsInv(s: Lib, writeOk: bool)
    requires Inv(s) && s.name != ""
    ensures Inv(Lib("", {}, false, s.log + [if writeOk then Sent(Closing(s.name)) else LostClose]))
  {
    OneMore(s.log, if writeOk then Sent(Closing(s.name)) else LostClose);
  }

  lemma RegisterKeepsInv(s: Lib, action: string)
    requires Inv(s) && s.tx && action != "" && action !in s.actions
    ensures Inv(s.(actions := s.actions + {action}, log := s.log + [Sent(Registration(s.name, action))]))
  {
    KeysDiffer();
    OneMore(s.log, Sent(Registration(s.name, action)));
  }

  lemma HeartbeatKeepsInv(s: Lib, action: string, instance: string)
    requires Inv(s) && s.tx && action != "" && instance != "" && action in s.actions
    ensures Inv(s.(log := s.log + [Sent(Heartbeat(s.name, action, instance))]))
  {
    KeysDiffer();
    OneMore(s.log, Sent(Heartbeat(s.name, action, instance)));
  }

  lemma ResponseKeepsInv(s: Lib, res: C.Msg)
    requires Inv(s) && s.tx && res.kind == C.ActionResponse
    ensures Inv(s.(log := s.log + [Sent(Response(s.name, res))]))
  {
    OneMore(s.log, Sent(Response(s.name, res)));
  }

  lemma StepKeepsInv(s: Lib, c: Call)
    requires Inv(s) && Fits(c)
    ensures Inv(Step(s, c).lib)
  {
    match c
    case RegisterClient(id, _, _) => if Step(s, c).ok { OpenKeepsInv(s, id); }
    case DeregisterClient(writeOk) => if s.tx { CloseKeepsInv(s, writeOk); }
    case RegisterAction(action, _) => if Step(s, c).ok { RegisterKeepsInv(s, action); }
    case TouchHeartbeat(action, instance, _) => if Step(s, c).ok { HeartbeatKeepsInv(s, action, instance); }
    case WriteActionResponse(res, _) => if Step(s, c).ok { ResponseKeepsInv(s, res); }
  }

  /** A message that leaves the library's state alone must be neither a boundary nor a registration. */
  lemma ForwardKeepsInv(s: Lib, m: C.Msg)
    requires Inv(s) && s.tx
    ensures Inv(s.(log := s.log + [Sent(m)])) <==>
            Allowed(s.log, Sent(m)) && !Boundary(Sent(m)) && m.kind != C.RegisterAction
  {
    var after := s.log + [Sent(m)];
    assert after[..|s.log|] == s.log && after[|s.log|] == Sent(m);
    if Allowed(s.log, Sent(m)) {
      OneMore(s.log, Sent(m));
    }
  }

  lemma ResponseIsAllowed(s: Lib, res: C.Msg)
    requires Inv(s) && s.tx
    ensures Allowed(s.log, Sent(Response(s.name, res))) && !Boundary(Sent(res)) && res.kind != C.RegisterAction <==>
            || res.kind == C.ActionResponse
            || (res.kind == C.HeartbeatClient && Get(res, C.REQ_ACTION_NAME) in s.actions)
  {
    KeysDiffer();
  }

  /**
    write_action_response does not look at the type of what it forwards.  In an open session it is safe
    exactly for responses, and for heartbeats of registered actions.
   */
  lemma OnlyResponsesAreSafe(s: Lib, res: C.Msg)
    requires Inv(s) && s.tx
    ensures Inv(Step(s, WriteActionResponse(res, true)).lib) <==>
            || res.kind == C.ActionResponse
            || (res.kind == C.HeartbeatClient && Get(res, C.REQ_ACTION_NAME) in s.actions)
  {
    ForwardKeepsInv(s, Response(s.name, res));
    ResponseIsAllowed(s, res);
  }

  // ---------- over any sequence of calls ----------

  predicate AllFit(calls: seq<Call>) {
    forall i :: 0 <= i < |calls| ==> Fits(calls[i])
  }

  lemma {:induction false} RunKeepsInv(calls: seq<Call>)
    requires AllFit(calls)
    ensures Inv(Run(calls))
  {
    if calls != [] {
      RunKeepsInv(calls[..|calls| - 1]);
      StepKeepsInv(Run(calls[..|calls| - 1]), calls[|calls| - 1]);
    }
  }

  /**
    Whatever is called, there is a transport exactly while a client is registered, and the wire carries
    a series of sessions: every message bears the name of the session it is sent in, no
    session opens inside another, and what closes one is its deregistration, sent or failed.
   */
  lemma SessionsFollowOneAnother(calls: seq<Call>, j: nat)
    requires AllFit(calls) && j < |Run(calls).log|
    ensures Run(calls).tx <==> Run(calls).name != ""
    ensures var e := Run(calls).log[j];
            var open := SessionName(Run(calls).log[..j]);
            && (open == "" <==> e.Sent? && e.m.kind == C.RegisterClient)
            && (e.Sent? && open != "" ==> Get(e.m, C.REQ_CLIENT_NAME) == open)
  {
    RunKeepsInv(calls);
    assert Allowed(Run(calls).log[..j], Run(calls).log[j]);
  }

  /** Between two registrations of an action a session began or ended. */
  lemma RegisteredOncePerSession(calls: seq<Call>, i: nat, j: nat, action: string)
    requires AllFit(calls) && i < j < |Run(calls).log|
    requires Registers(Run(calls).log[i], action) && Registers(Run(calls).log[j], action)
    ensures exists k :: i < k < j && Boundary(Run(calls).log[k])
  {
    var log := Run(calls).log;
    RunKeepsInv(calls);
    assert Allowed(log[..j], log[j]);
    RegisteredMeans(log[..j], action);
    assert log[..j][i] == log[i];
    assert !UnbrokenAfter(log[..j], i);
  }

  /** A heartbeat names an action that was registered earlier in the same session. */
  lemma HeartbeatsNameRegisteredActions(calls: seq<Call>, j: nat)
    requires AllFit(calls) && j < |Run(calls).log|
    requires Run(calls).log[j].Sent? && Run(calls).log[j].m.kind == C.HeartbeatClient
    ensures exists i :: && 0 <= i < j
                        && Registers(Run(calls).log[i], Get(Run(calls).log[j].m, C.REQ_ACTION_NAME))
                        && UnbrokenAfter(Run(calls).log[..j], i)
  {
    var log := Run(calls).log;
    RunKeepsInv(calls);
    assert Allowed(log[..j], log[j]);
    var action := Get(log[j].m, C.REQ_ACTION_NAME);
    RegisteredMeans(log[..j], action);
    var i :| 0 <= i < j && Registers(log[..j][i], action) && UnbrokenAfter(log[..j], i);
    assert log[..j][i] == log[i];
  }

  // ---------- every message is what its caller said ----------

  /** The message that a call puts on the wire while the session of this name is open. */
  predicate Says(c: Call, name: string, m: C.Msg) {
    match c
    case RegisterClient(id, _, _) =>
      m.kind == C.RegisterClient && m.data.Keys == {"client_name"} && Get(m, "client_name") == id
    case DeregisterClient(_) =>
      m.kind == C.DeregisterClient && m.data.Keys == {"client_name"} && Get(m, "client_name") == name
    case RegisterAction(action, _) =>
      && m.kind == C.RegisterAction && m.data.Keys == {"client_name", "action_name"}
      && Get(m, "client_name") == name && Get(m, "action_name") == action
    case TouchHeartbeat(action, instance, _) =>
      && m.kind == C.HeartbeatClient && m.data.Keys == {"client_name", "action_name", "instance_id"}
      && Get(m, "client_name") == name && Get(m, "action_name") == action && Get(m, "instance_id") == instance
    case WriteActionResponse(res, _) =>
      && m.kind == res.kind && m.data.Keys == res.data.Keys + {"client_name"}
      && Get(m, "client_name") == name && (forall k :: k in res.data && k != "client_name" ==> Get(m, k) == res.data[k])
  }

  /** The calls that are to send something now. */
  predicate Speaks(s: Lib, c: Call) {
    match c
    case RegisterClient(id, initOk, writeOk) => id != "" && s.name == "" && initOk && writeOk
    case DeregisterClient(writeOk) => s.name != "" && writeOk
    case RegisterAction(action, writeOk) => s.name != "" && action != "" && action !in s.actions && writeOk
    case TouchHeartbeat(action, instance, writeOk) =>
      s.name != "" && action != "" && action in s.actions && instance != "" && writeOk
    case WriteActionResponse(_, writeOk) => s.name != "" && writeOk
  }

  lemma SpeaksOnce(s: Lib, c: Call)
    requires s.tx <==> s.name != ""
    ensures var log := Step(s, c).lib.log;
            if Speaks(s, c) then |log| == |s.log| + 1 && s.log <= log && log[|s.log|].Sent?
            else log == s.log + (if c.DeregisterClient? && s.name != "" then [LostClose] else [])
  {
  }

  lemma StepLeaves(s: Lib, c: Call)
    requires s.tx <==> s.name != ""
    ensures var t := Step(s, c).lib;
            match c
            case RegisterClient(id, _, _) => if Speaks(s, c) then t.name == id && t.actions == {} else t == s
            case DeregisterClient(_) => t.name == "" && t.actions == {}
            case RegisterAction(action, _) => t.name == s.name && t.actions == s.actions + (if Speaks(s, c) then {action} else {})
            case _ => t.name == s.name && t.actions == s.actions
  {
  }

  lemma SaysItsCall(s: Lib, c: Call)
    requires (s.tx <==> s.name != "") && Speaks(s, c)
    ensures |Step(s, c).lib.log| == |s.log| + 1 && Step(s, c).lib.log[|s.log|].Sent?
    ensures Says(c, s.name, Step(s, c).lib.log[|s.log|].m)
  {
    KeysDiffer();
  }

  /**
    After any calls, the next call puts exactly one message on the wire if it is to send something, with
    the caller's own action, instance and data under the session's name, and none otherwise.  A
    deregistration always ends the session; if its own write fails the wire shows no closing message.
   */
  lemma MessagesSayWhatWasCalled(calls: seq<Call>, c: Call)
    requires AllFit(calls)
    ensures var s, t := Run(calls), Run(calls + [c]);
            if Speaks(s, c)
            then |t.log| == |s.log| + 1 && s.log <= t.log && t.log[|s.log|].Sent? && Says(c, s.name, t.log[|s.log|].m)
            else t.log == s.log + (if c.DeregisterClient? && s.name != "" then [LostClose] else [])
    ensures var s, t := Run(calls), Run(calls + [c]);
            match c
            case RegisterClient(id, _, _) => if Speaks(s, c) then t.name == id && t.actions == {} else t == s
            case DeregisterClient(_) => t.name == "" && t.actions == {}
            case RegisterAction(action, _) => t.name == s.name && t.actions == s.actions + (if Speaks(s, c) then {action} else {})
            case _ => t.name == s.name && t.actions == s.actions
  {
    RunKeepsInv(calls);
    assert (calls + [c])[..|calls|] == calls;
    SpeaksOnce(Run(calls), c);
    StepLeaves(Run(calls), c);
    if Speaks(Run(calls), c) {
      SaysItsCall(Run(calls), c);
    }
  }

  // ---------- every message can be decoded ----------

  lemma OpeningDecodes(name: string)
    requires name != ""
    ensures C.Decode(C.ToStr(Opening(name))) == Some(Opening(name))
    ensures C.Decode(C.ToStr(Closing(name))) == Some(Closing(name))
  {
    C.RoundTrip(Opening(name));
    C.RoundTrip(Closing(name));
  }

  lemma RegistrationDecodes(name: string, action: string)
    requires name != "" && action != ""
    ensures C.Decode(C.ToStr(Registration(name, action))) == Some(Registration(name, action))
  {
    KeysDiffer();
    C.RoundTrip(Registration(name, action));
  }

  lemma HeartbeatDecodes(name: string, action: string, instance: string)
    requires name != "" && action != "" && instance != ""
    ensures C.Decode(C.ToStr(Heartbeat(name, action, instance))) == Some(Heartbeat(name, action, instance))
  {
    KeysDiffer();
    C.RoundTrip(Heartbeat(name, action, instance));
  }

  lemma ResponseDecodes(name: string, res: C.Msg)
    requires name != "" && res.kind == C.ActionResponse
    requires C.Admissible(res.kind, res.data) && C.Complete(res.kind, res.data)
    ensures C.Decode(C.ToStr(Response(name, res))) == Some(Response(name, res))
  {
    C.RoundTrip(Response(name, res));
  }

  /** Responses come out of create_server_msg. */
  ghost predicate Decoded(c: Call) {
    c.WriteActionResponse? ==> exists fields :: C.Decode(fields) == Some(c.res)
  }

  ghost predicate Legible(e: Event) {
    e.Sent? ==> C.Decode(C.ToStr(e.m)) == Some(e.m)
  }

  lemma ResponseIsLegible(name: string, res: C.Msg)
    requires name != "" && res.kind == C.ActionResponse && exists fields :: C.Decode(fields) == Some(res)
    ensures Legible(Sent(Response(name, res)))
  {
    var fields :| C.Decode(fields) == Some(res);
    C.DecodedIsValid(fields);
    ResponseDecodes(name, res);
  }

  lemma StepIsLegible(s: Lib, c: Call)
    requires Fits(c) && Decoded(c) && Step(s, c).lib.log != s.log
    ensures |Step(s, c).lib.log| == |s.log| + 1 && Legible(Step(s, c).lib.log[|s.log|])
  {
    match c
    case RegisterClient(id, _, _) => OpeningDecodes(id);
    case DeregisterClient(writeOk) => OpeningDecodes(s.name);
    case RegisterAction(action, _) => RegistrationDecodes(s.name, action);
    case TouchHeartbeat(action, instance, _) => HeartbeatDecodes(s.name, action, instance);
    case WriteActionResponse(res, _) => ResponseIsLegible(s.name, res);
  }

  lemma NewEventIsLegible(s: Lib, c: Call, j: nat)
    requires Fits(c) && Decoded(c) && j < |Step(s, c).lib.log|
    ensures if j < |s.log| then Step(s, c).lib.log[j] == s.log[j] else Legible(Step(s, c).lib.log[j])
  {
    if j >= |s.log| {
      StepIsLegible(s, c);
    }
  }

  /** The other end decodes every message to what was sent. */
  lemma {:induction false} EveryMessageDecodes(calls: seq<Call>, j: nat)
    requires AllFit(calls) && (forall i :: 0 <= i < |calls| ==> Decoded(calls[i]))
    requires j < |Run(calls).log|
    ensures Legible(Run(calls).log[j])
  {
    var before := calls[..|calls| - 1];
    NewEventIsLegible(Run(before), calls[|calls| - 1], j);
    if j < |Run(before).log| {
      EveryMessageDecodes(before, j);
    }
  }
}
