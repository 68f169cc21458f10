/** lom_lib.cpp's client calls over its static state. */
module ClientLibrary {
  import opened ServerMessage
  import C = Codec
  import S = ClientSession

  /** How a call ends: with its return code, or in a dereference of a null message. */
  datatype Ending = Returned(rc: int) | NullDereferenced

  class Client {
    var clientName: string
    var actions: set<string>
    var tx: bool
    ghost var log: seq<S.Event>

    ghost function View(): S.Lib
      reads this
    {
      S.Lib(clientName, actions, tx, log)
    }

    constructor ()
      ensures View() == S.START && S.Inv(View())
    {
      clientName, actions, tx, log := "", {}, false, [];
    }

    /** One write on the transport: the message's text goes out unless the write fails. */
    method Write(msg: ServerMsg, writeOk: bool) returns (rc: int)
      requires msg.Valid()
      modifies this`log
      ensures rc == 0 <==> writeOk
      ensures log == if writeOk then old(log) + [S.Sent(msg.View())] else old(log)
    {
      var str := msg.ToStr();
      if !writeOk {
        return -1;
      }
      C.FromJsonOfText(msg.msgType, msg.data);
      log := log + [S.Sent(msg.View())];
      return 0;
    }

    /** Fills in the session's name. */
    method SetName(msg: ServerMsg) returns (rc: int)
      requires msg.Valid()
      modifies msg`data
      ensures msg.Valid() && msg.data == C.SetParam(msg.kind, old(msg.data), C.REQ_CLIENT_NAME, clientName)
      ensures rc == 0 <==> C.Accepts(msg.kind, C.REQ_CLIENT_NAME, clientName)
    {
      rc := msg.Set(C.REQ_CLIENT_NAME, clientName);
    }

    /** The part of register_client that checks the name, and sends the opening message. */
    method SendOpening(id: string, initOk: bool, writeOk: bool) returns (rc: int)
      requires tx <==> clientName != ""
      modifies this`log
      ensures rc == 0 <==> id != "" && !tx && initOk && writeOk
      ensures log == if rc == 0 then old(log) + [S.Sent(S.Opening(id))] else old(log)
    {
      var msg := new ServerMsg.RegisterClient();
      rc := msg.Set(C.REQ_CLIENT_NAME, id);
      if rc != 0 {
        return;
      }
      if !(clientName == "" || !tx) {
        return -1;
      }
      var ok := msg.Validate();
      if !ok || !initOk {
        return -1;
      }
      rc := Write(msg, writeOk);
    }

    method RegisterClient(id: string, initOk: bool, writeOk: bool) returns (rc: int)
      requires S.Inv(View())
      modifies this
      ensures S.Inv(View()) && View() == S.Step(old(View()), S.RegisterClient(id, initOk, writeOk)).lib
      ensures rc == 0 <==> id != "" && old(!tx) && initOk && writeOk
    {
      S.StepKeepsInv(View(), S.RegisterClient(id, initOk, writeOk));
      rc := SendOpening(id, initOk, writeOk);
      if rc == 0 {
        clientName, actions, tx := id, {}, true;
      }
    }

    method DeregisterClient(writeOk: bool) returns (rc: int)
      requires S.Inv(View())
      modifies this
      ensures S.Inv(View()) && View() == S.Step(old(View()), S.DeregisterClient(writeOk)).lib
      ensures clientName == "" && actions == {} && !tx
      ensures rc == 0 <==> old(tx) && writeOk
    {
      S.StepKeepsInv(View(), S.DeregisterClient(writeOk));
      rc := SendClose(writeOk);
      clientName, actions, tx := "", {}, false;
    }

    /** The part of deregister_client before its exit label. */
    method SendClose(writeOk: bool) returns (rc: int)
      requires tx <==> clientName != ""
      modifies this`log
      ensures rc == 0 <==> tx && writeOk
      ensures log == if !tx then old(log)
                     else old(log) + [if writeOk then S.Sent(S.Closing(clientName)) else S.LostClose]
    {
      var msg := new ServerMsg.DeregisterClient();
      if !tx {
        return -1;
      }
      rc := SetName(msg);
      if rc != 0 {
        return;
      }
      var ok := msg.Validate();
      if !ok {
        return -1;
      }
      rc := Write(msg, writeOk);
      if rc != 0 {
        log := log + [S.LostClose];
      }
    }

    method RegisterAction(action: string, writeOk: bool) returns (rc: int)
      requires S.Inv(View())
      modifies this
      ensures S.Inv(View()) && View() == S.Step(old(View()), S.RegisterAction(action, writeOk)).lib
      ensures rc == 0 <==> old(tx) && action != "" && action !in old(actions) && writeOk
    {
      S.StepKeepsInv(View(), S.RegisterAction(action, writeOk));
      var msg := new ServerMsg.RegisterAction();
      if !tx || action in actions {
        return -1;
      }
      rc := SetName(msg);
      if rc != 0 {
        return;
      }
      rc := msg.Set(C.REQ_ACTION_NAME, action);
      if rc != 0 {
        return;
      }
      var ok := msg.Validate();
      if !ok {
        return -1;
      }
      rc := Write(msg, writeOk);
      if rc != 0 {
        return;
      }
      actions := actions + {action};
    }

    method TouchHeartbeat(action: string, instance: string, writeOk: bool) returns (rc: int)
      requires S.Inv(View())
      modifies this`log
      ensures S.Inv(View()) && View() == S.Step(old(View()), S.TouchHeartbeat(action, instance, writeOk)).lib
      ensures rc == 0 <==> tx && action != "" && action in actions && instance != "" && writeOk
    {
      S.StepKeepsInv(View(), S.TouchHeartbeat(action, instance, writeOk));
      var msg := new ServerMsg.HeartbeatClient();
      if !tx || action !in actions {
        return -1;
      }
      rc := SetName(msg);
      if rc != 0 {
        return;
      }
      rc := msg.Set(C.REQ_ACTION_NAME, action);
      if rc != 0 {
        return;
      }
      rc := msg.Set(C.REQ_INSTANCE_ID, instance);
      if rc != 0 {
        return;
      }
      var ok := msg.Validate();
      if !ok {
        return -1;
      }
      rc := Write(msg, writeOk);
    }

    /** Overwrites the message's client name with the session's and sends it. */
    method Forward(msg: ServerMsg, writeOk: bool) returns (rc: int)
      requires S.Inv(View()) && tx
      requires msg.Valid() && C.Complete(msg.kind, msg.data)
      modifies this`log, msg`data
      ensures View() == S.Step(old(View()), S.WriteActionResponse(old(msg.View()), writeOk)).lib
      ensures msg.kind == C.ActionResponse ==> S.Inv(View())
      ensures rc == 0 <==> writeOk
    {
      if msg.kind == C.ActionResponse {
        S.StepKeepsInv(View(), S.WriteActionResponse(msg.View(), writeOk));
      }
      C.EveryKindHasAName(msg.kind);
      var ok := msg.Validate();
      if !ok {
        return -1;
      }
      rc := SetName(msg);
      if rc != 0 {
        return;
      }
      ok := msg.Validate();
      if !ok {
        return -1;
      }
      rc := Write(msg, writeOk);
    }

    /**
      `write_action_response`.  A text that does not decode is dereferenced as a null message, but only
      when there is a transport; any message that decodes is sent under the session's name.
     */
    method WriteActionResponse(res: map<string, C.Json>, writeOk: bool) returns (end: Ending)
      requires S.Inv(View())
      modifies this`log
      ensures end == NullDereferenced <==> tx && C.Decode(res).None?
      ensures end == Returned(0) <==> tx && C.Decode(res).Some? && writeOk
      ensures if tx && C.Decode(res).Some?
              then View() == S.Step(old(View()), S.WriteActionResponse(C.Decode(res).value, writeOk)).lib
              else View() == old(View())
      ensures C.Decode(res).Some? && C.Decode(res).value.kind == C.ActionResponse ==> S.Inv(View())
    {
      if !tx {
        return Returned(-1);
      }
      var msg := CreateServerMsg(res);
      if msg == null {
        return NullDereferenced;
      }
      var rc := Forward(msg, writeOk);
      return Returned(rc);
    }
  }
}
