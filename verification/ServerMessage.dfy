/** ServerMsg as an object, and the loops that turn messages into JSON objects and back. */
module ServerMessage {
  import opened Wrappers
  import opened Messages
  import C = Codec

  class ServerMsg {
    const msgType: string
    const reqdKeys: set<string>
    const optKeys: set<string>
    var data: C.Params
    ghost const kind: C.Kind

    ghost predicate Valid()
      reads this
    {
      && msgType == C.TypeName(kind)
      && reqdKeys == C.Required(kind)
      && optKeys == C.Optional(kind)
      && C.Admissible(kind, data)
    }

    ghost function View(): C.Msg
      reads this
    {
      C.Msg(kind, data)
    }

    constructor RegisterClient()
      ensures Valid() && View() == C.Msg(C.RegisterClient, map[])
    {
      msgType, kind, data := C.REQ_REGISTER_CLIENT, C.RegisterClient, map[];
      reqdKeys, optKeys := {C.REQ_CLIENT_NAME}, {};
    }

    constructor DeregisterClient()
      ensures Valid() && View() == C.Msg(C.DeregisterClient, map[])
    {
      msgType, kind, data := C.REQ_DEREGISTER_CLIENT, C.DeregisterClient, map[];
      reqdKeys, optKeys := {C.REQ_CLIENT_NAME}, {};
    }

    constructor RegisterAction()
      ensures Valid() && View() == C.Msg(C.RegisterAction, map[])
    {
      msgType, kind, data := C.REQ_REGISTER_ACTION, C.RegisterAction, map[];
      reqdKeys, optKeys := {C.REQ_CLIENT_NAME, C.REQ_ACTION_NAME}, {};
    }

    constructor HeartbeatClient()
      ensures Valid() && View() == C.Msg(C.HeartbeatClient, map[])
    {
      msgType, kind, data := C.REQ_HEARTBEAT, C.HeartbeatClient, map[];
      reqdKeys, optKeys := {C.REQ_CLIENT_NAME, C.REQ_ACTION_NAME, C.REQ_INSTANCE_ID}, {};
    }

    constructor ActionRequest()
      ensures Valid() && View() == C.Msg(C.ActionRequest, map[])
    {
      msgType, kind, data := REQ_ACTION_REQUEST, C.ActionRequest, map[];
      reqdKeys := {C.REQ_CLIENT_NAME, C.REQ_ACTION_NAME, C.REQ_INSTANCE_ID, C.REQ_ANOMALY_INSTANCE_ID};
      optKeys := {C.REQ_ANOMALY_KEY, C.REQ_CONTEXT, C.REQ_TIMEOUT, C.REQ_HEARTBEAT_INTERVAL};
    }

    constructor ActionResponse()
      ensures Valid() && View() == C.Msg(C.ActionResponse, map[])
    {
      msgType, kind, data := C.REQ_ACTION_RESPONSE, C.ActionResponse, map[];
      reqdKeys := {C.REQ_CLIENT_NAME, C.REQ_ACTION_NAME, C.REQ_INSTANCE_ID, C.REQ_ANOMALY_INSTANCE_ID,
                   C.REQ_ANOMALY_KEY, C.REQ_ACTION_DATA, C.REQ_RESULT_CODE, C.REQ_RESULT_STR};
      optKeys := {};
    }

    method Set(key: string, val: string) returns (rc: int)
      requires Valid()
      modifies this`data
      ensures Valid() && data == C.SetParam(kind, old(data), key, val)
      ensures rc == 0 <==> key in C.Declared(kind) && (key in C.Required(kind) ==> val != "")
      ensures data == if rc == 0 then old(data)[key := val] else old(data)
    {
      if key !in reqdKeys {
        if key !in optKeys {
          return -1;
        }
      } else if val == "" {
        return -1;
      }
      data := data[key := val];
      return 0;
    }

    method Validate() returns (ok: bool)
      requires Valid()
      ensures ok <==> C.Complete(kind, data)
    {
      if reqdKeys == {} {
        return false;
      }
      var todo := reqdKeys;
      while todo != {}
        invariant todo <= reqdKeys
        invariant forall k :: k in reqdKeys - todo ==> k in data && data[k] != ""
      {
        var k :| k in todo;
        if k !in data || data[k] == "" {
          return false;
        }
        todo := todo - {k};
      }
      return true;
    }

    method ToStr() returns (str: map<string, C.Json>)
      requires Valid()
      ensures str == C.ToStr(View())
    {
      str := ConvertToJson(msgType, data);
    }

    /** `operator==`: equal objects have equal texts, and no others do. */
    method Equals(that: ServerMsg) returns (same: bool)
      requires Valid() && that.Valid()
      ensures same <==> C.ToStr(View()) == C.ToStr(that.View())
    {
      C.SameTextSameMessage(View(), that.View());
      C.NamesAreKinds(msgType, kind);
      C.NamesAreKinds(msgType, that.kind);
      same := msgType == that.msgType && data == that.data;
    }
  }

  /** `convert_to_json`: one object around the object of all pairs. */
  method ConvertToJson(key: string, params: C.Params) returns (msg: map<string, C.Json>)
    ensures msg == C.ToJson(key, params)
  {
    var paramsData: map<string, C.Json> := map[];
    var todo := params.Keys;
    while todo != {}
      invariant todo <= params.Keys && paramsData.Keys == params.Keys - todo
      invariant forall k :: k in paramsData ==> paramsData[k] == C.Text(params[k])
    {
      var k :| k in todo;
      paramsData := paramsData[k := C.Text(params[k])];
      todo := todo - {k};
    }
    assert paramsData == C.Texts(params);
    msg := map[key := C.Object(paramsData)];
  }

  /** `get_params`: fails at a value that is not a string. */
  method GetParams(fields: map<string, C.Json>) returns (rc: int, params: C.Params)
    ensures rc == 0 <==> C.GetParams(fields).Some?
    ensures rc == 0 ==> C.GetParams(fields) == Some(params)
  {
    rc, params := 0, map[];
    var todo := fields.Keys;
    while todo != {}
      invariant todo <= fields.Keys && params.Keys == fields.Keys - todo
      invariant forall k :: k in params ==> fields[k] == C.Text(params[k])
    {
      var k :| k in todo;
      if !fields[k].Text? {
        return -1, params;
      }
      params := params[k := fields[k].text];
      todo := todo - {k};
    }
    assert params == (map k | k in fields :: fields[k].text);
  }

  /** `convert_from_json`, given the parsed object. */
  method ConvertFromJson(fields: map<string, C.Json>) returns (rc: int, key: string, params: C.Params)
    ensures rc == 0 <==> C.FromJson(fields).Some?
    ensures rc == 0 ==> C.FromJson(fields) == Some(C.Parsed(key, params))
  {
    if |fields| == 1 {
      key :| key in fields;
      C.OnlyKey(fields, key);
      if !fields[key].Object? {
        return -1, key, map[];
      }
      rc, params := GetParams(fields[key].fields);
    } else {
      key := "";
      rc, params := GetParams(fields);
    }
  }

  /** The empty message of the named type; null when no type has that name. */
  method NewMessage(name: string) returns (req: ServerMsg?)
    ensures match C.KindOf(name)
            case None => req == null
            case Some(kind) => req != null && fresh(req) && req.Valid() && req.View() == C.Msg(kind, map[])
  {
    req := null;
    if name == C.REQ_REGISTER_CLIENT {
      req := new ServerMsg.RegisterClient();
    } else if name == C.REQ_DEREGISTER_CLIENT {
      req := new ServerMsg.DeregisterClient();
    } else if name == C.REQ_REGISTER_ACTION {
      req := new ServerMsg.RegisterAction();
    } else if name == C.REQ_HEARTBEAT {
      req := new ServerMsg.HeartbeatClient();
    } else if name == C.REQ_ACTION_RESPONSE {
      req := new ServerMsg.ActionResponse();
    } else if name == REQ_ACTION_REQUEST {
      req := new ServerMsg.ActionRequest();
    }
  }

  /** Calls `set` with every pair; what it returns is not looked at. */
  method SetEvery(req: ServerMsg, params: C.Params)
    requires req.Valid() && req.data == map[]
    modifies req`data
    ensures req.Valid() && req.data == C.Kept(req.kind, params)
  {
    var todo := params.Keys;
    while todo != {}
      invariant todo <= params.Keys && req.Valid()
      invariant req.data == C.Kept(req.kind, params - todo)
    {
      var k :| k in todo;
      C.KeptOneMore(req.kind, params, todo, k);
      var rc := req.Set(k, params[k]);
      todo := todo - {k};
    }
    assert params - {} == params;
  }

  /** `create_server_msg`, given the parsed object: null unless the object decodes. */
  method CreateServerMsg(fields: map<string, C.Json>) returns (ret: ServerMsg?)
    ensures match C.Decode(fields)
            case None => ret == null
            case Some(m) => ret != null && fresh(ret) && ret.Valid() && ret.View() == m
    ensures ret != null ==> C.Complete(ret.kind, ret.data)
  {
    ret := null;
    var rc, name, params := ConvertFromJson(fields);
    if rc != 0 {
      return;
    }
    var req := NewMessage(name);
    if req == null {
      return;
    }
    SetEvery(req, params);
    var ok := req.Validate();
    if ok {
      ret := req;
    }
  }
}
