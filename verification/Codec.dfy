/** The typed messages between clients and engine, on values, with JSON as a tree of string maps. */
module Codec {
  import opened Wrappers
  import opened Messages

  const REQ_REGISTER_CLIENT := "register_client"
  const REQ_DEREGISTER_CLIENT := "deregister_client"
  const REQ_REGISTER_ACTION := "register_action"
  const REQ_HEARTBEAT := "heartbeat"
  const REQ_ACTION_RESPONSE := "action_response"

  const REQ_CLIENT_NAME := "client_name"
  const REQ_ACTION_NAME := "action_name"
  const REQ_INSTANCE_ID := "instance_id"
  const REQ_ANOMALY_INSTANCE_ID := "anomaly_instance_id"
  const REQ_ANOMALY_KEY := "anomaly_key"
  const REQ_CONTEXT := "context"
  const REQ_TIMEOUT := "timeout"
  const REQ_HEARTBEAT_INTERVAL := "heartbeat_interval"
  const REQ_ACTION_DATA := "action_data"
  const REQ_RESULT_CODE := "result_code"
  const REQ_RESULT_STR := "result_str"

  /** A JSON value; an object's size and keys matter, any other value is only known not to be a string. */
  datatype Json = Text(text: string) | Object(fields: map<string, Json>) | Other

  type Params = map<string, string>

  datatype Kind =
    | RegisterClient
    | DeregisterClient
    | RegisterAction
    | HeartbeatClient
    | ActionRequest
    | ActionResponse

  datatype Msg = Msg(kind: Kind, data: Params)

  function TypeName(kind: Kind): string {
    match kind
    case RegisterClient => REQ_REGISTER_CLIENT
    case DeregisterClient => REQ_DEREGISTER_CLIENT
    case RegisterAction => REQ_REGISTER_ACTION
    case HeartbeatClient => REQ_HEARTBEAT
    case ActionRequest => REQ_ACTION_REQUEST
    case ActionResponse => REQ_ACTION_RESPONSE
  }

  function KindOf(name: string): Option<Kind> {
    if name == REQ_REGISTER_CLIENT then Some(RegisterClient)
    else if name == REQ_DEREGISTER_CLIENT then Some(DeregisterClient)
    else if name == REQ_REGISTER_ACTION then Some(RegisterAction)
    else if name == REQ_HEARTBEAT then Some(HeartbeatClient)
    else if name == REQ_ACTION_RESPONSE then Some(ActionResponse)
    else if name == REQ_ACTION_REQUEST then Some(ActionRequest)
    else None
  }

  /** The type names tell the six kinds apart, and no other string names a kind. */
  lemma NamesAreKinds(name: string, kind: Kind)
    ensures KindOf(name) == Some(kind) <==> name == TypeName(kind)
  {
    assert REQ_REGISTER_CLIENT[9] == 'c' && REQ_REGISTER_ACTION[9] == 'a' && REQ_ACTION_RESPONSE[9] == 's';
  }

  function Required(kind: Kind): set<string> {
    match kind
    case RegisterClient => {REQ_CLIENT_NAME}
    case DeregisterClient => {REQ_CLIENT_NAME}
    case RegisterAction => {REQ_CLIENT_NAME, REQ_ACTION_NAME}
    case HeartbeatClient => {REQ_CLIENT_NAME, REQ_ACTION_NAME, REQ_INSTANCE_ID}
    case ActionRequest => {REQ_CLIENT_NAME, REQ_ACTION_NAME, REQ_INSTANCE_ID, REQ_ANOMALY_INSTANCE_ID}
    case ActionResponse =>
      {REQ_CLIENT_NAME, REQ_ACTION_NAME, REQ_INSTANCE_ID, REQ_ANOMALY_INSTANCE_ID, REQ_ANOMALY_KEY,
       REQ_ACTION_DATA, REQ_RESULT_CODE, REQ_RESULT_STR}
  }

  function Optional(kind: Kind): set<string> {
    if kind == ActionRequest then {REQ_ANOMALY_KEY, REQ_CONTEXT, REQ_TIMEOUT, REQ_HEARTBEAT_INTERVAL} else {}
  }

  function Declared(kind: Kind): set<string> {
    Required(kind) + Optional(kind)
  }

  lemma EveryKindHasAName(kind: Kind)
    ensures REQ_CLIENT_NAME in Required(kind)
  {
  }

  // ---------- set and validate ----------

  predicate Accepts(kind: Kind, key: string, val: string) {
    if key in Required(kind) then val != "" else key in Optional(kind)
  }

  /** `ServerMsg::set`; a refused pair leaves the message as it is. */
  function SetParam(kind: Kind, data: Params, key: string, val: string): Params {
    if Accepts(kind, key, val) then data[key := val] else data
  }

  /** `ServerMsg::validate`. */
  predicate Complete(kind: Kind, data: Params) {
    forall k :: k in Required(kind) ==> k in data && data[k] != ""
  }

  /** Any number of `set` calls on a new message. */
  function SetAll(kind: Kind, pairs: seq<(string, string)>): Params {
    if pairs == [] then map[]
    else
      var last := pairs[|pairs| - 1];
      SetParam(kind, SetAll(kind, pairs[..|pairs| - 1]), last.0, last.1)
  }

  predicate Admissible(kind: Kind, data: Params) {
    forall k :: k in data ==> Accepts(kind, k, data[k])
  }

  lemma {:induction false} SetKeepsAdmissible(kind: Kind, pairs: seq<(string, string)>)
    ensures Admissible(kind, SetAll(kind, pairs))
  {
    if pairs != [] {
      SetKeepsAdmissible(kind, pairs[..|pairs| - 1]);
    }
  }

  lemma AdmissibleMeans(kind: Kind, data: Params)
    ensures Admissible(kind, data) <==>
            data.Keys <= Declared(kind) && (forall k :: k in data && k in Required(kind) ==> data[k] != "")
  {
  }

  lemma SetLast(kind: Kind, before: seq<(string, string)>, key: string, val: string)
    requires Accepts(kind, key, val)
    ensures SetAll(kind, before + [(key, val)]) == SetAll(kind, before)[key := val]
  {
    var pairs := before + [(key, val)];
    assert pairs[|pairs| - 1] == (key, val) && pairs[..|pairs| - 1] == before;
  }

  lemma WithoutOne(kind: Kind, data: Params, k: string)
    requires Admissible(kind, data) && k in data
    ensures var rest := data - {k};
            Admissible(kind, rest) && rest.Keys == data.Keys - {k} && data == rest[k := data[k]]
  {
  }

  lemma {:induction false} AdmissibleIsBuilt(kind: Kind, data: Params) returns (pairs: seq<(string, string)>)
    requires Admissible(kind, data)
    ensures SetAll(kind, pairs) == data
    decreases data.Keys
  {
    pairs := [];
    if data != map[] {
      var k :| k in data;
      WithoutOne(kind, data, k);
      pairs := AdmissibleIsBuilt(kind, data - {k});
      SetLast(kind, pairs, k, data[k]);
      pairs := pairs + [(k, data[k])];
    }
  }

  /** `set` builds exactly the data whose keys are declared and whose required values are not empty. */
  lemma BuiltBySet(kind: Kind, data: Params)
    ensures (exists pairs :: SetAll(kind, pairs) == data) <==>
            data.Keys <= Declared(kind) && (forall k :: k in data && k in Required(kind) ==> data[k] != "")
  {
    AdmissibleMeans(kind, data);
    forall pairs | SetAll(kind, pairs) == data ensures Admissible(kind, data)
    {
      SetKeepsAdmissible(kind, pairs);
    }
    if Admissible(kind, data) {
      var pairs := AdmissibleIsBuilt(kind, data);
    }
  }

  // ---------- encode and decode ----------

  function Texts(params: Params): map<string, Json> {
    map k | k in params :: Text(params[k])
  }

  /** `convert_to_json`. */
  function ToJson(key: string, params: Params): map<string, Json> {
    map[key := Object(Texts(params))]
  }

  function ToStr(m: Msg): map<string, Json> {
    ToJson(TypeName(m.kind), m.data)
  }

  /** `get_params`: every value must be a string. */
  function GetParams(fields: map<string, Json>): Option<Params> {
    if forall k :: k in fields ==> fields[k].Text? then Some(map k | k in fields :: fields[k].text) else None
  }

  datatype Parsed = Parsed(key: string, params: Params)

  /** `convert_from_json` of an object. */
  ghost function FromJson(fields: map<string, Json>): Option<Parsed> {
    if |fields| == 1 then
      var key :| key in fields;
      if !fields[key].Object? then None
      else
        match GetParams(fields[key].fields)
        case Some(params) => Some(Parsed(key, params))
        case None => None
    else
      match GetParams(fields)
      case Some(params) => Some(Parsed("", params))
      case None => None
  }

  /** What is left after `set` was called with every pair in any order. */
  function Kept(kind: Kind, params: Params): Params {
    map k | k in params && Accepts(kind, k, params[k]) :: params[k]
  }

  /** One more `set` while some keys are still to be handled. */
  lemma KeptOneMore(kind: Kind, params: Params, todo: set<string>, k: string)
    requires k in todo && k in params
    ensures SetParam(kind, Kept(kind, params - todo), k, params[k]) == Kept(kind, params - (todo - {k}))
  {
    assert params - (todo - {k}) == (params - todo)[k := params[k]];
  }

  /** `create_server_msg` once the text is parsed. */
  function Create(key: string, params: Params): Option<Msg> {
    match KindOf(key)
    case None => None
    case Some(kind) => if Complete(kind, Kept(kind, params)) then Some(Msg(kind, Kept(kind, params))) else None
  }

  ghost function Decode(fields: map<string, Json>): Option<Msg> {
    match FromJson(fields)
    case Some(parsed) => Create(parsed.key, parsed.params)
    case None => None
  }

  // ---------- properties ----------

  function Project(kind: Kind, params: Params): Params {
    map k | k in params && k in Declared(kind) :: params[k]
  }

  lemma ParamsOfTexts(params: Params)
    ensures GetParams(Texts(params)) == Some(params)
  {
    var fields := Texts(params);
    assert (map k | k in fields :: fields[k].text) == params;
  }

  lemma TextsOfParams(fields: map<string, Json>)
    requires GetParams(fields).Some?
    ensures fields == Texts(GetParams(fields).value)
  {
  }

  lemma OnlyKey(fields: map<string, Json>, key: string)
    requires |fields| == 1 && key in fields
    ensures fields == map[key := fields[key]]
  {
    assert |fields.Keys - {key}| == 0;
    assert fields.Keys == {key} + (fields.Keys - {key});
  }

  lemma FromJsonOfText(key: string, params: Params)
    ensures FromJson(ToJson(key, params)) == Some(Parsed(key, params))
  {
    ParamsOfTexts(params);
    assert forall k :: k in ToJson(key, params) ==> k == key;
  }

  lemma ParsedIsText(fields: map<string, Json>)
    ensures match FromJson(fields)
            case Some(p) => fields == ToJson(p.key, p.params) || p.key == ""
            case None => true
  {
    if |fields| == 1 {
      var key :| key in fields;
      OnlyKey(fields, key);
      if fields[key].Object? && GetParams(fields[key].fields).Some? {
        TextsOfParams(fields[key].fields);
        FromJsonOfText(key, GetParams(fields[key].fields).value);
      }
    }
  }

  /** With every required value present, the pairs that `set` refuses are those with undeclared keys. */
  lemma KeptIsProjected(kind: Kind, params: Params)
    ensures Complete(kind, Kept(kind, params)) <==> Complete(kind, params)
    ensures Complete(kind, params) ==> Kept(kind, params) == Project(kind, params)
  {
  }

  /** A single-key object of strings with a known type decodes exactly when every required key has a value. */
  lemma DecodesToProjection(kind: Kind, params: Params)
    ensures Decode(ToJson(TypeName(kind), params))
            == if Complete(kind, params) then Some(Msg(kind, Project(kind, params))) else None
  {
    FromJsonOfText(TypeName(kind), params);
    NamesAreKinds(TypeName(kind), kind);
    KeptIsProjected(kind, params);
  }

  lemma DecodedWasText(fields: map<string, Json>)
    requires Decode(fields).Some?
    ensures exists params :: fields == ToJson(TypeName(Decode(fields).value.kind), params)
  {
    var p := FromJson(fields).value;
    ParsedIsText(fields);
    NamesAreKinds(p.key, Decode(fields).value.kind);
  }

  /**
    Which objects decode, and to what: one key naming a type, holding strings only with a value for
    every required key; undeclared keys are dropped without an error.
   */
  lemma DecodesExactly(fields: map<string, Json>, m: Msg)
    ensures Decode(fields) == Some(m) <==>
            exists params :: && fields == ToJson(TypeName(m.kind), params)
                             && Complete(m.kind, params)
                             && m.data == Project(m.kind, params)
  {
    forall params | fields == ToJson(TypeName(m.kind), params)
      ensures Decode(fields) == if Complete(m.kind, params) then Some(Msg(m.kind, Project(m.kind, params))) else None
    {
      DecodesToProjection(m.kind, params);
    }
    if Decode(fields) == Some(m) {
      DecodedWasText(fields);
    }
  }

  lemma ProjectIsIdentity(kind: Kind, data: Params)
    ensures Project(kind, data) == data <==> data.Keys <= Declared(kind)
  {
    if data.Keys <= Declared(kind) {
      assert Project(kind, data) == data;
    } else {
      var k :| k in data.Keys && k !in Declared(kind);
      assert k !in Project(kind, data);
    }
  }

  /** A message survives the wire exactly when `set` could have built it and `validate` accepts it. */
  lemma RoundTrip(m: Msg)
    ensures Decode(ToStr(m)) == Some(m) <==>
            m.data.Keys <= Declared(m.kind) && (forall k :: k in Required(m.kind) ==> k in m.data && m.data[k] != "")
    ensures Decode(ToStr(m)) == Some(m) <==> Admissible(m.kind, m.data) && Complete(m.kind, m.data)
  {
    AdmissibleMeans(m.kind, m.data);
    DecodesToProjection(m.kind, m.data);
    ProjectIsIdentity(m.kind, m.data);
  }

  /** `operator==` holds exactly for messages with the same text. */
  lemma SameTextSameMessage(a: Msg, b: Msg)
    ensures ToStr(a) == ToStr(b) <==> a == b
  {
    if ToStr(a) == ToStr(b) {
      FromJsonOfText(TypeName(a.kind), a.data);
      FromJsonOfText(TypeName(b.kind), b.data);
      NamesAreKinds(TypeName(a.kind), a.kind);
      NamesAreKinds(TypeName(b.kind), b.kind);
    }
  }

  /** What create_server_msg returns is complete and buildable, whatever it was given. */
  lemma DecodedIsValid(fields: map<string, Json>)
    ensures match Decode(fields)
            case Some(m) => Admissible(m.kind, m.data) && Complete(m.kind, m.data) && Decode(ToStr(m)) == Some(m)
            case None => true
  {
    if Decode(fields).Some? {
      RoundTrip(Decode(fields).value);
    }
  }

  // ---------- which message carries what ----------

  predicate HasValue(params: Params, key: string) {
    key in params && params[key] != ""
  }

  /** Requests and responses name the anomaly that they belong to. */
  predicate AboutAnomaly(kind: Kind) {
    kind == ActionRequest || kind == ActionResponse
  }

  lemma RequiredValues(kind: Kind, params: Params)
    ensures Complete(kind, params) <==>
            && HasValue(params, "client_name")
            && (kind != RegisterClient && kind != DeregisterClient ==> HasValue(params, "action_name"))
            && (kind == HeartbeatClient || AboutAnomaly(kind) ==> HasValue(params, "instance_id"))
            && (AboutAnomaly(kind) ==> HasValue(params, "anomaly_instance_id"))
            && (kind == ActionResponse ==>
                  && HasValue(params, "anomaly_key") && HasValue(params, "action_data")
                  && HasValue(params, "result_code") && HasValue(params, "result_str"))
  {
  }

  lemma KeptKeys(kind: Kind, key: string)
    ensures key in Declared(kind) <==>
            || key == "client_name"
            || (key == "action_name" && kind != RegisterClient && kind != DeregisterClient)
            || (key == "instance_id" && (kind == HeartbeatClient || AboutAnomaly(kind)))
            || (key in ["anomaly_instance_id", "anomaly_key"] && AboutAnomaly(kind))
            || (key in ["context", "timeout", "heartbeat_interval"] && kind == ActionRequest)
            || (key in ["action_data", "result_code", "result_str"] && kind == ActionResponse)
  {
  }

  /**
    Key by key, what each message must name to be accepted off the wire and what of it is kept: every
    message its client; all but the two session messages an action; heartbeats, requests and responses
    an instance; requests and responses the anomaly, whose key only responses must give; the data and
    result only in responses, the context and the timings only in requests.
   */
  lemma WhatMessagesCarry(kind: Kind, params: Params, key: string)
    ensures Decode(ToJson(TypeName(kind), params)).Some? <==>
            && HasValue(params, "client_name")
            && (kind != RegisterClient && kind != DeregisterClient ==> HasValue(params, "action_name"))
            && (kind == HeartbeatClient || AboutAnomaly(kind) ==> HasValue(params, "instance_id"))
            && (AboutAnomaly(kind) ==> HasValue(params, "anomaly_instance_id"))
            && (kind == ActionResponse ==>
                  && HasValue(params, "anomaly_key") && HasValue(params, "action_data")
                  && HasValue(params, "result_code") && HasValue(params, "result_str"))
    ensures Decode(ToJson(TypeName(kind), params)).Some? ==>
              (key in Decode(ToJson(TypeName(kind), params)).value.data <==>
                && key in params
                && (|| key == "client_name"
                    || (key == "action_name" && kind != RegisterClient && kind != DeregisterClient)
                    || (key == "instance_id" && (kind == HeartbeatClient || AboutAnomaly(kind)))
                    || (key in ["anomaly_instance_id", "anomaly_key"] && AboutAnomaly(kind))
                    || (key in ["context", "timeout", "heartbeat_interval"] && kind == ActionRequest)
                    || (key in ["action_data", "result_code", "result_str"] && kind == ActionResponse)))
  {
    DecodesToProjection(kind, params);
    RequiredValues(kind, params);
    KeptKeys(kind, key);
  }
}
