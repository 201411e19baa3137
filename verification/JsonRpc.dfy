/**
  JSON-RPC messages (src/jsonrpc.rs): the serializers, which add members to a
  map one by one, the classifying deserializer, and what a message looks like
  after a trip through both. JSON values stand for JSON text.
 */
module JsonRpc {
  import opened Wrappers

  datatype Json =
    | Null
    | Bool(flag: bool)
    | Int(number: int)
    | Float(digits: string)                 // a number with a fraction or an exponent, as written
    | Str(text: string)
    | Arr(items: seq<Json>)
    | Obj(members: map<string, Json>)

  newtype i64 = x: int | -0x8000_0000_0000_0000 <= x < 0x8000_0000_0000_0000

  datatype RequestId = Number(n: i64) | Name(s: string)

  datatype ResponseError = ResponseError(code: i64, message: string, data: Option<Json>)

  datatype Message =
    | Request(id: RequestId, method_: string, params: Option<Json>)
    | Notification(method_: string, params: Option<Json>)
    | Response(responseTo: Option<RequestId>, result: Option<Json>, error: Option<ResponseError>)

  // ----- writing

  function IdJson(id: RequestId): Json {
    match id
    case Number(n) => Int(n as int)
    case Name(s) => Str(s)
  }

  /** An error object's members; `data` only when there is some. */
  function ErrorMembers(e: ResponseError): map<string, Json> {
    var members := map["code" := Int(e.code as int), "message" := Str(e.message)];
    if e.data.Some? then members["data" := e.data.value] else members
  }

  method SerializeError(e: ResponseError) returns (j: Json)
    ensures j == Obj(ErrorMembers(e))
    ensures ErrorFrom(j) == Some(e.(data := NonNull(e.data)))
  {
    var members := map["code" := Int(e.code as int), "message" := Str(e.message)];
    if e.data.Some? {
      members := members["data" := e.data.value];
    }
    j := Obj(members);
    ErrorRoundTrip(e);
  }

  /** A message's members: an indeterminate id is null, and an error displaces the result. */
  function Members(m: Message): map<string, Json> {
    match m
    case Request(id, name, params) =>
      var members := map["jsonrpc" := Str("2.0"), "id" := IdJson(id), "method" := Str(name)];
      if params.Some? then members["params" := params.value] else members
    case Notification(name, params) =>
      var members := map["jsonrpc" := Str("2.0"), "method" := Str(name)];
      if params.Some? then members["params" := params.value] else members
    case Response(id, result, error) =>
      var members := map["jsonrpc" := Str("2.0"), "id" := if id.Some? then IdJson(id.value) else Null];
      if error.Some? then members["error" := Obj(ErrorMembers(error.value))]
      else members["result" := if result.Some? then result.value else Null]
  }

  function ToJson(m: Message): Json {
    Obj(Members(m))
  }

  method Serialize(m: Message) returns (j: Json)
    ensures j == ToJson(m)
    ensures FromJson(j) == Some(Canonical(m))
  {
    var members := map["jsonrpc" := Str("2.0")];
    match m {
      case Request(id, name, params) =>
        members := members["id" := IdJson(id)];
        members := members["method" := Str(name)];
        if params.Some? {
          members := members["params" := params.value];
        }
      case Notification(name, params) =>
        members := members["method" := Str(name)];
        if params.Some? {
          members := members["params" := params.value];
        }
      case Response(id, result, error) =>
        members := members["id" := if id.Some? then IdJson(id.value) else Null];
        if error.Some? {
          var failure := SerializeError(error.value);
          members := members["error" := failure];
        } else {
          members := members["result" := if result.Some? then result.value else Null];
        }
    }
    j := Obj(members);
    RoundTrip(m);
  }

  // ----- reading

  /** A field of a derived struct: by name in an object, by position in an array. */
  function Field(j: Json, name: string, position: nat): Option<Json> {
    match j
    case Obj(members) => if name in members then Some(members[name]) else None
    case Arr(items) => if position < |items| then Some(items[position]) else None
    case _ => None
  }

  /** Whether `j` has the outer shape of a struct with `fields` fields. */
  predicate Struct(j: Json, fields: nat) {
    j.Obj? || (j.Arr? && |j.items| <= fields)
  }

  /** An optional field reads a null as absence. */
  function NonNull(field: Option<Json>): Option<Json> {
    if field == Some(Null) then None else field
  }

  predicate IsI64(j: Json) {
    j.Int? && -0x8000_0000_0000_0000 <= j.number < 0x8000_0000_0000_0000
  }

  function IdFrom(j: Json): Option<RequestId> {
    if IsI64(j) then Some(Number(j.number as i64)) else if j.Str? then Some(Name(j.text)) else None
  }

  function ErrorFrom(j: Json): Option<ResponseError> {
    if !Struct(j, 3) then None
    else match (Field(j, "code", 0), Field(j, "message", 1))
      case (Some(code), Some(Str(text))) =>
        if IsI64(code) then Some(ResponseError(code.number as i64, text, NonNull(Field(j, "data", 2)))) else None
      case _ => None
  }

  /** The flattened view: every known field must have its type before anything is classified. */
  predicate WellFormed(j: Json) {
    && Struct(j, 5)
    && (var name := NonNull(Field(j, "method", 1)); name.Some? ==> name.value.Str?)
    && (var error := NonNull(Field(j, "error", 4)); error.Some? ==> ErrorFrom(error.value).Some?)
  }

  function FromJson(j: Json): Option<Message> {
    if !WellFormed(j) then None
    else
      var id := NonNull(Field(j, "id", 0));
      var name := NonNull(Field(j, "method", 1));
      var params := NonNull(Field(j, "params", 2));
      if id.Some? && IdFrom(id.value).None? then None
      else if name.Some? then
        if id.Some? then Some(Request(IdFrom(id.value).value, name.value.text, params))
        else Some(Notification(name.value.text, params))
      else
        var error := NonNull(Field(j, "error", 4));
        Some(Response(
          if id.Some? then IdFrom(id.value) else None,
          NonNull(Field(j, "result", 3)),
          if error.Some? then ErrorFrom(error.value) else None))
  }

  // ----- the two together

  /** What a message means once nulls are absences and an error displaces the result. */
  function Canonical(m: Message): Message {
    match m
    case Request(id, name, params) => Request(id, name, NonNull(params))
    case Notification(name, params) => Notification(name, NonNull(params))
    case Response(id, result, error) =>
      if error.Some? then Response(id, None, Some(error.value.(data := NonNull(error.value.data))))
      else Response(id, NonNull(result), None)
  }

  lemma IdRoundTrip(id: RequestId)
    ensures IdJson(id) != Null && IdFrom(IdJson(id)) == Some(id)
  {
  }

  lemma ErrorRoundTrip(e: ResponseError)
    ensures ErrorFrom(Obj(ErrorMembers(e))) == Some(e.(data := NonNull(e.data)))
  {
    var members := ErrorMembers(e);
    assert "code" != "message" && "data" != "message" && "code"[0] == 'c' && "data"[0] == 'd';
    assert Field(Obj(members), "code", 0) == Some(Int(e.code as int));
    assert Field(Obj(members), "message", 1) == Some(Str(e.message));
    assert Field(Obj(members), "data", 2) == e.data;
  }

  /** Writing and reading back yields the message itself, up to nulls and a displaced result. */
  lemma RoundTrip(m: Message)
    ensures FromJson(ToJson(m)) == Some(Canonical(m))
  {
    NamesDiffer();
    var j := ToJson(m);
    match m {
      case Request(id, name, params) =>
        IdRoundTrip(id);
        assert Field(j, "params", 2) == params;
      case Notification(name, params) =>
        assert Field(j, "params", 2) == params;
      case Response(id, result, error) =>
        if id.Some? {
          IdRoundTrip(id.value);
        }
        if error.Some? {
          ErrorRoundTrip(error.value);
          hide ErrorFrom, ErrorMembers;
          assert Field(j, "error", 4) == Some(Obj(ErrorMembers(error.value)));
        }
    }
  }

  lemma NamesDiffer()
    ensures "jsonrpc" != "id" && "jsonrpc" != "method" && "jsonrpc" != "params" && "jsonrpc" != "result"
    ensures "jsonrpc" != "error" && "id" != "method" && "id" != "params" && "id" != "result" && "id" != "error"
    ensures "method" != "params" && "method" != "result" && "method" != "error"
    ensures "params" != "result" && "params" != "error" && "result" != "error"
  {
    assert "method"[0] == 'm' && "params"[0] == 'p' && "result"[0] == 'r';
  }

  /**
    The members a message is written with, no more and no fewer: always the
    version; the id of a request, and of a response even when it is unknown;
    params only when there are some; and in a response exactly one of result and
    error, with a missing result written as null.
   */
  lemma WrittenMembers(m: Message)
    ensures ToJson(m).Obj?
    ensures var o := ToJson(m).members;
      "jsonrpc" in o && o["jsonrpc"] == Str("2.0") &&
      match m
      case Request(id, name, params) =>
        && o.Keys == {"jsonrpc", "id", "method"} + (if params.Some? then {"params"} else {})
        && o["id"] == IdJson(id) && o["method"] == Str(name) && (params.Some? ==> o["params"] == params.value)
      case Notification(name, params) =>
        && o.Keys == {"jsonrpc", "method"} + (if params.Some? then {"params"} else {})
        && o["method"] == Str(name) && (params.Some? ==> o["params"] == params.value)
      case Response(id, result, error) =>
        && o.Keys == {"jsonrpc", "id", if error.Some? then "error" else "result"}
        && o["id"] == (match id case None => Null case Some(Number(n)) => Int(n as int) case Some(Name(t)) => Str(t))
        && (error.None? ==> o["result"] == match result case None => Null case Some(value) => value)
        && (error.Some? ==> o["error"] == Obj(ErrorMembers(error.value)))
  {
    NamesDiffer();
  }

  /** An error is written as its code, its message, and its data only when there is some. */
  lemma WrittenError(e: ResponseError)
    ensures var o := ErrorMembers(e);
      && o.Keys == {"code", "message"} + (if e.data.Some? then {"data"} else {})
      && o["code"] == Int(e.code as int) && o["message"] == Str(e.message)
      && (e.data.Some? ==> o["data"] == e.data.value)
  {
    assert "code" != "message" && "data" != "message" && "code"[0] == 'c' && "data"[0] == 'd';
  }

  /** Read from an array, the fields come in the order of the struct: id, method, params, result, error. */
  lemma ArraysReadInOrder(id: Json, name: Json, params: Json, result: Json, error: Json)
    ensures FromJson(Arr([id, name, params, result, error]))
      == FromJson(Obj(map["id" := id, "method" := name, "params" := params, "result" := result, "error" := error]))
  {
    NamesDiffer();
    var items := Arr([id, name, params, result, error]);
    var members := Obj(map["id" := id, "method" := name, "params" := params, "result" := result, "error" := error]);
    assert Field(items, "id", 0) == Field(members, "id", 0);
    assert Field(items, "method", 1) == Field(members, "method", 1);
    assert Field(items, "params", 2) == Field(members, "params", 2);
    assert Field(items, "result", 3) == Field(members, "result", 3);
    assert Field(items, "error", 4) == Field(members, "error", 4);
    hide Field, ErrorFrom;
  }

  /** Fields that end the array early are read as absent, and longer arrays are refused. */
  lemma ShortAndLongArrays(items: seq<Json>)
    ensures |items| < 5 ==> FromJson(Arr(items)) == FromJson(Arr(items + [Null]))
    ensures |items| > 5 ==> FromJson(Arr(items)) == None
  {
    if |items| < 5 {
      var j, k := Arr(items), Arr(items + [Null]);
      assert forall name: string, position: nat :: NonNull(Field(k, name, position)) == NonNull(Field(j, name, position));
      hide Field, ErrorFrom;
    }
  }

  /** No member is an explicit null, and no response holds a result beside its error. */
  predicate Plain(m: Message) {
    match m
    case Request(_, _, params) => params != Some(Null)
    case Notification(_, params) => params != Some(Null)
    case Response(_, result, error) =>
      result != Some(Null) && (error.Some? ==> result.None? && error.value.data != Some(Null))
  }

  /** The trip loses nothing exactly for plain messages, and a second trip never loses more. */
  lemma LosesNothingIffPlain(m: Message)
    ensures FromJson(ToJson(m)) == Some(m) <==> Plain(m)
    ensures Plain(Canonical(m)) && Canonical(Canonical(m)) == Canonical(m)
  {
    RoundTrip(m);
  }

  /**
    How an incoming value is classified, for every JSON value: a request has a
    method and an id, a notification a method and no id, and a response no
    method; an id that is neither a 64-bit integer nor a string refuses the lot.
   */
  lemma Classification(j: Json)
    ensures var id := NonNull(Field(j, "id", 0));
      var named := NonNull(Field(j, "method", 1)).Some?;
      var readable := WellFormed(j) && (id.Some? ==> IsI64(id.value) || id.value.Str?);
      && (FromJson(j).Some? <==> readable)
      && (readable ==>
           var m := FromJson(j).value;
           && (m.Request? <==> named && id.Some?)
           && (m.Notification? <==> named && id.None?)
           && (m.Response? <==> !named)
           && (m.Request? ==> id.value == IdJson(m.id))
           && (m.Response? ==> id == if m.responseTo.Some? then Some(IdJson(m.responseTo.value)) else None))
  {
    if NonNull(Field(j, "id", 0)).Some? {
      var id := NonNull(Field(j, "id", 0)).value;
      assert IdFrom(id).Some? ==> IdJson(IdFrom(id).value) == id;
    }
  }

  /** A member that is missing or null, or of the wanted shape. */
  predicate MissingOr(o: map<string, Json>, name: string, shape: Json -> bool) {
    name in o && o[name] != Null ==> shape(o[name])
  }

  predicate IdShape(j: Json) {
    j.Str? || (j.Int? && -0x8000_0000_0000_0000 <= j.number < 0x8000_0000_0000_0000)
  }

  /** An error has an integer code and a text, by name or in this order, and perhaps data. */
  predicate ErrorShape(j: Json) {
    match j
    case Obj(o) => "code" in o && CodeShape(o["code"]) && "message" in o && o["message"].Str?
    case Arr(items) => 2 <= |items| <= 3 && CodeShape(items[0]) && items[1].Str?
    case _ => false
  }

  predicate CodeShape(j: Json) {
    j.Int? && -0x8000_0000_0000_0000 <= j.number < 0x8000_0000_0000_0000
  }

  /** Which objects are messages, told on their members alone. */
  lemma ReadableObjects(o: map<string, Json>)
    ensures FromJson(Obj(o)).Some? <==>
      && MissingOr(o, "id", IdShape)
      && MissingOr(o, "method", (j: Json) => j.Str?)
      && MissingOr(o, "error", ErrorShape)
  {
  }

  /** Nothing but objects and arrays is a message. */
  lemma OthersAreNoMessages(j: Json)
    ensures !j.Obj? && !j.Arr? ==> FromJson(j) == None
  {
  }

  /** No member of the message is an explicit null. */
  predicate NoNulls(m: Message) {
    match m
    case Request(_, _, params) => params != Some(Null)
    case Notification(_, params) => params != Some(Null)
    case Response(_, result, error) =>
      result != Some(Null) && (error.Some? ==> error.value.data != Some(Null))
  }

  /** Whatever is read holds no explicit null; it is plain unless a response carries both members. */
  lemma ReadIsPlain(j: Json)
    requires FromJson(j).Some?
    ensures var m := FromJson(j).value;
      NoNulls(m) && (Plain(m) <==> !(m.Response? && m.result.Some? && m.error.Some?))
  {
    var error := NonNull(Field(j, "error", 4));
    if error.Some? && ErrorFrom(error.value).Some? {
      assert ErrorFrom(error.value).value.data != Some(Null);
    }
  }

  /**
    An unknown member, such as the version string, changes nothing.
   */
  lemma UnknownMembersIgnored(members: map<string, Json>, name: string, value: Json)
    requires name !in {"id", "method", "params", "result", "error"}
    ensures FromJson(Obj(members[name := value])) == FromJson(Obj(members))
  {
    var more := Obj(members[name := value]);
    assert Field(more, "id", 0) == Field(Obj(members), "id", 0);
    assert Field(more, "method", 1) == Field(Obj(members), "method", 1);
    assert Field(more, "params", 2) == Field(Obj(members), "params", 2);
    assert Field(more, "result", 3) == Field(Obj(members), "result", 3);
    assert Field(more, "error", 4) == Field(Obj(members), "error", 4);
  }
}
