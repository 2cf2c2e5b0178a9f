/** The MPI server: one worker that accepts connections in turn, reads a request, runs at most one
    handler and writes one response. The loop, which reuses its locals from one connection to the
    next, is proved against a specification in which each response depends on its own request and
    on the registry alone. */
module MpiServer {
  import opened Base
  import opened HttpReading
  import opened HttpReadingProperties
  import opened HttpFraming
  import opened HttpRequests
  import R = Registry
  import ModulesManager

  const MAX_ERROR_LENGTH := 16

  /** What one accepted connection supplies: the bytes the client sends, how many of them a single
      read of the body can return, and the environment's answers should modules have to be loaded
      or a uuid be generated meanwhile. `block` is what memory happens to hold where a block of no
      bytes is allocated. */
  datatype Connection = Connection(
    bytes: string, burst: nat, found: seq<R.Module>, config: Option<R.Config>, uuid: string, block: string)

  /** A call that a request asks for. */
  datatype Call =
    | CallOpen(client: string, size: int)
    | CallClose(session: string)
    | CallSet(session: string, component: string, object_: string, payload: string)
    | CallGet(session: string, component: string, object_: string)
    | CallSetDesired(session: string, payload: string)
    | CallGetReported(session: string)

  /** What HandleMpiCall leaves behind: the status and, when not NULL, the response buffer. */
  datatype Answer = Answer(status: int, body: Option<string>)

  // ---------- Specification ----------

  /** A required member that has to be a string. */
  function Text(members: seq<(string, Json)>, key: string): Option<string> {
    match Member(members, key)
    case Some(String(t)) => Some(t)
    case _ => None
  }

  function Payload(codec: Codec, members: seq<(string, Json)>): Option<string> {
    match Member(members, "Payload")
    case None => None
    case Some(v) => codec.serialize(v)
  }

  /** The call a request stands for, or the status that refuses it. */
  datatype Decoded = Refused(status: int) | Accepted(call: Call)

  datatype Entry = Open | Close | Set | Get | SetDesired | GetReported | Unknown

  function EntryOf(uri: string): Entry {
    if uri == "MpiOpen" then Open
    else if uri == "MpiClose" then Close
    else if uri == "MpiSet" then Set
    else if uri == "MpiGet" then Get
    else if uri == "MpiSetDesired" then SetDesired
    else if uri == "MpiGetReported" then GetReported
    else Unknown
  }

  function Decode(codec: Codec, uri: string, body: Option<string>): Decoded {
    if body.None? then Refused(HTTP_BAD_REQUEST)
    else
      match codec.parse(body.value)
      case Some(Object(m)) => DecodeObject(codec, EntryOf(uri), m)
      case _ => Refused(HTTP_BAD_REQUEST)
  }

  function DecodeObject(codec: Codec, entry: Entry, m: seq<(string, Json)>): Decoded {
    var session := Text(m, "ClientSession");
    match entry
    case Open => DecodeOpen(codec, m)
    case Close =>
      if session.Some? then Accepted(CallClose(session.value)) else Refused(HTTP_BAD_REQUEST)
    case Set =>
      var component, object_, payload := Text(m, "ComponentName"), Text(m, "ObjectName"), Payload(codec, m);
      if session.Some? && component.Some? && object_.Some? && payload.Some?
      then Accepted(CallSet(session.value, component.value, object_.value, payload.value)) else Refused(HTTP_BAD_REQUEST)
    case Get =>
      var component, object_ := Text(m, "ComponentName"), Text(m, "ObjectName");
      if session.Some? && component.Some? && object_.Some?
      then Accepted(CallGet(session.value, component.value, object_.value)) else Refused(HTTP_BAD_REQUEST)
    case SetDesired =>
      var payload := Payload(codec, m);
      if session.Some? && payload.Some? then Accepted(CallSetDesired(session.value, payload.value)) else Refused(HTTP_BAD_REQUEST)
    case GetReported =>
      if session.Some? then Accepted(CallGetReported(session.value)) else Refused(HTTP_BAD_REQUEST)
    case Unknown => Refused(HTTP_NOT_FOUND)
  }

  function DecodeOpen(codec: Codec, m: seq<(string, Json)>): Decoded {
    var client := Text(m, "ClientName");
    match Member(m, "MaxPayloadSizeBytes")
    case Some(Number(x)) =>
      if client.Some? && ToInt(codec, x) >= 0 then Accepted(CallOpen(client.value, ToInt(codec, x))) else Refused(HTTP_BAD_REQUEST)
    case _ => Refused(HTTP_BAD_REQUEST)
  }

  /** The quoted status that goes out with a failure, cut to its buffer. */
  function ErrorText(mpiStatus: Int): string {
    var text := "\"" + SignedDecimal(mpiStatus) + "\"";
    var room := 4 + MAX_ERROR_LENGTH;
    if |text| <= room then text else text[..room]
  }

  function Outcome(mpiStatus: Int, body: Option<string>): Answer {
    if mpiStatus == R.MPI_OK then Answer(HTTP_OK, body) else Answer(HTTP_INTERNAL_SERVER_ERROR, Some(ErrorText(mpiStatus)))
  }

  /** The registry operation behind a call. */
  function OpOf(call: Call, uuid: string): R.Op {
    match call
    case CallOpen(client, size) => R.OpOpen(Some(client), size, uuid)
    case CallClose(session) => R.OpClose(Some(session))
    case CallSet(session, component, object_, payload) => R.OpSet(Some(session), Some(component), Some(object_), Some(payload), |payload|)
    case CallGet(session, component, object_) => R.OpGet(Some(session), Some(component), Some(object_))
    case CallSetDesired(session, payload) => R.OpSetDesired(Some(session), Some(payload), |payload|)
    case CallGetReported(session) => R.OpGetReported(Some(session))
  }

  function AnswerTo(env: R.Env, s: R.State, call: Call, uuid: string): Answer {
    match call
    case CallOpen(client, size) =>
      (match R.MpiOpen(env, s, Some(client), size, uuid).1
       case Some(u) => Answer(HTTP_OK, Some("\"" + u + "\""))
       case None => Answer(HTTP_INTERNAL_SERVER_ERROR, None))
    case CallClose(session) => Answer(HTTP_OK, None)
    case CallSet(session, component, object_, payload) =>
      Outcome(R.MpiSet(env, s, Some(session), Some(component), Some(object_), Some(payload), |payload|).1, None)
    case CallGet(session, component, object_) =>
      var reply := R.MpiGet(env, s, Some(session), Some(component), Some(object_)).1;
      Outcome(reply.status, reply.payload)
    case CallSetDesired(session, payload) =>
      Outcome(R.MpiSetDesired(env, s, Some(session), Some(payload), |payload|).1, None)
    case CallGetReported(session) =>
      var reply := R.MpiGetReported(env, s, Some(session)).1;
      Outcome(reply.status, reply.payload)
  }

  /** A request as read from the socket; Unreadable when no URI comes or the body is cut short. */
  datatype Request = Unreadable | Request(uri: string, body: Option<string>)

  function ParseRequest(bytes: string, burst: nat, block: string): Request {
    var (uri, rest) := ReadUri(bytes);
    if uri.None? then Unreadable
    else
      var (length, tail) := ReadHttpContentLength(rest);
      if length == 0 then Request(uri.value, None)
      else
        var body := BodyRead(tail, length, burst, block);
        if body.None? then Unreadable else Request(uri.value, body)
  }

  /** The body of an announced length other than 0, None when it cannot be had whole. A length of -1
      asks for a block of no bytes, which can be had, and then for a read that fails with -1: the body
      is whatever the block holds. Other negative lengths, and the largest int, whose successor
      overflows, ask for a block that cannot be had. */
  function BodyRead(tail: string, length: Int, burst: nat, block: string): Option<string> {
    if length == -1 then Some(CString(block))
    else if 0 < length < INT_MAX && length <= burst && length <= |tail| then Some(CString(tail[..length]))
    else None
  }

  function CallIn(codec: Codec, conn: Connection): Decoded {
    match ParseRequest(conn.bytes, conn.burst, conn.block)
    case Unreadable => Refused(HTTP_BAD_REQUEST)
    case Request(uri, body) => Decode(codec, uri, body)
  }

  function AnswerFor(env: R.Env, s: R.State, conn: Connection): Answer {
    match CallIn(env.codec, conn)
    case Refused(status) => Answer(status, None)
    case Accepted(call) => AnswerTo(env, R.Load(s, conn.found, conn.config), call, conn.uuid)
  }

  /** The bytes written for an answer, None when no buffer can be had for them. */
  function Written(a: Answer): Option<string>
    requires a.status >= 0
  {
    match a.body
    case None => Response(a.status, 0, "")
    case Some(text) => if |text| <= INT_MAX then Response(a.status, |text|, text) else None
  }

  /** The registry after one connection: modules are loaded if need be, then an accepted call runs. */
  function After(env: R.Env, s: R.State, conn: Connection): R.State {
    var loaded := R.Load(s, conn.found, conn.config);
    match CallIn(env.codec, conn)
    case Refused(_) => loaded
    case Accepted(call) => R.Step(env, loaded, OpOf(call, conn.uuid))
  }

  /** What is written to one client: it depends on the registry and on that client's connection. */
  function ResponseFor(env: R.Env, s: R.State, conn: Connection): Option<string> {
    AnswerStatus(env, s, conn);
    Written(AnswerFor(env, s, conn))
  }

  /** The handlers a connection runs: one if its request is accepted, none otherwise. */
  function CallsOf(codec: Codec, conn: Connection): (calls: seq<Call>)
    ensures |calls| <= 1
  {
    match CallIn(codec, conn) case Refused(_) => [] case Accepted(call) => [call]
  }

  /** What serving one connection means: the next registry, the response and the handlers run, none
      of which can depend on an earlier connection. */
  datatype Service = Service(
    after: (R.State, Connection) -> R.State,
    response: (R.State, Connection) -> Option<string>,
    calls: Connection -> seq<Call>)

  function ServiceOf(env: R.Env): Service {
    Service((s, conn) => After(env, s, conn), (s, conn) => ResponseFor(env, s, conn), conn => CallsOf(env.codec, conn))
  }

  ghost predicate Describes(service: Service, env: R.Env) {
    && (forall s, conn {:trigger After(env, s, conn)} :: service.after(s, conn) == After(env, s, conn))
    && (forall s, conn {:trigger ResponseFor(env, s, conn)} :: service.response(s, conn) == ResponseFor(env, s, conn))
    && (forall conn {:trigger CallsOf(env.codec, conn)} :: service.calls(conn) == CallsOf(env.codec, conn))
  }

  lemma ServiceDescribes(env: R.Env)
    ensures Describes(ServiceOf(env), env)
  {
  }

  /** The registry after a series of connections. */
  function Serve(service: Service, conns: seq<Connection>): R.State {
    if conns == [] then R.Empty else service.after(Serve(service, conns[..|conns| - 1]), conns[|conns| - 1])
  }

  /** One response per connection, each to the registry the earlier connections left. */
  function Responses(service: Service, conns: seq<Connection>): (r: seq<Option<string>>)
    ensures |r| == |conns|
  {
    if conns == [] then []
    else
      var n := |conns| - 1;
      Responses(service, conns[..n]) + [service.response(Serve(service, conns[..n]), conns[n])]
  }

  function Handlers(service: Service, conns: seq<Connection>): (r: seq<seq<Call>>)
    ensures |r| == |conns|
  {
    if conns == [] then [] else Handlers(service, conns[..|conns| - 1]) + [service.calls(conns[|conns| - 1])]
  }

  predicate IsHttpStatus(status: int) {
    status == HTTP_OK || status == HTTP_BAD_REQUEST || status == HTTP_NOT_FOUND || status == HTTP_INTERNAL_SERVER_ERROR
  }

  lemma AnswerStatus(env: R.Env, s: R.State, conn: Connection)
    ensures IsHttpStatus(AnswerFor(env, s, conn).status)
  {
    if CallIn(env.codec, conn).Refused? {
      RefusalStatus(env.codec, conn);
    }
  }

  lemma RefusalStatus(codec: Codec, conn: Connection)
    ensures CallIn(codec, conn).Refused? ==> CallIn(codec, conn).status in {HTTP_BAD_REQUEST, HTTP_NOT_FOUND}
  {
    match ParseRequest(conn.bytes, conn.burst, conn.block) {
      case Unreadable =>
      case Request(uri, body) =>
        if body.Some? {
          match codec.parse(body.value) {
            case Some(Object(m)) => RefusedObject(codec, EntryOf(uri), m);
            case _ =>
          }
        }
    }
  }

  lemma RefusedObject(codec: Codec, entry: Entry, m: seq<(string, Json)>)
    ensures DecodeObject(codec, entry, m).Refused? ==> DecodeObject(codec, entry, m).status in {HTTP_BAD_REQUEST, HTTP_NOT_FOUND}
  {
  }

  /** What the caller's response pointers point to: the buffer, None for NULL, and its size. */
  datatype Out = Out(body: Option<string>, size: nat)

  /** What the caller finds there afterwards: body and size of the answer, or what was there before
      when the answer has no body. */
  function Into(out0: Out, body: Option<string>): Out {
    if body.Some? then Out(body, |body.value|) else out0
  }

  /** What a handler owes: a refused request leaves the registry alone and runs nothing; an accepted
      one runs its call once. */
  ghost predicate Handled(env: R.Env, before: R.State, after: R.State, d: Decoded, uuid: string, out0: Out, status: int, out: Out, calls: seq<Call>) {
    match d
    case Refused(refusal) => calls == [] && after == before && status == refusal && out == out0
    case Accepted(call) => calls == [call] && Invoked(env, before, after, call, uuid, out0, status, out)
  }

  // ---------- The status in an error response ----------

  /** The number that a text of digits stands for. */
  function DigitsOf(s: string): Option<int> {
    if s == [] then Some(0)
    else
      var n := |s| - 1;
      match DigitsOf(s[..n])
      case None => None
      case Some(value) => if IsDigit(s[n]) then Some(10 * value + DigitValue(s[n])) else None
  }

  /** atoi of a printed int. */
  function SignedValue(s: string): Option<int> {
    if s == [] || s == "-" then None
    else if s[0] != '-' then DigitsOf(s)
    else
      match DigitsOf(s[1..])
      case None => None
      case Some(value) => Some(-value)
  }

  /** What a client makes of an error response: the number in the quoted string. */
  function StatusIn(text: string): Option<int> {
    if |text| < 2 || text[0] != '"' || text[|text| - 1] != '"' then None else SignedValue(text[1..|text| - 1])
  }

  lemma {:induction false} DigitsBack(n: nat)
    ensures DigitsOf(Decimal(n)) == Some(n)
    decreases n
  {
    var s := Decimal(n);
    if n < 10 {
      assert s[..0] == [];
    } else {
      DigitsBack(n / 10);
      assert s[..|s| - 1] == Decimal(n / 10);
    }
  }

  lemma SignedValueBack(n: int)
    ensures SignedValue(SignedDecimal(n)) == Some(n)
  {
    if n < 0 {
      DigitsBack(-n);
      assert SignedDecimal(n)[1..] == Decimal(-n);
    } else {
      DigitsBack(n);
    }
  }

  /** The error text always fits its buffer, so the client gets the status back, whatever it is. */
  lemma ErrorReadBack(mpiStatus: Int)
    ensures ErrorText(mpiStatus) == "\"" + SignedDecimal(mpiStatus) + "\""
    ensures StatusIn(ErrorText(mpiStatus)) == Some(mpiStatus)
  {
    var value: int := mpiStatus;
    IntLength(if value < 0 then -value else value);
    var text := ErrorText(mpiStatus);
    assert text[1..|text| - 1] == SignedDecimal(mpiStatus);
    SignedValueBack(mpiStatus);
  }

  // ---------- Implementation ----------

  /** The response stands when the call succeeded. Otherwise it is replaced by a text, with its size,
      from which the client gets the status back. */
  method SetErrorResponse(mpiStatus: Int, out0: Out) returns (status: int, out: Out)
    ensures status == HTTP_OK <==> mpiStatus == R.MPI_OK
    ensures mpiStatus == R.MPI_OK ==> out == out0
    ensures mpiStatus != R.MPI_OK ==>
              && status == HTTP_INTERNAL_SERVER_ERROR
              && out.body == Some(ErrorText(mpiStatus)) && out.size == |ErrorText(mpiStatus)|
              && StatusIn(out.body.value) == Some(mpiStatus)
  {
    status, out := HTTP_OK, out0;
    if mpiStatus != R.MPI_OK {
      status := HTTP_INTERNAL_SERVER_ERROR;
      out := Out(Some(ErrorText(mpiStatus)), |ErrorText(mpiStatus)|);
      ErrorReadBack(mpiStatus);
    }
  }

  /** `out0` is what the caller's pointers point to; it keeps its value where the source does not
      write through them. `calls` logs the handlers that were invoked. */
  method HandleMpiCall(platform: ModulesManager.Platform, uri: Option<string>, requestBody: Option<string>, out0: Out, uuid: string)
    returns (status: int, out: Out, calls: seq<Call>)
    requires platform.Valid()
    modifies platform, platform.spine
    ensures platform.Valid() && (forall n :: n in platform.spine ==> n in old(platform.spine) || fresh(n))
    ensures uri.None? ==> platform.View() == old(platform.View()) && status == HTTP_BAD_REQUEST && out == out0 && calls == []
    ensures uri.Some? ==>
              Handled(platform.env, old(platform.View()), platform.View(), Decode(platform.env.codec, uri.value, requestBody), uuid,
                      out0, status, out, calls)
  {
    status, out, calls := HTTP_OK, out0, [];
    if uri.None? || requestBody.None? {
      status := HTTP_BAD_REQUEST;
      return;
    }
    var root := platform.env.codec.parse(requestBody.value);
    if root.None? || !root.value.Object? {
      status := HTTP_BAD_REQUEST;
      return;
    }
    var m := root.value.members;
    var entry := EntryOf(uri.value);
    if entry == Open {
      status, out, calls := HandleOpen(platform, m, out, uuid);
    } else if entry != Unknown {
      var client := Member(m, "ClientSession");
      if client.None? || !client.value.String? {
        status := HTTP_BAD_REQUEST;
      } else if entry == Close {
        calls := [CallClose(client.value.text)];
        platform.MpiClose(Some(client.value.text));
      } else {
        status, out, calls := HandleSession(platform, entry, client.value.text, m, out, uuid);
      }
    } else {
      status := HTTP_NOT_FOUND;
    }
  }

  method HandleOpen(platform: ModulesManager.Platform, m: seq<(string, Json)>, out0: Out, uuid: string)
    returns (status: int, out: Out, calls: seq<Call>)
    requires platform.Valid()
    modifies platform
    ensures platform.Valid() && (forall n :: n in platform.spine ==> n in old(platform.spine) || fresh(n))
    ensures Handled(platform.env, old(platform.View()), platform.View(), DecodeOpen(platform.env.codec, m), uuid, out0, status, out, calls)
  {
    status, out, calls := HTTP_OK, out0, [];
    var client := Member(m, "ClientName");
    var size := Member(m, "MaxPayloadSizeBytes");
    if client.None? || !client.value.String? {
      status := HTTP_BAD_REQUEST;
    } else if size.None? || !size.value.Number? || ToInt(platform.env.codec, size.value.value) < 0 {
      status := HTTP_BAD_REQUEST;
    } else {
      var maxPayloadSizeBytes := ToInt(platform.env.codec, size.value.value);
      calls := [CallOpen(client.value.text, maxPayloadSizeBytes)];
      var handle := platform.MpiOpen(Some(client.value.text), maxPayloadSizeBytes, uuid);
      if handle.Some? {
        out := Into(out, Some("\"" + handle.value + "\""));
      } else {
        status := HTTP_INTERNAL_SERVER_ERROR;
      }
    }
  }

  /** The entry points that name an open session and leave it open. */
  method HandleSession(platform: ModulesManager.Platform, entry: Entry, client: string, m: seq<(string, Json)>, out0: Out, ghost uuid: string)
    returns (status: int, out: Out, calls: seq<Call>)
    requires platform.Valid() && Text(m, "ClientSession") == Some(client)
    requires entry in {Set, Get, SetDesired, GetReported}
    modifies platform`trace
    ensures platform.Valid()
    ensures Handled(platform.env, old(platform.View()), platform.View(), DecodeObject(platform.env.codec, entry, m), uuid,
                      out0, status, out, calls)
  {
    status, out, calls := HTTP_OK, out0, [];
    if entry == Set || entry == Get {
      var component, object_ := Member(m, "ComponentName"), Member(m, "ObjectName");
      if component.None? || !component.value.String? || object_.None? || !object_.value.String? {
        status := HTTP_BAD_REQUEST;
        return;
      }
      if entry == Set {
        var payload := Payload(platform.env.codec, m);
        if payload.None? {
          status := HTTP_BAD_REQUEST;
          return;
        }
        calls := [CallSet(client, component.value.text, object_.value.text, payload.value)];
      } else {
        calls := [CallGet(client, component.value.text, object_.value.text)];
      }
    } else if entry == SetDesired {
      var payload := Payload(platform.env.codec, m);
      if payload.None? {
        status := HTTP_BAD_REQUEST;
        return;
      }
      calls := [CallSetDesired(client, payload.value)];
    } else {
      calls := [CallGetReported(client)];
    }
    status, out := Invoke(platform, calls[0], out, uuid);
  }

  /** Invokes one of those entry points and turns its result into a status and a response. */
  method Invoke(platform: ModulesManager.Platform, call: Call, out0: Out, ghost uuid: string)
    returns (status: int, out: Out)
    requires platform.Valid() && !call.CallOpen? && !call.CallClose?
    modifies platform`trace
    ensures platform.Valid() && Invoked(platform.env, old(platform.View()), platform.View(), call, uuid, out0, status, out)
  {
    match call
    case CallSet(_, _, _, _) => status, out := InvokeSet(platform, call, out0, uuid);
    case CallGet(_, _, _) => status, out := InvokeGet(platform, call, out0, uuid);
    case CallSetDesired(_, _) => status, out := InvokeSetDesired(platform, call, out0, uuid);
    case CallGetReported(_) => status, out := InvokeGetReported(platform, call, out0, uuid);
  }

  /** The registry made the step of this call and the caller gets its answer. */
  ghost predicate Invoked(env: R.Env, before: R.State, after: R.State, call: Call, uuid: string, out0: Out, status: int, out: Out) {
    var a := AnswerTo(env, before, call, uuid);
    after == R.Step(env, before, OpOf(call, uuid)) && status == a.status && out == Into(out0, a.body)
  }

  method InvokeSet(platform: ModulesManager.Platform, call: Call, out0: Out, ghost uuid: string)
    returns (status: int, out: Out)
    requires platform.Valid() && call.CallSet?
    modifies platform`trace
    ensures platform.Valid() && Invoked(platform.env, old(platform.View()), platform.View(), call, uuid, out0, status, out)
  {
    ghost var before := platform.View();
    var st := platform.MpiSet(Some(call.session), Some(call.component), Some(call.object_), Some(call.payload), |call.payload|);
    assert platform.View() == R.Step(platform.env, before, OpOf(call, uuid));
    assert AnswerTo(platform.env, before, call, uuid) == Outcome(st, None);
    status, out := SetErrorResponse(st, out0);
  }

  method InvokeGet(platform: ModulesManager.Platform, call: Call, out0: Out, ghost uuid: string)
    returns (status: int, out: Out)
    requires platform.Valid() && call.CallGet?
    modifies platform`trace
    ensures platform.Valid() && Invoked(platform.env, old(platform.View()), platform.View(), call, uuid, out0, status, out)
  {
    ghost var before := platform.View();
    var reply := platform.MpiGet(Some(call.session), Some(call.component), Some(call.object_));
    assert platform.View() == R.Step(platform.env, before, OpOf(call, uuid));
    assert AnswerTo(platform.env, before, call, uuid) == Outcome(reply.status, reply.payload);
    status, out := SetErrorResponse(reply.status, Into(out0, reply.payload));
  }

  method InvokeSetDesired(platform: ModulesManager.Platform, call: Call, out0: Out, ghost uuid: string)
    returns (status: int, out: Out)
    requires platform.Valid() && call.CallSetDesired?
    modifies platform`trace
    ensures platform.Valid() && Invoked(platform.env, old(platform.View()), platform.View(), call, uuid, out0, status, out)
  {
    ghost var before := platform.View();
    var st := platform.MpiSetDesired(Some(call.session), Some(call.payload), |call.payload|);
    assert platform.View() == R.Step(platform.env, before, OpOf(call, uuid));
    assert AnswerTo(platform.env, before, call, uuid) == Outcome(st, None);
    status, out := SetErrorResponse(st, out0);
  }

  method InvokeGetReported(platform: ModulesManager.Platform, call: Call, out0: Out, ghost uuid: string)
    returns (status: int, out: Out)
    requires platform.Valid() && call.CallGetReported?
    modifies platform`trace
    ensures platform.Valid() && Invoked(platform.env, old(platform.View()), platform.View(), call, uuid, out0, status, out)
  {
    ghost var before := platform.View();
    var reply := platform.MpiGetReported(Some(call.session));
    assert platform.View() == R.Step(platform.env, before, OpOf(call, uuid));
    assert AnswerTo(platform.env, before, call, uuid) == Outcome(reply.status, reply.payload);
    status, out := SetErrorResponse(reply.status, Into(out0, reply.payload));
  }

  // ---------- The worker loop ----------

  /** The worker's local variables. They live as long as the worker, not as long as a connection. */
  datatype Locals = Locals(uri: Option<string>, contentLength: Int, requestBody: Option<string>, status: int,
                           responseBody: Option<string>, responseSize: nat)
  {
    /** Nothing left in them that serving a connection would read before writing. */
    predicate Reset() {
      contentLength == 0 && requestBody.None? && responseBody.None? && responseSize == 0
    }
  }

  /** Serves connections until the server is stopped, here until `conns` runs out. `written` holds what
      each client was sent, None where no buffer could be had. */
  method MpiServerWorker(platform: ModulesManager.Platform, conns: seq<Connection>, ghost service: Service)
    returns (written: seq<Option<string>>, log: seq<seq<Call>>)
    requires platform.Valid() && platform.View() == R.Empty && platform.spine == []
    requires Describes(service, platform.env)
    modifies platform
    ensures platform.Valid() && platform.View() == Serve(service, conns)
    ensures written == Responses(service, conns)
    ensures log == Handlers(service, conns)
  {
    var locals := Locals(None, 0, None, HTTP_OK, None, 0);
    written, log := [], [];
    for i := 0 to |conns|
      invariant platform.Valid() && platform.View() == Serve(service, conns[..i])
      invariant forall k :: 0 <= k < |platform.spine| ==> fresh(platform.spine[k])
      invariant locals.Reset()
      invariant written == Responses(service, conns[..i])
      invariant log == Handlers(service, conns[..i])
    {
      var text, calls;
      locals, text, calls := ServeConnection(platform, conns[i], locals, service);
      written, log := written + [text], log + [calls];
      assert forall k :: 0 <= k < |platform.spine| ==> platform.spine[k] in platform.spine;
      assert conns[..i + 1][..i] == conns[..i];
    }
    assert conns[..|conns|] == conns;
  }

  /** One iteration of the loop, from accept to the release of the buffers. */
  method ServeConnection(platform: ModulesManager.Platform, conn: Connection, locals0: Locals, ghost service: Service)
    returns (locals: Locals, text: Option<string>, calls: seq<Call>)
    requires platform.Valid() && locals0.Reset() && Describes(service, platform.env)
    modifies platform, platform.spine
    ensures platform.Valid() && (forall n :: n in platform.spine ==> n in old(platform.spine) || fresh(n))
    ensures locals.Reset()
    ensures platform.View() == service.after(old(platform.View()), conn)
    ensures text == service.response(old(platform.View()), conn)
    ensures calls == service.calls(conn)
  {
    ghost var before := platform.View();
    AnswerStatus(platform.env, before, conn);
    locals := locals0.(status := HTTP_OK);
    locals, calls := AnswerRequest(platform, conn, locals);
    text := None;
    if locals.responseSize <= INT_MAX {
      text := Response(locals.status, locals.responseSize, if locals.responseBody.Some? then locals.responseBody.value else "");
    }
    assert text == ResponseFor(platform.env, before, conn);
    locals := locals.(contentLength := 0, responseSize := 0);
    locals := locals.(requestBody := None, responseBody := None, uri := None);
  }

  /** Everything up to the response buffer. */
  method AnswerRequest(platform: ModulesManager.Platform, conn: Connection, locals0: Locals) returns (locals: Locals, calls: seq<Call>)
    requires platform.Valid() && locals0.Reset() && locals0.status == HTTP_OK
    modifies platform, platform.spine
    ensures platform.Valid() && (forall n :: n in platform.spine ==> n in old(platform.spine) || fresh(n))
    ensures platform.View() == After(platform.env, old(platform.View()), conn)
    ensures calls == CallsOf(platform.env.codec, conn)
    ensures Answer(locals.status, locals.responseBody) == AnswerFor(platform.env, old(platform.View()), conn)
    ensures locals.responseSize == if locals.responseBody.Some? then |locals.responseBody.value| else 0
  {
    platform.AreModulesLoadedAndLoadIfNot(conn.found, conn.config);
    locals := ReadRequest(conn, locals0);
    calls := [];
    if locals.status == HTTP_OK {
      var status, out;
      status, out, calls := HandleMpiCall(platform, locals.uri, locals.requestBody, Out(locals.responseBody, locals.responseSize), conn.uuid);
      locals := locals.(status := status, responseBody := out.body, responseSize := out.size);
    }
  }

  /** The reading part of one iteration. */
  method ReadRequest(conn: Connection, locals0: Locals) returns (locals: Locals)
    requires locals0.Reset() && locals0.status == HTTP_OK
    ensures RequestRead(conn, locals.status, locals.uri, locals.requestBody)
    ensures locals.responseBody == locals0.responseBody && locals.responseSize == locals0.responseSize
  {
    locals := locals0;
    var socket := new Socket(conn.bytes);
    var uri := socket.ReadUriFromSocket();
    locals := locals.(uri := uri);
    if uri.None? {
      locals := locals.(status := HTTP_BAD_REQUEST);
    } else {
      var length := socket.ReadHttpContentLengthFromSocket();
      locals := locals.(contentLength := length);
      if length != 0 {
        var status, body := ReadBody(socket, length, conn.burst, conn.block);
        locals := locals.(status := status, requestBody := body);
      }
    }
  }

  /** What reading a request establishes. */
  ghost predicate RequestRead(conn: Connection, status: int, uri: Option<string>, requestBody: Option<string>) {
    match ParseRequest(conn.bytes, conn.burst, conn.block)
    case Unreadable => status == HTTP_BAD_REQUEST
    case Request(u, body) => status == HTTP_OK && uri == Some(u) && requestBody == body
  }

  /** Allocates one byte more than announced and reads the body with a single read. Both take the
      length as an unsigned size, so that a negative one stands for more than can be had. */
  method ReadBody(socket: Socket, contentLength: Int, burst: nat, block: string) returns (status: int, requestBody: Option<string>)
    requires contentLength != 0
    modifies socket
    ensures var body := BodyRead(old(socket.rest), contentLength, burst, block);
            if body.Some? then status == HTTP_OK && requestBody == body else status == HTTP_BAD_REQUEST
  {
    status, requestBody := HTTP_OK, None;
    var size: int := if contentLength == INT_MAX then -INT_MAX - 1 else contentLength + 1;
    if size < 0 {
      status := HTTP_BAD_REQUEST;
    } else {
      var bytes, count := block, -1;
      if contentLength >= 0 {
        bytes := socket.Read(if contentLength <= burst then contentLength else burst);
        count := |bytes|;
      }
      requestBody := Some(CString(bytes));
      if count != contentLength {
        status := HTTP_BAD_REQUEST;
      }
    }
  }

  // ---------- The server as a run of the registry ----------

  /** The registry operations that serving one connection amounts to. */
  function OpsOf(codec: Codec, conn: Connection): seq<R.Op> {
    [R.OpLoad(conn.found, conn.config)] + match CallIn(codec, conn) case Refused(_) => [] case Accepted(call) => [OpOf(call, conn.uuid)]
  }

  /** All registry operations of a series of connections. */
  function Ops(codec: Codec, conns: seq<Connection>): seq<R.Op> {
    if conns == [] then [] else Ops(codec, conns[..|conns| - 1]) + OpsOf(codec, conns[|conns| - 1])
  }

  lemma RunOne(env: R.Env, ops: seq<R.Op>, op: R.Op)
    ensures R.Run(env, ops + [op]) == R.Step(env, R.Run(env, ops), op)
  {
    assert (ops + [op])[..|ops|] == ops;
  }

  lemma RunConnection(env: R.Env, ops: seq<R.Op>, conn: Connection)
    ensures R.Run(env, ops + OpsOf(env.codec, conn)) == After(env, R.Run(env, ops), conn)
  {
    var load := R.OpLoad(conn.found, conn.config);
    var d := CallIn(env.codec, conn);
    RunOne(env, ops, load);
    if d.Refused? {
      assert OpsOf(env.codec, conn) == [load];
    } else {
      var op := OpOf(d.call, conn.uuid);
      RunOne(env, ops + [load], op);
      assert ops + OpsOf(env.codec, conn) == ops + [load] + [op];
    }
  }

  /** Whatever arrives on the socket, the server drives the registry through a run of registry
      operations, so everything proved of runs holds of the server. */
  lemma {:induction false} ServerRunsRegistry(env: R.Env, conns: seq<Connection>)
    ensures Serve(ServiceOf(env), conns) == R.Run(env, Ops(env.codec, conns))
  {
    if conns != [] {
      var n := |conns| - 1;
      ServerRunsRegistry(env, conns[..n]);
      ServiceDescribes(env);
      RunConnection(env, Ops(env.codec, conns[..n]), conns[n]);
    }
  }

  lemma {:induction false} ResponsesOf(service: Service, conns: seq<Connection>, i: nat)
    requires i < |conns|
    ensures Responses(service, conns)[i] == service.response(Serve(service, conns[..i]), conns[i])
    ensures Handlers(service, conns)[i] == service.calls(conns[i])
    decreases |conns|
  {
    var n := |conns| - 1;
    if i < n {
      ResponsesOf(service, conns[..n], i);
      assert conns[..n][..i] == conns[..i];
    }
  }

  /** Connection i gets the response to its own request, given the registry that the operations of the
      earlier connections left, and runs the handlers of its own request. */
  lemma ResponsesAt(env: R.Env, conns: seq<Connection>, i: nat)
    requires i < |conns|
    ensures Responses(ServiceOf(env), conns)[i] == ResponseFor(env, R.Run(env, Ops(env.codec, conns[..i])), conns[i])
    ensures Handlers(ServiceOf(env), conns)[i] == CallsOf(env.codec, conns[i])
  {
    ServiceDescribes(env);
    ResponsesOf(ServiceOf(env), conns, i);
    ServerRunsRegistry(env, conns[..i]);
  }

  // ---------- What a client can rely on ----------

  function BodyOf(a: Answer): string {
    if a.body.Some? then a.body.value else ""
  }

  /** The answer can be sent: the estimate for its buffer fits an int. */
  predicate Sendable(a: Answer) {
    a.status >= 0 && |BodyOf(a)| <= INT_MAX && Allocatable(a.status, |BodyOf(a)|)
  }

  lemma WrittenReadBack(a: Answer)
    requires IsHttpStatus(a.status)
    ensures Written(a).Some? <==> Sendable(a)
    ensures Sendable(a) ==>
              var (status, length, rest) := ReadResponse(Written(a).value);
              status == a.status && length == |BodyOf(a)| && (NUL !in BodyOf(a) ==> rest == BodyOf(a))
  {
    var body := BodyOf(a);
    if |body| <= INT_MAX {
      ResponseReadBack(a.status, |body|, body);
      if NUL !in body { CStringWhole(body); }
    }
  }

  /** A client gets exactly one response iff the answer can be sent, and none otherwise. From it the
      client reads the status and, if it holds no NUL, the body of the answer to its own request. */
  lemma ClientReadsAnswer(env: R.Env, s: R.State, conn: Connection)
    ensures var a := AnswerFor(env, s, conn);
            match ResponseFor(env, s, conn)
            case None => !Sendable(a)
            case Some(bytes) =>
              var (status, length, rest) := ReadResponse(bytes);
              Sendable(a) && status == a.status && length == |BodyOf(a)| && (NUL !in BodyOf(a) ==> rest == BodyOf(a))
  {
    AnswerStatus(env, s, conn);
    WrittenReadBack(AnswerFor(env, s, conn));
  }

  /** A call that CallMpi sends with a body that fits one read arrives as it was sent. */
  lemma RequestRoundTrip(name: string, body: string, burst: nat, block: string)
    requires CallName(name) && NUL !in body && 0 < |body| < INT_MAX && |body| <= burst
    ensures ParseRequest(RequestBytes(name, |body|, body), burst, block) == Request(name, Some(body))
  {
    IntLength(|body|);
    PrintedLength(|body|);
    RequestReadBack(name, |body|, body);
    CStringWhole(body);
    assert body[..|body|] == body;
  }

  // ---------- What a response depends on ----------

  /** The length that a request announces; 0 if it has none or no name. */
  function AnnouncedLength(bytes: string): Int {
    ReadHttpContentLength(ReadUri(bytes).1).0
  }

  lemma NoNameNoLength(bytes: string)
    ensures ReadUri(bytes).0.None? ==> AnnouncedLength(bytes) == 0
  {
    if ReadUri(bytes).0.None? {
      assert FirstSeen([], "\r\n\r\n", 1).None?;
    }
  }

  /** Serving a connection does not depend on what a block of no bytes happens to hold. */
  ghost predicate Unaffected(env: R.Env, s: R.State, conn: Connection, block: string) {
    var other := conn.(block := block);
    && ResponseFor(env, s, other) == ResponseFor(env, s, conn)
    && After(env, s, other) == After(env, s, conn)
    && CallsOf(env.codec, other) == CallsOf(env.codec, conn)
  }

  /** An object with everything that any call requires. */
  function AnyCall(): seq<(string, Json)> {
    [("ClientName", String("")), ("MaxPayloadSizeBytes", Number(0.0)), ("ClientSession", String("")),
     ("ComponentName", String("")), ("ObjectName", String("")), ("Payload", Null)]
  }

  /** A library that takes one text for malformed and every other for that object. */
  function CodecBut(malformed: string): Codec {
    Codec(text => if text == malformed then None else Some(Object(AnyCall())), value => Some(""), value => "", x => 0)
  }

  function EnvBut(malformed: string): R.Env {
    R.Env((t, m, client, size) => 0, (t, b, c, o, p, size) => 0, (t, b, c, o) => R.GetReply(R.MPI_OK, None), CodecBut(malformed))
  }

  lemma AnyCallMembers()
    ensures Text(AnyCall(), "ClientName") == Some("") && Text(AnyCall(), "ClientSession") == Some("")
    ensures Text(AnyCall(), "ComponentName") == Some("") && Text(AnyCall(), "ObjectName") == Some("")
    ensures Member(AnyCall(), "MaxPayloadSizeBytes") == Some(Number(0.0)) && Member(AnyCall(), "Payload") == Some(Null)
  {
    var m := AnyCall();
    IndexOfIs(m, "ClientName", 0);
    IndexOfIs(m, "MaxPayloadSizeBytes", 1);
    IndexOfIs(m, "ClientSession", 2);
    IndexOfIs(m, "ComponentName", 3);
    IndexOfIs(m, "ObjectName", 4);
    IndexOfIs(m, "Payload", 5);
  }

  /** That object is refused only for an unknown name. */
  lemma AnyCallDecoded(malformed: string, entry: Entry)
    ensures var d := DecodeObject(CodecBut(malformed), entry, AnyCall());
            d.Refused? ==> d.status == HTTP_NOT_FOUND
  {
    AnyCallMembers();
  }

  lemma AnswerToStatus(env: R.Env, s: R.State, call: Call, uuid: string)
    ensures AnswerTo(env, s, call, uuid).status in {HTTP_OK, HTTP_INTERNAL_SERVER_ERROR}
  {
  }

  /** With a length of -1 the handler sees the block: its content decides between a bad request and
      any other status. */
  lemma BlockDecides(conn: Connection, s: R.State)
    requires AnnouncedLength(conn.bytes) == -1
    ensures var malformed := CString(conn.block);
            var env := EnvBut(malformed);
            && AnswerFor(env, s, conn) == Answer(HTTP_BAD_REQUEST, None)
            && AnswerFor(env, s, conn.(block := malformed + "x")).status != HTTP_BAD_REQUEST
  {
    NoNameNoLength(conn.bytes);
    var malformed := CString(conn.block);
    var env := EnvBut(malformed);
    var other := conn.(block := malformed + "x");
    CStringWhole(other.block);
    assert other.block != malformed by { assert |other.block| == |malformed| + 1; }
    var uri := ReadUri(conn.bytes).0.value;
    assert CallIn(env.codec, other) == DecodeObject(env.codec, EntryOf(uri), AnyCall());
    AnyCallDecoded(malformed, EntryOf(uri));
    if CallIn(env.codec, other).Accepted? {
      AnswerToStatus(env, R.Load(s, conn.found, conn.config), CallIn(env.codec, other).call, conn.uuid);
    }
  }

  lemma BlockMatters(conn: Connection, s: R.State)
    requires AnnouncedLength(conn.bytes) == -1
    ensures !Unaffected(EnvBut(CString(conn.block)), s, conn, CString(conn.block) + "x")
  {
    var env := EnvBut(CString(conn.block));
    var other := conn.(block := CString(conn.block) + "x");
    BlockDecides(conn, s);
    AnswerStatus(env, s, other);
    SmallAllocatable(HTTP_BAD_REQUEST, 0);
    WrittenReadBack(AnswerFor(env, s, conn));
    WrittenReadBack(AnswerFor(env, s, other));
  }

  lemma SameCall(codec: Codec, conn: Connection, block: string)
    requires AnnouncedLength(conn.bytes) != -1
    ensures CallIn(codec, conn.(block := block)) == CallIn(codec, conn)
  {
    assert ParseRequest(conn.bytes, conn.burst, block) == ParseRequest(conn.bytes, conn.burst, conn.block);
  }

  /** Two connections that ask for the same call are served the same. */
  lemma SameService(env: R.Env, s: R.State, conn: Connection, other: Connection)
    requires CallIn(env.codec, other) == CallIn(env.codec, conn)
    requires other.found == conn.found && other.config == conn.config && other.uuid == conn.uuid
    ensures ResponseFor(env, s, other) == ResponseFor(env, s, conn) && After(env, s, other) == After(env, s, conn)
    ensures CallsOf(env.codec, other) == CallsOf(env.codec, conn)
  {
  }

  /** A response, the registry after it and the handlers run depend on nothing but the request and the
      registry iff the request does not announce a length of -1. */
  lemma IsolatedIff(conn: Connection)
    ensures AnnouncedLength(conn.bytes) != -1 <==> forall env, s, block :: Unaffected(env, s, conn, block)
  {
    if AnnouncedLength(conn.bytes) == -1 {
      BlockMatters(conn, R.Empty);
    } else {
      forall env, s, block ensures Unaffected(env, s, conn, block) {
        SameCall(env.codec, conn, block);
        SameService(env, s, conn, conn.(block := block));
      }
    }
  }

  /** A request that prints a length of 32 ones announces -1. */
  lemma LengthOfAllOnes(name: string, body: string)
    requires CallName(name)
    ensures AnnouncedLength(RequestBytes(name, 0xFFFF_FFFF, body)) == -1
  {
    assert |Decimal(0xFFFF_FFFF)| <= 63 by {
      IntLength(0xFFFF_FFFF / 10);
    }
    PrintedLength(0xFFFF_FFFF);
    RequestReadBack(name, 0xFFFF_FFFF, body);
  }
}
