/** What each request does, name by name: the call it stands for, told from the members of its object
    alone, the registry operation with every argument in its place, and the answer. */
module MpiCalls {
  import opened Base
  import opened HttpReading
  import opened HttpReadingProperties
  import opened HttpFraming
  import opened HttpRequests
  import opened MpiServer
  import R = Registry

  // ---------- From the request to the call ----------

  /** The connection brings a request with this name and an object as its body. */
  predicate Brings(codec: Codec, conn: Connection, name: string, m: seq<(string, Json)>) {
    match ParseRequest(conn.bytes, conn.burst, conn.block)
    case Request(uri, Some(text)) => uri == name && codec.parse(text) == Some(Object(m))
    case _ => false
  }

  lemma BroughtCall(codec: Codec, conn: Connection, name: string, m: seq<(string, Json)>)
    requires Brings(codec, conn, name, m)
    ensures CallIn(codec, conn) == DecodeObject(codec, EntryOf(name), m)
  {
  }

  lemma EntriesByName()
    ensures EntryOf("MpiOpen") == Open && EntryOf("MpiClose") == Close && EntryOf("MpiSet") == Set
    ensures EntryOf("MpiGet") == Get && EntryOf("MpiSetDesired") == SetDesired && EntryOf("MpiGetReported") == GetReported
  {
    assert "MpiClose"[3] != "MpiOpen"[3] && "MpiSet"[3] != "MpiOpen"[3] && "MpiGet"[3] != "MpiOpen"[3];
    assert "MpiSetDesired"[3] != "MpiOpen"[3] && "MpiGetReported"[3] != "MpiOpen"[3];
  }

  /** MpiOpen needs a client's name and a size that is no negative int. */
  lemma OpenRequest(codec: Codec, conn: Connection, m: seq<(string, Json)>)
    requires Brings(codec, conn, "MpiOpen", m)
    ensures CallIn(codec, conn) ==
              match (Member(m, "ClientName"), Member(m, "MaxPayloadSizeBytes"))
              case (Some(String(client)), Some(Number(x))) =>
                if ToInt(codec, x) < 0 then Refused(400) else Accepted(CallOpen(client, ToInt(codec, x)))
              case _ => Refused(400)
  {
    BroughtCall(codec, conn, "MpiOpen", m);
    EntriesByName();
  }

  /** MpiClose needs a session. */
  lemma CloseRequest(codec: Codec, conn: Connection, m: seq<(string, Json)>)
    requires Brings(codec, conn, "MpiClose", m)
    ensures CallIn(codec, conn) ==
              match Member(m, "ClientSession") case Some(String(session)) => Accepted(CallClose(session)) case _ => Refused(400)
  {
    BroughtCall(codec, conn, "MpiClose", m);
    EntriesByName();
  }

  /** MpiSet needs a session, a component, an object and a payload that serialises. */
  lemma SetRequest(codec: Codec, conn: Connection, m: seq<(string, Json)>)
    requires Brings(codec, conn, "MpiSet", m)
    ensures CallIn(codec, conn) ==
              match (Member(m, "ClientSession"), Member(m, "ComponentName"), Member(m, "ObjectName"), Member(m, "Payload"))
              case (Some(String(session)), Some(String(component)), Some(String(object_)), Some(value)) =>
                (match codec.serialize(value)
                 case None => Refused(400)
                 case Some(text) => Accepted(CallSet(session, component, object_, text)))
              case _ => Refused(400)
  {
    BroughtCall(codec, conn, "MpiSet", m);
    EntriesByName();
  }

  /** MpiGet needs a session, a component and an object. */
  lemma GetRequest(codec: Codec, conn: Connection, m: seq<(string, Json)>)
    requires Brings(codec, conn, "MpiGet", m)
    ensures CallIn(codec, conn) ==
              match (Member(m, "ClientSession"), Member(m, "ComponentName"), Member(m, "ObjectName"))
              case (Some(String(session)), Some(String(component)), Some(String(object_))) =>
                Accepted(CallGet(session, component, object_))
              case _ => Refused(400)
  {
    BroughtCall(codec, conn, "MpiGet", m);
    EntriesByName();
  }

  /** MpiSetDesired needs a session and a payload that serialises. */
  lemma SetDesiredRequest(codec: Codec, conn: Connection, m: seq<(string, Json)>)
    requires Brings(codec, conn, "MpiSetDesired", m)
    ensures CallIn(codec, conn) ==
              match (Member(m, "ClientSession"), Member(m, "Payload"))
              case (Some(String(session)), Some(value)) =>
                (match codec.serialize(value)
                 case None => Refused(400)
                 case Some(text) => Accepted(CallSetDesired(session, text)))
              case _ => Refused(400)
  {
    BroughtCall(codec, conn, "MpiSetDesired", m);
    EntriesByName();
  }

  /** MpiGetReported needs a session. */
  lemma GetReportedRequest(codec: Codec, conn: Connection, m: seq<(string, Json)>)
    requires Brings(codec, conn, "MpiGetReported", m)
    ensures CallIn(codec, conn) ==
              match Member(m, "ClientSession") case Some(String(session)) => Accepted(CallGetReported(session)) case _ => Refused(400)
  {
    BroughtCall(codec, conn, "MpiGetReported", m);
    EntriesByName();
  }

  const NAMES := {"MpiOpen", "MpiClose", "MpiSet", "MpiGet", "MpiSetDesired", "MpiGetReported"}

  /** Any other name with an object is not found. */
  lemma UnknownRequest(codec: Codec, conn: Connection, name: string, m: seq<(string, Json)>)
    requires Brings(codec, conn, name, m) && name !in NAMES
    ensures CallIn(codec, conn) == Refused(404)
  {
    BroughtCall(codec, conn, name, m);
    UnknownByName(name);
  }

  lemma UnknownByName(name: string)
    ensures name !in NAMES <==> EntryOf(name) == Unknown
  {
  }

  /** A request that cannot be read, has no body, or has one that is no object, is a bad request. */
  lemma NoObjectRequest(codec: Codec, conn: Connection)
    requires forall name, m :: !Brings(codec, conn, name, m)
    ensures CallIn(codec, conn) == Refused(400)
  {
    match ParseRequest(conn.bytes, conn.burst, conn.block)
    case Request(name, Some(text)) =>
      if codec.parse(text).Some? && codec.parse(text).value.Object? {
        assert Brings(codec, conn, name, codec.parse(text).value.members);
      }
    case _ =>
  }

  // ---------- From the call to registry and answer ----------

  /** What serving a connection comes to: the answer, the registry afterwards and the handlers run. */
  datatype Served = Served(answer: Answer, after: R.State, calls: seq<Call>)

  function Serving(env: R.Env, s: R.State, conn: Connection): Served {
    Served(AnswerFor(env, s, conn), After(env, s, conn), CallsOf(env.codec, conn))
  }

  /** The answer to a call with a status: 200 and the body, or 500 and the status in quotes. */
  function Reply(status: Int, body: Option<string>): Answer {
    if status == 0 then Answer(200, body) else Answer(500, Some("\"" + SignedDecimal(status) + "\""))
  }

  /** A refused request runs nothing and is answered without a body; modules are loaded all the same. */
  lemma RefusedServed(env: R.Env, s: R.State, conn: Connection, status: int)
    requires CallIn(env.codec, conn) == Refused(status)
    ensures Serving(env, s, conn) == Served(Answer(status, None), R.Load(s, conn.found, conn.config), [])
  {
  }

  /** An accepted request runs its one call on the registry with modules loaded. */
  lemma AcceptedServed(env: R.Env, s: R.State, conn: Connection, call: Call)
    requires CallIn(env.codec, conn) == Accepted(call)
    ensures var loaded := R.Load(s, conn.found, conn.config);
            Serving(env, s, conn) == Served(AnswerTo(env, loaded, call, conn.uuid), R.Step(env, loaded, OpOf(call, conn.uuid)), [call])
  {
  }

  lemma OutcomeIsReply(status: Int, body: Option<string>)
    ensures Outcome(status, body) == Reply(status, body)
  {
    ErrorReadBack(status);
  }

  /** An open is answered by the new session's uuid in quotes, or by 500 if no modules are loaded. */
  lemma OpenServed(env: R.Env, s: R.State, conn: Connection, client: string, size: int)
    requires CallIn(env.codec, conn) == Accepted(CallOpen(client, size))
    ensures var loaded := R.Load(s, conn.found, conn.config);
            Serving(env, s, conn) == Served(
              if loaded.modules == [] then Answer(500, None) else Answer(200, Some("\"" + conn.uuid + "\"")),
              R.MpiOpen(env, loaded, Some(client), size, conn.uuid).0,
              [CallOpen(client, size)])
  {
    AcceptedServed(env, s, conn, CallOpen(client, size));
  }

  /** A close is answered by 200 without a body, whether or not there was such a session. */
  lemma CloseServed(env: R.Env, s: R.State, conn: Connection, session: string)
    requires CallIn(env.codec, conn) == Accepted(CallClose(session))
    ensures Serving(env, s, conn)
            == Served(Answer(200, None), R.MpiClose(R.Load(s, conn.found, conn.config), Some(session)), [CallClose(session)])
  {
    AcceptedServed(env, s, conn, CallClose(session));
  }

  /** A set is answered by its status. */
  lemma SetServed(env: R.Env, s: R.State, conn: Connection, session: string, component: string, object_: string, payload: string)
    requires CallIn(env.codec, conn) == Accepted(CallSet(session, component, object_, payload))
    ensures var (after, status) :=
              R.MpiSet(env, R.Load(s, conn.found, conn.config), Some(session), Some(component), Some(object_), Some(payload), |payload|);
            Serving(env, s, conn) == Served(Reply(status, None), after, [CallSet(session, component, object_, payload)])
  {
    AcceptedServed(env, s, conn, CallSet(session, component, object_, payload));
    SetAnswered(env, R.Load(s, conn.found, conn.config), session, component, object_, payload, conn.uuid);
  }

  lemma SetAnswered(env: R.Env, s: R.State, session: string, component: string, object_: string, payload: string, uuid: string)
    ensures var call := CallSet(session, component, object_, payload);
            var (after, status) := R.MpiSet(env, s, Some(session), Some(component), Some(object_), Some(payload), |payload|);
            AnswerTo(env, s, call, uuid) == Reply(status, None) && R.Step(env, s, OpOf(call, uuid)) == after
  {
    OutcomeIsReply(R.MpiSet(env, s, Some(session), Some(component), Some(object_), Some(payload), |payload|).1, None);
  }

  /** A get is answered by the module's payload. */
  lemma GetServed(env: R.Env, s: R.State, conn: Connection, session: string, component: string, object_: string)
    requires CallIn(env.codec, conn) == Accepted(CallGet(session, component, object_))
    ensures var (after, reply) := R.MpiGet(env, R.Load(s, conn.found, conn.config), Some(session), Some(component), Some(object_));
            Serving(env, s, conn) == Served(Reply(reply.status, reply.payload), after, [CallGet(session, component, object_)])
  {
    AcceptedServed(env, s, conn, CallGet(session, component, object_));
    GetAnswered(env, R.Load(s, conn.found, conn.config), session, component, object_, conn.uuid);
  }

  lemma GetAnswered(env: R.Env, s: R.State, session: string, component: string, object_: string, uuid: string)
    ensures var call := CallGet(session, component, object_);
            var (after, reply) := R.MpiGet(env, s, Some(session), Some(component), Some(object_));
            AnswerTo(env, s, call, uuid) == Reply(reply.status, reply.payload) && R.Step(env, s, OpOf(call, uuid)) == after
  {
    var reply := R.MpiGet(env, s, Some(session), Some(component), Some(object_)).1;
    OutcomeIsReply(reply.status, reply.payload);
  }

  /** A bulk set is answered by its status. */
  lemma SetDesiredServed(env: R.Env, s: R.State, conn: Connection, session: string, payload: string)
    requires CallIn(env.codec, conn) == Accepted(CallSetDesired(session, payload))
    ensures var (after, status) := R.MpiSetDesired(env, R.Load(s, conn.found, conn.config), Some(session), Some(payload), |payload|);
            Serving(env, s, conn) == Served(Reply(status, None), after, [CallSetDesired(session, payload)])
  {
    AcceptedServed(env, s, conn, CallSetDesired(session, payload));
    SetDesiredAnswered(env, R.Load(s, conn.found, conn.config), session, payload, conn.uuid);
  }

  lemma SetDesiredAnswered(env: R.Env, s: R.State, session: string, payload: string, uuid: string)
    ensures var call := CallSetDesired(session, payload);
            var (after, status) := R.MpiSetDesired(env, s, Some(session), Some(payload), |payload|);
            AnswerTo(env, s, call, uuid) == Reply(status, None) && R.Step(env, s, OpOf(call, uuid)) == after
  {
    var status := R.MpiSetDesired(env, s, Some(session), Some(payload), |payload|).1;
    assert AnswerTo(env, s, CallSetDesired(session, payload), uuid) == Outcome(status, None);
    OutcomeIsReply(status, None);
  }

  /** A report is answered by the document. */
  lemma GetReportedServed(env: R.Env, s: R.State, conn: Connection, session: string)
    requires CallIn(env.codec, conn) == Accepted(CallGetReported(session))
    ensures var (after, reply) := R.MpiGetReported(env, R.Load(s, conn.found, conn.config), Some(session));
            Serving(env, s, conn) == Served(Reply(reply.status, reply.payload), after, [CallGetReported(session)])
  {
    AcceptedServed(env, s, conn, CallGetReported(session));
    GetReportedAnswered(env, R.Load(s, conn.found, conn.config), session, conn.uuid);
  }

  lemma GetReportedAnswered(env: R.Env, s: R.State, session: string, uuid: string)
    ensures var call := CallGetReported(session);
            var (after, reply) := R.MpiGetReported(env, s, Some(session));
            AnswerTo(env, s, call, uuid) == Reply(reply.status, reply.payload) && R.Step(env, s, OpOf(call, uuid)) == after
  {
    var reply := R.MpiGetReported(env, s, Some(session)).1;
    OutcomeIsReply(reply.status, reply.payload);
  }

  // ---------- From the bytes to the request ----------

  /** The names of the calls pass the reader whole. */
  lemma NamesAreRead(name: string, body: string, burst: nat, block: string)
    requires name in NAMES
    requires NUL !in body && 0 < |body| < INT_MAX && |body| <= burst
    ensures ParseRequest(RequestBytes(name, |body|, body), burst, block) == Request(name, Some(body))
  {
    assert CallName(name);
    RequestRoundTrip(name, body, burst, block);
  }

  /** What is read of a request, by the size that it prints: no body for 0, the body if that many bytes
      come in one read, the empty block for -1, and else nothing. */
  lemma RequestParsed(name: string, size: nat, body: string, burst: nat, block: string)
    requires CallName(name) && |Decimal(size)| <= 63
    ensures var length: int := Atoi(Decimal(size));
            ParseRequest(RequestBytes(name, size, body), burst, block) ==
              if length == 0 then Request(name, None)
              else if length == -1 then Request(name, Some(CString(block)))
              else if 0 < length < 0x7FFF_FFFF && length <= burst && length <= |body| then Request(name, Some(CString(body[..length])))
              else Unreadable
  {
    RequestReadBack(name, size, body);
  }
}
