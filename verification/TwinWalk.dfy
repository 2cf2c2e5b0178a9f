/** From a twin document to MPI calls and acknowledgements: the walk over components and properties
    of PnpUtils.c, and what each property leads to. */
module TwinWalk {
  import opened Base
  import opened AgentSession
  import opened HttpFraming

  const IOTHUB_CLIENT_OK := 0
  const IOTHUB_CLIENT_ERROR := 1
  const PNP_STATUS_SUCCESS := 200
  const PNP_STATUS_BAD_DATA := 400
  const EXTRA_PROP_PAYLOAD_ESTIMATE := 256
  const DESIRED_VERSION := "$version"
  const COMPONENT_MARKER := "__t"

  // ---------- Specification ----------

  /** What an acknowledgement says, before it is formatted. */
  datatype Ack = Ack(component: string, property: string, value: string, code: Int, version: Int)

  /** The acknowledgement template with its blanks filled. */
  function AckText(a: Ack): string {
    "{\"" + a.component + "\":{\"__t\":\"c\",\"" + a.property + "\":{\"value\":" + a.value + ",\"ac\":" + SignedDecimal(a.code)
    + ",\"ad\":\"-\",\"av\":" + SignedDecimal(a.version) + "}}}"
  }

  /** The size of the buffer that AckPropertyUpdateToIotHub wants. */
  function AckEstimate(a: Ack): nat {
    |a.component| + |a.property| + |a.value| + EXTRA_PROP_PAYLOAD_ESTIMATE
  }

  /** The text as it fits that buffer, None when it cannot be had: its size is an int, and one that
      turned negative asks for too much. */
  function AckPayload(a: Ack): Option<string> {
    var text := AckText(a);
    if AckEstimate(a) > INT_MAX then None
    else if |text| < AckEstimate(a) then Some(text)
    else Some(text[..AckEstimate(a) - 1])
  }

  function AckProperty(env: Env, a: Agent, ack: Ack): (Agent, int) {
    match AckPayload(ack)
    case None => (a, IOTHUB_CLIENT_OK)
    case Some(text) =>
      var result := env.sendAck(a.trace, text);
      (a.(trace := a.trace + [AckSent(text, result)]), result)
  }

  /** One attempt and, if it failed but a new session could be opened, a second one. */
  function SetWithRetry(env: Env, a: Agent, component: string, property: string, value: string): (Agent, int) {
    var st := env.mpiSet(a.trace, component, property, value);
    var a1 := a.(trace := a.trace + [SetCall(component, property, value, st)]);
    if st == MPI_OK then (a1, st)
    else
      var r := RefreshMpiClientSession(env, a1);
      if r.ok && !r.alreadyRunning then
        var st' := env.mpiSet(r.agent.trace, component, property, value);
        (r.agent.(trace := r.agent.trace + [SetCall(component, property, value, st')]), st')
      else (r.agent, st)
  }

  function UpdateProperty(env: Env, a: Agent, component: string, property: string, value: Json, version: Int): (r: (Agent, int)) {
    match env.codec.serialize(value)
    case None => (a, IOTHUB_CLIENT_OK)
    case Some(text) =>
      var (a', st) := SetWithRetry(env, a, component, property, text);
      AckProperty(env, a', Ack(component, property, text, if st == MPI_OK then PNP_STATUS_SUCCESS else PNP_STATUS_BAD_DATA, version))
  }

  function WalkProperties(env: Env, a: Agent, result: int, component: string, properties: seq<(string, Json)>, version: Int): (r: (Agent, int)) {
    if properties == [] then (a, result)
    else
      var n := |properties| - 1;
      var (a', result') := WalkProperties(env, a, result, component, properties[..n], version);
      if properties[n].0 == COMPONENT_MARKER then (a', result')
      else UpdateProperty(env, a', component, properties[n].0, properties[n].1, version)
  }

  function WalkComponents(env: Env, a: Agent, components: seq<(string, Json)>, version: Int): (r: (Agent, int)) {
    if components == [] then (a, IOTHUB_CLIENT_OK)
    else
      var n := |components| - 1;
      var (a', result) := WalkComponents(env, a, components[..n], version);
      var (name, child) := components[n];
      if name == DESIRED_VERSION || !child.Object? then (a', result)
      else WalkProperties(env, a', result, name, child.members, version)
  }

  /** The object that holds the desired components: wrapped in a full twin, the root otherwise. */
  function DesiredObject(complete: bool, root: Json): Option<seq<(string, Json)>> {
    if !root.Object? then None
    else if !complete then Some(root.members)
    else
      match Member(root.members, "desired")
      case Some(Object(m)) => Some(m)
      case _ => None
  }

  function VersionOf(codec: Codec, desired: seq<(string, Json)>): Int {
    match Member(desired, DESIRED_VERSION)
    case Some(Number(x)) => ToInt(codec, x)
    case _ => 0
  }

  /** The desired components of a payload, if it has any to walk. */
  function DesiredOf(codec: Codec, complete: bool, payload: string): Option<seq<(string, Json)>> {
    if payload == "" then None
    else
      match codec.parse(payload)
      case None => None
      case Some(root) => DesiredObject(complete, root)
  }

  function ProcessJson(env: Env, a: Agent, complete: bool, payload: string): (r: (Agent, int)) {
    match DesiredOf(env.codec, complete, payload)
    case None => (a, IOTHUB_CLIENT_ERROR)
    case Some(desired) => WalkComponents(env, a, desired, VersionOf(env.codec, desired))
  }

  // ---------- Implementation ----------

  class TwinAgent {
    const env: Env
    var handle: bool
    var trace: seq<Event>

    constructor (env: Env, handle: bool)
      ensures this.env == env && View() == Agent(handle, [])
    {
      this.env, this.handle, this.trace := env, handle, [];
    }

    ghost function View(): Agent
      reads this
    {
      Agent(handle, trace)
    }

    method RefreshSession() returns (status: bool, alreadyRunning: bool)
      modifies this
      ensures Refreshed(View(), status, alreadyRunning) == RefreshMpiClientSession(env, old(View()))
    {
      if handle {
        var active := env.daemonActive(trace);
        trace := trace + [DaemonChecked(active)];
        if active {
          return true, true;
        }
      }
      alreadyRunning := false;
      status := env.startDaemon(trace);
      trace := trace + [DaemonStarted(status)];
      if status {
        handle := env.openSession(trace);
        trace := trace + [SessionOpened(handle)];
        if !handle {
          status := false;
        }
      }
    }

    method UpdatePropertyFromIotHub(component: string, property: string, value: Json, version: Int) returns (result: int)
      modifies this
      ensures (View(), result) == UpdateProperty(env, old(View()), component, property, value, version)
    {
      result := IOTHUB_CLIENT_OK;
      var text := env.codec.serialize(value);
      if text.Some? {
        var mpiResult := CallMpiSet(component, property, text.value);
        if mpiResult != MPI_OK {
          var ok, alreadyRunning := RefreshSession();
          if ok && !alreadyRunning {
            mpiResult := CallMpiSet(component, property, text.value);
          }
        }
        var code := if mpiResult == MPI_OK then PNP_STATUS_SUCCESS else PNP_STATUS_BAD_DATA;
        result := AckPropertyUpdateToIotHub(Ack(component, property, text.value, code, version));
      }
    }

    method CallMpiSet(component: string, property: string, text: string) returns (status: int)
      modifies this`trace
      ensures status == env.mpiSet(old(trace), component, property, text)
      ensures trace == old(trace) + [SetCall(component, property, text, status)]
    {
      status := env.mpiSet(trace, component, property, text);
      trace := trace + [SetCall(component, property, text, status)];
    }

    method AckPropertyUpdateToIotHub(ack: Ack) returns (result: int)
      modifies this`trace
      ensures (View(), result) == AckProperty(env, old(View()), ack)
    {
      result := IOTHUB_CLIENT_OK;
      var text := AckPayload(ack);
      if text.Some? {
        result := env.sendAck(trace, text.value);
        trace := trace + [AckSent(text.value, result)];
      }
    }

    method ProcessJsonFromTwin(complete: bool, payload: string) returns (result: int)
      modifies this
      ensures (View(), result) == ProcessJson(env, old(View()), complete, payload)
    {
      if payload == "" {
        return IOTHUB_CLIENT_ERROR;
      }
      var root := env.codec.parse(payload);
      if root.None? || !root.value.Object? {
        return IOTHUB_CLIENT_ERROR;
      }
      var desired := root.value.members;
      if complete {
        var d := Member(root.value.members, "desired");
        if d.None? || !d.value.Object? {
          return IOTHUB_CLIENT_ERROR;
        }
        desired := d.value.members;
      }
      result := Walk(desired, VersionOf(env.codec, desired));
    }

    method Walk(components: seq<(string, Json)>, version: Int) returns (result: int)
      modifies this
      ensures (View(), result) == WalkComponents(env, old(View()), components, version)
    {
      result := IOTHUB_CLIENT_OK;
      for i := 0 to |components|
        invariant (View(), result) == WalkComponents(env, old(View()), components[..i], version)
      {
        assert components[..i + 1][..i] == components[..i];
        var (name, child) := components[i];
        if name == DESIRED_VERSION {
          continue;
        }
        if child.Object? {
          result := WalkChild(result, name, child.members, version);
        }
      }
      assert components[..|components|] == components;
    }

    method WalkChild(before: int, component: string, properties: seq<(string, Json)>, version: Int) returns (result: int)
      modifies this
      ensures (View(), result) == WalkProperties(env, old(View()), before, component, properties, version)
    {
      result := before;
      for i := 0 to |properties|
        invariant (View(), result) == WalkProperties(env, old(View()), before, component, properties[..i], version)
      {
        assert properties[..i + 1][..i] == properties[..i];
        if properties[i].0 == COMPONENT_MARKER {
          continue;
        }
        result := UpdatePropertyFromIotHub(component, properties[i].0, properties[i].1, version);
      }
      assert properties[..|properties|] == properties;
    }
  }
}
