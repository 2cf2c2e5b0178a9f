/** The platform's registry as a value: loaded modules, open sessions and the trace of calls made
    into modules. ModulesManager.dfy holds the imperative code that is proved against it.

    Both lists are kept head first, exactly as the C lists are linked. */
module Registry {
  import opened Base

  const MPI_OK := 0
  const EINVAL := 22

  /** A loaded module: where it came from and the components it declares. */
  datatype Module = Module(path: string, components: seq<string>)

  /** A handle obtained from a module's open entry point, kept with that module. */
  datatype Bound = Bound(module_: Module, handle: int)

  datatype Session = Session(uuid: string, client: string, handles: seq<Bound>)

  datatype GetReply = GetReply(status: Int, payload: Option<string>)

  /** One call through a module's function table. */
  datatype Event =
    | Opened(b: Bound)
    | Closed(b: Bound)
    | SetCall(b: Bound, component: string, object_: string, payload: Option<string>, size: int, status: Int)
    | GetCall(b: Bound, component: string, object_: string, reply: GetReply)
    | Freed(m: Module, buffer: Option<string>)
    | Unloaded(m: Module)

  /** What modules answer. Each answer may depend on everything that happened before, so a theorem
      for every Env is a theorem for every behaviour of the modules. */
  datatype Env = Env(
    open: (seq<Event>, Module, string, int) -> int,
    set_: (seq<Event>, Bound, string, string, Option<string>, int) -> Int,
    get: (seq<Event>, Bound, string, string) -> GetReply,
    codec: Codec)

  datatype State = State(
    modules: seq<Module>,
    sessions: seq<Session>,
    reported: seq<(string, string)>,
    trace: seq<Event>)

  const Empty := State([], [], [], [])

  /** The part of osconfig.json that LoadModules reads. */
  datatype Config = Config(modelVersion: int, reported: seq<(string, string)>)

  // ---------- Lookup ----------

  predicate Declares(m: Module, component: string) {
    component in m.components
  }

  /** The session at the head-most position with this uuid. */
  function FindSession(sessions: seq<Session>, uuid: string): (i: nat)
    ensures i <= |sessions|
    ensures i < |sessions| ==> sessions[i].uuid == uuid
    ensures forall j :: 0 <= j < i ==> sessions[j].uuid != uuid
  {
    if sessions == [] then 0
    else if sessions[0].uuid == uuid then 0
    else
      var k := FindSession(sessions[1..], uuid);
      assert forall j :: 1 <= j < k + 1 ==> sessions[j] == sessions[1..][j - 1];
      1 + k
  }

  /** The head-most handle whose module declares the component. */
  function FindModuleSession(handles: seq<Bound>, component: string): (i: nat)
    ensures i <= |handles|
    ensures i < |handles| ==> Declares(handles[i].module_, component)
    ensures forall j :: 0 <= j < i ==> !Declares(handles[j].module_, component)
  {
    if handles == [] then 0
    else if Declares(handles[0].module_, component) then 0
    else
      var k := FindModuleSession(handles[1..], component);
      assert forall j :: 1 <= j < k + 1 ==> handles[j] == handles[1..][j - 1];
      1 + k
  }

  function Reverse<T>(s: seq<T>): (r: seq<T>)
    ensures |r| == |s|
    ensures forall i :: 0 <= i < |s| ==> r[i] == s[|s| - 1 - i]
  {
    if s == [] then [] else [s[|s| - 1]] + Reverse(s[..|s| - 1])
  }

  // ---------- Operations ----------

  /** AreModulesLoadedAndLoadIfNot: `found` are the modules of the directory in the order in which
      they load, `config` is None when the configuration cannot be parsed. */
  function Load(s: State, found: seq<Module>, config: Option<Config>): State {
    if s.modules != [] || config == None then s
    else
      s.(modules := if config.value.modelVersion == 0 then [] else Reverse(found),
         reported := if config.value.reported == [] then s.reported else config.value.reported)
  }

  /** Opens a handle in every module, in list order; later modules end up nearer the head. */
  function OpenHandles(env: Env, trace: seq<Event>, modules: seq<Module>, client: string, size: int)
    : (r: (seq<Event>, seq<Bound>))
  {
    if modules == [] then (trace, [])
    else
      var n := |modules| - 1;
      var (t, bs) := OpenHandles(env, trace, modules[..n], client, size);
      var b := Bound(modules[n], env.open(t, modules[n], client, size));
      (t + [Opened(b)], [b] + bs)
  }

  predicate CanOpen(s: State, client: Option<string>) {
    client.Some? && s.modules != []
  }

  function NewSession(env: Env, s: State, client: string, size: int, uuid: string): Session {
    Session(uuid, client, OpenHandles(env, s.trace, s.modules, client, size).1)
  }

  /** MpiOpen; `uuid` is whatever GenerateUuid produced. */
  function MpiOpen(env: Env, s: State, client: Option<string>, size: int, uuid: string): (r: (State, Option<string>)) {
    if !CanOpen(s, client) then (s, None)
    else
      (s.(sessions := [NewSession(env, s, client.value, size, uuid)] + s.sessions,
          trace := OpenHandles(env, s.trace, s.modules, client.value, size).0),
       Some(uuid))
  }

  function CloseEvents(handles: seq<Bound>): (r: seq<Event>) {
    seq(|handles|, i requires 0 <= i < |handles| => Closed(handles[i]))
  }

  function MpiClose(s: State, handle: Option<string>): State {
    if handle.None? then s
    else
      var i := FindSession(s.sessions, handle.value);
      if i == |s.sessions| then s
      else s.(sessions := s.sessions[..i] + s.sessions[i + 1..],
              trace := s.trace + CloseEvents(s.sessions[i].handles))
  }

  /** The module call both MpiSet and MpiSetDesired make once they have a handle. */
  function CallSet(env: Env, trace: seq<Event>, b: Bound, component: string, object_: string, payload: Option<string>, size: int)
    : (seq<Event>, Int)
  {
    var status := env.set_(trace, b, component, object_, payload, size);
    (trace + [SetCall(b, component, object_, payload, size, status)], status)
  }

  /** The handle that a session named by `handle` uses for a component, if any. */
  function Resolve(s: State, handle: Option<string>, component: string): Option<Bound> {
    if handle.None? then None
    else
      var i := FindSession(s.sessions, handle.value);
      if i == |s.sessions| then None
      else
        var j := FindModuleSession(s.sessions[i].handles, component);
        if j == |s.sessions[i].handles| then None else Some(s.sessions[i].handles[j])
  }

  function MpiSet(env: Env, s: State, handle: Option<string>, component: Option<string>, object_: Option<string>,
                  payload: Option<string>, size: int): (r: (State, Int))
  {
    if component.None? || object_.None? || Resolve(s, handle, component.value).None? then (s, EINVAL)
    else
      var (t, status) := CallSet(env, s.trace, Resolve(s, handle, component.value).value, component.value, object_.value, payload, size);
      (s.(trace := t), status)
  }

  function MpiGet(env: Env, s: State, handle: Option<string>, component: Option<string>, object_: Option<string>)
    : (r: (State, GetReply))
  {
    if component.None? || object_.None? || Resolve(s, handle, component.value).None? then (s, GetReply(EINVAL, None))
    else
      var b := Resolve(s, handle, component.value).value;
      var reply := env.get(s.trace, b, component.value, object_.value);
      (s.(trace := s.trace + [GetCall(b, component.value, object_.value, reply)]), reply)
  }

  // ---------- Bulk set ----------

  /** One component of a desired document: a set for each object that serialises, in order. The
      status is carried along and overwritten by each call. */
  function SetObjects(env: Env, trace: seq<Event>, status: Int, b: Bound, component: string, objects: seq<(string, Json)>)
    : (r: (seq<Event>, Int))
  {
    if objects == [] then (trace, status)
    else
      var n := |objects| - 1;
      var (t, st) := SetObjects(env, trace, status, b, component, objects[..n]);
      match env.codec.serialize(objects[n].1)
      case None => (t, st)
      case Some(text) => CallSet(env, t, b, component, objects[n].0, Some(text), |text|)
  }

  function ObjectMembers(v: Json): seq<(string, Json)> {
    if v.Object? then v.members else []
  }

  function SetComponents(env: Env, trace: seq<Event>, handles: seq<Bound>, components: seq<(string, Json)>)
    : (r: (seq<Event>, Int))
  {
    if components == [] then (trace, MPI_OK)
    else
      var n := |components| - 1;
      var (t, st) := SetComponents(env, trace, handles, components[..n]);
      var j := FindModuleSession(handles, components[n].0);
      if j == |handles| then (t, EINVAL)
      else SetObjects(env, t, st, handles[j], components[n].0, ObjectMembers(components[n].1))
  }

  function MpiSetDesired(env: Env, s: State, handle: Option<string>, payload: Option<string>, size: int): (r: (State, Int)) {
    if handle.None? || payload.None? || size <= 0 then (s, EINVAL)
    else
      var i := FindSession(s.sessions, handle.value);
      if i == |s.sessions| then (s, EINVAL)
      else
        match env.codec.parse(payload.value)
        case None => (s, EINVAL)
        case Some(root) =>
          var (t, st) := SetComponents(env, s.trace, s.sessions[i].handles, ObjectMembers(root));
          (s.(trace := t), st)
  }

  // ---------- Bulk report ----------

  /** One entry of the reported list: the call trace it adds to, and the value it yields, if any. */
  function FetchOne(env: Env, trace: seq<Event>, handles: seq<Bound>, entry: (string, string)): (r: (seq<Event>, Option<Json>)) {
    var j := FindModuleSession(handles, entry.0);
    if j == |handles| then (trace, None)
    else
      var reply := env.get(trace, handles[j], entry.0, entry.1);
      var t := trace + [GetCall(handles[j], entry.0, entry.1, reply), Freed(handles[j].module_, reply.payload)];
      (t, if reply.status != MPI_OK || reply.payload.None? then None else env.codec.parse(reply.payload.value))
  }

  function PutReported(root: seq<(string, Json)>, entry: (string, string), value: Json): seq<(string, Json)> {
    var fields := match Member(root, entry.0) case None => [] case Some(v) => ObjectMembers(v);
    SetMember(root, entry.0, Object(SetMember(fields, entry.1, value)))
  }

  function Report(env: Env, trace: seq<Event>, handles: seq<Bound>, entries: seq<(string, string)>)
    : (r: (seq<Event>, seq<(string, Json)>))
  {
    if entries == [] then (trace, [])
    else
      var n := |entries| - 1;
      var (t, root) := Report(env, trace, handles, entries[..n]);
      var (t', value) := FetchOne(env, t, handles, entries[n]);
      (t', if value.None? then root else PutReported(root, entries[n], value.value))
  }

  function MpiGetReported(env: Env, s: State, handle: Option<string>): (r: (State, GetReply)) {
    if handle.None? then (s, GetReply(EINVAL, None))
    else
      var i := FindSession(s.sessions, handle.value);
      if i == |s.sessions| then (s, GetReply(EINVAL, None))
      else
        var (t, root) := Report(env, s.trace, s.sessions[i].handles, s.reported);
        (s.(trace := t), GetReply(MPI_OK, Some(env.codec.pretty(Object(root)))))
  }

  // ---------- Teardown ----------

  function CloseAll(sessions: seq<Session>): (r: seq<Event>) {
    if sessions == [] then []
    else CloseAll(sessions[..|sessions| - 1]) + CloseEvents(sessions[|sessions| - 1].handles)
  }

  function UnloadEvents(modules: seq<Module>): (r: seq<Event>) {
    seq(|modules|, i requires 0 <= i < |modules| => Unloaded(modules[i]))
  }

  /** The calls UnloadModules makes; afterwards the registry is not used again. */
  function UnloadModules(s: State): (trace: seq<Event>) {
    s.trace + CloseAll(s.sessions) + UnloadEvents(s.modules)
  }

  // ---------- Runs ----------

  datatype Op =
    | OpLoad(found: seq<Module>, config: Option<Config>)
    | OpOpen(client: Option<string>, size: int, uuid: string)
    | OpClose(handle: Option<string>)
    | OpSet(handle: Option<string>, component: Option<string>, object_: Option<string>, payload: Option<string>, size: int)
    | OpGet(handle: Option<string>, component: Option<string>, object_: Option<string>)
    | OpSetDesired(handle: Option<string>, payload: Option<string>, size: int)
    | OpGetReported(handle: Option<string>)

  function Step(env: Env, s: State, op: Op): State {
    match op
    case OpLoad(found, config) => Load(s, found, config)
    case OpOpen(client, size, uuid) => MpiOpen(env, s, client, size, uuid).0
    case OpClose(handle) => MpiClose(s, handle)
    case OpSet(handle, component, object_, payload, size) => MpiSet(env, s, handle, component, object_, payload, size).0
    case OpGet(handle, component, object_) => MpiGet(env, s, handle, component, object_).0
    case OpSetDesired(handle, payload, size) => MpiSetDesired(env, s, handle, payload, size).0
    case OpGetReported(handle) => MpiGetReported(env, s, handle).0
  }

  /** The registry after a whole run from the empty state; the last operation is the outermost. */
  function Run(env: Env, ops: seq<Op>): State {
    if ops == [] then Empty else Step(env, Run(env, ops[..|ops| - 1]), ops[|ops| - 1])
  }
}
