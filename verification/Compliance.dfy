/** The compliance resource: Get, Test and Set over strings that persist between calls. Get and Test
    are written separately and read their input in different orders; the point is that they agree. */
module Compliance {
  import opened Base
  import opened Reasons

  const MPI_OK := 0
  const ENOMEM := 12
  const EINVAL := 22
  const ENODATA := 61

  const MI_RESULT_OK := 0
  const MI_RESULT_FAILED := 1
  const MI_RESULT_INVALID_PARAMETER := 4
  const MI_RESULT_NOT_SUPPORTED := 7

  const DEFAULT_VALUE := "-"

  datatype Reply = Reply(status: int, payload: Option<string>)

  /** An operation on the local device: through the built-in baseline or through the platform. */
  datatype DeviceOp =
    | BaselineSet(component: string, object_: string, payload: string, status: int)
    | PlatformSet(component: string, object_: string, payload: string, status: int)
    | BaselineGet(component: string, object_: string, reply: Reply)
    | PlatformGet(component: string, object_: string, reply: Reply)
    | SessionRefreshed(handle: Option<int>)

  /** A device that answers by what was done to it before. */
  datatype Env = Env(
    baselineSet: (seq<DeviceOp>, string, string, string) -> int,
    platformSet: (seq<DeviceOp>, string, string, string) -> int,
    baselineGet: (seq<DeviceOp>, string, string) -> Reply,
    platformGet: (seq<DeviceOp>, string, string) -> Reply,
    refresh: seq<DeviceOp> -> Option<int>,
    correctDistribution: string -> bool,
    validIds: (Option<string>, string, string) -> bool,
    codec: Codec)

  /** The values of an input resource; None for one that is missing. */
  datatype Input = Input(
    resourceId: Option<string>, ruleId: Option<string>, payloadKey: Option<string>, componentName: Option<string>,
    initObjectName: Option<string>, procedureObjectName: Option<string>, procedureObjectValue: Option<string>,
    reportedObjectName: Option<string>, expectedObjectValue: Option<string>,
    desiredObjectName: Option<string>, desiredObjectValue: Option<string>)

  /** The global strings. Those that are freed and left NULL on some path are optional. */
  datatype Globals = Globals(
    resourceId: Option<string>, ruleId: string, payloadKey: string, componentName: string,
    initObjectName: Option<string>, procedureObjectName: Option<string>, procedureObjectValue: Option<string>,
    reportedObjectName: string, expectedObjectValue: string, desiredObjectName: string, desiredObjectValue: string,
    reportedObjectValue: Option<string>)

  const Initial := Globals(None, DEFAULT_VALUE, DEFAULT_VALUE, DEFAULT_VALUE, Some(DEFAULT_VALUE), Some(DEFAULT_VALUE), Some(DEFAULT_VALUE),
                           DEFAULT_VALUE, SECURITY_AUDIT_PASS, DEFAULT_VALUE, SECURITY_AUDIT_FAIL, None)

  /** What concerns the device: the platform session, the last result to report, and the operations
      issued so far. */
  datatype Link = Link(handle: Option<int>, mpiResult: int, trace: seq<DeviceOp>)

  datatype State = State(g: Globals, link: Link)

  // ---------- The device ----------

  function EnsureSession(env: Env, l: Link): Link {
    if l.handle.Some? then l
    else
      var h := env.refresh(l.trace);
      l.(handle := h, trace := l.trace + [SessionRefreshed(h)])
  }

  /** SetDesiredObjectValueToDevice: the baseline first, the platform if that fails. */
  function Send(env: Env, l: Link, component: string, object_: string, value: string): Link {
    match env.codec.serialize(String(value))
    case None => l.(mpiResult := ENOMEM)
    case Some(text) =>
      var st := env.baselineSet(l.trace, component, object_, text);
      var l1 := l.(trace := l.trace + [BaselineSet(component, object_, text, st)]);
      if st == MPI_OK then l1
      else
        var l2 := EnsureSession(env, l1);
        if l2.handle.None? then l2.(mpiResult := st)
        else
          var st' := env.platformSet(l2.trace, component, object_, text);
          var l3 := l2.(trace := l2.trace + [PlatformSet(component, object_, text, st')]);
          if st' == MPI_OK then l3 else l3.(mpiResult := st')
  }

  function Receive(env: Env, l: Link, component: string, object_: string): (Link, Reply) {
    var reply := env.baselineGet(l.trace, component, object_);
    var l1 := l.(trace := l.trace + [BaselineGet(component, object_, reply)]);
    if reply.status == MPI_OK then (l1, reply)
    else
      var l2 := EnsureSession(env, l1);
      if l2.handle.None? then (l2, reply)
      else
        var reply' := env.platformGet(l2.trace, component, object_);
        (l2.(trace := l2.trace + [PlatformGet(component, object_, reply')]), reply')
  }

  /** How a reply is taken: the MPI result, the MI result, and the string it holds. */
  function Interpret(codec: Codec, reply: Reply): (int, int, Option<string>) {
    if reply.status != MPI_OK then (reply.status, MI_RESULT_FAILED, None)
    else if reply.payload.None? then (ENODATA, MI_RESULT_FAILED, None)
    else
      match codec.parse(reply.payload.value)
      case Some(String(text)) => (MPI_OK, MI_RESULT_OK, Some(text))
      case _ => (EINVAL, MI_RESULT_INVALID_PARAMETER, None)
  }

  /** The reported object may need its init object set to the desired value first. */
  predicate NeedsInit(g: Globals) {
    g.initObjectName.Some? && g.initObjectName.value != DEFAULT_VALUE && g.desiredObjectValue != DEFAULT_VALUE
  }

  /** GetReportedObjectValueFromDevice */
  function ReadDevice(env: Env, s: State): (State, int) {
    var l0 := if NeedsInit(s.g) then Send(env, s.link, s.g.componentName, s.g.initObjectName.value, s.g.desiredObjectValue) else s.link;
    var (l1, reply) := Receive(env, l0, s.g.componentName, s.g.reportedObjectName);
    var (mpi, mi, value) := Interpret(env.codec, reply);
    (State(if value.Some? then s.g.(reportedObjectValue := value) else s.g, l1.(mpiResult := mpi)), mi)
  }

  // ---------- Reading the input ----------

  predicate HasIds(i: Input) {
    i.ruleId.Some? && i.payloadKey.Some? && i.componentName.Some?
  }

  /** The three ids that every operation reads first; what comes before a missing one is kept. */
  function StoreIds(g: Globals, i: Input): Globals {
    if i.ruleId.None? then g
    else
      var g1 := g.(ruleId := i.ruleId.value);
      if i.payloadKey.None? then g1
      else
        var g2 := g1.(payloadKey := i.payloadKey.value);
        if i.componentName.None? then g2 else g2.(componentName := i.componentName.value)
  }

  predicate ProcedureComplete(i: Input) {
    i.procedureObjectName.Some? ==> i.procedureObjectValue.Some?
  }

  /** The optional procedure object: a name needs a value, and both together go to the device. */
  function StoreProcedure(g: Globals, i: Input): Globals {
    if i.procedureObjectName.None? then g.(procedureObjectName := None)
    else g.(procedureObjectName := i.procedureObjectName, procedureObjectValue := i.procedureObjectValue)
  }

  function SendProcedure(env: Env, l: Link, component: string, i: Input): Link {
    if i.procedureObjectName.Some? && i.procedureObjectValue.Some?
    then Send(env, l, component, i.procedureObjectName.value, i.procedureObjectValue.value) else l
  }

  function StoreDesiredValue(g: Globals, i: Input): Globals {
    if i.desiredObjectValue.Some? then g.(desiredObjectValue := i.desiredObjectValue.value) else g
  }

  // ---------- The operations ----------

  /** What an operation posts: the MI result and, when that is OK, whether the resource complies. */
  datatype Posted = Posted(miResult: int, compliant: bool, code: string, phrase: string)

  function Refuse(miResult: int): Posted {
    Posted(miResult, false, "", "")
  }

  function ReasonCode(env: Env, g: Globals, compliant: bool): string {
    if env.validIds(g.resourceId, g.ruleId, g.payloadKey) then
      (if compliant then "BaselineSettingCompliant:{" else "BaselineSettingNotCompliant:{") + g.ruleId + "}"
    else if compliant then "Audit passed for an invalid resource and/or rule id. See /var/log/osconfig_nrp.*"
    else "Audit failed for an invalid resource and/or rule id. See /var/log/osconfig_nrp.*"
  }

  function Get(env: Env, s: State, input: Option<Input>): (r: (State, Posted)) {
    if input.None? then (s, Refuse(MI_RESULT_FAILED))
    else
      var i := input.value;
      var g1 := StoreIds(s.g.(resourceId := i.resourceId), i);
      if !HasIds(i) then (State(g1, s.link), Refuse(MI_RESULT_FAILED))
      else
        var g2 := StoreProcedure(g1.(initObjectName := i.initObjectName), i);
        if !ProcedureComplete(i) then (State(g2, s.link), Refuse(MI_RESULT_FAILED))
        else
          var l := SendProcedure(env, s.link, g2.componentName, i);
          if i.reportedObjectName.None? then (State(g2, l), Refuse(MI_RESULT_FAILED))
          else
            var g3 := g2.(reportedObjectName := i.reportedObjectName.value);
            var g4 := if i.desiredObjectName.Some? then g3.(desiredObjectName := i.desiredObjectName.value) else g3;
            var s1 := State(StoreDesiredValue(g4, i), l);
            if !env.correctDistribution(s1.g.payloadKey) then (s1, Refuse(MI_RESULT_NOT_SUPPORTED))
            else
              var (s2, mi) := ReadDevice(env, s1);
              if mi != MI_RESULT_OK || s2.g.reportedObjectValue.None? then (s2, Refuse(mi))
              else
                var g5 := if i.expectedObjectValue.Some? then s2.g.(expectedObjectValue := i.expectedObjectValue.value) else s2.g;
                var reported := g5.reportedObjectValue.value;
                var compliant := Compliant(g5.expectedObjectValue, reported);
                (s2.(g := g5), Posted(mi, compliant, ReasonCode(env, g5, compliant), ReasonPhrase(g5.expectedObjectValue, reported)))
  }

  function Test(env: Env, s: State, input: Option<Input>): (r: (State, Posted)) {
    if input.None? then (s, Refuse(MI_RESULT_FAILED))
    else
      var i := input.value;
      var g1 := StoreIds(s.g, i);
      if !HasIds(i) then (State(g1, s.link), Refuse(MI_RESULT_FAILED))
      else
        var g2 := g1.(initObjectName := i.initObjectName);
        if i.reportedObjectName.None? then (State(g2, s.link), Refuse(MI_RESULT_FAILED))
        else
          var g3 := StoreProcedure(StoreDesiredValue(g2.(reportedObjectName := i.reportedObjectName.value), i), i);
          if !ProcedureComplete(i) then (State(g3, s.link), Refuse(MI_RESULT_FAILED))
          else
            var s1 := State(g3, SendProcedure(env, s.link, g3.componentName, i));
            if !env.correctDistribution(s1.g.payloadKey) then (s1, Refuse(MI_RESULT_NOT_SUPPORTED))
            else
              var (s2, mi) := ReadDevice(env, s1);
              if mi != MI_RESULT_OK then (s2, Refuse(mi))
              else
                var expected := if i.expectedObjectValue.Some? then i.expectedObjectValue.value else s2.g.expectedObjectValue;
                (s2, Posted(mi, s2.g.reportedObjectValue.Some? && Compliant(expected, s2.g.reportedObjectValue.value), "", ""))
  }

  function Set(env: Env, s: State, input: Option<Input>): (r: (State, int)) {
    if input.None? then (s.(link := s.link.(mpiResult := MI_RESULT_FAILED)), MI_RESULT_FAILED)
    else
      var i := input.value;
      var g1 := StoreIds(s.g, i);
      if !HasIds(i) then (State(g1, s.link.(mpiResult := MI_RESULT_FAILED)), MI_RESULT_FAILED)
      else
        var g2 := if i.desiredObjectName.Some? then g1.(desiredObjectName := i.desiredObjectName.value) else g1;
        var g3 := if i.desiredObjectName.Some? then StoreDesiredValue(g2, i) else g2;
        if i.desiredObjectName.None? || i.desiredObjectValue.None? then (State(g3, s.link.(mpiResult := MI_RESULT_FAILED)), MI_RESULT_FAILED)
        else
          var g4 := StoreProcedure(g3, i);
          if !ProcedureComplete(i) then (State(g4, s.link.(mpiResult := MI_RESULT_FAILED)), MI_RESULT_FAILED)
          else
            var l := SendProcedure(env, s.link, g4.componentName, i);
            if !env.correctDistribution(g4.payloadKey) then (State(g4, l.(mpiResult := MI_RESULT_NOT_SUPPORTED)), MI_RESULT_NOT_SUPPORTED)
            else (State(g4, Send(env, l, g4.componentName, g4.desiredObjectName, g4.desiredObjectValue)), MI_RESULT_OK)
  }
}
