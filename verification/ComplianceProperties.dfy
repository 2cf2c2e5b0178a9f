/** What the compliance operations do to the device and say about it, told from the input, the strings
    that persist and the device's own answers, and that Get and Test agree. */
module ComplianceProperties {
  import opened Base
  import opened Reasons
  import opened Compliance

  // ---------- One object on the device ----------

  /** The session after a stretch of operations: a refresh happens only when there is none. */
  function HandleAfter(handle: Option<int>, t: seq<DeviceOp>): Option<int> {
    if t == [] then handle
    else if t[|t| - 1].SessionRefreshed? then t[|t| - 1].handle
    else HandleAfter(handle, t[..|t| - 1])
  }

  /** The refresh, if any, that a failed attempt at the baseline leads to. */
  function RefreshCalls(env: Env, t: seq<DeviceOp>, handle: Option<int>): seq<DeviceOp> {
    if handle.Some? then [] else [SessionRefreshed(env.refresh(t))]
  }

  /** The operations that send a value to an object: none if it does not serialise; the baseline; if
      that refuses, a refresh unless there is a session; and the platform if there is one then. */
  function SendCalls(env: Env, t: seq<DeviceOp>, handle: Option<int>, component: string, object_: string, value: string): seq<DeviceOp> {
    match env.codec.serialize(String(value))
    case None => []
    case Some(text) =>
      var status := env.baselineSet(t, component, object_, text);
      var first := [BaselineSet(component, object_, text, status)];
      if status == 0 then first
      else
        var tried := first + RefreshCalls(env, t + first, handle);
        if HandleAfter(handle, tried).None? then tried
        else tried + [PlatformSet(component, object_, text, env.platformSet(t + tried, component, object_, text))]
  }

  /** The operations that read an object, in the same way. */
  function ReadCalls(env: Env, t: seq<DeviceOp>, handle: Option<int>, component: string, object_: string): seq<DeviceOp> {
    var reply := env.baselineGet(t, component, object_);
    var first := [BaselineGet(component, object_, reply)];
    if reply.status == 0 then first
    else
      var tried := first + RefreshCalls(env, t + first, handle);
      if HandleAfter(handle, tried).None? then tried
      else tried + [PlatformGet(component, object_, env.platformGet(t + tried, component, object_))]
  }

  /** The last reply in a stretch of operations. */
  function LastReply(t: seq<DeviceOp>): Reply {
    if t == [] then Reply.Reply(0, None)
    else if t[|t| - 1].BaselineGet? || t[|t| - 1].PlatformGet? then t[|t| - 1].reply
    else LastReply(t[..|t| - 1])
  }

  /** The statuses of the set operations in a stretch of trace. */
  function SetStatuses(t: seq<DeviceOp>): seq<int> {
    if t == [] then []
    else SetStatuses(t[..|t| - 1]) + (if t[|t| - 1].BaselineSet? || t[|t| - 1].PlatformSet? then [t[|t| - 1].status] else [])
  }

  /** The status that failed last in the calls of a send; `before` if its last attempt succeeded, and
      ENOMEM for a value that does not serialise. */
  function Kept(t: seq<DeviceOp>, before: int): int {
    var st := SetStatuses(t);
    if t == [] then 12 else if st == [] || st[|st| - 1] == 0 then before else st[|st| - 1]
  }

  lemma Snoc(t: seq<DeviceOp>, op: DeviceOp, handle: Option<int>)
    ensures HandleAfter(handle, t + [op]) == if op.SessionRefreshed? then op.handle else HandleAfter(handle, t)
    ensures LastReply(t + [op]) == if op.BaselineGet? || op.PlatformGet? then op.reply else LastReply(t)
    ensures SetStatuses(t + [op]) == SetStatuses(t) + (if op.BaselineSet? || op.PlatformSet? then [op.status] else [])
  {
    assert (t + [op])[..|t|] == t;
  }

  lemma Single(op: DeviceOp, handle: Option<int>)
    ensures HandleAfter(handle, [op]) == if op.SessionRefreshed? then op.handle else handle
    ensures LastReply([op]) == if op.BaselineGet? || op.PlatformGet? then op.reply else Reply.Reply(0, None)
    ensures SetStatuses([op]) == if op.BaselineSet? || op.PlatformSet? then [op.status] else []
  {
    Snoc([], op, handle);
    assert [] + [op] == [op];
  }

  /** After a failed first operation: the refresh, and what it leaves of session, reply and statuses. */
  lemma AfterFirst(env: Env, l: Link, first: DeviceOp) returns (tried: seq<DeviceOp>)
    requires !first.SessionRefreshed?
    ensures tried == [first] + RefreshCalls(env, l.trace + [first], l.handle)
    ensures var l2 := EnsureSession(env, l.(trace := l.trace + [first]));
            && l2.trace == l.trace + tried && l2.handle == HandleAfter(l.handle, tried) && l2.mpiResult == l.mpiResult
    ensures SetStatuses(tried) == SetStatuses([first]) && LastReply(tried) == LastReply([first])
  {
    Single(first, l.handle);
    tried := [first];
    if l.handle.None? {
      var refresh := SessionRefreshed(env.refresh(l.trace + [first]));
      Snoc([first], refresh, l.handle);
      tried := [first] + [refresh];
    }
  }

  /** Send makes those calls, and keeps the status of its last attempt iff that failed. */
  lemma SendMakesCalls(env: Env, l: Link, component: string, object_: string, value: string)
    ensures var calls := SendCalls(env, l.trace, l.handle, component, object_, value);
            && Send(env, l, component, object_, value) == Link(HandleAfter(l.handle, calls), Kept(calls, l.mpiResult), l.trace + calls)
            && (calls == [] <==> env.codec.serialize(String(value)).None?)
            && |SetStatuses(calls)| <= 2
  {
    if env.codec.serialize(String(value)).Some? {
      var text := env.codec.serialize(String(value)).value;
      var first := BaselineSet(component, object_, text, env.baselineSet(l.trace, component, object_, text));
      Single(first, l.handle);
      if first.status != 0 {
        var tried := AfterFirst(env, l, first);
        Snoc(tried, PlatformSet(component, object_, text, env.platformSet(l.trace + tried, component, object_, text)), l.handle);
      }
    }
  }

  lemma ReceiveMakesCalls(env: Env, l: Link, component: string, object_: string)
    ensures var calls := ReadCalls(env, l.trace, l.handle, component, object_);
            Receive(env, l, component, object_) == (Link(HandleAfter(l.handle, calls), l.mpiResult, l.trace + calls), LastReply(calls))
  {
    var first := BaselineGet(component, object_, env.baselineGet(l.trace, component, object_));
    Single(first, l.handle);
    if first.reply.status != 0 {
      var tried := AfterFirst(env, l, first);
      var second := PlatformGet(component, object_, env.platformGet(l.trace + tried, component, object_));
      Snoc(tried, second, l.handle);
      assert (l.trace + tried) + [second] == l.trace + (tried + [second]);
    }
  }

  // ---------- What Get and Test do ----------

  /** The input has what both operations need. */
  predicate ReadComplete(i: Input) {
    && i.ruleId.Some? && i.payloadKey.Some? && i.componentName.Some? && i.reportedObjectName.Some?
    && (i.procedureObjectName.Some? ==> i.procedureObjectValue.Some?)
  }

  /** The operations of the procedure object, first of all. */
  function ProcedureCalls(env: Env, t: seq<DeviceOp>, handle: Option<int>, i: Input): seq<DeviceOp>
    requires i.componentName.Some? && (i.procedureObjectName.Some? ==> i.procedureObjectValue.Some?)
  {
    if i.procedureObjectName.None? then []
    else SendCalls(env, t, handle, i.componentName.value, i.procedureObjectName.value, i.procedureObjectValue.value)
  }

  /** Then those of the init object with the desired value, if neither is "-". */
  function InitCalls(env: Env, t: seq<DeviceOp>, handle: Option<int>, component: string, init: Option<string>, desired: string): seq<DeviceOp> {
    if init.Some? && init.value != "-" && desired != "-" then SendCalls(env, t, handle, component, init.value, desired) else []
  }

  /** The desired value that an input is judged with: its own or the one kept. */
  function Desired(g: Globals, i: Input): string {
    if i.desiredObjectValue.Some? then i.desiredObjectValue.value else g.desiredObjectValue
  }

  function Expected(g: Globals, i: Input): string {
    if i.expectedObjectValue.Some? then i.expectedObjectValue.value else g.expectedObjectValue
  }

  /** What a reply means: the text it holds, or the MI result and MPI result that refuse it. */
  datatype Reading = Text(text: string) | NoText(miResult: int, mpiResult: int)

  function ReadingOf(codec: Codec, reply: Reply): Reading {
    if reply.status != 0 then NoText(1, reply.status)
    else
      match reply.payload
      case None => NoText(1, 61)
      case Some(payload) => match codec.parse(payload) case Some(String(text)) => Text(text) case _ => NoText(4, 22)
  }

  /** Reading the device makes the calls of the init object and of the read, and stores the text of
      the last reply or its refusal. */
  lemma ReadDeviceReads(env: Env, s: State)
    ensures var g, l := s.g, s.link;
            var init := InitCalls(env, l.trace, l.handle, g.componentName, g.initObjectName, g.desiredObjectValue);
            var handle := HandleAfter(l.handle, init);
            var read := ReadCalls(env, l.trace + init, handle, g.componentName, g.reportedObjectName);
            var (s', mi) := ReadDevice(env, s);
            && s'.link.trace == l.trace + init + read && s'.link.handle == HandleAfter(handle, read)
            && match ReadingOf(env.codec, LastReply(read))
               case Text(text) => mi == 0 && s'.link.mpiResult == 0 && s'.g == g.(reportedObjectValue := Some(text))
               case NoText(refusal, mpi) => mi == refusal && s'.link.mpiResult == mpi && s'.g == g
  {
    var g, l := s.g, s.link;
    InitMakesCalls(env, g, l);
    var l' := if NeedsInit(g) then Send(env, l, g.componentName, g.initObjectName.value, g.desiredObjectValue) else l;
    ReceiveMakesCalls(env, l', g.componentName, g.reportedObjectName);
  }

  lemma InitMakesCalls(env: Env, g: Globals, l: Link)
    ensures var calls := InitCalls(env, l.trace, l.handle, g.componentName, g.initObjectName, g.desiredObjectValue);
            var l' := if NeedsInit(g) then Send(env, l, g.componentName, g.initObjectName.value, g.desiredObjectValue) else l;
            l'.trace == l.trace + calls && l'.handle == HandleAfter(l.handle, calls)
  {
    if NeedsInit(g) { SendMakesCalls(env, l, g.componentName, g.initObjectName.value, g.desiredObjectValue); }
  }

  // ---------- The operations ----------

  function BeforeReadByGet(env: Env, s: State, i: Input): State
    requires HasIds(i) && i.reportedObjectName.Some?
  {
    var g2 := StoreProcedure(StoreIds(s.g.(resourceId := i.resourceId), i).(initObjectName := i.initObjectName), i);
    var g3 := g2.(reportedObjectName := i.reportedObjectName.value);
    var g4 := if i.desiredObjectName.Some? then g3.(desiredObjectName := i.desiredObjectName.value) else g3;
    State(StoreDesiredValue(g4, i), SendProcedure(env, s.link, g2.componentName, i))
  }

  function BeforeReadByTest(env: Env, s: State, i: Input): State
    requires HasIds(i) && i.reportedObjectName.Some?
  {
    var g2 := StoreIds(s.g, i).(initObjectName := i.initObjectName);
    var g3 := StoreProcedure(StoreDesiredValue(g2.(reportedObjectName := i.reportedObjectName.value), i), i);
    State(g3, SendProcedure(env, s.link, g3.componentName, i))
  }

  lemma ProcedureMakesCalls(env: Env, l: Link, i: Input)
    requires i.componentName.Some? && (i.procedureObjectName.Some? ==> i.procedureObjectValue.Some?)
    ensures var calls := ProcedureCalls(env, l.trace, l.handle, i);
            var l' := SendProcedure(env, l, i.componentName.value, i);
            && l'.trace == l.trace + calls && l'.handle == HandleAfter(l.handle, calls)
            && l'.mpiResult == if i.procedureObjectName.Some? then Kept(calls, l.mpiResult) else l.mpiResult
  {
    if i.procedureObjectName.Some? {
      SendMakesCalls(env, l, i.componentName.value, i.procedureObjectName.value, i.procedureObjectValue.value);
    }
  }

  /** What an operation that passes validation does: the procedure, then, on the right distribution,
      the reading of the input's own reported object; and what comes of the last reply. */
  ghost predicate Reads(env: Env, s: State, i: Input, s': State, p: Posted)
    requires ReadComplete(i)
  {
    var procedure := ProcedureCalls(env, s.link.trace, s.link.handle, i);
    var t, handle := s.link.trace + procedure, HandleAfter(s.link.handle, procedure);
    if !env.correctDistribution(i.payloadKey.value) then s'.link.trace == t && s'.link.handle == handle && p == Posted(7, false, "", "")
    else
      var component := i.componentName.value;
      var init := InitCalls(env, t, handle, component, i.initObjectName, Desired(s.g, i));
      var read := ReadCalls(env, t + init, HandleAfter(handle, init), component, i.reportedObjectName.value);
      && s'.link.trace == t + init + read && s'.link.handle == HandleAfter(HandleAfter(handle, init), read)
      && match ReadingOf(env.codec, LastReply(read))
         case Text(text) =>
           && p.miResult == s'.link.mpiResult == 0 && (p.compliant <==> Expected(s.g, i) <= text)
           && s'.g.reportedObjectValue == Some(text)
         case NoText(mi, mpi) => p == Posted(mi, false, "", "") && s'.link.mpiResult == mpi
  }

  /** The state in which the device is read, as far as the input tells it. */
  ghost predicate Prepared(env: Env, s: State, i: Input, b: State)
    requires ReadComplete(i)
  {
    && b.link == SendProcedure(env, s.link, i.componentName.value, i)
    && b.g.componentName == i.componentName.value && b.g.initObjectName == i.initObjectName
    && b.g.desiredObjectValue == Desired(s.g, i) && b.g.reportedObjectName == i.reportedObjectName.value
    && b.g.expectedObjectValue == s.g.expectedObjectValue
  }

  lemma ReadsFrom(env: Env, s: State, i: Input, b: State, s': State, p: Posted)
    requires ReadComplete(i) && env.correctDistribution(i.payloadKey.value) && Prepared(env, s, i, b)
    requires var (s2, mi) := ReadDevice(env, b);
             && s'.link == s2.link && s'.g.reportedObjectValue == s2.g.reportedObjectValue
             && (mi != 0 ==> p == Posted(mi, false, "", ""))
             && (mi == 0 && s2.g.reportedObjectValue.Some? ==>
                   p.miResult == 0 && (p.compliant <==> Expected(s.g, i) <= s2.g.reportedObjectValue.value))
    ensures Reads(env, s, i, s', p)
  {
    ProcedureMakesCalls(env, s.link, i);
    ReadDeviceReads(env, b);
  }

  /** Get is what follows from reading the device in the state it comes to before. */
  lemma GetIsRead(env: Env, s: State, i: Input)
    requires ReadComplete(i) && env.correctDistribution(i.payloadKey.value)
    ensures var (s2, mi) := ReadDevice(env, BeforeReadByGet(env, s, i));
            Get(env, s, Some(i)) ==
              if mi != 0 || s2.g.reportedObjectValue.None? then (s2, Refuse(mi))
              else
                var g := if i.expectedObjectValue.Some? then s2.g.(expectedObjectValue := i.expectedObjectValue.value) else s2.g;
                var reported := g.reportedObjectValue.value;
                var compliant := Compliant(g.expectedObjectValue, reported);
                (s2.(g := g), Posted(mi, compliant, ReasonCode(env, g, compliant), ReasonPhrase(g.expectedObjectValue, reported)))
  {
  }

  lemma BeforeReadFacts(env: Env, s: State, i: Input)
    requires ReadComplete(i)
    ensures var b := BeforeReadByGet(env, s, i);
            && Prepared(env, s, i, b)
            && b.g.resourceId == i.resourceId && b.g.ruleId == i.ruleId.value && b.g.payloadKey == i.payloadKey.value
    ensures !env.correctDistribution(i.payloadKey.value) ==> Get(env, s, Some(i)) == (BeforeReadByGet(env, s, i), Refuse(7))
  {
  }

  lemma GetReads(env: Env, s: State, i: Input)
    requires ReadComplete(i)
    ensures var (s', p) := Get(env, s, Some(i)); Reads(env, s, i, s', p)
  {
    BeforeReadFacts(env, s, i);
    if env.correctDistribution(i.payloadKey.value) {
      var b := BeforeReadByGet(env, s, i);
      GetIsRead(env, s, i);
      ReadDeviceReads(env, b);
      ReadsFrom(env, s, i, b, Get(env, s, Some(i)).0, Get(env, s, Some(i)).1);
    } else {
      ProcedureMakesCalls(env, s.link, i);
    }
  }

  /** Test, too, with its own way of taking the expected value. */
  lemma TestIsRead(env: Env, s: State, i: Input)
    requires ReadComplete(i)
    ensures Prepared(env, s, i, BeforeReadByTest(env, s, i))
    ensures Test(env, s, Some(i)) ==
              if !env.correctDistribution(i.payloadKey.value) then (BeforeReadByTest(env, s, i), Refuse(7))
              else
                var (s2, mi) := ReadDevice(env, BeforeReadByTest(env, s, i));
                if mi != 0 then (s2, Refuse(mi))
                else
                  var expected := if i.expectedObjectValue.Some? then i.expectedObjectValue.value else s2.g.expectedObjectValue;
                  (s2, Posted(mi, s2.g.reportedObjectValue.Some? && Compliant(expected, s2.g.reportedObjectValue.value), "", ""))
  {
  }

  lemma TestReads(env: Env, s: State, i: Input)
    requires ReadComplete(i)
    ensures var (s', p) := Test(env, s, Some(i)); Reads(env, s, i, s', p)
  {
    TestIsRead(env, s, i);
    if env.correctDistribution(i.payloadKey.value) {
      var b := BeforeReadByTest(env, s, i);
      ReadDeviceReads(env, b);
      ReadsFrom(env, s, i, b, Test(env, s, Some(i)).0, Test(env, s, Some(i)).1);
    } else {
      ProcedureMakesCalls(env, s.link, i);
    }
  }

  /** An input without what they need is refused by both; Test does nothing to the device then, and Get
      no more than its procedure, which it sends iff only the reported object is missing. */
  lemma IncompleteIsRefused(env: Env, s: State, input: Option<Input>)
    requires input.Some? ==> !ReadComplete(input.value)
    ensures Get(env, s, input).1 == Test(env, s, input).1 == Posted(1, false, "", "")
    ensures Test(env, s, input).0.link == s.link
    ensures Get(env, s, input).0.link.trace == s.link.trace +
              if input.Some? && ReadComplete(input.value.(reportedObjectName := Some("")))
              then ProcedureCalls(env, s.link.trace, s.link.handle, input.value) else []
  {
    if input.Some? && ReadComplete(input.value.(reportedObjectName := Some(""))) {
      ProcedureMakesCalls(env, s.link, input.value);
    }
  }

  /** The code says whether the rule is met and which it is; without valid ids it is a standing text. */
  lemma CodeNamesRule(env: Env, g: Globals)
    ensures env.validIds(g.resourceId, g.ruleId, g.payloadKey) ==>
              && ReasonCode(env, g, true) == "BaselineSettingCompliant:{" + g.ruleId + "}"
              && ReasonCode(env, g, false) == "BaselineSettingNotCompliant:{" + g.ruleId + "}"
    ensures !env.validIds(g.resourceId, g.ruleId, g.payloadKey) ==>
              && ReasonCode(env, g, true) == "Audit passed for an invalid resource and/or rule id. See /var/log/osconfig_nrp.*"
              && ReasonCode(env, g, false) == "Audit failed for an invalid resource and/or rule id. See /var/log/osconfig_nrp.*"
  {
  }

  /** The phrase is the reported text without the expected one in front; a standing text takes the place
      of nothing and of a bare "FAIL". */
  lemma PhraseTellsRest(expected: string, rest: string, reported: string)
    ensures ReasonPhrase(expected, expected + rest) == if rest == "" then "Audit passed" else rest
    ensures !(expected <= reported) ==> ReasonPhrase(expected, reported) == if reported == "FAIL" then "Audit failed. See /var/log/osconfig_nrp.*" else reported
  {
    assert (expected + rest)[|expected|..] == rest;
    assert rest == "" ==> expected + rest == expected;
  }

  /** With a verdict Get posts code and phrase for the ids of its own input and the text it read. */
  lemma GetGivesReason(env: Env, s: State, i: Input)
    requires ReadComplete(i) && Get(env, s, Some(i)).1.miResult == 0
    ensures var (s', p) := Get(env, s, Some(i));
            && s'.g.resourceId == i.resourceId && s'.g.ruleId == i.ruleId.value && s'.g.payloadKey == i.payloadKey.value
            && s'.g.reportedObjectValue.Some?
            && p.code == ReasonCode(env, s'.g, p.compliant)
            && p.phrase == ReasonPhrase(Expected(s.g, i), s'.g.reportedObjectValue.value)
  {
    BeforeReadFacts(env, s, i);
    GetIsRead(env, s, i);
    ReadDeviceReads(env, BeforeReadByGet(env, s, i));
  }

  /** Set is OK iff its input is complete and the distribution is right, whatever the device says. It
      sends the procedure object of a complete input first, and the desired object iff it is OK. The
      result kept to be reported next is then that of the last send that failed, and else its own. */
  lemma SetSends(env: Env, s: State, input: Option<Input>)
    ensures var (s', mi) := Set(env, s, input);
            if input.None? || !SetComplete(input.value) then mi == 1 && s'.link == s.link.(mpiResult := 1)
            else
              var i := input.value;
              var procedure := ProcedureCalls(env, s.link.trace, s.link.handle, i);
              var t, handle := s.link.trace + procedure, HandleAfter(s.link.handle, procedure);
              if !env.correctDistribution(i.payloadKey.value) then mi == 7 && s'.link == Link(handle, 7, t)
              else
                var desired := SendCalls(env, t, handle, i.componentName.value, i.desiredObjectName.value, i.desiredObjectValue.value);
                var kept := if i.procedureObjectName.Some? then Kept(procedure, s.link.mpiResult) else s.link.mpiResult;
                mi == 0 && s'.link == Link(HandleAfter(handle, desired), Kept(desired, kept), t + desired)
  {
    if input.Some? && SetComplete(input.value) {
      var i := input.value;
      ProcedureMakesCalls(env, s.link, i);
      SendMakesCalls(env, SendProcedure(env, s.link, i.componentName.value, i), i.componentName.value, i.desiredObjectName.value, i.desiredObjectValue.value);
    }
  }

  /** The input names what Set needs. */
  predicate SetComplete(i: Input) {
    && i.ruleId.Some? && i.payloadKey.Some? && i.componentName.Some?
    && i.desiredObjectName.Some? && i.desiredObjectValue.Some?
    && (i.procedureObjectName.Some? ==> i.procedureObjectValue.Some?)
  }

  // ---------- Get and Test agree ----------

  /** The inputs on which Get has acted on the device before it refuses: everything up to the reported
      object name is in order, a procedure was sent, and only then that name turns out to be missing. */
  predicate GetActsAlone(env: Env, input: Option<Input>) {
    && input.Some? && HasIds(input.value) && input.value.reportedObjectName.None?
    && input.value.procedureObjectName.Some? && input.value.procedureObjectValue.Some?
    && env.codec.serialize(String(input.value.procedureObjectValue.value)).Some?
  }

  lemma SendActs(env: Env, l: Link, component: string, object_: string, value: string)
    ensures env.codec.serialize(String(value)).Some? ==> |Send(env, l, component, object_, value).trace| > |l.trace|
    ensures env.codec.serialize(String(value)).None? ==> Send(env, l, component, object_, value).trace == l.trace
  {
  }

  /** Reading the device depends on few of the strings, and changes one. */
  lemma ReadDeviceFrame(env: Env, a: State, b: State)
    requires a.link == b.link
    requires a.g.componentName == b.g.componentName && a.g.initObjectName == b.g.initObjectName
    requires a.g.desiredObjectValue == b.g.desiredObjectValue && a.g.reportedObjectName == b.g.reportedObjectName
    ensures var (a', ma) := ReadDevice(env, a);
            var (b', mb) := ReadDevice(env, b);
            && ma == mb && a'.link == b'.link
            && a'.g == a.g.(reportedObjectValue := a'.g.reportedObjectValue)
            && b'.g == b.g.(reportedObjectValue := b'.g.reportedObjectValue)
            && (ma == MI_RESULT_OK ==> a'.g.reportedObjectValue == b'.g.reportedObjectValue && a'.g.reportedObjectValue.Some?)
  {
  }

  /** From every state and for every input, Get and Test post the same MI result and, when that is OK,
      the same verdict. They issue the same operations to the device iff Get does not act alone. */
  lemma GetAndTestAgree(env: Env, s: State, input: Option<Input>)
    ensures var (sg, pg) := Get(env, s, input);
            var (st, pt) := Test(env, s, input);
            && pg.miResult == pt.miResult && pg.compliant == pt.compliant
            && (sg.link.trace == st.link.trace <==> !GetActsAlone(env, input))
  {
    if input.Some? && HasIds(input.value) {
      var i := input.value;
      if i.procedureObjectName.Some? && i.procedureObjectValue.Some? {
        SendActs(env, s.link, i.componentName.value, i.procedureObjectName.value, i.procedureObjectValue.value);
      }
      if i.reportedObjectName.Some? && ProcedureComplete(i) { AgreeOnceRead(env, s, i); }
    }
  }

  /** Agreement on inputs that pass validation. */
  lemma AgreeOnceRead(env: Env, s: State, i: Input)
    requires HasIds(i) && i.reportedObjectName.Some? && ProcedureComplete(i)
    ensures var (sg, pg) := Get(env, s, Some(i));
            var (st, pt) := Test(env, s, Some(i));
            pg.miResult == pt.miResult && pg.compliant == pt.compliant && sg.link == st.link
  {
    ReadDeviceFrame(env, BeforeReadByGet(env, s, i), BeforeReadByTest(env, s, i));
  }

  // ---------- What a missing expected value means ----------

  datatype Op = OpGet(input: Option<Input>) | OpTest(input: Option<Input>) | OpSet(input: Option<Input>)

  function Step(env: Env, s: State, op: Op): State {
    match op
    case OpGet(input) => Get(env, s, input).0
    case OpTest(input) => Test(env, s, input).0
    case OpSet(input) => Set(env, s, input).0
  }

  function Run(env: Env, init: State, ops: seq<Op>): State {
    if ops == [] then init else Step(env, Run(env, init, ops[..|ops| - 1]), ops[|ops| - 1])
  }

  /** The expected value of the last Get that had one and read the device, "PASS" if there was none. */
  function LastExpected(env: Env, init: State, ops: seq<Op>): string {
    if ops == [] then SECURITY_AUDIT_PASS
    else
      var n := |ops| - 1;
      if ops[n].OpGet? && ops[n].input.Some? && ops[n].input.value.expectedObjectValue.Some?
         && Get(env, Run(env, init, ops[..n]), ops[n].input).1.miResult == MI_RESULT_OK
      then ops[n].input.value.expectedObjectValue.value
      else LastExpected(env, init, ops[..n])
  }

  lemma GetKeepsExpected(env: Env, s: State, input: Option<Input>)
    ensures Get(env, s, input).0.g.expectedObjectValue
            == if Get(env, s, input).1.miResult == MI_RESULT_OK && input.Some? && input.value.expectedObjectValue.Some?
               then input.value.expectedObjectValue.value else s.g.expectedObjectValue
  {
  }

  lemma TestKeepsExpected(env: Env, s: State, input: Option<Input>)
    ensures Test(env, s, input).0.g.expectedObjectValue == s.g.expectedObjectValue
  {
  }

  /** Over every history, an input without expected value is judged by Get and Test against the value
      of the last Get that had one, and against "PASS" only if there was no such Get. */
  lemma {:induction false} ExpectedPersists(env: Env, link: Link, ops: seq<Op>)
    ensures var init := State(Initial, link);
            Run(env, init, ops).g.expectedObjectValue == LastExpected(env, init, ops)
  {
    if ops != [] {
      var n := |ops| - 1;
      ExpectedPersists(env, link, ops[..n]);
      var s := Run(env, State(Initial, link), ops[..n]);
      match ops[n] {
        case OpGet(input) => GetKeepsExpected(env, s, input);
        case OpTest(input) => TestKeepsExpected(env, s, input);
        case OpSet(input) =>
      }
    }
  }
  /** The operation comes to the point at which it stores the desired value. */
  predicate StoresDesired(op: Op) {
    match op
    case OpGet(Some(i)) => ReadComplete(i)
    case OpTest(Some(i)) => HasIds(i) && i.reportedObjectName.Some?
    case OpSet(Some(i)) => HasIds(i) && i.desiredObjectName.Some?
    case _ => false
  }

  /** The last desired value that an operation stored, "FAIL" if there was none. */
  function LastDesired(ops: seq<Op>): string {
    if ops == [] then "FAIL"
    else
      var op := ops[|ops| - 1];
      if StoresDesired(op) && op.input.value.desiredObjectValue.Some? then op.input.value.desiredObjectValue.value
      else LastDesired(ops[..|ops| - 1])
  }

  lemma GetStoresDesired(env: Env, s: State, input: Option<Input>)
    ensures Get(env, s, input).0.g.desiredObjectValue == if StoresDesired(OpGet(input)) then Desired(s.g, input.value) else s.g.desiredObjectValue
  {
    if input.Some? && ReadComplete(input.value) {
      BeforeReadFacts(env, s, input.value);
      ReadDeviceReads(env, BeforeReadByGet(env, s, input.value));
      if env.correctDistribution(input.value.payloadKey.value) { GetIsRead(env, s, input.value); }
    }
  }

  lemma TestStoresDesired(env: Env, s: State, input: Option<Input>)
    ensures Test(env, s, input).0.g.desiredObjectValue == if StoresDesired(OpTest(input)) then Desired(s.g, input.value) else s.g.desiredObjectValue
  {
    if input.Some? && ReadComplete(input.value) {
      TestIsRead(env, s, input.value);
      ReadDeviceReads(env, BeforeReadByTest(env, s, input.value));
    }
  }

  /** Over every history, an input without desired value is prepared with the last one stored. */
  lemma {:induction false} DesiredPersists(env: Env, link: Link, ops: seq<Op>)
    ensures Run(env, State(Initial, link), ops).g.desiredObjectValue == LastDesired(ops)
  {
    if ops != [] {
      var n := |ops| - 1;
      DesiredPersists(env, link, ops[..n]);
      var s := Run(env, State(Initial, link), ops[..n]);
      match ops[n] {
        case OpGet(input) => GetStoresDesired(env, s, input);
        case OpTest(input) => TestStoresDesired(env, s, input);
        case OpSet(input) =>
      }
    }
  }

  // ---------- Inputs that tell the code from the intention ----------

  /** A device that refuses every set, grants a session and reports "FAIL", with a library for which a
      text is its own JSON. */
  function Refusing(): Env {
    Env((t, c, o, p) => EINVAL, (t, c, o, p) => EINVAL,
        (t, c, o) => Reply(MPI_OK, Some(SECURITY_AUDIT_FAIL)), (t, c, o) => Reply(MPI_OK, Some(SECURITY_AUDIT_FAIL)),
        t => Some(1), k => true, (r, u, k) => true,
        Codec(text => Some(String(text)), (value: Json) => if value.String? then Some(value.text) else None, value => "", x => 0))
  }

  /** An input with the ids and the reported object only. */
  const SampleInput := Input(None, Some("rule"), Some("key"), Some("component"), None, None, None, Some("reported"), None, None, None)

  /** A procedure and no reported object: Get has acted when it refuses, Test has not. */
  lemma GetActsOnProcedure(s: State)
    ensures var input := Some(SampleInput.(procedureObjectName := Some("procedure"), procedureObjectValue := Some("1"), reportedObjectName := None));
            && GetActsAlone(Refusing(), input)
            && |Get(Refusing(), s, input).0.link.trace| > |s.link.trace|
            && Test(Refusing(), s, input).0.link.trace == s.link.trace
  {
    SendActs(Refusing(), s.link, "component", "procedure", "1");
  }

  lemma RunOne(env: Env, init: State, op: Op)
    ensures Run(env, init, [op]) == Step(env, init, op)
  {
    var ops := [op];
    assert ops[..|ops| - 1] == [];
    assert Run(env, init, ops[..|ops| - 1]) == init;
  }

  /** Without an expected value the report of that device is judged by the value kept. */
  lemma JudgedByKept(s: State)
    ensures Test(Refusing(), s, Some(SampleInput)).1.compliant <==> Compliant(s.g.expectedObjectValue, SECURITY_AUDIT_FAIL)
  {
  }

  lemma ExpectedReplaced(s: State)
    ensures var s' := Get(Refusing(), s, Some(SampleInput.(expectedObjectValue := Some(SECURITY_AUDIT_FAIL)))).0;
            s'.g.expectedObjectValue == SECURITY_AUDIT_FAIL
  {
  }

  lemma FailIsNotPass()
    ensures Compliant(SECURITY_AUDIT_FAIL, SECURITY_AUDIT_FAIL) && !Compliant(SECURITY_AUDIT_PASS, SECURITY_AUDIT_FAIL)
  {
    assert SECURITY_AUDIT_PASS[0] != SECURITY_AUDIT_FAIL[0];
  }

  /** After a Get that expected "FAIL", an input without expected value complies with a report of
      "FAIL", which it does not comply with at the start, when "PASS" is kept. */
  lemma MissingExpectedIsNotPass(link: Link)
    ensures var env, init := Refusing(), State(Initial, link);
            var s := Run(env, init, [OpGet(Some(SampleInput.(expectedObjectValue := Some(SECURITY_AUDIT_FAIL))))]);
            && Test(env, s, Some(SampleInput)).1.compliant && Get(env, s, Some(SampleInput)).1.compliant
            && !Test(env, init, Some(SampleInput)).1.compliant && !Get(env, init, Some(SampleInput)).1.compliant
  {
    var env, init := Refusing(), State(Initial, link);
    var op := OpGet(Some(SampleInput.(expectedObjectValue := Some(SECURITY_AUDIT_FAIL))));
    RunOne(env, init, op);
    var s := Run(env, init, [op]);
    ExpectedReplaced(init);
    FailIsNotPass();
    JudgedByKept(s);
    JudgedByKept(init);
    GetAndTestAgree(env, s, Some(SampleInput));
    GetAndTestAgree(env, init, Some(SampleInput));
  }

  /** Both attempts to send the desired value fail, and Set is OK. */
  lemma SetOkThoughRefused(s: State)
    ensures var (s', mi) := Set(Refusing(), s, Some(SampleInput.(desiredObjectName := Some("desired"), desiredObjectValue := Some("1"))));
            && mi == MI_RESULT_OK && s'.link.mpiResult == EINVAL
            && |s'.link.trace| >= |s.link.trace| + 2
            && s'.link.trace[|s.link.trace|] == BaselineSet("component", "desired", "1", EINVAL)
            && s'.link.trace[|s'.link.trace| - 1] == PlatformSet("component", "desired", "1", EINVAL)
  {
  }
}
