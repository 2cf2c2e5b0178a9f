/** What every run of the registry keeps: sessions behave as one stack per uuid, module handles are
    conserved, and requests reach the module that was loaded first. */
module RegistryProperties {
  import opened Base
  import opened Registry

  // ---------- Sessions as stacks ----------

  /** The sessions of one uuid, head first. */
  function StackOf(sessions: seq<Session>, u: string): seq<Session> {
    if sessions == [] then []
    else (if sessions[0].uuid == u then [sessions[0]] else []) + StackOf(sessions[1..], u)
  }

  /** Reference model of one uuid: a stack that opens push on and closes pop from. Operations on
      other uuids do not appear in it at all. */
  function OpenStack(env: Env, ops: seq<Op>, u: string): seq<Session> {
    if ops == [] then []
    else
      var n := |ops| - 1;
      var below := OpenStack(env, ops[..n], u);
      match ops[n]
      case OpOpen(client, size, uuid) =>
        var before := Run(env, ops[..n]);
        if uuid == u && CanOpen(before, client) then [NewSession(env, before, client.value, size, uuid)] + below else below
      case OpClose(handle) =>
        if handle == Some(u) && below != [] then below[1..] else below
      case _ => below
  }

  lemma {:induction false} StackOfConcat(a: seq<Session>, b: seq<Session>, u: string)
    ensures StackOf(a + b, u) == StackOf(a, u) + StackOf(b, u)
  {
    if a == [] {
      assert a + b == b;
    } else {
      StackOfConcat(a[1..], b, u);
      var top := if a[0].uuid == u then [a[0]] else [];
      calc {
        StackOf(a + b, u);
        { assert (a + b)[1..] == a[1..] + b && (a + b)[0] == a[0]; }
        top + StackOf(a[1..] + b, u);
        top + (StackOf(a[1..], u) + StackOf(b, u));
        (top + StackOf(a[1..], u)) + StackOf(b, u);
      }
    }
  }

  lemma {:induction false} StackOfAbsent(sessions: seq<Session>, u: string)
    requires forall j :: 0 <= j < |sessions| ==> sessions[j].uuid != u
    ensures StackOf(sessions, u) == []
  {
    if sessions != [] {
      StackOfAbsent(sessions[1..], u);
    }
  }

  /** Splits a stack around one session of the list. */
  lemma StackOfSplit(sessions: seq<Session>, i: nat, u: string)
    requires i < |sessions|
    ensures StackOf(sessions, u)
            == StackOf(sessions[..i], u) + (if sessions[i].uuid == u then [sessions[i]] else []) + StackOf(sessions[i + 1..], u)
  {
    assert sessions == sessions[..i] + sessions[i..];
    StackOfConcat(sessions[..i], sessions[i..], u);
    assert sessions[i..][1..] == sessions[i + 1..];
  }

  /** FindSession sees the top of the stack. */
  lemma FoundIsTop(sessions: seq<Session>, u: string)
    ensures var i := FindSession(sessions, u);
            && (i < |sessions| <==> StackOf(sessions, u) != [])
            && (i < |sessions| ==> sessions[i] == StackOf(sessions, u)[0])
  {
    var i := FindSession(sessions, u);
    if i == |sessions| {
      StackOfAbsent(sessions, u);
    } else {
      StackOfSplit(sessions, i, u);
      StackOfAbsent(sessions[..i], u);
    }
  }

  /** Taking a session out of the list leaves the stacks of other uuids alone. */
  lemma RemoveKeepsOthers(sessions: seq<Session>, i: nat, u: string)
    requires i < |sessions| && sessions[i].uuid != u
    ensures StackOf(sessions[..i] + sessions[i + 1..], u) == StackOf(sessions, u)
  {
    StackOfConcat(sessions[..i], sessions[i + 1..], u);
    StackOfSplit(sessions, i, u);
  }

  /** Taking the head-most session of a uuid out of the list pops that uuid's stack. */
  lemma RemovePops(sessions: seq<Session>, i: nat)
    requires i < |sessions| && forall j :: 0 <= j < i ==> sessions[j].uuid != sessions[i].uuid
    ensures StackOf(sessions, sessions[i].uuid) == [sessions[i]] + StackOf(sessions[..i] + sessions[i + 1..], sessions[i].uuid)
  {
    var u := sessions[i].uuid;
    StackOfConcat(sessions[..i], sessions[i + 1..], u);
    StackOfAbsent(sessions[..i], u);
    StackOfSplit(sessions, i, u);
  }

  /** Closing pops the stack of its uuid, if there is one to pop, and no other stack. */
  lemma CloseStacks(s: State, h: string, u: string)
    ensures var before, after := StackOf(s.sessions, u), StackOf(MpiClose(s, Some(h)).sessions, u);
            after == if h == u && before != [] then before[1..] else before
  {
    FoundIsTop(s.sessions, h);
    var i := FindSession(s.sessions, h);
    if i < |s.sessions| {
      if h == u { RemovePops(s.sessions, i); } else { RemoveKeepsOthers(s.sessions, i, u); }
    }
  }

  /** Over every run, with colliding uuids allowed, the list restricted to a uuid is that uuid's
      stack. */
  lemma {:induction false} SessionsAreStacks(env: Env, ops: seq<Op>, u: string)
    ensures StackOf(Run(env, ops).sessions, u) == OpenStack(env, ops, u)
  {
    if ops != [] {
      var n := |ops| - 1;
      SessionsAreStacks(env, ops[..n], u);
      var before := Run(env, ops[..n]);
      match ops[n] {
        case OpOpen(client, size, uuid) =>
          if CanOpen(before, client) {
            assert Run(env, ops).sessions[1..] == before.sessions;
          }
        case OpClose(handle) =>
          if handle.Some? { CloseStacks(before, handle.value, u); }
        case _ =>
          OtherStepsExtend(env, before, ops[n]);
      }
    }
  }

  /** Lookup returns the latest session that was opened under a uuid and not closed yet. */
  lemma LookupIsLatestOpen(env: Env, ops: seq<Op>, u: string)
    ensures Lookup(Run(env, ops), u) == if OpenStack(env, ops, u) == [] then None else Some(OpenStack(env, ops, u)[0])
  {
    SessionsAreStacks(env, ops, u);
    FoundIsTop(Run(env, ops).sessions, u);
  }

  /** The session a uuid stands for. */
  function Lookup(s: State, u: string): Option<Session> {
    var i := FindSession(s.sessions, u);
    if i < |s.sessions| then Some(s.sessions[i]) else None
  }

  /** A close pops the stack of its own uuid and changes neither stack nor lookup of another. */
  lemma CloseIsLocal(s: State, u: string, other: string)
    requires other != u
    ensures var after := MpiClose(s, Some(u));
            && StackOf(after.sessions, u) == (if StackOf(s.sessions, u) == [] then [] else StackOf(s.sessions, u)[1..])
            && StackOf(after.sessions, other) == StackOf(s.sessions, other)
            && Lookup(after, other) == Lookup(s, other)
  {
    CloseStacks(s, u, u);
    CloseStacks(s, u, other);
    FoundIsTop(s.sessions, other);
    FoundIsTop(MpiClose(s, Some(u)).sessions, other);
  }

  // ---------- Conservation of module handles ----------

  /** How often a value occurs. Handles are counted, not collected in a set, because a module may
      return the same handle twice. */
  function Count<T(==)>(s: seq<T>, x: T): (n: nat) {
    if s == [] then 0 else Count(s[..|s| - 1], x) + (if s[|s| - 1] == x then 1 else 0)
  }

  /** How often open sessions hold a handle. */
  function Live(sessions: seq<Session>, b: Bound): nat {
    if sessions == [] then 0 else Count(sessions[0].handles, b) + Live(sessions[1..], b)
  }

  /** The handle is closed at most as often as it was opened, at every point of the trace. */
  ghost predicate ClosedAfterOpened(t: seq<Event>, b: Bound) {
    forall k :: 0 <= k <= |t| ==> Count(t[..k], Closed(b)) <= Count(t[..k], Opened(b))
  }

  /** Opened = closed + live, with no close ahead of its open. */
  ghost predicate Conserved(s: State, b: Bound) {
    Count(s.trace, Opened(b)) == Count(s.trace, Closed(b)) + Live(s.sessions, b) && ClosedAfterOpened(s.trace, b)
  }

  predicate NoOpens(t: seq<Event>) { forall i :: 0 <= i < |t| ==> !t[i].Opened? }
  predicate NoCloses(t: seq<Event>) { forall i :: 0 <= i < |t| ==> !t[i].Closed? }
  predicate NoUnloads(t: seq<Event>) { forall i :: 0 <= i < |t| ==> !t[i].Unloaded? }

  lemma {:induction false} CountConcat<T>(a: seq<T>, b: seq<T>, x: T)
    ensures Count(a + b, x) == Count(a, x) + Count(b, x)
  {
    if b == [] {
      assert a + b == a;
    } else {
      var n := |b| - 1;
      CountConcat(a, b[..n], x);
      assert (a + b)[..|a + b| - 1] == a + b[..n];
    }
  }

  lemma {:induction false} CountAbsent<T>(s: seq<T>, x: T)
    requires forall i :: 0 <= i < |s| ==> s[i] != x
    ensures Count(s, x) == 0
  {
    if s != [] {
      CountAbsent(s[..|s| - 1], x);
    }
  }

  lemma {:induction false} LiveConcat(a: seq<Session>, b: seq<Session>, h: Bound)
    ensures Live(a + b, h) == Live(a, h) + Live(b, h)
  {
    if a == [] {
      assert a + b == b;
    } else {
      LiveConcat(a[1..], b, h);
      assert (a + b)[1..] == a[1..] + b;
    }
  }

  /** Taking one session out of the list takes its handles out of the live count. */
  lemma LiveRemove(sessions: seq<Session>, i: nat, h: Bound)
    requires i < |sessions|
    ensures Live(sessions, h) == Live(sessions[..i] + sessions[i + 1..], h) + Count(sessions[i].handles, h)
  {
    var a, b := sessions[..i], sessions[i..];
    assert sessions == a + b && b[1..] == sessions[i + 1..];
    LiveConcat(a, b, h);
    LiveConcat(a, b[1..], h);
  }

  lemma {:induction false} CloseEventsCount(handles: seq<Bound>, b: Bound)
    ensures Count(CloseEvents(handles), Closed(b)) == Count(handles, b)
  {
    if handles != [] {
      var n := |handles| - 1;
      CloseEventsCount(handles[..n], b);
      assert CloseEvents(handles)[..n] == CloseEvents(handles[..n]);
    }
  }

  /** MpiOpen adds one open event per handle it stores, and nothing else. */
  lemma {:induction false} OpenHandlesCount(env: Env, trace: seq<Event>, modules: seq<Module>, client: string, size: int, h: Bound)
    returns (block: seq<Event>)
    ensures var (t, bs) := OpenHandles(env, trace, modules, client, size);
            t == trace + block && Count(block, Opened(h)) == Count(bs, h)
    ensures NoCloses(block) && NoUnloads(block)
  {
    if modules == [] {
      block := [];
    } else {
      var n := |modules| - 1;
      var inner := OpenHandlesCount(env, trace, modules[..n], client, size, h);
      var (t, bs) := OpenHandles(env, trace, modules[..n], client, size);
      var b := Bound(modules[n], env.open(t, modules[n], client, size));
      block := inner + [Opened(b)];
      assert block[..|block| - 1] == inner;
      CountConcat([b], bs, h);
      assert [b][..0] == [];
    }
  }

  /** A set or get in a trace carries what its module answered to those very arguments then. */
  ghost predicate Answered(env: Env, t: seq<Event>, i: nat)
    requires i < |t|
  {
    match t[i]
    case SetCall(b, component, object_, payload, size, status) => status == env.set_(t[..i], b, component, object_, payload, size)
    case GetCall(b, component, object_, reply) => reply == env.get(t[..i], b, component, object_)
    case _ => true
  }

  /** `after` is `before` followed by answered calls that open, close and unload nothing. */
  ghost predicate Extends(env: Env, before: seq<Event>, after: seq<Event>) {
    && |before| <= |after| && after[..|before|] == before
    && (forall i :: |before| <= i < |after| ==> !after[i].Opened? && !after[i].Closed? && !after[i].Unloaded?)
    && (forall i :: |before| <= i < |after| ==> Answered(env, after, i))
  }

  lemma ExtendsTransitive(env: Env, a: seq<Event>, b: seq<Event>, c: seq<Event>)
    requires Extends(env, a, b) && Extends(env, b, c)
    ensures Extends(env, a, c)
  {
    assert c[..|a|] == b[..|a|];
    forall i | |a| <= i < |c| ensures !c[i].Opened? && !c[i].Closed? && !c[i].Unloaded? && Answered(env, c, i) {
      if i < |b| {
        assert Answered(env, b, i) && c[i] == c[..|b|][i] && c[..i] == b[..i];
      }
    }
  }

  lemma {:induction false} SetObjectsExtends(env: Env, t: seq<Event>, st: Int, b: Bound, c: string, objects: seq<(string, Json)>)
    ensures Extends(env, t, SetObjects(env, t, st, b, c, objects).0)
  {
    if objects != [] {
      var n := |objects| - 1;
      SetObjectsExtends(env, t, st, b, c, objects[..n]);
      ExtendsTransitive(env, t, SetObjects(env, t, st, b, c, objects[..n]).0, SetObjects(env, t, st, b, c, objects).0);
    }
  }

  lemma {:induction false} SetComponentsExtends(env: Env, t: seq<Event>, handles: seq<Bound>, components: seq<(string, Json)>)
    ensures Extends(env, t, SetComponents(env, t, handles, components).0)
  {
    if components != [] {
      var n := |components| - 1;
      SetComponentsExtends(env, t, handles, components[..n]);
      var (t1, st) := SetComponents(env, t, handles, components[..n]);
      var j := FindModuleSession(handles, components[n].0);
      if j < |handles| {
        SetObjectsExtends(env, t1, st, handles[j], components[n].0, ObjectMembers(components[n].1));
        ExtendsTransitive(env, t, t1, SetComponents(env, t, handles, components).0);
      }
    }
  }

  lemma {:induction false} ReportExtends(env: Env, t: seq<Event>, handles: seq<Bound>, entries: seq<(string, string)>)
    ensures Extends(env, t, Report(env, t, handles, entries).0)
  {
    if entries != [] {
      var n := |entries| - 1;
      ReportExtends(env, t, handles, entries[..n]);
      ExtendsTransitive(env, t, Report(env, t, handles, entries[..n]).0, Report(env, t, handles, entries).0);
    }
  }

  /** Only opening and closing sessions touches handles. */
  lemma OtherStepsExtend(env: Env, s: State, op: Op)
    requires !op.OpOpen? && !op.OpClose?
    ensures Extends(env, s.trace, Step(env, s, op).trace) && Step(env, s, op).sessions == s.sessions
  {
    match op {
      case OpSetDesired(handle, payload, size) =>
        if handle.Some? && payload.Some? && size > 0 && FindSession(s.sessions, handle.value) < |s.sessions| {
          var i := FindSession(s.sessions, handle.value);
          match env.codec.parse(payload.value) {
            case None =>
            case Some(root) => SetComponentsExtends(env, s.trace, s.sessions[i].handles, ObjectMembers(root));
          }
        }
      case OpGetReported(handle) =>
        if handle.Some? && FindSession(s.sessions, handle.value) < |s.sessions| {
          ReportExtends(env, s.trace, s.sessions[FindSession(s.sessions, handle.value)].handles, s.reported);
        }
      case _ =>
    }
  }

  /** Growing a well-ordered trace by calls that open nothing, or that close nothing, keeps it so. */
  lemma OrderKept(before: seq<Event>, block: seq<Event>, b: Bound)
    requires ClosedAfterOpened(before, b)
    requires NoCloses(block) || (NoOpens(block) && Count(before + block, Closed(b)) <= Count(before + block, Opened(b)))
    ensures ClosedAfterOpened(before + block, b)
  {
    var t := before + block;
    forall k | 0 <= k <= |t| ensures Count(t[..k], Closed(b)) <= Count(t[..k], Opened(b)) {
      if k <= |before| {
        assert t[..k] == before[..k];
      } else {
        assert block == block[..k - |before|] + block[k - |before|..];
        OrderInBlock(before, block[..k - |before|], block[k - |before|..], b);
        assert t[..k] == before + block[..k - |before|];
      }
    }
  }

  lemma OrderInBlock(before: seq<Event>, part: seq<Event>, rest: seq<Event>, b: Bound)
    requires ClosedAfterOpened(before, b)
    requires NoCloses(part) || (NoOpens(part) && NoOpens(rest)
                                && Count(before + (part + rest), Closed(b)) <= Count(before + (part + rest), Opened(b)))
    ensures Count(before + part, Closed(b)) <= Count(before + part, Opened(b))
  {
    if NoCloses(part) {
      CountConcat(before, part, Closed(b));
      CountConcat(before, part, Opened(b));
      CountAbsent(part, Closed(b));
      assert before[..|before|] == before;
    } else {
      assert before + (part + rest) == (before + part) + rest;
      OrderBeforeRest(before + part, rest, b);
    }
  }

  /** Calls that open nothing cannot make up for a handle closed too often. */
  lemma OrderBeforeRest(t: seq<Event>, rest: seq<Event>, b: Bound)
    requires NoOpens(rest) && Count(t + rest, Closed(b)) <= Count(t + rest, Opened(b))
    ensures Count(t, Closed(b)) <= Count(t, Opened(b))
  {
    CountConcat(t, rest, Closed(b));
    CountConcat(t, rest, Opened(b));
    CountAbsent(rest, Opened(b));
  }

  lemma OpenConserves(env: Env, s: State, client: string, size: int, uuid: string, b: Bound)
    requires Conserved(s, b)
    ensures Conserved(MpiOpen(env, s, Some(client), size, uuid).0, b)
  {
    if CanOpen(s, Some(client)) {
      var block := OpenHandlesCount(env, s.trace, s.modules, client, size, b);
      CountConcat(s.trace, block, Opened(b));
      CountConcat(s.trace, block, Closed(b));
      CountAbsent(block, Closed(b));
      OrderKept(s.trace, block, b);
      assert MpiOpen(env, s, Some(client), size, uuid).0.sessions[1..] == s.sessions;
    }
  }

  lemma CloseConserves(s: State, handle: string, b: Bound)
    requires Conserved(s, b)
    ensures Conserved(MpiClose(s, Some(handle)), b)
  {
    var i := FindSession(s.sessions, handle);
    if i < |s.sessions| {
      var block := CloseEvents(s.sessions[i].handles);
      CloseEventsCount(s.sessions[i].handles, b);
      CountConcat(s.trace, block, Opened(b));
      CountConcat(s.trace, block, Closed(b));
      CountAbsent(block, Opened(b));
      LiveRemove(s.sessions, i, b);
      OrderKept(s.trace, block, b);
    }
  }

  lemma OtherStepConserves(env: Env, s: State, op: Op, b: Bound)
    requires Conserved(s, b) && !op.OpOpen? && !op.OpClose?
    ensures Conserved(Step(env, s, op), b)
  {
    OtherStepsExtend(env, s, op);
    var t := Step(env, s, op).trace;
    assert t == s.trace + t[|s.trace|..];
    QuietKeeps(s.trace, t[|s.trace|..], b);
  }

  /** Calls that neither open nor close leave the counts of both alone. */
  lemma QuietKeeps(before: seq<Event>, block: seq<Event>, b: Bound)
    requires ClosedAfterOpened(before, b) && NoOpens(block) && NoCloses(block)
    ensures ClosedAfterOpened(before + block, b)
    ensures Count(before + block, Opened(b)) == Count(before, Opened(b)) && Count(before + block, Closed(b)) == Count(before, Closed(b))
  {
    CountConcat(before, block, Opened(b));
    CountConcat(before, block, Closed(b));
    CountAbsent(block, Opened(b));
    CountAbsent(block, Closed(b));
    OrderKept(before, block, b);
  }

  /** Over every run: handles opened = handles closed + handles live, and at no point of the trace
      was a handle closed more often than it had been opened. */
  lemma {:induction false} HandlesConserved(env: Env, ops: seq<Op>, b: Bound)
    ensures Conserved(Run(env, ops), b)
  {
    if ops != [] {
      var n := |ops| - 1;
      HandlesConserved(env, ops[..n], b);
      var s := Run(env, ops[..n]);
      match ops[n] {
        case OpOpen(client, size, uuid) =>
          if client.Some? { OpenConserves(env, s, client.value, size, uuid, b); }
        case OpClose(handle) =>
          if handle.Some? { CloseConserves(s, handle.value, b); }
        case _ => OtherStepConserves(env, s, ops[n], b);
      }
    }
  }

  lemma {:induction false} CloseAllCount(sessions: seq<Session>, b: Bound)
    ensures Count(CloseAll(sessions), Closed(b)) == Live(sessions, b)
    ensures forall i :: 0 <= i < |CloseAll(sessions)| ==> CloseAll(sessions)[i].Closed?
  {
    if sessions != [] {
      var n := |sessions| - 1;
      CloseAllCount(sessions[..n], b);
      CloseEventsCount(sessions[n].handles, b);
      CountConcat(CloseAll(sessions[..n]), CloseEvents(sessions[n].handles), Closed(b));
      LiveRemove(sessions, n, b);
      assert sessions[..n] + sessions[n + 1..] == sessions[..n];
    }
  }

  /** No module is unloaded before teardown. */
  lemma {:induction false} NothingUnloadedYet(env: Env, ops: seq<Op>)
    ensures NoUnloads(Run(env, ops).trace)
  {
    if ops != [] {
      var n := |ops| - 1;
      NothingUnloadedYet(env, ops[..n]);
      var s := Run(env, ops[..n]);
      match ops[n] {
        case OpOpen(client, size, uuid) =>
          if CanOpen(s, client) {
            var block := OpenHandlesCount(env, s.trace, s.modules, client.value, size, Bound(Module("", []), 0));
          }
        case OpClose(handle) =>
        case _ =>
          OtherStepsExtend(env, s, ops[n]);
          var t := Run(env, ops).trace;
          assert forall i :: 0 <= i < |s.trace| ==> t[i] == t[..|s.trace|][i];
      }
    }
  }

  /** Every run that ends in one UnloadModules closes each handle exactly as often as it was opened and
      never before it was opened. */
  lemma TeardownClosesEverything(env: Env, ops: seq<Op>, b: Bound)
    ensures var t := UnloadModules(Run(env, ops));
            Count(t, Opened(b)) == Count(t, Closed(b)) && ClosedAfterOpened(t, b)
  {
    var s := Run(env, ops);
    var closes, unloads := CloseAll(s.sessions), UnloadEvents(s.modules);
    HandlesConserved(env, ops, b);
    CloseAllCount(s.sessions, b);
    CountConcat(s.trace, closes, Opened(b));
    CountConcat(s.trace, closes, Closed(b));
    CountAbsent(closes, Opened(b));
    OrderKept(s.trace, closes, b);
    QuietKeeps(s.trace + closes, unloads, b);
  }

  /** The unloads are the last calls of such a run, one for each loaded module, so that no handle is
      closed after a module was unloaded. */
  lemma UnloadsComeLast(env: Env, ops: seq<Op>)
    ensures var s := Run(env, ops);
            var t := UnloadModules(s);
            && |t| >= |s.modules| && NoUnloads(t[..|t| - |s.modules|])
            && (forall k :: 0 <= k < |s.modules| ==> t[|t| - |s.modules| + k] == Unloaded(s.modules[k]))
  {
    var s := Run(env, ops);
    NothingUnloadedYet(env, ops);
    CloseAllCount(s.sessions, Bound(Module("", []), 0));
    var t := UnloadModules(s);
    assert t[..|t| - |s.modules|] == s.trace + CloseAll(s.sessions);
  }

  // ---------- Routing ----------

  /** The directory listing that the run loaded its modules from: the first load that found any. */
  function LoadOrder(ops: seq<Op>): seq<Module> {
    if ops == [] then []
    else
      var n := |ops| - 1;
      var earlier := LoadOrder(ops[..n]);
      if earlier != [] || !ops[n].OpLoad? || ops[n].config == None || ops[n].config.value.modelVersion == 0
      then earlier else ops[n].found
  }

  function ModulesOf(handles: seq<Bound>): seq<Module> {
    seq(|handles|, i requires 0 <= i < |handles| => handles[i].module_)
  }

  lemma {:induction false} OpenHandlesModules(env: Env, trace: seq<Event>, modules: seq<Module>, client: string, size: int)
    ensures ModulesOf(OpenHandles(env, trace, modules, client, size).1) == Reverse(modules)
  {
    if modules != [] {
      var n := |modules| - 1;
      OpenHandlesModules(env, trace, modules[..n], client, size);
    }
  }

  /** Handles are in load order, and there are no sessions before modules are loaded. */
  ghost predicate InLoadOrder(s: State, listing: seq<Module>) {
    && s.modules == Reverse(listing)
    && (s.modules == [] ==> s.sessions == [])
    && forall k :: 0 <= k < |s.sessions| ==> ModulesOf(s.sessions[k].handles) == listing
  }

  lemma OpenInLoadOrder(env: Env, s: State, listing: seq<Module>, client: Option<string>, size: int, uuid: string)
    requires InLoadOrder(s, listing)
    ensures InLoadOrder(MpiOpen(env, s, client, size, uuid).0, listing)
  {
    if CanOpen(s, client) {
      OpenHandlesModules(env, s.trace, s.modules, client.value, size);
      assert Reverse(s.modules) == listing;
    }
  }

  /** Both head insertions cancel: every session lists its handles in load order. */
  lemma {:induction false} HandlesInLoadOrder(env: Env, ops: seq<Op>)
    ensures InLoadOrder(Run(env, ops), LoadOrder(ops))
  {
    if ops != [] {
      var n := |ops| - 1;
      HandlesInLoadOrder(env, ops[..n]);
      var before := Run(env, ops[..n]);
      match ops[n] {
        case OpLoad(found, config) =>
        case OpOpen(client, size, uuid) => OpenInLoadOrder(env, before, LoadOrder(ops), client, size, uuid);
        case OpClose(handle) =>
        case _ => OtherStepsExtend(env, before, ops[n]);
      }
    }
  }

  // ---------- What opening and closing does ----------

  /** Event i of a trace is the opening of a module, with the handle that the module answered then. */
  ghost predicate OpenedAt(env: Env, t: seq<Event>, i: nat, m: Module, client: string, size: int, b: Bound) {
    i < |t| && t[i] == Opened(b) && b == Bound(m, env.open(t[..i], m, client, size))
  }

  lemma {:induction false} OpenHandlesTrace(env: Env, trace: seq<Event>, modules: seq<Module>, client: string, size: int, k: nat)
    ensures var (t, bs) := OpenHandles(env, trace, modules, client, size);
            && |t| == |trace| + |modules| && t[..|trace|] == trace && |bs| == |modules|
            && (k < |modules| ==> OpenedAt(env, t, |trace| + k, modules[k], client, size, bs[|modules| - 1 - k]))
  {
    if modules != [] {
      var n := |modules| - 1;
      OpenHandlesTrace(env, trace, modules[..n], client, size, k);
      var t := OpenHandles(env, trace, modules[..n], client, size).0;
      var t' := OpenHandles(env, trace, modules, client, size).0;
      assert t'[..|t|] == t;
      if k < n { assert t'[..|trace| + k] == t[..|trace| + k]; }
    }
  }

  /** In every reachable state an open is refused, and changes nothing, iff it names no client or no
      module is loaded. Otherwise it returns the generated uuid, which from then on names the session
      just opened and, once that is closed, what it named before; other uuids are not affected. */
  lemma OpenNamesSession(env: Env, ops: seq<Op>, client: Option<string>, size: int, uuid: string, other: string)
    ensures var s := Run(env, ops);
            var (s', h) := MpiOpen(env, s, client, size, uuid);
            if client.None? || LoadOrder(ops) == [] then h.None? && s' == s
            else
              && h == Some(uuid) && s'.sessions != []
              && var session := s'.sessions[0];
              && s'.sessions == [session] + s.sessions && session.uuid == uuid && session.client == client.value
              && StackOf(s'.sessions, uuid) == [session] + StackOf(s.sessions, uuid) && Lookup(s', uuid) == Some(session)
              && MpiClose(s', h).sessions == s.sessions
              && (other != uuid ==> StackOf(s'.sessions, other) == StackOf(s.sessions, other) && Lookup(s', other) == Lookup(s, other))
  {
    var s := Run(env, ops);
    var s' := MpiOpen(env, s, client, size, uuid).0;
    HandlesInLoadOrder(env, ops);
    if client.Some? && LoadOrder(ops) != [] {
      assert s'.sessions[1..] == s.sessions;
      FoundIsTop(s'.sessions, uuid);
      FoundIsTop(s'.sessions, other);
      FoundIsTop(s.sessions, other);
    }
  }

  /** Such an open adds one call per loaded module, the module loaded last first, and keeps the handles
      in load order. */
  lemma OpenCallsEveryModule(env: Env, ops: seq<Op>, client: string, size: int, uuid: string, k: nat)
    requires k < |LoadOrder(ops)|
    ensures var s, listing := Run(env, ops), LoadOrder(ops);
            var s' := MpiOpen(env, s, Some(client), size, uuid).0;
            && |s'.trace| == |s.trace| + |listing| && s'.trace[..|s.trace|] == s.trace
            && s'.sessions != [] && |s'.sessions[0].handles| == |listing|
            && OpenedAt(env, s'.trace, |s.trace| + |listing| - 1 - k, listing[k], client, size, s'.sessions[0].handles[k])
  {
    var s := Run(env, ops);
    HandlesInLoadOrder(env, ops);
    OpenHandlesTrace(env, s.trace, s.modules, client, size, |LoadOrder(ops)| - 1 - k);
  }

  /** Closing a handle takes the first session with that uuid out of the list, leaves the order of the
      others alone, and closes each of its handles in order; without such a session, or a handle, it
      changes nothing. */
  lemma CloseTakesFirst(s: State, h: string) returns (i: nat)
    ensures MpiClose(s, None) == s
    ensures i <= |s.sessions| && forall j :: 0 <= j < i ==> s.sessions[j].uuid != h
    ensures i == |s.sessions| ==> MpiClose(s, Some(h)) == s
    ensures i < |s.sessions| ==>
              var s', handles := MpiClose(s, Some(h)), s.sessions[i].handles;
              && s.sessions[i].uuid == h && s' == s.(sessions := s.sessions[..i] + s.sessions[i + 1..], trace := s'.trace)
              && |s'.trace| == |s.trace| + |handles| && s'.trace[..|s.trace|] == s.trace
              && forall k :: 0 <= k < |handles| ==> s'.trace[|s.trace| + k] == Closed(handles[k])
  {
    i := FindSession(s.sessions, h);
  }

  // ---------- Answers and configuration ----------

  /** Over every run, what is logged of sets and gets is what the modules answered. */
  lemma {:induction false} CallsAreAnswered(env: Env, ops: seq<Op>, i: nat)
    requires i < |Run(env, ops).trace|
    ensures Answered(env, Run(env, ops).trace, i)
  {
    var n := |ops| - 1;
    var s, t := Run(env, ops[..n]), Run(env, ops).trace;
    StepAddsAnswered(env, s, ops[n], i);
    if i < |s.trace| {
      CallsAreAnswered(env, ops[..n], i);
      assert t[i] == t[..|s.trace|][i] && t[..i] == s.trace[..i];
    }
  }

  lemma StepAddsAnswered(env: Env, s: State, op: Op, i: nat)
    ensures var t := Step(env, s, op).trace;
            && |s.trace| <= |t| && t[..|s.trace|] == s.trace
            && (|s.trace| <= i < |t| ==> Answered(env, t, i))
  {
    match op {
      case OpOpen(client, size, uuid) =>
        if CanOpen(s, client) { OpenHandlesTrace(env, s.trace, s.modules, client.value, size, if i < |s.trace| then 0 else i - |s.trace|); }
      case OpClose(handle) =>
        if handle.Some? { var k := CloseTakesFirst(s, handle.value); }
      case _ => OtherStepsExtend(env, s, op);
    }
  }

  /** The reported list of the last configuration that was read, before modules were loaded, and had one. */
  function ConfiguredReport(ops: seq<Op>): seq<(string, string)> {
    if ops == [] then []
    else
      var n := |ops| - 1;
      var earlier := ConfiguredReport(ops[..n]);
      if ops[n].OpLoad? && ops[n].config.Some? && ops[n].config.value.reported != [] && LoadOrder(ops[..n]) == []
      then ops[n].config.value.reported else earlier
  }

  /** Over every run the objects to report are those of the configuration. */
  lemma {:induction false} ReportIsConfigured(env: Env, ops: seq<Op>)
    ensures Run(env, ops).reported == ConfiguredReport(ops)
  {
    if ops != [] {
      var n := |ops| - 1;
      ReportIsConfigured(env, ops[..n]);
      HandlesInLoadOrder(env, ops[..n]);
    }
  }

  // ---------- Where calls go ----------

  /** Index of the first module of a listing that declares a component. */
  ghost predicate FirstDeclaring(listing: seq<Module>, component: string, k: nat) {
    && k < |listing| && component in listing[k].components
    && forall j :: 0 <= j < k ==> component !in listing[j].components
  }

  /** No module of a listing declares a component. */
  ghost predicate NoneDeclares(listing: seq<Module>, component: string) {
    forall j :: 0 <= j < |listing| ==> component !in listing[j].components
  }

  /** In every reachable state and for every open session, a component resolves to the module that was
      loaded first among those declaring it, and to none iff none declares it. */
  lemma RoutesToEarliestLoaded(env: Env, ops: seq<Op>, u: string, component: string)
    requires FindSession(Run(env, ops).sessions, u) < |Run(env, ops).sessions|
    ensures var r := Resolve(Run(env, ops), Some(u), component);
            && (r.None? <==> NoneDeclares(LoadOrder(ops), component))
            && (r.Some? ==> exists k: nat :: FirstDeclaring(LoadOrder(ops), component, k) && r.value.module_ == LoadOrder(ops)[k])
  {
    HandlesInLoadOrder(env, ops);
    var s := Run(env, ops);
    var handles := s.sessions[FindSession(s.sessions, u)].handles;
    var listing := LoadOrder(ops);
    assert ModulesOf(handles) == listing;
    var j := FindModuleSession(handles, component);
    assert forall i :: 0 <= i < |handles| ==> handles[i].module_ == listing[i];
    if j < |handles| {
      assert FirstDeclaring(listing, component, j);
    }
  }

  /** In every reachable state the call that MpiSet or MpiGet adds to the trace carries the caller's
      own arguments and goes to the module that was loaded first among those declaring the component;
      there is no call and the status is EINVAL iff the handle names no session or no loaded module
      declares the component. */
  lemma CallsGoToEarliestLoaded(env: Env, ops: seq<Op>, u: string, component: string, object_: string, payload: Option<string>, size: int)
    ensures var s := Run(env, ops);
            var (s1, status) := MpiSet(env, s, Some(u), Some(component), Some(object_), payload, size);
            var (s2, reply) := MpiGet(env, s, Some(u), Some(component), Some(object_));
            if OpenStack(env, ops, u) == [] || NoneDeclares(LoadOrder(ops), component)
            then s1 == s2 == s && status == reply.status == 22
            else exists k: nat, handle ::
                   FirstDeclaring(LoadOrder(ops), component, k) &&
                   var b := Bound(LoadOrder(ops)[k], handle);
                   && b in OpenStack(env, ops, u)[0].handles
                   && status == env.set_(s.trace, b, component, object_, payload, size)
                   && reply == env.get(s.trace, b, component, object_)
                   && s1 == s.(trace := s.trace + [SetCall(b, component, object_, payload, size, status)])
                   && s2 == s.(trace := s.trace + [GetCall(b, component, object_, reply)])
  {
    var s := Run(env, ops);
    SessionsAreStacks(env, ops, u);
    FoundIsTop(s.sessions, u);
    OneCallToResolved(env, s, Some(u), component, object_, payload, size);
    if FindSession(s.sessions, u) < |s.sessions| {
      RoutesToEarliestLoaded(env, ops, u, component);
      var r := Resolve(s, Some(u), component);
      if r.Some? {
        var k: nat :| FirstDeclaring(LoadOrder(ops), component, k) && r.value.module_ == LoadOrder(ops)[k];
        assert r.value == Bound(LoadOrder(ops)[k], r.value.handle);
        assert r.value in s.sessions[FindSession(s.sessions, u)].handles;
      }
    }
  }

  /** MpiSet and MpiGet make one call, with their own arguments, to the module a component resolves
      to and return what it answers; if nothing resolves they change nothing and say EINVAL. */
  lemma OneCallToResolved(env: Env, s: State, handle: Option<string>, component: string, object_: string, payload: Option<string>, size: int)
    ensures var (s1, status) := MpiSet(env, s, handle, Some(component), Some(object_), payload, size);
            var (s2, reply) := MpiGet(env, s, handle, Some(component), Some(object_));
            match Resolve(s, handle, component)
            case None => s1 == s2 == s && status == reply.status == EINVAL
            case Some(b) =>
              && s1 == s.(trace := s.trace + [SetCall(b, component, object_, payload, size, status)])
              && s2 == s.(trace := s.trace + [GetCall(b, component, object_, reply)])
              && (exists session, i: nat :: session in s.sessions && i < |session.handles| && handle == Some(session.uuid) && session.handles[i] == b)
  {
    if handle.Some? {
      var i := FindSession(s.sessions, handle.value);
      if i < |s.sessions| {
        var j := FindModuleSession(s.sessions[i].handles, component);
        if j < |s.sessions[i].handles| {
          assert s.sessions[i] in s.sessions && s.sessions[i].handles[j] == Resolve(s, handle, component).value;
        }
      }
    }
  }
}
