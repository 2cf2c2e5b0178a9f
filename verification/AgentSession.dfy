/** The agent's side of the MPI: its session handle, the calls it makes, and the way a session is
    re-established when the platform is found not to be running. */
module AgentSession {
  import opened Base

  const MPI_OK := 0

  /** Where a desired configuration comes from. */
  datatype Source = LocalFile | GitFile

  datatype Event =
    | DaemonChecked(active: bool)
    | DaemonStarted(ok: bool)
    | SessionOpened(ok: bool)
    | SetCall(component: string, property: string, payload: string, status: int)
    | SetDesiredCall(source: Source, payload: string, status: int)
    | GetReportedCall(status: int, reply: Option<string>)
    | FileSaved(payload: string, ok: bool)
    | AckSent(payload: string, result: int)

  /** What the outside answers, possibly depending on all that went before. */
  datatype Env = Env(
    daemonActive: seq<Event> -> bool,
    startDaemon: seq<Event> -> bool,
    openSession: seq<Event> -> bool,
    mpiSet: (seq<Event>, string, string, string) -> int,
    mpiSetDesired: (seq<Event>, string) -> int,
    saveFile: (seq<Event>, string) -> bool,
    mpiGetReported: seq<Event> -> (int, Option<string>),
    sendAck: (seq<Event>, string) -> int,
    codec: Codec)

  /** Whether g_mpiHandle is set, and the calls made so far. */
  datatype Agent = Agent(handle: bool, trace: seq<Event>)

  datatype Refreshed = Refreshed(agent: Agent, ok: bool, alreadyRunning: bool)

  function RefreshMpiClientSession(env: Env, a: Agent): Refreshed {
    var active := a.handle && env.daemonActive(a.trace);
    var t := if a.handle then a.trace + [DaemonChecked(active)] else a.trace;
    if active then Refreshed(a.(trace := t), true, true)
    else
      var started := env.startDaemon(t);
      var t' := t + [DaemonStarted(started)];
      if !started then Refreshed(a.(trace := t'), false, false)
      else
        var session := env.openSession(t');
        Refreshed(Agent(session, t' + [SessionOpened(session)]), session, false)
  }

  /** A session that exists is kept iff its platform is active; otherwise the daemon is started and, iff
      that works, a session is opened, whose success is the result. */
  lemma DaemonDecides(env: Env, a: Agent)
    ensures var r := RefreshMpiClientSession(env, a);
            var checked := if a.handle then a.trace + [DaemonChecked(env.daemonActive(a.trace))] else a.trace;
            var started := checked + [DaemonStarted(env.startDaemon(checked))];
            if a.handle && env.daemonActive(a.trace) then r == Refreshed(Agent(true, checked), true, true)
            else if !env.startDaemon(checked) then r == Refreshed(Agent(a.handle, started), false, false)
            else
              && r.agent == Agent(env.openSession(started), started + [SessionOpened(env.openSession(started))])
              && r.ok == env.openSession(started) && !r.alreadyRunning
  {
  }

  /** An event carries what the outside answered to that very call then. */
  ghost predicate Answered(env: Env, t: seq<Event>, i: nat)
    requires i < |t|
  {
    match t[i]
    case DaemonChecked(active) => active == env.daemonActive(t[..i])
    case DaemonStarted(ok) => ok == env.startDaemon(t[..i])
    case SessionOpened(ok) => ok == env.openSession(t[..i])
    case SetCall(component, property, payload, status) => status == env.mpiSet(t[..i], component, property, payload)
    case SetDesiredCall(_, payload, status) => status == env.mpiSetDesired(t[..i], payload)
    case GetReportedCall(status, reply) => (status, reply) == env.mpiGetReported(t[..i])
    case FileSaved(payload, ok) => ok == env.saveFile(t[..i], payload)
    case AckSent(payload, result) => result == env.sendAck(t[..i], payload)
  }

  /** `after` is `before` followed by answered events. */
  ghost predicate Continues(env: Env, before: seq<Event>, after: seq<Event>) {
    && |before| <= |after| && after[..|before|] == before
    && forall i :: |before| <= i < |after| ==> Answered(env, after, i)
  }

  lemma ContinuesTransitive(env: Env, a: seq<Event>, b: seq<Event>, c: seq<Event>)
    requires Continues(env, a, b) && Continues(env, b, c)
    ensures Continues(env, a, c)
  {
    assert c[..|a|] == b[..|a|];
    forall i | |a| <= i < |c| ensures Answered(env, c, i) {
      if i < |b| { assert Answered(env, b, i) && c[i] == c[..|b|][i] && c[..i] == b[..i]; }
    }
  }

  lemma ContinuesSnoc(env: Env, a: seq<Event>, b: seq<Event>, e: Event)
    requires Continues(env, a, b) && Answered(env, b + [e], |b|)
    ensures Continues(env, a, b + [e])
  {
    assert (b + [e])[..|b|] == b;
    ContinuesTransitive(env, a, b, b + [e]);
  }

  lemma RefreshContinues(env: Env, a: Agent)
    ensures Continues(env, a.trace, RefreshMpiClientSession(env, a).agent.trace)
  {
    DaemonDecides(env, a);
    var checked := if a.handle then a.trace + [DaemonChecked(env.daemonActive(a.trace))] else a.trace;
    if a.handle { ContinuesSnoc(env, a.trace, a.trace, DaemonChecked(env.daemonActive(a.trace))); }
    if !(a.handle && env.daemonActive(a.trace)) {
      ContinuesSnoc(env, a.trace, checked, DaemonStarted(env.startDaemon(checked)));
      var started := checked + [DaemonStarted(env.startDaemon(checked))];
      if env.startDaemon(checked) { ContinuesSnoc(env, a.trace, started, SessionOpened(env.openSession(started))); }
    }
  }

  /** A refresh counts as a new session iff it really opened one: it succeeded and the platform was
      not running already. The events it adds say so: they end in a successful open. */
  lemma RefreshEvents(env: Env, a: Agent) returns (block: seq<Event>)
    ensures var r := RefreshMpiClientSession(env, a);
            && r.agent.trace == a.trace + block
            && (r.ok && !r.alreadyRunning <==> block != [] && block[|block| - 1] == SessionOpened(true))
            && (r.ok ==> r.agent.handle)
            && (forall i :: 0 <= i < |block| && block[i].SessionOpened? ==> i == |block| - 1)
            && (forall i :: 0 <= i < |block| ==> block[i].DaemonChecked? || block[i].DaemonStarted? || block[i].SessionOpened?)
  {
    var r := RefreshMpiClientSession(env, a);
    block := r.agent.trace[|a.trace|..];
  }
  // ---------- Attempts ----------

  /** The status of an event, for events of one kind. */
  type Kind = Event -> Option<int>

  /** The statuses of the calls of a kind in a stretch of trace. */
  function Statuses(kind: Kind, t: seq<Event>): seq<int> {
    if t == [] then []
    else Statuses(kind, t[..|t| - 1]) + match kind(t[|t| - 1]) case None => [] case Some(status) => [status]
  }

  function LastStatus(kind: Kind, t: seq<Event>): int {
    var st := Statuses(kind, t);
    if st == [] then MPI_OK else st[|st| - 1]
  }

  ghost predicate OpensSession(block: seq<Event>) {
    exists i :: 0 <= i < |block| && block[i] == SessionOpened(true)
  }

  /** One or two calls of a kind, the second one exactly when a session was opened, which happens only
      after the first one failed. */
  ghost predicate Tried(kind: Kind, block: seq<Event>) {
    var st := Statuses(kind, block);
    && 1 <= |st| <= 2
    && (|st| == 2 <==> OpensSession(block))
    && (|st| == 2 ==> st[0] != 0)
  }

  /** No calls of a kind. */
  ghost predicate Without(kind: Kind, block: seq<Event>) {
    forall i :: 0 <= i < |block| ==> kind(block[i]).None?
  }

  lemma StatusesSnoc(kind: Kind, t: seq<Event>, e: Event)
    ensures Statuses(kind, t + [e]) == Statuses(kind, t) + match kind(e) case None => [] case Some(status) => [status]
  {
    assert (t + [e])[..|t|] == t;
  }

  lemma {:induction false} StatusesWithout(kind: Kind, t: seq<Event>, block: seq<Event>)
    requires Without(kind, block)
    ensures Statuses(kind, t + block) == Statuses(kind, t)
  {
    if block == [] {
      assert t + block == t;
    } else {
      var n := |block| - 1;
      var all := t + block;
      assert all[..|all| - 1] == t + block[..n] && all[|all| - 1] == block[n];
      StatusesWithout(kind, t, block[..n]);
    }
  }

  lemma TriedOnce(kind: Kind, first: Event, refresh: seq<Event>)
    requires kind(first).Some? && !first.SessionOpened? && Without(kind, refresh) && !OpensSession(refresh)
    ensures Tried(kind, [first] + refresh) && Statuses(kind, [first] + refresh) == [kind(first).value]
  {
    StatusesSnoc(kind, [], first);
    assert [] + [first] == [first];
    StatusesWithout(kind, [first], refresh);
    assert forall i :: 1 <= i < |[first] + refresh| ==> ([first] + refresh)[i] == refresh[i - 1];
  }

  lemma TriedTwice(kind: Kind, first: Event, refresh: seq<Event>, second: Event)
    requires kind(first).Some? && kind(first).value != 0 && kind(second).Some? && Without(kind, refresh) && OpensSession(refresh)
    ensures var block := [first] + refresh + [second];
            Tried(kind, block) && Statuses(kind, block) == [kind(first).value, kind(second).value]
  {
    var block := [first] + refresh + [second];
    StatusesSnoc(kind, [], first);
    assert [] + [first] == [first];
    StatusesWithout(kind, [first], refresh);
    StatusesSnoc(kind, [first] + refresh, second);
    var i :| 0 <= i < |refresh| && refresh[i] == SessionOpened(true);
    assert block[i + 1] == SessionOpened(true);
  }

  predicate RefreshEvent(e: Event) {
    e.DaemonChecked? || e.DaemonStarted? || e.SessionOpened?
  }

  /** The events of a refresh, and that they open a session iff it counts as a new one. */
  lemma RefreshOpens(env: Env, a: Agent) returns (block: seq<Event>)
    ensures var r := RefreshMpiClientSession(env, a);
            && r.agent.trace == a.trace + block
            && (r.ok && !r.alreadyRunning <==> OpensSession(block))
            && (forall i :: 0 <= i < |block| ==> RefreshEvent(block[i]))
  {
    block := RefreshEvents(env, a);
    var r := RefreshMpiClientSession(env, a);
    if r.ok && !r.alreadyRunning {
      assert block[|block| - 1] == SessionOpened(true);
    }
  }
}
