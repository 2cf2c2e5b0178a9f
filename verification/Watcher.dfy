/** The Watcher: applies desired configuration files when their hash changes and saves the reported
    configuration when its hash changes. */
module Watcher {
  import opened Base
  import opened AgentSession

  /** What one tick meets: the two desired files, None when absent, the outcome of the Git commands,
      and what a failed save leaves in the reported file. */
  datatype Tick = Tick(local: Option<string>, cloneOk: bool, pullOk: bool, git: Option<string>, damaged: Option<string>)

  datatype Settings = Settings(localManagement: bool, gitManagement: bool)

  /** The Watcher's globals, the agent session they share, and the reported file on disk. */
  datatype State = State(
    desiredHash: nat, gitDesiredHash: nat, reportedHash: nat, cloneInitialized: bool, agent: Agent, file: Option<string>)

  // ---------- Specification ----------

  function Call(env: Env, a: Agent, source: Source, payload: string): (Agent, int) {
    var st := env.mpiSetDesired(a.trace, payload);
    (a.(trace := a.trace + [SetDesiredCall(source, payload, st)]), st)
  }

  function SetDesired(env: Env, a: Agent, source: Source, payload: string): (Agent, int) {
    var (a1, st) := Call(env, a, source, payload);
    if st == MPI_OK then (a1, st)
    else
      var r := RefreshMpiClientSession(env, a1);
      if r.ok && !r.alreadyRunning then Call(env, r.agent, source, payload) else (r.agent, st)
  }

  /** ProcessDesiredConfigurationFromFile for a file content and the stored hash. */
  function ProcessDesired(env: Env, hash: string -> nat, a: Agent, source: Source, content: Option<string>, stored: nat): (Agent, nat) {
    if content.None? || content.value == "" then (a, stored)
    else
      var h := hash(content.value);
      if stored == h || h == 0 then (a, stored)
      else
        var (a', st) := SetDesired(env, a, source, content.value);
        (a', if st == MPI_OK then h else stored)
  }

  function Fetch(env: Env, a: Agent): (Agent, (int, Option<string>)) {
    var reply := env.mpiGetReported(a.trace);
    (a.(trace := a.trace + [GetReportedCall(reply.0, reply.1)]), reply)
  }

  function GetReported(env: Env, a: Agent): (Agent, (int, Option<string>)) {
    var (a1, reply) := Fetch(env, a);
    if reply.0 == MPI_OK then (a1, reply)
    else
      var r := RefreshMpiClientSession(env, a1);
      if r.ok && !r.alreadyRunning then Fetch(env, r.agent) else (r.agent, reply)
  }

  /** SaveReportedConfigurationToFile. */
  function SaveReported(env: Env, hash: string -> nat, s: State, damaged: Option<string>): State {
    var (a, reply) := GetReported(env, s.agent);
    var s1 := s.(agent := a);
    if reply.0 != MPI_OK || reply.1.None? || reply.1.value == "" then s1
    else
      var payload := reply.1.value;
      var h := hash(payload);
      if s.reportedHash == h || h == 0 then s1
      else
        var ok := env.saveFile(a.trace, payload);
        var a' := a.(trace := a.trace + [FileSaved(payload, ok)]);
        if ok then s1.(agent := a', file := Some(payload), reportedHash := h) else s1.(agent := a', file := damaged)
  }

  function LocalPart(env: Env, hash: string -> nat, c: Settings, s: State, t: Tick): State {
    if !c.localManagement then s
    else
      var (a, h) := ProcessDesired(env, hash, s.agent, LocalFile, t.local, s.desiredHash);
      s.(agent := a, desiredHash := h)
  }

  function GitPart(env: Env, hash: string -> nat, c: Settings, s: State, t: Tick): State {
    if !c.gitManagement then s
    else
      var s1 := s.(cloneInitialized := s.cloneInitialized || t.cloneOk);
      if !s1.cloneInitialized || !t.pullOk then s1
      else
        var (a, h) := ProcessDesired(env, hash, s1.agent, GitFile, t.git, s1.gitDesiredHash);
        s1.(agent := a, gitDesiredHash := h)
  }

  function ReportPart(env: Env, hash: string -> nat, c: Settings, s: State, t: Tick): State {
    if c.localManagement then SaveReported(env, hash, s, t.damaged) else s
  }

  function DoWork(env: Env, hash: string -> nat, c: Settings, s: State, t: Tick): State {
    ReportPart(env, hash, c, GitPart(env, hash, c, LocalPart(env, hash, c, s, t), t), t)
  }

  // ---------- Implementation ----------

  class WatcherTask {
    const env: Env
    const hash: string -> nat
    const settings: Settings
    var desiredHash: nat
    var gitDesiredHash: nat
    var reportedHash: nat
    var cloneInitialized: bool
    var agent: Agent
    var file: Option<string>

    constructor (env: Env, hash: string -> nat, settings: Settings, agent: Agent, file: Option<string>)
      ensures this.env == env && this.hash == hash && this.settings == settings
      ensures View() == State(0, 0, 0, false, agent, file)
    {
      this.env, this.hash, this.settings := env, hash, settings;
      desiredHash, gitDesiredHash, reportedHash, cloneInitialized := 0, 0, 0, false;
      this.agent, this.file := agent, file;
    }

    ghost function View(): State
      reads this
    {
      State(desiredHash, gitDesiredHash, reportedHash, cloneInitialized, agent, file)
    }

    /** `stored` is what the hash pointer points to. */
    method ProcessDesiredConfigurationFromFile(source: Source, content: Option<string>, stored: nat) returns (newHash: nat)
      modifies this`agent
      ensures (agent, newHash) == ProcessDesired(env, hash, old(agent), source, content, stored)
    {
      newHash := stored;
      if content.Some? && content.value != "" {
        var payloadHash := hash(content.value);
        if stored != payloadHash && payloadHash != 0 {
          var mpiResult := CallMpiSetDesired(source, content.value);
          if mpiResult != MPI_OK {
            var r := RefreshMpiClientSession(env, agent);
            agent := r.agent;
            if r.ok && !r.alreadyRunning {
              mpiResult := CallMpiSetDesired(source, content.value);
            }
          }
          if mpiResult == MPI_OK {
            newHash := payloadHash;
          }
        }
      }
    }

    method CallMpiSetDesired(source: Source, payload: string) returns (status: int)
      modifies this`agent
      ensures (agent, status) == Call(env, old(agent), source, payload)
    {
      status := env.mpiSetDesired(agent.trace, payload);
      agent := agent.(trace := agent.trace + [SetDesiredCall(source, payload, status)]);
    }

    method CallMpiGetReported() returns (reply: (int, Option<string>))
      modifies this`agent
      ensures (agent, reply) == Fetch(env, old(agent))
    {
      reply := env.mpiGetReported(agent.trace);
      agent := agent.(trace := agent.trace + [GetReportedCall(reply.0, reply.1)]);
    }

    method SaveReportedConfigurationToFile(damaged: Option<string>)
      modifies this`agent, this`file, this`reportedHash
      ensures View() == SaveReported(env, hash, old(View()), damaged)
    {
      var reply := CallMpiGetReported();
      if reply.0 != MPI_OK {
        var r := RefreshMpiClientSession(env, agent);
        agent := r.agent;
        if r.ok && !r.alreadyRunning {
          reply := CallMpiGetReported();
        }
      }
      if reply.0 == MPI_OK && reply.1.Some? && reply.1.value != "" {
        var payloadHash := hash(reply.1.value);
        if reportedHash != payloadHash && payloadHash != 0 {
          var ok := env.saveFile(agent.trace, reply.1.value);
          agent := agent.(trace := agent.trace + [FileSaved(reply.1.value, ok)]);
          file := if ok then Some(reply.1.value) else damaged;
          if ok {
            reportedHash := payloadHash;
          }
        }
      }
    }

    method WatcherDoWork(t: Tick)
      modifies this
      ensures View() == DoWork(env, hash, settings, old(View()), t)
    {
      if settings.localManagement {
        desiredHash := ProcessDesiredConfigurationFromFile(LocalFile, t.local, desiredHash);
      }
      assert View() == LocalPart(env, hash, settings, old(View()), t);
      if settings.gitManagement {
        if !cloneInitialized && t.cloneOk {
          cloneInitialized := true;
        }
        if cloneInitialized && t.pullOk {
          gitDesiredHash := ProcessDesiredConfigurationFromFile(GitFile, t.git, gitDesiredHash);
        }
      }
      assert View() == GitPart(env, hash, settings, LocalPart(env, hash, settings, old(View()), t), t);
      if settings.localManagement {
        SaveReportedConfigurationToFile(t.damaged);
      }
    }
  }

  // ---------- Runs ----------

  function Run(env: Env, hash: string -> nat, c: Settings, init: State, ticks: seq<Tick>): State {
    if ticks == [] then init
    else DoWork(env, hash, c, Run(env, hash, c, init, ticks[..|ticks| - 1]), ticks[|ticks| - 1])
  }

  /** The last payload of a source that the platform accepted. */
  function LastApplied(t: seq<Event>, source: Source): Option<string> {
    if t == [] then None
    else
      var e := t[|t| - 1];
      if e.SetDesiredCall? && e.source == source && e.status == MPI_OK then Some(e.payload)
      else LastApplied(t[..|t| - 1], source)
  }

  /** The last attempt to save the reported file. */
  function LastSave(t: seq<Event>): Option<(string, bool)> {
    if t == [] then None
    else
      var e := t[|t| - 1];
      if e.FileSaved? then Some((e.payload, e.ok)) else LastSave(t[..|t| - 1])
  }

  /** The last successful one. */
  function LastSaved(t: seq<Event>): Option<string> {
    if t == [] then None
    else
      var e := t[|t| - 1];
      if e.FileSaved? && e.ok then Some(e.payload) else LastSaved(t[..|t| - 1])
  }

  function HashOf(hash: string -> nat, payload: Option<string>): nat {
    if payload.None? then 0 else hash(payload.value)
  }

  /** Stored hashes agree with the trace of calls, and the file with the last save if that worked. */
  ghost predicate Faithful(hash: string -> nat, s: State) {
    var t := s.agent.trace;
    && s.desiredHash == HashOf(hash, LastApplied(t, LocalFile))
    && s.gitDesiredHash == HashOf(hash, LastApplied(t, GitFile))
    && s.reportedHash == HashOf(hash, LastSaved(t))
    && (LastSave(t).Some? && LastSave(t).value.1 ==> s.file == Some(LastSave(t).value.0) && LastSaved(t) == s.file)
  }

  /** Nothing in a stretch of trace that the hashes depend on. */
  predicate Neutral(t: seq<Event>) {
    forall i :: 0 <= i < |t| ==> !t[i].SetDesiredCall? && !t[i].FileSaved?
  }

  lemma Snoc(t: seq<Event>, e: Event, source: Source)
    ensures LastApplied(t + [e], source)
            == if e.SetDesiredCall? && e.source == source && e.status == MPI_OK then Some(e.payload) else LastApplied(t, source)
    ensures LastSave(t + [e]) == if e.FileSaved? then Some((e.payload, e.ok)) else LastSave(t)
    ensures LastSaved(t + [e]) == if e.FileSaved? && e.ok then Some(e.payload) else LastSaved(t)
  {
    assert (t + [e])[..|t|] == t;
  }

  lemma {:induction false} NeutralKeeps(t: seq<Event>, block: seq<Event>, source: Source)
    requires Neutral(block)
    ensures LastApplied(t + block, source) == LastApplied(t, source)
    ensures LastSave(t + block) == LastSave(t) && LastSaved(t + block) == LastSaved(t)
  {
    if block == [] {
      assert t + block == t;
    } else {
      var n := |block| - 1;
      NeutralKeeps(t, block[..n], source);
      Snoc(t + block[..n], block[n], source);
      assert t + block == t + block[..n] + [block[n]];
    }
  }

  lemma RefreshKeeps(env: Env, a: Agent, source: Source)
    ensures var t := RefreshMpiClientSession(env, a).agent.trace;
            LastApplied(t, source) == LastApplied(a.trace, source) && LastSave(t) == LastSave(a.trace) && LastSaved(t) == LastSaved(a.trace)
  {
    var block := RefreshEvents(env, a);
    NeutralKeeps(a.trace, block, source);
  }

  /** Setting the desired configuration changes what was last applied from its own source, to its
      payload, and only if it succeeds. */
  lemma SetDesiredApplies(env: Env, a: Agent, source: Source, payload: string, other: Source)
    ensures var (a', st) := SetDesired(env, a, source, payload);
            && LastApplied(a'.trace, other) == (if other == source && st == MPI_OK then Some(payload) else LastApplied(a.trace, other))
            && LastSave(a'.trace) == LastSave(a.trace) && LastSaved(a'.trace) == LastSaved(a.trace)
  {
    var (a1, st) := Call(env, a, source, payload);
    Snoc(a.trace, SetDesiredCall(source, payload, st), other);
    if st != MPI_OK {
      RefreshKeeps(env, a1, other);
      var r := RefreshMpiClientSession(env, a1);
      Snoc(r.agent.trace, SetDesiredCall(source, payload, env.mpiSetDesired(r.agent.trace, payload)), other);
    }
  }

  /** Everything the invariant says of a trace. */
  function Summary(t: seq<Event>): (Option<string>, Option<string>, Option<(string, bool)>, Option<string>) {
    (LastApplied(t, LocalFile), LastApplied(t, GitFile), LastSave(t), LastSaved(t))
  }

  lemma ProcessDesiredFaithful(env: Env, hash: string -> nat, a: Agent, source: Source, content: Option<string>, stored: nat, other: Source)
    requires stored == HashOf(hash, LastApplied(a.trace, source))
    ensures var (a', h) := ProcessDesired(env, hash, a, source, content, stored);
            && h == HashOf(hash, LastApplied(a'.trace, source))
            && (other != source ==> LastApplied(a'.trace, other) == LastApplied(a.trace, other))
            && LastSave(a'.trace) == LastSave(a.trace) && LastSaved(a'.trace) == LastSaved(a.trace)
  {
    if content.Some? {
      SetDesiredApplies(env, a, source, content.value, source);
      SetDesiredApplies(env, a, source, content.value, other);
    }
  }

  lemma GetReportedKeeps(env: Env, a: Agent)
    ensures Summary(GetReported(env, a).0.trace) == Summary(a.trace)
  {
    var (a1, reply) := Fetch(env, a);
    forall source ensures LastApplied(GetReported(env, a).0.trace, source) == LastApplied(a.trace, source)
    {
      FetchKeeps(env, a, source);
      if reply.0 != MPI_OK {
        RefreshKeeps(env, a1, source);
        FetchKeeps(env, RefreshMpiClientSession(env, a1).agent, source);
      }
    }
    FetchKeeps(env, a, LocalFile);
    RefreshKeeps(env, a1, LocalFile);
    FetchKeeps(env, RefreshMpiClientSession(env, a1).agent, LocalFile);
  }

  lemma FetchKeeps(env: Env, a: Agent, source: Source)
    ensures var t := Fetch(env, a).0.trace;
            LastApplied(t, source) == LastApplied(a.trace, source) && LastSave(t) == LastSave(a.trace) && LastSaved(t) == LastSaved(a.trace)
  {
    var reply := env.mpiGetReported(a.trace);
    Snoc(a.trace, GetReportedCall(reply.0, reply.1), source);
  }

  lemma SaveFaithful(env: Env, hash: string -> nat, s: State, damaged: Option<string>)
    requires Faithful(hash, s)
    ensures Faithful(hash, SaveReported(env, hash, s, damaged))
  {
    GetReportedKeeps(env, s.agent);
    var (a, reply) := GetReported(env, s.agent);
    if reply.1.Some? {
      var e := FileSaved(reply.1.value, env.saveFile(a.trace, reply.1.value));
      Snoc(a.trace, e, LocalFile);
      Snoc(a.trace, e, GitFile);
    }
  }

  lemma TickFaithful(env: Env, hash: string -> nat, c: Settings, s: State, t: Tick)
    requires Faithful(hash, s)
    ensures Faithful(hash, DoWork(env, hash, c, s, t))
  {
    ProcessDesiredFaithful(env, hash, s.agent, LocalFile, t.local, s.desiredHash, GitFile);
    var s1 := LocalPart(env, hash, c, s, t);
    assert Faithful(hash, s1);
    ProcessDesiredFaithful(env, hash, s1.agent, GitFile, t.git, s1.gitDesiredHash, LocalFile);
    var s2 := GitPart(env, hash, c, s1, t);
    assert Faithful(hash, s2);
    if c.localManagement { SaveFaithful(env, hash, s2, t.damaged); }
  }

  /** Over every run of ticks and for every hash function: a stored desired hash is that of the last
      payload accepted from its source, 0 if there was none; the stored reported hash is that of the
      last saved payload; and if the last save worked, that payload is what the file holds. */
  lemma {:induction false} HashesAreFaithful(env: Env, hash: string -> nat, c: Settings, init: State, ticks: seq<Tick>)
    requires Faithful(hash, init)
    ensures Faithful(hash, Run(env, hash, c, init, ticks))
  {
    if ticks != [] {
      var n := |ticks| - 1;
      HashesAreFaithful(env, hash, c, init, ticks[..n]);
      TickFaithful(env, hash, c, Run(env, hash, c, init, ticks[..n]), ticks[n]);
    }
  }

  /** Whether presenting a payload leads to a call: its hash is not 0 and differs from that of the
      last payload accepted from that source. */
  predicate WouldApply(hash: string -> nat, t: seq<Event>, source: Source, content: Option<string>) {
    && content.Some? && content.value != "" && hash(content.value) != 0
    && (LastApplied(t, source).Some? ==> hash(content.value) != hash(LastApplied(t, source).value))
  }

  function DesiredStatus(e: Event): Option<int> {
    if e.SetDesiredCall? then Some(e.status) else None
  }

  function ReportedStatus(e: Event): Option<int> {
    if e.GetReportedCall? then Some(e.status) else None
  }

  /** A stretch of trace that sends one payload from one source, once or, when a session was opened
      after that failed, twice. */
  ghost predicate Sends(block: seq<Event>, source: Source, payload: string) {
    && Tried(DesiredStatus, block)
    && forall i :: 0 <= i < |block| && block[i].SetDesiredCall? ==> block[i].source == source && block[i].payload == payload
  }

  predicate SendsNothing(block: seq<Event>) {
    forall i :: 0 <= i < |block| ==> !block[i].SetDesiredCall?
  }

  lemma SetDesiredBlock(env: Env, a: Agent, source: Source, payload: string) returns (block: seq<Event>)
    ensures SetDesired(env, a, source, payload).0.trace == a.trace + block && Sends(block, source, payload)
  {
    var first := SetDesiredCall(source, payload, env.mpiSetDesired(a.trace, payload));
    if first.status == MPI_OK {
      TriedOnce(DesiredStatus, first, []);
      block := [first] + [];
    } else {
      block := SetDesiredAgain(env, a, first);
    }
  }

  lemma SetDesiredAgain(env: Env, a: Agent, first: Event) returns (block: seq<Event>)
    requires first.SetDesiredCall? && first.status == env.mpiSetDesired(a.trace, first.payload) && first.status != 0
    ensures SetDesired(env, a, first.source, first.payload).0.trace == a.trace + block && Sends(block, first.source, first.payload)
  {
    var a1 := a.(trace := a.trace + [first]);
    var refresh := RefreshOpens(env, a1);
    var r := RefreshMpiClientSession(env, a1);
    assert a1.trace + refresh == a.trace + ([first] + refresh);
    if r.ok && !r.alreadyRunning {
      var second := SetDesiredCall(first.source, first.payload, env.mpiSetDesired(r.agent.trace, first.payload));
      TriedTwice(DesiredStatus, first, refresh, second);
      block := [first] + refresh + [second];
    } else {
      TriedOnce(DesiredStatus, first, refresh);
      block := [first] + refresh;
    }
  }

  /** Presenting a file sends its content iff its hash is nonzero and new. */
  lemma SentIffNew(env: Env, hash: string -> nat, a: Agent, source: Source, content: Option<string>, stored: nat) returns (block: seq<Event>)
    requires stored == HashOf(hash, LastApplied(a.trace, source))
    ensures ProcessDesired(env, hash, a, source, content, stored).0.trace == a.trace + block
    ensures if WouldApply(hash, a.trace, source, content) then Sends(block, source, content.value) else block == []
  {
    if WouldApply(hash, a.trace, source, content) {
      block := SetDesiredBlock(env, a, source, content.value);
    } else {
      block := [];
    }
  }

  /** The report is fetched once or, when a session was opened after that failed, twice. */
  lemma FetchBlock(env: Env, a: Agent) returns (block: seq<Event>)
    ensures GetReported(env, a).0.trace == a.trace + block && Tried(ReportedStatus, block) && SendsNothing(block)
  {
    var (a1, reply) := Fetch(env, a);
    var first := GetReportedCall(reply.0, reply.1);
    if reply.0 == MPI_OK {
      TriedOnce(ReportedStatus, first, []);
      block := [first] + [];
    } else {
      var refresh := RefreshOpens(env, a1);
      var r := RefreshMpiClientSession(env, a1);
      assert a1.trace + refresh == a.trace + ([first] + refresh);
      if r.ok && !r.alreadyRunning {
        var again := env.mpiGetReported(r.agent.trace);
        var second := GetReportedCall(again.0, again.1);
        TriedTwice(ReportedStatus, first, refresh, second);
        block := [first] + refresh + [second];
      } else {
        TriedOnce(ReportedStatus, first, refresh);
        block := [first] + refresh;
      }
    }
  }

  /** A report is fetched first, then it may be saved; nothing is sent. */
  ghost predicate Reports(block: seq<Event>) {
    exists n :: 0 <= n <= |block| <= n + 1 && Tried(ReportedStatus, block[..n]) && SendsNothing(block) && (n < |block| ==> block[n].FileSaved?)
  }

  lemma ReportBlock(env: Env, hash: string -> nat, s: State, damaged: Option<string>) returns (block: seq<Event>)
    ensures SaveReported(env, hash, s, damaged).agent.trace == s.agent.trace + block && Reports(block)
  {
    var fetch := FetchBlock(env, s.agent);
    var a := GetReported(env, s.agent).0;
    var t := SaveReported(env, hash, s, damaged).agent.trace;
    block := fetch;
    if |t| > |a.trace| {
      block := block + [t[|t| - 1]];
    }
    assert block[..|fetch|] == fetch;
  }

  /** The local file is presented just when local management is on. */
  lemma LocalBlock(env: Env, hash: string -> nat, c: Settings, s: State, t: Tick) returns (block: seq<Event>)
    requires Faithful(hash, s)
    ensures var s' := LocalPart(env, hash, c, s, t);
            && s'.agent.trace == s.agent.trace + block
            && s'.cloneInitialized == s.cloneInitialized && s'.gitDesiredHash == s.gitDesiredHash
            && LastApplied(s'.agent.trace, GitFile) == LastApplied(s.agent.trace, GitFile)
    ensures if c.localManagement && WouldApply(hash, s.agent.trace, LocalFile, t.local) then Sends(block, LocalFile, t.local.value) else block == []
  {
    if c.localManagement {
      block := SentIffNew(env, hash, s.agent, LocalFile, t.local, s.desiredHash);
      ProcessDesiredFaithful(env, hash, s.agent, LocalFile, t.local, s.desiredHash, GitFile);
    } else {
      block := [];
    }
  }

  /** The Git file is presented just when Git management is on and there is a clone that was pulled. */
  lemma GitBlock(env: Env, hash: string -> nat, c: Settings, s: State, t: Tick) returns (block: seq<Event>)
    requires s.gitDesiredHash == HashOf(hash, LastApplied(s.agent.trace, GitFile))
    ensures GitPart(env, hash, c, s, t).agent.trace == s.agent.trace + block
    ensures GitPart(env, hash, c, s, t).cloneInitialized == (s.cloneInitialized || (c.gitManagement && t.cloneOk))
    ensures if c.gitManagement && (s.cloneInitialized || t.cloneOk) && t.pullOk && WouldApply(hash, s.agent.trace, GitFile, t.git)
            then Sends(block, GitFile, t.git.value) else block == []
  {
    if c.gitManagement && (s.cloneInitialized || t.cloneOk) && t.pullOk {
      block := SentIffNew(env, hash, s.agent, GitFile, t.git, s.gitDesiredHash);
    } else {
      block := [];
    }
  }

  lemma ReportPartBlock(env: Env, hash: string -> nat, c: Settings, s: State, t: Tick) returns (block: seq<Event>)
    ensures ReportPart(env, hash, c, s, t).agent.trace == s.agent.trace + block
    ensures ReportPart(env, hash, c, s, t).cloneInitialized == s.cloneInitialized
    ensures if c.localManagement then Reports(block) else block == []
  {
    if c.localManagement {
      block := ReportBlock(env, hash, s, t.damaged);
    } else {
      block := [];
    }
  }

  /** What a tick sends from the local file and from the Git file, after any run: the content iff that
      management is on, the file can be had, and its hash is nonzero and differs from that of the
      last payload accepted from there. A clone, once there, stays, and the report comes last, just
      when local management is on. So an accepted payload is not sent again, and one that failed
      is sent at every tick that presents it. */
  lemma TickSends(env: Env, hash: string -> nat, c: Settings, s: State, t: Tick)
    returns (local: seq<Event>, git: seq<Event>, report: seq<Event>)
    requires Faithful(hash, s)
    ensures DoWork(env, hash, c, s, t).agent.trace == s.agent.trace + local + git + report
    ensures if c.localManagement && WouldApply(hash, s.agent.trace, LocalFile, t.local) then Sends(local, LocalFile, t.local.value) else local == []
    ensures if c.gitManagement && (s.cloneInitialized || t.cloneOk) && t.pullOk && WouldApply(hash, s.agent.trace, GitFile, t.git)
            then Sends(git, GitFile, t.git.value) else git == []
    ensures if c.localManagement then Reports(report) else report == []
    ensures DoWork(env, hash, c, s, t).cloneInitialized == (s.cloneInitialized || (c.gitManagement && t.cloneOk))
  {
    var s1 := LocalPart(env, hash, c, s, t);
    local := LocalBlock(env, hash, c, s, t);
    git := GitBlock(env, hash, c, s1, t);
    report := ReportPartBlock(env, hash, c, GitPart(env, hash, c, s1, t), t);
  }

  // ---------- Every call is answered ----------

  lemma SetDesiredContinues(env: Env, a: Agent, source: Source, payload: string)
    ensures Continues(env, a.trace, SetDesired(env, a, source, payload).0.trace)
  {
    var (a1, st) := Call(env, a, source, payload);
    ContinuesSnoc(env, a.trace, a.trace, SetDesiredCall(source, payload, st));
    if st != MPI_OK {
      var t := RefreshMpiClientSession(env, a1).agent.trace;
      RefreshContinues(env, a1);
      ContinuesTransitive(env, a.trace, a1.trace, t);
      ContinuesSnoc(env, a.trace, t, SetDesiredCall(source, payload, env.mpiSetDesired(t, payload)));
    }
  }

  lemma FetchContinues(env: Env, a: Agent)
    ensures Continues(env, a.trace, GetReported(env, a).0.trace)
  {
    var (a1, reply) := Fetch(env, a);
    ContinuesSnoc(env, a.trace, a.trace, GetReportedCall(reply.0, reply.1));
    if reply.0 != MPI_OK {
      var t := RefreshMpiClientSession(env, a1).agent.trace;
      RefreshContinues(env, a1);
      ContinuesTransitive(env, a.trace, a1.trace, t);
      ContinuesSnoc(env, a.trace, t, GetReportedCall(env.mpiGetReported(t).0, env.mpiGetReported(t).1));
    }
  }

  lemma SaveContinues(env: Env, hash: string -> nat, s: State, damaged: Option<string>)
    ensures Continues(env, s.agent.trace, SaveReported(env, hash, s, damaged).agent.trace)
  {
    FetchContinues(env, s.agent);
    var (a, reply) := GetReported(env, s.agent);
    if reply.1.Some? { ContinuesSnoc(env, s.agent.trace, a.trace, FileSaved(reply.1.value, env.saveFile(a.trace, reply.1.value))); }
  }

  lemma ProcessContinues(env: Env, hash: string -> nat, a: Agent, source: Source, content: Option<string>, stored: nat)
    ensures Continues(env, a.trace, ProcessDesired(env, hash, a, source, content, stored).0.trace)
  {
    if content.Some? { SetDesiredContinues(env, a, source, content.value); }
  }

  /** Over every run, what is logged of calls is what the platform, the daemon and the file system
      answered. */
  lemma {:induction false} RunContinues(env: Env, hash: string -> nat, c: Settings, init: State, ticks: seq<Tick>)
    ensures Continues(env, init.agent.trace, Run(env, hash, c, init, ticks).agent.trace)
  {
    if ticks != [] {
      var n := |ticks| - 1;
      RunContinues(env, hash, c, init, ticks[..n]);
      var s, t := Run(env, hash, c, init, ticks[..n]), ticks[n];
      TickContinues(env, hash, c, s, t);
      ContinuesTransitive(env, init.agent.trace, s.agent.trace, DoWork(env, hash, c, s, t).agent.trace);
    }
  }

  lemma TickContinues(env: Env, hash: string -> nat, c: Settings, s: State, t: Tick)
    ensures Continues(env, s.agent.trace, DoWork(env, hash, c, s, t).agent.trace)
  {
    var s1 := LocalPart(env, hash, c, s, t);
    var s2 := GitPart(env, hash, c, s1, t);
    ProcessContinues(env, hash, s.agent, LocalFile, t.local, s.desiredHash);
    ProcessContinues(env, hash, s1.agent, GitFile, t.git, s1.gitDesiredHash);
    SaveContinues(env, hash, s2, t.damaged);
    ContinuesTransitive(env, s.agent.trace, s1.agent.trace, s2.agent.trace);
    ContinuesTransitive(env, s.agent.trace, s2.agent.trace, DoWork(env, hash, c, s, t).agent.trace);
  }

  /** What is reported is saved iff the platform returned it, it is not empty, and its hash is nonzero
      and differs from that of the last payload saved. */
  lemma SavedIffNew(env: Env, hash: string -> nat, s: State, damaged: Option<string>)
    requires Faithful(hash, s)
    ensures var (a, reply) := GetReported(env, s.agent);
            var t := SaveReported(env, hash, s, damaged).agent.trace;
            if reply.0 == MPI_OK && reply.1.Some? && reply.1.value != "" && hash(reply.1.value) != 0
               && (LastSaved(s.agent.trace).Some? ==> hash(reply.1.value) != hash(LastSaved(s.agent.trace).value))
            then
              var ok := env.saveFile(a.trace, reply.1.value);
              && t == a.trace + [FileSaved(reply.1.value, ok)]
              && SaveReported(env, hash, s, damaged).file == (if ok then reply.1 else damaged)
            else t == a.trace && SaveReported(env, hash, s, damaged).file == s.file
  {
  }
}
