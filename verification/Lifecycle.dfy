/** The platform process as a protocol between its main thread, the worker threads it creates and
    the signals that may arrive between any two steps. A program counter stands where the source
    could be interrupted; Step is total, and an action that is not enabled changes nothing. */
module Lifecycle {

  /** Where the caller of MpiShutdown continues. */
  datatype Return = ToInitialize | ToEnd

  datatype MainPc =
    // MpiInitialize
    | Binding          // socket, bind and listen
    | Activating       // g_serverActive = true
    | Creating         // pthread_create
    | Storing(result: int)  // g_mpiServerWorkerError = its result
    // the main loop
    | TestingStop
    | Sleeping
    | TestingRefresh
    | ClearingRefresh  // g_refreshSignal = 0
    | CallingRefresh
    // MpiShutdown
    | Deactivating(ret: Return)
    | TestingError(ret: Return)
    | Joining(ret: Return)
    | ResettingError(ret: Return)
    | Unloading(ret: Return)  // inside UnloadModules
    | Closing(ret: Return)
    | Ended

  /** A worker tests g_serverActive, waits in accept, and serves a connection, which is where it
      loads modules and runs handlers. */
  datatype WorkerPc = Testing | Accepting | Serving | Exited

  datatype State = State(
    main: MainPc,
    serverActive: bool,
    workerError: int,
    worker: nat,               // g_mpiServerWorker, an index into workers
    workers: seq<WorkerPc>,    // every thread ever created
    refreshSignal: bool,
    stopSignal: bool)

  /** One step of one party. `code` is what a call that can fail returns, setting up the socket or
      creating a thread, with 0 for success; `ok` says whether accept succeeds. */
  datatype Action =
    | Main(code: int)
    | Worker(t: nat, ok: bool)
    | RefreshRequest  // SIGHUP or ScheduleRefresh
    | StopRequest

  const Initial := State(Binding, false, -1, 0, [], false, false)

  function MainStep(s: State, code: int): State {
    match s.main
    case Binding => s.(main := if code == 0 then Activating else TestingStop)
    case Activating => s.(serverActive := true, main := Creating)
    case Creating =>
      if code == 0 then s.(workers := s.workers + [Testing], worker := |s.workers|, main := Storing(code)) else s.(main := Storing(code))
    case Storing(result) => s.(workerError := result, main := TestingStop)
    case TestingStop => s.(main := if s.stopSignal then Deactivating(ToEnd) else Sleeping)
    case Sleeping => s.(main := TestingRefresh)
    case TestingRefresh => s.(main := if s.refreshSignal then ClearingRefresh else TestingStop)
    case ClearingRefresh => s.(refreshSignal := false, main := CallingRefresh)
    case CallingRefresh => s.(main := Deactivating(ToInitialize))
    case Deactivating(ret) => s.(serverActive := false, main := TestingError(ret))
    case TestingError(ret) => s.(main := if s.workerError == 0 then Joining(ret) else Unloading(ret))
    case Joining(ret) =>
      // pthread_join returns only once the thread has ended
      if s.worker < |s.workers| && s.workers[s.worker].Exited? then s.(main := ResettingError(ret)) else s
    case ResettingError(ret) => s.(workerError := -1, main := Unloading(ret))
    case Unloading(ret) => s.(main := Closing(ret))
    case Closing(ret) => s.(main := if ret == ToInitialize then Binding else Ended)
    case Ended => s
  }

  function WorkerStep(s: State, t: nat, ok: bool): State {
    if t >= |s.workers| then s
    else
      match s.workers[t]
      case Testing => s.(workers := s.workers[t := if s.serverActive then Accepting else Exited])
      case Accepting => s.(workers := s.workers[t := if ok then Serving else Testing])
      case Serving => s.(workers := s.workers[t := Testing])
      case Exited => s
  }

  function Step(s: State, a: Action): State {
    match a
    case Main(code) => MainStep(s, code)
    case Worker(t, ok) => WorkerStep(s, t, ok)
    case RefreshRequest => s.(refreshSignal := true)
    case StopRequest => s.(stopSignal := true)
  }

  function Run(actions: seq<Action>): State {
    if actions == [] then Initial else Step(Run(actions[..|actions| - 1]), actions[|actions| - 1])
  }

  // ---------- Worker and unload exclusion ----------

  predicate AllExited(s: State) {
    forall t :: 0 <= t < |s.workers| ==> s.workers[t].Exited?
  }

  /** Only the thread in g_mpiServerWorker may still be alive. */
  predicate OnlyCurrentAlive(s: State) {
    s.worker < |s.workers| && forall t :: 0 <= t < |s.workers| && t != s.worker ==> s.workers[t].Exited?
  }

  /** The places where the source relies on there being no worker. */
  predicate NeedsNoWorker(pc: MainPc) {
    pc.Binding? || pc.Activating? || pc.Creating? || pc.ResettingError? || pc.Unloading? || pc.Closing? || pc.Ended?
  }

  /** What may be running at a place of the main thread: a stored error code of 0 means exactly that
      a thread was created and not joined yet. */
  predicate Consistent(pc: MainPc, workerError: int, none: bool, onlyCurrent: bool) {
    match pc
    case Joining(_) => workerError == 0 && onlyCurrent
    case ResettingError(_) => none
    case Storing(result) => workerError != 0 && (if result == 0 then onlyCurrent else none)
    case _ => if workerError == 0 then !NeedsNoWorker(pc) && onlyCurrent else none
  }

  predicate Invariant(s: State) {
    Consistent(s.main, s.workerError, AllExited(s), OnlyCurrentAlive(s))
  }

  /** Steps that neither create nor join a thread move the main thread consistently. */
  lemma ControlStep(s: State, code: int, none: bool, onlyCurrent: bool)
    requires !s.main.Creating? && !s.main.Joining?
    requires Consistent(s.main, s.workerError, none, onlyCurrent)
    ensures var s' := MainStep(s, code);
            Consistent(s'.main, s'.workerError, none, onlyCurrent) && s'.workers == s.workers && s'.worker == s.worker
  {
  }

  lemma MainKeepsInvariant(s: State, code: int)
    requires Invariant(s)
    ensures Invariant(MainStep(s, code))
  {
    var s' := MainStep(s, code);
    if s.main.Creating? {
      assert forall t :: 0 <= t < |s.workers| ==> s'.workers[t] == s.workers[t];
    } else if !s.main.Joining? {
      ControlStep(s, code, AllExited(s), OnlyCurrentAlive(s));
    }
  }

  lemma WorkerKeepsInvariant(s: State, t: nat, ok: bool)
    requires Invariant(s)
    ensures Invariant(WorkerStep(s, t, ok))
  {
  }

  lemma {:induction false} Reachable(actions: seq<Action>)
    ensures Invariant(Run(actions))
  {
    if actions != [] {
      var n := |actions| - 1;
      Reachable(actions[..n]);
      match actions[n] {
        case Main(code) => MainKeepsInvariant(Run(actions[..n]), code);
        case Worker(t, ok) => WorkerKeepsInvariant(Run(actions[..n]), t, ok);
        case _ =>
      }
    }
  }

  /** In every reachable state at most one worker is alive, and while the main thread is inside
      UnloadModules none is, also when creating a thread failed before. */
  lemma WorkerExclusion(actions: seq<Action>, t: nat, u: nat)
    requires t < |Run(actions).workers| && u < |Run(actions).workers|
    ensures !Run(actions).workers[t].Exited? && !Run(actions).workers[u].Exited? ==> t == u
    ensures Run(actions).main.Unloading? ==> Run(actions).workers[t].Exited?
  {
    Reachable(actions);
  }

  // ---------- Refresh requests ----------

  /** The step that enters Refresh. */
  predicate RefreshBegins(s: State, a: Action) {
    s.main == CallingRefresh && a.Main?
  }

  /** A request still to be answered: recorded in the flag, or taken out of it by a loop iteration
      that has not reached its Refresh yet. */
  predicate Pending(s: State) {
    s.refreshSignal || s.main == CallingRefresh
  }

  /** No refresh request is lost: at any later time, a Refresh has begun after it or it is pending. */
  lemma {:induction false} NoRefreshLost(actions: seq<Action>, i: nat)
    requires i < |actions| && actions[i] == RefreshRequest
    ensures Pending(Run(actions)) || exists k :: i < k < |actions| && RefreshBegins(Run(actions[..k]), actions[k])
    decreases |actions|
  {
    var n := |actions| - 1;
    if i < n {
      NoRefreshLost(actions[..n], i);
      var before := Run(actions[..n]);
      if Pending(before) {
        if RefreshBegins(before, actions[n]) {
          assert RefreshBegins(Run(actions[..n]), actions[n]);
        }
      } else {
        var k :| i < k < n && RefreshBegins(Run(actions[..n][..k]), actions[..n][k]);
        assert actions[..n][..k] == actions[..k];
        assert RefreshBegins(Run(actions[..k]), actions[k]);
      }
    }
  }
  // ---------- What the main thread comes to ----------

  /** Two steps of the main thread, with what its calls return. */
  function TwoSteps(s: State, first: int, second: int): State {
    MainStep(MainStep(s, first), second)
  }

  /** A pass of the loop begins a shutdown if a stop is requested, a refresh if one is, taking the
      request out of the flag, and else comes back to its beginning. */
  lemma LoopPass(s: State)
    requires s.main == TestingStop
    ensures if s.stopSignal then MainStep(s, 0) == s.(main := Deactivating(ToEnd))
            else if s.refreshSignal then
              MainStep(TwoSteps(TwoSteps(s, 0, 0), 0, 0), 0) == s.(refreshSignal := false, main := Deactivating(ToInitialize))
            else MainStep(TwoSteps(s, 0, 0), 0) == s
  {
  }

  /** A shutdown clears g_serverActive and then waits for the worker iff one was created. */
  lemma ShutdownTests(s: State, ret: Return)
    requires s.main == Deactivating(ret)
    ensures TwoSteps(s, 0, 0) == s.(serverActive := false, main := if s.workerError == 0 then Joining(ret) else Unloading(ret))
  {
  }

  /** It waits until the worker has ended, which makes the stored error that of no worker. */
  lemma JoinWaits(s: State, ret: Return)
    requires s.main == Joining(ret) && s.worker < |s.workers|
    ensures s.workers[s.worker] != Exited ==> MainStep(s, 0) == s
    ensures s.workers[s.worker] == Exited ==> TwoSteps(s, 0, 0) == s.(workerError := -1, main := Unloading(ret))
  {
  }

  /** Having unloaded the modules it goes on to initialize again or to end. */
  lemma UnloadEndsShutdown(s: State, ret: Return)
    requires s.main == Unloading(ret)
    ensures TwoSteps(s, 0, 0) == s.(main := if ret == ToInitialize then Binding else Ended)
  {
  }

  /** An initialization comes to the loop, with one new worker and an active server iff its socket and
      the thread could be created; the thread's error is what is stored. */
  lemma StartupPass(s: State, socket: int, thread: int)
    requires s.main == Binding
    ensures socket != 0 ==> MainStep(s, socket) == s.(main := TestingStop)
    ensures socket == 0 ==>
              var active := s.(serverActive := true, workerError := thread, main := TestingStop);
              TwoSteps(TwoSteps(s, socket, 0), thread, 0)
              == if thread != 0 then active else active.(workers := s.workers + [Testing], worker := |s.workers|)
  {
  }

  /** A worker serves what it accepts while the server is active, and ends once it finds it is not. */
  lemma WorkerTurn(s: State, t: nat, ok: bool)
    requires t < |s.workers|
    ensures WorkerStep(s, t, ok) == s.(workers := s.workers[t :=
              if s.workers[t] == Testing then (if s.serverActive then Accepting else Exited)
              else if s.workers[t] == Accepting then (if ok then Serving else Testing)
              else if s.workers[t] == Serving then Testing
              else Exited])
  {
  }
}
