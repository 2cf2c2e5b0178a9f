/** What runs of the ring guarantee: which update a slot holds, that none is processed twice, and
    exactly which ones are lost. */
module TwinRingProperties {
  import opened Base
  import opened TwinRing

  datatype Op =
    | OpQueue(complete: bool, payload: Option<string>)
    | OpProcess
    | OpClear

  function Step(r: Ring, op: Op): Ring
    requires |r.slots| == MAX_DESIRED_TWIN_QUEUE && r.index < MAX_DESIRED_TWIN_QUEUE
  {
    match op
    case OpQueue(complete, payload) => Queue(r, complete, payload)
    case OpProcess => Process(r)
    case OpClear => Clear(r)
  }

  function Run(ops: seq<Op>): (r: Ring)
    ensures |r.slots| == MAX_DESIRED_TWIN_QUEUE && r.index < MAX_DESIRED_TWIN_QUEUE
  {
    if ops == [] then Fresh else Step(Run(ops[..|ops| - 1]), ops[|ops| - 1])
  }

  // ---------- Where updates sit ----------

  /** The slot that was written d updates ago. */
  function Behind(r: Ring, d: nat): nat
    requires r.index < MAX_DESIRED_TWIN_QUEUE && 1 <= d <= MAX_DESIRED_TWIN_QUEUE
  {
    (r.index + MAX_DESIRED_TWIN_QUEUE - d) % MAX_DESIRED_TWIN_QUEUE
  }

  /** How often an update has been processed. */
  function Logged(log: seq<Queued>, number: nat): nat {
    if log == [] then 0 else Logged(log[..|log| - 1], number) + (if log[|log| - 1].number == number then 1 else 0)
  }

  /** The slot written d updates ago holds the update with that number, unless a clear came since,
      and is marked processed exactly when the update is in the log. */
  ghost predicate SlotOk(r: Ring, d: nat)
    requires |r.slots| == MAX_DESIRED_TWIN_QUEUE && r.index < MAX_DESIRED_TWIN_QUEUE && 1 <= d <= MAX_DESIRED_TWIN_QUEUE
  {
    var s := r.slots[Behind(r, d)];
    if r.base + d <= r.count
    then s.Filled? && s.entry.number == r.count - d && Logged(r.log, r.count - d) == (if s.processed then 1 else 0)
    else s == Empty
  }

  ghost predicate Invariant(r: Ring)
    requires |r.slots| == MAX_DESIRED_TWIN_QUEUE && r.index < MAX_DESIRED_TWIN_QUEUE
  {
    && r.base <= r.count
    && (forall d :: 1 <= d <= MAX_DESIRED_TWIN_QUEUE ==> SlotOk(r, d))
    && (forall k :: r.count <= k ==> Logged(r.log, k) == 0)
    && (forall k :: 0 <= k ==> Logged(r.log, k) <= 1)
  }

  lemma QueueKeeps(r: Ring, complete: bool, payload: Option<string>)
    requires |r.slots| == MAX_DESIRED_TWIN_QUEUE && r.index < MAX_DESIRED_TWIN_QUEUE && Invariant(r)
    ensures Invariant(Queue(r, complete, payload))
  {
    var r' := Queue(r, complete, payload);
    if Acceptable(payload) {
      assert Behind(r', 1) == r.index;
      forall d | 1 <= d <= MAX_DESIRED_TWIN_QUEUE ensures SlotOk(r', d) {
        if d > 1 {
          assert SlotOk(r, d - 1);
          assert Behind(r', d) == Behind(r, d - 1) != r.index;
        }
      }
    }
  }

  /** What the first n slots of a pass do: mark them, and log each waiting entry once. */
  lemma {:induction false} ProcessUpToEffect(r: Ring, n: nat, j: nat)
    requires n <= |r.slots| && j < |r.slots|
    ensures var p := ProcessUpTo(r, n);
            p.slots[j] == if j < n && r.slots[j].Filled? then r.slots[j].(processed := true) else r.slots[j]
  {
    if n > 0 {
      ProcessUpToEffect(r, n - 1, j);
      ProcessUpToEffect(r, n - 1, n - 1);
    }
  }

  /** Slots hold different numbers. */
  ghost predicate DistinctNumbers(slots: seq<Slot>) {
    forall i, j :: 0 <= i < j < |slots| && slots[i].Filled? && slots[j].Filled? ==> slots[i].entry.number != slots[j].entry.number
  }

  predicate Waiting(s: Slot, number: nat) {
    s.Filled? && !s.processed && s.entry.number == number
  }

  lemma {:induction false} ProcessUpToLog(r: Ring, n: nat, k: nat)
    requires n <= |r.slots| && DistinctNumbers(r.slots)
    ensures Logged(ProcessUpTo(r, n).log, k) == Logged(r.log, k) + (if exists j :: 0 <= j < n && Waiting(r.slots[j], k) then 1 else 0)
  {
    if n > 0 {
      ProcessUpToLog(r, n - 1, k);
      ProcessUpToEffect(r, n - 1, n - 1);
      var p, s := ProcessUpTo(r, n - 1), r.slots[n - 1];
      assert p.slots[n - 1] == s;
      if s.Filled? && !s.processed {
        assert (p.log + [s.entry])[..|p.log|] == p.log;
      }
      if Waiting(s, k) {
        assert forall j :: 0 <= j < n - 1 ==> !Waiting(r.slots[j], k);
      }
    }
  }

  lemma InvariantDistinct(r: Ring)
    requires |r.slots| == MAX_DESIRED_TWIN_QUEUE && r.index < MAX_DESIRED_TWIN_QUEUE && Invariant(r)
    ensures DistinctNumbers(r.slots)
  {
    forall i, j | 0 <= i < j < |r.slots| && r.slots[i].Filled? && r.slots[j].Filled?
      ensures r.slots[i].entry.number != r.slots[j].entry.number
    {
      var a, b := Distance(r, i), Distance(r, j);
      assert SlotOk(r, a) && SlotOk(r, b) && a != b;
    }
  }

  /** How many updates ago slot j was written. */
  function Distance(r: Ring, j: nat): (d: nat)
    requires r.index < MAX_DESIRED_TWIN_QUEUE && j < MAX_DESIRED_TWIN_QUEUE
    ensures 1 <= d <= MAX_DESIRED_TWIN_QUEUE && Behind(r, d) == j
  {
    if j < r.index then r.index - j else r.index + MAX_DESIRED_TWIN_QUEUE - j
  }

  lemma ProcessKeeps(r: Ring)
    requires |r.slots| == MAX_DESIRED_TWIN_QUEUE && r.index < MAX_DESIRED_TWIN_QUEUE && Invariant(r)
    ensures Invariant(Process(r))
  {
    var p := Process(r);
    InvariantDistinct(r);
    forall k: nat ensures k >= r.count ==> Logged(p.log, k) == 0 {
      LogAfterProcess(r, k);
    }
    forall k: nat ensures Logged(p.log, k) <= 1 {
      LogAfterProcess(r, k);
    }
    forall d | 1 <= d <= MAX_DESIRED_TWIN_QUEUE ensures SlotOk(p, d) {
      assert SlotOk(r, d);
      ProcessUpToEffect(r, |r.slots|, Behind(r, d));
      if r.base + d <= r.count { LogAfterProcess(r, r.count - d); }
    }
  }

  /** A pass logs an update iff its slot was waiting, and a waiting update was not logged before. */
  lemma LogAfterProcess(r: Ring, k: nat)
    requires |r.slots| == MAX_DESIRED_TWIN_QUEUE && r.index < MAX_DESIRED_TWIN_QUEUE && Invariant(r)
    ensures (exists j :: 0 <= j < |r.slots| && Waiting(r.slots[j], k)) ==> Logged(r.log, k) == 0 && Logged(Process(r).log, k) == 1 && k < r.count
    ensures !(exists j :: 0 <= j < |r.slots| && Waiting(r.slots[j], k)) ==> Logged(Process(r).log, k) == Logged(r.log, k)
  {
    InvariantDistinct(r);
    ProcessUpToLog(r, |r.slots|, k);
    if j :| 0 <= j < |r.slots| && Waiting(r.slots[j], k) {
      assert SlotOk(r, Distance(r, j));
    }
  }

  lemma {:induction false} Reachable(ops: seq<Op>)
    ensures Invariant(Run(ops))
  {
    if ops != [] {
      var n := |ops| - 1;
      Reachable(ops[..n]);
      match ops[n] {
        case OpQueue(complete, payload) => QueueKeeps(Run(ops[..n]), complete, payload);
        case OpProcess => ProcessKeeps(Run(ops[..n]));
        case OpClear =>
      }
    }
  }

  /** The slot an update with this number goes to. Queueing and processing do not change it. */
  function Position(r: Ring, number: nat): nat {
    (r.index + number - r.count) % MAX_DESIRED_TWIN_QUEUE
  }

  lemma PositionIsStable(r: Ring, op: Op, number: nat)
    requires |r.slots| == MAX_DESIRED_TWIN_QUEUE && r.index < MAX_DESIRED_TWIN_QUEUE
    ensures Position(Step(r, op), number) == Position(r, number)
  {
  }

  /** Over every run that slot is the number modulo ten. */
  lemma {:induction false} PositionIsModulo(ops: seq<Op>, number: nat)
    ensures Position(Run(ops), number) == number % MAX_DESIRED_TWIN_QUEUE
  {
    if ops != [] {
      PositionIsModulo(ops[..|ops| - 1], number);
      PositionIsStable(Run(ops[..|ops| - 1]), ops[|ops| - 1], number);
    }
  }

  /** A filled slot j holds the newest update whose number is j modulo ten, and no update is in the
      log twice. */
  lemma SlotHoldsNewest(ops: seq<Op>, j: nat, k: nat)
    requires j < MAX_DESIRED_TWIN_QUEUE && Run(ops).slots[j].Filled?
    ensures var r := Run(ops);
            var number := r.slots[j].entry.number;
            && r.base <= number < r.count
            && number % MAX_DESIRED_TWIN_QUEUE == j
            && (number < k < r.count ==> k % MAX_DESIRED_TWIN_QUEUE != j)
            && Logged(r.log, k) <= 1
  {
    Reachable(ops);
    var r := Run(ops);
    var d := Distance(r, j);
    assert SlotOk(r, d);
    BehindIsPosition(r, d);
    PositionIsModulo(ops, r.slots[j].entry.number);
    PositionIsModulo(ops, k);
    if r.count - d < k < r.count {
      BehindIsPosition(r, r.count - k);
    }
  }

  lemma BehindIsPosition(r: Ring, d: nat)
    requires r.index < MAX_DESIRED_TWIN_QUEUE && 1 <= d <= MAX_DESIRED_TWIN_QUEUE && d <= r.count
    ensures Position(r, r.count - d) == Behind(r, d)
  {
    assert r.index + (r.count - d) - r.count == r.index - d;
  }

  // ---------- The fate of one update ----------

  /** What has become of an update: waiting with so many later ones queued, processed, or lost. */
  datatype Fate = Waits(later: nat) | Done | Lost

  /** The updates that are taken in: those with a payload of some bytes, fewer than a size can count. */
  predicate Counts(payload: Option<string>) {
    payload.Some? && payload.value != "" && |payload.value| < 0xFFFF_FFFF_FFFF_FFFF
  }

  function NextFate(fate: Fate, op: Op): Fate {
    match fate
    case Done => Done
    case Lost => Lost
    case Waits(later) =>
      match op
      case OpQueue(_, payload) =>
        if !Counts(payload) then fate else if later + 1 < MAX_DESIRED_TWIN_QUEUE then Waits(later + 1) else Lost
      case OpProcess => Done
      case OpClear => Lost
  }

  /** Reference model of the update queued by operation i, over the operations after it only. */
  function FateOf(ops: seq<Op>, i: nat): Fate
    requires i < |ops|
  {
    var n := |ops| - 1;
    if i == n then Waits(0) else NextFate(FateOf(ops[..n], i), ops[n])
  }

  /** How many updates are accepted after operation i. */
  function Later(ops: seq<Op>, i: nat): nat
    requires i < |ops|
  {
    var n := |ops| - 1;
    if i == n then 0 else Later(ops[..n], i) + (if ops[n].OpQueue? && Counts(ops[n].payload) then 1 else 0)
  }

  /** Operation p is a pass that finds the update of operation i still waiting: nothing cleared the
      ring in between and fewer than ten updates were accepted. */
  predicate InTime(ops: seq<Op>, i: nat, p: nat)
    requires i < |ops|
  {
    && i < p < |ops| && ops[p].OpProcess? && Later(ops[..p], i) < MAX_DESIRED_TWIN_QUEUE
    && forall q :: i < q < p ==> !ops[q].OpClear?
  }

  /** The fate in closed form: an update is processed iff some pass is in time for it. */
  lemma {:induction false} DoneIffInTime(ops: seq<Op>, i: nat)
    requires i < |ops|
    ensures FateOf(ops, i).Waits? <==> Later(ops, i) < MAX_DESIRED_TWIN_QUEUE && forall q :: i < q < |ops| ==> ops[q].OpQueue?
    ensures FateOf(ops, i).Waits? ==> FateOf(ops, i).later == Later(ops, i)
    ensures FateOf(ops, i).Done? <==> exists p :: InTime(ops, i, p)
    decreases |ops|
  {
    var n := |ops| - 1;
    if i < n {
      DoneIffInTime(ops[..n], i);
      forall p | i < p < n ensures InTime(ops, i, p) <==> InTime(ops[..n], i, p) {
        assert ops[..n][..p] == ops[..p];
      }
      if InTime(ops, i, n) && !FateOf(ops[..n], i).Waits? {
        var q :| i < q < n && !ops[..n][q].OpQueue?;
        LaterMonotone(ops[..n], i, q);
        assert ops[..n][..q] == ops[..q];
        assert InTime(ops[..n], i, q);
      }
      if FateOf(ops[..n], i).Done? {
        var p :| InTime(ops[..n], i, p);
        assert InTime(ops, i, p);
      }
    }
  }

  lemma {:induction false} LaterMonotone(ops: seq<Op>, i: nat, q: nat)
    requires i < q < |ops|
    ensures Later(ops[..q], i) <= Later(ops, i)
    decreases |ops|
  {
    var n := |ops| - 1;
    if q < n {
      LaterMonotone(ops[..n], i, q);
      assert ops[..n][..q] == ops[..q];
    }
  }

  /** The ring treats every update as its reference model says: it is in the log, with its payload,
      iff it is done, and it stands unprocessed in its slot iff it waits. */
  ghost predicate Matches(r: Ring, e: Queued, fate: Fate)
    requires |r.slots| == MAX_DESIRED_TWIN_QUEUE && r.index < MAX_DESIRED_TWIN_QUEUE
  {
    && e.number < r.count
    && match fate
       case Waits(later) =>
         && later < MAX_DESIRED_TWIN_QUEUE && e.number == r.count - 1 - later && r.base <= e.number
         && r.slots[Behind(r, later + 1)] == Filled(e, false) && e !in r.log
       case Done => e in r.log
       case Lost => Logged(r.log, e.number) == 0 && (r.count - e.number > MAX_DESIRED_TWIN_QUEUE || e.number < r.base)
  }

  lemma {:induction false} CountZero(log: seq<Queued>, e: Queued)
    requires Logged(log, e.number) == 0
    ensures e !in log
  {
    if log != [] {
      CountZero(log[..|log| - 1], e);
      assert log == log[..|log| - 1] + [log[|log| - 1]];
    }
  }

  lemma {:induction false} ProcessLogs(r: Ring, n: nat, j: nat, e: Queued)
    requires n <= |r.slots|
    ensures e in r.log ==> e in ProcessUpTo(r, n).log
    ensures j < n && r.slots[j] == Filled(e, false) ==> e in ProcessUpTo(r, n).log
  {
    if n > 0 {
      ProcessLogs(r, n - 1, j, e);
      ProcessUpToEffect(r, n - 1, n - 1);
    }
  }

  lemma StepMatches(r: Ring, op: Op, e: Queued, fate: Fate)
    requires |r.slots| == MAX_DESIRED_TWIN_QUEUE && r.index < MAX_DESIRED_TWIN_QUEUE && Invariant(r) && Matches(r, e, fate)
    ensures Matches(Step(r, op), e, NextFate(fate, op))
  {
    match op {
      case OpQueue(complete, payload) =>
        if Acceptable(payload) && fate.Waits? { QueueMatches(r, complete, payload, e, fate.later); }
      case OpProcess => ProcessMatches(r, e, fate);
      case OpClear =>
        if fate.Waits? { assert SlotOk(r, fate.later + 1); }
    }
  }

  lemma QueueMatches(r: Ring, complete: bool, payload: Option<string>, e: Queued, later: nat)
    requires |r.slots| == MAX_DESIRED_TWIN_QUEUE && r.index < MAX_DESIRED_TWIN_QUEUE && Invariant(r)
    requires Acceptable(payload) && Matches(r, e, Waits(later))
    ensures Matches(Queue(r, complete, payload), e, if later + 1 < MAX_DESIRED_TWIN_QUEUE then Waits(later + 1) else Lost)
  {
    var r' := Queue(r, complete, payload);
    assert SlotOk(r, later + 1);
    if later + 1 < MAX_DESIRED_TWIN_QUEUE {
      assert Behind(r', later + 2) == Behind(r, later + 1) != r.index;
    }
  }

  lemma ProcessMatches(r: Ring, e: Queued, fate: Fate)
    requires |r.slots| == MAX_DESIRED_TWIN_QUEUE && r.index < MAX_DESIRED_TWIN_QUEUE && Invariant(r) && Matches(r, e, fate)
    ensures Matches(Process(r), e, if fate.Waits? then Done else fate)
  {
    match fate {
      case Waits(later) => ProcessLogs(r, |r.slots|, Behind(r, later + 1), e);
      case Done => ProcessLogs(r, |r.slots|, 0, e);
      case Lost =>
        LogAfterProcess(r, e.number);
        forall j | 0 <= j < |r.slots| ensures !Waiting(r.slots[j], e.number) {
          assert SlotOk(r, Distance(r, j));
        }
    }
  }

  /** Over every run with interleaved queues, passes and clears, update i ends as its reference says.
      In particular it is processed at most once, with its own payload, and it is lost exactly when
      ten later updates were accepted, or the ring was cleared, before a pass. */
  lemma {:induction false} EveryUpdateMeetsItsFate(ops: seq<Op>, i: nat)
    requires i < |ops| && ops[i].OpQueue? && Counts(ops[i].payload)
    ensures Matches(Run(ops), Queued(Run(ops[..i]).count, Update(ops[i].complete, ops[i].payload.value)), FateOf(ops, i))
    decreases |ops|
  {
    var n := |ops| - 1;
    var e := Queued(Run(ops[..i]).count, Update(ops[i].complete, ops[i].payload.value));
    Reachable(ops[..n]);
    var r := Run(ops[..n]);
    if i == n {
      CountZero(r.log, e);
      assert Behind(Run(ops), 1) == r.index;
    } else {
      EveryUpdateMeetsItsFate(ops[..n], i);
      assert ops[..n][..i] == ops[..i];
      StepMatches(r, ops[n], e, FateOf(ops[..n], i));
    }
  }

  // ---------- Callbacks only ----------

  datatype Arrival = Arrival(complete: bool, payload: Option<string>)

  /** A run made only of ModuleTwinCallback, with hub management enabled. */
  function Callbacks(arrivals: seq<Arrival>): (r: Ring)
    ensures |r.slots| == MAX_DESIRED_TWIN_QUEUE && r.index < MAX_DESIRED_TWIN_QUEUE
  {
    if arrivals == [] then Fresh
    else
      var a := arrivals[|arrivals| - 1];
      Callback(Callbacks(arrivals[..|arrivals| - 1]), a.complete, a.payload, true)
  }

  /** The acceptable arrivals, numbered in order. */
  function Accepted(arrivals: seq<Arrival>): seq<Queued> {
    if arrivals == [] then []
    else
      var earlier, a := Accepted(arrivals[..|arrivals| - 1]), arrivals[|arrivals| - 1];
      if Counts(a.payload) then earlier + [Queued(|earlier|, Update(a.complete, a.payload.value))] else earlier
  }

  predicate AllProcessed(slots: seq<Slot>) {
    forall j :: 0 <= j < |slots| ==> slots[j].Filled? ==> slots[j].processed
  }

  /** With at most one waiting slot a pass logs just that one. */
  lemma {:induction false} ProcessOnly(r: Ring, n: nat, at: nat)
    requires n <= |r.slots| && at < |r.slots|
    requires forall j :: 0 <= j < |r.slots| && j != at && r.slots[j].Filled? ==> r.slots[j].processed
    ensures ProcessUpTo(r, n).log == r.log + (if at < n && r.slots[at].Filled? && !r.slots[at].processed then [r.slots[at].entry] else [])
  {
    if n > 0 {
      ProcessOnly(r, n - 1, at);
      ProcessUpToEffect(r, n - 1, n - 1);
    }
  }

  /** Every acceptable update is then processed exactly once, in the order of arrival. */
  lemma {:induction false} CallbacksProcessInOrder(arrivals: seq<Arrival>)
    ensures var r := Callbacks(arrivals);
            r.log == Accepted(arrivals) && r.count == |Accepted(arrivals)| && AllProcessed(r.slots)
  {
    if arrivals != [] {
      var n := |arrivals| - 1;
      CallbacksProcessInOrder(arrivals[..n]);
      var r, a := Callbacks(arrivals[..n]), arrivals[n];
      var q := Queue(r, a.complete, a.payload);
      ProcessOnly(q, |q.slots|, r.index);
      forall j | 0 <= j < |q.slots| ensures Process(q).slots[j].Filled? ==> Process(q).slots[j].processed {
        ProcessUpToEffect(q, |q.slots|, j);
      }
    }
  }
  /** With hub management disabled a callback only queues: nothing is processed or marked. */
  lemma DisabledCallbackQueues(r: Ring, complete: bool, payload: Option<string>)
    requires |r.slots| == MAX_DESIRED_TWIN_QUEUE && r.index < MAX_DESIRED_TWIN_QUEUE
    ensures var r' := Callback(r, complete, payload, false);
            r'.log == r.log && if Counts(payload) then r'.slots[r.index] == Filled(Queued(r.count, Update(complete, payload.value)), false) else r' == r
  {
  }
}
