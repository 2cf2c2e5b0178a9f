/** The ring of desired twin updates: a fixed array of ten slots that QueueDesiredTwinUpdate fills in
    turn and ProcessDesiredTwinUpdates empties in slot order. */
module TwinRing {
  import opened Base

  const MAX_DESIRED_TWIN_QUEUE := 10
  const SIZE_MAX := 0xFFFF_FFFF_FFFF_FFFF

  datatype Update = Update(complete: bool, payload: string)

  /** An update with the number of updates accepted before it, which tells equal payloads apart. */
  datatype Queued = Queued(number: nat, update: Update)

  datatype Slot = Empty | Filled(entry: Queued, processed: bool)

  /** The ring as a value. `count` is the number of updates accepted so far, `base` what it was at
      the last clear, and `log` what has been handed to ProcessJsonFromTwin, in order. */
  datatype Ring = Ring(slots: seq<Slot>, index: nat, count: nat, base: nat, log: seq<Queued>)

  function EmptySlots(n: nat): (s: seq<Slot>)
    ensures |s| == n && forall i :: 0 <= i < n ==> s[i] == Empty
  {
    if n == 0 then [] else EmptySlots(n - 1) + [Empty]
  }

  const Fresh := Ring(EmptySlots(MAX_DESIRED_TWIN_QUEUE), 0, 0, 0, [])

  // ---------- Operations ----------

  predicate Acceptable(payload: Option<string>) {
    payload.Some? && 0 < |payload.value| < SIZE_MAX
  }

  function Queue(r: Ring, complete: bool, payload: Option<string>): Ring
    requires |r.slots| == MAX_DESIRED_TWIN_QUEUE && r.index < MAX_DESIRED_TWIN_QUEUE
  {
    if !Acceptable(payload) then r
    else
      r.(slots := r.slots[r.index := Filled(Queued(r.count, Update(complete, payload.value)), false)],
         index := if r.index + 1 >= MAX_DESIRED_TWIN_QUEUE then 0 else r.index + 1,
         count := r.count + 1)
  }

  /** The first n slots of a processing pass. */
  function ProcessUpTo(r: Ring, n: nat): (p: Ring)
    requires n <= |r.slots|
    ensures |p.slots| == |r.slots| && p.index == r.index && p.count == r.count && p.base == r.base
  {
    if n == 0 then r
    else
      var p := ProcessUpTo(r, n - 1);
      var s := p.slots[n - 1];
      if s.Filled? && !s.processed then p.(slots := p.slots[n - 1 := s.(processed := true)], log := p.log + [s.entry]) else p
  }

  function Process(r: Ring): Ring {
    ProcessUpTo(r, |r.slots|)
  }

  /** The index is not reset. */
  function Clear(r: Ring): Ring {
    r.(slots := EmptySlots(MAX_DESIRED_TWIN_QUEUE), base := r.count)
  }

  /** ModuleTwinCallback: queue, then raise SIGUSR1, whose handler processes if the hub is enabled. */
  function Callback(r: Ring, complete: bool, payload: Option<string>, hubEnabled: bool): Ring
    requires |r.slots| == MAX_DESIRED_TWIN_QUEUE && r.index < MAX_DESIRED_TWIN_QUEUE
  {
    if hubEnabled then Process(Queue(r, complete, payload)) else Queue(r, complete, payload)
  }

  class DesiredTwinUpdates {
    const slots: array<Slot>
    var index: nat
    var count: nat
    ghost var base: nat
    ghost var log: seq<Queued>

    ghost predicate Valid()
      reads this
    {
      slots.Length == MAX_DESIRED_TWIN_QUEUE && index < MAX_DESIRED_TWIN_QUEUE
    }

    ghost function View(): Ring
      reads this, slots
    {
      Ring(slots[..], index, count, base, log)
    }

    constructor ()
      ensures Valid() && fresh(slots) && View() == Fresh
    {
      slots := new Slot[MAX_DESIRED_TWIN_QUEUE](_ => Empty);
      index, count, base, log := 0, 0, 0, [];
    }

    method QueueDesiredTwinUpdate(complete: bool, payload: Option<string>)
      requires Valid()
      modifies this, slots
      ensures Valid() && View() == Queue(old(View()), complete, payload)
    {
      if payload.None? || |payload.value| == 0 || SIZE_MAX <= |payload.value| {
        return;
      }
      Fill(Update(complete, payload.value));
      index := index + 1;
      if index >= MAX_DESIRED_TWIN_QUEUE {
        index := 0;
      }
    }

    /** Overwrites the current slot, whatever it held. */
    method Fill(update: Update)
      requires Valid()
      modifies this`count, slots
      ensures slots[..] == old(slots[..])[index := Filled(Queued(old(count), update), false)]
      ensures count == old(count) + 1
    {
      slots[index] := Filled(Queued(count, update), false);
      count := count + 1;
    }

    method ClearDesiredTwinUpdates()
      requires Valid()
      modifies this`base, slots
      ensures Valid() && View() == Clear(old(View()))
    {
      for i := 0 to MAX_DESIRED_TWIN_QUEUE
        invariant forall k :: 0 <= k < i ==> slots[k] == Empty
      {
        slots[i] := Empty;
      }
      base := count;
      assert slots[..] == Clear(old(View())).slots;
    }

    method ProcessDesiredTwinUpdates()
      requires Valid()
      modifies this`log, slots
      ensures Valid() && View() == Process(old(View()))
    {
      for i := 0 to MAX_DESIRED_TWIN_QUEUE
        invariant View() == ProcessUpTo(old(View()), i)
      {
        if slots[i].Filled? && !slots[i].processed {
          log := log + [slots[i].entry];
          slots[i] := slots[i].(processed := true);
        }
      }
    }
  }
}
