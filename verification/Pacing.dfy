/** How often the agent works: the reporting interval it takes from the configuration, and the test
    of AgentDoWork on a 32-bit clock that wraps around. */
module Pacing {
  import opened Base

  const MIN_REPORTING_INTERVAL := 1
  const MAX_REPORTING_INTERVAL := 86400
  const DEFAULT_REPORTING_INTERVAL := 30
  const WRAP := 0x1_0000_0000

  // ---------- Configuration ----------

  /** json_object_get_number: 0 for a member that is missing or not a number. */
  function NumberOf(codec: Codec, members: seq<(string, Json)>, name: string): Int {
    match Member(members, name)
    case Some(Number(x)) => ToInt(codec, x)
    case _ => 0
  }

  function GetIntegerFromJsonConfig(codec: Codec, name: Option<string>, json: Option<string>, default_: int, min: int, max: int): (r: int)
    ensures min <= default_ <= max ==> min <= r <= max
  {
    if name.None? || min >= max || json.None? then default_
    else
      match codec.parse(json.value)
      case Some(Object(m)) =>
        var v := NumberOf(codec, m, name.value);
        if v == 0 && min != 0 && max != 0 then default_ else if v < min then min else if v > max then max else v
      case _ => default_
  }

  function GetReportingIntervalFromJsonConfig(codec: Codec, json: Option<string>): (r: nat)
    ensures MIN_REPORTING_INTERVAL <= r <= MAX_REPORTING_INTERVAL
  {
    GetIntegerFromJsonConfig(codec, Some("ReportingIntervalSeconds"), json,
                             DEFAULT_REPORTING_INTERVAL, MIN_REPORTING_INTERVAL, MAX_REPORTING_INTERVAL)
  }

  /** For proper bounds that 0 does not lie on: a number that an int can hold is clamped to them, and
      the default stands in for 0, for a value that is no number, and for a configuration that is no
      object. */
  lemma ConfiguredInteger(codec: Codec, name: string, json: string, default_: int, min: int, max: int)
    requires min < max && min != 0 && max != 0
    ensures GetIntegerFromJsonConfig(codec, Some(name), None, default_, min, max) == default_
    ensures GetIntegerFromJsonConfig(codec, Some(name), Some(json), default_, min, max) ==
              match codec.parse(json)
              case Some(Object(m)) =>
                (match Member(m, name)
                 case Some(Number(x)) =>
                   var n: int := ToInt(codec, x);
                   if n == 0 then default_ else if n < min then min else if n > max then max else n
                 case _ => default_)
              case _ => default_
  {
  }

  /** The reporting interval is the configured number of seconds, cut to one day, or 30. */
  lemma ConfiguredInterval(codec: Codec, json: string, m: seq<(string, Json)>, seconds: Int)
    requires codec.parse(json) == Some(Object(m))
    ensures Member(m, "ReportingIntervalSeconds") == None ==> GetReportingIntervalFromJsonConfig(codec, Some(json)) == 30
    ensures Member(m, "ReportingIntervalSeconds") == Some(Number(seconds as real)) && seconds != 0 ==>
              GetReportingIntervalFromJsonConfig(codec, Some(json)) == if seconds < 1 then 1 else if seconds > 86400 then 86400 else seconds
  {
    if Member(m, "ReportingIntervalSeconds") == Some(Number(seconds as real)) {
      ToIntDropsFraction(codec, seconds as real);
    }
  }

  // ---------- The interval test ----------

  /** One call of AgentDoWork: the true time, in seconds, when it starts and when its work, if it does
      any, is over. */
  datatype Visit = Visit(start: nat, end: nat)

  /** The clock does not run backwards. */
  ghost predicate Ordered(t0: nat, visits: seq<Visit>) {
    && (forall i :: 0 <= i < |visits| ==> t0 <= visits[i].start <= visits[i].end)
    && (forall i, j :: 0 <= i < j < |visits| ==> visits[i].end <= visits[j].start)
  }

  /** g_lastTime and the visits that did work. */
  datatype Clock = Clock(lastTime: nat, rounds: seq<Visit>)

  predicate Due(interval: nat, lastTime: nat, now: nat) {
    interval <= (now % WRAP - lastTime) % WRAP
  }

  function DoWork(interval: nat, c: Clock, v: Visit): Clock {
    if Due(interval, c.lastTime, v.start) then Clock(v.end % WRAP, c.rounds + [v]) else c
  }

  function Run(interval: nat, t0: nat, visits: seq<Visit>): Clock {
    if visits == [] then Clock(t0 % WRAP, []) else DoWork(interval, Run(interval, t0, visits[..|visits| - 1]), visits[|visits| - 1])
  }

  class Agent {
    const interval: nat
    var lastTime: nat
    ghost var rounds: seq<Visit>

    constructor (interval: nat, time: nat)
      ensures this.interval == interval && View() == Clock(time % WRAP, [])
    {
      this.interval, this.lastTime, this.rounds := interval, time % WRAP, [];
    }

    ghost function View(): Clock
      reads this
    {
      Clock(lastTime, rounds)
    }

    method AgentDoWork(v: Visit) returns (worked: bool)
      modifies this
      ensures View() == DoWork(interval, old(View()), v) && worked == Due(interval, old(lastTime), v.start)
    {
      var currentTime := v.start % WRAP;
      worked := interval <= (currentTime - lastTime) % WRAP;
      if worked {
        rounds := rounds + [v];
        lastTime := v.end % WRAP;
      }
    }
  }

  /** When the last round ended, or the agent started. */
  function LastEnd(t0: nat, rounds: seq<Visit>): nat {
    if rounds == [] then t0 else rounds[|rounds| - 1].end
  }

  lemma Elapsed(last: nat, now: nat)
    requires last <= now
    ensures (now % WRAP - last % WRAP) % WRAP == (now - last) % WRAP <= now - last
  {
    var a, b := now / WRAP, last / WRAP;
    assert now == a * WRAP + now % WRAP && last == b * WRAP + last % WRAP;
    assert now - last == (a - b) * WRAP + (now % WRAP - last % WRAP);
    SameRemainder(now % WRAP - last % WRAP, a - b);
  }

  lemma SameRemainder(x: int, k: int)
    ensures (k * WRAP + x) % WRAP == x % WRAP
  {
    var q := x / WRAP;
    assert k * WRAP + x == (k + q) * WRAP + x % WRAP;
  }

  /** Rounds are visits, in order, and each keeps its distance to the one before. */
  ghost predicate Spaced(interval: nat, t0: nat, rounds: seq<Visit>) {
    forall k :: 0 <= k < |rounds| ==> rounds[k].start - LastEnd(t0, rounds[..k]) >= interval
  }

  /** For every clock that does not run backwards, each round starts at least the interval after the
      previous one ended, however often the 32-bit time wraps in between. */
  lemma {:induction false} RoundsAreSpaced(interval: nat, t0: nat, visits: seq<Visit>)
    requires Ordered(t0, visits)
    ensures var c := Run(interval, t0, visits);
            && Spaced(interval, t0, c.rounds)
            && c.lastTime == LastEnd(t0, c.rounds) % WRAP
            && (visits == [] ==> LastEnd(t0, c.rounds) == t0)
            && (visits != [] ==> LastEnd(t0, c.rounds) <= visits[|visits| - 1].end)
  {
    if visits != [] {
      var n := |visits| - 1;
      RoundsAreSpaced(interval, t0, visits[..n]);
      var c, v := Run(interval, t0, visits[..n]), visits[n];
      assert LastEnd(t0, c.rounds) <= v.start;
      Elapsed(LastEnd(t0, c.rounds), v.start);
      if Due(interval, c.lastTime, v.start) {
        SpacedSnoc(interval, t0, c.rounds, v);
      }
    }
  }

  lemma SpacedSnoc(interval: nat, t0: nat, rounds: seq<Visit>, v: Visit)
    requires Spaced(interval, t0, rounds) && v.start - LastEnd(t0, rounds) >= interval
    ensures Spaced(interval, t0, rounds + [v])
  {
    var all := rounds + [v];
    forall k | 0 <= k < |all| ensures all[k].start - LastEnd(t0, all[..k]) >= interval {
      assert all[..k] == rounds[..k];
      if k == |rounds| { assert rounds[..k] == rounds; }
    }
  }

  /** A further visit starts after all that went before. */
  lemma OrderedInit(t0: nat, visits: seq<Visit>, v: Visit)
    requires Ordered(t0, visits + [v])
    ensures Ordered(t0, visits) && t0 <= v.start
    ensures visits != [] ==> visits[|visits| - 1].end <= v.start
  {
    var all := visits + [v];
    assert forall i :: 0 <= i < |visits| ==> all[i] == visits[i];
    assert all[|visits|] == v;
  }

  /** A visit is a round iff the interval has passed, up to a wrap: exactly so if less than 2^32
      seconds went by since the last round. */
  lemma WorksWhenDue(interval: nat, t0: nat, visits: seq<Visit>, v: Visit)
    requires Ordered(t0, visits + [v])
    requires v.start - LastEnd(t0, Run(interval, t0, visits).rounds) < WRAP
    ensures var c := Run(interval, t0, visits);
            Due(interval, c.lastTime, v.start) <==> v.start - LastEnd(t0, c.rounds) >= interval
  {
    OrderedInit(t0, visits, v);
    RoundsAreSpaced(interval, t0, visits);
    Elapsed(LastEnd(t0, Run(interval, t0, visits).rounds), v.start);
  }
}
