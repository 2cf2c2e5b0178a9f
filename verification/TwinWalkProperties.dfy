/** What a twin document leads to: its properties in document order, each applied with at most one
    retry and acknowledged once. */
module TwinWalkProperties {
  import opened Base
  import opened AgentSession
  import opened TwinWalk
  import opened HttpFraming

  // ---------- The walk visits the pairs of the document ----------

  datatype Pair = Pair(component: string, property: string, value: Json)

  function PairsOf(component: string, properties: seq<(string, Json)>): seq<Pair> {
    if properties == [] then []
    else
      var n := |properties| - 1;
      PairsOf(component, properties[..n])
      + (if properties[n].0 == "__t" then [] else [Pair(component, properties[n].0, properties[n].1)])
  }

  /** All component/property pairs in document order, without the version and the markers. */
  function Pairs(components: seq<(string, Json)>): seq<Pair> {
    if components == [] then []
    else
      var n := |components| - 1;
      Pairs(components[..n])
      + (if components[n].0 == "$version" || !components[n].1.Object? then [] else PairsOf(components[n].0, components[n].1.members))
  }

  /** What one update does to the agent, and its result. */
  type PairUpdate = (Agent, Pair) -> (Agent, int)

  function UpdateOf(env: Env, version: Int): PairUpdate {
    (a: Agent, p: Pair) => UpdateProperty(env, a, p.component, p.property, p.value, version)
  }

  /** One update per pair, in order; the result is that of the last. */
  function UpdateEach(update: PairUpdate, a: Agent, result: int, pairs: seq<Pair>): (Agent, int) {
    if pairs == [] then (a, result)
    else
      var n := |pairs| - 1;
      update(UpdateEach(update, a, result, pairs[..n]).0, pairs[n])
  }

  lemma {:induction false} UpdateEachConcat(update: PairUpdate, a: Agent, result: int, p: seq<Pair>, q: seq<Pair>)
    ensures UpdateEach(update, a, result, p + q)
            == var (a', result') := UpdateEach(update, a, result, p); UpdateEach(update, a', result', q)
  {
    if q == [] {
      assert p + q == p;
    } else {
      UpdateEachConcat(update, a, result, p, q[..|q| - 1]);
      assert (p + q)[..|p + q| - 1] == p + q[..|q| - 1];
    }
  }

  lemma {:induction false} WalkPropertiesIsUpdateEach(env: Env, a: Agent, result: int, component: string, properties: seq<(string, Json)>, version: Int)
    ensures WalkProperties(env, a, result, component, properties, version) == UpdateEach(UpdateOf(env, version), a, result, PairsOf(component, properties))
  {
    if properties != [] {
      var n := |properties| - 1;
      WalkPropertiesIsUpdateEach(env, a, result, component, properties[..n], version);
      var earlier := PairsOf(component, properties[..n]);
      if properties[n].0 == COMPONENT_MARKER {
        assert earlier + [] == earlier;
      } else {
        var all := PairsOf(component, properties);
        assert all[..|all| - 1] == earlier;
      }
    }
  }

  /** For every document the walk applies exactly its pairs, in document order. */
  lemma {:induction false} WalkIsUpdateEach(env: Env, a: Agent, components: seq<(string, Json)>, version: Int)
    ensures WalkComponents(env, a, components, version) == UpdateEach(UpdateOf(env, version), a, IOTHUB_CLIENT_OK, Pairs(components))
  {
    if components != [] {
      var n := |components| - 1;
      WalkIsUpdateEach(env, a, components[..n], version);
      var (name, child) := components[n];
      var earlier := Pairs(components[..n]);
      if name == DESIRED_VERSION || !child.Object? {
        assert earlier + [] == earlier;
      } else {
        var (a', result) := UpdateEach(UpdateOf(env, version), a, IOTHUB_CLIENT_OK, earlier);
        WalkPropertiesIsUpdateEach(env, a', result, name, child.members, version);
        UpdateEachConcat(UpdateOf(env, version), a, IOTHUB_CLIENT_OK, earlier, PairsOf(name, child.members));
      }
    }
  }

  // ---------- What one property leads to ----------

  function SetStatus(e: Event): Option<int> {
    if e.SetCall? then Some(e.status) else None
  }

  /** One or two sets of a property's text, the second one exactly when a session was opened, and no
      acknowledgement. */
  ghost predicate Attempts(p: Pair, text: string, block: seq<Event>) {
    && Tried(SetStatus, block)
    && (forall i :: 0 <= i < |block| && block[i].SetCall? ==>
          block[i].component == p.component && block[i].property == p.property && block[i].payload == text)
    && (forall i :: 0 <= i < |block| ==> !block[i].AckSent?)
  }

  /** The trace of one property: its attempts, then one acknowledgement whose text is the whole
      template with the version of the document and 200 iff the last attempt succeeded. There is none
      only if the template is too long for an int to count. */
  ghost predicate Applied(p: Pair, text: string, version: Int, block: seq<Event>) {
    exists attempts :: Attempts(p, text, attempts) && Acknowledged(attempts, AckOf(p, text, version, LastStatus(SetStatus, attempts)), block)
  }

  ghost predicate Acknowledged(attempts: seq<Event>, ack: Ack, block: seq<Event>) {
    if AckEstimate(ack) > INT_MAX then block == attempts
    else exists result :: block == attempts + [AckSent(AckText(ack), result)]
  }

  function AckOf(p: Pair, text: string, version: Int, status: int): Ack {
    Ack(p.component, p.property, text, if status == 0 then 200 else 400, version)
  }

  function SetOf(p: Pair, text: string, status: int): Event {
    SetCall(p.component, p.property, text, status)
  }

  /** The calls after a first attempt that failed. */
  lemma FailedBlock(env: Env, a: Agent, p: Pair, text: string, st: int) returns (block: seq<Event>)
    requires st != MPI_OK && st == env.mpiSet(a.trace, p.component, p.property, text)
    ensures var (a', st') := SetWithRetry(env, a, p.component, p.property, text);
            a'.trace == a.trace + block && Attempts(p, text, block) && st' == LastStatus(SetStatus, block)
  {
    var first := SetOf(p, text, st);
    var a1 := a.(trace := a.trace + [first]);
    var refresh := RefreshOpens(env, a1);
    var r := RefreshMpiClientSession(env, a1);
    assert a1.trace + refresh == a.trace + ([first] + refresh);
    if r.ok && !r.alreadyRunning {
      var st' := env.mpiSet(r.agent.trace, p.component, p.property, text);
      TriedTwice(SetStatus, first, refresh, SetOf(p, text, st'));
      block := [first] + refresh + [SetOf(p, text, st')];
    } else {
      TriedOnce(SetStatus, first, refresh);
      block := [first] + refresh;
    }
  }

  /** The calls of the attempts. */
  lemma RetryBlock(env: Env, a: Agent, p: Pair, text: string) returns (block: seq<Event>)
    ensures var (a', st) := SetWithRetry(env, a, p.component, p.property, text);
            a'.trace == a.trace + block && Attempts(p, text, block) && st == LastStatus(SetStatus, block)
  {
    var st := env.mpiSet(a.trace, p.component, p.property, text);
    if st == MPI_OK {
      TriedOnce(SetStatus, SetOf(p, text, st), []);
      block := [SetOf(p, text, st)] + [];
    } else {
      block := FailedBlock(env, a, p, text, st);
    }
  }

  /** After the attempts the text of the whole template is sent. */
  lemma AckBlock(env: Env, a: Agent, attempts: seq<Event>, ack: Ack) returns (block: seq<Event>)
    requires ack.code == PNP_STATUS_SUCCESS || ack.code == PNP_STATUS_BAD_DATA
    ensures |attempts| <= |block| && block[..|attempts|] == attempts && Acknowledged(attempts, ack, block)
    ensures AckProperty(env, a, ack).0.trace == a.trace + block[|attempts|..]
  {
    AckNeverTruncated(ack);
    block := attempts;
    if AckEstimate(ack) <= INT_MAX {
      block := attempts + [AckSent(AckText(ack), env.sendAck(a.trace, AckText(ack)))];
    }
  }

  /** A property that serialises is applied and acknowledged; one that does not leads to no call. */
  lemma PropertyBlock(env: Env, a: Agent, p: Pair, version: Int) returns (block: seq<Event>)
    ensures UpdateProperty(env, a, p.component, p.property, p.value, version).0.trace == a.trace + block
    ensures BlockFor(env.codec, p, version, block)
  {
    match env.codec.serialize(p.value) {
      case None => block := [];
      case Some(text) =>
        var attempts := RetryBlock(env, a, p, text);
        var ack := AckOf(p, text, version, LastStatus(SetStatus, attempts));
        var a' := SetWithRetry(env, a, p.component, p.property, text).0;
        block := AckBlock(env, a', attempts, ack);
        assert a'.trace + block[|attempts|..] == a.trace + block;
    }
  }

  /** The calls of one pair of the document. */
  ghost predicate BlockFor(codec: Codec, p: Pair, version: Int, block: seq<Event>) {
    match codec.serialize(p.value)
    case None => block == []
    case Some(text) => Applied(p, text, version, block)
  }

  // ---------- The whole document ----------

  function Flatten(blocks: seq<seq<Event>>): seq<Event> {
    if blocks == [] then [] else Flatten(blocks[..|blocks| - 1]) + blocks[|blocks| - 1]
  }

  /** The test that a stretch of trace is the block of a pair. */
  type PairTest = (Pair, seq<Event>) -> bool

  ghost function BlockTest(codec: Codec, version: Int): PairTest {
    (p: Pair, block: seq<Event>) => BlockFor(codec, p, version, block)
  }

  /** One block of calls for each pair, in order. */
  ghost predicate AppliedInOrder(test: PairTest, pairs: seq<Pair>, blocks: seq<seq<Event>>) {
    |blocks| == |pairs| && forall i :: 0 <= i < |pairs| ==> test(pairs[i], blocks[i])
  }

  lemma AppliedSnoc(test: PairTest, pairs: seq<Pair>, blocks: seq<seq<Event>>, p: Pair, block: seq<Event>)
    requires AppliedInOrder(test, pairs, blocks) && test(p, block)
    ensures AppliedInOrder(test, pairs + [p], blocks + [block])
    ensures Flatten(blocks + [block]) == Flatten(blocks) + block
  {
    assert (blocks + [block])[..|blocks|] == blocks;
  }

  /** Every update adds the calls of its pair to the trace. */
  ghost predicate AddsBlocks(update: PairUpdate, test: PairTest) {
    forall a, p :: AddsBlock(a, update(a, p).0, test, p)
  }

  ghost predicate AddsBlock(a: Agent, a': Agent, test: PairTest, p: Pair) {
    exists block :: a'.trace == a.trace + block && test(p, block)
  }

  lemma UpdateAddsBlocks(env: Env, version: Int)
    ensures AddsBlocks(UpdateOf(env, version), BlockTest(env.codec, version))
  {
    forall a, p ensures AddsBlock(a, UpdateOf(env, version)(a, p).0, BlockTest(env.codec, version), p) {
      var block := PropertyBlock(env, a, p, version);
      assert BlockTest(env.codec, version)(p, block);
    }
  }

  lemma {:induction false} UpdateEachBlocks(update: PairUpdate, test: PairTest, a: Agent, result: int, pairs: seq<Pair>) returns (blocks: seq<seq<Event>>)
    requires AddsBlocks(update, test)
    ensures UpdateEach(update, a, result, pairs).0.trace == a.trace + Flatten(blocks)
    ensures AppliedInOrder(test, pairs, blocks)
  {
    if pairs == [] {
      blocks := [];
    } else {
      var n := |pairs| - 1;
      var inner := UpdateEachBlocks(update, test, a, result, pairs[..n]);
      var a' := UpdateEach(update, a, result, pairs[..n]).0;
      assert AddsBlock(a', update(a', pairs[n]).0, test, pairs[n]);
      var block :| update(a', pairs[n]).0.trace == a'.trace + block && test(pairs[n], block);
      blocks := inner + [block];
      AppliedSnoc(test, pairs[..n], inner, pairs[n], block);
      assert pairs == pairs[..n] + [pairs[n]];
      assert (a.trace + Flatten(inner)) + block == a.trace + Flatten(blocks);
    }
  }

  // ---------- Every call is answered ----------

  ghost predicate UpdateContinues(env: Env, update: PairUpdate) {
    forall a: Agent, p: Pair :: Continues(env, a.trace, update(a, p).0.trace)
  }

  lemma SetContinues(env: Env, a: Agent, component: string, property: string, value: string)
    ensures Continues(env, a.trace, SetWithRetry(env, a, component, property, value).0.trace)
  {
    var st := env.mpiSet(a.trace, component, property, value);
    var first := SetCall(component, property, value, st);
    var a1 := a.(trace := a.trace + [first]);
    ContinuesSnoc(env, a.trace, a.trace, first);
    if st != MPI_OK {
      var r := RefreshMpiClientSession(env, a1);
      RefreshContinues(env, a1);
      ContinuesTransitive(env, a.trace, a1.trace, r.agent.trace);
      ContinuesSnoc(env, a.trace, r.agent.trace, SetCall(component, property, value, env.mpiSet(r.agent.trace, component, property, value)));
    }
  }

  lemma AckContinues(env: Env, a: Agent, ack: Ack)
    ensures Continues(env, a.trace, AckProperty(env, a, ack).0.trace)
  {
    match AckPayload(ack)
    case None =>
    case Some(text) => ContinuesSnoc(env, a.trace, a.trace, AckSent(text, env.sendAck(a.trace, text)));
  }

  lemma PropertyContinues(env: Env, version: Int)
    ensures UpdateContinues(env, UpdateOf(env, version))
  {
    forall a: Agent, p: Pair ensures Continues(env, a.trace, UpdateOf(env, version)(a, p).0.trace) {
      match env.codec.serialize(p.value)
      case None =>
      case Some(text) =>
        var (a', st) := SetWithRetry(env, a, p.component, p.property, text);
        var ack := Ack(p.component, p.property, text, if st == MPI_OK then PNP_STATUS_SUCCESS else PNP_STATUS_BAD_DATA, version);
        SetContinues(env, a, p.component, p.property, text);
        AckContinues(env, a', ack);
        ContinuesTransitive(env, a.trace, a'.trace, AckProperty(env, a', ack).0.trace);
    }
  }

  lemma {:induction false} EachContinues(env: Env, update: PairUpdate, a: Agent, result: int, pairs: seq<Pair>)
    requires UpdateContinues(env, update)
    ensures Continues(env, a.trace, UpdateEach(update, a, result, pairs).0.trace)
  {
    if pairs != [] {
      var n := |pairs| - 1;
      EachContinues(env, update, a, result, pairs[..n]);
      var a' := UpdateEach(update, a, result, pairs[..n]).0;
      ContinuesTransitive(env, a.trace, a'.trace, update(a', pairs[n]).0.trace);
    }
  }

  // ---------- The document ----------

  /** The version that a desired object names: the number at "$version", 0 if there is none. */
  function Version(codec: Codec, desired: seq<(string, Json)>): Int {
    match Member(desired, "$version") case Some(Number(x)) => ToInt(codec, x) case _ => 0
  }

  /** The trace of a desired object: for its pairs in document order one block each, acknowledged with
      its version, in which every call is answered. */
  ghost predicate ObjectApplied(env: Env, a: Agent, complete: bool, payload: string, desired: seq<(string, Json)>, blocks: seq<seq<Event>>) {
    && AppliedInOrder(BlockTest(env.codec, Version(env.codec, desired)), Pairs(desired), blocks)
    && ProcessJson(env, a, complete, payload).0.trace == a.trace + Flatten(blocks)
    && Continues(env, a.trace, ProcessJson(env, a, complete, payload).0.trace)
  }

  lemma WalkApplies(env: Env, a: Agent, desired: seq<(string, Json)>) returns (blocks: seq<seq<Event>>)
    ensures var version := Version(env.codec, desired);
            var t := WalkComponents(env, a, desired, version).0.trace;
            && AppliedInOrder(BlockTest(env.codec, version), Pairs(desired), blocks)
            && t == a.trace + Flatten(blocks) && Continues(env, a.trace, t)
  {
    var version := Version(env.codec, desired);
    WalkIsUpdateEach(env, a, desired, version);
    UpdateAddsBlocks(env, version);
    blocks := UpdateEachBlocks(UpdateOf(env, version), BlockTest(env.codec, version), a, IOTHUB_CLIENT_OK, Pairs(desired));
    PropertyContinues(env, version);
    EachContinues(env, UpdateOf(env, version), a, IOTHUB_CLIENT_OK, Pairs(desired));
  }

  /** A full twin is applied from its "desired" object. */
  lemma FullTwinIsApplied(env: Env, a: Agent, payload: string, root: seq<(string, Json)>, desired: seq<(string, Json)>)
    returns (blocks: seq<seq<Event>>)
    requires payload != "" && env.codec.parse(payload) == Some(Object(root)) && Member(root, "desired") == Some(Object(desired))
    ensures ObjectApplied(env, a, true, payload, desired, blocks)
  {
    blocks := WalkApplies(env, a, desired);
  }

  /** A partial twin is applied from its root. */
  lemma PartialTwinIsApplied(env: Env, a: Agent, payload: string, root: seq<(string, Json)>) returns (blocks: seq<seq<Event>>)
    requires payload != "" && env.codec.parse(payload) == Some(Object(root))
    ensures ObjectApplied(env, a, false, payload, root, blocks)
  {
    blocks := WalkApplies(env, a, root);
  }

  /** For every twin document, full or partial, the calls made are those of its pairs in document
      order, each acknowledged with the whole template and the version of that object. A payload that
      is empty or no object, or a full twin without a desired object, is an error and leads to no call. */
  lemma DocumentIsApplied(env: Env, a: Agent, complete: bool, payload: string) returns (blocks: seq<seq<Event>>)
    ensures match env.codec.parse(payload)
            case Some(Object(root)) =>
              if payload == "" then ProcessJson(env, a, complete, payload) == (a, 1)
              else if !complete then ObjectApplied(env, a, complete, payload, root, blocks)
              else
                (match Member(root, "desired")
                 case Some(Object(desired)) => ObjectApplied(env, a, complete, payload, desired, blocks)
                 case _ => ProcessJson(env, a, complete, payload) == (a, 1))
            case _ => ProcessJson(env, a, complete, payload) == (a, 1)
  {
    blocks := [];
    match env.codec.parse(payload) {
      case Some(Object(root)) =>
        if payload != "" {
          if !complete {
            blocks := PartialTwinIsApplied(env, a, payload, root);
          } else {
            match Member(root, "desired") {
              case Some(Object(desired)) => blocks := FullTwinIsApplied(env, a, payload, root, desired);
              case _ =>
            }
          }
        }
      case _ =>
    }
  }

  lemma SampleNumbers()
    ensures SignedDecimal(200) == "200" && SignedDecimal(-7) == "-7"
  {
    assert Decimal(2) == "2" && Decimal(20) == Decimal(2) + "0" && Decimal(200) == Decimal(20) + "0";
    assert Decimal(7) == "7";
  }

  lemma SampleHead()
    ensures "{\"" + "c" + "\":{\"__t\":\"c\",\"" + "p" == "{\"c\":{\"__t\":\"c\",\"p"
  {
  }

  lemma SampleMiddle()
    ensures "\":{\"value\":" + "1" + ",\"ac\":" + "200" == "\":{\"value\":1,\"ac\":200"
  {
  }

  lemma SampleTail()
    ensures ",\"ad\":\"-\",\"av\":" + "-7" + "}}}" == ",\"ad\":\"-\",\"av\":-7}}}"
  {
  }

  /** One acknowledgement, character by character. */
  lemma AckSample()
    ensures AckText(Ack("c", "p", "1", 200, -7))
            == "{\"c\":{\"__t\":\"c\",\"p" + "\":{\"value\":1,\"ac\":200" + ",\"ad\":\"-\",\"av\":-7}}}"
  {
    SampleNumbers();
    SampleHead();
    SampleMiddle();
    SampleTail();
  }

  /** The acknowledgement is sent iff its estimate fits an int, and then it is never cut, whatever the
      version. */
  lemma AckNeverTruncated(a: Ack)
    requires a.code == PNP_STATUS_SUCCESS || a.code == PNP_STATUS_BAD_DATA
    ensures AckPayload(a) == if AckEstimate(a) <= INT_MAX then Some(AckText(a)) else None
  {
    var version: int := a.version;
    ThreeDigits(a.code);
    IntLength(if version < 0 then -version else version);
    assert |"{\""| == 2 && |"\":{\"__t\":\"c\",\""| == 14 && |"\":{\"value\":"| == 11;
    assert |",\"ac\":"| == 6 && |",\"ad\":\"-\",\"av\":"| == 15 && |"}}}"| == 3;
  }
}
