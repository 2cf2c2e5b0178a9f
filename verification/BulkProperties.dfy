/** The bulk operations against their one-object counterparts: MpiSetDesired is a series of MpiSet
    calls, and MpiGetReported is what the calls in its trace answered. */
module BulkProperties {
  import opened Base
  import opened Registry
  import opened RegistryProperties

  // ---------- MpiSetDesired ----------

  /** One (component, object) pair of a desired document. */
  datatype Item = Item(component: string, object_: string, value: Json)

  function ItemsOf(component: string, objects: seq<(string, Json)>): seq<Item> {
    seq(|objects|, i requires 0 <= i < |objects| => Item(component, objects[i].0, objects[i].1))
  }

  /** All pairs of a document in document order. */
  function Items(components: seq<(string, Json)>): seq<Item> {
    if components == [] then []
    else
      var n := |components| - 1;
      Items(components[..n]) + ItemsIn(components[n].0, components[n].1)
  }

  /** The pairs of one component, none if its value is no object. */
  function ItemsIn(component: string, value: Json): seq<Item> {
    match value case Object(objects) => ItemsOf(component, objects) case _ => []
  }

  /** One MpiSet per pair that serialises, in order. */
  function SetEach(env: Env, s: State, handle: string, items: seq<Item>): State {
    if items == [] then s
    else
      var n := |items| - 1;
      var before := SetEach(env, s, handle, items[..n]);
      match env.codec.serialize(items[n].value)
      case None => before
      case Some(text) =>
        MpiSet(env, before, Some(handle), Some(items[n].component), Some(items[n].object_), Some(text), |text|).0
  }

  lemma {:induction false} SetEachConcat(env: Env, s: State, handle: string, a: seq<Item>, b: seq<Item>)
    ensures SetEach(env, s, handle, a + b) == SetEach(env, SetEach(env, s, handle, a), handle, b)
  {
    if b == [] {
      assert a + b == a;
    } else {
      SetEachConcat(env, s, handle, a, b[..|b| - 1]);
      assert (a + b)[..|a + b| - 1] == a + b[..|b| - 1];
    }
  }

  /** MpiSet adds to the trace and changes nothing else. */
  lemma {:induction false} SetEachKeepsRest(env: Env, s: State, handle: string, items: seq<Item>)
    ensures SetEach(env, s, handle, items) == s.(trace := SetEach(env, s, handle, items).trace)
  {
    if items != [] {
      SetEachKeepsRest(env, s, handle, items[..|items| - 1]);
    }
  }

  /** Pairs of a component that no module declares make no call. */
  lemma {:induction false} UnroutedItems(env: Env, s: State, handle: string, component: string, objects: seq<(string, Json)>)
    requires Resolve(s, Some(handle), component).None?
    ensures SetEach(env, s, handle, ItemsOf(component, objects)) == s
  {
    if objects != [] {
      var n := |objects| - 1;
      UnroutedItems(env, s, handle, component, objects[..n]);
      assert ItemsOf(component, objects)[..n] == ItemsOf(component, objects[..n]);
    }
  }

  lemma {:induction false} SetObjectsIsSetEach(env: Env, s: State, st: Int, handle: string, b: Bound, component: string, objects: seq<(string, Json)>)
    requires Resolve(s, Some(handle), component) == Some(b)
    ensures SetObjects(env, s.trace, st, b, component, objects).0 == SetEach(env, s, handle, ItemsOf(component, objects)).trace
  {
    if objects != [] {
      var n := |objects| - 1;
      SetObjectsIsSetEach(env, s, st, handle, b, component, objects[..n]);
      SetEachKeepsRest(env, s, handle, ItemsOf(component, objects[..n]));
      assert ItemsOf(component, objects)[..n] == ItemsOf(component, objects[..n]);
    }
  }

  lemma {:induction false} SetComponentsIsSetEach(env: Env, s: State, handle: string, components: seq<(string, Json)>)
    requires FindSession(s.sessions, handle) < |s.sessions|
    ensures SetComponents(env, s.trace, s.sessions[FindSession(s.sessions, handle)].handles, components).0
            == SetEach(env, s, handle, Items(components)).trace
  {
    if components != [] {
      var n := |components| - 1;
      var handles := s.sessions[FindSession(s.sessions, handle)].handles;
      SetComponentsIsSetEach(env, s, handle, components[..n]);
      var (name, objects) := (components[n].0, ObjectMembers(components[n].1));
      SetEachConcat(env, s, handle, Items(components[..n]), ItemsOf(name, objects));
      var s1 := SetEach(env, s, handle, Items(components[..n]));
      SetEachKeepsRest(env, s, handle, Items(components[..n]));
      var j := FindModuleSession(handles, name);
      if j == |handles| {
        UnroutedItems(env, s1, handle, name, objects);
      } else {
        var st := SetComponents(env, s.trace, handles, components[..n]).1;
        SetObjectsIsSetEach(env, s1, st, handle, handles[j], name, objects);
      }
    }
  }

  /** The call is accepted: a live session and a payload that parses. */
  predicate Accepted(env: Env, s: State, handle: Option<string>, payload: Option<string>, size: int) {
    && handle.Some? && payload.Some? && size > 0
    && (exists session :: session in s.sessions && session.uuid == handle.value)
    && env.codec.parse(payload.value).Some?
  }

  lemma AcceptedFound(s: State, handle: string)
    ensures FindSession(s.sessions, handle) < |s.sessions| <==> exists session :: session in s.sessions && session.uuid == handle
  {
    var i := FindSession(s.sessions, handle);
    if i < |s.sessions| { assert s.sessions[i] in s.sessions; }
  }

  /** The components of the document in an accepted call. */
  function Document(codec: Codec, payload: string): seq<(string, Json)> {
    match codec.parse(payload)
    case Some(Object(components)) => components
    case _ => []
  }

  /** For every payload, MpiSetDesired makes exactly the module calls that one MpiSet per pair in
      document order would make, and leaves the registry in the same state; a refused call makes
      none and says EINVAL. */
  lemma SetDesiredIsManySets(env: Env, s: State, handle: Option<string>, payload: Option<string>, size: int)
    ensures Accepted(env, s, handle, payload, size) ==>
              MpiSetDesired(env, s, handle, payload, size).0
              == SetEach(env, s, handle.value, Items(Document(env.codec, payload.value)))
    ensures !Accepted(env, s, handle, payload, size) ==> MpiSetDesired(env, s, handle, payload, size) == (s, 22)
  {
    if handle.Some? { AcceptedFound(s, handle.value); }
    if Accepted(env, s, handle, payload, size) {
      var components := Document(env.codec, payload.value);
      SetComponentsIsSetEach(env, s, handle.value, components);
      SetEachKeepsRest(env, s, handle.value, Items(components));
    }
  }

  /** The statuses modules returned in a stretch of trace. */
  function Statuses(t: seq<Event>): seq<Int> {
    if t == [] then []
    else Statuses(t[..|t| - 1]) + (if t[|t| - 1].SetCall? then [t[|t| - 1].status] else [])
  }

  /** The events of a desired document in order: one per module call, and one EINVAL for each
      component that has no module. Built from the run of single MpiSet calls. */
  function StatusEvents(env: Env, s: State, handle: string, components: seq<(string, Json)>): seq<Int> {
    if components == [] then []
    else
      var n := |components| - 1;
      var earlier := StatusEvents(env, s, handle, components[..n]);
      var before := SetEach(env, s, handle, Items(components[..n]));
      var after := SetEach(env, before, handle, ItemsIn(components[n].0, components[n].1));
      if Resolve(s, Some(handle), components[n].0).None? then earlier + [22]
      else earlier + (if |before.trace| <= |after.trace| then Statuses(after.trace[|before.trace|..]) else [])
  }

  function LastOr(s: seq<Int>, default_: Int): Int {
    if s == [] then default_ else s[|s| - 1]
  }

  lemma LastOrConcat(a: seq<Int>, b: seq<Int>, default_: Int)
    ensures LastOr(a + b, default_) == LastOr(b, LastOr(a, default_))
  {
    if b == [] {
      assert a + b == a;
    }
  }

  /** Within a component the carried status ends as the last one returned, if any call was made. */
  lemma {:induction false} SetObjectsStatus(env: Env, trace: seq<Event>, st: Int, b: Bound, component: string, objects: seq<(string, Json)>)
    ensures var (t, r) := SetObjects(env, trace, st, b, component, objects);
            && |trace| <= |t| && t[..|trace|] == trace
            && r == LastOr(Statuses(t[|trace|..]), st)
  {
    if objects == [] {
      assert trace[|trace|..] == [];
    } else {
      var n := |objects| - 1;
      SetObjectsStatus(env, trace, st, b, component, objects[..n]);
      var t0 := SetObjects(env, trace, st, b, component, objects[..n]).0;
      var t := SetObjects(env, trace, st, b, component, objects).0;
      if env.codec.serialize(objects[n].1).Some? {
        assert t[|trace|..][..|t| - |trace| - 1] == t0[|trace|..];
      }
    }
  }

  /** One component: its sets one by one return what carrying the status through them returns. */
  lemma ComponentStatus(env: Env, s: State, st: Int, handle: string, b: Bound, component: string, value: Json)
    requires Resolve(s, Some(handle), component) == Some(b)
    ensures var after := SetEach(env, s, handle, ItemsIn(component, value));
            && |s.trace| <= |after.trace|
            && SetObjects(env, s.trace, st, b, component, ObjectMembers(value)).1 == LastOr(Statuses(after.trace[|s.trace|..]), st)
  {
    SetObjectsStatus(env, s.trace, st, b, component, ObjectMembers(value));
    SetObjectsIsSetEach(env, s, st, handle, b, component, ObjectMembers(value));
    assert ItemsIn(component, value) == ItemsOf(component, ObjectMembers(value));
  }

  lemma {:induction false} SetComponentsStatus(env: Env, s: State, handle: string, components: seq<(string, Json)>)
    requires FindSession(s.sessions, handle) < |s.sessions|
    ensures SetComponents(env, s.trace, s.sessions[FindSession(s.sessions, handle)].handles, components).1
            == LastOr(StatusEvents(env, s, handle, components), MPI_OK)
  {
    if components != [] {
      var n := |components| - 1;
      var handles := s.sessions[FindSession(s.sessions, handle)].handles;
      SetComponentsStatus(env, s, handle, components[..n]);
      SetComponentsIsSetEach(env, s, handle, components[..n]);
      var j := FindModuleSession(handles, components[n].0);
      if j < |handles| {
        var st := SetComponents(env, s.trace, handles, components[..n]).1;
        var before := SetEach(env, s, handle, Items(components[..n]));
        SetEachKeepsRest(env, s, handle, Items(components[..n]));
        ComponentStatus(env, before, st, handle, handles[j], components[n].0, components[n].1);
        var after := SetEach(env, before, handle, ItemsIn(components[n].0, components[n].1));
        LastOrConcat(StatusEvents(env, s, handle, components[..n]), Statuses(after.trace[|before.trace|..]), MPI_OK);
      }
    }
  }

  /** The returned status is that of the last event of the document, MPI_OK if there was none. */
  lemma SetDesiredStatusIsLast(env: Env, s: State, handle: Option<string>, payload: Option<string>, size: int)
    requires Accepted(env, s, handle, payload, size)
    ensures MpiSetDesired(env, s, handle, payload, size).1
            == LastOr(StatusEvents(env, s, handle.value, Document(env.codec, payload.value)), 0)
  {
    AcceptedFound(s, handle.value);
    SetComponentsStatus(env, s, handle.value, Document(env.codec, payload.value));
  }

  // ---------- MpiGetReported ----------

  /** What the reported document holds at [component][object]. */
  function At(root: seq<(string, Json)>, component: string, object_: string): Option<Json> {
    match Member(root, component)
    case None => None
    case Some(v) => Member(ObjectMembers(v), object_)
  }

  /** What a get call produced, if it succeeded and its payload parses. */
  function Answer(env: Env, e: Event, component: string, object_: string): Option<Json> {
    if e.GetCall? && e.component == component && e.object_ == object_ && e.reply.status == MPI_OK && e.reply.payload.Some?
    then env.codec.parse(e.reply.payload.value) else None
  }

  /** The last value a stretch of trace produced for a component and object. */
  function LastAnswer(env: Env, t: seq<Event>, component: string, object_: string): Option<Json> {
    if t == [] then None
    else
      var a := Answer(env, t[|t| - 1], component, object_);
      if a.Some? then a else LastAnswer(env, t[..|t| - 1], component, object_)
  }

  /** The entries of the reported list that have a module, in list order. */
  function Routed(handles: seq<Bound>, entries: seq<(string, string)>): seq<(string, string)> {
    if entries == [] then []
    else
      var n := |entries| - 1;
      Routed(handles, entries[..n]) + (if FindModuleSession(handles, entries[n].0) < |handles| then [entries[n]] else [])
  }

  /** The trace of a report: for each routed entry a get and, right after it, the release of the
      payload that get returned, both through the module that serves the component. */
  ghost predicate GetsAndFrees(handles: seq<Bound>, entries: seq<(string, string)>, block: seq<Event>) {
    && |block| == 2 * |entries|
    && forall k :: 0 <= k < |entries| ==> GetAndFree(handles, entries[k], block[2 * k], block[2 * k + 1])
  }

  ghost predicate GetAndFree(handles: seq<Bound>, entry: (string, string), get: Event, free: Event) {
    && FindModuleSession(handles, entry.0) < |handles|
    && get.GetCall? && get.b == handles[FindModuleSession(handles, entry.0)]
    && get.component == entry.0 && get.object_ == entry.1
    && free == Freed(get.b.module_, get.reply.payload)
  }

  /** Components hold at least one object each, and no key occurs twice. */
  ghost predicate Tidy(root: seq<(string, Json)>) {
    && UniqueKeys(root)
    && forall i :: 0 <= i < |root| ==> root[i].1.Object? && root[i].1.members != [] && UniqueKeys(root[i].1.members)
  }

  lemma GetsAndFreesSnoc(handles: seq<Bound>, entries: seq<(string, string)>, block: seq<Event>, entry: (string, string), added: seq<Event>)
    requires GetsAndFrees(handles, entries, block) && |added| == 2 && GetAndFree(handles, entry, added[0], added[1])
    ensures GetsAndFrees(handles, entries + [entry], block + added)
  {
  }

  /** One entry adds its get and its release, or nothing if it has no module. */
  lemma FetchOneTrace(env: Env, trace: seq<Event>, handles: seq<Bound>, entry: (string, string)) returns (added: seq<Event>)
    ensures FetchOne(env, trace, handles, entry).0 == trace + added
    ensures if FindModuleSession(handles, entry.0) < |handles| then |added| == 2 && GetAndFree(handles, entry, added[0], added[1]) else added == []
  {
    var t := FetchOne(env, trace, handles, entry).0;
    added := t[|trace|..];
  }

  lemma {:induction false} ReportTrace(env: Env, trace: seq<Event>, handles: seq<Bound>, entries: seq<(string, string)>) returns (block: seq<Event>)
    ensures Report(env, trace, handles, entries).0 == trace + block
    ensures GetsAndFrees(handles, Routed(handles, entries), block)
  {
    if entries == [] {
      block := [];
    } else {
      var n := |entries| - 1;
      var inner := ReportTrace(env, trace, handles, entries[..n]);
      var added := FetchOneTrace(env, trace + inner, handles, entries[n]);
      block := inner + added;
      assert (trace + inner) + added == trace + block;
      if added == [] {
        assert block == inner && Routed(handles, entries) == Routed(handles, entries[..n]);
      } else {
        GetsAndFreesSnoc(handles, Routed(handles, entries[..n]), inner, entries[n], added);
      }
    }
  }

  lemma LastAnswerSnoc(env: Env, t: seq<Event>, e: Event, component: string, object_: string)
    ensures LastAnswer(env, t + [e], component, object_)
            == if Answer(env, e, component, object_).Some? then Answer(env, e, component, object_) else LastAnswer(env, t, component, object_)
  {
    assert (t + [e])[..|t|] == t;
  }

  lemma PutReportedPuts(root: seq<(string, Json)>, entry: (string, string), value: Json, component: string, object_: string)
    requires Tidy(root)
    ensures Tidy(PutReported(root, entry, value))
    ensures At(PutReported(root, entry, value), component, object_)
            == if (component, object_) == entry then Some(value) else At(root, component, object_)
  {
    var fields := match Member(root, entry.0) case None => [] case Some(v) => ObjectMembers(v);
    SetMemberSets(fields, entry.1, value, object_);
    SetMemberSets(root, entry.0, Object(SetMember(fields, entry.1, value)), component);
    assert UniqueKeys(fields);
  }

  /** The document of a report against the trace of that report alone. */
  lemma {:induction false} ReportIsLastAnswers(env: Env, trace: seq<Event>, handles: seq<Bound>, entries: seq<(string, string)>,
                                               component: string, object_: string) returns (block: seq<Event>)
    ensures Report(env, trace, handles, entries).0 == trace + block
    ensures Tidy(Report(env, trace, handles, entries).1)
    ensures At(Report(env, trace, handles, entries).1, component, object_) == LastAnswer(env, block, component, object_)
  {
    if entries == [] {
      block := [];
    } else {
      var n := |entries| - 1;
      var inner := ReportIsLastAnswers(env, trace, handles, entries[..n], component, object_);
      var root := Report(env, trace, handles, entries[..n]).1;
      var j := FindModuleSession(handles, entries[n].0);
      if j == |handles| {
        block := inner;
      } else {
        var reply := env.get(trace + inner, handles[j], entries[n].0, entries[n].1);
        var call, free := GetCall(handles[j], entries[n].0, entries[n].1, reply), Freed(handles[j].module_, reply.payload);
        block := inner + [call] + [free];
        LastAnswerSnoc(env, inner, call, component, object_);
        LastAnswerSnoc(env, inner + [call], free, component, object_);
        var value := FetchOne(env, trace + inner, handles, entries[n]).1;
        assert Report(env, trace, handles, entries).0 == trace + block;
        if value.Some? { PutReportedPuts(root, entries[n], value.value, component, object_); }
      }
    }
  }

  /** Without a handle, or a session for it, nothing is called and the status is EINVAL. */
  lemma GetReportedRefused(env: Env, s: State, handle: Option<string>)
    requires handle.None? || forall session :: session in s.sessions ==> session.uuid != handle.value
    ensures MpiGetReported(env, s, handle) == (s, GetReply(22, None))
  {
    if handle.Some? { AcceptedFound(s, handle.value); }
  }

  /** For every reported list, duplicates included, MpiGetReported fetches the routed entries in
      order, frees each payload once through its module, and serialises a document that holds at
      every [component][object] the last value obtained for it and no other key. */
  lemma GetReportedIsExact(env: Env, s: State, u: string) returns (block: seq<Event>, root: seq<(string, Json)>)
    requires FindSession(s.sessions, u) < |s.sessions|
    ensures MpiGetReported(env, s, Some(u)) == (s.(trace := s.trace + block), GetReply(MPI_OK, Some(env.codec.pretty(Object(root)))))
    ensures var handles := s.sessions[FindSession(s.sessions, u)].handles;
            GetsAndFrees(handles, Routed(handles, s.reported), block)
    ensures forall i :: |s.trace| <= i < |s.trace| + |block| ==> Answered(env, s.trace + block, i)
    ensures Tidy(root)
    ensures forall c, o :: At(root, c, o) == LastAnswer(env, block, c, o)
  {
    var handles := s.sessions[FindSession(s.sessions, u)].handles;
    ReportExtends(env, s.trace, handles, s.reported);
    block := ReportTrace(env, s.trace, handles, s.reported);
    root := Report(env, s.trace, handles, s.reported).1;
    var any := ReportIsLastAnswers(env, s.trace, handles, s.reported, "", "");
    forall c, o ensures At(root, c, o) == LastAnswer(env, block, c, o) {
      var same := ReportIsLastAnswers(env, s.trace, handles, s.reported, c, o);
      assert same == (s.trace + same)[|s.trace|..] && block == (s.trace + block)[|s.trace|..];
    }
  }
}
