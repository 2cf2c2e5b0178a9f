/** The module and session registry as the platform keeps it: a linked list of sessions that is
    walked, grown at the head and unlinked in place. Every method is proved against Registry. */
module ModulesManager {
  import opened Base
  import R = Registry

  /** A session in the list. Its module handles are kept head first; the source links them once,
      before the session is in the list, and takes them off only when the session goes away. */
  class SessionNode {
    const uuid: string
    const client: string
    const handles: seq<R.Bound>
    var next: SessionNode?

    constructor (uuid: string, client: string, handles: seq<R.Bound>, next: SessionNode?)
      ensures View() == R.Session(uuid, client, handles) && this.next == next
    {
      this.uuid, this.client, this.handles, this.next := uuid, client, handles, next;
    }

    ghost function View(): R.Session
    {
      R.Session(uuid, client, handles)
    }
  }

  class Platform {
    const env: R.Env
    var sessions: SessionNode?
    var modules: seq<R.Module>
    var reported: seq<(string, string)>
    var trace: seq<R.Event>
    ghost var spine: seq<SessionNode>  // the nodes of the list, head first
    ghost var list: seq<R.Session>  // what they hold

    constructor (env: R.Env)
      ensures this.env == env && Valid() && View() == R.Empty && spine == []
    {
      this.env := env;
      sessions, modules, reported, trace, spine, list := null, [], [], [], [], [];
    }

    /** The list starting at `sessions` visits the nodes of `spine`, each once, and ends. */
    ghost predicate Valid()
      reads this`sessions, this`spine, this`list, spine
    {
      && (forall i, j :: 0 <= i < j < |spine| ==> spine[i] != spine[j])
      && sessions == NodeAt(0)
      && (forall i {:trigger spine[i].next} :: 0 <= i < |spine| ==> spine[i].next == NodeAt(i + 1))
      && |list| == |spine|
      && (forall i :: 0 <= i < |spine| ==> list[i] == spine[i].View())
    }

    ghost function NodeAt(i: nat): SessionNode?
      reads this`spine
    {
      if i < |spine| then spine[i] else null
    }

    ghost function View(): (r: R.State)
      reads this
    {
      R.State(modules, list, reported, trace)
    }

    method AreModulesLoadedAndLoadIfNot(found: seq<R.Module>, config: Option<R.Config>)
      requires Valid()
      modifies this`modules, this`reported
      ensures Valid() && View() == R.Load(old(View()), found, config)
    {
      if modules == [] && config.Some? {
        if config.value.modelVersion != 0 {
          for k := 0 to |found|
            invariant modules == R.Reverse(found[..k])
            invariant Valid() && reported == old(reported)
          {
            modules := [found[k]] + modules;
            assert found[..k + 1][..k] == found[..k];
          }
          assert found[..|found|] == found;
        }
        if config.value.reported != [] {
          reported := config.value.reported;
        }
      }
    }

    method MpiOpen(client: Option<string>, size: int, uuid: string) returns (handle: Option<string>)
      requires Valid()
      modifies this
      ensures Valid() && (View(), handle) == R.MpiOpen(env, old(View()), client, size, uuid)
      ensures forall n :: n in spine ==> n in old(spine) || fresh(n)
    {
      if client.None? || modules == [] {
        return None;
      }
      var handles := OpenHandles(client.value, size);
      Link(uuid, client.value, handles);
      return Some(uuid);
    }

    /** Opens every module, in list order, linking each new handle at the head. */
    method OpenHandles(client: string, size: int) returns (handles: seq<R.Bound>)
      modifies this`trace
      ensures (trace, handles) == R.OpenHandles(env, old(trace), modules, client, size)
    {
      handles := [];
      for k := 0 to |modules|
        invariant (trace, handles) == R.OpenHandles(env, old(trace), modules[..k], client, size)
      {
        var b := R.Bound(modules[k], env.open(trace, modules[k], client, size));
        trace := trace + [R.Opened(b)];
        handles := [b] + handles;
        assert modules[..k + 1][..k] == modules[..k];
      }
      assert modules[..|modules|] == modules;
    }

    /** Links a new session at the head of the list. */
    method Link(uuid: string, client: string, handles: seq<R.Bound>)
      requires Valid()
      modifies this`sessions, this`spine, this`list
      ensures Valid() && list == [R.Session(uuid, client, handles)] + old(list)
      ensures forall n :: n in spine ==> n in old(spine) || fresh(n)
    {
      var session := new SessionNode(uuid, client, handles, sessions);
      sessions := session;
      spine, list := [session] + spine, [session.View()] + list;
    }

    method FindSession(uuid: string) returns (session: SessionNode?, ghost i: nat)
      requires Valid()
      ensures i == R.FindSession(list, uuid) && session == NodeAt(i)
      ensures session != null ==> i < |list| && session.View() == list[i]
    {
      session := sessions;
      i := 0;
      while session != null
        invariant i <= |spine| && session == NodeAt(i)
        invariant forall j :: 0 <= j < i ==> list[j].uuid != uuid
        decreases |spine| - i
      {
        if session.uuid == uuid {
          break;
        }
        session := session.next;
        i := i + 1;
      }
    }

    method MpiClose(handle: Option<string>)
      requires Valid()
      modifies this, spine
      ensures Valid() && View() == R.MpiClose(old(View()), handle)
      ensures forall n :: n in spine ==> n in old(spine)
    {
      if handle.None? {
        return;
      }
      var session, i := FindSession(handle.value);
      if session == null {
        return;
      }
      CloseHandles(session.handles);
      Unlink(session, i);
    }

    /** Takes the handles of one session off from the head, closing each through its module. */
    method CloseHandles(handles: seq<R.Bound>)
      modifies this`trace
      ensures trace == old(trace) + R.CloseEvents(handles)
    {
      var rest := handles;
      ghost var k := 0;
      while rest != []
        invariant k <= |handles| && rest == handles[k..]
        invariant trace == old(trace) + R.CloseEvents(handles[..k])
        decreases |rest|
      {
        trace := trace + [R.Closed(rest[0])];
        assert R.CloseEvents(handles[..k + 1]) == R.CloseEvents(handles[..k]) + [R.Closed(rest[0])];
        rest := rest[1..];
        k := k + 1;
      }
      assert handles[..|handles|] == handles;
    }

    /** Takes one session out of the list, at the head or behind its predecessor. */
    method Unlink(session: SessionNode, ghost i: nat)
      requires Valid() && i < |spine| && session == spine[i]
      modifies this`sessions, this`spine, this`list, spine`next
      ensures Valid() && spine == old(spine)[..i] + old(spine)[i + 1..]
      ensures list == old(list)[..i] + old(list)[i + 1..]
    {
      if session == sessions {
        sessions := session.next;
        spine, list := spine[1..], list[1..];
      } else {
        var prev := FindPrevious(session, i);
        Bypass(prev, session, i);
      }
    }

    method FindPrevious(session: SessionNode, ghost i: nat) returns (prev: SessionNode)
      requires Valid() && 0 < i < |spine| && session == spine[i]
      ensures prev == spine[i - 1]
    {
      prev := sessions;
      ghost var k := 0;
      while prev.next != session
        invariant k < i && prev == spine[k]
        decreases i - k
      {
        prev := prev.next;
        k := k + 1;
      }
    }

    method Bypass(prev: SessionNode, session: SessionNode, ghost i: nat)
      requires Valid() && 0 < i < |spine| && session == spine[i] && prev == spine[i - 1]
      modifies this`spine, this`list, prev`next
      ensures Valid() && spine == old(spine)[..i] + old(spine)[i + 1..]
      ensures list == old(list)[..i] + old(list)[i + 1..]
    {
      prev.next := session.next;
      spine, list := spine[..i] + spine[i + 1..], list[..i] + list[i + 1..];
      forall k | 0 <= k < |spine| ensures spine[k].next == NodeAt(k + 1) && list[k] == spine[k].View() {
        if k < i {
          assert spine[k] == old(spine)[k];
        } else {
          assert spine[k] == old(spine)[k + 1];
        }
      }
    }

    method FindModuleSession(handles: seq<R.Bound>, component: string) returns (j: nat)
      ensures j == R.FindModuleSession(handles, component)
    {
      j := 0;
      while j < |handles|
        invariant j <= |handles|
        invariant forall k :: 0 <= k < j ==> !R.Declares(handles[k].module_, component)
      {
        var exists_ := ComponentExists(handles[j].module_, component);
        if exists_ {
          break;
        }
        j := j + 1;
      }
    }

    method ComponentExists(m: R.Module, component: string) returns (exists_: bool)
      ensures exists_ == R.Declares(m, component)
    {
      exists_ := false;
      for i := 0 to |m.components|
        invariant !exists_ && forall k :: 0 <= k < i ==> m.components[k] != component
      {
        if m.components[i] == component {
          return true;
        }
      }
    }

    /** The lookups MpiSet and MpiGet start with. */
    method Resolve(handle: Option<string>, component: string) returns (b: Option<R.Bound>)
      requires Valid()
      ensures b == R.Resolve(View(), handle, component)
    {
      if handle.None? {
        return None;
      }
      var session, i := FindSession(handle.value);
      if session == null {
        return None;
      }
      var j := FindModuleSession(session.handles, component);
      b := if j == |session.handles| then None else Some(session.handles[j]);
    }

    method MpiSet(handle: Option<string>, component: Option<string>, object_: Option<string>, payload: Option<string>, size: int) returns (status: Int)
      requires Valid()
      modifies this`trace
      ensures Valid() && (View(), status) == R.MpiSet(env, old(View()), handle, component, object_, payload, size)
    {
      if component.None? || object_.None? {
        return R.EINVAL;
      }
      var b := Resolve(handle, component.value);
      if b.None? {
        return R.EINVAL;
      }
      status := env.set_(trace, b.value, component.value, object_.value, payload, size);
      trace := trace + [R.SetCall(b.value, component.value, object_.value, payload, size, status)];
    }

    method MpiGet(handle: Option<string>, component: Option<string>, object_: Option<string>) returns (reply: R.GetReply)
      requires Valid()
      modifies this`trace
      ensures Valid() && (View(), reply) == R.MpiGet(env, old(View()), handle, component, object_)
    {
      if component.None? || object_.None? {
        return R.GetReply(R.EINVAL, None);
      }
      var b := Resolve(handle, component.value);
      if b.None? {
        return R.GetReply(R.EINVAL, None);
      }
      reply := env.get(trace, b.value, component.value, object_.value);
      trace := trace + [R.GetCall(b.value, component.value, object_.value, reply)];
    }

    method MpiSetDesired(handle: Option<string>, payload: Option<string>, size: int) returns (status: Int)
      requires Valid()
      modifies this`trace
      ensures Valid() && (View(), status) == R.MpiSetDesired(env, old(View()), handle, payload, size)
    {
      if handle.None? || payload.None? || size <= 0 {
        return R.EINVAL;
      }
      var session, i := FindSession(handle.value);
      if session == null {
        return R.EINVAL;
      }
      var root := env.codec.parse(payload.value);
      if root.None? {
        return R.EINVAL;
      }
      status := SetComponents(session.handles, R.ObjectMembers(root.value));
    }

    /** The outer loop of MpiSetDesired. */
    method SetComponents(handles: seq<R.Bound>, components: seq<(string, Json)>) returns (status: Int)
      modifies this`trace
      ensures (trace, status) == R.SetComponents(env, old(trace), handles, components)
    {
      status := R.MPI_OK;
      for i := 0 to |components|
        invariant (trace, status) == R.SetComponents(env, old(trace), handles, components[..i])
      {
        assert components[..i + 1][..i] == components[..i];
        var j := FindModuleSession(handles, components[i].0);
        if j == |handles| {
          status := R.EINVAL;
        } else {
          status := SetObjects(status, handles[j], components[i].0, R.ObjectMembers(components[i].1));
        }
      }
      assert components[..|components|] == components;
    }

    /** The inner loop of MpiSetDesired. */
    method SetObjects(before: Int, b: R.Bound, component: string, objects: seq<(string, Json)>) returns (status: Int)
      modifies this`trace
      ensures (trace, status) == R.SetObjects(env, old(trace), before, b, component, objects)
    {
      status := before;
      for i := 0 to |objects|
        invariant (trace, status) == R.SetObjects(env, old(trace), before, b, component, objects[..i])
      {
        assert objects[..i + 1][..i] == objects[..i];
        var text := env.codec.serialize(objects[i].1);
        if text.Some? {
          status := env.set_(trace, b, component, objects[i].0, text, |text.value|);
          trace := trace + [R.SetCall(b, component, objects[i].0, text, |text.value|, status)];
        }
      }
      assert objects[..|objects|] == objects;
    }

    method MpiGetReported(handle: Option<string>) returns (reply: R.GetReply)
      requires Valid()
      modifies this`trace
      ensures Valid() && (View(), reply) == R.MpiGetReported(env, old(View()), handle)
    {
      if handle.None? {
        return R.GetReply(R.EINVAL, None);
      }
      var session, i := FindSession(handle.value);
      if session == null {
        return R.GetReply(R.EINVAL, None);
      }
      var root := Report(session.handles);
      reply := R.GetReply(R.MPI_OK, Some(env.codec.pretty(Object(root))));
    }

    /** The loop of MpiGetReported. */
    method Report(handles: seq<R.Bound>) returns (root: seq<(string, Json)>)
      modifies this`trace
      ensures (trace, root) == R.Report(env, old(trace), handles, reported)
    {
      root := [];
      for k := 0 to |reported|
        invariant (trace, root) == R.Report(env, old(trace), handles, reported[..k])
      {
        assert reported[..k + 1][..k] == reported[..k];
        var value := FetchOne(handles, reported[k]);
        if value.Some? {
          root := R.PutReported(root, reported[k], value.value);
        }
      }
      assert reported[..|reported|] == reported;
    }

    /** One iteration of MpiGetReported: get, copy, parse, free. */
    method FetchOne(handles: seq<R.Bound>, entry: (string, string)) returns (value: Option<Json>)
      modifies this`trace
      ensures (trace, value) == R.FetchOne(env, old(trace), handles, entry)
    {
      value := None;
      var j := FindModuleSession(handles, entry.0);
      if j < |handles| {
        var b := handles[j];
        var reply := env.get(trace, b, entry.0, entry.1);
        trace := trace + [R.GetCall(b, entry.0, entry.1, reply)];
        if reply.status == R.MPI_OK && reply.payload.Some? {
          value := env.codec.parse(reply.payload.value);
        }
        trace := trace + [R.Freed(b.module_, reply.payload)];
        assert trace == old(trace) + [R.GetCall(b, entry.0, entry.1, reply), R.Freed(b.module_, reply.payload)];
      }
    }

    /** Teardown. As in the source the list heads keep their values, so nothing may be called
        after this. */
    method UnloadModules()
      requires Valid()
      modifies this`trace, this`reported
      ensures trace == R.UnloadModules(old(View())) && reported == []
    {
      FreeSessions();
      FreeModules();
      reported := [];
    }

    method FreeSessions()
      requires Valid()
      modifies this`trace
      ensures trace == old(trace) + R.CloseAll(list)
    {
      var curr := sessions;
      ghost var i := 0;
      while curr != null
        invariant i <= |spine| && curr == NodeAt(i)
        invariant trace == old(trace) + R.CloseAll(list[..i])
        decreases |spine| - i
      {
        var next := curr.next;
        CloseHandles(curr.handles);
        assert list[..i + 1][..i] == list[..i];
        curr := next;
        i := i + 1;
      }
      assert list[..|list|] == list;
    }

    method FreeModules()
      modifies this`trace
      ensures trace == old(trace) + R.UnloadEvents(modules)
    {
      for k := 0 to |modules|
        invariant trace == old(trace) + R.UnloadEvents(modules[..k])
      {
        trace := trace + [R.Unloaded(modules[k])];
        assert R.UnloadEvents(modules[..k + 1]) == R.UnloadEvents(modules[..k]) + [R.Unloaded(modules[k])];
      }
      assert modules[..|modules|] == modules;
    }
  }
}
