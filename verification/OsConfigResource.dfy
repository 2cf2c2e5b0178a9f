/** The compliance resource as the source runs it: globals replaced one by one, each operation leaving
    at its first error. */
module OsConfigResource {
  import opened Base
  import opened Reasons
  import opened Compliance

  class Resource {
    const env: Env
    var g: Globals
    var link: Link

    constructor (env: Env, link: Link)
      ensures this.env == env && View() == State(Initial, link)
    {
      this.env, this.g, this.link := env, Initial, link;
    }

    ghost function View(): State
      reads this
    {
      State(g, link)
    }

    method RefreshIfNoSession()
      modifies this`link
      ensures link == EnsureSession(env, old(link))
    {
      if link.handle.None? {
        var h := env.refresh(link.trace);
        link := link.(handle := h, trace := link.trace + [SessionRefreshed(h)]);
      }
    }

    method SetDesiredObjectValueToDevice(component: string, object_: string, value: string)
      modifies this`link
      ensures link == Send(env, old(link), component, object_, value)
    {
      var mpiResult := MPI_OK;
      var text := env.codec.serialize(String(value));
      if text.None? {
        mpiResult := ENOMEM;
      } else {
        mpiResult := env.baselineSet(link.trace, component, object_, text.value);
        link := link.(trace := link.trace + [BaselineSet(component, object_, text.value, mpiResult)]);
        if mpiResult != MPI_OK {
          RefreshIfNoSession();
          if link.handle.Some? {
            mpiResult := env.platformSet(link.trace, component, object_, text.value);
            link := link.(trace := link.trace + [PlatformSet(component, object_, text.value, mpiResult)]);
          }
        }
      }
      if mpiResult != MPI_OK {
        link := link.(mpiResult := mpiResult);
      }
    }

    method ReceiveFromDevice() returns (reply: Reply)
      modifies this`link
      ensures (link, reply) == Receive(env, old(link), g.componentName, g.reportedObjectName)
    {
      reply := env.baselineGet(link.trace, g.componentName, g.reportedObjectName);
      link := link.(trace := link.trace + [BaselineGet(g.componentName, g.reportedObjectName, reply)]);
      if reply.status != MPI_OK {
        RefreshIfNoSession();
        if link.handle.Some? {
          reply := env.platformGet(link.trace, g.componentName, g.reportedObjectName);
          link := link.(trace := link.trace + [PlatformGet(g.componentName, g.reportedObjectName, reply)]);
        }
      }
    }

    method GetReportedObjectValueFromDevice() returns (miResult: int)
      modifies this
      ensures (View(), miResult) == ReadDevice(env, old(View()))
    {
      if g.initObjectName.Some? && g.initObjectName.value != DEFAULT_VALUE && g.desiredObjectValue != DEFAULT_VALUE {
        SetDesiredObjectValueToDevice(g.componentName, g.initObjectName.value, g.desiredObjectValue);
      }
      var reply := ReceiveFromDevice();
      var mpiResult := reply.status;
      miResult := MI_RESULT_OK;
      if mpiResult != MPI_OK {
        miResult := MI_RESULT_FAILED;
      } else if reply.payload.None? {
        mpiResult, miResult := ENODATA, MI_RESULT_FAILED;
      } else {
        var value := env.codec.parse(reply.payload.value);
        if value.Some? && value.value.String? {
          g := g.(reportedObjectValue := Some(value.value.text));
        } else {
          mpiResult, miResult := EINVAL, MI_RESULT_INVALID_PARAMETER;
        }
      }
      link := link.(mpiResult := mpiResult);
    }

    method ReadIds(i: Input) returns (ok: bool)
      modifies this`g
      ensures g == StoreIds(old(g), i) && ok == HasIds(i)
    {
      ok := false;
      if i.ruleId.None? {
        return;
      }
      g := g.(ruleId := i.ruleId.value);
      if i.payloadKey.None? {
        return;
      }
      g := g.(payloadKey := i.payloadKey.value);
      if i.componentName.None? {
        return;
      }
      g := g.(componentName := i.componentName.value);
      ok := true;
    }

    method ReadProcedure(i: Input) returns (ok: bool)
      modifies this
      ensures g == StoreProcedure(old(g), i) && ok == ProcedureComplete(i)
      ensures link == SendProcedure(env, old(link), old(g).componentName, i)
    {
      ok := true;
      if i.procedureObjectName.Some? {
        g := g.(procedureObjectName := i.procedureObjectName);
        if i.procedureObjectValue.Some? {
          g := g.(procedureObjectValue := i.procedureObjectValue);
          SetDesiredObjectValueToDevice(g.componentName, i.procedureObjectName.value, i.procedureObjectValue.value);
        } else {
          g := g.(procedureObjectValue := None);
          ok := false;
        }
      } else {
        g := g.(procedureObjectName := None);
      }
    }

    method GetTargetResource(input: Option<Input>) returns (posted: Posted)
      modifies this
      ensures (View(), posted) == Get(env, old(View()), input)
    {
      if input.None? {
        return Refuse(MI_RESULT_FAILED);
      }
      var i := input.value;
      g := g.(resourceId := i.resourceId);
      var ok := ReadIds(i);
      if !ok {
        return Refuse(MI_RESULT_FAILED);
      }
      g := g.(initObjectName := i.initObjectName);
      ok := ReadProcedure(i);
      if !ok || i.reportedObjectName.None? {
        return Refuse(MI_RESULT_FAILED);
      }
      g := g.(reportedObjectName := i.reportedObjectName.value);
      if i.desiredObjectName.Some? {
        g := g.(desiredObjectName := i.desiredObjectName.value);
      }
      if i.desiredObjectValue.Some? {
        g := g.(desiredObjectValue := i.desiredObjectValue.value);
      }
      if !env.correctDistribution(g.payloadKey) {
        return Refuse(MI_RESULT_NOT_SUPPORTED);
      }
      var miResult := GetReportedObjectValueFromDevice();
      if miResult != MI_RESULT_OK || g.reportedObjectValue.None? {
        return Refuse(miResult);
      }
      if i.expectedObjectValue.Some? {
        g := g.(expectedObjectValue := i.expectedObjectValue.value);
      }
      var reported := g.reportedObjectValue.value;
      var compliant := Compliant(g.expectedObjectValue, reported);
      posted := Posted(miResult, compliant, ReasonCode(env, g, compliant), ReasonPhrase(g.expectedObjectValue, reported));
    }

    method TestTargetResource(input: Option<Input>) returns (posted: Posted)
      modifies this
      ensures (View(), posted) == Test(env, old(View()), input)
    {
      if input.None? {
        return Refuse(MI_RESULT_FAILED);
      }
      var i := input.value;
      var ok := ReadIds(i);
      if !ok {
        return Refuse(MI_RESULT_FAILED);
      }
      g := g.(initObjectName := i.initObjectName);
      if i.reportedObjectName.None? {
        return Refuse(MI_RESULT_FAILED);
      }
      g := g.(reportedObjectName := i.reportedObjectName.value);
      if i.desiredObjectValue.Some? {
        g := g.(desiredObjectValue := i.desiredObjectValue.value);
      }
      ok := ReadProcedure(i);
      if !ok {
        return Refuse(MI_RESULT_FAILED);
      }
      if !env.correctDistribution(g.payloadKey) {
        return Refuse(MI_RESULT_NOT_SUPPORTED);
      }
      var miResult := GetReportedObjectValueFromDevice();
      if miResult != MI_RESULT_OK {
        return Refuse(miResult);
      }
      var compliant := false;
      if g.reportedObjectValue.Some? {
        compliant := Compliant(if i.expectedObjectValue.Some? then i.expectedObjectValue.value else g.expectedObjectValue,
                               g.reportedObjectValue.value);
      }
      posted := Posted(miResult, compliant, "", "");
    }

    method SetTargetResource(input: Option<Input>) returns (miResult: int)
      modifies this
      ensures (View(), miResult) == Set(env, old(View()), input)
    {
      miResult := Apply(input);
      if miResult != MI_RESULT_OK {
        link := link.(mpiResult := miResult);
      }
    }

    /** SetTargetResource up to its exit label. */
    method Apply(input: Option<Input>) returns (miResult: int)
      modifies this
      ensures var (s, mi) := Set(env, old(View()), input);
              && miResult == mi && g == s.g
              && s.link == if mi == MI_RESULT_OK then link else link.(mpiResult := mi)
    {
      miResult := MI_RESULT_FAILED;
      if input.None? {
        return;
      }
      var i := input.value;
      var ok := ReadIds(i);
      if !ok || i.desiredObjectName.None? {
        return;
      }
      g := g.(desiredObjectName := i.desiredObjectName.value);
      if i.desiredObjectValue.None? {
        return;
      }
      g := g.(desiredObjectValue := i.desiredObjectValue.value);
      ok := ReadProcedure(i);
      if !ok {
        return;
      }
      if !env.correctDistribution(g.payloadKey) {
        miResult := MI_RESULT_NOT_SUPPORTED;
        return;
      }
      SetDesiredObjectValueToDevice(g.componentName, g.desiredObjectName, g.desiredObjectValue);
      miResult := MI_RESULT_OK;
    }
  }
}
