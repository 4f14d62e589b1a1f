/**
  The write half of `connection_t` as an object. Every method is proved against one step of the
  state machine of module ConnectionSpec, so the theorems about its runs are theorems about the
  calls on such an object.
 */
module ConnectionObject {
  import opened Wrappers
  import opened Buffers
  import opened CoordinatorSpec
  import opened CoordinatorObjects
  import opened WriteOutput
  import Spec = ConnectionSpec

  class Connection {
    const coordinator: Coordinator
    const output: OutputContext
    var open: bool
    var phase: Spec.Phase
    var unwinding: nat
    var inflight: seq<Item>
    var submitted: nat
    ghost var trace: seq<Spec.Event>
    ghost const Repr: set<object>

    ghost predicate Valid()
      reads this, Repr
    {
      && Repr == {this, output} + coordinator.Repr
      && this !in coordinator.Repr && output !in coordinator.Repr
      && {coordinator, coordinator.table, coordinator.table.contexts} <= Repr
      && coordinator.Valid()
      && 0 < output.maxIov
    }

    ghost function Model(): Spec.Conn
      requires Valid()
      reads this, Repr
    {
      Spec.Conn(coordinator.Model(), output.current, output.next, inflight, phase, open, unwinding,
                output.maxIov, submitted, trace)
    }

    constructor (maxReqCount: nat, maxIov: nat)
      requires maxReqCount <= ID_LIMIT && 0 < maxIov
      ensures Valid() && fresh(Repr) && Model() == Spec.Start(maxReqCount, maxIov)
    {
      var c := new Coordinator(maxReqCount);
      var o := new OutputContext(maxIov);
      coordinator, output := c, o;
      open, phase, unwinding, inflight, submitted, trace := true, Spec.Idle, 0, [], 0, [];
      Repr := {this, o} + c.Repr;
    }

    ghost method Record(fired: seq<Firing>)
      requires Valid()
      modifies this`trace
      ensures Valid() && Model() == Spec.Log(old(Model()), fired)
    {
      trace := trace + Spec.Firings(fired);
    }

    method Close()
      requires Valid()
      modifies Repr
      ensures Valid() && Model() == Spec.Close(old(Model()))
    {
      open := false;
      var fired := coordinator.ResetAll();
      Record(fired);
    }

    method RegisterNewRequest() returns (r: Result<RequestId, Error>)
      requires Valid()
      modifies Repr
      ensures Valid() && Model() == Spec.Next(old(Model()), Spec.RegisterRequest)
      ensures r.Ok? ==> r.value == old(Model()).coord.registered % ID_LIMIT
    {
      r := coordinator.RegisterNewRequest();
      if r.Err? {
        Close();
      } else {
        trace := trace + [Spec.Registered(r.value)];
      }
    }

    method InitWrite()
      requires Valid() && !Model().coord.closed && Model().cur.None?
      modifies Repr
      ensures Valid() && Model() == Spec.InitWrite(old(Model()))
      decreases Spec.GroupCount(Model().coord.window), 0
    {
      ghost var s := Model();
      var next := coordinator.PopReadyBuffers();
      if next.value.Some? {
        Spec.PopShrinks(s.coord);
        var _ := output.StartNextWriteGroup(Some(next.value.value.0));
        assert Model() == s.(coord := Pop(s.coord).value.state, cur := Some(next.value.value.0));
        HandleCurrentWriteCtx();
      }
    }

    method HandleCurrentWriteCtx()
      requires Valid() && Model().cur.Some?
      modifies Repr
      ensures Valid() && Model() == Spec.HandleCurrent(old(Model()))
      decreases Spec.GroupCount(Model().coord.window), 3
    {
      ghost var s := Model();
      var start := output.next;
      var op := output.ExtractNextWriteOperation();
      if !op.NoOperation? {
        inflight := output.current.value.items[start..output.next];
        phase := Spec.Writing;
      } else if output.current.value.notificator.Some? {
        var fired := output.InvokeNotificator(Success);
        phase := Spec.Notifying;
        Record(fired);
        assert fired == [Firing(s.cur.value.notificator.value, Success)];
      } else {
        var fired := output.FinishWriteGroup();
        assert fired == [];
        GoOn();
      }
    }

    /** The rest of `finish_handling_current_write_ctx` once the notificator is back. */
    method AfterNotification()
      requires Valid()
      modifies Repr
      ensures Valid() && Model() == Spec.AfterNotification(old(Model()))
      decreases Spec.GroupCount(Model().coord.window), 2
    {
      output.ResetWriteGroup();
      GoOn();
    }

    /** After a group: close, or look for the next one. */
    method GoOn()
      requires Valid() && Model().cur.None? && Model().next == 0
      modifies Repr
      ensures Valid() && Model() == Spec.AfterNotification(old(Model()))
      decreases Spec.GroupCount(Model().coord.window), 1
    {
      phase := Spec.Idle;
      if coordinator.closed {
        Close();
      } else {
        InitWrite();
      }
    }

    method WriteResponseParts(id: RequestId, flags: Flags, items: seq<Item>, statusLineSize: nat, notify: bool)
      requires Valid()
      modifies Repr
      ensures Valid()
      ensures Model() == Spec.Next(old(Model()), Spec.WriteParts(id, flags, items, statusLineSize, notify))
    {
      var token := None;
      if notify {
        token := Some(submitted);
        trace := trace + [Spec.Submitted(submitted)];
        submitted := submitted + 1;
      }
      assert Model() == Spec.Submit(old(Model()), notify);
      Deliver(id, flags, Group(items, statusLineSize, token));
    }

    method Deliver(id: RequestId, flags: Flags, g: Group)
      requires Valid()
      modifies Repr
      ensures Valid() && Model() == Spec.Deliver(old(Model()), id, flags, g)
    {
      var tokens := Tokens(g);
      if !open || coordinator.closed {
        Record(Fire(tokens, NotExecuted));
        return;
      }
      var r := coordinator.AppendResponse(id, flags, g);
      if r.Err? {
        Record(Fire(tokens, DestroyedPassively));
        if g.notificator.Some? {
          unwinding := unwinding + 1;
        } else {
          Close();
        }
      } else {
        trace := trace + [Spec.Accepted(id, flags, g.items, g.notificator)];
        if !output.Transmitting() {
          InitWrite();
        }
      }
    }

    /** The completion handler of an asynchronous write. */
    method AfterWrite(step: Spec.Step)
      requires Valid() && Spec.Enabled(Model(), step)
      requires step.WriteDone? || step.WriteFailed? || step.WriteAborted?
      modifies Repr
      ensures Valid() && Model() == Spec.Next(old(Model()), step)
    {
      if step.WriteDone? {
        trace := trace + [Spec.Sent(inflight)];
        inflight := [];
        HandleCurrentWriteCtx();
      } else {
        if step.WriteFailed? {
          Close();
        }
        inflight := [];
        phase := Spec.Idle;
        var fired := output.FailWriteGroup(step.threw);
        Record(fired);
      }
    }

    /** The handler of an exception thrown by the coordinator, when the notificator of the refused part
        is back. */
    method HandleException()
      requires Valid() && 0 < unwinding
      modifies Repr
      ensures Valid() && Model() == Spec.Next(old(Model()), Spec.ExceptionHandled)
    {
      unwinding := unwinding - 1;
      Close();
    }

    method NotificatorReturned(threw: bool)
      requires Valid() && phase == Spec.Notifying
      modifies Repr
      ensures Valid() && Model() == Spec.Next(old(Model()), Spec.NotificatorReturned(threw))
    {
      if threw {
        output.ResetWriteGroup();
        phase := Spec.Idle;
        Close();
      } else {
        AfterNotification();
      }
    }
  }
}
