/** Which response closes a connection, read off the trace. */
module ConnectionClosing {
  import opened Wrappers
  import opened Buffers
  import opened CoordinatorSpec
  import opened ConnectionSpec
  import opened ConnectionHistory
  import opened ConnectionInvariant
  import opened ConnectionTheorems

  /** The flags of the last part accepted for a request. */
  function LastFlags(tr: Trace, id: RequestId): Flags {
    if tr == [] then FRESH_FLAGS
    else if Last(tr).Accepted? && Last(tr).req == id then Last(tr).flags
    else LastFlags(Init(tr), id)
  }

  /** Requests below the table are finished, the coordinator is closed exactly when the last of them
      asked for it, and the contexts carry the flags of their last part. */
  ghost predicate FlagsKnown(tr: Trace, c: State) {
    && (forall k :: 0 <= k < |c.window| && 0 <= Base(c) ==> c.window[k].flags == LastFlags(tr, Base(c) + k))
    && (forall id :: 0 <= id < Base(c) ==> LastFlags(tr, id).final)
    && (forall id :: 0 <= id < Base(c) - 1 ==> !LastFlags(tr, id).close)
    && (c.closed <==> 0 < Base(c) && LastFlags(tr, Base(c) - 1).close)
    && (forall id :: c.registered <= id ==> LastFlags(tr, id) == FRESH_FLAGS)
  }

  ghost predicate FlagsInv(s: Conn) {
    s.open ==> FlagsKnown(s.trace, s.coord)
  }

  lemma {:induction false} SilentFlags(tr: Trace, more: Trace)
    requires tr <= more && forall i :: |tr| <= i < |more| ==> !more[i].Accepted?
    ensures forall id :: LastFlags(more, id) == LastFlags(tr, id)
  {
    if |tr| < |more| {
      SilentFlags(tr, Init(more));
    } else {
      assert more == tr;
    }
  }

  lemma FlagsMove(tr: Trace, more: Trace, c: State)
    requires FlagsKnown(tr, c) && tr <= more && forall i :: |tr| <= i < |more| ==> !more[i].Accepted?
    ensures FlagsKnown(more, c)
  {
    SilentFlags(tr, more);
  }

  lemma PopFlags(tr: Trace, c: State)
    requires Consistent(c) && !c.closed && FlagsKnown(tr, c)
    ensures FlagsKnown(tr, Pop(c).value.state)
  {
    hide LastFlags;
    var d := Pop(c).value.state;
    if |d.window| < |c.window| {
      assert Base(d) == Base(c) + 1;
      assert c.window[0].flags == LastFlags(tr, Base(c) + 0);
      forall k | 0 <= k < |d.window| ensures d.window[k].flags == LastFlags(tr, Base(d) + k) {
        assert d.window[k] == c.window[k + 1];
      }
    } else {
      assert Base(d) == Base(c);
    }
  }

  lemma {:induction false} InitWriteFlags(s: Conn)
    requires Consistent(s.coord) && !s.coord.closed && 0 < s.maxIov && FlagsInv(s)
    ensures FlagsInv(InitWrite(s))
    decreases GroupCount(s.coord.window), 0
  {
    hide FlagsKnown;
    var p := Pop(s.coord).value;
    if p.ready.Some? {
      PopShrinks(s.coord);
      PopKeepsConsistent(s.coord);
      if s.open {
        PopFlags(s.trace, s.coord);
      }
      HandleCurrentFlags(s.(coord := p.state, cur := Some(p.ready.value.0)));
    }
  }

  lemma {:induction false} HandleCurrentFlags(s: Conn)
    requires Consistent(s.coord) && s.cur.Some? && 0 < s.maxIov && FlagsInv(s)
    ensures FlagsInv(HandleCurrent(s))
    decreases GroupCount(s.coord.window), 2
  {
    hide FlagsKnown;
    if s.next < |s.cur.value.items| {
    } else if s.cur.value.notificator.Some? {
      if s.open {
        FlagsMove(s.trace, HandleCurrent(s).trace, s.coord);
      }
    } else {
      AfterNotificationFlags(s);
    }
  }

  lemma {:induction false} AfterNotificationFlags(s: Conn)
    requires Consistent(s.coord) && 0 < s.maxIov && FlagsInv(s)
    ensures FlagsInv(AfterNotification(s))
    decreases GroupCount(s.coord.window), 1
  {
    if !s.coord.closed {
      InitWriteFlags(s.(cur := None, next := 0, phase := Idle));
    }
  }

  lemma AppendFlags(tr: Trace, c: State, id: RequestId, flags: Flags, g: Group)
    requires Consistent(c) && c.registered <= ID_LIMIT && FlagsKnown(tr, c) && Append(c, id, flags, g).Ok?
    ensures FlagsKnown(tr + [Accepted(id, flags, g.items, g.notificator)], Append(c, id, flags, g).value)
  {
    var d := Append(c, id, flags, g).value;
    var e := Accepted(id, flags, g.items, g.notificator);
    FindByOrdinal(c, id);
    Snoc(tr, e);
    assert Base(d) == Base(c);
    assert forall i :: LastFlags(tr + [e], i) == if i == id then flags else LastFlags(tr, i);
    hide LastFlags, Enqueue, Consistent;
  }

  lemma DeliverFlags(s: Conn, id: RequestId, flags: Flags, g: Group)
    requires Consistent(s.coord) && s.coord.registered <= ID_LIMIT && 0 < s.maxIov && FlagsInv(s)
    ensures FlagsInv(Deliver(s, id, flags, g))
  {
    hide FlagsKnown;
    var r := Append(s.coord, id, flags, g);
    if s.open && s.coord.closed {
      FlagsMove(s.trace, Refuse(s, g.notificator, NotExecuted).trace, s.coord);
    } else if s.open && r.Err? {
      FlagsMove(s.trace, Refuse(s, g.notificator, DestroyedPassively).trace, s.coord);
    } else if s.open {
      AppendFlags(s.trace, s.coord, id, flags, g);
      AppendKeepsConsistent(s.coord, id, flags, g);
      if s.cur.None? {
        InitWriteFlags(s.(coord := r.value, trace := s.trace + [Accepted(id, flags, g.items, g.notificator)]));
      }
    }
  }

  lemma RegisterFlags(tr: Trace, c: State)
    requires Consistent(c) && FlagsKnown(tr, c) && Register(c).Ok?
    ensures FlagsKnown(tr, Register(c).value)
  {
    var d := Register(c).value;
    assert Base(d) == Base(c);
  }

  lemma InvBasics(s: Conn)
    requires Inv(s)
    ensures Consistent(s.coord) && 0 < s.maxIov && s.coord.registered <= ID_LIMIT
  {}

  lemma ClosedSteps(s: Conn, step: Step)
    requires 0 < s.maxIov && Enabled(s, step)
    requires step.WriteFailed? || step.WriteAborted? || step.ExceptionHandled? || step.CloseRequested? || step.Destroyed?
    ensures !Next(s, step).open
  {}

  lemma CloseShuts(s: Conn)
    ensures !Close(s).open
  {}

  lemma NextFlags(s: Conn, step: Step)
    requires Inv(s) && FlagsInv(s)
    ensures FlagsInv(Next(s, step))
  {
    hide FlagsKnown, HandleCurrent, AfterNotification, Deliver, Core, Close, FailCurrent;
    assert Consistent(s.coord) && 0 < s.maxIov && s.coord.registered <= ID_LIMIT by { InvBasics(s); }
    if Enabled(s, step) && s.open {
      match step {
        case RegisterRequest =>
          if Register(s.coord).Ok? {
            RegisterFlags(s.trace, s.coord);
            FlagsMove(s.trace, s.trace + [Registered(s.coord.registered % ID_LIMIT)], Register(s.coord).value);
          } else {
            CloseShuts(s);
          }
        case WriteParts(id, flags, items, size, notify) =>
          FlagsMove(s.trace, Submit(s, notify).trace, s.coord);
          DeliverFlags(Submit(s, notify), id, flags, Group(items, size, NewToken(s, notify)));
        case WriteDone =>
          var t := s.(inflight := [], trace := s.trace + [Sent(s.inflight)]);
          FlagsMove(s.trace, t.trace, s.coord);
          HandleCurrentFlags(t);
        case NotificatorReturned(threw) =>
          if threw {
            CloseShuts(s.(cur := None, next := 0, phase := Idle));
          } else {
            AfterNotificationFlags(s);
          }
        case _ => ClosedSteps(s, step);
      }
    }
  }

  lemma {:induction false} ReachableFlags(capacity: nat, maxIov: nat, steps: seq<Step>, s: Conn)
    requires Reaches(capacity, maxIov, steps, s)
    ensures FlagsInv(s)
  {
    if steps != [] {
      hide FlagsInv;
      var init := steps[..|steps| - 1];
      var t := Run(Start(capacity, maxIov), init);
      ReachableFlags(capacity, maxIov, init, t);
      ReachableInv(capacity, maxIov, init, t);
      NextFlags(t, steps[|steps| - 1]);
    }
  }

  /** While the socket is open: every request that left the table had its final part accepted, none
      of them but the last asked to close the connection, and the coordinator is closed if and only
      if that last one did. */
  lemma ClosedExactlyByACloseResponse(capacity: nat, maxIov: nat, steps: seq<Step>, s: Conn)
    requires Reaches(capacity, maxIov, steps, s) && s.open
    ensures forall id :: 0 <= id < Base(s.coord) ==> LastFlags(s.trace, id).final
    ensures forall id :: 0 <= id < Base(s.coord) - 1 ==> !LastFlags(s.trace, id).close
    ensures s.coord.closed <==> 0 < Base(s.coord) && LastFlags(s.trace, Base(s.coord) - 1).close
  {
    ReachableFlags(capacity, maxIov, steps, s);
  }
}
