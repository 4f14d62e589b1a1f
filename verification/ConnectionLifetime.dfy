/** When a connection closes its socket, in every run. */
module ConnectionLifetime {
  import opened Wrappers
  import opened Buffers
  import opened CoordinatorSpec
  import opened ConnectionSpec
  import opened ConnectionHistory
  import opened ConnectionInvariant
  import opened ConnectionTheorems
  import opened ConnectionClosing
  import opened ConnectionAccepts
  import opened ConnectionProgress

  // ---------------------------------------------------------------------------------------------
  // After a close response.

  /** A socket whose coordinator is closed is open only while the last group is being written. */
  ghost predicate ClosesInTime(s: Conn) { s.open && s.coord.closed ==> s.phase != Idle }

  /** The socket goes down on the way from `s` to `r` only because a close response is done. */
  ghost predicate DownOnlyWhenDone(s: Conn, r: Conn) { s.open && !r.open ==> r.coord.closed && r.phase == Idle }

  lemma {:induction false} InitWriteCloses(s: Conn)
    requires !s.coord.closed && 0 < s.maxIov && s.phase == Idle
    ensures ClosesInTime(InitWrite(s)) && DownOnlyWhenDone(s, InitWrite(s))
    decreases GroupCount(s.coord.window), 0
  {
    hide Follows;
    var p := Pop(s.coord).value;
    if p.ready.Some? {
      PopShrinks(s.coord);
      HandleCurrentCloses(s.(coord := p.state, cur := Some(p.ready.value.0)));
    }
  }

  lemma {:induction false} HandleCurrentCloses(s: Conn)
    requires s.cur.Some? && 0 < s.maxIov
    ensures ClosesInTime(HandleCurrent(s)) && DownOnlyWhenDone(s, HandleCurrent(s))
    decreases GroupCount(s.coord.window), 2
  {
    hide Follows;
    if s.next >= |s.cur.value.items| && s.cur.value.notificator.None? {
      AfterNotificationCloses(s);
    }
  }

  lemma {:induction false} AfterNotificationCloses(s: Conn)
    requires 0 < s.maxIov
    ensures ClosesInTime(AfterNotification(s)) && DownOnlyWhenDone(s, AfterNotification(s))
    decreases GroupCount(s.coord.window), 1
  {
    hide Follows;
    if !s.coord.closed {
      InitWriteCloses(s.(cur := None, next := 0, phase := Idle));
    }
  }

  // ---------------------------------------------------------------------------------------------
  // The other causes.

  /** A part that an open connection refuses: its request is not registered, or finished. */
  ghost predicate Refused(s: Conn, step: Step) {
    step.WriteParts? && s.open && !s.coord.closed && !Awaited(s.trace, step.id)
  }

  /** What makes a step close the socket at once, read off the state before it: a request to close or
      destruction, a failed write, a notificator or a coordinator that threw, a request too many, or a
      refused part without a notificator. */
  ghost predicate Cause(s: Conn, step: Step) {
    match step
    case CloseRequested => true
    case Destroyed => s.phase == Idle && s.unwinding == 0
    case WriteFailed(_) => s.phase == Writing
    case NotificatorReturned(threw) => threw && s.phase == Notifying
    case ExceptionHandled => 0 < s.unwinding
    case RegisterRequest => |s.coord.window| == s.coord.capacity
    case WriteParts(_, _, _, _, notify) => !notify && Refused(s, step)
    case WriteDone | WriteAborted(_) => false
  }

  /** A closed connection at rest does nothing any more. */
  ghost predicate AtRest(s: Conn) { !s.open && s.coord.closed && s.phase == Idle }

  lemma WritePartsLifetime(s: Conn, step: Step)
    requires Inv(s) && ClosesInTime(s) && step.WriteParts?
    requires Taken(s, step) <==> s.open && !s.coord.closed && Awaited(s.trace, step.id)
    ensures var r := Next(s, step);
            && ClosesInTime(r)
            && (Cause(s, step) ==> !r.open)
            && (Refused(s, step) ==> 0 < r.unwinding || !r.open)
            && s.unwinding <= r.unwinding
            && (!Cause(s, step) ==> DownOnlyWhenDone(s, r))
            && (AtRest(s) ==> AtRest(r))
  {
    InvBasics(s);
    hide Follows, Core, InitWrite, Append, Awaited, Close, Fire, Firings;
    var t := Submit(s, step.notify);
    var g := Group(step.items, step.statusLineSize, NewToken(s, step.notify));
    if s.open && !s.coord.closed {
      if Taken(s, step) {
        AppendLeavesOpen(s.coord, step.id, step.flags, g);
        if s.cur.None? {
          InitWriteCloses(t.(coord := Append(s.coord, step.id, step.flags, g).value,
                             trace := t.trace + [Accepted(step.id, step.flags, step.items, g.notificator)]));
        }
      } else {
        CloseShuts(Refuse(t, g.notificator, DestroyedPassively));
        CloseUnwinds(Refuse(t, g.notificator, DestroyedPassively));
      }
    }
  }

  lemma CloseUnwinds(s: Conn)
    ensures Close(s).unwinding == s.unwinding && Close(s).coord.closed == s.coord.closed && Close(s).phase == s.phase
  {}

  /** The steps that do not submit parts. */
  lemma OtherLifetime(s: Conn, step: Step)
    requires Inv(s) && ClosesInTime(s) && !step.WriteParts?
    ensures var r := Next(s, step);
            && ClosesInTime(r)
            && (Cause(s, step) ==> !r.open)
            && (r.open ==> s.unwinding <= r.unwinding)
            && (!Cause(s, step) ==> DownOnlyWhenDone(s, r))
            && (AtRest(s) ==> AtRest(r))
  {
    InvBasics(s);
    hide Core, HandleCurrent, AfterNotification, Close, FailCurrent, Fire, Firings, Follows;
    var r := Next(s, step);
    NeverReopened(s, step);
    if Enabled(s, step) {
      match step
      case WriteDone => HandleCurrentCloses(s.(inflight := [], trace := s.trace + [Sent(s.inflight)]));
      case NotificatorReturned(threw) =>
        if threw {
          CloseShuts(s.(cur := None, next := 0, phase := Idle));
        } else {
          AfterNotificationCloses(s);
        }
      case RegisterRequest =>
        CloseShuts(s);
        CloseUnwinds(s);
      case CloseRequested =>
        CloseShuts(s);
        CloseUnwinds(s);
      case WriteAborted(threw) => FailedAtRest(s, threw);
      case ExceptionHandled =>
        CloseShuts(s.(unwinding := s.unwinding - 1));
        CloseUnwinds(s.(unwinding := s.unwinding - 1));
      case _ => ClosedSteps(s, step);
    }
  }

  lemma NeverReopened(s: Conn, step: Step)
    requires 0 < s.maxIov
    ensures !s.open ==> !Next(s, step).open
    ensures s.coord.closed ==> Next(s, step).coord.closed
  {}

  lemma FailedAtRest(s: Conn, threw: bool)
    requires s.cur.Some? && !s.open
    ensures !FailCurrent(s, threw).open
  {}

  lemma NextLifetime(capacity: nat, maxIov: nat, steps: seq<Step>, s: Conn, step: Step)
    requires Reaches(capacity, maxIov, steps, s) && ClosesInTime(s)
    ensures var r := Next(s, step);
            && ClosesInTime(r)
            && (Cause(s, step) ==> !r.open)
            && (Refused(s, step) ==> 0 < r.unwinding || !r.open)
            && (r.open ==> s.unwinding <= r.unwinding)
            && (!Cause(s, step) ==> DownOnlyWhenDone(s, r))
            && (AtRest(s) ==> AtRest(r))
  {
    hide Next, Run, Cause, ClosesInTime, AtRest, Inv, DownOnlyWhenDone, Taken;
    ReachableInv(capacity, maxIov, steps, s);
    if step.WriteParts? {
      TakenExactly(capacity, maxIov, steps, s, step);
      WritePartsLifetime(s, step);
    } else {
      OtherLifetime(s, step);
    }
  }

  /** In every run: with a closed coordinator, an open socket still has a group in flight, so a
      connection-close response is followed by the end of the connection as soon as it is written. */
  lemma {:induction false} ClosedInTime(capacity: nat, maxIov: nat, steps: seq<Step>, s: Conn)
    requires Reaches(capacity, maxIov, steps, s)
    ensures s.open && s.coord.closed ==> s.phase != Idle
  {
    if steps != [] {
      hide Next, Run;
      var t := RunBefore(capacity, maxIov, steps, s);
      ClosedInTime(capacity, maxIov, steps[..|steps| - 1], t);
      NextLifetime(capacity, maxIov, steps[..|steps| - 1], t, steps[|steps| - 1]);
    }
  }

  /** One of the steps had a cause to close. */
  ghost predicate SomeCause(capacity: nat, maxIov: nat, steps: seq<Step>)
    requires 0 < maxIov
  {
    exists k :: 0 <= k < |steps| && Cause(Run(Start(capacity, maxIov), steps[..k]), steps[k])
  }

  lemma SomeCauseGrows(capacity: nat, maxIov: nat, steps: seq<Step>)
    requires 0 < maxIov && steps != []
    ensures var n := |steps| - 1;
            SomeCause(capacity, maxIov, steps) <==>
            SomeCause(capacity, maxIov, steps[..n]) || Cause(Run(Start(capacity, maxIov), steps[..n]), steps[n])
  {
    hide Cause, Run;
    var n := |steps| - 1;
    forall k | 0 <= k < n ensures steps[..n][..k] == steps[..k] && steps[..n][k] == steps[k] {}
    if SomeCause(capacity, maxIov, steps[..n]) {
      var k :| 0 <= k < n && Cause(Run(Start(capacity, maxIov), steps[..n][..k]), steps[..n][k]);
      assert Cause(Run(Start(capacity, maxIov), steps[..k]), steps[k]);
    }
    if SomeCause(capacity, maxIov, steps) {
      var k :| 0 <= k < |steps| && Cause(Run(Start(capacity, maxIov), steps[..k]), steps[k]);
      if k < n {
        assert Cause(Run(Start(capacity, maxIov), steps[..n][..k]), steps[..n][k]);
      }
    }
  }

  /** In every run the socket is closed if and only if some step had one of the causes, or a close
      response is done: the coordinator is closed and nothing is in flight. */
  lemma {:induction false} SocketClosesExactly(capacity: nat, maxIov: nat, steps: seq<Step>, s: Conn)
    requires Reaches(capacity, maxIov, steps, s)
    ensures !s.open <==> SomeCause(capacity, maxIov, steps) || (s.coord.closed && s.phase == Idle)
  {
    if steps != [] {
      hide Next, Run, Cause, SomeCause;
      var init := steps[..|steps| - 1];
      var step := steps[|steps| - 1];
      var t := RunBefore(capacity, maxIov, steps, s);
      SocketClosesExactly(capacity, maxIov, init, t);
      ClosedInTime(capacity, maxIov, init, t);
      NextLifetime(capacity, maxIov, init, t, step);
      SomeCauseGrows(capacity, maxIov, steps);
      ReachableMaxIov(capacity, maxIov, init, t);
      NeverReopened(t, step);
    }
  }

  lemma ReachableMaxIov(capacity: nat, maxIov: nat, steps: seq<Step>, s: Conn)
    requires Reaches(capacity, maxIov, steps, s)
    ensures 0 < s.maxIov
  {}

  // ---------------------------------------------------------------------------------------------
  // Close responses, read off the trace.

  /** Some final part asked to close the connection. */
  ghost predicate CloseAsked(tr: Trace) {
    exists p :: 0 <= p < |tr| && tr[p].Accepted? && tr[p].flags == Flags(true, true)
  }

  ghost predicate CloseHasReason(s: Conn) {
    && (s.coord.closed ==> CloseAsked(s.trace))
    && (forall k :: 0 <= k < |s.coord.window| && s.coord.window[k].flags == Flags(true, true) ==> CloseAsked(s.trace))
  }

  lemma CloseAskedGrows(tr: Trace, more: Trace)
    requires tr <= more && CloseAsked(tr)
    ensures CloseAsked(more)
  {
    var p :| 0 <= p < |tr| && tr[p].Accepted? && tr[p].flags == Flags(true, true);
    assert more[p] == tr[p];
  }

  /** A longer trace and fewer, unchanged contexts. */
  lemma ReasonStays(s: Conn, r: Conn)
    requires CloseHasReason(s) && s.trace <= r.trace && (r.coord.closed ==> s.coord.closed)
    requires forall k :: 0 <= k < |r.coord.window| && r.coord.window[k].flags == Flags(true, true) ==>
               exists m :: 0 <= m < |s.coord.window| && s.coord.window[m].flags == r.coord.window[k].flags
    ensures CloseHasReason(r)
  {
    if CloseAsked(s.trace) {
      CloseAskedGrows(s.trace, r.trace);
    }
  }

  lemma PopReason(s: Conn)
    requires CloseHasReason(s) && !s.coord.closed
    ensures CloseHasReason(s.(coord := Pop(s.coord).value.state))
  {
    hide CloseAsked;
    var c, d := s.coord, Pop(s.coord).value.state;
    if c.window != [] {
      forall k | 0 <= k < |d.window| && d.window[k].flags == Flags(true, true) ensures CloseAsked(s.trace) {
        var m := if |d.window| < |c.window| then k + 1 else k;
        assert c.window[m].flags == d.window[k].flags;
      }
      if d.closed {
        assert c.window[0].flags == Flags(true, true);
      }
    }
  }

  lemma CloseReason(s: Conn)
    requires CloseHasReason(s)
    ensures CloseHasReason(Close(s))
  {
    hide CloseAsked, Fire, QueuedTokens;
    ReasonStays(s, Close(s));
  }

  lemma {:induction false} InitWriteReason(s: Conn)
    requires !s.coord.closed && 0 < s.maxIov && CloseHasReason(s)
    ensures CloseHasReason(InitWrite(s))
    decreases GroupCount(s.coord.window), 0
  {
    hide Follows, CloseHasReason;
    var p := Pop(s.coord).value;
    if p.ready.Some? {
      PopShrinks(s.coord);
      PopReason(s);
      var t := s.(coord := p.state);
      SameReason(t, t.(cur := Some(p.ready.value.0)));
      HandleCurrentReason(t.(cur := Some(p.ready.value.0)));
    }
  }

  lemma SameReason(s: Conn, r: Conn)
    requires CloseHasReason(s) && r.coord == s.coord && s.trace <= r.trace
    ensures CloseHasReason(r)
  {
    ReasonStays(s, r);
  }

  lemma {:induction false} HandleCurrentReason(s: Conn)
    requires s.cur.Some? && 0 < s.maxIov && CloseHasReason(s)
    ensures CloseHasReason(HandleCurrent(s))
    decreases GroupCount(s.coord.window), 2
  {
    hide CloseHasReason;
    if s.next >= |s.cur.value.items| && s.cur.value.notificator.None? {
      AfterNotificationReason(s);
    } else {
      SameReason(s, HandleCurrent(s));
    }
  }

  lemma {:induction false} AfterNotificationReason(s: Conn)
    requires 0 < s.maxIov && CloseHasReason(s)
    ensures CloseHasReason(AfterNotification(s))
    decreases GroupCount(s.coord.window), 1
  {
    hide Follows, CloseHasReason;
    var t := s.(cur := None, next := 0, phase := Idle);
    SameReason(s, t);
    if t.coord.closed {
      CloseReason(t);
    } else {
      InitWriteReason(t);
    }
  }

  lemma AcceptReason(s: Conn, c: State, id: RequestId, flags: Flags, g: Group)
    requires CloseHasReason(s) && Append(s.coord, id, flags, g) == Ok(c)
    ensures CloseHasReason(s.(coord := c, trace := s.trace + [Accepted(id, flags, g.items, g.notificator)]))
  {
    var tr := s.trace + [Accepted(id, flags, g.items, g.notificator)];
    var j := Find(s.coord.window, id).value;
    if CloseAsked(s.trace) {
      CloseAskedGrows(s.trace, tr);
    }
    forall k | 0 <= k < |c.window| && c.window[k].flags == Flags(true, true) ensures CloseAsked(tr) {
      if k == j {
        assert tr[|s.trace|].flags == flags;
      } else {
        assert s.coord.window[k] == c.window[k];
      }
    }
  }

  lemma WritePartsReason(s: Conn, id: RequestId, flags: Flags, items: seq<Item>, size: nat, notify: bool)
    requires 0 < s.maxIov && CloseHasReason(s)
    ensures CloseHasReason(WritePartsStep(s, id, flags, items, size, notify))
  {
    hide CloseHasReason, Append, InitWrite, Close, Fire, Firings, Follows;
    var t := Submit(s, notify);
    var g := Group(items, size, NewToken(s, notify));
    SameReason(s, t);
    if !s.open || s.coord.closed {
      SameReason(t, Refuse(t, g.notificator, NotExecuted));
    } else {
      match Append(s.coord, id, flags, g)
      case Err(_) =>
        var r := Refuse(t, g.notificator, DestroyedPassively);
        SameReason(t, r);
        SameReason(r, r.(unwinding := r.unwinding + 1));
        CloseReason(r);
      case Ok(c) =>
        AcceptReason(t, c, id, flags, g);
        AppendLeavesOpen(s.coord, id, flags, g);
        if s.cur.None? {
          InitWriteReason(t.(coord := c, trace := t.trace + [Accepted(id, flags, items, g.notificator)]));
        }
    }
  }

  lemma NextReason(s: Conn, step: Step)
    requires 0 < s.maxIov && CloseHasReason(s)
    ensures CloseHasReason(Next(s, step))
  {
    if Enabled(s, step) {
      match step {
        case RegisterRequest =>
          if Register(s.coord).Ok? {
            RegisterReason(s);
          } else {
            CloseReason(s);
          }
        case WriteParts(id, flags, items, size, notify) => WritePartsReason(s, id, flags, items, size, notify);
        case _ => OtherReason(s, step);
      }
    }
  }

  lemma RegisterReason(s: Conn)
    requires 0 < s.maxIov && CloseHasReason(s) && Register(s.coord).Ok?
    ensures CloseHasReason(Next(s, RegisterRequest))
  {
    hide CloseAsked;
    var r := Next(s, RegisterRequest);
    forall k | 0 <= k < |r.coord.window| && r.coord.window[k].flags == Flags(true, true)
      ensures exists m :: 0 <= m < |s.coord.window| && s.coord.window[m].flags == r.coord.window[k].flags
    {
      assert s.coord.window[k] == r.coord.window[k];
    }
    ReasonStays(s, r);
  }

  lemma OtherReason(s: Conn, step: Step)
    requires 0 < s.maxIov && CloseHasReason(s) && Enabled(s, step) && !step.RegisterRequest? && !step.WriteParts?
    ensures CloseHasReason(Next(s, step))
  {
    hide CloseHasReason, HandleCurrent, AfterNotification, Close, Fire, Firings, Follows;
    match step {
      case WriteDone =>
        var t := s.(inflight := [], trace := s.trace + [Sent(s.inflight)]);
        SameReason(s, t);
        HandleCurrentReason(t);
      case WriteFailed(threw) =>
        CloseReason(s);
        CloseKeepsGroup(s);
        SameReason(Close(s), FailCurrent(Close(s), threw));
      case WriteAborted(threw) => SameReason(s, FailCurrent(s, threw));
      case NotificatorReturned(threw) =>
        var t := s.(cur := None, next := 0, phase := Idle);
        SameReason(s, t);
        CloseReason(t);
        AfterNotificationReason(s);
      case ExceptionHandled =>
        SameReason(s, s.(unwinding := s.unwinding - 1));
        CloseReason(s.(unwinding := s.unwinding - 1));
      case CloseRequested => CloseReason(s);
      case Destroyed => DestroyReason(s);
    }
  }

  lemma CloseKeepsGroup(s: Conn)
    ensures Close(s).cur == s.cur
  {}

  lemma DestroyReason(s: Conn)
    requires 0 < s.maxIov && CloseHasReason(s) && Enabled(s, Destroyed)
    ensures CloseHasReason(Next(s, Destroyed))
  {
    hide CloseAsked, Fire, QueuedTokens;
    ReasonStays(s, Next(s, Destroyed));
  }

  lemma {:induction false} ReachableReason(capacity: nat, maxIov: nat, steps: seq<Step>, s: Conn)
    requires Reaches(capacity, maxIov, steps, s)
    ensures CloseHasReason(s)
  {
    if steps != [] {
      hide Next, Run, CloseHasReason;
      var t := RunBefore(capacity, maxIov, steps, s);
      ReachableReason(capacity, maxIov, steps[..|steps| - 1], t);
      ReachableMaxIov(capacity, maxIov, steps[..|steps| - 1], t);
      NextReason(t, steps[|steps| - 1]);
    }
  }

  /** A keep-alive connection stays open: without a cause and without a final part that asks to close,
      the socket is open at the end of the run. */
  lemma KeepAliveStaysOpen(capacity: nat, maxIov: nat, steps: seq<Step>, s: Conn)
    requires Reaches(capacity, maxIov, steps, s)
    ensures !SomeCause(capacity, maxIov, steps) && !CloseAsked(s.trace) ==> s.open
  {
    hide Run, SomeCause, CloseAsked;
    SocketClosesExactly(capacity, maxIov, steps, s);
    ReachableReason(capacity, maxIov, steps, s);
  }

  /** The response asks to close the connection, and it and all older ones are complete. */
  ghost predicate CloseIsDue(tr: Trace, id: RequestId) {
    LastFlags(tr, id).close && forall i :: 0 <= i <= id ==> LastFlags(tr, i).final
  }

  /** A connection-close response is carried out: when it and all older ones have their final parts,
      every state at rest has a closed socket. (And completions alone lead to rest: CompletionsDrain.) */
  lemma CloseResponseIsCarriedOut(capacity: nat, maxIov: nat, steps: seq<Step>, s: Conn, id: RequestId)
    requires Reaches(capacity, maxIov, steps, s)
    ensures s.phase == Idle && id < s.coord.registered && CloseIsDue(s.trace, id) ==> !s.open
  {
    hide Run, LastFlags, Inv;
    ClosedInTime(capacity, maxIov, steps, s);
    ReachableInv(capacity, maxIov, steps, s);
    ReachableFlags(capacity, maxIov, steps, s);
    ReachableServes(capacity, maxIov, steps, s);
    InvBasics(s);
    if s.open && s.phase == Idle && id < s.coord.registered && CloseIsDue(s.trace, id) {
      NotStuck(s.trace, s.coord, id);
    }
  }

  lemma NotStuck(tr: Trace, c: State, id: RequestId)
    requires Consistent(c) && FlagsKnown(tr, c) && id < c.registered && (c.window == [] || c.window[0].groups == [])
    requires CloseIsDue(tr, id)
    ensures c.closed
  {
    hide LastFlags;
    if c.window != [] {
      FrontFlags(tr, c);
    }
  }

  lemma FrontFlags(tr: Trace, c: State)
    requires Consistent(c) && FlagsKnown(tr, c) && c.window != []
    ensures c.window[0].flags == LastFlags(tr, Base(c))
  {
    hide LastFlags;
    assert c.window[0].flags == LastFlags(tr, Base(c) + 0);
  }

  // ---------------------------------------------------------------------------------------------
  // Refused parts.

  /** A part refused by an open connection brings it down: once no exception is on its way to the
      handler any more, the socket is closed. */
  lemma {:induction false} RefusedPartCloses(capacity: nat, maxIov: nat, steps: seq<Step>, s: Conn, k: nat)
    requires Reaches(capacity, maxIov, steps, s)
    requires k < |steps| && Refused(Run(Start(capacity, maxIov), steps[..k]), steps[k])
    ensures s.unwinding == 0 ==> !s.open
    decreases |steps|
  {
    hide Next, Run, Refused;
    var init := steps[..|steps| - 1];
    var t := RunBefore(capacity, maxIov, steps, s);
    ClosedInTime(capacity, maxIov, init, t);
    NextLifetime(capacity, maxIov, init, t, steps[|steps| - 1]);
    if k < |init| {
      assert init[..k] == steps[..k] && init[k] == steps[k];
      RefusedPartCloses(capacity, maxIov, init, t, k);
      ReachableMaxIov(capacity, maxIov, init, t);
      NeverReopened(t, steps[|steps| - 1]);
    }
  }

  // ---------------------------------------------------------------------------------------------
  // What the status tells.

  /** Why a notificator may be told a status in this step. */
  ghost predicate StatusFits(s: Conn, step: Step, r: Conn, f: Firing) {
    match f.status
    case Success => step.WriteDone? || step.WriteParts? || step.NotificatorReturned?
    case WriteError => (step.WriteFailed? || step.WriteAborted?) && f.token in CurrentTokens(s.cur)
    case NotExecuted =>
      || (!r.open && (f.token in QueuedTokens(s.coord.window) || step.WriteDone? || step.WriteParts? || step.NotificatorReturned?))
      || (step.WriteParts? && s.coord.closed && f.token == s.submitted)
    case DestroyedPassively =>
      || (step.Destroyed? && f.token in QueuedTokens(s.coord.window))
      || (Refused(s, step) && f.token == s.submitted)
  }

  /** In every run the status handed to a notificator tells what happened to its group: the write of
      the current group failed, the connection went down or was closing before the group was written,
      the coordinator refused it, or the connection was destroyed with the group still queued. (What
      success tells is SuccessMeansWritten; that every notificator is told once, NotifiedExactlyOnce.) */
  lemma StatusTellsTheCause(capacity: nat, maxIov: nat, steps: seq<Step>, s: Conn, step: Step, p: nat)
    requires Reaches(capacity, maxIov, steps, s)
    requires var r := Next(s, step); |s.trace| <= p < |r.trace| && r.trace[p].Fired?
    ensures StatusFits(s, step, Next(s, step), Next(s, step).trace[p].firing)
  {
    hide Run;
    ReachableInv(capacity, maxIov, steps, s);
    InvBasics(s);
    hide Inv;
    if step.WriteParts? {
      TakenExactly(capacity, maxIov, steps, s, step);
      PartsStatus(s, step, p);
    } else {
      OtherStatus(s, step, p);
    }
  }

  lemma PartsStatus(s: Conn, step: Step, p: nat)
    requires 0 < s.maxIov && step.WriteParts?
    requires Taken(s, step) <==> s.open && !s.coord.closed && Awaited(s.trace, step.id)
    requires var r := Next(s, step); |s.trace| <= p < |r.trace| && r.trace[p].Fired?
    ensures StatusFits(s, step, Next(s, step), Next(s, step).trace[p].firing)
  {
    hide Follows, InitWrite, Append, Awaited, QueuedTokens;
    var t := Submit(s, step.notify);
    var g := Group(step.items, step.statusLineSize, NewToken(s, step.notify));
    if Taken(s, step) {
      AppendLeavesOpen(s.coord, step.id, step.flags, g);
      if s.cur.None? {
        InitWriteCalls(t.(coord := Append(s.coord, step.id, step.flags, g).value,
                          trace := t.trace + [Accepted(step.id, step.flags, step.items, g.notificator)]));
      }
    }
  }

  lemma OtherStatus(s: Conn, step: Step, p: nat)
    requires 0 < s.maxIov && !step.WriteParts?
    requires var r := Next(s, step); |s.trace| <= p < |r.trace| && r.trace[p].Fired?
    ensures StatusFits(s, step, Next(s, step), Next(s, step).trace[p].firing)
  {
    hide Follows, HandleCurrent, AfterNotification, QueuedTokens;
    if Enabled(s, step) {
      match step
      case WriteDone => HandleCurrentCalls(s.(inflight := [], trace := s.trace + [Sent(s.inflight)]));
      case NotificatorReturned(threw) => if !threw { AfterNotificationCalls(s); }
      case _ =>
    }
  }
}
