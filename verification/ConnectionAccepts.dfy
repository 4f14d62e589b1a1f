/** Which parts of responses a connection accepts, in every run, stated on the trace. */
module ConnectionAccepts {
  import opened Wrappers
  import opened Buffers
  import opened CoordinatorSpec
  import opened ConnectionSpec
  import opened ConnectionHistory
  import opened ConnectionInvariant
  import opened ConnectionTheorems
  import opened ConnectionClosing

  /** Nothing was accepted in between. */
  ghost predicate Silent(tr: Trace, more: Trace) {
    tr <= more && forall i :: |tr| <= i < |more| ==> !more[i].Accepted?
  }

  lemma {:induction false} SilentAccepts(tr: Trace, more: Trace, id: RequestId)
    requires Silent(tr, more)
    ensures AcceptedItems(more, id) == AcceptedItems(tr, id)
  {
    if |tr| < |more| {
      SilentAccepts(tr, Init(more), id);
    } else {
      assert more == tr;
    }
  }

  /** Nothing but calls of notificators in between: successes, and the news that a part was not
      written if the socket went down. */
  ghost predicate OnlyCalls(s: Conn, r: Conn) {
    s.trace <= r.trace && forall i :: |s.trace| <= i < |r.trace| ==> CallsWith(r.trace[i], !r.open)
  }

  predicate CallsWith(e: Event, down: bool) {
    e.Fired? && (e.firing.status == Success || (down && e.firing.status == NotExecuted))
  }

  lemma {:induction false} InitWriteCalls(s: Conn)
    requires !s.coord.closed && 0 < s.maxIov
    ensures OnlyCalls(s, InitWrite(s))
    decreases GroupCount(s.coord.window), 0
  {
    hide Follows;
    var p := Pop(s.coord).value;
    if p.ready.Some? {
      PopShrinks(s.coord);
      HandleCurrentCalls(s.(coord := p.state, cur := Some(p.ready.value.0)));
    }
  }

  lemma {:induction false} HandleCurrentCalls(s: Conn)
    requires s.cur.Some? && 0 < s.maxIov
    ensures OnlyCalls(s, HandleCurrent(s))
    decreases GroupCount(s.coord.window), 2
  {
    hide Follows;
    if s.next >= |s.cur.value.items| && s.cur.value.notificator.None? {
      AfterNotificationCalls(s);
    }
  }

  lemma {:induction false} AfterNotificationCalls(s: Conn)
    requires 0 < s.maxIov
    ensures OnlyCalls(s, AfterNotification(s))
    decreases GroupCount(s.coord.window), 1
  {
    hide Follows;
    if !s.coord.closed {
      InitWriteCalls(s.(cur := None, next := 0, phase := Idle));
    }
  }

  /** The coordinator takes the part. */
  predicate Taken(s: Conn, step: Step)
    requires step.WriteParts?
  {
    && s.open && !s.coord.closed
    && Append(s.coord, step.id, step.flags, Group(step.items, step.statusLineSize, NewToken(s, step.notify))).Ok?
  }

  lemma StepSilent(s: Conn, step: Step)
    requires 0 < s.maxIov && (step.WriteParts? ==> !Taken(s, step))
    ensures Silent(s.trace, Next(s, step).trace)
  {
    hide Follows, HandleCurrent, AfterNotification, InitWrite, Append;
    if Enabled(s, step) {
      match step
      case WriteDone => HandleCurrentCalls(s.(inflight := [], trace := s.trace + [Sent(s.inflight)]));
      case NotificatorReturned(threw) => if !threw { AfterNotificationCalls(s); }
      case _ =>
    }
  }

  lemma StepTakes(s: Conn, step: Step, id: RequestId)
    requires 0 < s.maxIov && step.WriteParts? && Taken(s, step)
    ensures AcceptedItems(Next(s, step).trace, id) == AcceptedItems(s.trace, id) + if step.id == id then step.items else []
  {
    hide Follows, InitWrite, Append;
    var t := Submit(s, step.notify);
    var g := Group(step.items, step.statusLineSize, NewToken(s, step.notify));
    var e := Accepted(step.id, step.flags, step.items, g.notificator);
    var u := t.(coord := Append(s.coord, step.id, step.flags, g).value, trace := t.trace + [e]);
    SilentAccepts(s.trace, t.trace, id);
    Snoc(t.trace, e);
    AppendLeavesOpen(s.coord, step.id, step.flags, g);
    if s.cur.None? {
      InitWriteCalls(u);
      SilentAccepts(u.trace, InitWrite(u).trace, id);
    }
  }

  /** The items of the parts for one request that were taken, in the order of the calls. */
  function TakenItems(start: Conn, steps: seq<Step>, id: RequestId): seq<Item>
    requires 0 < start.maxIov
  {
    if steps == [] then []
    else
      var init := steps[..|steps| - 1];
      var last := steps[|steps| - 1];
      TakenItems(start, init, id)
      + if last.WriteParts? && last.id == id && Taken(Run(start, init), last) then last.items else []
  }

  /** In every run the accepted items of a request are exactly those of the parts that were taken. */
  lemma {:induction false} AcceptedAreTaken(capacity: nat, maxIov: nat, steps: seq<Step>, id: RequestId)
    requires 0 < maxIov
    ensures AcceptedItems(Run(Start(capacity, maxIov), steps).trace, id) == TakenItems(Start(capacity, maxIov), steps, id)
  {
    if steps != [] {
      hide AcceptedItems, Next, Taken;
      var init := steps[..|steps| - 1];
      var last := steps[|steps| - 1];
      AcceptedAreTaken(capacity, maxIov, init, id);
      var s := Run(Start(capacity, maxIov), init);
      if last.WriteParts? && Taken(s, last) {
        StepTakes(s, last, id);
      } else {
        StepSilent(s, last);
        SilentAccepts(s.trace, Next(s, last).trace, id);
      }
    } else {
      assert AcceptedItems([], id) == [];
    }
  }

  // ---------------------------------------------------------------------------------------------
  // Exactly which parts are taken.

  /** The ids of the table are those registered in the trace. */
  ghost predicate IdsKnown(s: Conn) {
    forall id :: 0 <= id ==> (Registered(id) in s.trace <==> id < s.coord.registered)
  }

  lemma StepRegisters(s: Conn, step: Step)
    requires 0 < s.maxIov && !step.RegisterRequest?
    ensures forall id :: Registered(id) in Next(s, step).trace <==> Registered(id) in s.trace
    ensures Next(s, step).coord.registered == s.coord.registered
  {
    hide Follows, HandleCurrent, AfterNotification, InitWrite, Append;
    assert s.trace <= Next(s, step).trace by { StepFollows(s, step); }
    if Enabled(s, step) {
      match step
      case WriteDone => HandleCurrentCalls(s.(inflight := [], trace := s.trace + [Sent(s.inflight)]));
      case NotificatorReturned(threw) => if !threw { AfterNotificationCalls(s); }
      case WriteParts(id, flags, items, size, notify) =>
        var t := Submit(s, notify);
        var g := Group(items, size, NewToken(s, notify));
        if Taken(s, step) && s.cur.None? {
          AppendLeavesOpen(s.coord, id, flags, g);
          InitWriteCalls(t.(coord := Append(s.coord, id, flags, g).value, trace := t.trace + [Accepted(id, flags, items, g.notificator)]));
        }
        AppendRegistersNothing(s.coord, id, flags, g);
      case _ =>
    }
  }

  lemma AppendRegistersNothing(c: State, id: RequestId, flags: Flags, g: Group)
    ensures Append(c, id, flags, g).Ok? ==> Append(c, id, flags, g).value.registered == c.registered
  {}

  lemma StepFollows(s: Conn, step: Step)
    requires 0 < s.maxIov
    ensures s.trace <= Next(s, step).trace
  {}

  lemma {:induction false} ReachableIds(capacity: nat, maxIov: nat, steps: seq<Step>, s: Conn)
    requires Reaches(capacity, maxIov, steps, s)
    ensures IdsKnown(s)
  {
    if steps != [] {
      var init := steps[..|steps| - 1];
      var step := steps[|steps| - 1];
      var t := Run(Start(capacity, maxIov), init);
      ReachableIds(capacity, maxIov, init, t);
      if !step.RegisterRequest? {
        hide Next, Run;
        StepRegisters(t, step);
      } else {
        hide Run;
        RegisterIds(t);
      }
    }
  }

  lemma RegisterIds(s: Conn)
    requires 0 < s.maxIov && IdsKnown(s) && Next(s, RegisterRequest).coord.registered <= ID_LIMIT
    ensures IdsKnown(Next(s, RegisterRequest))
  {
    var r := Next(s, RegisterRequest);
    if Register(s.coord).Ok? {
      ModSmall(s.coord.registered);
    }
  }

  /** The response has been registered and is not finished, read off the trace. */
  predicate Awaited(tr: Trace, id: RequestId) { Registered(id) in tr && !LastFlags(tr, id).final }

  lemma TakenExactly(capacity: nat, maxIov: nat, steps: seq<Step>, s: Conn, step: Step)
    requires Reaches(capacity, maxIov, steps, s) && step.WriteParts?
    ensures Taken(s, step) <==> s.open && !s.coord.closed && Awaited(s.trace, step.id)
  {
    hide Run, Inv, Append, FlagsKnown, Consistent, IdsKnown;
    ReachableInv(capacity, maxIov, steps, s);
    ReachableFlags(capacity, maxIov, steps, s);
    ReachableIds(capacity, maxIov, steps, s);
    InvBasics(s);
    if s.open && !s.coord.closed {
      AppendExactly(s.coord, step.id, step.flags, Group(step.items, step.statusLineSize, NewToken(s, step.notify)));
      AwaitedInTable(s, step.id);
    }
  }

  /** Finished requests have left the table or are marked final in it. */
  lemma AwaitedInTable(s: Conn, id: RequestId)
    requires Consistent(s.coord) && FlagsKnown(s.trace, s.coord) && IdsKnown(s)
    ensures Awaited(s.trace, id) <==>
            Base(s.coord) <= id < s.coord.registered && !s.coord.window[id - Base(s.coord)].flags.final
  {
    hide LastFlags;
    if Base(s.coord) <= id < s.coord.registered {
      var k := id - Base(s.coord);
      assert s.coord.window[k].flags == LastFlags(s.trace, Base(s.coord) + k);
    }
  }

  /** A part is accepted if and only if the connection is open, no close response has been handed over
      and its request is registered and unfinished, whatever the older requests are doing: then its
      event follows at once, otherwise no part is accepted in this step. */
  lemma PartIsAcceptedExactly(capacity: nat, maxIov: nat, steps: seq<Step>, s: Conn, step: Step)
    requires Reaches(capacity, maxIov, steps, s) && step.WriteParts?
    ensures var r := Next(s, step);
            if s.open && !s.coord.closed && Awaited(s.trace, step.id) then
              AcceptedNext(s, r, Accepted(step.id, step.flags, step.items, NewToken(s, step.notify)))
            else Silent(s.trace, r.trace)
  {
    TakenExactly(capacity, maxIov, steps, s, step);
    if Taken(s, step) {
      hide Run;
      StepAccepts(s, step);
    } else {
      StepSilent(s, step);
    }
  }

  /** The step accepted exactly one part, at the place `p` of the trace. */
  ghost predicate AcceptedNext(s: Conn, r: Conn, e: Event) {
    exists p: nat :: AcceptedAt(s.trace, r.trace, p, e)
  }

  ghost predicate AcceptedAt(tr: Trace, more: Trace, p: nat, e: Event) {
    && tr <= more && |tr| <= p < |more| && more[p] == e
    && forall i :: |tr| <= i < |more| && i != p ==> !more[i].Accepted?
  }

  lemma StepAccepts(s: Conn, step: Step)
    requires 0 < s.maxIov && step.WriteParts? && Taken(s, step)
    ensures AcceptedNext(s, Next(s, step), Accepted(step.id, step.flags, step.items, NewToken(s, step.notify)))
  {
    hide Follows, InitWrite, Append;
    var t := Submit(s, step.notify);
    var g := Group(step.items, step.statusLineSize, NewToken(s, step.notify));
    var e := Accepted(step.id, step.flags, step.items, g.notificator);
    var u := t.(coord := Append(s.coord, step.id, step.flags, g).value, trace := t.trace + [e]);
    AppendLeavesOpen(s.coord, step.id, step.flags, g);
    var r := Next(s, step);
    if s.cur.None? {
      InitWriteCalls(u);
      assert r == InitWrite(u);
    } else {
      assert r == u;
    }
    assert AcceptedAt(s.trace, r.trace, |t.trace|, e);
  }

  // ---------------------------------------------------------------------------------------------
  // Nothing after the final part.

  lemma {:induction false} LastFlagsAre(tr: Trace, p: nat)
    requires p < |tr| && tr[p].Accepted?
    requires forall q :: p < q < |tr| && tr[q].Accepted? ==> tr[q].req != tr[p].req
    ensures LastFlags(tr, tr[p].req) == tr[p].flags
  {
    if p < |tr| - 1 {
      assert Init(tr)[p] == tr[p];
      forall q | p < q < |Init(tr)| && Init(tr)[q].Accepted? ensures Init(tr)[q].req != tr[p].req {
        assert tr[q] == Init(tr)[q];
      }
      LastFlagsAre(Init(tr), p);
    }
  }

  /** Once the final part of a response has been accepted, no other part of it ever is. */
  lemma {:induction false} NothingAfterTheFinalPart(capacity: nat, maxIov: nat, steps: seq<Step>, s: Conn, p: nat, q: nat)
    requires Reaches(capacity, maxIov, steps, s)
    requires p < q < |s.trace| && s.trace[p].Accepted? && s.trace[q].Accepted? && s.trace[p].req == s.trace[q].req
    ensures !s.trace[p].flags.final
    decreases |steps|
  {
    if steps != [] {
      hide Next, Run, LastFlags, Follows;
      var init := steps[..|steps| - 1];
      var step := steps[|steps| - 1];
      var t := RunBefore(capacity, maxIov, steps, s);
      StepFollows(t, step);
      if q < |t.trace| {
        NothingAfterTheFinalPart(capacity, maxIov, init, t, p, q);
      } else if step.WriteParts? {
        PartIsAcceptedExactly(capacity, maxIov, init, t, step);
        if s.trace[p].flags.final {
          assert p < |t.trace|;
          forall k | p < k < |t.trace| && t.trace[k].Accepted? ensures t.trace[k].req != t.trace[p].req {
            if t.trace[k].req == t.trace[p].req {
              NothingAfterTheFinalPart(capacity, maxIov, init, t, p, k);
            }
          }
          LastFlagsAre(t.trace, p);
        }
      } else {
        StepSilent(t, step);
      }
    }
  }

  /** The state before the last step. */
  lemma RunBefore(capacity: nat, maxIov: nat, steps: seq<Step>, s: Conn) returns (t: Conn)
    requires Reaches(capacity, maxIov, steps, s) && steps != []
    ensures Reaches(capacity, maxIov, steps[..|steps| - 1], t) && s == Next(t, steps[|steps| - 1])
    ensures t == Run(Start(capacity, maxIov), steps[..|steps| - 1])
  {
    t := Run(Start(capacity, maxIov), steps[..|steps| - 1]);
  }
}
