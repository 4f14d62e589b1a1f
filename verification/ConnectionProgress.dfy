/** A connection never stalls: with ready data it is writing, and completions alone drain it. */
module ConnectionProgress {
  import opened Wrappers
  import opened Buffers
  import opened CoordinatorSpec
  import opened WriteOutput
  import opened ConnectionSpec
  import opened ConnectionHistory
  import opened ConnectionInvariant
  import opened ConnectionTheorems
  import opened ConnectionClosing

  /** An idle connection has nothing it could send. */
  ghost predicate NoReadyData(s: Conn) {
    s.open && s.phase == Idle && !s.coord.closed ==> s.coord.window == [] || s.coord.window[0].groups == []
  }

  lemma {:induction false} InitWriteServes(s: Conn)
    requires !s.coord.closed && 0 < s.maxIov && s.phase == Idle
    ensures NoReadyData(InitWrite(s))
    decreases GroupCount(s.coord.window), 0
  {
    var p := Pop(s.coord).value;
    if p.ready.Some? {
      PopShrinks(s.coord);
      HandleCurrentServes(s.(coord := p.state, cur := Some(p.ready.value.0)));
    }
  }

  lemma {:induction false} HandleCurrentServes(s: Conn)
    requires s.cur.Some? && 0 < s.maxIov
    ensures NoReadyData(HandleCurrent(s))
    decreases GroupCount(s.coord.window), 2
  {
    if s.next >= |s.cur.value.items| && s.cur.value.notificator.None? {
      AfterNotificationServes(s);
    }
  }

  lemma {:induction false} AfterNotificationServes(s: Conn)
    requires 0 < s.maxIov
    ensures NoReadyData(AfterNotification(s))
    decreases GroupCount(s.coord.window), 1
  {
    if !s.coord.closed {
      InitWriteServes(s.(cur := None, next := 0, phase := Idle));
    }
  }

  lemma DeliverServes(s: Conn, id: RequestId, flags: Flags, g: Group)
    requires 0 < s.maxIov && NoReadyData(s) && (s.phase == Idle <==> s.cur.None?)
    ensures NoReadyData(Deliver(s, id, flags, g))
  {
    var r := Append(s.coord, id, flags, g);
    if s.open && !s.coord.closed && r.Ok? && s.cur.None? {
      InitWriteServes(s.(coord := r.value, trace := s.trace + [Accepted(id, flags, g.items, g.notificator)]));
    }
  }

  lemma NextServes(s: Conn, step: Step)
    requires Inv(s) && NoReadyData(s)
    ensures NoReadyData(Next(s, step))
  {
    hide HandleCurrent, AfterNotification, Deliver, Follows, Core, Close;
    assert 0 < s.maxIov by { InvBasics(s); }
    if Enabled(s, step) {
      match step {
        case WriteParts(id, flags, items, size, notify) =>
          DeliverServes(Submit(s, notify), id, flags, Group(items, size, NewToken(s, notify)));
        case WriteDone => HandleCurrentServes(s.(inflight := [], trace := s.trace + [Sent(s.inflight)]));
        case NotificatorReturned(threw) =>
          if threw {
            CloseShuts(s.(cur := None, next := 0, phase := Idle));
          } else {
            AfterNotificationServes(s);
          }
        case RegisterRequest =>
          if Register(s.coord).Err? {
            CloseShuts(s);
          }
        case _ => ClosedSteps(s, step);
      }
    }
  }

  lemma {:induction false} ReachableServes(capacity: nat, maxIov: nat, steps: seq<Step>, s: Conn)
    requires Reaches(capacity, maxIov, steps, s)
    ensures NoReadyData(s)
  {
    if steps != [] {
      hide NoReadyData, Inv;
      var init := steps[..|steps| - 1];
      var t := Run(Start(capacity, maxIov), init);
      ReachableServes(capacity, maxIov, init, t);
      ReachableInv(capacity, maxIov, init, t);
      NextServes(t, steps[|steps| - 1]);
    }
  }

  /** When every registered request has its final part and the connection is open and idle, all
      accepted items have been sent, in request order. */
  lemma IdleMeansDelivered(capacity: nat, maxIov: nat, steps: seq<Step>, s: Conn)
    requires Reaches(capacity, maxIov, steps, s) && s.open && s.phase == Idle && !s.coord.closed
    requires forall id :: 0 <= id < s.coord.registered ==> LastFlags(s.trace, id).final
    ensures SentItems(s.trace) == Stream(s.trace, s.coord.registered)
  {
    ReachableInv(capacity, maxIov, steps, s);
    ReachableServes(capacity, maxIov, steps, s);
    ReachableFlags(capacity, maxIov, steps, s);
    AllFinalMeansEmpty(s.trace, s.coord);
    ResponsesInRequestOrder(capacity, maxIov, steps, s);
  }

  lemma AllFinalMeansEmpty(tr: Trace, c: State)
    requires Consistent(c) && FlagsKnown(tr, c) && (c.window == [] || c.window[0].groups == [])
    requires forall id :: 0 <= id < c.registered ==> LastFlags(tr, id).final
    ensures c.window == []
  {}

  // ---------------------------------------------------------------------------------------------
  // Completions alone drain the connection.

  function GroupWeight(groups: seq<Group>): nat {
    if groups == [] then 0 else 1 + |groups[0].items| + GroupWeight(groups[1..])
  }

  function Weight(window: seq<Context>): nat {
    if window == [] then 0 else GroupWeight(window[0].groups) + Weight(window[1..])
  }

  /** Items and groups that still have to go out. */
  function Work(s: Conn): nat { |Unsent(s.cur, s.next)| + Weight(s.coord.window) }

  lemma PopWeight(c: State)
    requires !c.closed && Pop(c).value.ready.Some?
    ensures Weight(c.window) == 1 + |Pop(c).value.ready.value.0.items| + Weight(Pop(c).value.state.window)
  {
    var p := Pop(c).value;
    var w := c.window;
    assert Weight(w) == GroupWeight(w[0].groups) + Weight(w[1..]);
    if |p.state.window| == |w| {
      assert p.state.window[1..] == w[1..];
    } else {
      assert w[0].groups[1..] == [];
    }
  }

  /** Starting something new costs work; coming to rest does not add any. */
  ghost predicate Cheaper(s: Conn, r: Conn) {
    Work(r) <= Work(s) && (r.phase == Idle || Work(r) < Work(s))
  }

  lemma {:induction false} InitWriteCheaper(s: Conn)
    requires !s.coord.closed && 0 < s.maxIov && s.cur.None? && s.next == 0 && s.phase == Idle
    ensures Cheaper(s, InitWrite(s))
    decreases GroupCount(s.coord.window), 0
  {
    var p := Pop(s.coord).value;
    if p.ready.Some? {
      PopShrinks(s.coord);
      PopWeight(s.coord);
      var t := s.(coord := p.state, cur := Some(p.ready.value.0));
      assert Work(t) < Work(s);
      HandleCurrentCheaper(t);
    }
  }

  lemma {:induction false} HandleCurrentCheaper(s: Conn)
    requires s.cur.Some? && 0 < s.maxIov && s.next <= |s.cur.value.items|
    ensures var r := HandleCurrent(s); Work(r) <= Work(s) && (r.phase == Writing ==> Work(r) < Work(s))
    decreases GroupCount(s.coord.window), 2
  {
    var items := s.cur.value.items;
    if s.next == |items| && s.cur.value.notificator.None? {
      AfterNotificationCheaper(s);
    }
  }

  lemma {:induction false} AfterNotificationCheaper(s: Conn)
    requires 0 < s.maxIov
    ensures Cheaper(s, AfterNotification(s))
    decreases GroupCount(s.coord.window), 1
  {
    var t := s.(cur := None, next := 0, phase := Idle);
    assert Work(t) <= Work(s);
    if !t.coord.closed {
      InitWriteCheaper(t);
    }
  }

  /** The completion the connection is waiting for. */
  function Completion(s: Conn): Step {
    if s.phase == Writing then WriteDone else NotificatorReturned(false)
  }

  function Rank(p: Phase): nat { match p case Idle => 0 case Notifying => 1 case Writing => 2 }

  /** Every awaited completion brings the connection closer to rest. */
  lemma CompletionMakesProgress(s: Conn)
    requires Inv(s) && s.phase != Idle
    ensures var r := Next(s, Completion(s)); Work(r) < Work(s) || (Work(r) == Work(s) && Rank(r.phase) < Rank(s.phase))
  {
    hide Follows, HandleCurrent, AfterNotification, Ordered, CurrentMarked, TokensConserved, TokensFresh, SuccessesAreTrue, Consistent;
    if s.phase == Writing {
      HandleCurrentCheaper(s.(inflight := [], trace := s.trace + [Sent(s.inflight)]));
    } else {
      AfterNotificationCheaper(s);
    }
  }

  /** From every reachable state the awaited completions, finitely many, lead to an idle state. */
  lemma {:induction false} CompletionsDrain(capacity: nat, maxIov: nat, steps: seq<Step>, s: Conn) returns (more: seq<Step>)
    requires Reaches(capacity, maxIov, steps, s)
    ensures forall i :: 0 <= i < |more| ==> more[i] == WriteDone || more[i] == NotificatorReturned(false)
    ensures Run(Start(capacity, maxIov), steps + more).phase == Idle
    decreases Work(s), Rank(s.phase)
  {
    hide Inv, Work, Rank;
    if s.phase == Idle {
      more := [];
      assert steps + more == steps;
    } else {
      ReachableInv(capacity, maxIov, steps, s);
      CompletionMakesProgress(s);
      var c := Completion(s);
      var next := steps + [c];
      assert next[..|next| - 1] == steps;
      var r := Next(s, c);
      CompletionsRegisterNothing(s);
      var rest := CompletionsDrain(capacity, maxIov, next, r);
      more := [c] + rest;
      assert steps + more == next + rest;
    }
  }

  lemma CompletionsRegisterNothing(s: Conn)
    requires Inv(s)
    ensures Next(s, Completion(s)).coord.registered == s.coord.registered
  {}
}
