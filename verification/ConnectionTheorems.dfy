/** What holds of every run of a connection with at most 2^32 registered requests. */
module ConnectionTheorems {
  import opened Wrappers
  import opened Buffers
  import opened CoordinatorSpec
  import opened WriteOutput
  import opened ConnectionSpec
  import opened ConnectionHistory
  import opened ConnectionInvariant

  /** The state a fresh connection reaches by `steps`, and its one limit: ids have not wrapped. */
  ghost predicate Reaches(capacity: nat, maxIov: nat, steps: seq<Step>, s: Conn) {
    0 < maxIov && s == Run(Start(capacity, maxIov), steps) && s.coord.registered <= ID_LIMIT
  }

  lemma {:induction false} ReachableInv(capacity: nat, maxIov: nat, steps: seq<Step>, s: Conn)
    requires Reaches(capacity, maxIov, steps, s)
    ensures Inv(s)
  {
    hide Inv;
    if steps == [] {
      StartInv(capacity, maxIov);
    } else {
      var init := steps[..|steps| - 1];
      var t := Run(Start(capacity, maxIov), init);
      ReachableInv(capacity, maxIov, init, t);
      NextInv(t, steps[|steps| - 1]);
    }
  }

  /** The items still waiting in the coordinator, oldest request first. */
  function QueuedItems(window: seq<Context>): seq<Item> {
    if window == [] then [] else QueuedItems(window[..|window| - 1]) + Items(window[|window| - 1].groups)
  }

  /** Released output and queue together are the ideal output. */
  lemma {:induction false} QueueCompletesStream(tr: Trace, c: State, m: nat, n: nat)
    requires |c.window| <= c.registered && 0 < m <= |c.window| && QueuesLaid(tr, c, n) && OthersUntouched(tr, c)
    ensures Released(tr, c) + QueuedItems(c.window[..m]) == Stream(tr, Base(c) + m)
  {
    hide Laid, Residue, AcceptedItems;
    var k := m - 1;
    var w := c.window[..m];
    var a := AcceptedItems(tr, Base(c) + k);
    assert w[..k] == c.window[..k] && w[k] == c.window[k];
    LaidSplits(tr, Base(c) + k, c.window[k].groups, a, n);
    assert Stream(tr, Base(c) + m) == Stream(tr, Base(c) + k) + a;
    if k == 0 {
      assert QueuedItems(w) == Items(c.window[0].groups);
    } else {
      QueueCompletesStream(tr, c, k, n);
    }
  }

  lemma OrderedQueue(tr: Trace, c: State, open: bool, output: seq<Item>, n: nat)
    requires |c.window| <= c.registered && Ordered(tr, c, open, output, n)
    ensures open ==> output + QueuedItems(c.window) == Stream(tr, c.registered)
    ensures output <= Stream(tr, c.registered)
  {
    OrderedDrop(tr, c, open, output, n);
    if open && c.window != [] {
      QueueCompletesStream(tr, c, |c.window|, n);
      assert c.window[..|c.window|] == c.window;
    }
  }

  /** Responses leave in request order (section 6.3.2 of RFC 7230). While the socket is open, what
      was sent, what is being sent, what is left of the current group and what is queued make up
      exactly the accepted items in increasing request id; in every state, closed socket or not,
      what was sent is a prefix of that. */
  lemma ResponsesInRequestOrder(capacity: nat, maxIov: nat, steps: seq<Step>, s: Conn)
    requires Reaches(capacity, maxIov, steps, s)
    ensures s.open ==>
              SentItems(s.trace) + s.inflight + Unsent(s.cur, s.next) + QueuedItems(s.coord.window)
              == Stream(s.trace, s.coord.registered)
    ensures SentItems(s.trace) <= Stream(s.trace, s.coord.registered)
  {
    hide SentItems, Stream, QueuedItems, Run;
    ReachableInv(capacity, maxIov, steps, s);
    OrderedQueue(s.trace, s.coord, s.open, Output(s), s.submitted);
  }

  /** At most one group is in flight: a write operation is outstanding only for the current group,
      and a part written while a group is held, in particular by its own notificator, starts none. */
  lemma OneGroupInFlight(capacity: nat, maxIov: nat, steps: seq<Step>, s: Conn,
                         id: RequestId, flags: Flags, items: seq<Item>, size: nat, notify: bool)
    requires Reaches(capacity, maxIov, steps, s)
    ensures s.inflight != [] ==> s.phase == Writing && s.cur.Some?
    ensures s.phase != Idle ==>
              var t := Next(s, WriteParts(id, flags, items, size, notify));
              t.cur == s.cur && t.next == s.next && t.inflight == s.inflight && t.phase == s.phase
  {
    ReachableInv(capacity, maxIov, steps, s);
    hide Core, Run, Follows, Append, QueuedTokens, InitWrite;
  }

  /** `fail_write_group` leaves the item index behind, but no group is ever started with it: while
      the socket is open an idle connection has index 0. */
  lemma StaleIndexIsNeverUsed(capacity: nat, maxIov: nat, steps: seq<Step>, s: Conn)
    requires Reaches(capacity, maxIov, steps, s)
    ensures s.open && s.cur.None? ==> s.next == 0
    ensures s.cur.Some? ==> s.next <= |s.cur.value.items|
  {
    ReachableInv(capacity, maxIov, steps, s);
  }

  /** Each notificator fires at most once; once the socket is closed and no write is outstanding,
      every notificator ever submitted has fired exactly once. */
  lemma NotifiedExactlyOnce(capacity: nat, maxIov: nat, steps: seq<Step>, s: Conn, t: Token)
    requires Reaches(capacity, maxIov, steps, s)
    ensures FiredTokens(s.trace)[t] <= 1
    ensures FiredTokens(s.trace)[t] == 1 ==> t < s.submitted
    ensures !s.open && s.phase == Idle ==> FiredTokens(s.trace)[t] == if t < s.submitted then 1 else 0
    ensures t < s.submitted && FiredTokens(s.trace)[t] == 0 ==>
              t in CurrentTokens(s.cur) || t in QueuedTokens(s.coord.window)
  {
    ReachableInv(capacity, maxIov, steps, s);
    assert SubmittedTokens(s.trace)[t] == if t < s.submitted then 1 else 0;
    var held := multiset(CurrentTokens(s.cur)) + multiset(QueuedTokens(s.coord.window));
    assert FiredTokens(s.trace)[t] + held[t] == SubmittedTokens(s.trace)[t];
    if !s.open {
      DrainedHoldsNoTokens(s.coord.window);
    }
  }

  lemma {:induction false} DrainedHoldsNoTokens(window: seq<Context>)
    requires Drained(window)
    ensures QueuedTokens(window) == []
  {
    if window != [] {
      assert window[0].groups == [];
      DrainedHoldsNoTokens(window[1..]);
    }
  }

  lemma {:induction false} SuccessAt(tr: Trace, p: nat)
    requires SuccessesAreTrue(tr) && p < |tr| && tr[p].Fired? && tr[p].firing.status == Success
    ensures SentItems(tr[..p]) == OutputThrough(tr[..p], tr[p].firing.token)
  {
    if p < |tr| - 1 {
      SuccessAt(Init(tr), p);
      assert Init(tr)[..p] == tr[..p];
    }
  }

  /** A notificator reports success at the moment when the socket has taken exactly the smaller
      requests in full and its own request through its own group. */
  lemma SuccessMeansWritten(capacity: nat, maxIov: nat, steps: seq<Step>, s: Conn, p: nat)
    requires Reaches(capacity, maxIov, steps, s)
    requires p < |s.trace| && s.trace[p].Fired? && s.trace[p].firing.status == Success
    ensures SentItems(s.trace[..p]) == OutputThrough(s.trace[..p], s.trace[p].firing.token)
  {
    ReachableInv(capacity, maxIov, steps, s);
    SuccessAt(s.trace, p);
  }

  // ---------------------------------------------------------------------------------------------
  // Closing.

  /** What a connection may still do after its coordinator closed. */
  ghost predicate NothingNew(s: Conn, r: Conn) {
    SameAccepts(s.trace, r.trace) && Output(r) <= Output(s) && r.coord.closed
  }

  lemma NothingNewTransitive(s: Conn, m: Conn, r: Conn)
    requires NothingNew(s, m) && NothingNew(m, r)
    ensures NothingNew(s, r)
  {
    SameAcceptsTransitive(s.trace, m.trace, r.trace);
  }

  function Pending(s: Conn): seq<Item> { s.inflight + Unsent(s.cur, s.next) }

  lemma OutputSplits(s: Conn)
    ensures Output(s) == SentItems(s.trace) + Pending(s)
  {}

  /** Failures and notifications: nothing is accepted, and nothing but the pending items is sent. */
  lemma OnlyFirings(s: Conn, r: Conn, fired: seq<Firing>)
    requires r.trace == s.trace + Firings(fired) && r.coord.closed
    requires Pending(r) == Pending(s) || Pending(r) == []
    ensures NothingNew(s, r)
  {
    hide SentItems, SameAccepts, Output;
    LogFirings(s.trace, fired);
    OutputSplits(s);
    OutputSplits(r);
  }

  lemma OneEvent(s: Conn, r: Conn, e: Event)
    requires r.trace == s.trace + [e] && r.coord.closed && !e.Accepted?
    requires if e.Sent? then Pending(s) == e.data + Pending(r) else Pending(r) == Pending(s)
    ensures NothingNew(s, r)
  {
    hide Output, SameAccepts, Pending;
    Snoc(s.trace, e);
    SilentEvent(s.trace, e);
    OutputSplits(s);
    OutputSplits(r);
    assert SentItems(r.trace) == SentItems(s.trace) + if e.Sent? then e.data else [];
    if e.Sent? {
      assert Output(s) == SentItems(s.trace) + e.data + Pending(r);
    }
  }

  lemma ClosedClose(s: Conn)
    requires s.coord.closed
    ensures NothingNew(s, Close(s))
  {
    OnlyFirings(s, Close(s), Fire(QueuedTokens(s.coord.window), NotExecuted));
  }

  lemma ClosedFinish(s: Conn)
    requires s.coord.closed && 0 < s.maxIov && s.inflight == []
    ensures NothingNew(s, AfterNotification(s))
    ensures NothingNew(s, Close(s.(cur := None, next := 0, phase := Idle)))
  {
    hide NothingNew;
    var t := s.(cur := None, next := 0, phase := Idle);
    assert s.trace + Firings([]) == s.trace;
    OnlyFirings(s, t, []);
    ClosedClose(t);
    NothingNewTransitive(s, t, Close(t));
  }

  lemma ClosedHandle(s: Conn)
    requires s.coord.closed && 0 < s.maxIov && s.inflight == [] && s.cur.Some?
    ensures NothingNew(s, HandleCurrent(s))
  {
    hide NothingNew, OperationEnd, Follows;
    var r := HandleCurrent(s);
    var items := s.cur.value.items;
    if s.next < |items| {
      assert items[s.next..] == items[s.next..r.next] + items[r.next..];
      assert s.trace + Firings([]) == s.trace;
      OnlyFirings(s, r, []);
    } else if s.cur.value.notificator.Some? {
      OnlyFirings(s, r, [Firing(s.cur.value.notificator.value, Success)]);
    } else {
      ClosedFinish(s);
    }
  }

  lemma ClosedRefuse(s: Conn, id: RequestId, flags: Flags, items: seq<Item>, size: nat, notify: bool)
    requires s.coord.closed && 0 < s.maxIov
    ensures NothingNew(s, WritePartsStep(s, id, flags, items, size, notify))
  {
    hide NothingNew, Follows;
    var t := Submit(s, notify);
    var r := Refuse(t, NewToken(s, notify), NotExecuted);
    assert r == WritePartsStep(s, id, flags, items, size, notify);
    OnlyFirings(t, r, Fire(TokenSeq(NewToken(s, notify)), NotExecuted));
    if notify {
      OneEvent(s, t, Submitted(s.submitted));
      NothingNewTransitive(s, t, r);
    }
  }

  lemma ClosedStep(s: Conn, step: Step)
    requires s.coord.closed && 0 < s.maxIov && (s.phase == Notifying ==> s.inflight == [])
    ensures NothingNew(s, Next(s, step))
  {
    hide NothingNew, Follows, HandleCurrent, AfterNotification, WritePartsStep;
    var r := Next(s, step);
    if !Enabled(s, step) {
      assert s.trace + Firings([]) == s.trace;
      OnlyFirings(s, s, []);
    } else {
      match step {
        case RegisterRequest =>
          if Register(s.coord).Ok? {
            OneEvent(s, r, Registered(s.coord.registered % ID_LIMIT));
          } else {
            ClosedClose(s);
          }
        case WriteParts(id, flags, items, size, notify) => ClosedRefuse(s, id, flags, items, size, notify);
        case WriteDone =>
          var t := s.(inflight := [], trace := s.trace + [Sent(s.inflight)]);
          OneEvent(s, t, Sent(s.inflight));
          ClosedHandle(t);
          NothingNewTransitive(s, t, r);
        case WriteFailed(_) =>
          ClosedClose(s);
          OnlyFirings(Close(s), r, Fire(Tokens(s.cur.value), WriteError));
          NothingNewTransitive(s, Close(s), r);
        case WriteAborted(_) => OnlyFirings(s, r, Fire(Tokens(s.cur.value), WriteError));
        case NotificatorReturned(threw) => ClosedFinish(s);
        case ExceptionHandled => OnlyFirings(s, r, Fire(QueuedTokens(s.coord.window), NotExecuted));
        case CloseRequested => ClosedClose(s);
        case Destroyed => OnlyFirings(s, r, Fire(QueuedTokens(s.coord.window), DestroyedPassively));
      }
    }
  }

  lemma {:induction false} ClosedRun(capacity: nat, maxIov: nat, steps: seq<Step>, s: Conn, more: seq<Step>, r: Conn)
    requires Reaches(capacity, maxIov, steps, s) && s.coord.closed && Reaches(capacity, maxIov, steps + more, r)
    ensures NothingNew(s, r)
  {
    hide NothingNew;
    if more == [] {
      assert steps + more == steps;
      assert s.trace + Firings([]) == s.trace;
      OnlyFirings(s, s, []);
    } else {
      var m := more[..|more| - 1];
      var t := Run(Start(capacity, maxIov), steps + m);
      assert (steps + more)[..|steps + more| - 1] == steps + m;
      ClosedRun(capacity, maxIov, steps, s, m, t);
      ReachableInv(capacity, maxIov, steps + m, t);
      assert t.coord.closed by { NothingNewClosed(s, t); }
      ClosedStep(t, more[|more| - 1]);
      NothingNewTransitive(s, t, r);
    }
  }

  lemma NothingNewClosed(s: Conn, r: Conn)
    requires NothingNew(s, r)
    ensures r.coord.closed
  {}

  /** A connection-close response is a permanent barrier. Once it has been handed over, the output
      is exactly the responses up to it; in every continuation the coordinator stays closed, no part
      is accepted for any request, and nothing but that output is ever sent. */
  lemma ClosingIsABarrier(capacity: nat, maxIov: nat, steps: seq<Step>, s: Conn, more: seq<Step>, r: Conn)
    requires Reaches(capacity, maxIov, steps, s) && s.coord.closed && Reaches(capacity, maxIov, steps + more, r)
    ensures s.open ==> 0 <= Base(s.coord) && Output(s) == Stream(s.trace, Base(s.coord))
    ensures r.coord.closed
    ensures forall id :: AcceptedItems(r.trace, id) == AcceptedItems(s.trace, id)
    ensures SentItems(r.trace) <= Output(s)
  {
    ReachableInv(capacity, maxIov, steps, s);
    ClosedRun(capacity, maxIov, steps, s, more, r);
    OutputSplits(r);
  }
}
