/** The invariant of every reachable connection state, and its preservation step by step. */
module ConnectionInvariant {
  import opened Wrappers
  import opened Buffers
  import opened CoordinatorSpec
  import opened WriteOutput
  import opened ConnectionSpec
  import opened ConnectionHistory

  /** Items of the current group not yet part of a write operation. */
  function Unsent(cur: Option<Group>, next: nat): seq<Item> {
    if cur.Some? && next <= |cur.value.items| then cur.value.items[next..] else []
  }

  /** Everything that left the coordinator. */
  function Output(s: Conn): seq<Item> { SentItems(s.trace) + s.inflight + Unsent(s.cur, s.next) }

  function CurrentTokens(cur: Option<Group>): seq<Token> {
    if cur.Some? then Tokens(cur.value) else []
  }

  /** Every context's groups are the tail of what its request had accepted. */
  ghost predicate QueuesLaid(tr: Trace, c: State, n: nat)
    requires |c.window| <= c.registered
  {
    forall k :: 0 <= k < |c.window| ==>
      Laid(tr, Base(c) + k, c.window[k].groups, AcceptedItems(tr, Base(c) + k), n)
  }

  /** Only the oldest context can have given something away. */
  ghost predicate OthersUntouched(tr: Trace, c: State)
    requires |c.window| <= c.registered
  {
    forall k :: 1 <= k < |c.window| ==>
      Residue(c.window[k].groups, AcceptedItems(tr, Base(c) + k)) == []
  }

  /** The output the coordinator has released. */
  ghost function Released(tr: Trace, c: State): seq<Item>
    requires |c.window| <= c.registered
  {
    Stream(tr, Base(c)) + if c.window == [] then [] else Residue(c.window[0].groups, AcceptedItems(tr, Base(c)))
  }

  ghost predicate Drained(window: seq<Context>) {
    forall k :: 0 <= k < |window| ==> window[k].groups == []
  }

  ghost predicate NothingAcceptedFrom(tr: Trace, n: nat) {
    forall id :: n <= id ==> AcceptedItems(tr, id) == []
  }

  /** Output order. Once the socket is closed nothing is queued and the output stays a prefix. */
  ghost predicate Ordered(tr: Trace, c: State, open: bool, output: seq<Item>, n: nat)
    requires |c.window| <= c.registered
  {
    && NothingAcceptedFrom(tr, c.registered)
    && (if open then
          && QueuesLaid(tr, c, n) && OthersUntouched(tr, c) && output == Released(tr, c)
          && (c.closed ==> output == Stream(tr, Base(c)))
        else Drained(c.window) && output <= Stream(tr, c.registered))
  }

  /** When the current group is written its notificator may report success. */
  ghost predicate CurrentMarked(tr: Trace, cur: Option<Group>, output: seq<Item>, base: int, n: nat) {
    cur.Some? && cur.value.notificator.Some? ==>
      && cur.value.notificator.value < n
      && AcceptedFor(tr, cur.value.notificator.value) <= base
      && output == OutputThrough(tr, cur.value.notificator.value)
  }

  /** Every submitted notificator was fired once or is held once. */
  ghost predicate TokensConserved(tr: Trace, cur: Option<Group>, window: seq<Context>) {
    FiredTokens(tr) + multiset(CurrentTokens(cur)) + multiset(QueuedTokens(window)) == SubmittedTokens(tr)
  }

  ghost predicate TokensFresh(tr: Trace, n: nat) {
    forall t: Token :: SubmittedTokens(tr)[t] == if t < n then 1 else 0
  }

  /** What holds between the phases as well. */
  ghost predicate Core(s: Conn) {
    Sound(s) && TokensConserved(s.trace, s.cur, s.coord.window)
  }

  ghost predicate Sound(s: Conn) {
    && 0 < s.maxIov
    && Consistent(s.coord) && s.coord.registered <= ID_LIMIT
    && (s.cur.Some? ==> s.next <= |s.cur.value.items|)
    && (s.open && s.cur.None? ==> s.next == 0)
    && Ordered(s.trace, s.coord, s.open, Output(s), s.submitted)
    && CurrentMarked(s.trace, s.cur, Output(s), Base(s.coord), s.submitted)
    && TokensFresh(s.trace, s.submitted)
    && SuccessesAreTrue(s.trace)
  }

  /** One group is in flight exactly while the machine is not idle. */
  ghost predicate Inv(s: Conn) {
    && Core(s)
    && (s.phase == Idle <==> s.cur.None?)
    && (s.phase != Writing ==> s.inflight == [])
    && (s.phase == Notifying ==> s.next == |s.cur.value.items| && s.cur.value.notificator.None?)
  }

  lemma StartInv(capacity: nat, maxIov: nat)
    requires 0 < maxIov
    ensures Inv(Start(capacity, maxIov))
  {
    var s := Start(capacity, maxIov);
    assert Output(s) == [];
  }

  // ---------------------------------------------------------------------------------------------
  // Changes of the trace that accept nothing.

  lemma OrderedMoves(tr: Trace, more: Trace, c: State, open: bool, output: seq<Item>, n: nat, n': nat)
    requires |c.window| <= c.registered && n <= n'
    requires Ordered(tr, c, open, output, n) && SameAccepts(tr, more)
    ensures Ordered(more, c, open, output, n')
  {
    SameStream(tr, more, c.registered);
    SameStream(tr, more, Base(c));
    hide Laid, Residue, AcceptedItems, Stream, SameMark;
    if open {
      QueuesMove(tr, more, c, n, n');
    }
  }

  lemma QueuesMove(tr: Trace, more: Trace, c: State, n: nat, n': nat)
    requires |c.window| <= c.registered && n <= n' && QueuesLaid(tr, c, n) && SameAccepts(tr, more)
    ensures QueuesLaid(more, c, n')
  {
    hide Laid, AcceptedItems, AcceptedFor, AcceptedThrough;
    forall k | 0 <= k < |c.window|
      ensures Laid(more, Base(c) + k, c.window[k].groups, AcceptedItems(more, Base(c) + k), n')
    {
      LaidMoves(tr, more, Base(c) + k, c.window[k].groups, AcceptedItems(tr, Base(c) + k), n, n');
    }
  }

  lemma MarkMoves(tr: Trace, more: Trace, t: Token)
    requires SameAccepts(tr, more)
    ensures OutputThrough(more, t) == OutputThrough(tr, t)
  {
    assert SameMark(tr, more, t);
    SameStream(tr, more, AcceptedFor(tr, t));
  }

  lemma CurrentMoves(tr: Trace, more: Trace, cur: Option<Group>, output: seq<Item>, base: int, n: nat, n': nat)
    requires CurrentMarked(tr, cur, output, base, n) && SameAccepts(tr, more) && n <= n'
    ensures CurrentMarked(more, cur, output, base, n')
  {
    if cur.Some? && cur.value.notificator.Some? {
      assert SameMark(tr, more, cur.value.notificator.value);
      MarkMoves(tr, more, cur.value.notificator.value);
    }
  }

  /** The socket goes down: the queue may be forgotten, the output is a prefix of the ideal one. */
  lemma StreamStep(tr: Trace, n: nat)
    ensures Stream(tr, n + 1) == Stream(tr, n) + AcceptedItems(tr, n)
  {}

  lemma OrderedDrop(tr: Trace, c: State, open: bool, output: seq<Item>, n: nat)
    requires |c.window| <= c.registered && Ordered(tr, c, open, output, n)
    ensures Ordered(tr, Reset(c), false, output, n)
  {
    hide Laid, AcceptedItems, Stream, Residue;
    if open {
      var base := Base(c);
      StreamPrefix(tr, base, c.registered);
      if c.window != [] {
        var a := AcceptedItems(tr, base);
        assert Laid(tr, base + 0, c.window[0].groups, AcceptedItems(tr, base + 0), n);
        LaidSplits(tr, base, c.window[0].groups, a, n);
        StreamPrefix(tr, base + 1, c.registered);
        assert Stream(tr, base + 1) == Stream(tr, base) + a by { StreamStep(tr, base); }
      }
    }
  }

  /** Reporting failures changes no order. */
  lemma LogSound(s: Conn, fired: seq<Firing>)
    requires Sound(s) && forall i :: 0 <= i < |fired| ==> fired[i].status != Success
    ensures Sound(Log(s, fired))
  {
    hide Ordered, CurrentMarked, SuccessesAreTrue, SentItems, SameAccepts;
    var t := Log(s, fired);
    LogFirings(s.trace, fired);
    assert Output(t) == Output(s);
    OrderedMoves(s.trace, t.trace, s.coord, s.open, Output(s), s.submitted, s.submitted);
    CurrentMoves(s.trace, t.trace, s.cur, Output(s), Base(s.coord), s.submitted, s.submitted);
  }

  /** Dropping the queue while telling its notificators keeps the invariant, with the socket closed. */
  lemma DropQueue(s: Conn, status: Status)
    requires Core(s) && status != Success
    ensures Core(Log(s.(open := false, coord := Reset(s.coord)), Fire(QueuedTokens(s.coord.window), status)))
  {
    hide OutputThrough, SuccessesAreTrue, QueuedTokens, SentItems, NothingAcceptedFrom, Ordered;
    var tokens := QueuedTokens(s.coord.window);
    var t := s.(open := false, coord := Reset(s.coord));
    assert Output(t) == Output(s);
    OrderedDrop(s.trace, s.coord, s.open, Output(s), s.submitted);
    assert Sound(t);
    LogSound(t, Fire(tokens, status));
    LogFirings(t.trace, Fire(tokens, status));
    FireTokens(tokens, status);
    NothingQueued();
  }

  lemma NothingQueued()
    ensures QueuedTokens([]) == []
    ensures forall a :: Residue([], a) == a
  {}

  lemma CloseInv(s: Conn)
    requires Inv(s)
    ensures Inv(Close(s))
  {
    DropQueue(s, NotExecuted);
  }

  // ---------------------------------------------------------------------------------------------
  // Taking the next group out of the coordinator.

  lemma PopTokens(c: State)
    requires !c.closed && Pop(c).value.ready.Some?
    ensures var p := Pop(c).value;
            QueuedTokens(c.window) == Tokens(p.ready.value.0) + QueuedTokens(p.state.window)
  {
    var p := Pop(c).value;
    var w := c.window;
    assert QueuedTokens(w) == Tokens(w[0].groups[0]) + GroupTokens(w[0].groups[1..]) + QueuedTokens(w[1..]);
    if |p.state.window| == |w| {
      assert p.state.window[1..] == w[1..];
    }
  }

  lemma PopOrdered(tr: Trace, c: State, n: nat)
    requires Consistent(c) && !c.closed && Pop(c).value.ready.Some?
    requires QueuesLaid(tr, c, n) && OthersUntouched(tr, c)
    ensures var p := Pop(c).value;
            && |p.state.window| <= p.state.registered == c.registered
            && QueuesLaid(tr, p.state, n) && OthersUntouched(tr, p.state)
            && Released(tr, p.state) == Released(tr, c) + p.ready.value.0.items
            && (p.state.closed ==> Released(tr, p.state) == Stream(tr, Base(p.state)))
    ensures var p := Pop(c).value; CurrentMarked(tr, Some(p.ready.value.0), Released(tr, p.state), Base(p.state), n)
  {
    hide Laid, Residue, AcceptedItems, AcceptedThrough, AcceptedFor;
    var d := Pop(c).value.state;
    var base := Base(c);
    var groups := c.window[0].groups;
    var a := AcceptedItems(tr, base);
    assert Laid(tr, base + 0, groups, AcceptedItems(tr, base + 0), n);
    PopLaid(tr, base, groups, a, n);
    if |d.window| == |c.window| {
      assert Base(d) == base;
    } else {
      assert Base(d) == base + 1;
      NothingQueued();
      assert Stream(tr, base + 1) == Stream(tr, base) + a;
      forall k | 0 <= k < |d.window|
        ensures Laid(tr, Base(d) + k, d.window[k].groups, AcceptedItems(tr, Base(d) + k), n)
        ensures Residue(d.window[k].groups, AcceptedItems(tr, Base(d) + k)) == []
      {
        assert d.window[k] == c.window[k + 1] && Base(d) + k == Base(c) + (k + 1);
      }
      assert Released(tr, d) == Stream(tr, base + 1);
    }
  }

  lemma PopConserves(tr: Trace, c: State)
    requires !c.closed && Pop(c).value.ready.Some? && TokensConserved(tr, None, c.window)
    ensures var p := Pop(c).value; TokensConserved(tr, Some(p.ready.value.0), p.state.window)
  {
    PopTokens(c);
  }

  lemma DrainedHasNothingReady(c: State)
    ensures Drained(c.window) && !c.closed ==> Pop(c).value.ready.None?
  {}

  lemma TakeGroup(s: Conn)
    requires Core(s) && s.cur.None? && s.inflight == [] && !s.coord.closed && Pop(s.coord).value.ready.Some?
    ensures var p := Pop(s.coord).value;
            Core(s.(coord := p.state, cur := Some(p.ready.value.0)))
  {
    hide TokensConserved, TokensFresh, SuccessesAreTrue, CurrentMarked, NothingAcceptedFrom;
    hide QueuesLaid, OthersUntouched, Released, Consistent, SentItems, Stream;
    DrainedHasNothingReady(s.coord);
    var p := Pop(s.coord).value;
    var g := p.ready.value.0;
    var t := s.(coord := p.state, cur := Some(g));
    assert Output(t) == Output(s) + g.items;
    PopKeepsConsistent(s.coord);
    PopOrdered(s.trace, s.coord, s.submitted);
    PopConserves(s.trace, s.coord);
  }

  // ---------------------------------------------------------------------------------------------
  // The pump: start the next operation, or finish the group and look for another one.

  lemma {:induction false} InitWriteInv(s: Conn)
    requires Core(s) && s.cur.None? && s.inflight == [] && s.phase == Idle && !s.coord.closed
    ensures Inv(InitWrite(s))
    decreases GroupCount(s.coord.window), 0
  {
    var p := Pop(s.coord).value;
    if p.ready.Some? {
      TakeGroup(s);
      PopShrinks(s.coord);
      HandleCurrentInv(s.(coord := p.state, cur := Some(p.ready.value.0)));
    }
  }

  lemma {:induction false} HandleCurrentInv(s: Conn)
    requires Core(s) && s.cur.Some? && s.inflight == []
    ensures Inv(HandleCurrent(s))
    decreases GroupCount(s.coord.window), 2
  {
    if s.next < |s.cur.value.items| {
      StartOperation(s);
    } else if s.cur.value.notificator.Some? {
      ReportSuccess(s);
    } else {
      AfterNotificationInv(s);
    }
  }

  lemma {:induction false} AfterNotificationInv(s: Conn)
    requires Core(s) && s.cur.Some? && s.next == |s.cur.value.items| && s.cur.value.notificator.None? && s.inflight == []
    ensures Inv(AfterNotification(s))
    decreases GroupCount(s.coord.window), 1
  {
    var t := s.(cur := None, next := 0, phase := Idle);
    assert Output(t) == Output(s);
    if t.coord.closed {
      CloseInv(t);
    } else {
      InitWriteInv(t);
    }
  }

  lemma StartOperation(s: Conn)
    requires Core(s) && s.cur.Some? && s.inflight == [] && s.next < |s.cur.value.items|
    ensures Inv(HandleCurrent(s))
  {
    hide Ordered, CurrentMarked, TokensConserved, TokensFresh, SuccessesAreTrue, Consistent, SentItems, OperationEnd, Follows;
    var t := HandleCurrent(s);
    var items := s.cur.value.items;
    assert items[s.next..] == items[s.next..t.next] + items[t.next..];
    assert Output(t) == Output(s);
  }

  lemma ReportSuccess(s: Conn)
    requires Core(s) && s.cur.Some? && s.inflight == [] && s.next == |s.cur.value.items| && s.cur.value.notificator.Some?
    ensures Inv(HandleCurrent(s))
  {
    var tok := s.cur.value.notificator.value;
    var t := HandleCurrent(s);
    var e := Fired(Firing(tok, Success));
    assert t.trace == s.trace + [e];
    Snoc(s.trace, e);
    SilentEvent(s.trace, e);
    assert Output(s) == SentItems(s.trace);
    assert Output(t) == Output(s);
    OrderedMoves(s.trace, t.trace, s.coord, s.open, Output(s), s.submitted, s.submitted);
    assert multiset(CurrentTokens(s.cur)) == multiset{tok};
  }

  // ---------------------------------------------------------------------------------------------
  // Accepting a part of a response.

  /** Other requests do not see an accepted part, and earlier marks stay where they were. */
  lemma AcceptEvent(tr: Trace, id: RequestId, flags: Flags, items: seq<Item>, notificator: Option<Token>, n: nat)
    requires notificator.Some? ==> n <= notificator.value
    ensures var more := tr + [Accepted(id, flags, items, notificator)];
            && (forall i :: AcceptedItems(more, i) == AcceptedItems(tr, i) + if i == id then items else [])
            && (forall t :: 0 <= t < n ==> SameMark(tr, more, t))
            && SentItems(more) == SentItems(tr)
            && FiredTokens(more) == FiredTokens(tr) && SubmittedTokens(more) == SubmittedTokens(tr)
            && (SuccessesAreTrue(tr) ==> SuccessesAreTrue(more))
            && (notificator.Some? ==>
                  AcceptedFor(more, notificator.value) == id &&
                  AcceptedThrough(more, notificator.value) == AcceptedItems(tr, id) + items)
  {
    Snoc(tr, Accepted(id, flags, items, notificator));
  }

  lemma AcceptOrdered(tr: Trace, c: State, id: RequestId, flags: Flags, g: Group, n: nat, n': nat)
    requires Consistent(c) && c.registered <= ID_LIMIT && Append(c, id, flags, g).Ok?
    requires NothingAcceptedFrom(tr, c.registered) && QueuesLaid(tr, c, n) && OthersUntouched(tr, c)
    requires n <= n' && (g.notificator.Some? ==> n <= g.notificator.value < n')
    ensures var d := Append(c, id, flags, g).value;
            var more := tr + [Accepted(id, flags, g.items, g.notificator)];
            && |d.window| <= d.registered == c.registered
            && NothingAcceptedFrom(more, d.registered)
            && QueuesLaid(more, d, n') && OthersUntouched(more, d)
            && Released(more, d) == Released(tr, c)
  {
    hide Laid, Residue, Enqueue, AcceptedItems, AcceptedThrough, AcceptedFor, SameMark, Stream;
    hide SentItems, FiredTokens, SubmittedTokens, SuccessesAreTrue;
    var d := Append(c, id, flags, g).value;
    var more := tr + [Accepted(id, flags, g.items, g.notificator)];
    FindByOrdinal(c, id);
    AcceptEvent(tr, id, flags, g.items, g.notificator, n);
    var base := Base(c);
    var j := id - base;
    assert Base(d) == base;
    SameStream(tr, more, base);
    forall k | 0 <= k < |c.window|
      ensures Laid(more, base + k, d.window[k].groups, AcceptedItems(more, base + k), n')
      ensures Residue(d.window[k].groups, AcceptedItems(more, base + k))
              == Residue(c.window[k].groups, AcceptedItems(tr, base + k))
    {
      AcceptQueue(tr, more, c, k, id, g, n, n');
    }
  }

  lemma AcceptQueue(tr: Trace, more: Trace, c: State, k: nat, id: RequestId, g: Group, n: nat, n': nat)
    requires |c.window| <= c.registered && k < |c.window| && QueuesLaid(tr, c, n) && n <= n'
    requires forall t :: 0 <= t < n ==> SameMark(tr, more, t)
    requires AcceptedItems(more, Base(c) + k) == AcceptedItems(tr, Base(c) + k) + if Base(c) + k == id then g.items else []
    requires g.notificator.Some? ==>
               && g.notificator.value < n' && AcceptedFor(more, g.notificator.value) == id
               && AcceptedThrough(more, g.notificator.value) == AcceptedItems(tr, id) + g.items
    ensures var groups := if Base(c) + k == id then Enqueue(c.window[k].groups, g) else c.window[k].groups;
            && Laid(more, Base(c) + k, groups, AcceptedItems(more, Base(c) + k), n')
            && Residue(groups, AcceptedItems(more, Base(c) + k))
               == Residue(c.window[k].groups, AcceptedItems(tr, Base(c) + k))
  {
    hide Laid, Residue, Enqueue;
    var a := AcceptedItems(tr, Base(c) + k);
    LaidMoves(tr, more, Base(c) + k, c.window[k].groups, a, n, n');
    if Base(c) + k == id {
      EnqueueLaid(more, id, c.window[k].groups, a, g, n');
    } else {
      assert AcceptedItems(more, Base(c) + k) == a;
    }
  }

  lemma TokensOfOne(g: Group)
    ensures GroupTokens([g]) == Tokens(g)
  {}

  lemma {:induction false} EnqueueTokens(groups: seq<Group>, g: Group)
    ensures GroupTokens(Enqueue(groups, g)) == GroupTokens(groups) + Tokens(g)
  {
    var r := Enqueue(groups, g);
    if groups == [] {
      assert r == [g];
      TokensOfOne(g);
    } else if |groups| == 1 {
      TokensOfOne(groups[0]);
      TokensOfOne(g);
      if |r| == 1 {
        assert r == [Merged(groups[0], g)];
        TokensOfOne(r[0]);
      } else {
        assert r[1..] == [g];
      }
    } else {
      hide Tokens;
      assert r[0] == groups[0] && r[1..] == Enqueue(groups[1..], g);
      EnqueueTokens(groups[1..], g);
      assert Tokens(groups[0]) + (GroupTokens(groups[1..]) + Tokens(g)) == Tokens(groups[0]) + GroupTokens(groups[1..]) + Tokens(g);
    }
  }

  lemma {:induction false} UpdateTokens(window: seq<Context>, k: nat, ctx: Context, more: seq<Token>)
    requires k < |window| && GroupTokens(ctx.groups) == GroupTokens(window[k].groups) + more
    ensures multiset(QueuedTokens(window[k := ctx])) == multiset(QueuedTokens(window)) + multiset(more)
  {
    hide GroupTokens;
    var w := window[k := ctx];
    if k == 0 {
      assert w[1..] == window[1..];
    } else {
      UpdateTokens(window[1..], k - 1, ctx, more);
      assert w[1..] == window[1..][k - 1 := ctx];
    }
  }

  lemma AppendTokens(c: State, id: RequestId, flags: Flags, g: Group)
    requires Append(c, id, flags, g).Ok?
    ensures multiset(QueuedTokens(Append(c, id, flags, g).value.window)) == multiset(QueuedTokens(c.window)) + multiset(Tokens(g))
  {
    var k := Find(c.window, id).value;
    EnqueueTokens(c.window[k].groups, g);
    UpdateTokens(c.window, k, Context(c.window[k].id, Enqueue(c.window[k].groups, g), flags), Tokens(g));
  }

  // ---------------------------------------------------------------------------------------------
  // The steps.

  lemma SubmitSound(s: Conn)
    requires Sound(s)
    ensures var t := s.(submitted := s.submitted + 1, trace := s.trace + [Submitted(s.submitted)]);
            && Sound(t)
            && FiredTokens(t.trace) == FiredTokens(s.trace)
            && SubmittedTokens(t.trace) == SubmittedTokens(s.trace) + multiset{s.submitted}
  {
    hide Ordered, CurrentMarked, SameAccepts;
    var e := Submitted(s.submitted);
    var t := s.(submitted := s.submitted + 1, trace := s.trace + [e]);
    Snoc(s.trace, e);
    SilentEvent(s.trace, e);
    assert Output(t) == Output(s);
    OrderedMoves(s.trace, t.trace, s.coord, s.open, Output(s), s.submitted, t.submitted);
    CurrentMoves(s.trace, t.trace, s.cur, Output(s), Base(s.coord), s.submitted, t.submitted);
    forall k: Token ensures SubmittedTokens(t.trace)[k] == if k < t.submitted then 1 else 0 {
      assert SubmittedTokens(s.trace)[k] == if k < s.submitted then 1 else 0;
    }
  }

  function TokenSeq(t: Option<Token>): seq<Token> { if t.Some? then [t.value] else [] }

  lemma SubmitKeeps(s: Conn, notify: bool)
    requires Sound(s)
    ensures var t := Submit(s, notify);
            && Sound(t)
            && FiredTokens(t.trace) == FiredTokens(s.trace)
            && SubmittedTokens(t.trace) == SubmittedTokens(s.trace) + multiset(TokenSeq(NewToken(s, notify)))
  {
    hide Sound, FiredTokens, SubmittedTokens;
    if notify {
      SubmitSound(s);
      assert multiset([s.submitted]) == multiset{s.submitted};
    } else {
      assert Submit(s, notify) == s;
    }
  }

  lemma RefuseCore(s: Conn, notify: bool, status: Status)
    requires Core(s) && status != Success
    ensures Core(Refuse(Submit(s, notify), NewToken(s, notify), status))
  {
    hide Sound, QueuedTokens, FiredTokens, SubmittedTokens, SuccessesAreTrue, SentItems, SameAccepts;
    var t := Submit(s, notify);
    var tokens := TokenSeq(NewToken(s, notify));
    SubmitKeeps(s, notify);
    LogSound(t, Fire(tokens, status));
    LogFirings(t.trace, Fire(tokens, status));
    FireTokens(tokens, status);
  }

  /** A later part of an unfinished response does not move the mark of the group in flight. */
  lemma CurrentAfterAccept(tr: Trace, more: Trace, cur: Option<Group>, output: seq<Item>, base: nat, id: RequestId, n: nat, n': nat)
    requires CurrentMarked(tr, cur, output, base, n) && base <= id && n <= n'
    requires forall i :: 0 <= i < id ==> AcceptedItems(more, i) == AcceptedItems(tr, i)
    requires forall t :: 0 <= t < n ==> SameMark(tr, more, t)
    ensures CurrentMarked(more, cur, output, base, n')
  {
    if cur.Some? && cur.value.notificator.Some? {
      var tok := cur.value.notificator.value;
      assert SameMark(tr, more, tok);
      SameStream(tr, more, AcceptedFor(tr, tok));
    }
  }

  lemma AcceptConserves(tr: Trace, more: Trace, cur: Option<Group>, c: State, id: RequestId, flags: Flags, g: Group)
    requires TokensConserved(tr, cur, c.window) && Append(c, id, flags, g).Ok?
    requires FiredTokens(more) == FiredTokens(tr)
    requires SubmittedTokens(more) == SubmittedTokens(tr) + multiset(Tokens(g))
    ensures TokensConserved(more, cur, Append(c, id, flags, g).value.window)
  {
    hide Append, QueuedTokens, FiredTokens, SubmittedTokens;
    AppendTokens(c, id, flags, g);
  }

  /** The state after an accepted part, before anything is written. */
  ghost function AfterAccept(s: Conn, c: State, id: RequestId, flags: Flags, g: Group, notify: bool): Conn {
    var t := Submit(s, notify);
    t.(coord := c, trace := t.trace + [Accepted(id, flags, g.items, g.notificator)])
  }

  lemma AcceptCore(s: Conn, c: State, id: RequestId, flags: Flags, g: Group, notify: bool)
    requires Core(s) && s.open && g.notificator == NewToken(s, notify)
    requires Append(s.coord, id, flags, g) == Ok(c)
    ensures Core(AfterAccept(s, c, id, flags, g, notify))
  {
    var t := Submit(s, notify);
    var u := AfterAccept(s, c, id, flags, g, notify);
    hide Sound, QueuedTokens, Append, TokensConserved, FiredTokens, SubmittedTokens, Submit, NewToken;
    SubmitKeeps(s, notify);
    assert NewToken(s, notify).Some? == notify && u.cur == s.cur by { TokenIff(s, notify); }
    AcceptSound(s, t, u, id, flags, g);
    AcceptConserves(s.trace, u.trace, s.cur, s.coord, id, flags, g);
  }

  lemma TokenIff(s: Conn, notify: bool)
    ensures NewToken(s, notify).Some? == notify && Submit(s, notify).cur == s.cur
  {}

  /** The order part: marks given before this part was submitted stay below `s.submitted`. */
  lemma AcceptSound(s: Conn, t: Conn, u: Conn, id: RequestId, flags: Flags, g: Group)
    requires Sound(s) && s.open && Sound(t) && t == Submit(s, g.notificator.Some?)
    requires g.notificator == NewToken(s, g.notificator.Some?) && Append(s.coord, id, flags, g).Ok?
    requires u == t.(coord := Append(s.coord, id, flags, g).value, trace := t.trace + [Accepted(id, flags, g.items, g.notificator)])
    ensures Sound(u) && FiredTokens(u.trace) == FiredTokens(t.trace) && SubmittedTokens(u.trace) == SubmittedTokens(t.trace)
  {
    hide SuccessesAreTrue, SentItems, Laid, Residue, AcceptedItems, AcceptedThrough, AcceptedFor;
    AppendKeepsConsistent(s.coord, id, flags, g);
    var n := s.submitted;
    if g.notificator.Some? {
      SilentEvent(s.trace, Submitted(n));
    }
    assert SameAccepts(s.trace, t.trace);
    OrderedMoves(s.trace, t.trace, s.coord, true, Output(s), n, n);
    CurrentMoves(s.trace, t.trace, s.cur, Output(s), Base(s.coord), n, n);
    AcceptEvent(t.trace, id, flags, g.items, g.notificator, n);
    AcceptOrdered(t.trace, s.coord, id, flags, g, n, u.submitted);
    assert Output(u) == Output(t);
    FindByOrdinal(s.coord, id);
    CurrentAfterAccept(t.trace, u.trace, s.cur, Output(s), Base(s.coord), id, n, u.submitted);
  }

  lemma RegisterQueues(tr: Trace, c: State, n: nat)
    requires |c.window| <= c.registered && Register(c).Ok? && QueuesLaid(tr, c, n) && OthersUntouched(tr, c)
    requires AcceptedItems(tr, c.registered) == []
    ensures var d := Register(c).value;
            && |d.window| <= d.registered
            && QueuesLaid(tr, d, n) && OthersUntouched(tr, d) && Released(tr, d) == Released(tr, c)
  {
    hide AcceptedItems, Stream, Laid, Residue;
    var d := Register(c).value;
    assert Base(d) == Base(c);
    forall k | 0 <= k < |d.window|
      ensures Laid(tr, Base(d) + k, d.window[k].groups, AcceptedItems(tr, Base(d) + k), n)
      ensures k == |c.window| ==> Residue(d.window[k].groups, AcceptedItems(tr, Base(d) + k)) == []
    {
      RegisterQueue(tr, c, k, n);
    }
  }

  lemma RegisterQueue(tr: Trace, c: State, k: nat, n: nat)
    requires |c.window| <= c.registered && Register(c).Ok? && QueuesLaid(tr, c, n) && k <= |c.window|
    requires AcceptedItems(tr, c.registered) == []
    ensures var d := Register(c).value;
            && Laid(tr, Base(c) + k, d.window[k].groups, AcceptedItems(tr, Base(c) + k), n)
            && (k == |c.window| ==> Residue(d.window[k].groups, AcceptedItems(tr, Base(c) + k)) == [])
  {
    hide AcceptedItems;
    var d := Register(c).value;
    if k < |c.window| {
      hide Laid, Residue;
      assert d.window[k] == c.window[k];
    } else {
      assert d.window[k].groups == [] && Base(c) + k == c.registered;
    }
  }

  lemma RegisterOrdered(tr: Trace, c: State, open: bool, output: seq<Item>, n: nat)
    requires Consistent(c) && Register(c).Ok? && Ordered(tr, c, open, output, n)
    ensures |Register(c).value.window| <= Register(c).value.registered
    ensures Ordered(tr, Register(c).value, open, output, n)
  {
    assert Stream(tr, c.registered + 1) == Stream(tr, c.registered) + AcceptedItems(tr, c.registered);
    hide AcceptedItems, Stream, QueuesLaid, OthersUntouched, Released, Consistent;
    assert AcceptedItems(tr, c.registered) == [];
    if open {
      RegisterQueues(tr, c, n);
      assert Base(Register(c).value) == Base(c);
    }
  }

  lemma {:induction false} RegisterTokens(window: seq<Context>, ctx: Context)
    requires ctx.groups == []
    ensures QueuedTokens(window + [ctx]) == QueuedTokens(window)
  {
    if window == [] {
      assert (window + [ctx])[1..] == [];
    } else {
      RegisterTokens(window[1..], ctx);
      assert (window + [ctx])[1..] == window[1..] + [ctx];
    }
  }

  /** An event that accepts, sends, submits and fires nothing. */
  lemma SilentCore(s: Conn, id: RequestId)
    requires Core(s)
    ensures Core(s.(trace := s.trace + [Registered(id)]))
  {
    hide Ordered, CurrentMarked, SameAccepts;
    var e := Registered(id);
    var t := s.(trace := s.trace + [e]);
    Snoc(s.trace, e);
    SilentEvent(s.trace, e);
    assert Output(t) == Output(s);
    OrderedMoves(s.trace, t.trace, s.coord, s.open, Output(s), s.submitted, s.submitted);
    CurrentMoves(s.trace, t.trace, s.cur, Output(s), Base(s.coord), s.submitted, s.submitted);
  }

  lemma RegisterInv(s: Conn)
    requires Inv(s) && Next(s, RegisterRequest).coord.registered <= ID_LIMIT
    ensures Inv(Next(s, RegisterRequest))
  {
    RegisterKeepsConsistent(s.coord);
    if Register(s.coord).Err? {
      CloseInv(s);
    } else {
      hide QueuedTokens, Ordered;
      var t := s.(coord := Register(s.coord).value);
      assert Output(t) == Output(s) && Base(t.coord) == Base(s.coord);
      RegisterOrdered(s.trace, s.coord, s.open, Output(s), s.submitted);
      RegisterTokens(s.coord.window, t.coord.window[|s.coord.window|]);
      SilentCore(t, s.coord.registered % ID_LIMIT);
    }
  }

  lemma AppendLeavesOpen(c: State, id: RequestId, flags: Flags, g: Group)
    ensures Append(c, id, flags, g).Ok? ==> !Append(c, id, flags, g).value.closed
  {}

  lemma WritePartsInv(s: Conn, id: RequestId, flags: Flags, items: seq<Item>, size: nat, notify: bool)
    requires Inv(s)
    ensures Inv(WritePartsStep(s, id, flags, items, size, notify))
  {
    hide Sound, TokensConserved, InitWrite, Close, Follows, Append, Firings, Fire;
    var g := Group(items, size, NewToken(s, notify));
    var t := Submit(s, notify);
    if !s.open || s.coord.closed {
      RefuseCore(s, notify, NotExecuted);
    } else if Append(s.coord, id, flags, g).Err? {
      RefuseCore(s, notify, DestroyedPassively);
      var r := Refuse(t, g.notificator, DestroyedPassively);
      if notify {
        UnwindingInv(r, r.unwinding + 1);
      } else {
        CloseInv(r);
      }
    } else {
      AcceptCore(s, Append(s.coord, id, flags, g).value, id, flags, g, notify);
      var u := t.(coord := Append(s.coord, id, flags, g).value, trace := t.trace + [Accepted(id, flags, items, g.notificator)]);
      AppendLeavesOpen(s.coord, id, flags, g);
      if s.cur.None? {
        InitWriteInv(u);
      }
    }
  }

  /** The outstanding operation moves to the sent items. */
  lemma SentCore(s: Conn)
    requires Core(s)
    ensures Core(s.(inflight := [], trace := s.trace + [Sent(s.inflight)]))
  {
    hide Ordered, CurrentMarked, SameAccepts;
    var e := Sent(s.inflight);
    var t := s.(inflight := [], trace := s.trace + [e]);
    Snoc(s.trace, e);
    SilentEvent(s.trace, e);
    assert Output(t) == Output(s);
    OrderedMoves(s.trace, t.trace, s.coord, s.open, Output(s), s.submitted, s.submitted);
    CurrentMoves(s.trace, t.trace, s.cur, Output(s), Base(s.coord), s.submitted, s.submitted);
  }

  lemma WriteDoneInv(s: Conn)
    requires Inv(s) && Enabled(s, WriteDone)
    ensures Inv(Next(s, WriteDone))
  {
    hide Core, HandleCurrent;
    SentCore(s);
    HandleCurrentInv(s.(inflight := [], trace := s.trace + [Sent(s.inflight)]));
  }

  lemma FailInv(s: Conn, threw: bool)
    requires Inv(s) && s.cur.Some? && !s.open
    ensures Inv(FailCurrent(s, threw))
  {
    hide QueuedTokens, SentItems, SuccessesAreTrue;
    var tokens := Tokens(s.cur.value);
    var t := s.(cur := None, next := FailCurrent(s, threw).next, inflight := [], phase := Idle);
    assert Output(t) <= Output(s);
    assert Sound(t);
    LogSound(t, Fire(tokens, WriteError));
    LogFirings(t.trace, Fire(tokens, WriteError));
    FireTokens(tokens, WriteError);
  }

  /** A written group whose notificator has been called can be dropped. */
  lemma ReleasedInv(s: Conn)
    requires Inv(s) && s.phase == Notifying
    ensures Inv(s.(cur := None, next := 0, phase := Idle))
  {
    hide Ordered, SuccessesAreTrue, TokensFresh, Consistent, SentItems, QueuedTokens;
    assert Output(s.(cur := None, next := 0, phase := Idle)) == Output(s);
  }

  lemma NotificatorReturnedInv(s: Conn, threw: bool)
    requires Inv(s) && s.phase == Notifying
    ensures Inv(Next(s, NotificatorReturned(threw)))
  {
    hide Core, AfterNotification, Follows;
    if threw {
      ReleasedInv(s);
      CloseInv(s.(cur := None, next := 0, phase := Idle));
    } else {
      AfterNotificationInv(s);
    }
  }

  lemma UnwindingInv(s: Conn, n: nat)
    requires Inv(s)
    ensures Inv(s.(unwinding := n))
  {}

  /** Every step keeps the invariant. */
  lemma NextInv(s: Conn, step: Step)
    requires Inv(s) && Next(s, step).coord.registered <= ID_LIMIT
    ensures Inv(Next(s, step))
  {
    hide Core, HandleCurrent, AfterNotification, WritePartsStep, FailCurrent, Follows;
    if Enabled(s, step) {
      match step {
        case RegisterRequest => RegisterInv(s);
        case WriteParts(id, flags, items, size, notify) => WritePartsInv(s, id, flags, items, size, notify);
        case WriteDone => WriteDoneInv(s);
        case WriteFailed(threw) => CloseInv(s); FailInv(Close(s), threw);
        case WriteAborted(threw) => FailInv(s, threw);
        case NotificatorReturned(threw) => NotificatorReturnedInv(s, threw);
        case ExceptionHandled => UnwindingInv(s, s.unwinding - 1); CloseInv(s.(unwinding := s.unwinding - 1));
        case CloseRequested => CloseInv(s);
        case Destroyed => DropQueue(s, DestroyedPassively);
      }
    }
  }
}
