/**
  The write half of a connection (restinio/impl/connection.hpp) as a state machine.

  A step is what runs between two returns to the event loop. There are two exceptions, where user
  code runs in the middle and may call the writer again. When a group has been written its
  notificator is called: the machine stops in phase `Notifying` and goes on with the step
  `NotificatorReturned`. When the coordinator throws on a part, the notificator of the part is called
  on the way to the handler: the handler, which closes the connection, is the step `ExceptionHandled`.
 */
module ConnectionSpec {
  import opened Wrappers
  import opened Buffers
  import opened CoordinatorSpec
  import opened WriteOutput

  datatype Phase = Idle | Writing | Notifying

  datatype Event =
    | Registered(id: RequestId)
    | Submitted(token: Token)
    | Accepted(req: RequestId, flags: Flags, items: seq<Item>, notificator: Option<Token>)
    | Sent(data: seq<Item>)
    | Fired(firing: Firing)

  datatype Conn = Conn(
    coord: State,
    cur: Option<Group>,     // m_current_wg
    next: nat,              // m_next_writable_item_index
    inflight: seq<Item>,    // items of the outstanding write operation
    phase: Phase,
    open: bool,             // m_socket.is_open()
    unwinding: nat,         // exceptions on their way to the handler
    maxIov: nat,
    submitted: nat,         // notificators handed to the connection so far
    trace: seq<Event>)

  datatype Step =
    | RegisterRequest
    | WriteParts(id: RequestId, flags: Flags, items: seq<Item>, statusLineSize: nat, notify: bool)
    | WriteDone
    | WriteFailed(threw: bool)   // did the notificator told of the failure throw?
    | WriteAborted(threw: bool)
    | NotificatorReturned(threw: bool)
    | ExceptionHandled
    | CloseRequested
    | Destroyed

  function Start(capacity: nat, maxIov: nat): Conn {
    Conn(Initial(capacity), None, 0, [], Idle, true, 0, maxIov, 0, [])
  }

  function Firings(fired: seq<Firing>): seq<Event> {
    seq(|fired|, i requires 0 <= i < |fired| => Fired(fired[i]))
  }

  function Log(s: Conn, fired: seq<Firing>): Conn { s.(trace := s.trace + Firings(fired)) }

  /** `close()`: the socket goes down and the coordinator is reset. */
  function Close(s: Conn): Conn {
    Log(s.(open := false, coord := Reset(s.coord)), Fire(QueuedTokens(s.coord.window), NotExecuted))
  }

  function GroupCount(window: seq<Context>): nat {
    if window == [] then 0 else |window[0].groups| + GroupCount(window[1..])
  }

  lemma PopShrinks(s: State)
    requires !s.closed && Pop(s).value.ready.Some?
    ensures GroupCount(Pop(s).value.state.window) < GroupCount(s.window)
  {
    var t := Pop(s).value.state;
    if |t.window| == |s.window| {
      assert t.window[1..] == s.window[1..];
    }
  }

  /** What no step undoes: the history, the id counter, a closed coordinator and a closed socket. */
  ghost predicate Follows(s: Conn, r: Conn) {
    && r.maxIov == s.maxIov
    && s.trace <= r.trace
    && s.submitted <= r.submitted
    && s.coord.registered <= r.coord.registered
    && (s.coord.closed ==> r.coord.closed)
    && (r.open ==> s.open)
  }

  /** `init_write`. */
  function InitWrite(s: Conn): (r: Conn)
    requires !s.coord.closed && 0 < s.maxIov
    ensures Follows(s, r) && r.coord.registered == s.coord.registered && r.unwinding == s.unwinding
    decreases GroupCount(s.coord.window), 0
  {
    var p := Pop(s.coord).value;
    if p.ready.None? then s
    else
      PopShrinks(s.coord);
      HandleCurrent(s.(coord := p.state, cur := Some(p.ready.value.0)))
  }

  /** `handle_current_write_ctx`: start the next operation or finish the group. */
  function HandleCurrent(s: Conn): (r: Conn)
    requires s.cur.Some? && 0 < s.maxIov
    ensures Follows(s, r) && r.coord.registered == s.coord.registered && r.unwinding == s.unwinding
    decreases GroupCount(s.coord.window), 2
  {
    var items := s.cur.value.items;
    if s.next < |items| then
      var end := OperationEnd(items, s.next, s.maxIov);
      s.(next := end, inflight := items[s.next..end], phase := Writing)
    else if s.cur.value.notificator.Some? then
      Log(s.(cur := Some(s.cur.value.(notificator := None)), phase := Notifying),
          [Firing(s.cur.value.notificator.value, Success)])
    else
      AfterNotification(s)
  }

  /** The rest of `finish_handling_current_write_ctx`. */
  function AfterNotification(s: Conn): (r: Conn)
    requires 0 < s.maxIov
    ensures Follows(s, r) && r.coord.registered == s.coord.registered && r.unwinding == s.unwinding
    decreases GroupCount(s.coord.window), 1
  {
    var t := s.(cur := None, next := 0, phase := Idle);
    if t.coord.closed then Close(t) else InitWrite(t)
  }

  function Refuse(s: Conn, token: Option<Token>, status: Status): Conn {
    Log(s, Fire(if token.Some? then [token.value] else [], status))
  }

  /** The state after a submission that may carry a notificator, and that notificator. */
  function Submit(s: Conn, notify: bool): Conn {
    if notify then s.(submitted := s.submitted + 1, trace := s.trace + [Submitted(s.submitted)]) else s
  }

  function NewToken(s: Conn, notify: bool): Option<Token> {
    if notify then Some(s.submitted) else None
  }

  /** `write_response_parts_impl`. */
  function Deliver(s: Conn, id: RequestId, flags: Flags, g: Group): (r: Conn)
    requires 0 < s.maxIov
    ensures Follows(s, r)
  {
    if !s.open || s.coord.closed then Refuse(s, g.notificator, NotExecuted)
    else
      match Append(s.coord, id, flags, g)
      case Err(_) =>
        var t := Refuse(s, g.notificator, DestroyedPassively);
        if g.notificator.Some? then t.(unwinding := t.unwinding + 1) else Close(t)
      case Ok(coord) =>
        var t := s.(coord := coord, trace := s.trace + [Accepted(id, flags, g.items, g.notificator)]);
        if t.cur.Some? then t else InitWrite(t)
  }

  function WritePartsStep(s: Conn, id: RequestId, flags: Flags, items: seq<Item>, statusLineSize: nat, notify: bool): (r: Conn)
    requires 0 < s.maxIov
    ensures Follows(s, r)
  {
    Deliver(Submit(s, notify), id, flags, Group(items, statusLineSize, NewToken(s, notify)))
  }

  /** `fail_write_group`: the item index is reset only if the notificator throws. */
  function FailCurrent(s: Conn, threw: bool): Conn
    requires s.cur.Some?
  {
    var next := if threw && s.cur.value.notificator.Some? then 0 else s.next;
    Log(s.(cur := None, next := next, inflight := [], phase := Idle), Fire(Tokens(s.cur.value), WriteError))
  }

  /** Is the step possible now? `WriteAborted` is what an outstanding write reports after `close()`. */
  predicate Enabled(s: Conn, step: Step) {
    match step
    case RegisterRequest | WriteParts(_, _, _, _, _) | CloseRequested => true
    case WriteDone => s.phase == Writing && s.cur.Some?
    case WriteFailed(_) => s.phase == Writing && s.cur.Some?
    case WriteAborted(_) => s.phase == Writing && s.cur.Some? && !s.open
    case NotificatorReturned(_) => s.phase == Notifying
    case ExceptionHandled => 0 < s.unwinding
    case Destroyed => s.phase == Idle && s.unwinding == 0
  }

  function Next(s: Conn, step: Step): (r: Conn)
    requires 0 < s.maxIov
    ensures Follows(s, r)
  {
    if !Enabled(s, step) then s
    else
      match step
      case RegisterRequest =>
        (match Register(s.coord)
         case Err(_) => Close(s)
         case Ok(coord) => s.(coord := coord, trace := s.trace + [Registered(s.coord.registered % ID_LIMIT)]))
      case WriteParts(id, flags, items, statusLineSize, notify) =>
        WritePartsStep(s, id, flags, items, statusLineSize, notify)
      case WriteDone => HandleCurrent(s.(inflight := [], trace := s.trace + [Sent(s.inflight)]))
      case WriteFailed(threw) => FailCurrent(Close(s), threw)
      case WriteAborted(threw) => FailCurrent(s, threw)
      case NotificatorReturned(threw) =>
        if threw then Close(s.(cur := None, next := 0, phase := Idle)) else AfterNotification(s)
      case ExceptionHandled => Close(s.(unwinding := s.unwinding - 1))
      case CloseRequested => Close(s)
      case Destroyed =>
        Log(s.(open := false, coord := Reset(s.coord)), Fire(QueuedTokens(s.coord.window), DestroyedPassively))
  }

  /** A run: the state after a sequence of steps. */
  function Run(s: Conn, steps: seq<Step>): (r: Conn)
    requires 0 < s.maxIov
    ensures Follows(s, r)
  {
    if steps == [] then s
    else
      var t := Run(s, steps[..|steps| - 1]);
      Next(t, steps[|steps| - 1])
  }
}
