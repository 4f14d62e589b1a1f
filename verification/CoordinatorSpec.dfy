/**
  The response coordinator (restinio/impl/response_coordinator.hpp): the value-level specification
  of its operations, and what one operation promises.
 */
module CoordinatorSpec {
  import opened Wrappers
  import opened Buffers

  /** Request ids are 32-bit (`request_id_t`). */
  const ID_LIMIT: nat := 0x1_0000_0000

  type RequestId = nat

  datatype Flags = Flags(final: bool, close: bool)

  const FRESH_FLAGS := Flags(false, false)

  datatype Context = Context(id: RequestId, groups: seq<Group>, flags: Flags)
  {
    predicate IsComplete() { groups == [] && flags.final }
  }

  datatype Error = TableFull | TableEmpty | CoordinatorClosed | UnknownRequest | AlreadyComplete

  /** `window` holds the contexts in use, oldest first; `registered` counts all registrations. */
  datatype State = State(capacity: nat, window: seq<Context>, registered: nat, closed: bool)

  function Initial(capacity: nat): State { State(capacity, [], 0, false) }

  /** `reinit` leaves the groups of the reused cell alone. */
  function Reinit(cell: Context, id: RequestId): Context { Context(id, cell.groups, FRESH_FLAGS) }

  function Enqueue(groups: seq<Group>, g: Group): seq<Group> {
    if groups != [] && groups[|groups| - 1].notificator.None? && g.statusLineSize == 0 then
      groups[..|groups| - 1] + [Merged(groups[|groups| - 1], g)]
    else
      groups + [g]
  }

  function Register(s: State): Result<State, Error> {
    if |s.window| == s.capacity then Err(TableFull)
    else Ok(s.(window := s.window + [Context(s.registered % ID_LIMIT, [], FRESH_FLAGS)],
               registered := s.registered + 1))
  }

  /** The window position `get_by_req_id` selects. */
  function Find(window: seq<Context>, id: RequestId): (r: Option<nat>) {
    if window == [] || id < window[0].id || id > window[|window| - 1].id then None
    else Some(id - window[0].id)
  }

  /** A position past the window cannot come up: see FindSound. */
  function Append(s: State, id: RequestId, flags: Flags, g: Group): Result<State, Error> {
    if s.closed then Err(CoordinatorClosed)
    else
      var k := Find(s.window, id);
      if k.None? || |s.window| <= k.value then Err(UnknownRequest)
      else if s.window[k.value].flags.final then Err(AlreadyComplete)
      else
        var ctx := s.window[k.value];
        Ok(s.(window := s.window[k.value := Context(ctx.id, Enqueue(ctx.groups, g), flags)]))
  }

  datatype Popped = Popped(state: State, ready: Option<(Group, RequestId)>)

  function Pop(s: State): Result<Popped, Error> {
    if s.closed then Err(CoordinatorClosed)
    else if s.window == [] || s.window[0].groups == [] then Ok(Popped(s, None))
    else
      var ctx := s.window[0];
      var rest := ctx.(groups := ctx.groups[1..]);
      var ready := Some((ctx.groups[0], ctx.id));
      if rest.IsComplete()
      then Ok(Popped(s.(window := s.window[1..], closed := rest.flags.close), ready))
      else Ok(Popped(s.(window := s.window[0 := rest]), ready))
  }

  function Reset(s: State): State { s.(window := []) }

  /** The first request id (unwrapped) still in the table. */
  function Base(s: State): int { s.registered - |s.window| }

  /** What every operation keeps: consecutive ids ending just below the counter, and a response
      marked final still has something to send. */
  ghost predicate Consistent(s: State) {
    && |s.window| <= s.capacity
    && |s.window| <= s.registered
    && (forall k :: 0 <= k < |s.window| ==> s.window[k].id == (Base(s) + k) % ID_LIMIT)
    && (forall k :: 0 <= k < |s.window| && s.window[k].flags.final ==> s.window[k].groups != [])
  }

  /** Tokens queued in one context, then in the whole table, oldest first. */
  function GroupTokens(groups: seq<Group>): seq<Token> {
    if groups == [] then [] else Tokens(groups[0]) + GroupTokens(groups[1..])
  }

  function QueuedTokens(window: seq<Context>): seq<Token> {
    if window == [] then [] else GroupTokens(window[0].groups) + QueuedTokens(window[1..])
  }

  // ---------------------------------------------------------------------------------------------

  lemma ModSmall(x: int)
    requires 0 <= x < ID_LIMIT
    ensures x % ID_LIMIT == x
  {}

  lemma ModWrapped(x: int)
    requires ID_LIMIT <= x < 2 * ID_LIMIT
    ensures x % ID_LIMIT == x - ID_LIMIT
  {}

  lemma ModOffset(x: int, k: nat)
    requires 0 <= x
    ensures (x + k) % ID_LIMIT == (x % ID_LIMIT + k) % ID_LIMIT
  {
    var q := x / ID_LIMIT;
    assert x == q * ID_LIMIT + x % ID_LIMIT;
    assert x + k == q * ID_LIMIT + (x % ID_LIMIT + k);
    var y := x % ID_LIMIT + k;
    assert (q * ID_LIMIT + y) % ID_LIMIT == y % ID_LIMIT;
  }

  /** Does the id counter wrap inside the window? */
  predicate Straddles(s: State)
    requires s.window != []
  {
    s.window[0].id + |s.window| > ID_LIMIT
  }

  /** Ids count up from the first one as long as they do not wrap. */
  lemma IdAt(s: State, k: nat)
    requires Consistent(s) && s.capacity <= ID_LIMIT && k < |s.window|
    ensures s.window[k].id == if s.window[0].id + k < ID_LIMIT then s.window[0].id + k
                              else s.window[0].id + k - ID_LIMIT
  {
    ModOffset(Base(s), k);
    var sum := Base(s) % ID_LIMIT + k;
    if sum < ID_LIMIT {
      ModSmall(sum);
    } else {
      ModWrapped(sum);
    }
  }

  /** The lookup never points outside the window and, when it answers, it answers correctly. */
  lemma FindSound(s: State, id: RequestId)
    requires Consistent(s) && s.capacity <= ID_LIMIT
    ensures var k := Find(s.window, id);
            k.Some? ==> k.value < |s.window| && s.window[k.value].id == id
  {
    var k := Find(s.window, id);
    if k.Some? {
      IdAt(s, |s.window| - 1);
      IdAt(s, k.value);
    }
  }

  /** Every id held by a context in the window is found. */
  ghost predicate FindComplete(s: State) {
    forall k :: 0 <= k < |s.window| ==> Find(s.window, s.window[k].id) == Some(k)
  }

  /** The lookup is exact precisely when the ids in the window do not wrap around 2^32. */
  lemma FindExactUnlessWrapped(s: State)
    requires Consistent(s) && s.capacity <= ID_LIMIT && s.window != []
    ensures FindComplete(s) <==> !Straddles(s)
  {
    var n := |s.window|;
    IdAt(s, n - 1);
    if Straddles(s) {
      assert Find(s.window, s.window[0].id).None?;
    } else {
      forall k | 0 <= k < n ensures Find(s.window, s.window[k].id) == Some(k) {
        IdAt(s, k);
      }
    }
  }

  // ---------------------------------------------------------------------------------------------
  // Histories of calls. A call that is refused changes nothing.

  datatype Call = RegisterCall | AppendCall(id: RequestId, flags: Flags, g: Group) | PopCall | ResetCall

  function After(s: State, call: Call): State {
    match call
    case RegisterCall => var r := Register(s); if r.Ok? then r.value else s
    case AppendCall(id, flags, g) => var r := Append(s, id, flags, g); if r.Ok? then r.value else s
    case PopCall => var r := Pop(s); if r.Ok? then r.value.state else s
    case ResetCall => Reset(s)
  }

  function History(s: State, calls: seq<Call>): State {
    if calls == [] then s else After(History(s, calls[..|calls| - 1]), calls[|calls| - 1])
  }

  lemma {:induction false} HistoryKeepsConsistent(capacity: nat, calls: seq<Call>)
    ensures var s := History(Initial(capacity), calls); Consistent(s) && s.capacity == capacity
  {
    if calls != [] {
      var init := calls[..|calls| - 1];
      HistoryKeepsConsistent(capacity, init);
      var s := History(Initial(capacity), init);
      match calls[|calls| - 1]
      case RegisterCall => RegisterKeepsConsistent(s);
      case AppendCall(id, flags, g) => AppendKeepsConsistent(s, id, flags, g);
      case PopCall => if Pop(s).Ok? { PopKeepsConsistent(s); }
      case ResetCall =>
    }
  }

  lemma HistoryGrows(s: State, calls: seq<Call>, call: Call)
    ensures History(s, calls + [call]) == After(History(s, calls), call)
  {
    assert (calls + [call])[..|calls|] == calls;
  }

  /** One request answered in full, on an empty table. */
  lemma OneRequestServed(s: State)
    requires s.window == [] && !s.closed && 0 < s.capacity
    ensures After(After(After(s, RegisterCall), AppendCall(s.registered % ID_LIMIT, Flags(true, false), EMPTY_GROUP)), PopCall)
            == s.(registered := s.registered + 1)
  {
    var id := s.registered % ID_LIMIT;
    var a := After(s, RegisterCall);
    assert a.window == [Context(id, [], FRESH_FLAGS)];
    var b := After(a, AppendCall(id, Flags(true, false), EMPTY_GROUP));
    assert Find(a.window, id) == Some(0);
    assert Enqueue([], EMPTY_GROUP) == [EMPTY_GROUP];
    assert b.window == [Context(id, [EMPTY_GROUP], Flags(true, false))];
    assert b.window[1..] == [];
  }

  /** Any number of requests can have been served. */
  lemma {:induction false} ServedSoFar(capacity: nat, n: nat) returns (calls: seq<Call>)
    requires 0 < capacity
    ensures History(Initial(capacity), calls) == State(capacity, [], n, false)
  {
    calls := [];
    if n > 0 {
      calls := ServedSoFar(capacity, n - 1);
      var s := State(capacity, [], n - 1, false);
      var append := AppendCall((n - 1) % ID_LIMIT, Flags(true, false), EMPTY_GROUP);
      HistoryGrows(Initial(capacity), calls, RegisterCall);
      HistoryGrows(Initial(capacity), calls + [RegisterCall], append);
      HistoryGrows(Initial(capacity), calls + [RegisterCall] + [append], PopCall);
      OneRequestServed(s);
      calls := calls + [RegisterCall] + [append] + [PopCall];
    }
  }

  /** With pipelining, calls exist after which the oldest registered request is unknown to the lookup:
      the id counter wraps between it and the next one. */
  lemma WrappedIdIsLost(capacity: nat) returns (calls: seq<Call>)
    requires 2 <= capacity
    ensures var s := History(Initial(capacity), calls);
            && s == State(capacity, [Context(ID_LIMIT - 1, [], FRESH_FLAGS), Context(0, [], FRESH_FLAGS)], ID_LIMIT + 1, false)
            && Append(s, ID_LIMIT - 1, Flags(true, false), EMPTY_GROUP) == Err(UnknownRequest)
  {
    var served := ServedSoFar(capacity, ID_LIMIT - 1);
    HistoryGrows(Initial(capacity), served, RegisterCall);
    HistoryGrows(Initial(capacity), served + [RegisterCall], RegisterCall);
    ModSmall(ID_LIMIT - 1);
    ModWrapped(ID_LIMIT);
    calls := served + [RegisterCall] + [RegisterCall];
  }

  /** In every history the lookup finds every registered request. */
  ghost predicate NeverLoses(capacity: nat) {
    forall calls :: FindComplete(History(Initial(capacity), calls))
  }

  /** The lookup is exact over all histories if and only if there is no pipelining. */
  lemma NeverLosesExactly(capacity: nat)
    ensures NeverLoses(capacity) <==> capacity <= 1
  {
    if capacity <= 1 {
      forall calls ensures FindComplete(History(Initial(capacity), calls)) {
        HistoryKeepsConsistent(capacity, calls);
        var s := History(Initial(capacity), calls);
        if s.window != [] {
          FindExactUnlessWrapped(s);
        }
      }
    } else {
      var calls := WrappedIdIsLost(capacity);
      var s := History(Initial(capacity), calls);
      assert Find(s.window, s.window[0].id).None?;
      assert !FindComplete(s);
    }
  }

  // ---------------------------------------------------------------------------------------------

  /** Before the counter wraps, lookup is a position in the window. */
  lemma FindByOrdinal(s: State, id: RequestId)
    requires Consistent(s) && s.registered <= ID_LIMIT
    ensures Find(s.window, id) == if Base(s) <= id < s.registered then Some(id - Base(s)) else None
    ensures forall k :: 0 <= k < |s.window| ==> s.window[k].id == Base(s) + k
  {
    forall k | 0 <= k < |s.window| ensures s.window[k].id == Base(s) + k {
      ModSmall(Base(s) + k);
    }
  }

  /** Which parts are taken: those for a request that is in the table and not finished, wherever it
      stands in the window. Everything else is refused with its own error. */
  lemma AppendExactly(s: State, id: RequestId, flags: Flags, g: Group)
    requires Consistent(s) && s.registered <= ID_LIMIT
    ensures var r := Append(s, id, flags, g);
            && (r.Ok? <==> !s.closed && Base(s) <= id < s.registered && !s.window[id - Base(s)].flags.final)
            && (r == Err(CoordinatorClosed) <==> s.closed)
            && (r == Err(UnknownRequest) <==> !s.closed && !(Base(s) <= id < s.registered))
            && (r == Err(AlreadyComplete) <==> !s.closed && Base(s) <= id < s.registered && s.window[id - Base(s)].flags.final)
  {
    FindByOrdinal(s, id);
  }

  /** The status line sizes of the groups that have one. */
  function StatusLines(groups: seq<Group>): seq<nat> {
    if groups == [] then []
    else
      var last := groups[|groups| - 1];
      StatusLines(groups[..|groups| - 1]) + if last.statusLineSize == 0 then [] else [last.statusLineSize]
  }

  /** A group goes into the last one if and only if it has no status line and that one has no
      notificator, so no status line and no notificator is ever lost by queueing. */
  lemma MergesExactly(groups: seq<Group>, g: Group)
    ensures var r := Enqueue(groups, g);
            && (|r| == |groups| <==> groups != [] && groups[|groups| - 1].notificator.None? && g.statusLineSize == 0)
            && (|r| != |groups| ==> r == groups + [g])
            && StatusLines(r) == StatusLines(groups) + if g.statusLineSize == 0 then [] else [g.statusLineSize]
  {
    var r := Enqueue(groups, g);
    if |r| == |groups| {
      assert r[..|r| - 1] == groups[..|groups| - 1];
    } else {
      assert r[..|r| - 1] == groups;
    }
  }

  lemma RegisterKeepsConsistent(s: State)
    requires Consistent(s)
    ensures Register(s).Ok? <==> |s.window| < s.capacity
    ensures Register(s).Ok? ==> Consistent(Register(s).value)
  {
    if Register(s).Ok? {
      assert Base(Register(s).value) == Base(s);
    }
  }

  lemma AppendKeepsConsistent(s: State, id: RequestId, flags: Flags, g: Group)
    requires Consistent(s)
    ensures Append(s, id, flags, g).Ok? ==> Consistent(Append(s, id, flags, g).value)
  {
    var r := Append(s, id, flags, g);
    if r.Ok? {
      assert Base(r.value) == Base(s);
    }
  }

  lemma PopKeepsConsistent(s: State)
    requires Consistent(s) && Pop(s).Ok?
    ensures Consistent(Pop(s).value.state)
    ensures Pop(s).value.state.registered == s.registered
  {
    var t := Pop(s).value.state;
    if |t.window| < |s.window| {
      assert Base(t) == Base(s) + 1;
      forall k | 0 <= k < |t.window| ensures t.window[k].id == (Base(t) + k) % ID_LIMIT {
        assert t.window[k] == s.window[k + 1];
      }
    } else {
      assert Base(t) == Base(s);
    }
  }

  /** A response leaves the table exactly when the last group of a final response is popped, so a
      finished response never blocks the queue: nothing is ready only when the table is empty or
      the oldest response is unfinished and has no data. */
  lemma FinishedResponseNeverBlocks(s: State)
    requires Consistent(s) && !s.closed
    ensures var p := Pop(s).value;
            && (p.ready.None? <==> s.window == [] || s.window[0].groups == [])
            && (p.ready.None? && s.window != [] ==> !s.window[0].flags.final)
            && (|p.state.window| < |s.window| <==>
                  s.window != [] && |s.window[0].groups| == 1 && s.window[0].flags.final)
            && (p.state.closed <==>
                  |p.state.window| < |s.window| && s.window[0].flags.close)
  {}
}
