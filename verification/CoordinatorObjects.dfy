/**
  `response_context_table_t` and `response_coordinator_t` as objects: a ring of contexts in a
  fixed array, proved against the value-level specification.
 */
module CoordinatorObjects {
  import opened Wrappers
  import opened Buffers
  import opened CoordinatorSpec

  lemma RingIndex(first: nat, k: nat, n: nat)
    requires first < n && k < n
    ensures (first + k) % n == if first + k < n then first + k else first + k - n
  {
    if first + k >= n {
      assert (first + k - n) % n == first + k - n;
      assert first + k == 1 * n + (first + k - n);
    }
  }

  lemma FireConcat(a: seq<Token>, b: seq<Token>, status: Status)
    ensures Fire(a + b, status) == Fire(a, status) + Fire(b, status)
  {}

  /** Dequeues group after group and tells its notificator. */
  method FireGroups(all: seq<Group>) returns (fired: seq<Firing>)
    ensures fired == Fire(GroupTokens(all), NotExecuted)
  {
    hide Fire, Tokens;
    fired := [];
    var groups := all;
    ghost var told: seq<Token> := [];
    FireConcat([], [], NotExecuted);
    while groups != []
      invariant fired == Fire(told, NotExecuted) && told + GroupTokens(groups) == GroupTokens(all)
    {
      FireConcat(told, Tokens(groups[0]), NotExecuted);
      fired := fired + Fire(Tokens(groups[0]), NotExecuted);
      told := told + Tokens(groups[0]);
      groups := groups[1..];
    }
    assert told == GroupTokens(all);
  }

  class ContextTable {
    const contexts: array<Context>
    var first: nat
    var count: nat

    ghost predicate Valid()
      reads this
    {
      && count <= contexts.Length
      && (if contexts.Length == 0 then first == 0 else first < contexts.Length)
    }

    /** All cells, read from the first one in use around the ring. */
    ghost function Ring(): (r: seq<Context>)
      requires Valid()
      reads this, contexts
      ensures |r| == contexts.Length
    {
      contexts[first..] + contexts[..first]
    }

    ghost function Window(): (r: seq<Context>)
      requires Valid()
      reads this, contexts
      ensures |r| == count
    {
      Ring()[..count]
    }

    /** Cells outside the window hold no groups: `reinit` relies on it. */
    ghost predicate Clean()
      requires Valid()
      reads this, contexts
    {
      forall k :: count <= k < contexts.Length ==> Ring()[k].groups == []
    }

    constructor (maxElements: nat)
      ensures Valid() && Clean() && Window() == []
      ensures contexts.Length == maxElements && fresh(contexts)
    {
      contexts := new Context[maxElements](_ => Context(0, [], FRESH_FLAGS));
      first, count := 0, 0;
    }

    predicate Empty()
      reads this
    {
      count == 0
    }

    predicate IsFull()
      reads this
    {
      contexts.Length == count
    }

    /** Writing the cell at window position `k` changes that entry of the ring and nothing else. */
    method Store(k: nat, ctx: Context)
      requires Valid() && k < contexts.Length
      modifies contexts
      ensures Ring() == old(Ring())[k := ctx]
    {
      RingIndex(first, k, contexts.Length);
      contexts[(first + k) % contexts.Length] := ctx;
    }

    method Load(k: nat) returns (ctx: Context)
      requires Valid() && k < contexts.Length
      ensures ctx == Ring()[k]
    {
      RingIndex(first, k, contexts.Length);
      ctx := contexts[(first + k) % contexts.Length];
    }

    /** The distance of the context from the front, when the lookup finds one. */
    method GetByReqId(id: RequestId) returns (r: Option<nat>)
      requires Valid()
      ensures r == Find(Window(), id)
    {
      if Empty() {
        return None;
      }
      var front := Load(0);
      var back := Load(count - 1);
      if id < front.id || id > back.id {
        return None;
      }
      return Some(id - front.id);
    }

    method PushResponseContext(id: RequestId) returns (r: Result<(), Error>)
      requires Valid()
      modifies this`count, contexts
      ensures Valid()
      ensures r.Err? <==> old(IsFull())
      ensures r.Err? ==> r.error == TableFull && Ring() == old(Ring()) && count == old(count)
      ensures r.Ok? ==> Window() == old(Window()) + [Reinit(old(Ring())[old(count)], id)]
      ensures r.Ok? && old(Clean()) ==> Clean() && Window() == old(Window()) + [Context(id, [], FRESH_FLAGS)]
    {
      if IsFull() {
        return Err(TableFull);
      }
      var cell := Load(count);
      Store(count, Reinit(cell, id));
      count := count + 1;
      return Ok(());
    }

    method PopResponseContextNonchecked()
      requires Valid() && !Empty()
      modifies this`first, this`count
      ensures Valid()
      ensures Window() == old(Window())[1..]
      ensures Ring() == old(Ring())[1..] + old(Ring())[..1]
    {
      count := count - 1;
      first := first + 1;
      if contexts.Length == first {
        first := 0;
      }
    }

    method PopResponseContext() returns (r: Result<(), Error>)
      requires Valid()
      modifies this`first, this`count
      ensures Valid()
      ensures r.Err? <==> old(Empty())
      ensures r.Err? ==> r.error == TableEmpty && Ring() == old(Ring()) && count == old(count)
      ensures r.Ok? ==> Window() == old(Window())[1..] && Ring() == old(Ring())[1..] + old(Ring())[..1]
    {
      if Empty() {
        return Err(TableEmpty);
      }
      PopResponseContextNonchecked();
      return Ok(());
    }

    /** One round of the drain loop of `reset`: empties the oldest context group by group, then
        drops it. */
    method DrainFront() returns (fired: seq<Firing>)
      requires Valid() && Clean() && !Empty()
      modifies this`first, this`count, contexts
      ensures Valid() && Clean()
      ensures Window() == old(Window())[1..]
      ensures fired == Fire(GroupTokens(old(Window())[0].groups), NotExecuted)
    {
      var ctx := Load(0);
      fired := FireGroups(ctx.groups);
      Store(0, ctx.(groups := []));
      PopResponseContextNonchecked();
    }

    method Drain() returns (fired: seq<Firing>)
      requires Valid() && Clean()
      modifies this`first, this`count, contexts
      ensures Valid() && Clean() && Window() == []
      ensures fired == Fire(QueuedTokens(old(Window())), NotExecuted)
    {
      hide Fire, GroupTokens, ContextTable.Ring, ContextTable.Window;
      fired := [];
      ghost var told: seq<Token> := [];
      FireConcat([], [], NotExecuted);
      ghost var all := QueuedTokens(Window());
      while !Empty()
        invariant Valid() && Clean()
        invariant fired == Fire(told, NotExecuted)
        invariant told + QueuedTokens(Window()) == all
        decreases count
      {
        ghost var now := Window();
        var more := DrainFront();
        assert QueuedTokens(now) == GroupTokens(now[0].groups) + QueuedTokens(Window());
        FireConcat(told, GroupTokens(now[0].groups), NotExecuted);
        fired := fired + more;
        told := told + GroupTokens(now[0].groups);
      }
      assert told == all;
    }
  }

  class Coordinator {
    const table: ContextTable
    var requestIdCounter: nat
    var closed: bool
    ghost var registered: nat

    ghost const Repr: set<object>

    ghost predicate Valid()
      reads this, Repr
    {
      && Repr == {this, table, table.contexts}
      && table.Valid() && table.Clean()
      && table.contexts.Length <= ID_LIMIT
      && requestIdCounter == registered % ID_LIMIT
      && Consistent(Model())
    }

    ghost function Model(): State
      requires Repr == {this, table, table.contexts}
      requires table.Valid()
      reads this, Repr
    {
      State(table.contexts.Length, table.Window(), registered, closed)
    }

    constructor (maxReqCount: nat)
      requires maxReqCount <= ID_LIMIT
      ensures Valid() && fresh(Repr) && Model() == Initial(maxReqCount)
    {
      var t := new ContextTable(maxReqCount);
      table := t;
      requestIdCounter, closed, registered := 0, false, 0;
      Repr := {this, t, t.contexts};
    }

    method RegisterNewRequest() returns (r: Result<RequestId, Error>)
      requires Valid()
      modifies Repr
      ensures Valid()
      ensures r.Ok? <==> Register(old(Model())).Ok?
      ensures r.Ok? ==> r.value == old(registered) % ID_LIMIT && Model() == Register(old(Model())).value
      ensures r.Err? ==> r.error == TableFull && Model() == old(Model())
    {
      RegisterKeepsConsistent(Model());
      var pushed := table.PushResponseContext(requestIdCounter);
      if pushed.Err? {
        return Err(pushed.error);
      }
      r := Ok(requestIdCounter);
      requestIdCounter := (requestIdCounter + 1) % ID_LIMIT;
      ModOffset(registered, 1);
      registered := registered + 1;
      assert Model() == Register(old(Model())).value;
    }

    method AppendResponse(id: RequestId, flags: Flags, g: Group) returns (r: Result<(), Error>)
      requires Valid()
      modifies Repr
      ensures Valid()
      ensures match Append(old(Model()), id, flags, g)
              case Ok(s) => r.Ok? && Model() == s
              case Err(e) => r == Err(e) && Model() == old(Model())
    {
      FindSound(Model(), id);
      AppendKeepsConsistent(Model(), id, flags, g);
      if closed {
        return Err(CoordinatorClosed);
      }
      var k := table.GetByReqId(id);
      if k.None? {
        return Err(UnknownRequest);
      }
      var ctx := table.Load(k.value);
      if ctx.flags.final {
        return Err(AlreadyComplete);
      }
      table.Store(k.value, Context(ctx.id, Enqueue(ctx.groups, g), flags));
      r := Ok(());
      assert Model() == Append(old(Model()), id, flags, g).value;
    }

    method PopReadyBuffers() returns (r: Result<Option<(Group, RequestId)>, Error>)
      requires Valid()
      modifies Repr
      ensures Valid()
      ensures match Pop(old(Model()))
              case Ok(p) => r == Ok(p.ready) && Model() == p.state
              case Err(e) => r == Err(e) && Model() == old(Model())
    {
      if closed {
        return Err(CoordinatorClosed);
      }
      PopKeepsConsistent(Model());
      hide Consistent;
      if table.Empty() {
        return Ok(None);
      }
      var ctx := table.Load(0);
      if ctx.groups == [] {
        return Ok(None);
      }
      r := Ok(Some((ctx.groups[0], ctx.id)));
      var rest := ctx.(groups := ctx.groups[1..]);
      table.Store(0, rest);
      if rest.IsComplete() {
        closed := rest.flags.close;
        var _ := table.PopResponseContext();
      }
      assert Model() == Pop(old(Model())).value.state;
    }

    /** Tells every queued notificator that nothing was written. */
    method ResetAll() returns (fired: seq<Firing>)
      requires Valid()
      modifies Repr
      ensures Valid()
      ensures Model() == Reset(old(Model()))
      ensures fired == Fire(QueuedTokens(old(Model()).window), NotExecuted)
    {
      fired := table.Drain();
    }
  }
}
