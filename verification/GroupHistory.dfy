/**
  All histories of write groups: creation, moves, swaps, assignments, merges, notifications and
  destruction, in any order on any number of groups (restinio/buffers.hpp).
 */
module GroupHistory {
  import opened Wrappers
  import opened Buffers

  /** The groups made so far (None: destroyed), the notificators handed out, and those called. */
  datatype Groups = Groups(all: seq<Option<Group>>, tokens: nat, fired: seq<Firing>)

  datatype Step =
    | Create(items: seq<Item>)
    | Attach(i: nat)                    // after_write_notificator, with a new notificator
    | MoveOut(i: nat)                   // a new group is move constructed
    | SwapWith(i: nat, j: nat)
    | AssignFrom(i: nat, j: nat)        // move assignment of j to i
    | MergeFrom(i: nat, j: nat)         // i.merge(std::move(j))
    | Invoke(i: nat, status: Status)
    | DestroyIt(i: nat)

  const NONE := Groups([], 0, [])

  predicate Alive(h: Groups, i: nat) { i < |h.all| && h.all[i].Some? }

  predicate Enabled(h: Groups, step: Step) {
    match step
    case Create(_) => true
    case SwapWith(i, j) => Alive(h, i) && Alive(h, j)
    case AssignFrom(i, j) => Alive(h, i) && Alive(h, j)
    case MergeFrom(i, j) => Alive(h, i) && Alive(h, j)
    case _ => Alive(h, step.i)
  }

  function Put(h: Groups, i: nat, g: Group): Groups
    requires i < |h.all|
  {
    h.(all := h.all[i := Some(g)])
  }

  function Log(h: Groups, g: Group, status: Status): Groups {
    h.(fired := h.fired + Fire(Tokens(g), status))
  }

  function Next(h: Groups, step: Step): Groups {
    if !Enabled(h, step) then h
    else
      match step
      case Create(items) => h.(all := h.all + [Some(Group(items, 0, None))])
      case Attach(i) => Put(h, i, h.all[i].value.(notificator := Some(h.tokens))).(tokens := h.tokens + 1)
      case MoveOut(i) => var t := Put(h, i, EMPTY_GROUP); t.(all := t.all + [h.all[i]])
      case SwapWith(i, j) => Put(Put(h, i, h.all[j].value), j, h.all[i].value)
      case AssignFrom(i, j) =>
        if i == j then h else Log(Put(Put(h, i, h.all[j].value), j, EMPTY_GROUP), h.all[i].value, DestroyedPassively)
      case MergeFrom(i, j) =>
        var t := Put(h, j, EMPTY_GROUP);
        Put(t, i, Merged(t.all[i].value, h.all[j].value))
      case Invoke(i, status) => Log(Put(h, i, h.all[i].value.(notificator := None)), h.all[i].value, status)
      case DestroyIt(i) => Log(h.(all := h.all[i := None]), h.all[i].value, DestroyedPassively)
  }

  function Run(steps: seq<Step>): Groups {
    if steps == [] then NONE else Next(Run(steps[..|steps| - 1]), steps[|steps| - 1])
  }

  /** The notificator a step overwrites without calling it: a group that has one gets a new one, or
      is the first of two groups merged. */
  function Overwritten(h: Groups, step: Step): seq<Token> {
    match step
    case Attach(i) => if Alive(h, i) then Tokens(h.all[i].value) else []
    case MergeFrom(i, j) => if i != j && Alive(h, i) && Alive(h, j) then Tokens(h.all[i].value) else []
    case _ => []
  }

  /** No notificator was overwritten along the way. */
  ghost predicate NothingOverwritten(steps: seq<Step>) {
    forall k :: 0 <= k < |steps| ==> Overwritten(Run(steps[..k]), steps[k]) == []
  }

  // ---------------------------------------------------------------------------------------------

  /** How often a notificator is held, was called, was overwritten. */
  function Has(g: Option<Group>, t: Token): nat { if g.Some? && g.value.notificator == Some(t) then 1 else 0 }

  function Held(all: seq<Option<Group>>, t: Token): nat {
    if all == [] then 0 else Held(all[..|all| - 1], t) + Has(all[|all| - 1], t)
  }

  function Called(fired: seq<Firing>, t: Token): nat {
    if fired == [] then 0 else Called(fired[..|fired| - 1], t) + if fired[|fired| - 1].token == t then 1 else 0
  }

  function Among(tokens: seq<Token>, t: Token): nat { if t in tokens then 1 else 0 }

  function Lost(steps: seq<Step>, t: Token): nat {
    if steps == [] then 0
    else
      var init := steps[..|steps| - 1];
      Lost(init, t) + Among(Overwritten(Run(init), steps[|steps| - 1]), t)
  }

  lemma {:induction false} HeldUpdate(all: seq<Option<Group>>, i: nat, g: Option<Group>, t: Token)
    requires i < |all|
    ensures Held(all[i := g], t) == Held(all, t) - Has(all[i], t) + Has(g, t)
  {
    var n := |all| - 1;
    if i < n {
      HeldUpdate(all[..n], i, g, t);
      assert all[i := g][..n] == all[..n][i := g];
    } else {
      assert all[i := g][..n] == all[..n];
    }
  }

  lemma HeldMore(all: seq<Option<Group>>, g: Option<Group>, t: Token)
    ensures Held(all + [g], t) == Held(all, t) + Has(g, t)
  {
    assert (all + [g])[..|all|] == all;
  }

  lemma CalledMore(fired: seq<Firing>, g: Group, status: Status, t: Token)
    ensures Called(fired + Fire(Tokens(g), status), t) == Called(fired, t) + Has(Some(g), t)
  {
    var more := fired + Fire(Tokens(g), status);
    if g.notificator.Some? {
      assert more[..|more| - 1] == fired;
    } else {
      assert more == fired;
    }
  }

  /** Nothing but a new notificator, an overwritten one and a call changes the balance of a step. */
  lemma StepBalance(h: Groups, step: Step, t: Token)
    ensures var r := Next(h, step);
            && h.tokens <= r.tokens
            && Held(r.all, t) + Called(r.fired, t) + Among(Overwritten(h, step), t)
               == Held(h.all, t) + Called(h.fired, t) + if h.tokens <= t < r.tokens then 1 else 0
  {
    hide Held, Called;
    if Enabled(h, step) {
      match step {
        case Create(items) => HeldMore(h.all, Some(Group(items, 0, None)), t);
        case Attach(i) => HeldUpdate(h.all, i, Some(h.all[i].value.(notificator := Some(h.tokens))), t);
        case MoveOut(i) =>
          HeldUpdate(h.all, i, Some(EMPTY_GROUP), t);
          HeldMore(h.all[i := Some(EMPTY_GROUP)], h.all[i], t);
        case SwapWith(i, j) =>
          HeldUpdate(h.all, i, h.all[j], t);
          HeldUpdate(h.all[i := h.all[j]], j, h.all[i], t);
        case AssignFrom(i, j) =>
          HeldUpdate(h.all, i, h.all[j], t);
          HeldUpdate(h.all[i := h.all[j]], j, Some(EMPTY_GROUP), t);
          CalledMore(h.fired, h.all[i].value, DestroyedPassively, t);
        case MergeFrom(i, j) =>
          var u := h.all[j := Some(EMPTY_GROUP)];
          HeldUpdate(h.all, j, Some(EMPTY_GROUP), t);
          HeldUpdate(u, i, Some(Merged(u[i].value, h.all[j].value)), t);
        case Invoke(i, status) =>
          HeldUpdate(h.all, i, Some(h.all[i].value.(notificator := None)), t);
          CalledMore(h.fired, h.all[i].value, status, t);
        case DestroyIt(i) =>
          HeldUpdate(h.all, i, None, t);
          CalledMore(h.fired, h.all[i].value, DestroyedPassively, t);
      }
    }
  }

  /** Every notificator handed out is held once, was called once, or was overwritten once. */
  lemma {:induction false} NotificatorBalance(steps: seq<Step>, t: Token)
    ensures var h := Run(steps);
            Held(h.all, t) + Called(h.fired, t) + Lost(steps, t) == if t < h.tokens then 1 else 0
  {
    if steps != [] {
      hide Next, Overwritten, Held, Called;
      var init := steps[..|steps| - 1];
      NotificatorBalance(init, t);
      StepBalance(Run(init), steps[|steps| - 1], t);
    }
  }

  lemma {:induction false} DestroyedHoldNothing(all: seq<Option<Group>>, t: Token)
    requires forall i :: 0 <= i < |all| ==> all[i].None?
    ensures Held(all, t) == 0
  {
    if all != [] {
      DestroyedHoldNothing(all[..|all| - 1], t);
    }
  }

  lemma {:induction false} NothingLost(steps: seq<Step>, t: Token)
    requires NothingOverwritten(steps)
    ensures Lost(steps, t) == 0
  {
    hide Overwritten, Run;
    if steps != [] {
      var n := |steps| - 1;
      var init := steps[..n];
      forall k | 0 <= k < n ensures Overwritten(Run(init[..k]), init[k]) == [] {
        assert init[..k] == steps[..k] && init[k] == steps[k];
      }
      NothingLost(init, t);
    }
  }

  lemma {:induction false} SomethingLost(steps: seq<Step>, k: nat, t: Token)
    requires k < |steps| && t in Overwritten(Run(steps[..k]), steps[k])
    ensures 0 < Lost(steps, t)
  {
    hide Overwritten, Run;
    var n := |steps| - 1;
    if k < n {
      assert steps[..n][..k] == steps[..k];
      SomethingLost(steps[..n], k, t);
    }
  }

  ghost predicate AllDestroyed(h: Groups) { forall i :: 0 <= i < |h.all| ==> h.all[i].None? }

  /** Every notificator handed out was called exactly once. */
  ghost predicate AllCalledOnce(h: Groups) { forall t :: 0 <= t < h.tokens ==> Called(h.fired, t) == 1 }

  /** In every history a notificator is called at most once, and only one that was handed out. */
  lemma CalledAtMostOnce(steps: seq<Step>, t: Token)
    ensures var h := Run(steps); Called(h.fired, t) <= if t < h.tokens then 1 else 0
  {
    NotificatorBalance(steps, t);
  }

  /** When all groups are destroyed, every notificator was called exactly once if and only if none was
      overwritten: no group with one got a new one or was the first of a merge. */
  lemma CalledExactlyOnce(steps: seq<Step>)
    requires AllDestroyed(Run(steps))
    ensures AllCalledOnce(Run(steps)) <==> NothingOverwritten(steps)
  {
    if NothingOverwritten(steps) {
      OnceIfNothingOverwritten(steps);
    } else {
      NotOnceIfOverwritten(steps);
    }
  }

  lemma OnceIfNothingOverwritten(steps: seq<Step>)
    requires AllDestroyed(Run(steps)) && NothingOverwritten(steps)
    ensures AllCalledOnce(Run(steps))
  {
    hide Run, NothingOverwritten, Called, Held, Lost;
    var h := Run(steps);
    forall t | 0 <= t < h.tokens ensures Called(h.fired, t) == 1 {
      NotificatorBalance(steps, t);
      DestroyedHoldNothing(h.all, t);
      NothingLost(steps, t);
    }
  }

  lemma NotOnceIfOverwritten(steps: seq<Step>)
    requires !NothingOverwritten(steps)
    ensures !AllCalledOnce(Run(steps))
  {
    hide Run, Called, Held, Lost, Overwritten;
    var k :| 0 <= k < |steps| && Overwritten(Run(steps[..k]), steps[k]) != [];
    var t := Overwritten(Run(steps[..k]), steps[k])[0];
    SomethingLost(steps, k, t);
    NotificatorBalance(steps, t);
    assert Called(Run(steps).fired, t) == 0;
  }

  // ---------------------------------------------------------------------------------------------
  // The same on objects.

  /** A program with its write groups: every step is calls on the objects. */
  class Program {
    var groups: seq<WriteGroup>
    var alive: seq<bool>
    var tokens: nat
    var fired: seq<Firing>

    ghost predicate Valid()
      reads this
    {
      && |alive| == |groups|
      && (forall i, j :: 0 <= i < j < |groups| ==> groups[i] != groups[j])
    }

    /** The objects are in the state `h`. */
    ghost predicate Is(h: Groups)
      reads this, groups
    {
      && Valid() && |h.all| == |groups| && h.tokens == tokens && h.fired == fired
      && forall i :: 0 <= i < |groups| ==> h.all[i] == if alive[i] then Some(groups[i].Value()) else None
    }

    constructor ()
      ensures Is(NONE)
    {
      groups, alive, tokens, fired := [], [], 0, [];
    }

    method Add(g: WriteGroup, ghost h: Groups)
      requires Is(h) && g !in groups
      modifies this
      ensures Is(h.(all := h.all + [Some(g.Value())])) && groups == old(groups) + [g]
    {
      groups, alive := groups + [g], alive + [true];
    }

    method Record(calls: seq<Firing>, ghost h: Groups)
      requires Is(h)
      modifies this`fired
      ensures Is(h.(fired := h.fired + calls))
    {
      fired := fired + calls;
    }

    method Create(items: seq<Item>, ghost h: Groups)
      requires Is(h)
      modifies this
      ensures Is(Next(h, Step.Create(items)))
    {
      var g := new WriteGroup(items);
      Add(g, h);
    }

    method Attach(i: nat, ghost h: Groups)
      requires Is(h) && Alive(h, i)
      modifies this, groups[i]
      ensures Is(Next(h, Step.Attach(i)))
    {
      groups[i].SetNotificator(tokens);
      tokens := tokens + 1;
    }

    method MoveOut(i: nat, ghost h: Groups)
      requires Is(h) && Alive(h, i)
      modifies this, groups[i]
      ensures Is(Next(h, Step.MoveOut(i)))
    {
      var g := new WriteGroup.Move(groups[i]);
      Add(g, Put(h, i, EMPTY_GROUP));
    }

    method SwapWith(i: nat, j: nat, ghost h: Groups)
      requires Is(h) && Alive(h, i) && Alive(h, j)
      modifies groups[i], groups[j]
      ensures Is(Next(h, Step.SwapWith(i, j)))
    {
      groups[i].Swap(groups[j]);
    }

    method AssignFrom(i: nat, j: nat, ghost h: Groups)
      requires Is(h) && Alive(h, i) && Alive(h, j)
      modifies this, groups[i], groups[j]
      ensures Is(Next(h, Step.AssignFrom(i, j)))
    {
      var calls := groups[i].Assign(groups[j]);
      Record(calls, if i == j then h else Put(Put(h, i, h.all[j].value), j, EMPTY_GROUP));
    }

    method MergeFrom(i: nat, j: nat, ghost h: Groups)
      requires Is(h) && Alive(h, i) && Alive(h, j)
      modifies this, groups[i], groups[j]
      ensures Is(Next(h, Step.MergeFrom(i, j)))
    {
      var second := new WriteGroup.Move(groups[j]);
      var calls := groups[i].Merge(second);
      Record(calls, Next(h, Step.MergeFrom(i, j)));
    }

    method Invoke(i: nat, status: Status, ghost h: Groups)
      requires Is(h) && Alive(h, i)
      modifies this, groups[i]
      ensures Is(Next(h, Step.Invoke(i, status)))
    {
      var calls := groups[i].InvokeNotificator(status);
      Record(calls, Put(h, i, h.all[i].value.(notificator := None)));
    }

    method DestroyIt(i: nat, ghost h: Groups)
      requires Is(h) && Alive(h, i)
      modifies this, groups[i]
      ensures Is(Next(h, Step.DestroyIt(i)))
    {
      var calls := groups[i].Destroy();
      alive := alive[i := false];
      Record(calls, h.(all := h.all[i := None]));
    }
  }
}
