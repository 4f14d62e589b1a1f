/**
  The connection-count limiter together with the accept slots
  (restinio/connection_count_limiter.hpp, restinio/impl/acceptor.hpp) as a protocol.

  A step is one critical section of the limiter's lock or one completion handler; the steps of
  different threads interleave freely. A run covers one open period of the acceptor.
 */
module LimiterSpec {
  import opened Wrappers

  /** Where a socket slot is. */
  datatype Slot =
    | Unopened   // the loop of open() has not reached it
    | Accepting  // an asynchronous accept is outstanding
    | Accepted   // the accept completed, the new connection is being inspected
    | Handled    // the connection was created or denied, accept_next comes next
    | Pending    // parked inside the limiter
    | Scheduled  // taken from the limiter, a new attempt is posted
    | Dropped    // the accept failed, the slot is not used again

  /** `live` counts lifetime monitors; `lost` counts accepts that ended without one. */
  datatype State = State(
    limit: nat,
    active: int,        // m_active_accepts
    connections: int,   // m_connections
    pending: seq<nat>,  // m_pending_indexes
    slots: seq<Slot>,
    live: nat,
    lost: nat)

  datatype Step =
    | OpenSlot(i: nat)
    | AcceptOk(i: nat)
    | AcceptError(i: nat)
    | Allow(i: nat)
    | Deny(i: nat)
    | AcceptAgain(i: nat)
    | Retry(i: nat)
    | ConnectionDestroyed

  function Start(limit: nat, slots: nat): State {
    State(limit, 0, 0, [], seq(slots, _ => Unopened), 0, 0)
  }

  predicate HasFreeSlots(s: State) { s.active + s.connections < s.limit }

  /** `accept_next`. */
  function AcceptNext(s: State, i: nat): State
    requires i < |s.slots|
  {
    if HasFreeSlots(s) then s.(active := s.active + 1, slots := s.slots[i := Accepting])
    else s.(pending := s.pending + [i], slots := s.slots[i := Pending])
  }

  /** `increment_parallel_connections`, called by the constructor of a lifetime monitor. */
  function Increment(s: State): State {
    s.(active := s.active - 1, connections := s.connections + 1)
  }

  /** `decrement_parallel_connections`: the newest parked slot gets another attempt. */
  function Decrement(s: State): State {
    var t := s.(connections := s.connections - 1);
    if HasFreeSlots(t) && t.pending != [] && t.pending[|t.pending| - 1] < |t.slots| then
      var last := |t.pending| - 1;
      t.(pending := t.pending[..last], slots := t.slots[t.pending[last] := Scheduled])
    else t
  }

  predicate At(s: State, i: nat, where: Slot) { i < |s.slots| && s.slots[i] == where }

  predicate Enabled(s: State, step: Step) {
    match step
    case OpenSlot(i) => At(s, i, Unopened)
    case AcceptOk(i) => At(s, i, Accepting)
    case AcceptError(i) => At(s, i, Accepting)
    case Allow(i) => At(s, i, Accepted)
    case Deny(i) => At(s, i, Accepted)
    case AcceptAgain(i) => At(s, i, Handled)
    case Retry(i) => At(s, i, Scheduled)
    case ConnectionDestroyed => 0 < s.live
  }

  function Next(s: State, step: Step): (r: State)
    ensures r.limit == s.limit && |r.slots| == |s.slots| && s.lost <= r.lost
  {
    if !Enabled(s, step) then s
    else
      match step
      case OpenSlot(i) => AcceptNext(s, i)
      case AcceptOk(i) => s.(slots := s.slots[i := Accepted])
      case AcceptError(i) => s.(slots := s.slots[i := Dropped], lost := s.lost + 1)
      case Allow(i) => Increment(s).(slots := s.slots[i := Handled], live := s.live + 1)
      case Deny(i) => s.(slots := s.slots[i := Handled], lost := s.lost + 1)
      case AcceptAgain(i) => AcceptNext(s, i)
      case Retry(i) => AcceptNext(s, i)
      case ConnectionDestroyed => Decrement(s).(live := s.live - 1)
  }

  function Run(s: State, steps: seq<Step>): (r: State)
    ensures r.limit == s.limit && |r.slots| == |s.slots| && s.lost <= r.lost
  {
    if steps == [] then s else Next(Run(s, steps[..|steps| - 1]), steps[|steps| - 1])
  }

  /** How many slots are at a given place. */
  function Count(slots: seq<Slot>, where: Slot): nat {
    if slots == [] then 0
    else Count(slots[..|slots| - 1], where) + if slots[|slots| - 1] == where then 1 else 0
  }

  lemma {:induction false} CountUpdate(slots: seq<Slot>, i: nat, to: Slot, where: Slot)
    requires i < |slots|
    ensures Count(slots[i := to], where)
            == Count(slots, where) - (if slots[i] == where then 1 else 0) + (if to == where then 1 else 0)
  {
    var n := |slots| - 1;
    if i < n {
      CountUpdate(slots[..n], i, to, where);
      assert slots[i := to][..n] == slots[..n][i := to];
    } else {
      assert slots[i := to][..n] == slots[..n];
    }
  }

  /** Moving one slot. */
  lemma Move(slots: seq<Slot>, i: nat, to: Slot)
    requires i < |slots|
    ensures forall w :: Count(slots[i := to], w)
                        == Count(slots, w) - (if slots[i] == w then 1 else 0) + (if to == w then 1 else 0)
  {
    forall w ensures Count(slots[i := to], w)
                     == Count(slots, w) - (if slots[i] == w then 1 else 0) + (if to == w then 1 else 0) {
      CountUpdate(slots, i, to, w);
    }
  }

  ghost predicate Distinct(xs: seq<nat>) {
    forall a, b :: 0 <= a < b < |xs| ==> xs[a] != xs[b]
  }

  /** The stack holds exactly the parked slots, each once. */
  ghost predicate PendingExact(s: State) {
    && Distinct(s.pending)
    && |s.pending| == Count(s.slots, Pending)
    && (forall k :: 0 <= k < |s.pending| ==> At(s, s.pending[k], Pending))
    && (forall i :: At(s, i, Pending) ==> i in s.pending)
  }

  ghost predicate Counters(s: State) {
    && s.active == Count(s.slots, Accepting) + Count(s.slots, Accepted) + s.lost
    && s.connections == s.live
    && s.active + s.connections <= s.limit
  }

  /** No wakeup is lost: while a slot is parked, the limit is used up or attempts are on their way. */
  ghost predicate Awake(s: State) {
    s.pending != [] ==> s.limit <= s.active + s.connections + Count(s.slots, Scheduled)
  }

  ghost predicate Inv(s: State) {
    PendingExact(s) && Counters(s) && Awake(s)
  }

  lemma {:induction false} StartCounts(n: nat, where: Slot)
    requires where != Unopened
    ensures Count(seq(n, _ => Unopened), where) == 0
  {
    if n > 0 {
      StartCounts(n - 1, where);
      assert seq(n, _ => Unopened)[..n - 1] == seq(n - 1, _ => Unopened);
    }
  }

  lemma StartInv(limit: nat, slots: nat)
    ensures Inv(Start(limit, slots))
  {
    StartCounts(slots, Accepting);
    StartCounts(slots, Accepted);
    StartCounts(slots, Pending);
  }

  lemma AcceptNextInv(s: State, i: nat)
    requires Inv(s) && i < |s.slots| && s.slots[i] !in {Pending, Accepting, Accepted}
    ensures Inv(AcceptNext(s, i))
  {
    var t := AcceptNext(s, i);
    Move(s.slots, i, t.slots[i]);
    if HasFreeSlots(s) {
      forall k | At(t, k, Pending) ensures k in t.pending {
        assert At(s, k, Pending);
      }
    } else {
      forall k | At(t, k, Pending) ensures k in t.pending {
        if k != i {
          assert At(s, k, Pending);
        }
      }
      assert i !in s.pending;
    }
  }

  lemma DecrementInv(s: State)
    requires Inv(s) && 0 < s.live
    ensures Inv(Decrement(s).(live := s.live - 1))
  {
    if s.pending != [] {
      var last := |s.pending| - 1;
      var i := s.pending[last];
      assert At(s, i, Pending);
      var t := Decrement(s);
      Move(s.slots, i, Scheduled);
      assert forall k :: 0 <= k < last ==> s.pending[k] != i;
      forall k | At(t, k, Pending) ensures k in t.pending {
        assert At(s, k, Pending) && k in s.pending && k != i;
      }
    }
  }

  /** A move between places outside the limiter's stack. */
  lemma PendingMoves(s: State, i: nat, to: Slot)
    requires PendingExact(s) && i < |s.slots| && s.slots[i] != Pending && to != Pending
    ensures PendingExact(s.(slots := s.slots[i := to]))
  {
    var t := s.(slots := s.slots[i := to]);
    CountUpdate(s.slots, i, to, Pending);
    forall k | At(t, k, Pending) ensures k in t.pending {
      assert At(s, k, Pending);
    }
  }

  lemma NextInv(s: State, step: Step)
    requires Inv(s)
    ensures Inv(Next(s, step))
  {
    hide Inv, AcceptNext, Decrement, Increment;
    if Enabled(s, step) {
      match step {
        case OpenSlot(i) => AcceptNextInv(s, i);
        case AcceptAgain(i) => AcceptNextInv(s, i);
        case Retry(i) => AcceptNextInv(s, i);
        case ConnectionDestroyed => DecrementInv(s);
        case _ => CompletionInv(s, step);
      }
    }
  }

  /** The steps that leave the stack alone. */
  lemma CompletionInv(s: State, step: Step)
    requires Inv(s) && Enabled(s, step) && (step.AcceptOk? || step.AcceptError? || step.Allow? || step.Deny?)
    ensures Inv(Next(s, step))
  {
    var to := Next(s, step).slots[step.i];
    assert Next(s, step).slots == s.slots[step.i := to];
    PendingMoves(s, step.i, to);
    Move(s.slots, step.i, to);
  }

  lemma {:induction false} ReachableInv(limit: nat, slots: nat, steps: seq<Step>)
    ensures Inv(Run(Start(limit, slots), steps))
  {
    if steps == [] {
      StartInv(limit, slots);
    } else {
      ReachableInv(limit, slots, steps[..|steps| - 1]);
      NextInv(Run(Start(limit, slots), steps[..|steps| - 1]), steps[|steps| - 1]);
    }
  }

  /** For every interleaving: the counters are exact, never exceed the limit and never underflow
      (a monitor is created only while an accept is counted, destroyed only while one lives). */
  lemma CountersAreExact(limit: nat, slots: nat, steps: seq<Step>, s: State)
    requires s == Run(Start(limit, slots), steps)
    ensures s.active == Count(s.slots, Accepting) + Count(s.slots, Accepted) + s.lost
    ensures s.connections == s.live
    ensures s.active + s.connections <= limit
    ensures 0 <= s.active && 0 <= s.connections
    ensures forall i :: Enabled(s, Allow(i)) ==> 0 < s.active
    ensures Enabled(s, ConnectionDestroyed) ==> 0 < s.connections
  {
    ReachableInv(limit, slots, steps);
    forall i | Enabled(s, Allow(i)) ensures 0 < s.active {
      Occupied(s.slots, i);
    }
  }

  lemma {:induction false} Occupied(slots: seq<Slot>, i: nat)
    requires i < |slots|
    ensures 0 < Count(slots, slots[i])
  {
    if i < |slots| - 1 {
      Occupied(slots[..|slots| - 1], i);
    }
  }

  lemma {:induction false} CountBound(slots: seq<Slot>, where: Slot)
    ensures Count(slots, where) <= |slots|
  {
    if slots != [] {
      CountBound(slots[..|slots| - 1], where);
    }
  }

  /** The parked slots are on the stack, each once, so it never outgrows the capacity reserved for it. */
  lemma StackHoldsTheParkedSlots(limit: nat, slots: nat, steps: seq<Step>, s: State)
    requires s == Run(Start(limit, slots), steps)
    ensures Distinct(s.pending) && |s.pending| <= slots
    ensures forall i :: i in s.pending <==> At(s, i, Pending)
  {
    ReachableInv(limit, slots, steps);
    CountBound(s.slots, Pending);
    forall i ensures i in s.pending <==> At(s, i, Pending) {
      if i in s.pending {
        var k :| 0 <= k < |s.pending| && s.pending[k] == i;
      }
    }
  }

  /** No wakeup is lost: when a slot is parked and no attempt is on its way, the limit is used up
      by live connections, outstanding accepts and accepts that ended without a connection. */
  lemma NoLostWakeup(limit: nat, slots: nat, steps: seq<Step>, s: State)
    requires s == Run(Start(limit, slots), steps)
    requires s.pending != [] && Count(s.slots, Scheduled) == 0
    ensures s.live + Count(s.slots, Accepting) + Count(s.slots, Accepted) + s.lost == limit
  {
    ReachableInv(limit, slots, steps);
  }

  /** An accept that ended without a connection is never given back: in every continuation at most
      `limit - lost` accepts and connections are open at the same time. */
  lemma LostAcceptsShrinkTheLimit(limit: nat, slots: nat, steps: seq<Step>, s: State, more: seq<Step>, r: State)
    requires s == Run(Start(limit, slots), steps) && r == Run(Start(limit, slots), steps + more)
    ensures r.live + Count(r.slots, Accepting) + Count(r.slots, Accepted) <= limit - s.lost
  {
    ReachableInv(limit, slots, steps + more);
    RunSplit(Start(limit, slots), steps, more);
  }

  lemma {:induction false} RunSplit(s: State, steps: seq<Step>, more: seq<Step>)
    ensures Run(s, steps + more) == Run(Run(s, steps), more)
  {
    if more == [] {
      assert steps + more == steps;
    } else {
      var m := more[..|more| - 1];
      RunSplit(s, steps, m);
      assert (steps + more)[..|steps + more| - 1] == steps + m;
    }
  }

  /** A slot whose accept failed is given up: it stays dropped in every continuation. */
  lemma {:induction false} FailedSlotIsGivenUp(limit: nat, slots: nat, steps: seq<Step>, s: State, i: nat, more: seq<Step>)
    requires s == Run(Start(limit, slots), steps) && Enabled(s, AcceptError(i))
    ensures At(Run(Next(s, AcceptError(i)), more), i, Dropped)
  {
    var t := Next(s, AcceptError(i));
    ReachableInv(limit, slots, steps);
    NextInv(s, AcceptError(i));
    if more != [] {
      var m := more[..|more| - 1];
      FailedSlotIsGivenUp(limit, slots, steps, s, i, m);
      RunInv(t, m);
      DroppedStays(Run(t, m), more[|more| - 1], i);
    }
  }

  lemma DroppedStays(s: State, step: Step, i: nat)
    requires Inv(s) && At(s, i, Dropped)
    ensures At(Next(s, step), i, Dropped)
  {
    if step.ConnectionDestroyed? && s.pending != [] {
      assert At(s, s.pending[|s.pending| - 1], Pending);
    }
  }

  // ---------------------------------------------------------------------------------------------
  // What accepts that ended without a connection leave of the limit.

  /** One denied connection uses up a limit of one: the only slot is parked for good. */
  lemma DeniedAcceptIsNotGivenBack()
    ensures var s := Run(Start(1, 1), [OpenSlot(0), AcceptOk(0), Deny(0), AcceptAgain(0)]);
            s.lost == 1 && s.live == 0 && s.pending == [0] && s.slots == [Pending]
  {
    var s0 := Start(1, 1);
    assert s0.slots == [Unopened];
    var s1 := State(1, 1, 0, [], [Accepting], 0, 0);
    var s2 := s1.(slots := [Accepted]);
    var s3 := s1.(slots := [Handled], lost := 1);
    assert Next(s0, OpenSlot(0)) == s1 && Next(s1, AcceptOk(0)) == s2 && Next(s2, Deny(0)) == s3;
    assert Next(s3, AcceptAgain(0)) == s1.(slots := [Pending], pending := [0], lost := 1);
    hide Next;
    OneStep(s0, OpenSlot(0));
    RunSplit(s0, [OpenSlot(0)], [AcceptOk(0)]);
    OneStep(s1, AcceptOk(0));
    RunSplit(s0, [OpenSlot(0)] + [AcceptOk(0)], [Deny(0)]);
    OneStep(s2, Deny(0));
    RunSplit(s0, [OpenSlot(0)] + [AcceptOk(0)] + [Deny(0)], [AcceptAgain(0)]);
    OneStep(s3, AcceptAgain(0));
    assert [OpenSlot(0), AcceptOk(0), Deny(0), AcceptAgain(0)] == [OpenSlot(0)] + [AcceptOk(0)] + [Deny(0)] + [AcceptAgain(0)];
  }

  /** Some slot is not given up. */
  ghost predicate SlotLeft(s: State) { exists i: nat :: i < |s.slots| && s.slots[i] != Dropped }

  /** In some continuation a new connection can be created. */
  ghost predicate ServesAgain(s: State) {
    exists more: seq<Step>, i: nat :: Enabled(Run(s, more), Allow(i))
  }

  lemma {:induction false} SomeoneThere(slots: seq<Slot>, where: Slot) returns (i: nat)
    requires 0 < Count(slots, where)
    ensures i < |slots| && slots[i] == where
  {
    var n := |slots| - 1;
    if slots[n] == where {
      i := n;
    } else {
      i := SomeoneThere(slots[..n], where);
    }
  }

  /** A slot that can start an accept at once when there is room. */
  predicate Ready(where: Slot) { where == Unopened || where == Handled || where == Scheduled }

  function Attempt(s: State, i: nat): Step
    requires i < |s.slots|
  {
    match s.slots[i]
    case Unopened => OpenSlot(i)
    case Handled => AcceptAgain(i)
    case _ => Retry(i)
  }

  /** With room in the limiter and no accept on its way, some slot is ready: if a slot is parked, no
      wakeup was lost. */
  lemma RoomMeansReady(s: State) returns (i: nat)
    requires Inv(s) && SlotLeft(s) && s.live + s.lost < s.limit
    requires Count(s.slots, Accepting) == 0 && Count(s.slots, Accepted) == 0
    ensures i < |s.slots| && Ready(s.slots[i]) && HasFreeSlots(s)
  {
    i :| i < |s.slots| && s.slots[i] != Dropped;
    Occupied(s.slots, i);
    if s.slots[i] == Pending {
      assert At(s, i, Pending);
      i := SomeoneThere(s.slots, Scheduled);
    }
  }

  lemma NoStep(s: State)
    ensures Run(s, []) == s
  {}

  lemma OneStep(s: State, step: Step)
    ensures Run(s, [step]) == Next(s, step)
  {
    assert [step][..0] == [];
  }

  /** While fewer than `limit - lost` connections are open, another one can be created. */
  lemma RoomMeansServed(s: State) returns (more: seq<Step>, i: nat)
    requires Inv(s) && SlotLeft(s) && s.live + s.lost < s.limit
    ensures var r := Run(s, more); Inv(r) && Enabled(r, Allow(i)) && r.live == s.live && r.lost == s.lost
  {
    hide Inv, Run, Count;
    if 0 < Count(s.slots, Accepted) {
      more := [];
      assert Run(s, []) == s by { NoStep(s); }
      i := SomeoneThere(s.slots, Accepted);
    } else if 0 < Count(s.slots, Accepting) {
      i := SomeoneThere(s.slots, Accepting);
      more := [AcceptOk(i)];
      NextInv(s, AcceptOk(i));
      OneStep(s, AcceptOk(i));
    } else {
      i := RoomMeansReady(s);
      var a := Attempt(s, i);
      var t := Next(s, a);
      NextInv(s, a);
      NextInv(t, AcceptOk(i));
      OneStep(s, a);
      OneStep(t, AcceptOk(i));
      more := [a] + [AcceptOk(i)];
      RunSplit(s, [a], [AcceptOk(i)]);
    }
  }

  lemma ParkedThere(s: State)
    requires PendingExact(s)
    ensures s.pending != [] ==> At(s, s.pending[0], Pending)
  {}

  lemma {:induction false} AllDropped(s: State, more: seq<Step>)
    requires forall i: nat :: i < |s.slots| ==> s.slots[i] == Dropped
    requires PendingExact(s)
    ensures Run(s, more).slots == s.slots && Run(s, more).pending == []
  {
    if more == [] {
      ParkedThere(s);
    } else {
      AllDropped(s, more[..|more| - 1]);
    }
  }

  lemma {:induction false} RunInv(s: State, more: seq<Step>)
    requires Inv(s)
    ensures Inv(Run(s, more))
  {
    if more != [] {
      RunInv(s, more[..|more| - 1]);
      NextInv(Run(s, more[..|more| - 1]), more[|more| - 1]);
    }
  }

  /** A reachable server serves again if and only if fewer accepts than the limit ended without a
      connection and some slot is left; otherwise it is dead in every continuation. */
  lemma ServesAgainExactly(limit: nat, slots: nat, steps: seq<Step>, s: State)
    requires s == Run(Start(limit, slots), steps)
    ensures ServesAgain(s) <==> s.lost < limit && SlotLeft(s)
  {
    ReachableInv(limit, slots, steps);
    if ServesAgain(s) {
      var more: seq<Step>, i: nat :| Enabled(Run(s, more), Allow(i));
      var r := Run(s, more);
      RunInv(s, more);
      Occupied(r.slots, i);
      if !SlotLeft(s) {
        AllDropped(s, more);
      }
    } else if s.lost < limit && SlotLeft(s) {
      MakeRoom(s);
    }
  }

  /** If the connections use up what is left, one of them has to end first. */
  lemma MakeRoom(s: State)
    requires Inv(s) && s.lost < s.limit && SlotLeft(s)
    ensures ServesAgain(s)
  {
    hide Run, Count, PendingExact;
    if s.live + s.lost < s.limit {
      var more, i := RoomMeansServed(s);
    } else {
      var t := Next(s, ConnectionDestroyed);
      NextInv(s, ConnectionDestroyed);
      var k: nat :| k < |s.slots| && s.slots[k] != Dropped;
      assert t.slots[k] != Dropped;
      var more, i := RoomMeansServed(t);
      OneStep(s, ConnectionDestroyed);
      RunSplit(s, [ConnectionDestroyed], more);
      assert Enabled(Run(s, [ConnectionDestroyed] + more), Allow(i));
    }
  }

  /** The limit that is left is exactly `limit - lost`: as long as a slot is left, some continuation
      has so many connections open at once (and by LostAcceptsShrinkTheLimit none has more). */
  lemma {:induction false} RestOfTheLimitIsUsable(limit: nat, slots: nat, steps: seq<Step>, s: State) returns (more: seq<Step>)
    requires s == Run(Start(limit, slots), steps) && SlotLeft(s)
    ensures var r := Run(s, more); r.live + r.lost == limit && r.lost == s.lost
    decreases limit - s.live - s.lost
  {
    ReachableInv(limit, slots, steps);
    if s.live + s.lost == limit {
      more := [];
    } else {
      var first, i := RoomMeansServed(s);
      var t := Run(s, first);
      var u := Next(t, Allow(i));
      RunSplit(Start(limit, slots), steps, first);
      OneStep(t, Allow(i));
      RunSplit(Start(limit, slots), steps + first, [Allow(i)]);
      assert u.slots[i] != Dropped;
      var rest := RestOfTheLimitIsUsable(limit, slots, steps + first + [Allow(i)], u);
      RunSplit(s, first, [Allow(i)]);
      RunSplit(s, first + [Allow(i)], rest);
      more := first + [Allow(i)] + rest;
    }
  }
}
