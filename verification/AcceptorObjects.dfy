/** The limiter, the lifetime monitor and the acceptor's slots as objects. */
module AcceptorObjects {
  import opened Wrappers
  import Spec = LimiterSpec

  class Limiter {
    const limit: nat
    var active: int
    var connections: int
    var pending: seq<nat>

    constructor (limit: nat)
      ensures this.limit == limit && active == 0 && connections == 0 && pending == []
    {
      this.limit := limit;
      active, connections, pending := 0, 0, [];
    }

    predicate HasFreeSlots()
      reads this
    {
      active + connections < limit
    }

    method IncrementParallelConnections()
      modifies this`active, this`connections
      ensures active == old(active) - 1 && connections == old(connections) + 1
    {
      active := active - 1;
      connections := connections + 1;
    }

    /** Returns the slot to be scheduled, if any: the one parked last. */
    method DecrementParallelConnections() returns (activate: Option<nat>)
      modifies this`connections, this`pending
      ensures connections == old(connections) - 1
      ensures activate.Some? <==> HasFreeSlots() && old(pending) != []
      ensures old(pending) == pending + if activate.Some? then [activate.value] else []
    {
      connections := connections - 1;
      activate := None;
      if HasFreeSlots() && pending != [] {
        activate := Some(pending[|pending| - 1]);
        pending := pending[..|pending| - 1];
      }
    }

    /** Whether `call_accept_now` is to be called; otherwise the slot was parked. */
    method AcceptNext(index: nat) returns (now: bool)
      modifies this`active, this`pending
      ensures now <==> old(HasFreeSlots())
      ensures now ==> active == old(active) + 1 && pending == old(pending)
      ensures !now ==> active == old(active) && pending == old(pending) + [index]
    {
      now := HasFreeSlots();
      if now {
        active := active + 1;
      } else {
        pending := pending + [index];
      }
    }
  }

  /** Movable owner of one counted connection. */
  class LifetimeMonitor {
    var manager: Limiter?

    constructor (m: Limiter)
      modifies m`active, m`connections
      ensures manager == m
      ensures m.active == old(m.active) - 1 && m.connections == old(m.connections) + 1
    {
      manager := m;
      m.IncrementParallelConnections();
    }

    constructor Move(other: LifetimeMonitor)
      modifies other
      ensures manager == old(other.manager) && other.manager == null
    {
      manager := other.manager;
      new;
      other.manager := null;
    }

    /** Only the last owner gives the connection back. */
    method Destroy() returns (activate: Option<nat>)
      modifies if manager == null then {} else {manager}
      ensures manager == null ==> activate == None
      ensures manager != null ==>
                && manager.connections == old(manager.connections) - 1
                && manager.active == old(manager.active)
                && (activate.Some? <==> manager.HasFreeSlots() && old(manager.pending) != [])
                && old(manager.pending) == manager.pending + if activate.Some? then [activate.value] else []
    {
      activate := None;
      if manager != null {
        activate := manager.DecrementParallelConnections();
      }
    }
  }

  class Acceptor {
    const limiter: Limiter
    const slots: array<Spec.Slot>
    ghost var live: nat
    ghost var lost: nat

    ghost predicate Valid()
      reads this, limiter, slots
    {
      forall k :: 0 <= k < |limiter.pending| ==> limiter.pending[k] < slots.Length
    }

    ghost function Model(): Spec.State
      reads this, limiter, slots
    {
      Spec.State(limiter.limit, limiter.active, limiter.connections, limiter.pending, slots[..], live, lost)
    }

    constructor (maxParallelConnections: nat, concurrentAccepts: nat)
      ensures Valid() && fresh(limiter) && fresh(slots)
      ensures Model() == Spec.Start(maxParallelConnections, concurrentAccepts)
    {
      limiter := new Limiter(maxParallelConnections);
      slots := new Spec.Slot[concurrentAccepts](_ => Spec.Unopened);
      live, lost := 0, 0;
    }

    method AcceptNext(i: nat)
      requires Valid() && i < slots.Length
      modifies limiter, slots
      ensures Valid() && Model() == Spec.AcceptNext(old(Model()), i)
    {
      var now := limiter.AcceptNext(i);
      slots[i] := if now then Spec.Accepting else Spec.Pending;
      assert slots[..] == old(slots[..])[i := slots[i]];
    }

    /** The loop of `open()`: every slot gets its first attempt, in order. */
    method Open()
      requires Valid() && forall i :: 0 <= i < slots.Length ==> slots[i] == Spec.Unopened
      modifies limiter, slots
      ensures Valid() && Model() == Spec.Run(old(Model()), OpenSteps(slots.Length))
    {
      var i := 0;
      while i < slots.Length
        invariant 0 <= i <= slots.Length && Valid()
        invariant forall k :: i <= k < slots.Length ==> slots[k] == Spec.Unopened
        invariant Model() == Spec.Run(old(Model()), OpenSteps(i))
      {
        assert OpenSteps(i + 1)[..i] == OpenSteps(i);
        AcceptNext(i);
        i := i + 1;
      }
    }

    /** The completion handler of an accept that succeeded: the connection is denied, or it gets a
        lifetime monitor; then the slot tries again. */
    method AcceptCurrentConnection(i: nat, allow: bool) returns (monitor: LifetimeMonitor?)
      requires Valid() && i < slots.Length && slots[i] == Spec.Accepting
      modifies this, limiter, slots
      ensures Valid()
      ensures Model() == Spec.Run(old(Model()), [Spec.AcceptOk(i), if allow then Spec.Allow(i) else Spec.Deny(i), Spec.AcceptAgain(i)])
      ensures if allow then monitor != null && fresh(monitor) && monitor.manager == limiter else monitor == null
    {
      ghost var s := Model();
      ghost var inspect := if allow then Spec.Allow(i) else Spec.Deny(i);
      monitor := null;
      if allow {
        monitor := new LifetimeMonitor(limiter);
        live := live + 1;
      } else {
        lost := lost + 1;
      }
      slots[i] := Spec.Handled;
      assert slots[..] == s.slots[i := Spec.Accepted][i := Spec.Handled];
      assert Model() == Spec.Next(Spec.Next(s, Spec.AcceptOk(i)), inspect);
      RunOfThree(s, Spec.AcceptOk(i), inspect, Spec.AcceptAgain(i));
      AcceptNext(i);
    }

    /** The completion handler of an accept that failed does nothing. */
    method AcceptFailed(i: nat)
      requires Valid() && i < slots.Length && slots[i] == Spec.Accepting
      modifies this, slots
      ensures Valid() && Model() == Spec.Next(old(Model()), Spec.AcceptError(i))
    {
      lost := lost + 1;
      slots[i] := Spec.Dropped;
      assert slots[..] == old(slots[..])[i := Spec.Dropped];
    }

    /** A connection dies with its monitor; the acceptor posts the attempt the limiter asks for. */
    method ConnectionDestroyed(monitor: LifetimeMonitor)
      requires Valid() && monitor.manager == limiter && 0 < live
      modifies this, limiter, slots
      ensures Valid() && Model() == Spec.Next(old(Model()), Spec.ConnectionDestroyed)
    {
      ghost var s := Model();
      var activate := monitor.Destroy();
      live := live - 1;
      if activate.Some? {
        assert s.pending[|s.pending| - 1] == activate.value;
      }
      if activate.Some? {
        slots[activate.value] := Spec.Scheduled;
        assert slots[..] == s.slots[activate.value := Spec.Scheduled];
      }
      assert limiter.pending == if activate.Some? then s.pending[..|s.pending| - 1] else s.pending;
    }

    method RetryScheduled(i: nat)
      requires Valid() && i < slots.Length && slots[i] == Spec.Scheduled
      modifies limiter, slots
      ensures Valid() && Model() == Spec.Next(old(Model()), Spec.Retry(i))
    {
      AcceptNext(i);
    }
  }

  ghost function OpenSteps(n: nat): seq<Spec.Step> {
    seq(n, (i: nat) => Spec.OpenSlot(i))
  }

  lemma RunOfThree(s: Spec.State, a: Spec.Step, b: Spec.Step, c: Spec.Step)
    ensures Spec.Run(s, [a, b, c]) == Spec.Next(Spec.Next(Spec.Next(s, a), b), c)
  {
    assert [a, b, c][..2] == [a, b] && [a, b][..1] == [a];
    assert Spec.Run(s, [a]) == Spec.Next(s, a) by { assert [a][..0] == []; }
    assert Spec.Run(s, [a, b]) == Spec.Next(Spec.Run(s, [a]), b);
  }
}
