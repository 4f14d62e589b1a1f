/**
  Cutting a write group into gather writes and sendfile operations
  (restinio/impl/write_group_output_ctx.hpp).
 */
module WriteOutput {
  import opened Wrappers
  import opened Buffers

  datatype Operation =
    | NoOperation
    | TrivialWrite(bufs: seq<string>, size: nat)
    | FileWrite(item: Item)

  /** The end of the longest run of trivial items from `i`, at most `cap` of them. */
  function RunEnd(items: seq<Item>, i: nat, cap: nat): (r: nat)
    requires i <= |items|
    ensures i <= r <= |items| && r - i <= cap
    ensures forall k :: i <= k < r ==> items[k].Trivial?
    ensures r == |items| || r - i == cap || items[r].SendFile?
    decreases cap
  {
    if i < |items| && items[i].Trivial? && 0 < cap then RunEnd(items, i + 1, cap - 1) else i
  }

  /** Where the operation that starts at item `i` ends. */
  function OperationEnd(items: seq<Item>, i: nat, maxIov: nat): (r: nat)
    requires i <= |items|
    ensures i <= r <= |items|
  {
    if i == |items| then i
    else if items[i].Trivial? then RunEnd(items, i, maxIov)
    else i + 1
  }

  function Contents(items: seq<Item>): seq<string>
    requires forall k :: 0 <= k < |items| ==> items[k].Trivial?
  {
    seq(|items|, k requires 0 <= k < |items| => items[k].bytes)
  }

  function TotalSize(items: seq<Item>): nat {
    if items == [] then 0 else TotalSize(items[..|items| - 1]) + items[|items| - 1].Size()
  }

  /** The operation that sends exactly `items`: one sendfile, or one gather write. */
  ghost predicate Sends(op: Operation, items: seq<Item>, maxIov: nat) {
    match op
    case NoOperation => items == []
    case FileWrite(item) => items == [item] && item.SendFile?
    case TrivialWrite(bufs, size) =>
      && 0 < |items| <= maxIov
      && (forall k :: 0 <= k < |items| ==> items[k].Trivial?)
      && bufs == Contents(items)
      && size == TotalSize(items)
  }

  /** The slices handed out by repeated extraction from item `i` on. */
  ghost function Slices(items: seq<Item>, i: nat, maxIov: nat): seq<seq<Item>>
    requires i <= |items| && 0 < maxIov
    decreases |items| - i
  {
    if i == |items| then []
    else
      var j := OperationEnd(items, i, maxIov);
      [items[i..j]] + Slices(items, j, maxIov)
  }

  ghost function Flatten(slices: seq<seq<Item>>): seq<Item> {
    if slices == [] then [] else slices[0] + Flatten(slices[1..])
  }

  /** Uniform: a nonempty run of at most `maxIov` trivial items, or exactly one file item. */
  ghost predicate Solid(slice: seq<Item>, maxIov: nat) {
    || (0 < |slice| <= maxIov && forall k :: 0 <= k < |slice| ==> slice[k].Trivial?)
    || (|slice| == 1 && slice[0].SendFile?)
  }

  /** Two neighbouring gather writes are separate only because the first one is full. */
  ghost predicate Maximal(slices: seq<seq<Item>>, maxIov: nat) {
    forall n | 0 <= n && n + 1 < |slices| && slices[n] != [] && slices[n + 1] != [] &&
               slices[n][0].Trivial? && slices[n + 1][0].Trivial?
      :: |slices[n]| == maxIov
  }

  /** Repeated extraction partitions the items of a group, in order, into solid operations. */
  lemma {:induction false} ExtractionPartitions(items: seq<Item>, i: nat, maxIov: nat)
    requires i <= |items| && 0 < maxIov
    ensures var slices := Slices(items, i, maxIov);
            && Flatten(slices) == items[i..]
            && (forall n :: 0 <= n < |slices| ==> Solid(slices[n], maxIov))
            && Maximal(slices, maxIov)
            && (i < |items| ==> slices != [] && slices[0] != [] && slices[0][0] == items[i])
    decreases |items| - i
  {
    if i < |items| {
      var j := OperationEnd(items, i, maxIov);
      ExtractionPartitions(items, j, maxIov);
      var slices := Slices(items, i, maxIov);
      var rest := Slices(items, j, maxIov);
      assert slices[1..] == rest;
      assert items[i..j] + items[j..] == items[i..];
      forall n | 0 <= n && n + 1 < |slices| && slices[n] != [] && slices[n + 1] != [] &&
                 slices[n][0].Trivial? && slices[n + 1][0].Trivial?
        ensures |slices[n]| == maxIov
      {
        if n == 0 {
          assert slices[1] == rest[0] && rest[0][0] == items[j];
        } else {
          assert slices[n] == rest[n - 1] && slices[n + 1] == rest[n];
        }
      }
    }
  }

  lemma EmptySlice()
    ensures Contents([]) == [] && TotalSize([]) == 0
  {}

  lemma OneMoreBuffer(items: seq<Item>, item: Item)
    requires item.Trivial? && forall k :: 0 <= k < |items| ==> items[k].Trivial?
    ensures Contents(items + [item]) == Contents(items) + [item.bytes]
  {
    hide TotalSize;
  }

  lemma {:induction false} OneMoreSize(items: seq<Item>, item: Item)
    ensures TotalSize(items + [item]) == TotalSize(items) + item.Size()
  {
    assert (items + [item])[..|items|] == items;
  }

  lemma RunGoesOn(items: seq<Item>, i: nat, cap: nat)
    requires i < |items| && items[i].Trivial? && 0 < cap
    ensures RunEnd(items, i, cap) == RunEnd(items, i + 1, cap - 1)
  {}

  class OutputContext {
    const maxIov: nat
    var current: Option<Group>
    var next: nat

    constructor (maxIov: nat)
      ensures this.maxIov == maxIov && current.None? && next == 0
    {
      this.maxIov := maxIov;
      current, next := None, 0;
    }

    predicate Transmitting()
      reads this
    {
      current.Some?
    }

    /** Assigning over a group that is still there destroys it. */
    method StartNextWriteGroup(g: Option<Group>) returns (fired: seq<Firing>)
      modifies this`current
      ensures current == g
      ensures fired == if old(current).Some? then Fire(Tokens(old(current).value), DestroyedPassively) else []
    {
      fired := [];
      if current.Some? {
        fired := Fire(Tokens(current.value), DestroyedPassively);
      }
      current := g;
    }

    method ExtractNextWriteOperation() returns (op: Operation)
      requires current.Some? && 0 < maxIov
      modifies this`next
      ensures op.NoOperation? <==> old(next) >= |current.value.items|
      ensures op.NoOperation? ==> next == old(next)
      ensures !op.NoOperation? ==>
                && next == OperationEnd(current.value.items, old(next), maxIov)
                && Sends(op, current.value.items[old(next)..next], maxIov)
    {
      op := NoOperation;
      if next < |current.value.items| {
        if current.value.items[next].Trivial? {
          op := PrepareTrivialBuffers();
        } else {
          op := FileWrite(current.value.items[next]);
          next := next + 1;
        }
      }
    }

    method PrepareTrivialBuffers() returns (op: Operation)
      requires current.Some? && next < |current.value.items| && current.value.items[next].Trivial? && 0 < maxIov
      modifies this`next
      ensures next == RunEnd(current.value.items, old(next), maxIov) && old(next) < next
      ensures Sends(op, current.value.items[old(next)..next], maxIov) && op.TrivialWrite?
    {
      hide RunEnd, Contents, TotalSize;
      EmptySlice();
      var items := current.value.items;
      var bufs: seq<string> := [];
      var size := 0;
      ghost var start := next;
      assert items[start..next] == [];
      while next < |items| && items[next].Trivial? && |bufs| < maxIov
        invariant start <= next <= |items| && |bufs| == next - start <= maxIov
        invariant forall k :: start <= k < next ==> items[k].Trivial?
        invariant bufs == Contents(items[start..next])
        invariant size == TotalSize(items[start..next])
        invariant RunEnd(items, start, maxIov) == RunEnd(items, next, maxIov - |bufs|)
        invariant start < next || |bufs| == 0
      {
        assert items[start..next + 1] == items[start..next] + [items[next]];
        OneMoreBuffer(items[start..next], items[next]);
        OneMoreSize(items[start..next], items[next]);
        RunGoesOn(items, next, maxIov - |bufs|);
        bufs := bufs + [items[next].bytes];
        size := size + items[next].Size();
        next := next + 1;
      }
      op := TrivialWrite(bufs, size);
    }

    /** The group keeps being held while its notificator runs. */
    method InvokeNotificator(status: Status) returns (fired: seq<Firing>)
      requires current.Some?
      modifies this`current
      ensures fired == Fire(Tokens(old(current).value), status)
      ensures current == Some(old(current).value.(notificator := None))
    {
      fired := Fire(Tokens(current.value), status);
      current := Some(current.value.(notificator := None));
    }

    method ResetWriteGroup()
      modifies this`current, this`next
      ensures current.None? && next == 0
    {
      current, next := None, 0;
    }

    method FinishWriteGroup() returns (fired: seq<Firing>)
      requires current.Some?
      modifies this`current, this`next
      ensures current.None? && next == 0
      ensures fired == Fire(Tokens(old(current).value), Success)
    {
      fired := InvokeNotificator(Success);
      ResetWriteGroup();
    }

    /** Unlike a normal finish, a failure leaves the item index where it was, unless the notificator
        throws: then everything is reset. */
    method FailWriteGroup(threw: bool) returns (fired: seq<Firing>)
      requires current.Some?
      modifies this`current, this`next
      ensures current.None?
      ensures next == if threw && old(current).value.notificator.Some? then 0 else old(next)
      ensures fired == Fire(Tokens(old(current).value), WriteError)
    {
      var throws := threw && current.value.notificator.Some?;
      fired := InvokeNotificator(WriteError);
      if throws {
        ResetWriteGroup();
      } else {
        current := None;
      }
    }
  }
}
