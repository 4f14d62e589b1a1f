/**
  Writable items and write groups (restinio/buffers.hpp).

  An item is abstracted to its kind and its content. A notificator (a `std::function` object) is
  named by a token; two different submissions carry different tokens.
 */
module Buffers {
  import opened Wrappers

  type Token = nat

  datatype Item = Trivial(bytes: string) | SendFile(file: nat, size: nat)
  {
    function Size(): nat { if Trivial? then |bytes| else size }
  }

  /** The error code handed to a notificator. */
  datatype Status = Success | WriteError | NotExecuted | DestroyedPassively

  /** One invocation of a notificator. */
  datatype Firing = Firing(token: Token, status: Status)

  /** The value of a write group. */
  datatype Group = Group(items: seq<Item>, statusLineSize: nat, notificator: Option<Token>)

  const EMPTY_GROUP := Group([], 0, None)

  /** The tokens a group would still fire. */
  function Tokens(g: Group): seq<Token> {
    if g.notificator.Some? then [g.notificator.value] else []
  }

  function Fire(tokens: seq<Token>, status: Status): (r: seq<Firing>)
    ensures |r| == |tokens|
    ensures forall i :: 0 <= i < |r| ==> r[i] == Firing(tokens[i], status)
  {
    seq(|tokens|, i requires 0 <= i < |tokens| => Firing(tokens[i], status))
  }

  /** `merge`: the items are concatenated and the second notificator replaces the first. */
  function Merged(first: Group, second: Group): Group {
    Group(first.items + second.items, first.statusLineSize, second.notificator)
  }

  /** Merging keeps every notificator exactly when the first group has none, the condition
      `enqueue_group` checks; otherwise the first notificator is dropped without being called. */
  lemma MergeConservesNotificators(first: Group, second: Group)
    ensures multiset(Tokens(Merged(first, second))) == multiset(Tokens(first)) + multiset(Tokens(second))
            <==> first.notificator.None?
  {
    var m := multiset(Tokens(Merged(first, second)));
    assert m == multiset(Tokens(second));
    if first.notificator.Some? {
      assert |multiset(Tokens(first)) + multiset(Tokens(second))| == 1 + |m|;
    }
  }

  datatype StatusLineError = EmptyGroup | FirstItemNotTrivial | FirstItemTooShort

  /** A group object. Moves empty their source, destruction fires a pending notificator. */
  class WriteGroup {
    var items: seq<Item>
    var statusLineSize: nat
    var notificator: Option<Token>

    ghost function Value(): Group
      reads this
    {
      Group(items, statusLineSize, notificator)
    }

    constructor (items: seq<Item>)
      ensures Value() == Group(items, 0, None)
    {
      this.items, statusLineSize, notificator := items, 0, None;
    }

    constructor Move(source: WriteGroup)
      modifies source
      ensures Value() == old(source.Value())
      ensures source.Value() == EMPTY_GROUP
    {
      items, statusLineSize, notificator := source.items, source.statusLineSize, source.notificator;
      new;
      source.items, source.statusLineSize, source.notificator := [], 0, None;
    }

    method Swap(other: WriteGroup)
      modifies this, other
      ensures Value() == old(other.Value()) && other.Value() == old(Value())
    {
      items, other.items := other.items, items;
      statusLineSize, other.statusLineSize := other.statusLineSize, statusLineSize;
      notificator, other.notificator := other.notificator, notificator;
    }

    /** Move assignment: the overwritten value dies in a temporary, so its notificator fires. */
    method Assign(source: WriteGroup) returns (fired: seq<Firing>)
      modifies this, source
      ensures Value() == old(source.Value())
      ensures source != this ==> source.Value() == EMPTY_GROUP
      ensures fired == if source == this then [] else Fire(Tokens(old(Value())), DestroyedPassively)
    {
      var tmp := new WriteGroup.Move(source);
      Swap(tmp);
      fired := tmp.Destroy();
      assert source == this ==> Tokens(EMPTY_GROUP) == [];
    }

    /** A notificator that is still there is dropped. */
    method SetNotificator(token: Token)
      modifies this`notificator
      ensures Value() == old(Value()).(notificator := Some(token))
    {
      notificator := Some(token);
    }

    /** The notificator is cleared before it is called, so it cannot be called again from inside. */
    method InvokeNotificator(status: Status) returns (fired: seq<Firing>)
      modifies this`notificator
      ensures fired == Fire(Tokens(old(Value())), status)
      ensures Value() == old(Value()).(notificator := None)
    {
      fired := [];
      if notificator.Some? {
        var tmp := notificator;
        notificator := None;
        fired := [Firing(tmp.value, status)];
      }
    }

    method Destroy() returns (fired: seq<Firing>)
      modifies this`notificator
      ensures fired == Fire(Tokens(old(Value())), DestroyedPassively)
      ensures Value() == old(Value()).(notificator := None)
    {
      fired := [];
      if notificator.Some? {
        fired := InvokeNotificator(DestroyedPassively);
      }
    }

    /** `second` is a by-value parameter in the source: it is emptied and dies at the end. */
    method Merge(second: WriteGroup) returns (fired: seq<Firing>)
      requires second != this
      modifies this, second
      ensures Value() == Merged(old(Value()), old(second.Value()))
      ensures fired == [] && second.notificator.None?
    {
      items := items + second.items;
      notificator := second.notificator;
      second.items, second.notificator := [], None;
      fired := second.Destroy();
    }

    method SetStatusLineSize(n: nat) returns (r: Result<(), StatusLineError>)
      modifies this`statusLineSize
      ensures r.Ok? <==> n == 0 || (items != [] && items[0].Trivial? && n <= |items[0].bytes|)
      ensures Value() == if r.Ok? && n != 0 then old(Value()).(statusLineSize := n) else old(Value())
      ensures n != 0 && items == [] ==> r == Err(EmptyGroup)
      ensures n != 0 && items != [] && items[0].SendFile? ==> r == Err(FirstItemNotTrivial)
      ensures n != 0 && items != [] && items[0].Trivial? && |items[0].bytes| < n ==> r == Err(FirstItemTooShort)
    {
      r := Ok(());
      if n != 0 {
        if items == [] {
          return Err(EmptyGroup);
        }
        if !items[0].Trivial? {
          return Err(FirstItemNotTrivial);
        }
        if items[0].Size() < n {
          return Err(FirstItemTooShort);
        }
        statusLineSize := n;
      }
    }
  }
}
