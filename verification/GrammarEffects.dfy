/**
  What clauses leave behind: the writes that reach a target, also those of a failed round of a
  repeat, and the position where a failing producer stops.
 */
module GrammarEffects {
  import opened Wrappers
  import opened ParserSource
  import opened Grammar
  import opened GrammarLaws

  /** One value handed to one consumer. */
  datatype Write = Write(consume: (Value, Value) -> Value, value: Value)

  function Apply(writes: seq<Write>, target: Value): Value {
    if writes == [] then target else Apply(writes[1..], writes[0].consume(target, writes[0].value))
  }

  lemma {:induction false} ApplyConcat(a: seq<Write>, b: seq<Write>, target: Value)
    ensures Apply(a + b, target) == Apply(b, Apply(a, target))
  {
    if a == [] {
      assert a + b == b;
    } else {
      ApplyConcat(a[1..], b, a[0].consume(target, a[0].value));
      assert (a + b)[1..] == a[1..] + b;
    }
  }

  // ---------------------------------------------------------------------------------------------
  // The writes that stay. Whether a clause matches does not depend on the target
  // (TargetIsNotInspected), so a default one is used to find out.

  function Writes(c: Clause, w: string, i: nat): seq<Write>
    requires i <= |w|
    decreases c
  {
    match c
    case Consume(p, consume) =>
      var r := Parse(p, w, i);
      if r.Produced? then [Write(consume, r.value)] else []
    case Alternatives(cs) => WritesAny(cs, w, i)
    case Repeat(_, max, cs) => WritesRepeat(cs, w, i, max)
    case Not(_) => []
    case And(_) => []
    case _ => if ProcessAll(c.clauses, w, i, DUMMY).Done? then WritesAll(c.clauses, w, i) else []
  }

  /** One clause after another, up to and including the first one that fails. */
  function WritesAll(cs: seq<Clause>, w: string, i: nat): seq<Write>
    requires i <= |w|
    decreases cs, 0
  {
    if cs == [] then []
    else
      var r := Process(cs[0], w, i, DUMMY);
      Writes(cs[0], w, i) + if r.Done? then WritesAll(cs[1..], w, r.pos) else []
  }

  function WritesAny(cs: seq<Clause>, w: string, i: nat): seq<Write>
    requires i <= |w|
    decreases cs, 0
  {
    if cs == [] then []
    else
      var r := Process(cs[0], w, i, DUMMY);
      if r.Done? then Writes(cs[0], w, i)
      else if IsCut(r.error) then []
      else WritesAny(cs[1..], w, i)
  }

  function WritesRepeat(cs: seq<Clause>, w: string, i: nat, left: nat): seq<Write>
    requires i <= |w|
    decreases cs, left + 1
  {
    if left == 0 then []
    else
      var r := ProcessAll(cs, w, i, DUMMY);
      WritesAll(cs, w, i) + if r.Done? then WritesRepeat(cs, w, r.pos, left - 1) else []
  }

  /** Whatever a clause does to a target, in success and in failure, is exactly its writes. */
  lemma {:induction false} TargetHoldsTheWrites(c: Clause, w: string, i: nat, t: Value)
    requires i <= |w|
    ensures Process(c, w, i, t).target == Apply(Writes(c, w, i), t)
    decreases c
  {
    hide Parse;
    match c
    case Consume(p, consume) =>
      var r := Parse(p, w, i);
      if r.Produced? {
        OneWrite(consume, r.value, t);
      }
    case Alternatives(cs) => AnyHoldsTheWrites(cs, w, i, t);
    case Repeat(_, max, cs) => RepeatHoldsTheWrites(cs, w, i, t, max);
    case Not(_) =>
    case And(_) =>
    case _ =>
      AllIgnoresTarget(c.clauses, w, i, t, DUMMY);
      AllHoldsTheWrites(c.clauses, w, i, t);
  }

  lemma OneWrite(consume: (Value, Value) -> Value, v: Value, t: Value)
    ensures Apply([Write(consume, v)], t) == consume(t, v)
  {
    assert [Write(consume, v)][1..] == [];
  }

  lemma {:induction false} AllHoldsTheWrites(cs: seq<Clause>, w: string, i: nat, t: Value)
    requires i <= |w|
    ensures ProcessAll(cs, w, i, t).target == Apply(WritesAll(cs, w, i), t)
    decreases cs, 0
  {
    if cs != [] {
      hide Process, Writes;
      TargetIsNotInspected(cs[0], w, i, t, DUMMY);
      TargetHoldsTheWrites(cs[0], w, i, t);
      var r := Process(cs[0], w, i, t);
      if r.Done? {
        AllHoldsTheWrites(cs[1..], w, r.pos, r.target);
        ApplyConcat(Writes(cs[0], w, i), WritesAll(cs[1..], w, r.pos), t);
      } else {
        assert WritesAll(cs, w, i) == Writes(cs[0], w, i);
      }
    }
  }

  lemma {:induction false} AnyHoldsTheWrites(cs: seq<Clause>, w: string, i: nat, t: Value)
    requires i <= |w|
    ensures ProcessAny(cs, w, i, t).Failed? ==> WritesAny(cs, w, i) == []
    ensures ProcessAny(cs, w, i, t).Done? ==> ProcessAny(cs, w, i, t).target == Apply(WritesAny(cs, w, i), t)
    decreases cs, 0
  {
    if cs != [] {
      TargetIsNotInspected(cs[0], w, i, t, DUMMY);
      TargetHoldsTheWrites(cs[0], w, i, t);
      AnyHoldsTheWrites(cs[1..], w, i, t);
    }
  }

  lemma {:induction false} RepeatHoldsTheWrites(cs: seq<Clause>, w: string, i: nat, t: Value, left: nat)
    requires i <= |w|
    ensures ProcessRepeat(cs, w, i, t, left).target == Apply(WritesRepeat(cs, w, i, left), t)
    decreases cs, left + 1
  {
    if left > 0 {
      AllIgnoresTarget(cs, w, i, t, DUMMY);
      AllHoldsTheWrites(cs, w, i, t);
      var r := ProcessAll(cs, w, i, t);
      if r.Done? {
        RepeatHoldsTheWrites(cs, w, r.pos, r.target, left - 1);
        ApplyConcat(WritesAll(cs, w, i), WritesRepeat(cs, w, r.pos, left - 1), t);
      } else {
        assert WritesRepeat(cs, w, i, left) == WritesAll(cs, w, i);
      }
    }
  }

  // ---------------------------------------------------------------------------------------------
  // Where a list of clauses fails.

  /** The position the first `k` clauses lead to. */
  function Before(cs: seq<Clause>, k: nat, w: string, i: nat): (r: nat)
    requires i <= |w| && k <= |cs|
    ensures i <= r <= |w|
  {
    ProcessAll(cs[..k], w, i, DUMMY).pos
  }

  /** The first `k` clauses match and the next one does not. */
  predicate FailsAt(cs: seq<Clause>, k: nat, w: string, i: nat)
    requires i <= |w|
  {
    && k < |cs|
    && ProcessAll(cs[..k], w, i, DUMMY).Done?
    && Process(cs[k], w, Before(cs, k, w, i), DUMMY).Failed?
  }

  lemma OneClauseMore(cs: seq<Clause>, k: nat, w: string, i: nat)
    requires i <= |w| && k < |cs|
    ensures var r := Process(cs[0], w, i, DUMMY);
            && (r.Done? ==> Before(cs, k + 1, w, i) == Before(cs[1..], k, w, r.pos))
            && (r.Done? && k + 1 < |cs| ==> (FailsAt(cs, k + 1, w, i) <==> FailsAt(cs[1..], k, w, r.pos)))
            && (r.Failed? ==> !FailsAt(cs, k + 1, w, i))
  {
    assert cs[..k + 1][0] == cs[0] && cs[..k + 1][1..] == cs[1..][..k];
    var r := Process(cs[0], w, i, DUMMY);
    if r.Done? {
      AllIgnoresTarget(cs[1..][..k], w, r.pos, r.target, DUMMY);
    }
  }

  lemma AtFirst(cs: seq<Clause>, w: string, i: nat)
    requires i <= |w| && cs != []
    ensures Before(cs, 0, w, i) == i && (FailsAt(cs, 0, w, i) <==> Process(cs[0], w, i, DUMMY).Failed?)
  {
    assert cs[..0] == [];
  }

  /** Failing at clause `m` of a nonempty list, seen from its second clause. */
  lemma FailsAtShift(cs: seq<Clause>, w: string, i: nat)
    requires i <= |w| && cs != []
    ensures var r := Process(cs[0], w, i, DUMMY);
            && (r.Failed? ==> forall m: nat :: FailsAt(cs, m, w, i) <==> m == 0)
            && (r.Done? ==> forall m: nat :: FailsAt(cs, m, w, i) <==> 0 < m && FailsAt(cs[1..], m - 1, w, r.pos))
  {
    hide Before, FailsAt, Process;
    AtFirst(cs, w, i);
    FailsBelow(cs, w, i);
    var r := Process(cs[0], w, i, DUMMY);
    FailsBelow(cs[1..], w, r.pos);
    forall m: nat | 0 < m < |cs|
      ensures r.Done? ==> (FailsAt(cs, m, w, i) <==> FailsAt(cs[1..], m - 1, w, r.pos))
      ensures r.Failed? ==> !FailsAt(cs, m, w, i)
    {
      OneClauseMore(cs, m - 1, w, i);
    }
  }

  /** A list of clauses fails if and only if one of them does after the ones before it matched. */
  lemma {:induction false} FailsSomewhere(cs: seq<Clause>, w: string, i: nat, t: Value)
    requires i <= |w|
    ensures ProcessAll(cs, w, i, t).Failed? <==> exists m: nat :: FailsAt(cs, m, w, i)
    decreases |cs|
  {
    hide FailsAt, Process;
    FailsBelow(cs, w, i);
    if cs != [] {
      FailsAtShift(cs, w, i);
      TargetIsNotInspected(cs[0], w, i, t, DUMMY);
      var r := Process(cs[0], w, i, t);
      if r.Done? {
        FailsSomewhere(cs[1..], w, r.pos, r.target);
        if ProcessAll(cs, w, i, t).Failed? {
          var m: nat :| FailsAt(cs[1..], m, w, r.pos);
          assert FailsAt(cs, m + 1, w, i);
        }
      } else {
        assert FailsAt(cs, 0, w, i);
      }
    }
  }

  /** There is only one such clause, and everything stops where that clause stops. */
  lemma {:induction false} StopsThere(cs: seq<Clause>, w: string, i: nat, t: Value, k: nat)
    requires i <= |w| && FailsAt(cs, k, w, i)
    ensures ProcessAll(cs, w, i, t).pos == Process(cs[k], w, Before(cs, k, w, i), DUMMY).pos
    ensures forall m: nat :: FailsAt(cs, m, w, i) ==> m == k
    decreases |cs|
  {
    FailsBelow(cs, w, i);
    hide FailsAt, Process, Before;
    FailsAtShift(cs, w, i);
    TargetIsNotInspected(cs[0], w, i, t, DUMMY);
    var r := Process(cs[0], w, i, t);
    if k == 0 {
      AtFirst(cs, w, i);
    } else {
      StopsThere(cs[1..], w, r.pos, r.target, k - 1);
      OneClauseMore(cs, k - 1, w, i);
    }
  }

  lemma FailsBelow(cs: seq<Clause>, w: string, i: nat)
    requires i <= |w|
    ensures forall m: nat :: FailsAt(cs, m, w, i) ==> m < |cs|
  {}

  // ---------------------------------------------------------------------------------------------
  // A producer made by `produce` does not go back.

  /** Nothing was consumed before the failure: the clauses in front of the failing one led nowhere,
      and the failing one, if it consumes a producer, fails in place as well; a transformer that
      refuses a value got it without input. */
  ghost predicate FailsInPlace(p: Producer, w: string, i: nat)
    requires i <= |w|
    decreases p
  {
    match p
    case Produce(_, cs) =>
      exists k: nat :: FailsAt(cs, k, w, i) && Before(cs, k, w, i) == i && (cs[k].Consume? ==> FailsInPlace(cs[k].producer, w, i))
    case Transform(q, _) =>
      var r := Parse(q, w, i);
      if r.Refused? then FailsInPlace(q, w, i) else r.pos == i
    case _ => true
  }

  /** A producer that fails ends where it began if and only if nothing was consumed before. */
  lemma {:induction false} RewindsExactly(p: Producer, w: string, i: nat)
    requires i <= |w| && Parse(p, w, i).Refused?
    ensures Parse(p, w, i).pos == i <==> FailsInPlace(p, w, i)
    decreases p
  {
    match p
    case Produce(init, cs) =>
      FailsSomewhere(cs, w, i, init);
      var k: nat :| FailsAt(cs, k, w, i);
      StopsThere(cs, w, i, init, k);
      var j := Before(cs, k, w, i);
      if cs[k].Consume? && j == i {
        RewindsExactly(cs[k].producer, w, i);
      }
    case Transform(q, _) =>
      if Parse(q, w, i).Refused? {
        RewindsExactly(q, w, i);
      }
    case _ =>
  }

  // ---------------------------------------------------------------------------------------------
  // The last round of a repeat keeps its writes.

  /** The writes of `n` complete rounds. */
  function CompleteRounds(cs: seq<Clause>, w: string, i: nat, n: nat): seq<Write>
    requires i <= |w|
    decreases n
  {
    if n == 0 then [] else WritesAll(cs, w, i) + CompleteRounds(cs, w, ProcessAll(cs, w, i, DUMMY).pos, n - 1)
  }

  /** The writes of the round that ended the repeat, if one did. */
  function FailedRound(cs: seq<Clause>, w: string, i: nat, full: bool): seq<Write>
    requires i <= |w|
  {
    if full then [] else WritesAll(cs, w, i)
  }

  /** In the failed round the clauses before the failing one wrote nothing, and the failing one, if
      it is itself a repeat, neither. */
  ghost predicate Quiet(cs: seq<Clause>, w: string, i: nat)
    requires i <= |w|
  {
    exists k: nat ::
      && FailsAt(cs, k, w, i)
      && (forall m: nat :: m < k ==> Writes(cs[m], w, Before(cs, m, w, i)) == [])
      && (cs[k].Repeat? ==> Writes(cs[k], w, Before(cs, k, w, i)) == [])
  }

  lemma FailedWritesNothing(c: Clause, w: string, i: nat)
    requires i <= |w| && Process(c, w, i, DUMMY).Failed? && !c.Repeat?
    ensures Writes(c, w, i) == []
  {
    if c.Alternatives? {
      AnyHoldsTheWrites(c.clauses, w, i, DUMMY);
    }
  }

  lemma {:induction false} WritesUpTo(cs: seq<Clause>, k: nat, w: string, i: nat)
    requires i <= |w| && FailsAt(cs, k, w, i)
    ensures WritesAll(cs, w, i) == [] <==> forall m: nat :: m <= k ==> Writes(cs[m], w, Before(cs, m, w, i)) == []
    decreases k
  {
    hide Before, FailsAt, Writes, Process;
    FailsBelow(cs, w, i);
    AtFirst(cs, w, i);
    if k > 0 {
      OneClauseMore(cs, k - 1, w, i);
      var r := Process(cs[0], w, i, DUMMY);
      WritesUpTo(cs[1..], k - 1, w, r.pos);
      forall m: nat | m < k
        ensures Writes(cs[m + 1], w, Before(cs, m + 1, w, i)) == Writes(cs[1..][m], w, Before(cs[1..], m, w, r.pos))
      {
        OneClauseMore(cs, m, w, i);
      }
      if WritesAll(cs, w, i) == [] {
        forall m: nat | m <= k ensures Writes(cs[m], w, Before(cs, m, w, i)) == [] {
          if m > 0 {
            assert Writes(cs[1..][m - 1], w, Before(cs[1..], m - 1, w, r.pos)) == [];
          }
        }
      }
    }
  }

  lemma QuietExactly(cs: seq<Clause>, w: string, i: nat)
    requires i <= |w| && ProcessAll(cs, w, i, DUMMY).Failed?
    ensures WritesAll(cs, w, i) == [] <==> Quiet(cs, w, i)
  {
    FailsSomewhere(cs, w, i, DUMMY);
    var k: nat :| FailsAt(cs, k, w, i);
    StopsThere(cs, w, i, DUMMY, k);
    WritesUpTo(cs, k, w, i);
    if !cs[k].Repeat? {
      FailedWritesNothing(cs[k], w, Before(cs, k, w, i));
    }
  }

  /** One round more. */
  lemma RepeatUnfolds(cs: seq<Clause>, w: string, i: nat, t: Value, left: nat)
    requires i <= |w| && 0 < left
    ensures var a := ProcessAll(cs, w, i, t);
            var r := ProcessRepeat(cs, w, i, t, left);
            && (a.Failed? ==> r.count == 0 && r.pos == i)
            && (a.Done? ==> var rest := ProcessRepeat(cs, w, a.pos, a.target, left - 1); r.count == rest.count + 1 && r.pos == rest.pos)
  {}

  lemma WritesUnfold(cs: seq<Clause>, w: string, i: nat, left: nat, n: nat)
    requires i <= |w| && 0 < left
    ensures var a := ProcessAll(cs, w, i, DUMMY);
            && (a.Failed? ==> WritesRepeat(cs, w, i, left) == WritesAll(cs, w, i))
            && (a.Done? ==> WritesRepeat(cs, w, i, left) == WritesAll(cs, w, i) + WritesRepeat(cs, w, a.pos, left - 1))
            && CompleteRounds(cs, w, i, n + 1) == WritesAll(cs, w, i) + CompleteRounds(cs, w, a.pos, n)
            && CompleteRounds(cs, w, i, 0) == []
  {
    hide ProcessAll, WritesAll;
  }

  lemma NoRounds(cs: seq<Clause>, w: string, i: nat, t: Value)
    requires i <= |w|
    ensures WritesRepeat(cs, w, i, 0) == [] && ProcessRepeat(cs, w, i, t, 0).count == 0
    ensures CompleteRounds(cs, w, i, 0) + FailedRound(cs, w, ProcessRepeat(cs, w, i, t, 0).pos, true) == []
  {}

  lemma RoundThatFailed(cs: seq<Clause>, w: string, i: nat)
    requires i <= |w|
    ensures [] + FailedRound(cs, w, i, false) == WritesAll(cs, w, i)
  {
    hide WritesAll;
  }

  lemma SameDone(a: Outcome, b: Outcome)
    requires SameVerdict(a, b)
    ensures a.Done? == b.Done? && a.pos == b.pos
  {}

  lemma Regroup(a: seq<Write>, b: seq<Write>, c: seq<Write>)
    ensures a + (b + c) == (a + b) + c
  {}

  lemma {:induction false} RoundsAndRest(cs: seq<Clause>, w: string, i: nat, t: Value, max: nat)
    requires i <= |w|
    ensures var r := ProcessRepeat(cs, w, i, t, max);
            && WritesRepeat(cs, w, i, max) == CompleteRounds(cs, w, i, r.count) + FailedRound(cs, w, r.pos, r.count == max)
            && (r.count < max ==> ProcessAll(cs, w, r.pos, DUMMY).Failed?)
    decreases max
  {
    hide *;
    if max == 0 {
      NoRounds(cs, w, i, t);
    } else {
      AllIgnoresTarget(cs, w, i, t, DUMMY);
      SameDone(ProcessAll(cs, w, i, t), ProcessAll(cs, w, i, DUMMY));
      RepeatUnfolds(cs, w, i, t, max);
      var a := ProcessAll(cs, w, i, t);
      var r := ProcessRepeat(cs, w, i, t, max);
      if a.Done? {
        WritesUnfold(cs, w, i, max, r.count - 1);
        RoundsAndRest(cs, w, a.pos, a.target, max - 1);
        Regroup(WritesAll(cs, w, i), CompleteRounds(cs, w, a.pos, r.count - 1), FailedRound(cs, w, r.pos, r.count == max));
      } else {
        WritesUnfold(cs, w, i, max, 0);
        RoundThatFailed(cs, w, i);
      }
    }
  }

  /** A repeat leaves the writes of its complete rounds followed by those of the round that failed;
      the latter are none if and only if the maximum was reached or that round was quiet. */
  lemma RepeatLeaves(cs: seq<Clause>, w: string, i: nat, t: Value, max: nat)
    requires i <= |w|
    ensures var r := ProcessRepeat(cs, w, i, t, max);
            && r.target == Apply(CompleteRounds(cs, w, i, r.count) + FailedRound(cs, w, r.pos, r.count == max), t)
            && (FailedRound(cs, w, r.pos, r.count == max) == [] <==> r.count == max || Quiet(cs, w, r.pos))
  {
    hide Quiet, ProcessRepeat, ProcessAll, CompleteRounds, WritesRepeat, WritesAll, Apply;
    var r := ProcessRepeat(cs, w, i, t, max);
    RepeatHoldsTheWrites(cs, w, i, t, max);
    RoundsAndRest(cs, w, i, t, max);
    if r.count < max {
      QuietExactly(cs, w, r.pos);
    }
  }
}
