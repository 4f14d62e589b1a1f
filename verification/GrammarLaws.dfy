/** Laws of the clauses: backtracking, targets and the scope of a cut. */
module GrammarLaws {
  import opened Wrappers
  import opened ParserSource
  import opened IntegerAccumulator
  import opened NumberParsing
  import opened Grammar

  // ---------------------------------------------------------------------------------------------
  // Parsing does not look at the target.

  ghost predicate SameVerdict(a: Outcome, b: Outcome) {
    a.Done? == b.Done? && a.pos == b.pos && (a.Failed? ==> a.error == b.error)
  }

  /** Whether a clause matches, where it ends and how it fails do not depend on the target. */
  lemma {:induction false} TargetIsNotInspected(c: Clause, w: string, i: nat, u: Value, v: Value)
    requires i <= |w|
    ensures SameVerdict(Process(c, w, i, u), Process(c, w, i, v))
    decreases c
  {
    hide Parse;
    match c
    case Consume(_, _) =>
    case Alternatives(cs) => AnyIgnoresTarget(cs, w, i, u, v);
    case Repeat(_, max, cs) => RepeatIgnoresTarget(cs, w, i, u, v, max);
    case Not(_) =>
    case And(_) =>
    case _ => AllIgnoresTarget(c.clauses, w, i, u, v);
  }

  lemma {:induction false} AllIgnoresTarget(cs: seq<Clause>, w: string, i: nat, u: Value, v: Value)
    requires i <= |w|
    ensures SameVerdict(ProcessAll(cs, w, i, u), ProcessAll(cs, w, i, v))
    decreases cs, 0
  {
    if cs != [] {
      TargetIsNotInspected(cs[0], w, i, u, v);
      var a := Process(cs[0], w, i, u);
      if a.Done? {
        AllIgnoresTarget(cs[1..], w, a.pos, a.target, Process(cs[0], w, i, v).target);
      }
    }
  }

  lemma {:induction false} AnyIgnoresTarget(cs: seq<Clause>, w: string, i: nat, u: Value, v: Value)
    requires i <= |w|
    ensures SameVerdict(ProcessAny(cs, w, i, u), ProcessAny(cs, w, i, v))
    decreases cs, 0
  {
    if cs != [] {
      TargetIsNotInspected(cs[0], w, i, u, v);
      AnyIgnoresTarget(cs[1..], w, i, u, v);
    }
  }

  lemma {:induction false} RepeatIgnoresTarget(cs: seq<Clause>, w: string, i: nat, u: Value, v: Value, left: nat)
    requires i <= |w|
    ensures var a, b := ProcessRepeat(cs, w, i, u, left), ProcessRepeat(cs, w, i, v, left);
            a.count == b.count && a.pos == b.pos
    decreases cs, left + 1
  {
    if left > 0 {
      AllIgnoresTarget(cs, w, i, u, v);
      var a := ProcessAll(cs, w, i, u);
      if a.Done? {
        RepeatIgnoresTarget(cs, w, a.pos, a.target, ProcessAll(cs, w, i, v).target, left - 1);
      }
    }
  }

  // ---------------------------------------------------------------------------------------------
  // Backtracking.

  /** Clauses that put input and target back together when they fail. */
  predicate Transactional(c: Clause) { !c.Consume? && !c.Repeat? }

  /** A failed sequence, forced alternative or choice leaves position and target as it found them,
      whatever nested repeats wrote; so do the two lookaheads in every case, and an option whose
      content does not match. A failed repeat puts back the position only. */
  lemma FailureIsUndone(c: Clause, w: string, i: nat, v: Value)
    requires i <= |w|
    ensures var r := Process(c, w, i, v);
            && (r.Failed? && Transactional(c) ==> r.pos == i && r.target == v)
            && (r.Failed? && c.Repeat? ==> r.pos == i)
            && (c.Not? || c.And? ==> r.pos == i && r.target == v)
            && (c.Maybe? ==> r == (var all := ProcessAll(c.clauses, w, i, v); if all.Done? then all else Done(i, v)))
  {}

  /** A producer made by `produce` does not go back: it stops where its failing clause stopped. */
  lemma ProduceDoesNotRewind()
    ensures var p := Produce(Nothing, [Consume(Symbol(c => c == 'a'), (t, v) => t), Consume(Symbol(c => c == 'b'), (t, v) => t)]);
            Parse(p, "ac", 0) == Refused(1, ParseError(1, UnexpectedCharacter))
  {
    var skip := (t: Value, v: Value) => t;
    var a := Consume(Symbol(c => c == 'a'), skip);
    var b := Consume(Symbol(c => c == 'b'), skip);
    assert Process(a, "ac", 0, Nothing) == Done(1, Nothing);
    assert [a, b][1..] == [b];
    assert Process(b, "ac", 1, Nothing) == Failed(1, Nothing, ParseError(1, UnexpectedCharacter));
    assert ProcessAll([a, b], "ac", 0, Nothing) == ProcessAll([b], "ac", 1, Nothing);
  }

  /** The round that ends a repeat may have written to the target before it failed. */
  lemma RepeatKeepsPartialWrites(write: (Value, Value) -> Value)
    ensures var a := Consume(Symbol(c => c == 'a'), write);
            var b := Consume(Symbol(c => c == 'b'), write);
            Process(Repeat(0, 10, [a, b]), "ac", 0, Nothing) == Done(0, write(Nothing, Character('a')))
  {
    var a := Consume(Symbol(c => c == 'a'), write);
    var b := Consume(Symbol(c => c == 'b'), write);
    var t := write(Nothing, Character('a'));
    assert Process(a, "ac", 0, Nothing) == Done(1, t);
    assert [a, b][1..] == [b];
    assert Process(b, "ac", 1, t) == Failed(1, t, ParseError(1, UnexpectedCharacter));
    assert ProcessAll([a, b], "ac", 0, Nothing) == ProcessAll([b], "ac", 1, t);
  }

  /** What is left of the input is a proper beginning of the fragment. */
  ghost predicate EndsInside(f: string, fold: char -> char, w: string, i: nat) {
    i <= |w| && |w| - i < |f| && forall k :: 0 <= k < |w| - i ==> fold(w[i + k]) == f[k]
  }

  /** A single character or a fragment is refused because the input ended too early, if and only if
      what is left is a proper beginning of it, and otherwise because it is not there. */
  lemma LeafErrors(accepts: char -> bool, f: Fragment, fold: char -> char, w: string, i: nat)
    requires i <= |w|
    ensures var r := Parse(Symbol(accepts), w, i);
            && (r == Refused(i, ParseError(i, UnexpectedEof)) <==> i == |w|)
            && (r == Refused(i, ParseError(i, UnexpectedCharacter)) <==> i < |w| && !accepts(w[i]))
            && (r.Produced? <==> i < |w| && accepts(w[i]))
    ensures var r := Parse(Exact(f, fold), w, i);
            && (r == Refused(i, ParseError(i, UnexpectedEof)) <==> EndsInside(f, fold, w, i))
            && (r.Refused? && !EndsInside(f, fold, w, i) ==> r == Refused(i, ParseError(i, PatternNotFound)))
  {}

  /** An error points into the input, not before the place where the clause began. A lookahead
      reports a pattern that was not found where it began, a repeat behind its complete rounds. */
  lemma {:induction false} ErrorsPointAhead(c: Clause, w: string, i: nat, v: Value)
    requires i <= |w| && Process(c, w, i, v).Failed?
    ensures i <= Process(c, w, i, v).error.position <= |w|
    ensures c.Not? || c.And? ==> Process(c, w, i, v).error == ParseError(i, PatternNotFound)
    ensures c.Repeat? ==>
              Process(c, w, i, v).error == ParseError(ProcessRepeat(c.clauses, w, i, v, c.max).pos, PatternNotFound)
    decreases c
  {
    match c
    case Consume(p, _) => ProducerErrorsPointAhead(p, w, i);
    case Sequence(cs) => AllErrorsPointAhead(cs, w, i, v);
    case _ =>
  }

  lemma {:induction false} AllErrorsPointAhead(cs: seq<Clause>, w: string, i: nat, v: Value)
    requires i <= |w| && ProcessAll(cs, w, i, v).Failed?
    ensures i <= ProcessAll(cs, w, i, v).error.position <= |w|
    decreases cs
  {
    match Process(cs[0], w, i, v)
    case Done(pos, t) => AllErrorsPointAhead(cs[1..], w, pos, t);
    case Failed(_, _, _) => ErrorsPointAhead(cs[0], w, i, v);
  }

  lemma {:induction false} ProducerErrorsPointAhead(p: Producer, w: string, i: nat)
    requires i <= |w| && Parse(p, w, i).Refused?
    ensures i <= Parse(p, w, i).error.position <= |w|
    decreases p
  {
    match p
    case Produce(init, cs) => AllErrorsPointAhead(cs, w, i, init);
    case Transform(q, _) => if Parse(q, w, i).Refused? { ProducerErrorsPointAhead(q, w, i); }
    case _ =>
  }

  // ---------------------------------------------------------------------------------------------
  // The scope of a cut.

  /** Running the clause fails inside a forced alternative that is reached through sequences,
      consumed producers, `produce` and transformers only (or a transformer asks for the cut). */
  predicate HitsForced(c: Clause, w: string, i: nat, v: Value)
    requires i <= |w|
    decreases c
  {
    match c
    case Forced(cs) => ProcessAll(cs, w, i, v).Failed?
    case Sequence(cs) => AllHitForced(cs, w, i, v)
    case Consume(p, _) => ProducerHitsForced(p, w, i)
    case _ => false
  }

  predicate AllHitForced(cs: seq<Clause>, w: string, i: nat, v: Value)
    requires i <= |w|
    decreases cs
  {
    cs != [] &&
    match Process(cs[0], w, i, v)
    case Done(pos, t) => AllHitForced(cs[1..], w, pos, t)
    case Failed(_, _, _) => HitsForced(cs[0], w, i, v)
  }

  predicate ProducerHitsForced(p: Producer, w: string, i: nat)
    requires i <= |w|
    decreases p
  {
    match p
    case Produce(init, cs) => AllHitForced(cs, w, i, init)
    case Transform(q, convert) =>
      var r := Parse(q, w, i);
      if r.Refused? then ProducerHitsForced(q, w, i)
      else convert(r.value) == Err(ForceOnlyThisAlternativeFailed)
    case _ => false
  }

  /** A clause fails with a cut exactly when it hits a forced alternative in that way: every other
      clause in between (option, lookahead, repeat, choice) absorbs the cut. */
  lemma {:induction false} CutsComeFromForced(c: Clause, w: string, i: nat, v: Value)
    requires i <= |w|
    ensures var r := Process(c, w, i, v); r.Failed? && IsCut(r.error) <==> HitsForced(c, w, i, v)
    decreases c
  {
    match c
    case Consume(p, _) => ProducerCuts(p, w, i);
    case Sequence(cs) => AllCuts(cs, w, i, v);
    case _ =>
  }

  lemma {:induction false} AllCuts(cs: seq<Clause>, w: string, i: nat, v: Value)
    requires i <= |w|
    ensures var r := ProcessAll(cs, w, i, v); r.Failed? && IsCut(r.error) <==> AllHitForced(cs, w, i, v)
    decreases cs
  {
    if cs != [] {
      CutsComeFromForced(cs[0], w, i, v);
      match Process(cs[0], w, i, v)
      case Done(pos, t) => AllCuts(cs[1..], w, pos, t);
      case Failed(_, _, _) =>
    }
  }

  lemma {:induction false} ProducerCuts(p: Producer, w: string, i: nat)
    requires i <= |w|
    ensures var r := Parse(p, w, i); r.Refused? && IsCut(r.error) <==> ProducerHitsForced(p, w, i)
    decreases p
  {
    match p
    case Produce(init, cs) => AllCuts(cs, w, i, init);
    case Transform(q, _) => ProducerCuts(q, w, i);
    case _ =>
  }

  /** Does the choice come to its `k`-th clause? */
  ghost predicate ComesTo(cs: seq<Clause>, k: nat, w: string, i: nat, v: Value)
    requires i <= |w| && k <= |cs|
  {
    forall m :: 0 <= m < k ==> Process(cs[m], w, i, v).Failed? && !HitsForced(cs[m], w, i, v)
  }

  lemma {:induction false} AnySkips(cs: seq<Clause>, k: nat, w: string, i: nat, v: Value)
    requires i <= |w| && k <= |cs| && ComesTo(cs, k, w, i, v)
    ensures ProcessAny(cs, w, i, v) == ProcessAny(cs[k..], w, i, v)
  {
    if k == 0 {
      assert cs[0..] == cs;
    } else {
      AnySkips(cs, k - 1, w, i, v);
      CutsComeFromForced(cs[k - 1], w, i, v);
      assert cs[k - 1..][0] == cs[k - 1] && cs[k - 1..][1..] == cs[k..];
    }
  }

  /** The first clause of a choice that succeeds or hits a forced alternative decides: it wins, or
      the whole choice fails and the clauses after it are never tried. A failed choice always
      reports `no_appropriate_alternative` where it began, so a cut never leaves it. */
  lemma CutEndsTheChoice(before: seq<Clause>, c: Clause, after: seq<Clause>, w: string, i: nat, v: Value)
    requires i <= |w| && ComesTo(before + [c] + after, |before|, w, i, v)
    requires Process(c, w, i, v).Done? || HitsForced(c, w, i, v)
    ensures Process(Alternatives(before + [c] + after), w, i, v)
            == if Process(c, w, i, v).Done? then Process(c, w, i, v)
               else Failed(i, v, ParseError(i, NoAppropriateAlternative))
  {
    var cs := before + [c] + after;
    AnySkips(cs, |before|, w, i, v);
    assert cs[|before|..][0] == c;
    CutsComeFromForced(c, w, i, v);
  }

  /** And a choice all of whose clauses fail without hitting one fails the same way. */
  lemma NoAlternativeLeft(cs: seq<Clause>, w: string, i: nat, v: Value)
    requires i <= |w| && ComesTo(cs, |cs|, w, i, v)
    ensures Process(Alternatives(cs), w, i, v) == Failed(i, v, ParseError(i, NoAppropriateAlternative))
  {
    AnySkips(cs, |cs|, w, i, v);
  }
}
