/**
  A relational semantics of the grammars, in the style of parsing expression grammars with a cut:
  what a clause matches is said by quantifying over intermediate points, not by running it.
  The interpreter agrees with it in both directions.
 */
module GrammarRelation {
  import opened Wrappers
  import opened ParserSource
  import opened IntegerAccumulator
  import opened NumberParsing
  import opened Grammar

  datatype Point = Point(pos: nat, target: Value)

  // ---------------------------------------------------------------------------------------------

  ghost predicate Yields(p: Producer, w: string, i: nat, v: Value, j: nat)
    decreases p
  {
    match p
    case Symbol(accepts) => i < |w| && accepts(w[i]) && j == i + 1 && v == Character(w[i])
    case Exact(f, fold) =>
      && i + |f| <= |w| && (forall k :: 0 <= k < |f| ==> fold(w[i + k]) == f[k])
      && j == i + |f| && v == Flag(true)
    case Digits(radix, t, limits) =>
      v.Integer? && Denotes(radix, t, PositiveExtremum, limits, w, i, j, v.n)
    case SignedDecimal(t, limits) => v.Integer? && SignedDenotes(t, limits, w, i, j, v.n)
    case Produce(init, cs) => AllMatch(cs, w, Point(i, init), Point(j, v))
    case Transform(q, convert) => exists u :: Yields(q, w, i, u, j) && convert(u) == Ok(v)
  }

  ghost predicate Rejects(p: Producer, w: string, i: nat, j: nat, cut: bool)
    decreases p
  {
    match p
    case Symbol(accepts) => j == i && !cut && (i < |w| ==> !accepts(w[i]))
    case Exact(f, fold) =>
      && j == i && !cut
      && (i + |f| <= |w| ==> exists k :: 0 <= k < |f| && fold(w[i + k]) != f[k])
    case Digits(radix, t, limits) =>
      j == i && !cut && !exists m, n :: Denotes(radix, t, PositiveExtremum, limits, w, i, m, n)
    case SignedDecimal(t, limits) => j == i && !cut && !exists m, n :: SignedDenotes(t, limits, w, i, m, n)
    case Produce(init, cs) => exists v :: AllFail(cs, w, Point(i, init), Point(j, v), cut)
    case Transform(q, convert) =>
      || Rejects(q, w, i, j, cut)
      || exists u :: Yields(q, w, i, u, j) && convert(u).Err? && cut == convert(u).error.ForceOnlyThisAlternativeFailed?
  }

  /** The clause succeeds from `a` to `b`. */
  ghost predicate Matches(c: Clause, w: string, a: Point, b: Point)
    decreases c, 0
  {
    match c
    case Consume(p, consume) => exists v :: Yields(p, w, a.pos, v, b.pos) && b.target == consume(a.target, v)
    case Sequence(cs) => AllMatch(cs, w, a, b)
    case Forced(cs) => AllMatch(cs, w, a, b)
    case Alternatives(cs) =>
      exists k :: 0 <= k < |cs| && Matches(cs[k], w, a, b) && forall m :: 0 <= m < k ==> FailsSoftly(cs[m], w, a)
    case Maybe(cs) => AllMatch(cs, w, a, b) || (a == b && AllFails(cs, w, a))
    case Not(cs) => a == b && AllFails(cs, w, Point(a.pos, DUMMY))
    case And(cs) => a == b && AllMatches(cs, w, Point(a.pos, DUMMY))
    case Repeat(min, max, cs) => exists n: nat :: min <= n && RepeatEnds(cs, max, w, a, n, b)
  }

  /** The clause fails from `a`, leaving `b`; `cut` tells that it forbids other alternatives. */
  ghost predicate Fails(c: Clause, w: string, a: Point, b: Point, cut: bool)
    decreases c, 0
  {
    match c
    case Consume(p, _) => b.target == a.target && Rejects(p, w, a.pos, b.pos, cut)
    case Sequence(cs) => b == a && exists x :: AllFail(cs, w, a, x, cut)
    case Forced(cs) => b == a && cut && AllFails(cs, w, a)
    case Alternatives(cs) =>
      && b == a && !cut
      && (|| (forall m :: 0 <= m < |cs| ==> FailsSoftly(cs[m], w, a))
          || (exists k, x :: 0 <= k < |cs| && Fails(cs[k], w, a, x, true) &&
                             forall m :: 0 <= m < k ==> FailsSoftly(cs[m], w, a)))
    case Maybe(_) => false
    case Not(cs) => b == a && !cut && AllMatches(cs, w, Point(a.pos, DUMMY))
    case And(cs) => b == a && !cut && AllFails(cs, w, Point(a.pos, DUMMY))
    case Repeat(min, max, cs) =>
      b.pos == a.pos && !cut && exists n: nat, x: Point :: n < min && x.target == b.target && RepeatEnds(cs, max, w, a, n, x)
  }

  ghost predicate FailsSoftly(c: Clause, w: string, a: Point)
    decreases c, 1
  {
    exists x :: Fails(c, w, a, x, false)
  }

  /** The first `k` clauses match along the points `st`. */
  ghost predicate Chain(cs: seq<Clause>, k: nat, w: string, st: seq<Point>)
    decreases cs, 0
  {
    k <= |cs| && |st| == k + 1 && forall m :: 0 <= m < k ==> Matches(cs[m], w, st[m], st[m + 1])
  }

  ghost predicate AllMatch(cs: seq<Clause>, w: string, a: Point, b: Point)
    decreases cs, 1
  {
    exists st: seq<Point> :: Chain(cs, |cs|, w, st) && st[0] == a && st[|cs|] == b
  }

  ghost predicate AllFail(cs: seq<Clause>, w: string, a: Point, b: Point, cut: bool)
    decreases cs, 1
  {
    exists k: nat, st: seq<Point> :: 0 <= k < |cs| && Chain(cs, k, w, st) && st[0] == a && Fails(cs[k], w, st[k], b, cut)
  }

  ghost predicate AllMatches(cs: seq<Clause>, w: string, a: Point)
    decreases cs, 2
  {
    exists x :: AllMatch(cs, w, a, x)
  }

  ghost predicate AllFails(cs: seq<Clause>, w: string, a: Point)
    decreases cs, 2
  {
    exists x, cut :: AllFail(cs, w, a, x, cut)
  }

  /** `n` rounds of all clauses along the points `st`. */
  ghost predicate Rounds(cs: seq<Clause>, n: nat, w: string, st: seq<Point>)
    decreases cs, 2
  {
    |st| == n + 1 && forall m :: 0 <= m < n ==> AllMatch(cs, w, st[m], st[m + 1])
  }

  /** After `n` rounds the repetition stops: the maximum is reached, or the next round fails and
      leaves its writes behind. */
  ghost predicate RepeatEnds(cs: seq<Clause>, max: nat, w: string, a: Point, n: nat, b: Point)
    decreases cs, 3
  {
    && n <= max
    && exists st: seq<Point> :: Rounds(cs, n, w, st) && st[0] == a && b.pos == st[n].pos && RoundStops(cs, w, st[n], n == max, b.target)
  }

  ghost predicate RoundStops(cs: seq<Clause>, w: string, a: Point, full: bool, left: Value)
    decreases cs, 2
  {
    if full then left == a.target else exists x, cut :: AllFail(cs, w, a, x, cut) && x.target == left
  }

  // ---------------------------------------------------------------------------------------------
  // What the interpreter does is related.

  ghost predicate Explains(w: string, a: Point, r: Outcome, c: Clause) {
    match r
    case Done(pos, target) => Matches(c, w, a, Point(pos, target))
    case Failed(pos, target, error) => Fails(c, w, a, Point(pos, target), IsCut(error))
  }

  lemma {:induction false} ParseIsRelated(p: Producer, w: string, i: nat)
    requires i <= |w|
    ensures match Parse(p, w, i)
            case Produced(j, v) => Yields(p, w, i, v, j)
            case Refused(j, error) => Rejects(p, w, i, j, IsCut(error))
    decreases p
  {
    match p
    case Symbol(_) =>
    case Exact(_, _) =>
    case Digits(_, _, _) => NumberIsRelated(p, w, i);
    case SignedDecimal(_, _) => NumberIsRelated(p, w, i);
    case Produce(init, cs) => AllIsRelated(cs, w, i, init);
    case Transform(q, _) => ParseIsRelated(q, w, i);
  }

  lemma NumberErrorsDoNotCut(p: Producer, w: string, i: nat)
    requires i <= |w| && (p.Digits? || p.SignedDecimal?)
    ensures Parse(p, w, i).Refused? ==> Parse(p, w, i).pos == i && !IsCut(Parse(p, w, i).error)
    ensures Parse(p, w, i).Produced? ==> Parse(p, w, i).value.Integer?
  {}

  /** Numbers: the parser agrees with what the digits denote. */
  lemma NumberIsRelated(p: Producer, w: string, i: nat)
    requires i <= |w| && (p.Digits? || p.SignedDecimal?)
    ensures forall j, v :: Parse(p, w, i) == Produced(j, v) <==> Yields(p, w, i, v, j)
    ensures forall j, cut ::
              (Parse(p, w, i).Refused? && Parse(p, w, i).pos == j && IsCut(Parse(p, w, i).error) == cut) <==> Rejects(p, w, i, j, cut)
  {
    hide Denotes, ParseDigits, ParseSigned;
    NumberErrorsDoNotCut(p, w, i);
    match p {
      case Digits(radix, t, limits) =>
        forall j, n ensures ParseDigits(radix, t, PositiveExtremum, limits, w, i) == Number(j, n)
                            <==> Denotes(radix, t, PositiveExtremum, limits, w, i, j, n) {
          ParsesExactlyWhatIsDenoted(radix, t, PositiveExtremum, limits, w, i, j, n);
        }
      case SignedDecimal(t, limits) =>
        forall j, n ensures ParseSigned(t, limits, w, i) == Number(j, n) <==> SignedDenotes(t, limits, w, i, j, n) {
          ParsesExactlySigned(t, limits, w, i, j, n);
        }
    }
  }

  lemma {:induction false} ProcessIsRelated(c: Clause, w: string, i: nat, v: Value)
    requires i <= |w|
    ensures Explains(w, Point(i, v), Process(c, w, i, v), c)
    decreases c
  {
    var a := Point(i, v);
    match c
    case Consume(p, consume) => ParseIsRelated(p, w, i);
    case Sequence(cs) => AllIsRelated(cs, w, i, v);
    case Forced(cs) => AllIsRelated(cs, w, i, v);
    case Alternatives(cs) =>
      assert cs[0..] == cs;
      AnyIsRelated(cs, 0, w, i, v);
    case Maybe(cs) => AllIsRelated(cs, w, i, v);
    case Not(cs) => AllIsRelated(cs, w, i, DUMMY);
    case And(cs) => AllIsRelated(cs, w, i, DUMMY);
    case Repeat(min, max, cs) => RepeatIsRelated(cs, w, i, v, max);
  }

  lemma ChainCons(cs: seq<Clause>, k: nat, w: string, a: Point, st: seq<Point>)
    requires cs != [] && Chain(cs[1..], k, w, st) && Matches(cs[0], w, a, st[0])
    ensures Chain(cs, k + 1, w, [a] + st)
  {
    hide Matches;
    var all := [a] + st;
    forall m | 0 <= m < k + 1 ensures Matches(cs[m], w, all[m], all[m + 1]) {
      if m > 0 {
        assert cs[m] == cs[1..][m - 1];
      }
    }
  }

  lemma {:induction false} AllIsRelated(cs: seq<Clause>, w: string, i: nat, v: Value)
    requires i <= |w|
    ensures match ProcessAll(cs, w, i, v)
            case Done(pos, target) => AllMatch(cs, w, Point(i, v), Point(pos, target))
            case Failed(pos, target, error) => AllFail(cs, w, Point(i, v), Point(pos, target), IsCut(error))
    decreases cs, 0
  {
    var a := Point(i, v);
    if cs == [] {
      assert Chain(cs, 0, w, [a]);
    } else {
      ProcessIsRelated(cs[0], w, i, v);
      match Process(cs[0], w, i, v)
      case Failed(pos, target, error) =>
        assert Chain(cs, 0, w, [a]);
      case Done(pos, target) =>
        var b := Point(pos, target);
        AllIsRelated(cs[1..], w, pos, target);
        hide Matches, Fails, AllMatch, AllFail;
        match ProcessAll(cs[1..], w, pos, target)
        case Done(p, t) => AllMatchCons(cs, w, a, b, Point(p, t));
        case Failed(p, t, error) => AllFailCons(cs, w, a, b, Point(p, t), IsCut(error));
    }
  }

  lemma AllMatchCons(cs: seq<Clause>, w: string, a: Point, b: Point, c: Point)
    requires cs != [] && Matches(cs[0], w, a, b) && AllMatch(cs[1..], w, b, c)
    ensures AllMatch(cs, w, a, c)
  {
    hide Matches;
    var rest := cs[1..];
    var st: seq<Point> :| Chain(rest, |rest|, w, st) && st[0] == b && st[|rest|] == c;
    ChainCons(cs, |cs| - 1, w, a, st);
  }

  lemma AllFailCons(cs: seq<Clause>, w: string, a: Point, b: Point, c: Point, cut: bool)
    requires cs != [] && Matches(cs[0], w, a, b) && AllFail(cs[1..], w, b, c, cut)
    ensures AllFail(cs, w, a, c, cut)
  {
    hide Matches, Fails;
    var rest := cs[1..];
    var k: nat, st: seq<Point> :| k < |rest| && Chain(rest, k, w, st) && st[0] == b && Fails(rest[k], w, st[k], c, cut);
    ChainCons(cs, k, w, a, st);
    assert rest[k] == cs[k + 1] && ([a] + st)[k + 1] == st[k];
  }

  lemma {:induction false} AnyIsRelated(cs: seq<Clause>, n: nat, w: string, i: nat, v: Value)
    requires i <= |w| && n <= |cs| && forall m :: 0 <= m < n ==> FailsSoftly(cs[m], w, Point(i, v))
    ensures match ProcessAny(cs[n..], w, i, v)
            case Done(pos, target) =>
              exists k :: 0 <= k < |cs| && Matches(cs[k], w, Point(i, v), Point(pos, target)) &&
                          forall m :: 0 <= m < k ==> FailsSoftly(cs[m], w, Point(i, v))
            case Failed(_, _, _) => Fails(Alternatives(cs), w, Point(i, v), Point(i, v), false)
    decreases cs, |cs| - n
  {
    if n < |cs| {
      var c := cs[n];
      assert cs[n..][0] == c && cs[n..][1..] == cs[n + 1..];
      ProcessIsRelated(c, w, i, v);
      match Process(c, w, i, v)
      case Done(pos, target) =>
      case Failed(pos, target, error) =>
        assert Fails(c, w, Point(i, v), Point(pos, target), IsCut(error));
        if !IsCut(error) {
          AnyIsRelated(cs, n + 1, w, i, v);
        }
    }
  }

  lemma RoundsCons(cs: seq<Clause>, n: nat, w: string, a: Point, st: seq<Point>)
    requires Rounds(cs, n, w, st) && AllMatch(cs, w, a, st[0])
    ensures Rounds(cs, n + 1, w, [a] + st)
  {
    var all := [a] + st;
    forall m | 0 <= m < n + 1 ensures AllMatch(cs, w, all[m], all[m + 1]) {
      if m > 0 {
        assert all[m] == st[m - 1] && all[m + 1] == st[m];
      }
    }
  }

  lemma {:induction false} RepeatIsRelated(cs: seq<Clause>, w: string, i: nat, v: Value, left: nat)
    requires i <= |w|
    ensures var r := ProcessRepeat(cs, w, i, v, left);
            RepeatEnds(cs, left, w, Point(i, v), r.count, Point(r.pos, r.target))
    decreases cs, left + 1
  {
    var a := Point(i, v);
    assert Rounds(cs, 0, w, [a]);
    if left > 0 {
      AllIsRelated(cs, w, i, v);
      match ProcessAll(cs, w, i, v)
      case Failed(pos, target, error) =>
        assert RoundStops(cs, w, a, false, target);
      case Done(pos, target) =>
        RepeatIsRelated(cs, w, pos, target, left - 1);
        var r := ProcessRepeat(cs, w, pos, target, left - 1);
        var st: seq<Point> :| Rounds(cs, r.count, w, st) && st[0] == Point(pos, target) && r.pos == st[r.count].pos &&
                   RoundStops(cs, w, st[r.count], r.count == left - 1, r.target);
        RoundsCons(cs, r.count, w, a, st);
        assert ([a] + st)[r.count + 1] == st[r.count];
    }
  }

  // ---------------------------------------------------------------------------------------------
  // What is related is what the interpreter does, so the relation is deterministic.

  lemma {:induction false} YieldsIsParse(p: Producer, w: string, i: nat, v: Value, j: nat)
    requires i <= |w| && Yields(p, w, i, v, j)
    ensures Parse(p, w, i) == Produced(j, v)
    decreases p
  {
    match p
    case Symbol(_) =>
    case Exact(f, fold) =>
    case Digits(_, _, _) => NumberIsRelated(p, w, i);
    case SignedDecimal(_, _) => NumberIsRelated(p, w, i);
    case Produce(init, cs) => AllMatchIsProcess(cs, w, Point(i, init), Point(j, v));
    case Transform(q, convert) =>
      var u :| Yields(q, w, i, u, j) && convert(u) == Ok(v);
      YieldsIsParse(q, w, i, u, j);
  }

  lemma {:induction false} RejectsIsParse(p: Producer, w: string, i: nat, j: nat, cut: bool)
    requires i <= |w| && Rejects(p, w, i, j, cut)
    ensures var r := Parse(p, w, i); r.Refused? && r.pos == j && IsCut(r.error) == cut
    decreases p
  {
    match p
    case Symbol(_) =>
    case Exact(f, fold) =>
    case Digits(_, _, _) => NumberIsRelated(p, w, i);
    case SignedDecimal(_, _) => NumberIsRelated(p, w, i);
    case Produce(init, cs) =>
      var v :| AllFail(cs, w, Point(i, init), Point(j, v), cut);
      AllFailIsProcess(cs, w, Point(i, init), Point(j, v), cut);
    case Transform(q, convert) =>
      if Rejects(q, w, i, j, cut) {
        RejectsIsParse(q, w, i, j, cut);
      } else {
        var u :| Yields(q, w, i, u, j) && convert(u).Err? && cut == convert(u).error.ForceOnlyThisAlternativeFailed?;
        YieldsIsParse(q, w, i, u, j);
      }
  }

  ghost predicate FailedAs(r: Outcome, b: Point, cut: bool) {
    r.Failed? && r.pos == b.pos && r.target == b.target && IsCut(r.error) == cut
  }

  lemma {:induction false} MatchesIsProcess(c: Clause, w: string, a: Point, b: Point)
    requires a.pos <= |w| && Matches(c, w, a, b)
    ensures Process(c, w, a.pos, a.target) == Done(b.pos, b.target)
    decreases c, 0
  {
    match c
    case Consume(p, consume) =>
      var v :| Yields(p, w, a.pos, v, b.pos) && b.target == consume(a.target, v);
      YieldsIsParse(p, w, a.pos, v, b.pos);
    case Sequence(cs) => AllMatchIsProcess(cs, w, a, b);
    case Forced(cs) => AllMatchIsProcess(cs, w, a, b);
    case Alternatives(cs) =>
      var k :| 0 <= k < |cs| && Matches(cs[k], w, a, b) && forall m :: 0 <= m < k ==> FailsSoftly(cs[m], w, a);
      SkipSoft(cs, k, w, a);
      MatchesIsProcess(cs[k], w, a, b);
      assert cs[k..][0] == cs[k];
    case Maybe(cs) =>
      if AllMatch(cs, w, a, b) {
        AllMatchIsProcess(cs, w, a, b);
      } else {
        AllFailsIsProcess(cs, w, a);
      }
    case Not(cs) => AllFailsIsProcess(cs, w, Point(a.pos, DUMMY));
    case And(cs) =>
      assert AllMatches(cs, w, Point(a.pos, DUMMY));
      var x :| AllMatch(cs, w, Point(a.pos, DUMMY), x);
      AllMatchIsProcess(cs, w, Point(a.pos, DUMMY), x);
    case Repeat(min, max, cs) =>
      var n: nat :| min <= n && RepeatEnds(cs, max, w, a, n, b);
      RepeatIsProcess(cs, max, w, a, n, b);
  }

  lemma {:induction false} FailsIsProcess(c: Clause, w: string, a: Point, b: Point, cut: bool)
    requires a.pos <= |w| && Fails(c, w, a, b, cut)
    ensures FailedAs(Process(c, w, a.pos, a.target), b, cut)
    decreases c, 0
  {
    match c
    case Consume(p, _) => RejectsIsParse(p, w, a.pos, b.pos, cut);
    case Sequence(cs) =>
      var x :| AllFail(cs, w, a, x, cut);
      AllFailIsProcess(cs, w, a, x, cut);
    case Forced(cs) => AllFailsIsProcess(cs, w, a);
    case Alternatives(cs) =>
      if forall m :: 0 <= m < |cs| ==> FailsSoftly(cs[m], w, a) {
        SkipSoft(cs, |cs|, w, a);
      } else {
        var k, x :| 0 <= k < |cs| && Fails(cs[k], w, a, x, true) && forall m :: 0 <= m < k ==> FailsSoftly(cs[m], w, a);
        SkipSoft(cs, k, w, a);
        FailsIsProcess(cs[k], w, a, x, true);
        assert cs[k..][0] == cs[k];
      }
    case Not(cs) =>
      assert AllMatches(cs, w, Point(a.pos, DUMMY));
      var x :| AllMatch(cs, w, Point(a.pos, DUMMY), x);
      AllMatchIsProcess(cs, w, Point(a.pos, DUMMY), x);
    case And(cs) => AllFailsIsProcess(cs, w, Point(a.pos, DUMMY));
    case Repeat(min, max, cs) =>
      var n: nat, x: Point :| n < min && x.target == b.target && RepeatEnds(cs, max, w, a, n, x);
      RepeatIsProcess(cs, max, w, a, n, x);
  }

  /** Alternatives that fail softly are skipped. */
  lemma {:induction false} SkipSoft(cs: seq<Clause>, k: nat, w: string, a: Point)
    requires a.pos <= |w| && k <= |cs| && forall m :: 0 <= m < k ==> FailsSoftly(cs[m], w, a)
    ensures ProcessAny(cs, w, a.pos, a.target) == ProcessAny(cs[k..], w, a.pos, a.target)
    decreases cs, k
  {
    if k == 0 {
      assert cs[0..] == cs;
    } else {
      SkipSoft(cs, k - 1, w, a);
      assert FailsSoftly(cs[k - 1], w, a);
      var x :| Fails(cs[k - 1], w, a, x, false);
      FailsIsProcess(cs[k - 1], w, a, x, false);
      assert cs[k - 1..][0] == cs[k - 1] && cs[k - 1..][1..] == cs[k..];
    }
  }

  /** Processing follows a chain of matches. */
  lemma {:induction false} ChainIsProcess(cs: seq<Clause>, k: nat, w: string, st: seq<Point>)
    requires Chain(cs, k, w, st) && st[0].pos <= |w|
    ensures st[k].pos <= |w|
    ensures ProcessAll(cs, w, st[0].pos, st[0].target) == ProcessAll(cs[k..], w, st[k].pos, st[k].target)
    decreases cs, 0, k
  {
    if k == 0 {
      assert cs[0..] == cs;
    } else {
      assert Chain(cs, k - 1, w, st[..k]);
      ChainIsProcess(cs, k - 1, w, st[..k]);
      assert Matches(cs[k - 1], w, st[k - 1], st[k]);
      MatchesIsProcess(cs[k - 1], w, st[k - 1], st[k]);
      assert cs[k - 1..][0] == cs[k - 1] && cs[k - 1..][1..] == cs[k..];
    }
  }

  lemma {:induction false} AllMatchIsProcess(cs: seq<Clause>, w: string, a: Point, b: Point)
    requires a.pos <= |w| && AllMatch(cs, w, a, b)
    ensures ProcessAll(cs, w, a.pos, a.target) == Done(b.pos, b.target)
    decreases cs, 1
  {
    var st: seq<Point> :| Chain(cs, |cs|, w, st) && st[0] == a && st[|cs|] == b;
    ChainIsProcess(cs, |cs|, w, st);
  }

  lemma {:induction false} AllFailIsProcess(cs: seq<Clause>, w: string, a: Point, b: Point, cut: bool)
    requires a.pos <= |w| && AllFail(cs, w, a, b, cut)
    ensures FailedAs(ProcessAll(cs, w, a.pos, a.target), b, cut)
    decreases cs, 1
  {
    var k: nat, st: seq<Point> :| k < |cs| && Chain(cs, k, w, st) && st[0] == a && Fails(cs[k], w, st[k], b, cut);
    ChainIsProcess(cs, k, w, st);
    FailsIsProcess(cs[k], w, st[k], b, cut);
    assert cs[k..][0] == cs[k];
  }

  lemma {:induction false} AllFailsIsProcess(cs: seq<Clause>, w: string, a: Point)
    requires a.pos <= |w| && AllFails(cs, w, a)
    ensures ProcessAll(cs, w, a.pos, a.target).Failed?
    decreases cs, 2
  {
    var x, cut :| AllFail(cs, w, a, x, cut);
    AllFailIsProcess(cs, w, a, x, cut);
  }

  /** Repetition follows the rounds. */
  lemma {:induction false} RoundsIsProcess(cs: seq<Clause>, max: nat, w: string, st: seq<Point>, n: nat, m: nat)
    requires Rounds(cs, n, w, st) && st[0].pos <= |w| && m <= n <= max
    ensures st[m].pos <= |w|
    ensures var whole := ProcessRepeat(cs, w, st[0].pos, st[0].target, max);
            var rest := ProcessRepeat(cs, w, st[m].pos, st[m].target, max - m);
            whole == Repetition(rest.count + m, rest.pos, rest.target)
    decreases cs, 2, m
  {
    if m > 0 {
      RoundsIsProcess(cs, max, w, st, n, m - 1);
      assert AllMatch(cs, w, st[m - 1], st[m]);
      AllMatchIsProcess(cs, w, st[m - 1], st[m]);
    }
  }

  lemma {:induction false} RepeatIsProcess(cs: seq<Clause>, max: nat, w: string, a: Point, n: nat, b: Point)
    requires a.pos <= |w| && RepeatEnds(cs, max, w, a, n, b)
    ensures ProcessRepeat(cs, w, a.pos, a.target, max) == Repetition(n, b.pos, b.target)
    decreases cs, 3
  {
    var st: seq<Point> :| Rounds(cs, n, w, st) && st[0] == a && b.pos == st[n].pos && RoundStops(cs, w, st[n], n == max, b.target);
    RoundsIsProcess(cs, max, w, st, n, n);
    if n < max {
      assert RoundStops(cs, w, st[n], false, b.target);
      var x, cut :| AllFail(cs, w, st[n], x, cut) && x.target == b.target;
      AllFailIsProcess(cs, w, st[n], x, cut);
    }
  }

  // ---------------------------------------------------------------------------------------------

  /** The interpreter computes exactly the relation: it ends with success at `b` if and only if the
      clause matches from `a` to `b`, and fails leaving `b`, with or without a cut, if and only if
      the relation says so. So the relation is total and deterministic, and success excludes failure. */
  lemma InterpreterAgreesWithRelation(c: Clause, w: string, a: Point, b: Point, cut: bool)
    requires a.pos <= |w|
    ensures Process(c, w, a.pos, a.target) == Done(b.pos, b.target) <==> Matches(c, w, a, b)
    ensures FailedAs(Process(c, w, a.pos, a.target), b, cut) <==> Fails(c, w, a, b, cut)
  {
    ProcessIsRelated(c, w, a.pos, a.target);
    if Matches(c, w, a, b) {
      MatchesIsProcess(c, w, a, b);
    }
    if Fails(c, w, a, b, cut) {
      FailsIsProcess(c, w, a, b, cut);
    }
  }

  /** The same for producers; a refusal tells the position where the producer stopped, which for
      `produce` need not be the one where it began. */
  lemma ProducerAgreesWithRelation(p: Producer, w: string, i: nat, v: Value, j: nat, cut: bool)
    requires i <= |w|
    ensures Parse(p, w, i) == Produced(j, v) <==> Yields(p, w, i, v, j)
    ensures (var r := Parse(p, w, i); r.Refused? && r.pos == j && IsCut(r.error) == cut) <==> Rejects(p, w, i, j, cut)
  {
    ParseIsRelated(p, w, i);
    if Yields(p, w, i, v, j) {
      YieldsIsParse(p, w, i, v, j);
    }
    if Rejects(p, w, i, j, cut) {
      RejectsIsParse(p, w, i, j, cut);
    }
  }
}
