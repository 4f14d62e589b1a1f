/**
  The stateful parser: clauses move the index of the source, write to target objects and roll both
  back. Every method is proved against the value-level meaning of module Grammar.
 */
module ParserObjects {
  import opened Wrappers
  import opened ParserSource
  import opened IntegerAccumulator
  import opened NumberParsing
  import opened Grammar
  import opened GrammarLaws

  class Target {
    var value: Value

    constructor (value: Value)
      ensures this.value == value
    {
      this.value := value;
    }
  }

  ghost predicate EndsAs(r: Outcome, index: nat, value: Value, err: Option<ParseError>) {
    match r
    case Done(pos, t) => index == pos && value == t && err == None
    case Failed(pos, t, e) => index == pos && value == t && err == Some(e)
  }

  ghost predicate ProducesAs(r: Production, index: nat, res: Result<Value, ParseError>) {
    match r
    case Produced(pos, v) => index == pos && res == Ok(v)
    case Refused(pos, e) => index == pos && res == Err(e)
  }

  method TryParseSymbol(accepts: char -> bool, from: Source) returns (r: Result<Value, ParseError>)
    requires from.Valid()
    modifies from
    ensures from.Valid() && ProducesAs(ParseSymbol(accepts, from.data, old(from.index)), from.index, r)
  {
    var ch := from.GetCh();
    if ch.Some? {
      if accepts(ch.value) {
        r := Ok(Character(ch.value));
      } else {
        from.PutBack();
        r := Err(ParseError(from.index, UnexpectedCharacter));
      }
    } else {
      r := Err(ParseError(from.index, UnexpectedEof));
    }
  }

  method TryParseExact(f: Fragment, fold: char -> char, from: Source) returns (r: Result<Value, ParseError>)
    requires from.Valid()
    modifies from
    ensures from.Valid() && ProducesAs(ParseExact(f, fold, from.data, old(from.index)), from.index, r)
  {
    var startedAt := from.index;
    ghost var n := Agreement(f, fold, from.data, startedAt);
    var k := 0;
    while k < |f|
      invariant from.Valid() && k <= n && from.index == startedAt + k
    {
      var ch := from.GetCh();
      if ch.None? {
        break;
      }
      if fold(ch.value) != f[k] {
        from.BackTo(startedAt);
        return Err(ParseError(startedAt, PatternNotFound));
      }
      k := k + 1;
    }
    if k < |f| {
      from.BackTo(startedAt);
      return Err(ParseError(startedAt, UnexpectedEof));
    }
    return Ok(Flag(true));
  }

  method TryParseProducer(p: Producer, from: Source) returns (r: Result<Value, ParseError>)
    requires from.Valid()
    modifies from
    ensures from.Valid() && ProducesAs(Parse(p, from.data, old(from.index)), from.index, r)
    decreases p
  {
    match p
    case Symbol(accepts) => r := TryParseSymbol(accepts, from);
    case Exact(fragment, fold) => r := TryParseExact(fragment, fold, from);
    case Digits(radix, t, limits) =>
      var n := TryParseDigits(from, radix, t, PositiveExtremum, limits);
      r := if n.Ok? then Ok(Integer(n.value)) else Err(n.error);
    case SignedDecimal(t, limits) =>
      var n := TryParseSigned(from, t, limits);
      r := if n.Ok? then Ok(Integer(n.value)) else Err(n.error);
    case Produce(init, clauses) =>
      var tmp := new Target(init);
      var err := AllOf(clauses, from, tmp);
      r := if err.None? then Ok(tmp.value) else Err(err.value);
    case Transform(producer, convert) =>
      r := TryParseProducer(producer, from);
      if r.Ok? {
        var converted := convert(r.value);
        r := if converted.Ok? then Ok(converted.value) else Err(ParseError(from.index, converted.error));
      }
  }

  /** A clause on a source and a target. A failing clause other than a plain consumer gives its input
      back, and unless it is a repeat its writes as well; a lookahead always does. */
  method TryProcess(c: Clause, from: Source, target: Target) returns (err: Option<ParseError>)
    requires from.Valid()
    modifies from, target
    ensures from.Valid() && EndsAs(Process(c, from.data, old(from.index), old(target.value)), from.index, target.value, err)
    ensures err.Some? && !c.Consume? ==> from.index == old(from.index)
    ensures err.Some? && Transactional(c) ==> target.value == old(target.value)
    ensures c.Not? || c.And? ==> from.index == old(from.index) && target.value == old(target.value)
    decreases c
  {
    var startedAt := from.index;
    match c
    case Consume(producer, consume) =>
      var v := TryParseProducer(producer, from);
      if v.Ok? {
        target.value := consume(target.value, v.value);
        err := None;
      } else {
        err := Some(v.error);
      }
    case Sequence(clauses) =>
      err := TransactAll(clauses, from, target);
    case Forced(clauses) =>
      err := TransactAll(clauses, from, target);
      if err.Some? {
        err := Some(ParseError(startedAt, ForceOnlyThisAlternativeFailed));
      }
    case Alternatives(clauses) =>
      var success := AnyOf(clauses, from, target);
      err := if success then None else Some(ParseError(startedAt, NoAppropriateAlternative));
    case Maybe(clauses) =>
      var _ := TransactAll(clauses, from, target);
      err := None;
    case Not(clauses) =>
      var found := LookAhead(clauses, from);
      err := if found then Some(ParseError(startedAt, PatternNotFound)) else None;
    case And(clauses) =>
      var found := LookAhead(clauses, from);
      err := if found then None else Some(ParseError(startedAt, PatternNotFound));
    case Repeat(min, max, clauses) =>
      var count := RepeatAll(clauses, from, target, max);
      if count >= min {
        err := None;
      } else {
        err := Some(ParseError(from.index, PatternNotFound));
        from.BackTo(startedAt);
      }
  }

  /** All clauses on the given target, up to the first failure. */
  method AllOf(cs: seq<Clause>, from: Source, target: Target) returns (err: Option<ParseError>)
    requires from.Valid()
    modifies from, target
    ensures from.Valid() && EndsAs(ProcessAll(cs, from.data, old(from.index), old(target.value)), from.index, target.value, err)
    decreases cs, 0
  {
    var k := 0;
    while k < |cs|
      invariant from.Valid() && k <= |cs|
      invariant ProcessAll(cs, from.data, old(from.index), old(target.value)) == ProcessAll(cs[k..], from.data, from.index, target.value)
    {
      assert cs[k..][0] == cs[k] && cs[k..][1..] == cs[k + 1..];
      err := TryProcess(cs[k], from, target);
      if err.Some? {
        return;
      }
      k := k + 1;
    }
    err := None;
  }

  /** All clauses on a copy of the target; on failure position and target stay as they were. */
  method TransactAll(cs: seq<Clause>, from: Source, target: Target) returns (err: Option<ParseError>)
    requires from.Valid()
    modifies from, target
    ensures from.Valid()
    ensures match ProcessAll(cs, from.data, old(from.index), old(target.value))
            case Done(pos, t) => err == None && from.index == pos && target.value == t
            case Failed(_, _, e) => err == Some(e) && from.index == old(from.index) && target.value == old(target.value)
    decreases cs, 1
  {
    var startedAt := from.index;
    var tmp := new Target(target.value);
    err := AllOf(cs, from, tmp);
    if err.None? {
      target.value := tmp.value;
    } else {
      from.BackTo(startedAt);
    }
  }

  /** Each clause on its own copy of the target, up to the first success or cut. */
  method AnyOf(cs: seq<Clause>, from: Source, target: Target) returns (success: bool)
    requires from.Valid()
    modifies from, target
    ensures from.Valid()
    ensures match ProcessAny(cs, from.data, old(from.index), old(target.value))
            case Done(pos, t) => success && from.index == pos && target.value == t
            case Failed(_, _, _) => !success && from.index == old(from.index) && target.value == old(target.value)
    decreases cs, 1
  {
    var startedAt := from.index;
    var k := 0;
    while k < |cs|
      invariant from.Valid() && k <= |cs| && from.index == startedAt && target.value == old(target.value)
      invariant ProcessAny(cs, from.data, startedAt, target.value) == ProcessAny(cs[k..], from.data, startedAt, target.value)
    {
      assert cs[k..][0] == cs[k] && cs[k..][1..] == cs[k + 1..];
      var tmp := new Target(target.value);
      var err := TryProcess(cs[k], from, tmp);
      if err.None? {
        target.value := tmp.value;
        return true;
      }
      from.BackTo(startedAt);
      if err.value.reason == ForceOnlyThisAlternativeFailed {
        return false;
      }
      k := k + 1;
    }
    return false;
  }

  /** Are all clauses there? The position is always given back. */
  method LookAhead(cs: seq<Clause>, from: Source) returns (found: bool)
    requires from.Valid()
    modifies from
    ensures from.Valid() && from.index == old(from.index)
    ensures found == ProcessAll(cs, from.data, old(from.index), DUMMY).Done?
    decreases cs, 1
  {
    var startedAt := from.index;
    var dummy := new Target(DUMMY);
    var err := AllOf(cs, from, dummy);
    from.BackTo(startedAt);
    found := err.None?;
  }

  /** The repeat loop: every round writes straight to the target. */
  method RepeatAll(cs: seq<Clause>, from: Source, target: Target, max: nat) returns (count: nat)
    requires from.Valid()
    modifies from, target
    ensures from.Valid()
    ensures ProcessRepeat(cs, from.data, old(from.index), old(target.value), max) == Repetition(count, from.index, target.value)
    decreases cs, 1
  {
    count := 0;
    var failureDetected := false;
    ghost var whole := ProcessRepeat(cs, from.data, from.index, target.value, max);
    while !failureDetected && count != max
      invariant from.Valid() && count <= max
      invariant !failureDetected ==>
                  var rest := ProcessRepeat(cs, from.data, from.index, target.value, max - count);
                  whole == Repetition(rest.count + count, rest.pos, rest.target)
      invariant failureDetected ==> whole == Repetition(count, from.index, target.value)
      decreases !failureDetected, max - count
    {
      var itemStartedAt := from.index;
      var err := AllOf(cs, from, target);
      if err.Some? {
        failureDetected := true;
        from.BackTo(itemStartedAt);
      } else {
        count := count + 1;
      }
    }
  }

  /** `ensure_no_remaining_content`. */
  method EnsureNoRemainingContent(from: Source) returns (err: Option<ParseError>)
    requires from.Valid()
    modifies from
    ensures from.Valid()
    ensures var rest := SkipSpaces(from.data, old(from.index));
            err == if rest < |from.data| then Some(ParseError(rest, UnconsumedInput)) else None
  {
    while !from.Eof()
      invariant from.Valid()
      invariant SkipSpaces(from.data, old(from.index)) == SkipSpaces(from.data, from.index)
      decreases |from.data| - from.index
    {
      var ch := from.GetCh();
      if !IsSpace(ch.value) {
        from.PutBack();
        return Some(ParseError(from.index, UnconsumedInput));
      }
    }
    return None;
  }

  method RemoveTrailingSpaces(w: string) returns (r: string)
    ensures r == Trim(w)
  {
    var s := |w|;
    assert w[..s] == w;
    while s != 0 && IsSpace(w[s - 1])
      invariant s <= |w| && Trim(w) == Trim(w[..s])
    {
      assert w[..s][..s - 1] == w[..s - 1];
      s := s - 1;
    }
    r := w[..s];
  }

  /** The entry point `try_parse`. */
  method TryParseAll(w: string, p: Producer) returns (r: Result<Value, ParseError>)
    ensures r == TryParse(w, p)
  {
    var text := RemoveTrailingSpaces(w);
    var source := new Source(text);
    r := TryParseProducer(p, source);
    if r.Ok? {
      var rest := EnsureNoRemainingContent(source);
      if rest.Some? {
        r := Err(rest.value);
      }
    }
  }
}
