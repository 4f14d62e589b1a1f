/**
  Grammars of easy_parser as values, and what the clauses do (restinio/helpers/easy_parser.hpp).
 */
module Grammar {
  import opened Wrappers
  import opened ParserSource
  import opened IntegerAccumulator
  import opened NumberParsing

  /** The values producers make and targets hold. */
  datatype Value =
    | Nothing
    | Character(c: char)
    | Integer(n: int)
    | Flag(b: bool)
    | Text(s: string)
    | List(items: seq<Value>)

  type Fragment = s: string | s != [] witness "x"

  datatype Producer =
    | Symbol(accepts: char -> bool)
    | Exact(fragment: Fragment, fold: char -> char)
    | Digits(radix: Radix, t: IntType, limits: DigitsLimit)
    | SignedDecimal(t: IntType, limits: DigitsLimit)
    | Produce(init: Value, clauses: seq<Clause>)
    | Transform(producer: Producer, convert: Value -> Result<Value, Reason>)

  datatype Clause =
    | Consume(producer: Producer, consume: (Value, Value) -> Value)
    | Sequence(clauses: seq<Clause>)
    | Forced(clauses: seq<Clause>)
    | Alternatives(clauses: seq<Clause>)
    | Maybe(clauses: seq<Clause>)
    | Not(clauses: seq<Clause>)
    | And(clauses: seq<Clause>)
    | Repeat(min: nat, max: nat, clauses: seq<Clause>)

  /** After a clause: the position and the target it leaves, and the error if it failed. */
  datatype Outcome =
    | Done(pos: nat, target: Value)
    | Failed(pos: nat, target: Value, error: ParseError)

  datatype Production =
    | Produced(pos: nat, value: Value)
    | Refused(pos: nat, error: ParseError)

  predicate IsCut(e: ParseError) { e.reason == ForceOnlyThisAlternativeFailed }

  /** `not_clause_t` and `and_clause_t` run their content on a default constructed target. */
  const DUMMY := Nothing

  // ---------------------------------------------------------------------------------------------
  // Leaves.

  function ParseSymbol(accepts: char -> bool, w: string, i: nat): Production
    requires i <= |w|
  {
    if i == |w| then Refused(i, ParseError(i, UnexpectedEof))
    else if accepts(w[i]) then Produced(i + 1, Character(w[i]))
    else Refused(i, ParseError(i, UnexpectedCharacter))
  }

  /** How many characters of the fragment are found at `i`. */
  function Agreement(f: string, fold: char -> char, w: string, i: nat): (n: nat)
    requires i <= |w|
    ensures n <= |f| && i + n <= |w|
    ensures forall k :: 0 <= k < n ==> fold(w[i + k]) == f[k]
    ensures n == |f| || i + n == |w| || fold(w[i + n]) != f[n]
    decreases |f|
  {
    if f != [] && i < |w| && fold(w[i]) == f[0] then
      assert forall k :: 0 <= k < |f| - 1 ==> f[1..][k] == f[k + 1];
      1 + Agreement(f[1..], fold, w, i + 1)
    else 0
  }

  function ParseExact(f: Fragment, fold: char -> char, w: string, i: nat): Production
    requires i <= |w|
  {
    var n := Agreement(f, fold, w, i);
    if n == |f| then Produced(i + n, Flag(true))
    else if i + n == |w| then Refused(i, ParseError(i, UnexpectedEof))
    else Refused(i, ParseError(i, PatternNotFound))
  }

  function FromNumber(r: Parsed): Production {
    match r
    case Number(pos, value) => Produced(pos, Integer(value))
    case NoNumber(pos, error) => Refused(pos, error)
  }

  // ---------------------------------------------------------------------------------------------
  // Producers and clauses. Every result stays inside the input and never moves backwards.

  function Parse(p: Producer, w: string, i: nat): (r: Production)
    requires i <= |w|
    ensures i <= r.pos <= |w|
    decreases p
  {
    match p
    case Symbol(accepts) => ParseSymbol(accepts, w, i)
    case Exact(fragment, fold) => ParseExact(fragment, fold, w, i)
    case Digits(radix, t, limits) => FromNumber(ParseDigits(radix, t, PositiveExtremum, limits, w, i))
    case SignedDecimal(t, limits) => FromNumber(ParseSigned(t, limits, w, i))
    case Produce(init, clauses) =>
      (match ProcessAll(clauses, w, i, init)
       case Done(pos, target) => Produced(pos, target)
       case Failed(pos, _, error) => Refused(pos, error))
    case Transform(producer, convert) =>
      match Parse(producer, w, i)
      case Refused(pos, error) => Refused(pos, error)
      case Produced(pos, value) =>
        match convert(value)
        case Ok(converted) => Produced(pos, converted)
        case Err(reason) => Refused(pos, ParseError(pos, reason))
  }

  function Process(c: Clause, w: string, i: nat, target: Value): (r: Outcome)
    requires i <= |w|
    ensures i <= r.pos <= |w|
    decreases c
  {
    match c
    case Consume(producer, consume) =>
      (match Parse(producer, w, i)
       case Produced(pos, value) => Done(pos, consume(target, value))
       case Refused(pos, error) => Failed(pos, target, error))
    case Sequence(clauses) =>
      (match ProcessAll(clauses, w, i, target)
       case Done(pos, t) => Done(pos, t)
       case Failed(_, _, error) => Failed(i, target, error))
    case Forced(clauses) =>
      (match ProcessAll(clauses, w, i, target)
       case Done(pos, t) => Done(pos, t)
       case Failed(_, _, _) => Failed(i, target, ParseError(i, ForceOnlyThisAlternativeFailed)))
    case Alternatives(clauses) =>
      (match ProcessAny(clauses, w, i, target)
       case Done(pos, t) => Done(pos, t)
       case Failed(_, _, _) => Failed(i, target, ParseError(i, NoAppropriateAlternative)))
    case Maybe(clauses) =>
      (match ProcessAll(clauses, w, i, target)
       case Done(pos, t) => Done(pos, t)
       case Failed(_, _, _) => Done(i, target))
    case Not(clauses) =>
      if ProcessAll(clauses, w, i, DUMMY).Done? then Failed(i, target, ParseError(i, PatternNotFound))
      else Done(i, target)
    case And(clauses) =>
      if ProcessAll(clauses, w, i, DUMMY).Done? then Done(i, target)
      else Failed(i, target, ParseError(i, PatternNotFound))
    case Repeat(min, max, clauses) =>
      var r := ProcessRepeat(clauses, w, i, target, max);
      if r.count >= min then Done(r.pos, r.target)
      else Failed(i, r.target, ParseError(r.pos, PatternNotFound))
  }

  /** All clauses one after another on the same target, up to the first failure. */
  function ProcessAll(cs: seq<Clause>, w: string, i: nat, target: Value): (r: Outcome)
    requires i <= |w|
    ensures i <= r.pos <= |w|
    decreases cs, 0
  {
    if cs == [] then Done(i, target)
    else
      match Process(cs[0], w, i, target)
      case Done(pos, t) => ProcessAll(cs[1..], w, pos, t)
      case Failed(pos, t, error) => Failed(pos, t, error)
  }

  /** Each clause from the same position on a copy of the target, up to the first success or cut. */
  function ProcessAny(cs: seq<Clause>, w: string, i: nat, target: Value): (r: Outcome)
    requires i <= |w|
    ensures i <= r.pos <= |w|
    decreases cs, 0
  {
    if cs == [] then Failed(i, target, ParseError(i, NoAppropriateAlternative))
    else
      match Process(cs[0], w, i, target)
      case Done(pos, t) => Done(pos, t)
      case Failed(_, _, error) =>
        if IsCut(error) then Failed(i, target, error) else ProcessAny(cs[1..], w, i, target)
  }

  datatype Repetition = Repetition(count: nat, pos: nat, target: Value)

  /** At most `left` more rounds; a failed round gives its input back but not its writes. */
  function ProcessRepeat(cs: seq<Clause>, w: string, i: nat, target: Value, left: nat): (r: Repetition)
    requires i <= |w|
    ensures i <= r.pos <= |w| && r.count <= left
    decreases cs, left + 1
  {
    if left == 0 then Repetition(0, i, target)
    else
      match ProcessAll(cs, w, i, target)
      case Done(pos, t) =>
        var r := ProcessRepeat(cs, w, pos, t, left - 1);
        Repetition(r.count + 1, r.pos, r.target)
      case Failed(_, t, _) => Repetition(0, i, t)
  }

  // ---------------------------------------------------------------------------------------------
  // The top level.

  predicate IsSpace(c: char) { c == ' ' || c == '\t' }

  /** `remove_trailing_spaces`. */
  function Trim(w: string): (r: string)
    ensures r <= w
    ensures r == [] || !IsSpace(r[|r| - 1])
    ensures forall k :: |r| <= k < |w| ==> IsSpace(w[k])
  {
    if w != [] && IsSpace(w[|w| - 1]) then Trim(w[..|w| - 1]) else w
  }

  /** The first character that is not a space, from `i`. */
  function SkipSpaces(w: string, i: nat): (r: nat)
    requires i <= |w|
    ensures i <= r <= |w| && (r < |w| ==> !IsSpace(w[r]))
    ensures forall k :: i <= k < r ==> IsSpace(w[k])
    decreases |w| - i
  {
    if i < |w| && IsSpace(w[i]) then SkipSpaces(w, i + 1) else i
  }

  function TryParse(w: string, p: Producer): Result<Value, ParseError> {
    var text := Trim(w);
    match Parse(p, text, 0)
    case Refused(_, error) => Err(error)
    case Produced(pos, value) =>
      var rest := SkipSpaces(text, pos);
      if rest < |text| then Err(ParseError(rest, UnconsumedInput)) else Ok(value)
  }

  /** The whole content is parsed exactly when the producer ends at the end of the trimmed input:
      the check for remaining spaces adds nothing to that. */
  lemma AcceptsExactlyWholeInput(w: string, p: Producer, v: Value)
    ensures TryParse(w, p) == Ok(v) <==> Parse(p, Trim(w), 0) == Produced(|Trim(w)|, v)
    ensures Parse(p, Trim(w), 0).Refused? ==> TryParse(w, p) == Err(Parse(p, Trim(w), 0).error)
    ensures Parse(p, Trim(w), 0).Produced? && TryParse(w, p).Err? ==>
              && TryParse(w, p).error.reason == UnconsumedInput
              && var k := TryParse(w, p).error.position;
                 && Parse(p, Trim(w), 0).pos <= k < |Trim(w)| && !IsSpace(w[k])
                 && forall m :: Parse(p, Trim(w), 0).pos <= m < k ==> IsSpace(w[m])
  {
    var text := Trim(w);
    var r := Parse(p, text, 0);
    if r.Produced? && r.pos < |text| {
      assert SkipSpaces(text, r.pos) < |text| by {
        assert !IsSpace(text[|text| - 1]);
      }
    }
  }
}
