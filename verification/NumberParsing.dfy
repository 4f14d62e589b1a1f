/** The number producers of easy_parser: digits from the input stream into an accumulator. */
module NumberParsing {
  import opened Wrappers
  import opened ParserSource
  import opened IntegerAccumulator

  datatype Radix = Decimal | Hexadecimal
  {
    function Base(): Positive { if Decimal? then 10 else 16 }
  }

  function ToDigit(radix: Radix, c: char): Option<nat> {
    if '0' <= c <= '9' then Some(c as nat - '0' as nat)
    else if radix.Hexadecimal? && 'A' <= c <= 'F' then Some(10 + (c as nat - 'A' as nat))
    else if radix.Hexadecimal? && 'a' <= c <= 'f' then Some(10 + (c as nat - 'a' as nat))
    else None
  }

  /** The counter of processed digits is an `int_fast8_t`, here of 8 bits; it wraps around. */
  type Int8 = n: int | -128 <= n < 128

  function Tick(c: Int8): Int8 { if c == 127 then -128 else c + 1 }

  /** The counter after `n` digits. */
  function Ticks(n: nat): Int8 { (n + 128) % 256 - 128 }

  /** `digits_to_consume_t`, which accepts every pair of values. */
  datatype DigitsLimit = DigitsLimit(min: Int8, max: Int8)
  {
    /** After so many digits the counter meets the maximum: at once for a positive maximum, after
        wrapping around for the others. */
    function Cap(): (n: nat)
      ensures 0 < n <= 256 && Ticks(n) == max && forall k :: 0 < k < n ==> Ticks(k) != max
    {
      if 0 < max then max else 256 + max
    }

    predicate Enough(n: nat) { min <= Ticks(n) }
  }

  /** The length of the longest run of digits from `i`, capped. */
  function RunLength(radix: Radix, w: string, i: nat, cap: nat): (n: nat)
    requires i <= |w|
    ensures n <= cap && i + n <= |w|
    ensures forall k :: i <= k < i + n ==> ToDigit(radix, w[k]).Some?
    ensures n == cap || i + n == |w| || ToDigit(radix, w[i + n]).None?
    decreases cap
  {
    if 0 < cap && i < |w| && ToDigit(radix, w[i]).Some? then 1 + RunLength(radix, w, i + 1, cap - 1) else 0
  }

  function DigitsAt(radix: Radix, w: string, i: nat, n: nat): (r: seq<nat>)
    requires i + n <= |w| && forall k :: i <= k < i + n ==> ToDigit(radix, w[k]).Some?
    ensures |r| == n && forall k :: 0 <= k < n ==> r[k] == ToDigit(radix, w[i + k]).value
  {
    seq<nat>(n, k requires 0 <= k < n => ToDigit(radix, w[i + k]).value)
  }

  /** The position after the call, with the number or the error. */
  datatype Parsed = Number(pos: nat, value: int) | NoNumber(pos: nat, error: ParseError)

  /** The longest run of digits, if it is long enough and the accumulator took it. */
  function ParseDigits(radix: Radix, t: IntType, e: Extremum, limits: DigitsLimit, w: string, i: nat): (r: Parsed)
    requires i <= |w|
    ensures i <= r.pos <= |w|
    ensures r.NoNumber? ==> r.pos == i && i <= r.error.position <= |w|
  {
    var n := RunLength(radix, w, i, limits.Cap());
    var s := Feed(t, radix.Base(), e, DigitsAt(radix, w, i, n));
    if s.overflow then NoNumber(i, ParseError(i, IllegalValueFound))
    else if !limits.Enough(n) then NoNumber(i, ParseError(i + n, PatternNotFound))
    else Number(i + n, t.FromStorage(s.current))
  }

  /** `decimal_number_producer_t`: an optional sign, then digits. */
  function ParseSigned(t: IntType, limits: DigitsLimit, w: string, i: nat): (r: Parsed)
    requires i <= |w|
    ensures i <= r.pos <= |w|
    ensures r.NoNumber? ==> r.pos == i && i <= r.error.position <= |w|
  {
    if i == |w| then NoNumber(i, ParseError(i, PatternNotFound))
    else if w[i] == '-' then
      match ParseDigits(Decimal, t, NegativeExtremum, limits, w, i + 1)
      case Number(pos, value) => Number(pos, t.Wrap(-value))
      case NoNumber(_, error) => NoNumber(i, error)
    else if w[i] == '+' then
      match ParseDigits(Decimal, t, PositiveExtremum, limits, w, i + 1)
      case Number(pos, value) => Number(pos, value)
      case NoNumber(_, error) => NoNumber(i, error)
    else if '0' <= w[i] <= '9' then ParseDigits(Decimal, t, PositiveExtremum, limits, w, i)
    else NoNumber(i, ParseError(i + 1, PatternNotFound))
  }

  /** An overflow flag is never lowered. */
  lemma {:induction false} OverflowSticks(t: IntType, base: Positive, e: Extremum, digits: seq<nat>, k: nat)
    requires k <= |digits| && Feed(t, base, e, digits[..k]).overflow
    ensures Feed(t, base, e, digits).overflow
    decreases |digits| - k
  {
    if k == |digits| {
      assert digits[..k] == digits;
    } else {
      assert digits[..k + 1][..k] == digits[..k];
      OverflowSticks(t, base, e, digits, k + 1);
    }
  }

  lemma FeedStep(t: IntType, base: Positive, e: Extremum, digits: seq<nat>, k: nat)
    requires k < |digits|
    ensures Feed(t, base, e, digits[..k + 1]) == Advance(t, base, e, Feed(t, base, e, digits[..k]), digits[k])
  {
    assert digits[..k + 1][..k] == digits[..k];
  }

  lemma TicksStep(n: nat)
    ensures Ticks(n + 1) == Tick(Ticks(n))
  {}

  /** The digits the loop takes. */
  function RunDigits(radix: Radix, w: string, i: nat, cap: nat): (r: seq<nat>)
    requires i <= |w|
  {
    DigitsAt(radix, w, i, RunLength(radix, w, i, cap))
  }

  /** Whether the run goes on after `k` digits, and with which digit. */
  lemma RunAt(radix: Radix, w: string, i: nat, cap: nat, k: nat)
    requires i <= |w| && k <= |RunDigits(radix, w, i, cap)|
    ensures i + k <= |w| && |RunDigits(radix, w, i, cap)| <= cap
    ensures i + k == |w| || k == cap ==> k == |RunDigits(radix, w, i, cap)|
    ensures i + k < |w| && k < cap && ToDigit(radix, w[i + k]).None? ==> k == |RunDigits(radix, w, i, cap)|
    ensures i + k < |w| && k < cap && ToDigit(radix, w[i + k]).Some? ==>
              k < |RunDigits(radix, w, i, cap)| && RunDigits(radix, w, i, cap)[k] == ToDigit(radix, w[i + k]).value
  {}

  /** The digit loop: feeds the run of digits, up to the first overflow. */
  method ReadDigits(from: Source, radix: Radix, acc: Accumulator, limits: DigitsLimit) returns (processed: Int8)
    requires from.Valid()
    requires acc.base == radix.Base() && acc.Model() == Feed(acc.t, acc.base, acc.extremum, [])
    modifies from, acc
    ensures from.Valid()
    ensures var digits := RunDigits(radix, from.data, old(from.index), limits.Cap());
            var s := Feed(acc.t, acc.base, acc.extremum, digits);
            && acc.overflowDetected == s.overflow
            && (!s.overflow ==> acc.Model() == s && processed == Ticks(|digits|) && from.index == old(from.index) + |digits|)
  {
    assert acc.Model() == State(0, false);
    hide *;
    ghost var start, w, cap := from.index, from.data, limits.Cap();
    ghost var digits := RunDigits(radix, w, start, cap);
    ghost var k: nat := 0;
    processed := 0;
    NoTicks();
    RunAt(radix, w, start, cap, 0);
    assert digits[..0] == [];
    var ch := from.GetCh();
    while ch.Some?
      invariant from.Valid() && k <= |digits| && k < cap && processed == Ticks(k)
      invariant start + k <= |w| && from.index == start + k + (if ch.Some? then 1 else 0)
      invariant ch == if start + k < |w| then Some(w[start + k]) else None
      invariant acc.Model() == Feed(acc.t, acc.base, acc.extremum, digits[..k]) && !acc.overflowDetected
      decreases |w| - k
    {
      RunAt(radix, w, start, cap, k);
      var d := ToDigit(radix, ch.value);
      if d.None? {
        from.PutBack();
        break;
      }
      FeedStep(acc.t, acc.base, acc.extremum, digits, k);
      acc.NextDigit(d.value);
      if acc.overflowDetected {
        OverflowSticks(acc.t, acc.base, acc.extremum, digits, k + 1);
        return;
      }
      TicksStep(k);
      processed, k := Tick(processed), k + 1;
      RunAt(radix, w, start, cap, k);
      if processed == limits.max {
        break;
      }
      ch := from.GetCh();
    }
    RunAt(radix, w, start, cap, k);
    assert digits[..|digits|] == digits;
  }

  lemma NoTicks()
    ensures Ticks(0) == 0
  {}

  method TryParseDigits(from: Source, radix: Radix, t: IntType, e: Extremum, limits: DigitsLimit)
    returns (r: Result<int, ParseError>)
    requires from.Valid()
    modifies from
    ensures from.Valid()
    ensures match ParseDigits(radix, t, e, limits, from.data, old(from.index))
            case Number(pos, value) => from.index == pos && r == Ok(value)
            case NoNumber(pos, error) => from.index == pos && r == Err(error)
  {
    var startedAt := from.index;
    var acc := new Accumulator(t, radix.Base(), e);
    var processed := ReadDigits(from, radix, acc, limits);
    if acc.overflowDetected {
      from.BackTo(startedAt);
      return Err(ParseError(startedAt, IllegalValueFound));
    }
    if processed < limits.min {
      r := Err(ParseError(from.index, PatternNotFound));
      from.BackTo(startedAt);
    } else {
      var value := acc.Value();
      r := Ok(value);
    }
  }

  method TryParseSigned(from: Source, t: IntType, limits: DigitsLimit) returns (r: Result<int, ParseError>)
    requires from.Valid()
    modifies from
    ensures from.Valid()
    ensures match ParseSigned(t, limits, from.data, old(from.index))
            case Number(pos, value) => from.index == pos && r == Ok(value)
            case NoNumber(pos, error) => from.index == pos && r == Err(error)
  {
    hide ParseDigits;
    var startedAt := from.index;
    var sign := from.GetCh();
    if sign.None? {
      r := Err(ParseError(from.index, PatternNotFound));
    } else if sign.value == '-' {
      r := TryParseDigits(from, Decimal, t, NegativeExtremum, limits);
      if r.Ok? {
        r := Ok(t.Wrap(-r.value));
      }
    } else if sign.value == '+' {
      r := TryParseDigits(from, Decimal, t, PositiveExtremum, limits);
    } else if '0' <= sign.value <= '9' {
      from.PutBack();
      r := TryParseDigits(from, Decimal, t, PositiveExtremum, limits);
    } else {
      r := Err(ParseError(from.index, PatternNotFound));
    }
    if r.Err? {
      from.BackTo(startedAt);
    }
  }

  /** What a number in the input is, said over its digits: `[i, j)` is the longest run of digits the
      limits allow, long enough, with no noticeable digit, and `v` is what it denotes modulo 2^bits. */
  ghost predicate Denotes(radix: Radix, t: IntType, e: Extremum, limits: DigitsLimit, w: string, i: nat, j: nat, v: int) {
    && i <= j <= |w| && j - i <= limits.Cap()
    && (forall k :: i <= k < j ==> ToDigit(radix, w[k]).Some?)
    && (j - i == limits.Cap() || j == |w| || ToDigit(radix, w[j]).None?)
    && limits.Enough(j - i)
    && var digits := DigitsAt(radix, w, i, j - i);
       !Noticeable(t, radix.Base(), e, digits) && v == t.Wrap(ValueOf(radix.Base(), digits))
  }

  /** The parser reads exactly the numbers that are there. */
  lemma ParsesExactlyWhatIsDenoted(radix: Radix, t: IntType, e: Extremum, limits: DigitsLimit, w: string, i: nat, j: nat, v: int)
    requires i <= |w|
    ensures ParseDigits(radix, t, e, limits, w, i) == Number(j, v) <==> Denotes(radix, t, e, limits, w, i, j, v)
  {
    hide Feed, ValueOf, Noticeable, RunLength, ToDigit, Ticks;
    var cap := limits.Cap();
    var n := RunLength(radix, w, i, cap);
    FlaggedExactlyWhenNoticeable(t, radix.Base(), e, DigitsAt(radix, w, i, n));
    if Denotes(radix, t, e, limits, w, i, j, v) {
      RunOfPrinted(radix, w, i, j - i, cap);
    }
  }

  ghost predicate NegationDenotes(t: IntType, limits: DigitsLimit, w: string, i: nat, j: nat, v: int) {
    exists u :: Denotes(Decimal, t, NegativeExtremum, limits, w, i, j, u) && v == t.Wrap(-u)
  }

  /** A signed number: a minus and a magnitude, a plus and a number, or a number. */
  ghost predicate SignedDenotes(t: IntType, limits: DigitsLimit, w: string, i: nat, j: nat, v: int) {
    && i < |w|
    && (|| (w[i] == '-' && NegationDenotes(t, limits, w, i + 1, j, v))
        || (w[i] == '+' && Denotes(Decimal, t, PositiveExtremum, limits, w, i + 1, j, v))
        || ('0' <= w[i] <= '9' && Denotes(Decimal, t, PositiveExtremum, limits, w, i, j, v)))
  }

  lemma ParsesExactlyNegated(t: IntType, limits: DigitsLimit, w: string, i: nat, j: nat, v: int)
    requires i <= |w|
    ensures var r := ParseDigits(Decimal, t, NegativeExtremum, limits, w, i);
            r.Number? && r.pos == j && t.Wrap(-r.value) == v <==> NegationDenotes(t, limits, w, i, j, v)
  {
    hide ParseDigits, Denotes;
    var r := ParseDigits(Decimal, t, NegativeExtremum, limits, w, i);
    if r.Number? {
      ParsesExactlyWhatIsDenoted(Decimal, t, NegativeExtremum, limits, w, i, r.pos, r.value);
    }
    if NegationDenotes(t, limits, w, i, j, v) {
      var u :| Denotes(Decimal, t, NegativeExtremum, limits, w, i, j, u) && v == t.Wrap(-u);
      ParsesExactlyWhatIsDenoted(Decimal, t, NegativeExtremum, limits, w, i, j, u);
    }
  }

  /** A signed number is refused as illegal only where its digits overflow noticeably; every other
      refusal is a pattern that was not found. */
  lemma SignedErrors(t: IntType, limits: DigitsLimit, w: string, i: nat)
    requires i <= |w| && ParseSigned(t, limits, w, i).NoNumber?
    ensures var error := ParseSigned(t, limits, w, i).error;
            && (error.reason == IllegalValueFound || error.reason == PatternNotFound)
            && (error.reason == IllegalValueFound <==>
                  && i < |w| && (w[i] == '-' || w[i] == '+' || '0' <= w[i] <= '9')
                  && var from := if w[i] == '-' || w[i] == '+' then i + 1 else i;
                     var e := if w[i] == '-' then NegativeExtremum else PositiveExtremum;
                     Noticeable(t, 10, e, RunDigits(Decimal, w, from, limits.Cap())))
  {
    hide Feed, RunLength, DigitsAt, Noticeable, ToDigit, Ticks;
    if i < |w| {
      FlaggedExactlyWhenNoticeable(t, 10, NegativeExtremum, RunDigits(Decimal, w, i + 1, limits.Cap()));
      FlaggedExactlyWhenNoticeable(t, 10, PositiveExtremum, RunDigits(Decimal, w, i + 1, limits.Cap()));
      FlaggedExactlyWhenNoticeable(t, 10, PositiveExtremum, RunDigits(Decimal, w, i, limits.Cap()));
    }
  }

  lemma ParsesExactlySigned(t: IntType, limits: DigitsLimit, w: string, i: nat, j: nat, v: int)
    requires i <= |w|
    ensures ParseSigned(t, limits, w, i) == Number(j, v) <==> SignedDenotes(t, limits, w, i, j, v)
  {
    hide ParseDigits, Denotes;
    if i < |w| {
      ParsesExactlyNegated(t, limits, w, i + 1, j, v);
      ParsesExactlyWhatIsDenoted(Decimal, t, PositiveExtremum, limits, w, i + 1, j, v);
      ParsesExactlyWhatIsDenoted(Decimal, t, PositiveExtremum, limits, w, i, j, v);
    }
  }

  /** What a parsed number is worth. With V the number denoted by the longest run of digits: a
      number is returned if and only if there are enough digits and none is noticeable, and then it
      is V modulo 2^bits; V within the limit is returned exactly; a value is refused as illegal only
      if V is beyond the limit; and for signed types, as long as V is below 2^bits, success means
      exactly that V is within it. */
  lemma ParsedNumberIsExact(radix: Radix, t: IntType, e: Extremum, limits: DigitsLimit, w: string, i: nat)
    requires i <= |w| && (e.NegativeExtremum? ==> t.signed)
    ensures var n := RunLength(radix, w, i, limits.Cap());
            var digits := DigitsAt(radix, w, i, n);
            var v := ValueOf(radix.Base(), digits);
            var r := ParseDigits(radix, t, e, limits, w, i);
            && (r.Number? <==> limits.Enough(n) && !Noticeable(t, radix.Base(), e, digits))
            && (r.Number? ==> r == Number(i + n, t.Wrap(v)))
            && (v <= Limit(t, e) && limits.Enough(n) ==> r == Number(i + n, t.FromStorage(v)))
            && (r.NoNumber? ==> r.error == if Noticeable(t, radix.Base(), e, digits) then ParseError(i, IllegalValueFound)
                                           else ParseError(i + n, PatternNotFound))
            && (r.NoNumber? && r.error.reason == IllegalValueFound ==> Limit(t, e) < v)
            && (t.signed && v < t.Modulus() ==> (r.Number? <==> limits.Enough(n) && v <= Limit(t, e)))
  {
    hide Feed, ValueOf, Noticeable, RunLength, ToDigit, Ticks;
    var digits := DigitsAt(radix, w, i, RunLength(radix, w, i, limits.Cap()));
    AccumulatorIsSound(t, radix.Base(), e, digits);
    FlaggedExactlyWhenNoticeable(t, radix.Base(), e, digits);
  }

  // ---------------------------------------------------------------------------------------------
  // Parsing undoes printing.

  /** All but the last digit, and the last digit. */
  function Quotient(radix: Radix, n: nat): (q: nat)
    ensures n == q * radix.Base() + LastDigit(radix, n) && (radix.Base() <= n ==> q < n)
  {
    if radix.Decimal? then n / 10 else n / 16
  }

  function LastDigit(radix: Radix, n: nat): (d: nat)
    ensures d < radix.Base()
  {
    if radix.Decimal? then n % 10 else n % 16
  }

  function DigitsOf(radix: Radix, n: nat): (r: seq<nat>)
    ensures 0 < |r| && forall k :: 0 <= k < |r| ==> r[k] < radix.Base()
  {
    if n < radix.Base() then [n] else DigitsOf(radix, Quotient(radix, n)) + [LastDigit(radix, n)]
  }

  lemma {:induction false} ValueOfDigits(radix: Radix, n: nat)
    ensures ValueOf(radix.Base(), DigitsOf(radix, n)) == n
  {
    hide Quotient, LastDigit;
    if n < radix.Base() {
      assert DigitsOf(radix, n)[..0] == [];
    } else {
      var q := Quotient(radix, n);
      var init := DigitsOf(radix, q);
      ValueOfDigits(radix, q);
      assert (init + [LastDigit(radix, n)])[..|init|] == init;
    }
  }

  function DigitChar(d: nat): char
    requires d < 16
  {
    if d < 10 then '0' + d as char else 'A' + (d - 10) as char
  }

  function Print(radix: Radix, n: nat): (r: string)
    ensures |r| == |DigitsOf(radix, n)| && forall k :: 0 <= k < |r| ==> r[k] == DigitChar(DigitsOf(radix, n)[k])
  {
    var ds := DigitsOf(radix, n);
    seq(|ds|, k requires 0 <= k < |ds| => DigitChar(ds[k]))
  }

  /** The ways to write one digit. */
  predicate SpellsDigit(c: char, d: nat)
    requires d < 16
  {
    c == DigitChar(d) || (10 <= d && c == 'a' + (d - 10) as char)
  }

  /** A character stands for a digit exactly if it is one of the ways to write it. */
  lemma DigitsAreThese(radix: Radix, c: char, d: nat)
    ensures ToDigit(radix, c) == Some(d) <==> d < radix.Base() && SpellsDigit(c, d)
  {}

  /** A spelling of a number: its digits, each letter in upper or lower case. */
  ghost predicate Spells(radix: Radix, text: string, n: nat) {
    var ds := DigitsOf(radix, n);
    |text| == |ds| && forall k :: 0 <= k < |text| ==> SpellsDigit(text[k], ds[k])
  }

  /** The digits end here: nothing follows, or no digit follows, or the limit is reached. */
  predicate Ends(radix: Radix, rest: string, length: nat, limits: DigitsLimit) {
    rest == [] || ToDigit(radix, rest[0]).None? || length == limits.Cap()
  }

  lemma {:induction false} RunOfPrinted(radix: Radix, w: string, i: nat, n: nat, cap: nat)
    requires i + n <= |w| && n <= cap && forall k :: i <= k < i + n ==> ToDigit(radix, w[k]).Some?
    requires n == cap || i + n == |w| || ToDigit(radix, w[i + n]).None?
    ensures RunLength(radix, w, i, cap) == n
    decreases n
  {
    if n > 0 {
      RunOfPrinted(radix, w, i + 1, n - 1, cap - 1);
    }
  }

  /** The run of digits at a number is its digits. */
  lemma SpelledRun(radix: Radix, before: string, text: string, n: nat, rest: string, cap: nat)
    requires Spells(radix, text, n)
    requires |text| <= cap && (rest == [] || ToDigit(radix, rest[0]).None? || |text| == cap)
    ensures var w := before + text + rest;
            && RunLength(radix, w, |before|, cap) == |text|
            && DigitsAt(radix, w, |before|, |text|) == DigitsOf(radix, n)
  {
    hide ToDigit, DigitsOf, SpellsDigit;
    var ds := DigitsOf(radix, n);
    var w := before + text + rest;
    var i := |before|;
    forall k | i <= k < i + |ds| ensures ToDigit(radix, w[k]) == Some(ds[k - i]) {
      DigitsAreThese(radix, text[k - i], ds[k - i]);
      assert w[k] == text[k - i];
    }
    RunOfPrinted(radix, w, i, |ds|, cap);
  }

  /** A number within the limit is read back, however its letters are written and wherever it
      stands, and exactly its digits are consumed. */
  lemma ParseUndoesSpelling(radix: Radix, t: IntType, e: Extremum, limits: DigitsLimit,
                            before: string, text: string, n: nat, rest: string)
    requires e.NegativeExtremum? ==> t.signed
    requires n <= Limit(t, e) && Spells(radix, text, n)
    requires |text| <= limits.Cap() && limits.Enough(|text|) && Ends(radix, rest, |text|, limits)
    ensures ParseDigits(radix, t, e, limits, before + text + rest, |before|) == Number(|before| + |text|, t.FromStorage(n))
  {
    hide ToDigit, Feed, ValueOf, DigitsOf, Spells, RunLength, DigitsAt;
    SpelledRun(radix, before, text, n, rest, limits.Cap());
    ValueOfDigits(radix, n);
    AccumulatorIsSound(t, radix.Base(), e, DigitsOf(radix, n));
  }

  lemma PrintSpells(radix: Radix, n: nat)
    ensures Spells(radix, Print(radix, n), n)
  {}

  /** In particular a printed number is read back. */
  lemma ParseUndoesPrint(radix: Radix, t: IntType, e: Extremum, limits: DigitsLimit, before: string, n: nat, rest: string)
    requires e.NegativeExtremum? ==> t.signed
    requires n <= Limit(t, e)
    requires |Print(radix, n)| <= limits.Cap() && limits.Enough(|Print(radix, n)|) && Ends(radix, rest, |Print(radix, n)|, limits)
    ensures ParseDigits(radix, t, e, limits, before + Print(radix, n) + rest, |before|)
            == Number(|before| + |Print(radix, n)|, t.FromStorage(n))
  {
    hide ParseDigits, Print, Spells, Ends;
    PrintSpells(radix, n);
    ParseUndoesSpelling(radix, t, e, limits, before, Print(radix, n), n, rest);
  }

  function PrintSigned(n: int): string {
    if n < 0 then "-" + Print(Decimal, -n) else Print(Decimal, n)
  }

  /** Every value of a signed type is read back, the smallest one through a wrapping negation. */
  lemma ParseUndoesPrintSigned(t: IntType, limits: DigitsLimit, n: int, rest: string)
    requires t.signed && 0 - Pow2(t.bits - 1) <= n < Pow2(t.bits - 1)
    requires var length := |Print(Decimal, if n < 0 then -n else n)|;
             length <= limits.Cap() && limits.Enough(length) && Ends(Decimal, rest, length, limits)
    ensures ParseSigned(t, limits, PrintSigned(n) + rest, 0) == Number(|PrintSigned(n)|, n)
  {
    hide ParseDigits, Print, DigitsOf, Pow2;
    var w := PrintSigned(n) + rest;
    if n < 0 {
      ParseUndoesPrint(Decimal, t, NegativeExtremum, limits, "-", -n, rest);
      assert w == "-" + Print(Decimal, -n) + rest;
      NegationWraps(t, n);
    } else {
      ParseUndoesPrint(Decimal, t, PositiveExtremum, limits, "", n, rest);
      assert w == "" + Print(Decimal, n) + rest;
      assert w[0] == Print(Decimal, n)[0] == DigitChar(DigitsOf(Decimal, n)[0]);
    }
  }

  lemma NegationWraps(t: IntType, n: int)
    requires t.signed && 0 - Pow2(t.bits - 1) <= n < 0
    ensures t.Wrap(-t.FromStorage(-n)) == n
  {
    var m := t.Modulus();
    if n + Pow2(t.bits - 1) == 0 {
      assert t.FromStorage(-n) == n;
      ModUnique(-n, m, -n, 0);
    } else {
      ModUnique(n, m, n + m, -1);
    }
  }
}
