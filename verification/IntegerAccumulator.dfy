/**
  Accumulating an integer digit by digit with a check for overflow
  (restinio/impl/overflow_controlled_integer_accumulator.hpp), for every width and base.
 */
module IntegerAccumulator {
  type Positive = n: nat | 0 < n witness 1

  function Pow2(n: nat): Positive { if n == 0 then 1 else 2 * Pow2(n - 1) }

  datatype IntType = IntType(bits: Positive, signed: bool)
  {
    /** The number of values of the unsigned storage type. */
    function Modulus(): Positive { Pow2(bits) }

    function Max(): nat { if signed then Pow2(bits - 1) - 1 else Pow2(bits) - 1 }

    /** `static_cast<T>` from the storage type. */
    function FromStorage(u: int): int { if signed && Pow2(bits - 1) <= u then u - Pow2(bits) else u }

    /** Wrapping conversion of an arbitrary integer. */
    function Wrap(n: int): int { FromStorage(n % Modulus()) }
  }

  datatype Extremum = PositiveExtremum | NegativeExtremum

  /** The largest magnitude that may be accumulated. */
  function Limit(t: IntType, e: Extremum): nat {
    match e
    case PositiveExtremum => t.Max()
    case NegativeExtremum => Pow2(t.bits - 1)
  }

  datatype State = State(current: nat, overflow: bool)

  function Advance(t: IntType, base: Positive, e: Extremum, s: State, digit: nat): State {
    var updated := (s.current * base + digit) % t.Modulus();
    if updated < s.current || (t.signed && updated > Limit(t, e)) then s.(overflow := true)
    else s.(current := updated)
  }

  /** The accumulator after a sequence of digits. */
  function Feed(t: IntType, base: Positive, e: Extremum, digits: seq<nat>): State {
    if digits == [] then State(0, false)
    else Advance(t, base, e, Feed(t, base, e, digits[..|digits| - 1]), digits[|digits| - 1])
  }

  /** The number the digits denote. */
  function ValueOf(base: Positive, digits: seq<nat>): nat {
    if digits == [] then 0
    else ValueOf(base, digits[..|digits| - 1]) * base + digits[|digits| - 1]
  }

  class Accumulator {
    const t: IntType
    const base: Positive
    const extremum: Extremum
    var current: nat
    var overflowDetected: bool

    ghost function Model(): State
      reads this
    {
      State(current, overflowDetected)
    }

    constructor (t: IntType, base: Positive, extremum: Extremum)
      ensures this.t == t && this.base == base && this.extremum == extremum
      ensures Model() == Feed(t, base, extremum, [])
    {
      this.t, this.base, this.extremum := t, base, extremum;
      current, overflowDetected := 0, false;
    }

    method NextDigit(digit: nat)
      modifies this
      ensures Model() == Advance(t, base, extremum, old(Model()), digit)
    {
      var updated := (current * base + digit) % t.Modulus();
      if updated < current || (t.signed && updated > Limit(t, extremum)) {
        overflowDetected := true;
      } else {
        current := updated;
      }
    }

    method Value() returns (v: int)
      ensures v == t.FromStorage(current)
    {
      v := t.FromStorage(current);
    }
  }

  // ---------------------------------------------------------------------------------------------

  lemma {:induction false} MulGap(a: int, b: int, m: nat)
    ensures a < b ==> a * m + m <= b * m
    decreases b - a
  {
    if a < b {
      assert b * m == (b - 1) * m + m;
      MulGap(a, b - 1, m);
    }
  }

  lemma ModUnique(x: int, m: Positive, r: nat, k: int)
    requires x == k * m + r && r < m
    ensures x % m == r
  {
    var q := x / m;
    assert x == q * m + x % m;
    MulGap(k, q, m);
    MulGap(q, k, m);
  }

  /** One step of the accumulation commutes with reduction. */
  lemma ModStep(v: nat, base: nat, digit: nat, m: Positive)
    ensures (v % m * base + digit) % m == (v * base + digit) % m
  {
    var q := v / m;
    var w := v % m * base + digit;
    calc {
      v * base + digit;
      { assert v == q * m + v % m; }
      (q * m + v % m) * base + digit;
      (q * base) * m + w;
      { assert w == w / m * m + w % m; }
      (q * base + w / m) * m + w % m;
    }
    ModUnique(v * base + digit, m, w % m, q * base + w / m);
  }

  lemma MulGrows(v: nat, base: Positive)
    ensures v <= v * base
  {}

  lemma LimitBelowModulus(t: IntType, e: Extremum)
    requires e.NegativeExtremum? ==> t.signed
    ensures Limit(t, e) < t.Modulus()
  {}

  /** Until it is flagged the accumulator is the true value modulo 2^bits, and within the limit; a
      flag means that the true value is beyond the limit; a true value within the limit is
      accumulated exactly. For signed types the flag is exact as long as the true value is below
      2^bits. */
  lemma {:induction false} AccumulatorIsSound(t: IntType, base: Positive, e: Extremum, digits: seq<nat>)
    requires e.NegativeExtremum? ==> t.signed
    ensures var s := Feed(t, base, e, digits);
            var v := ValueOf(base, digits);
            && s.current < t.Modulus() && (t.signed ==> s.current <= Limit(t, e))
            && (!s.overflow ==> s.current == v % t.Modulus())
            && (s.overflow ==> Limit(t, e) < v)
            && (v <= Limit(t, e) ==> s == State(v, false))
            && (t.signed && v < t.Modulus() ==> (s.overflow <==> Limit(t, e) < v))
  {
    var m := t.Modulus();
    LimitBelowModulus(t, e);
    if digits != [] {
      var init := digits[..|digits| - 1];
      var d := digits[|digits| - 1];
      AccumulatorIsSound(t, base, e, init);
      var s := Feed(t, base, e, init);
      var u := ValueOf(base, init);
      var v := ValueOf(base, digits);
      MulGrows(u, base);
      ModStep(u, base, d, m);
      if v < m {
        ModUnique(v, m, v, 0);
        ModUnique(u, m, u, 0);
      }
    } else {
      ModUnique(0, m, 0, 0);
    }
  }

  /** Taking the first `k + 1` digits instead of `k` shows in the residues modulo 2^bits. */
  predicate Trips(t: IntType, base: Positive, e: Extremum, digits: seq<nat>, k: nat)
    requires k < |digits|
  {
    var before := ValueOf(base, digits[..k]) % t.Modulus();
    var after := ValueOf(base, digits[..k + 1]) % t.Modulus();
    after < before || (t.signed && Limit(t, e) < after)
  }

  /** Some digit makes the residue fall, or (signed types) exceed the limit. */
  predicate Noticeable(t: IntType, base: Positive, e: Extremum, digits: seq<nat>) {
    exists k :: 0 <= k < |digits| && Trips(t, base, e, digits, k)
  }

  lemma NoticeableGrows(t: IntType, base: Positive, e: Extremum, digits: seq<nat>)
    requires digits != []
    ensures var n := |digits| - 1;
            Noticeable(t, base, e, digits) <==> Noticeable(t, base, e, digits[..n]) || Trips(t, base, e, digits, n)
  {
    var n := |digits| - 1;
    forall k | 0 <= k < n ensures Trips(t, base, e, digits, k) == Trips(t, base, e, digits[..n], k) {
      assert digits[..n][..k] == digits[..k] && digits[..n][..k + 1] == digits[..k + 1];
    }
    if Noticeable(t, base, e, digits[..n]) {
      var k :| 0 <= k < n && Trips(t, base, e, digits[..n], k);
      assert Trips(t, base, e, digits, k);
    }
  }

  /** The flag is raised if and only if some digit is noticeable in this sense, for every type, base
      and digits; otherwise the true value modulo 2^bits is accumulated. */
  lemma {:induction false} FlaggedExactlyWhenNoticeable(t: IntType, base: Positive, e: Extremum, digits: seq<nat>)
    ensures var s := Feed(t, base, e, digits);
            && (s.overflow <==> Noticeable(t, base, e, digits))
            && (!s.overflow ==> s.current == ValueOf(base, digits) % t.Modulus())
  {
    if digits == [] {
      ModUnique(0, t.Modulus(), 0, 0);
    } else {
      hide Noticeable;
      var n := |digits| - 1;
      FlaggedExactlyWhenNoticeable(t, base, e, digits[..n]);
      NoticeableGrows(t, base, e, digits);
      ModStep(ValueOf(base, digits[..n]), base, digits[n], t.Modulus());
      assert digits[..n + 1] == digits;
    }
  }

  /** The flag tells the truth about a number if and only if the number is within the limit or some
      digit is noticeable. */
  lemma DetectionIsExact(t: IntType, base: Positive, e: Extremum, digits: seq<nat>)
    requires e.NegativeExtremum? ==> t.signed
    ensures var v := ValueOf(base, digits);
            (Feed(t, base, e, digits).overflow <==> Limit(t, e) < v)
            <==> v <= Limit(t, e) || Noticeable(t, base, e, digits)
  {
    AccumulatorIsSound(t, base, e, digits);
    FlaggedExactlyWhenNoticeable(t, base, e, digits);
  }

  /** Unsigned types miss an overflow just past 2^bits: the digits of 300 in 8 bits. */
  lemma UnsignedOverflowCanGoUnnoticed()
    ensures var digits := [3, 0, 0];
            var uint8 := IntType(8, false);
            && ValueOf(10, digits) == 300 > uint8.Max()
            && Feed(uint8, 10, PositiveExtremum, digits) == State(44, false)
            && !Noticeable(uint8, 10, PositiveExtremum, digits)
  {
    var uint8 := IntType(8, false);
    assert uint8.Modulus() == 256;
    assert [3, 0, 0][..2] == [3, 0] && [3, 0][..1] == [3] && [3][..0] == [];
    assert ValueOf(10, [3]) == 3 && ValueOf(10, [3, 0]) == 30;
    assert Feed(uint8, 10, PositiveExtremum, [3]) == State(3, false);
    assert Feed(uint8, 10, PositiveExtremum, [3, 0]) == State(30, false);
    FlaggedExactlyWhenNoticeable(uint8, 10, PositiveExtremum, [3, 0, 0]);
  }

  /** Beyond 2^bits an overflow can go unnoticed: the digits of 15000000000 in 32 bits. */
  lemma OverflowCanGoUnnoticed()
    ensures var digits := [1, 5, 0, 0, 0, 0, 0, 0, 0, 0, 0];
            var int32 := IntType(32, true);
            && ValueOf(10, digits) == 15000000000 > int32.Max()
            && Feed(int32, 10, PositiveExtremum, digits) == State(2115098112, false)
  {
    var int32 := IntType(32, true);
    var ten := [1, 5, 0, 0, 0, 0, 0, 0, 0, 0];
    var digits := ten + [0];
    assert digits == [1, 5, 0, 0, 0, 0, 0, 0, 0, 0, 0];
    assert digits[..10] == ten;
    Pow32();
    FifteenHundredMillion(int32, ten);
  }

  lemma Pow32()
    ensures Pow2(32) == 0x1_0000_0000 && Pow2(31) == 0x8000_0000
  {
    assert Pow2(8) == 256;
    assert Pow2(16) == 65536 by { assert Pow2(12) == 4096; }
    assert Pow2(20) == 1048576;
    assert Pow2(24) == 16777216;
    assert Pow2(28) == 268435456;
  }

  lemma FifteenHundredMillion(t: IntType, ten: seq<nat>)
    requires t == IntType(32, true) && ten == [1, 5, 0, 0, 0, 0, 0, 0, 0, 0]
    ensures ValueOf(10, ten) == 1500000000 && Feed(t, 10, PositiveExtremum, ten) == State(1500000000, false)
  {
    Pow32();
    assert ten[..9] == [1, 5, 0, 0, 0, 0, 0, 0, 0];
    assert ten[..9][..8] == [1, 5, 0, 0, 0, 0, 0, 0];
    assert ten[..9][..8][..7] == [1, 5, 0, 0, 0, 0, 0];
    assert ten[..9][..8][..7][..6] == [1, 5, 0, 0, 0, 0];
    assert [1, 5, 0, 0, 0, 0][..5] == [1, 5, 0, 0, 0];
    assert [1, 5, 0, 0, 0][..4] == [1, 5, 0, 0];
    assert [1, 5, 0, 0][..3] == [1, 5, 0];
    assert [1, 5, 0][..2] == [1, 5];
    assert [1, 5][..1] == [1];
    assert ValueOf(10, [1]) == 1 by { assert [1][..0] == []; }
    assert ValueOf(10, [1, 5]) == 15;
    assert ValueOf(10, [1, 5, 0]) == 150;
    assert ValueOf(10, [1, 5, 0, 0]) == 1500;
    assert ValueOf(10, [1, 5, 0, 0, 0]) == 15000;
    assert ValueOf(10, [1, 5, 0, 0, 0, 0]) == 150000;
    assert ValueOf(10, [1, 5, 0, 0, 0, 0, 0]) == 1500000;
    assert ValueOf(10, [1, 5, 0, 0, 0, 0, 0, 0]) == 15000000;
    assert ValueOf(10, [1, 5, 0, 0, 0, 0, 0, 0, 0]) == 150000000;
    AccumulatorIsSound(t, 10, PositiveExtremum, ten);
  }
}
