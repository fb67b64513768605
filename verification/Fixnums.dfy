/** Integers that fit in a tagged 64-bit word, and the operations that leave the word only when the
    result does not. */
module Fixnums {
  import opened Numbers

  const WORD: int := 0x1_0000_0000_0000_0000
  const INTPTR_MAX: int := 0x7FFF_FFFF_FFFF_FFFF
  const BITS: nat := 63
  const WIDTH: nat := 62
  const HIGH: int := 0x3FFF_FFFF_FFFF_FFFF
  const LOW: int := -0x4000_0000_0000_0000
  const SQRT_LONG_MAX: int := 0x8000_0000

  /** Two's complement in a word. */
  function Wrapped(x: int): (r: int)
    ensures InWord(r) && (InWord(x) ==> r == x)
  {
    var y := x % WORD;
    if y > INTPTR_MAX then y - WORD else y
  }

  predicate InWord(x: int) {
    -INTPTR_MAX - 1 <= x <= INTPTR_MAX
  }

  predicate Fits(value: int) {
    LOW <= value <= HIGH
  }

  /** A value_t that is a number: a word with its lowest bit set, or an object. */
  datatype Value = Tagged(word: int) | Bignum(value: int)

  predicate IsValue(v: Value) {
    v.Tagged? ==> InWord(v.word) && v.word % 2 == 1
  }

  /** The integer a value stands for. */
  function IntOf(v: Value): int {
    match v
    case Tagged(word) => word / 2
    case Bignum(value) => value
  }

  /** from_int: (value << 1) | 1 */
  function FromInt(value: int): (v: Value)
    requires Fits(value)
    ensures IsValue(v) && v.Tagged? && IntOf(v) == value
  {
    Tagged(Wrapped(2 * value) + 1)
  }

  /** to_int: word >> 1 */
  function ToInt(v: Value): (value: int)
    requires IsValue(v) && v.Tagged?
    ensures Fits(value) && FromInt(value) == v
  {
    v.word / 2
  }

  function Convert(value: int): (v: Value)
    ensures IsValue(v) && IntOf(v) == value && (v.Tagged? <==> Fits(value))
    ensures v == if -0x4000_0000_0000_0000 <= value <= 0x3FFF_FFFF_FFFF_FFFF then Tagged(2 * value + 1)
      else Bignum(value)
  {
    if Fits(value) then FromInt(value) else Bignum(value)
  }

  /** Every integer is one value only, provided big ones are not kept in words' range. */
  predicate Normal(v: Value) {
    IsValue(v) && (v.Bignum? ==> !Fits(v.value))
  }

  lemma OneRepresentation(v: Value, w: Value)
    requires Normal(v) && Normal(w) && IntOf(v) == IntOf(w)
    ensures v == w
  {
    if v.Tagged? {
      assert ToInt(v) == IntOf(v);
    }
    if w.Tagged? {
      assert ToInt(w) == IntOf(w);
    }
  }

  function Add(obj: int, right: int): (v: Value)
    requires Fits(obj) && Fits(right)
    ensures Normal(v) && IntOf(v) == obj + right
  {
    Convert(Wrapped(obj + right))
  }

  function Sub(obj: int, right: int): (v: Value)
    requires Fits(obj) && Fits(right)
    ensures Normal(v) && IntOf(v) == obj - right
  {
    Convert(Wrapped(obj - right))
  }

  predicate FitSqrt(value: int) {
    -SQRT_LONG_MAX < value < SQRT_LONG_MAX
  }

  lemma SmallProduct(a: int, b: int)
    requires FitSqrt(a) && FitSqrt(b)
    ensures Fits(a * b)
  {
    ProductBound(a, b, SQRT_LONG_MAX - 1);
  }

  lemma ProductBound(a: int, b: int, m: int)
    requires -m <= a <= m && -m <= b <= m
    ensures -(m * m) <= a * b <= m * m
  {
    assert (m - a) * (m + b) >= 0 && (m + a) * (m - b) >= 0;
    assert (m - a) * (m + b) == m * m + m * b - a * m - a * b;
    assert (m + a) * (m - b) == m * m - m * b + a * m - a * b;
    assert (m - a) * (m - b) >= 0 && (m + a) * (m + b) >= 0;
    assert (m - a) * (m - b) == m * m - m * b - a * m + a * b;
    assert (m + a) * (m + b) == m * m + m * b + a * m + a * b;
  }

  /** The product of two small factors needs no big numbers; any other is taken through them. */
  function Mul(obj: int, right: int): (v: Value)
    requires Fits(obj) && Fits(right)
    ensures Normal(v) && IntOf(v) == obj * right
  {
    if FitSqrt(obj) && FitSqrt(right) then
      SmallProduct(obj, right);
      FromInt(Wrapped(obj * right))
    else Convert(obj * right)
  }

  // ----- shifts ----------------------------------------------------------------------------------

  /** What a shift stands for: a negative one goes the other way. */
  function Shifted(obj: int, shift: int): int {
    if shift >= 0 then obj * Pow2(shift) else obj / Pow2(-shift)
  }

  function Abs(x: int): nat {
    if x < 0 then -x else x
  }

  /** obj < 0 ? -obj : obj, and abs >> (width - shift) */
  predicate LeavesWord(obj: int, shift: nat) {
    shift >= WIDTH || Abs(obj) / Pow2(WIDTH - shift) > 0
  }

  lemma LeftShiftFits(obj: int, shift: nat)
    requires Fits(obj)
    ensures !LeavesWord(obj, shift) <==> shift < WIDTH && Abs(obj) < Pow2(WIDTH - shift)
    ensures !LeavesWord(obj, shift) ==> Fits(obj * Pow2(shift)) && obj * Pow2(shift) != LOW
    ensures LeavesWord(obj, shift) && Fits(obj * Pow2(shift)) ==> obj * Pow2(shift) in {LOW, 0}
  {
    hide Pow2;
    Pow2Width();
    if shift < WIDTH {
      Pow2Add(shift, WIDTH - shift);
      var p, q := Pow2(shift), Pow2(WIDTH - shift);
      assert p * q == HIGH + 1;
      BelowQuotient(Abs(obj), q);
      Scaled(Abs(obj), p, q);
      assert Abs(obj) * p == Abs(obj * p) by { if obj < 0 { assert -obj * p == -(obj * p); } }
    } else {
      Pow2Grows(WIDTH, shift);
      if obj != 0 {
        Far(obj, Pow2(shift), HIGH + 1);
      }
    }
  }

  lemma Pow2Width()
    ensures Pow2(62) == HIGH + 1
  {
    assert Pow2(10) == 1024;
    Pow2Add(10, 10);
    Pow2Add(20, 20);
    Pow2Add(40, 20);
    Pow2Add(60, 2);
    assert Pow2(2) == 4;
  }

  lemma BelowQuotient(m: nat, q: nat)
    requires q > 0
    ensures m / q > 0 <==> m >= q
  {
    if m < q {
      SmallQuotient(m, q);
    } else {
      assert m == q * (m / q) + m % q;
    }
  }

  lemma Scaled(m: nat, p: nat, q: nat)
    requires p > 0 && q > 0
    ensures m < q ==> m * p < p * q
    ensures m >= q ==> m * p >= p * q
  {
    if m < q {
      assert p * (q - m) > 0;
    } else {
      assert p * (m - q) >= 0;
    }
  }

  lemma Far(obj: int, p: nat, limit: int)
    requires obj != 0 && p >= limit > 0
    ensures obj > 0 ==> obj * p >= limit
    ensures obj < 0 ==> obj * p <= -limit
  {
    if obj > 0 {
      assert (obj - 1) * p >= 0;
    } else {
      assert (-obj - 1) * p >= 0;
    }
  }

  /** A fixnum, or the negation of one. */
  predicate ShiftArgument(shift: int) {
    LOW <= shift <= -LOW
  }

  /** lshift */
  function LeftShift(obj: int, shift: int): (r: Result<Value>)
    requires Fits(obj) && ShiftArgument(shift)
    ensures r.Ok? ==>
      IsValue(r.value) && IntOf(r.value) == Shifted(obj, shift) && (r.value.Tagged? ==> Fits(Shifted(obj, shift)))
    ensures r.ShiftTooHigh? <==> shift > 0x7FFF_FFFF
    decreases shift < 0
  {
    if shift < 0 then RightShift(obj, -shift)
    else
      LeftShiftFits(obj, shift);
      if LeavesWord(obj, shift) then
        if shift > INT_MAX then ShiftTooHigh else Ok(Bignum(obj * Pow2(shift)))
      else Ok(FromInt(Wrapped(obj * Pow2(shift))))
  }

  /** rshift */
  function RightShift(obj: int, shift: int): (r: Result<Value>)
    requires Fits(obj) && ShiftArgument(shift)
    ensures r.Ok? ==>
      IsValue(r.value) && IntOf(r.value) == Shifted(obj, -shift) && (r.value.Tagged? ==> Fits(Shifted(obj, -shift)))
    ensures r.ShiftTooHigh? <==> shift < -0x7FFF_FFFF
    decreases shift < 0
  {
    if shift < 0 then LeftShift(obj, -shift)
    else
      RightShiftFits(obj, shift);
      if shift >= BITS then Ok(FromInt(if obj >= 0 then 0 else -1)) else Ok(FromInt(obj / Pow2(shift)))
  }

  lemma RightShiftFits(obj: int, shift: nat)
    requires Fits(obj)
    ensures Fits(obj / Pow2(shift))
    ensures shift >= BITS ==> obj / Pow2(shift) == if obj >= 0 then 0 else -1
  {
    hide Pow2;
    QuotientBetween(obj, Pow2(shift));
    if shift >= BITS {
      Pow2Width();
      Pow2Grows(WIDTH, shift);
      Pow2Add(WIDTH, 1);
      assert Pow2(1) == 2 by { Pow2One(); }
      Pow2Grows(BITS, shift);
      if obj >= 0 {
        SmallQuotient(obj, Pow2(shift));
      } else {
        SmallQuotient(-obj, Pow2(shift));
      }
    }
  }

  lemma Pow2One()
    ensures Pow2(1) == 2
  {
    assert Pow2(0) == 1;
  }

  lemma TimesAtLeast(n: int, q: int)
    requires n >= 1 && q >= 0
    ensures n * q >= q
  {
    assert n * q == q + (n - 1) * q;
    assert (n - 1) * q >= 0;
  }

  lemma QuotientOf(x: int, n: int, q: int, r: int)
    requires n >= 1 && x == n * q + r && 0 <= r < n
    ensures x >= 0 ==> 0 <= q <= x
    ensures x < 0 ==> x <= q <= -1
  {
    if q >= 0 {
      TimesAtLeast(n, q);
    } else {
      TimesAtLeast(n, -q - 1);
      assert n * q == -(n * (-q - 1)) - n;
    }
  }

  lemma QuotientBetween(x: int, n: int)
    requires n > 0
    ensures x >= 0 ==> 0 <= x / n <= x
    ensures x < 0 ==> x <= x / n <= -1
  {
    assert x == n * (x / n) + x % n;
    QuotientOf(x, n, x / n, x % n);
  }

  /** A bit more to the left doubles the result, and a bit more to the right halves it, downwards. */
  lemma ShiftsByOneMore(obj: int, n: nat)
    requires Fits(obj) && n < INT_MAX
    ensures IntOf(LeftShift(obj, 0).value) == IntOf(RightShift(obj, 0).value) == obj
    ensures LeftShift(obj, n).Ok? && LeftShift(obj, n + 1).Ok? && RightShift(obj, n).Ok? && RightShift(obj, n + 1).Ok?
    ensures IntOf(LeftShift(obj, n + 1).value) == 2 * IntOf(LeftShift(obj, n).value)
    ensures IntOf(RightShift(obj, n + 1).value) == IntOf(RightShift(obj, n).value) / 2
  {
    ShiftHalves(obj, n);
    assert Pow2(n + 1) == 2 * Pow2(n) && Pow2(0) == 1;
    assert obj * (2 * Pow2(n)) == 2 * (obj * Pow2(n));
  }

  /** A left shift gives the only representation of its result if and only if it does not shift
      nothing out of the word, or exactly to the lowest fixnum: these two come out as big numbers
      although they fit. */
  lemma LeftShiftIsNormal(obj: int, shift: nat)
    requires Fits(obj) && shift <= INT_MAX
    ensures Normal(LeftShift(obj, shift).value)
      <==> !((obj == 0 && shift >= WIDTH) || (shift <= WIDTH && -obj == Pow2(WIDTH - shift)))
  {
    hide Pow2;
    LeftShiftFits(obj, shift);
    Pow2Width();
    var p := Pow2(shift);
    if shift <= WIDTH {
      Pow2Add(shift, WIDTH - shift);
      ExactlyLow(obj, p, Pow2(WIDTH - shift));
    } else {
      Pow2Grows(WIDTH + 1, shift);
      Pow2Add(WIDTH, 1);
      Pow2One();
      if obj != 0 {
        Far(obj, p, 2 * (HIGH + 1));
      }
    }
  }

  lemma ExactlyLow(obj: int, p: int, q: int)
    requires p > 0 && p * q == HIGH + 1
    ensures obj * p == LOW <==> obj == -q
    ensures obj * p == 0 <==> obj == 0
  {
    assert obj * p == LOW ==> p * (obj + q) == 0;
    assert obj == -q ==> obj * p == -(p * q);
  }

  lemma RightShiftIsNormal(obj: int, shift: nat)
    requires Fits(obj) && ShiftArgument(shift)
    ensures RightShift(obj, shift).Ok? && Normal(RightShift(obj, shift).value)
  {
  }
}
