/** Shifts of sign-magnitude numbers, and arithmetic that stays in one machine word where it can. */
module Numbers {

  datatype Result<T> = Ok(value: T) | ShiftTooHigh

  const INT_MAX: int := 0x7FFF_FFFF

  function Pow2(n: nat): (r: nat)
    ensures r > 0
  {
    if n == 0 then 1 else 2 * Pow2(n - 1)
  }

  lemma Doubled(x: nat, y: nat)
    ensures 2 * (x * y) == (2 * x) * y
  {
  }

  lemma {:induction false} Pow2Add(a: nat, b: nat)
    ensures Pow2(a + b) == Pow2(a) * Pow2(b)
  {
    if a > 0 {
      Pow2Add(a - 1, b);
      Doubled(Pow2(a - 1), Pow2(b));
      assert Pow2(a) == 2 * Pow2(a - 1) && Pow2(a + b) == 2 * Pow2(a - 1 + b);
    }
  }

  lemma {:induction false} Pow2Grows(a: nat, b: nat)
    requires a <= b
    ensures Pow2(a) <= Pow2(b)
    decreases b - a
  {
    if a < b {
      Pow2Grows(a + 1, b);
    }
  }

  // ----- sign and digits -------------------------------------------------------------------------

  /** mp_int: digits in base 2^k, the least significant one first. */
  datatype Number = Number(negative: bool, digits: seq<nat>)

  predicate IsNumber(num: Number, k: nat) {
    && k > 0
    && (forall i {:trigger num.digits[i]} :: 0 <= i < |num.digits| ==> num.digits[i] < Pow2(k))
    && (num.negative ==> Magnitude(num.digits, k) > 0)
  }

  function Magnitude(digits: seq<nat>, k: nat): nat {
    if |digits| == 0 then 0 else digits[0] + Pow2(k) * Magnitude(digits[1..], k)
  }

  function IntOf(num: Number, k: nat): int {
    var m: int := Magnitude(num.digits, k);
    if num.negative then -m else m
  }

  lemma DivModUnique(m: int, n: int, q: int, r: int)
    requires m == n * q + r && 0 <= r < n
    ensures m / n == q && m % n == r
  {
    assert m == n * (m / n) + m % n;
    assert n * (q - m / n) == m % n - r;
    SmallMultiple(n, q - m / n);
  }

  lemma SmallMultiple(n: int, x: int)
    requires -n < n * x < n
    ensures x == 0
  {
    if x >= 1 {
      Product(n, x);
    } else if x <= -1 {
      Product(n, -x);
    }
  }

  lemma Product(a: int, b: int)
    requires a > 0 && b >= 1
    ensures a * b >= a
  {
    assert a * b == a + a * (b - 1);
  }

  function Digits(m: nat, k: nat): (r: seq<nat>)
    requires k > 0
    decreases m
  {
    if m == 0 then [] else
      var base := Pow2(k);
      Halves(m, k);
      [m % base] + Digits(m / base, k)
  }

  lemma Halves(m: nat, k: nat)
    requires k > 0 && m > 0
    ensures m / Pow2(k) < m
  {
    Pow2Grows(1, k);
    assert Pow2(1) == 2 * Pow2(0) == 2;
    var q := m / Pow2(k);
    assert m == Pow2(k) * q + m % Pow2(k);
    if q > 0 {
      assert Pow2(k) * q >= 2 * q by { assert (Pow2(k) - 2) * q >= 0; }
    }
  }

  lemma DigitsNext(m: nat, k: nat)
    requires k > 0 && m > 0
    ensures Digits(m, k) == [m % Pow2(k)] + Digits(m / Pow2(k), k)
    ensures m % Pow2(k) < Pow2(k) && m == m % Pow2(k) + Pow2(k) * (m / Pow2(k))
  {
    hide Pow2;
    Divided(m, Pow2(k));
  }

  lemma Divided(m: nat, p: nat)
    requires p > 0
    ensures m % p < p && m == m % p + p * (m / p)
  {
  }

  lemma {:induction false} DigitsAre(m: nat, k: nat)
    requires k > 0
    ensures Magnitude(Digits(m, k), k) == m && forall i {:trigger Digits(m, k)[i]} ::
      0 <= i < |Digits(m, k)| ==> Digits(m, k)[i] < Pow2(k)
    decreases m
  {
    if m > 0 {
      hide Pow2, Magnitude, Digits;
      Halves(m, k);
      DigitsNext(m, k);
      DigitsAre(m / Pow2(k), k);
      MagnitudeNext(m % Pow2(k), Digits(m / Pow2(k), k), k);
    } else {
      assert |Digits(m, k)| == 0;
    }
  }

  lemma MagnitudeNext(d: nat, rest: seq<nat>, k: nat)
    ensures Magnitude([d] + rest, k) == d + Pow2(k) * Magnitude(rest, k)
  {
    assert ([d] + rest)[1..] == rest;
  }

  /** Number(intptr_t) and what libtommath computes: the digits of an integer. */
  function FromInt(v: int, k: nat): (r: Number)
    requires k > 0
    ensures IsNumber(r, k) && IntOf(r, k) == v
  {
    DigitsAre(if v < 0 then -v else v, k);
    if v < 0 then Number(true, Digits(-v, k)) else Number(false, Digits(v, k))
  }

  /** mp_div_2d without a remainder truncates the magnitude. */
  function Div2d(num: Number, shift: nat, k: nat): (r: Number)
    requires IsNumber(num, k)
    ensures IsNumber(r, k)
  {
    var m := Magnitude(num.digits, k) / Pow2(shift);
    FromInt(if num.negative then -m else m, k)
  }

  lemma {:induction false} MagnitudeSplits(digits: seq<nat>, k: nat, f: nat)
    requires k > 0 && f <= |digits| && forall i {:trigger digits[i]} :: 0 <= i < |digits| ==> digits[i] < Pow2(k)
    ensures Magnitude(digits, k) == Magnitude(digits[..f], k) + Pow2(k * f) * Magnitude(digits[f..], k)
    ensures Magnitude(digits[..f], k) < Pow2(k * f)
    ensures Magnitude(digits[..f], k) == 0 <==> forall i {:trigger digits[i]} :: 0 <= i < f ==> digits[i] == 0
    decreases f
  {
    if f == 0 {
      assert digits[..0] == [] && digits[0..] == digits && k * 0 == 0;
    } else {
      var rest := digits[1..];
      MagnitudeSplits(rest, k, f - 1);
      assert digits[..f][1..] == rest[..f - 1] && digits[..f][0] == digits[0] && digits[f..] == rest[f - 1..];
      assert k * f == k + k * (f - 1);
      Pow2Add(k, k * (f - 1));
      MagnitudeStep(digits[0], Pow2(k), Magnitude(rest[..f - 1], k), Pow2(k * (f - 1)), Magnitude(digits[f..], k));
      assert (forall i {:trigger digits[i]} ::
              0 <= i < f ==> digits[i] == 0) <==> digits[0] == 0 && forall i {:trigger rest[i]} ::
                0 <= i < f - 1 ==> rest[i] == 0 by {
        assert forall i {:trigger rest[i]} :: 0 <= i < f - 1 ==> rest[i] == digits[i + 1];
        assert forall i {:trigger digits[i]} :: 1 <= i < f ==> digits[i] == rest[i - 1];
      }
    }
  }

  lemma MagnitudeStep(d: nat, b: nat, low: nat, p: nat, high: nat)
    requires d < b && low < p
    ensures d + b * (low + p * high) == (d + b * low) + (b * p) * high
    ensures d + b * low < b * p
    ensures d + b * low == 0 <==> d == 0 && low == 0
  {
    assert b * (low + p * high) == b * low + b * (p * high);
    assert b * (p * high) == (b * p) * high;
    MultipleOf(b, p - low - 1);
    assert b * (p - low - 1) == b * p - b * low - b;
    MultipleOf(b, low);
  }

  lemma MultipleOf(b: nat, x: nat)
    ensures b * x >= 0 && (b > 0 && x > 0 ==> b * x >= x)
  {
    if b > 0 && x > 0 {
      Product(x, b);
    }
  }

  /** Whether a set bit is shifted out. */
  lemma ShiftedOut(digits: seq<nat>, k: nat, shift: nat)
    requires k > 0 && shift / k < |digits| && forall i {:trigger digits[i]} :: 0 <= i < |digits| ==> digits[i] < Pow2(k)
    ensures Magnitude(digits, k) % Pow2(shift) != 0 <==>
            (exists i :: 0 <= i < shift / k && digits[i] != 0) || digits[shift / k] % Pow2(shift % k) != 0
  {
    hide Pow2, Magnitude;
    var f := shift / k;
    MagnitudeSplits(digits, k, f);
    ShiftedParts(digits, k, shift, f, shift % k);
  }

  lemma ShiftedParts(digits: seq<nat>, k: nat, shift: nat, f: nat, j: nat)
    requires shift == k * f + j && j < k && f < |digits|
    requires Magnitude(digits, k) == Magnitude(digits[..f], k) + Pow2(k * f) * Magnitude(digits[f..], k)
    requires Magnitude(digits[..f], k) < Pow2(k * f)
    ensures Magnitude(digits, k) % Pow2(shift) != 0 <==> Magnitude(digits[..f], k) != 0 || digits[f] % Pow2(j) != 0
  {
    hide Pow2, Magnitude;
    var d, rest := digits[f], digits[f + 1..];
    assert digits[f..] == [d] + rest;
    MagnitudeNext(d, rest, k);
    Pow2Add(k * f, j);
    Pow2Add(j, k - j);
    Split(Magnitude(digits, k), Magnitude(digits[..f], k), Pow2(k * f), d, Pow2(j), Pow2(k - j), Magnitude(rest, k));
  }

  lemma Split(m: nat, low: nat, p: nat, d: nat, q: nat, c: nat, r: nat)
    requires p > 0 && q > 0 && low < p && m == low + p * (d + (q * c) * r)
    ensures m % (p * q) == low + p * (d % q)
    ensures m % (p * q) != 0 <==> low != 0 || d % q != 0
  {
    SplitWith(m, low, p, q, d / q, d % q, c, r);
  }

  lemma SplitWith(m: int, low: int, p: int, q: int, e: int, g: int, c: int, r: int)
    requires p > 0 && q > 0 && 0 <= low < p && 0 <= g < q && m == low + p * (q * e + g + (q * c) * r)
    ensures p * q > 0 && m % (p * q) == low + p * g
    ensures m % (p * q) != 0 <==> low != 0 || g != 0
  {
    Regroup(low, p, q, e, g, c, r);
    SumFits(low, p, g, q);
    DivModUnique(m, p * q, e + c * r, low + p * g);
  }

  lemma SumFits(low: int, p: int, g: int, q: int)
    requires 0 <= low < p && 0 <= g < q
    ensures 0 <= low + p * g < p * q && (low + p * g == 0 <==> low == 0 && g == 0)
  {
    assert p * (q - 1 - g) >= 0;
    assert p * g >= 0;
    if g > 0 {
      Product(p, g);
    }
  }

  lemma Regroup(low: int, p: int, q: int, e: int, g: int, c: int, r: int)
    ensures low + p * (q * e + g + (q * c) * r) == (p * q) * (e + c * r) + (low + p * g)
  {
    assert p * (q * e + g + (q * c) * r) == p * (q * e) + p * g + p * ((q * c) * r);
    assert p * (q * e) == (p * q) * e;
    assert p * ((q * c) * r) == (p * q) * (c * r) by {
      assert (q * c) * r == q * (c * r);
      assert p * (q * (c * r)) == (p * q) * (c * r);
    }
    assert (p * q) * (e + c * r) == (p * q) * e + (p * q) * (c * r);
  }

  lemma Div2dValue(num: Number, shift: nat, k: nat)
    requires IsNumber(num, k)
    ensures var m: int := Magnitude(num.digits, k) / Pow2(shift);
            IntOf(Div2d(num, shift, k), k) == if num.negative then -m else m
  {
  }

  lemma NothingShifted(num: Number, k: nat)
    ensures IntOf(num, k) / Pow2(0) == IntOf(num, k)
  {
  }

  /** One bit more halves the quotient, downwards. */
  lemma ShiftHalves(x: int, n: nat)
    ensures x / Pow2(0) == x && x / Pow2(n + 1) == (x / Pow2(n)) / 2
  {
    assert Pow2(n + 1) == 2 * Pow2(n) && Pow2(0) == 1;
    HalfOfQuotient(x, Pow2(n));
  }

  lemma HalfOfQuotient(x: int, p: int)
    requires p > 0
    ensures x / (2 * p) == (x / p) / 2
  {
    var q, r := x / p, x % p;
    var h, e := q / 2, q % 2;
    assert x == p * (2 * h + e) + r;
    assert p * (2 * h + e) == (2 * p) * h + p * e;
    assert e == 0 || e == 1;
    DivModUnique(x, 2 * p, h, p * e + r);
  }

  /** Number::rshift: the floor of the quotient, for either sign. */
  method RightShift(num: Number, k: nat, shift: nat) returns (r: Result<Number>)
    requires IsNumber(num, k)
    ensures r.ShiftTooHigh? <==> shift > 0x7FFF_FFFF
    ensures r.Ok? ==> IsNumber(r.value, k) && IntOf(r.value, k) == IntOf(num, k) / Pow2(shift)
  {
    hide Pow2, Magnitude, Div2d, FromInt;
    if shift > INT_MAX {
      return ShiftTooHigh;
    }
    if shift / k >= |num.digits| {
      NothingLeft(num, k, shift);
      if !num.negative {
        return Ok(FromInt(0, k));
      } else {
        return Ok(FromInt(-1, k));
      }
    }
    if shift == 0 {
      NothingShifted(num, k);
      return Ok(num);
    }
    var result := Div2d(num, shift, k);
    Div2dValue(num, shift, k);
    if num.negative {
      var bitInsideShift := false;
      var fullDigits := shift / k;
      var d := 0;
      while d < fullDigits
        invariant 0 <= d <= fullDigits && !bitInsideShift && forall i :: 0 <= i < d ==> num.digits[i] == 0
      {
        if num.digits[d] != 0 {
          bitInsideShift := true;
          break;
        }
        d := d + 1;
      }
      if !bitInsideShift {
        // & with a mask of shift % k ones
        bitInsideShift := num.digits[fullDigits] % Pow2(shift % k) != 0;
      }
      ShiftedOut(num.digits, k, shift);
      FloorOfNegative(Magnitude(num.digits, k), Pow2(shift));
      if bitInsideShift {
        return Ok(FromInt(IntOf(result, k) - 1, k));
      }
    }
    return Ok(result);
  }

  lemma FloorOfNegative(m: nat, n: nat)
    requires n > 0
    ensures -(m as int) / n == -((m / n) as int) - if m % n != 0 then 1 else 0
  {
    assert m == n * (m / n) + m % n;
    if m % n != 0 {
      assert -(m as int) == n * (-((m / n) as int) - 1) + (n - m % n);
      DivModUnique(-(m as int), n, -((m / n) as int) - 1, n - m % n);
    } else {
      DivModUnique(-(m as int), n, -((m / n) as int), 0);
    }
  }

  /** All digits are shifted out. */
  lemma NothingLeft(num: Number, k: nat, shift: nat)
    requires IsNumber(num, k) && shift / k >= |num.digits|
    ensures IntOf(num, k) / Pow2(shift) == if num.negative then -1 else 0
  {
    var n := |num.digits|;
    MagnitudeSplits(num.digits, k, n);
    assert num.digits[..n] == num.digits;
    BelowShift(k, n, shift);
    Pow2Grows(k * n, shift);
    SmallQuotient(Magnitude(num.digits, k), Pow2(shift));
  }

  lemma BelowShift(k: nat, n: nat, shift: nat)
    requires k > 0 && n <= shift / k
    ensures k * n <= shift
  {
    assert shift == k * (shift / k) + shift % k;
    assert k * (shift / k - n) >= 0;
  }

  lemma SmallQuotient(m: nat, n: nat)
    requires m < n
    ensures m / n == 0 && (m > 0 ==> -(m as int) / n == -1)
  {
    DivModUnique(m, n, 0, m);
    if m > 0 {
      DivModUnique(-(m as int), n, -1, n - m);
    }
  }
}
