/** Exact decimal numbers: a sign, a coefficient and an exponent, as in Python's
    `decimal`, without its 28-digit context. */
module Decimals {

  /** (-1)^neg * coef * 10^exp.  A negative zero is a value of its own. */
  datatype Dec = Dec(neg: bool, coef: nat, exp: int)

  function Pow10(k: nat): (p: nat)
    ensures p >= 1
  {
    if k == 0 then 1 else 10 * Pow10(k - 1)
  }

  /** x * 10^exp. */
  function Scale(x: real, exp: int): real
    decreases if exp < 0 then -exp else exp
  {
    if exp == 0 then x
    else if exp > 0 then 10.0 * Scale(x, exp - 1)
    else Scale(x, exp + 1) / 10.0
  }

  function Signed(d: Dec): int { if d.neg then 0 - d.coef else d.coef }

  function Scaled(n: int, exp: int): real { Scale(n as real, exp) }

  function Value(d: Dec): real { Scaled(Signed(d), d.exp) }

  function Abs(x: real): real { if x < 0.0 then -x else x }

  // ---- arithmetic ------------------------------------------------------------------- //

  function FromInt(n: int, exp: int): Dec {
    Dec(n < 0, if n < 0 then -n else n, exp)
  }

  /** `n` in units of 10^(exp - k). */
  function Shift(n: int, k: nat): int { n * Pow10(k) }

  function Add(a: Dec, b: Dec): Dec {
    var exp := if a.exp < b.exp then a.exp else b.exp;
    FromInt(Shift(Signed(a), a.exp - exp) + Shift(Signed(b), b.exp - exp), exp)
  }

  function Negate(d: Dec): Dec { d.(neg := d.coef != 0 && !d.neg) }

  function Sub(a: Dec, b: Dec): Dec { Add(a, Negate(b)) }

  function Mul(a: Dec, b: Dec): Dec {
    FromInt(Signed(a) * Signed(b), a.exp + b.exp)
  }

  // ---- rounding ------------------------------------------------------------------- //

  function Quotient(a: nat, b: nat): nat
    requires b >= 1
  {
    a / b
  }

  function Remainder(a: nat, b: nat): nat
    requires b >= 1
  {
    a % b
  }

  /** Half away from zero, on magnitudes. */
  function HalfUp(n: nat, unit: nat): nat
    requires unit >= 1
  {
    if 2 * Remainder(n, unit) >= unit then Quotient(n, unit) + 1 else Quotient(n, unit)
  }

  datatype Rounding = ROUND_HALF_UP | ROUND_DOWN

  function Round(n: nat, unit: nat, mode: Rounding): nat
    requires unit >= 1
  {
    match mode case ROUND_HALF_UP => HalfUp(n, unit) case ROUND_DOWN => Quotient(n, unit)
  }

  function Times(a: nat, b: nat): nat { a * b }

  /** `value.quantize(10**-places, rounding)`. */
  function Quantize(d: Dec, places: int, mode: Rounding): Dec
    requires places >= 0
  {
    if d.exp >= -places then Dec(d.neg, Times(d.coef, Pow10(d.exp + places)), -places)
    else Dec(d.neg, Round(d.coef, Pow10(-places - d.exp), mode), -places)
  }

  function Q2(d: Dec): Dec { Quantize(d, 2, ROUND_HALF_UP) }

  function Q4(d: Dec): Dec { Quantize(d, 4, ROUND_HALF_UP) }

  // ---- scaling is linear -------------------------------------------------------------- //

  lemma {:induction false} ScaleAdd(x: real, y: real, exp: int)
    ensures Scale(x + y, exp) == Scale(x, exp) + Scale(y, exp)
    decreases if exp < 0 then -exp else exp
  {
    if exp > 0 {
      ScaleAdd(x, y, exp - 1);
    } else if exp < 0 {
      ScaleAdd(x, y, exp + 1);
    }
  }

  lemma {:induction false} ScaleSign(x: real, exp: int)
    ensures x >= 0.0 ==> Scale(x, exp) >= 0.0
    ensures x > 0.0 ==> Scale(x, exp) > 0.0
    ensures Scale(-x, exp) == -Scale(x, exp)
    decreases if exp < 0 then -exp else exp
  {
    if exp > 0 {
      ScaleSign(x, exp - 1);
    } else if exp < 0 {
      ScaleSign(x, exp + 1);
    }
  }

  lemma ScaledAdd(a: int, b: int, exp: int)
    ensures Scaled(a + b, exp) == Scaled(a, exp) + Scaled(b, exp)
  {
    ScaleAdd(a as real, b as real, exp);
    assert (a + b) as real == a as real + b as real;
  }

  lemma ScaledOrder(a: int, b: int, exp: int)
    requires a <= b
    ensures Scaled(a, exp) <= Scaled(b, exp)
    ensures a < b ==> Scaled(a, exp) < Scaled(b, exp)
  {
    ScaledAdd(a, b - a, exp);
    ScaleSign((b - a) as real, exp);
  }

  lemma {:induction false} ScaleTen(x: real, exp: int)
    ensures Scale(10.0 * x, exp) == Scale(x, exp + 1)
    decreases if exp < 0 then -exp else exp
  {
    if exp > 0 {
      ScaleTen(x, exp - 1);
    } else if exp < 0 {
      ScaleTen(x, exp + 1);
    }
  }

  lemma {:induction false} ScaleTwice(x: real, e: int, f: int)
    ensures Scale(Scale(x, e), f) == Scale(x, e + f)
    decreases if f < 0 then -f else f
  {
    if f > 0 {
      ScaleTwice(x, e, f - 1);
    } else if f < 0 {
      ScaleTwice(x, e, f + 1);
    }
  }

  function Product(x: real, c: real): real { x * c }

  lemma ProductTen(x: real, c: real)
    ensures Product(10.0 * x, c) == 10.0 * Product(x, c) && Product(x / 10.0, c) == Product(x, c) / 10.0
  {
  }

  lemma ProductAdd(x: real, y: real, c: real)
    ensures Product(x + y, c) == Product(x, c) + Product(y, c)
  {
  }

  lemma {:induction false} ScaleTimes(x: real, c: real, exp: int)
    ensures Scale(Product(x, c), exp) == Product(Scale(x, exp), c)
    decreases if exp < 0 then -exp else exp
  {
    if exp > 0 {
      ScaleTimes(x, c, exp - 1);
      ProductTen(Scale(x, exp - 1), c);
    } else if exp < 0 {
      ScaleTimes(x, c, exp + 1);
      ProductTen(Scale(x, exp + 1), c);
    }
  }

  lemma {:induction false} ScaledShift(n: int, exp: int, k: nat)
    ensures Scaled(Shift(n, k), exp - k) == Scaled(n, exp)
  {
    if k == 0 {
      assert Shift(n, 0) == n;
    } else {
      ScaledShift(n, exp, k - 1);
      assert Shift(n, k) == 10 * Shift(n, k - 1);
      ScaleTen(Shift(n, k - 1) as real, exp - k);
      assert Shift(n, k) as real == 10.0 * Shift(n, k - 1) as real;
    }
  }

  lemma AddValue(a: Dec, b: Dec)
    ensures Value(Add(a, b)) == Value(a) + Value(b)
  {
    var exp := if a.exp < b.exp then a.exp else b.exp;
    ScaledShift(Signed(a), a.exp, a.exp - exp);
    ScaledShift(Signed(b), b.exp, b.exp - exp);
    ScaledAdd(Shift(Signed(a), a.exp - exp), Shift(Signed(b), b.exp - exp), exp);
  }

  lemma NegateValue(d: Dec)
    ensures Value(Negate(d)) == -Value(d)
  {
    ScaleSign(Signed(d) as real, d.exp);
  }

  lemma SubValue(a: Dec, b: Dec)
    ensures Value(Sub(a, b)) == Value(a) - Value(b)
  {
    AddValue(a, Negate(b));
    NegateValue(b);
  }

  /** What multiplying by `r` does to a value. */
  function TimesValue(x: real, r: Dec): real { Scale(Product(x, Signed(r) as real), r.exp) }

  lemma MulValue(a: Dec, r: Dec)
    ensures Value(Mul(a, r)) == TimesValue(Value(a), r)
  {
    var n, c := Signed(a) as real, Signed(r) as real;
    assert Signed(Mul(a, r)) == Signed(a) * Signed(r);
    assert Signed(Mul(a, r)) as real == Product(n, c);
    ScaleTwice(Product(n, c), a.exp, r.exp);
    ScaleTimes(n, c, a.exp);
  }

  lemma TimesValueAdd(x: real, y: real, r: Dec)
    ensures TimesValue(x + y, r) == TimesValue(x, r) + TimesValue(y, r)
  {
    var c := Signed(r) as real;
    ProductAdd(x, y, c);
    ScaleAdd(Product(x, c), Product(y, c), r.exp);
  }

  // ---- rounding is close ------------------------------------------------------------------ //

  /** `q` units are a multiple of `unit` nearest to `n`. */
  ghost predicate Nearest(q: int, n: int, unit: nat) {
    -(unit as int) <= 2 * (q * unit - n) <= unit as int
  }

  /** The nearest multiple of `unit`, ties upwards. */
  lemma HalfUpNearest(n: nat, unit: nat)
    requires unit >= 1
    ensures Nearest(HalfUp(n, unit), n, unit)
    ensures 2 * (HalfUp(n, unit) * unit - n) != -(unit as int)
  {
    assert n == (n / unit) * unit + n % unit;
  }

  lemma NearestClose(q: int, n: int, exp: int, k: nat)
    requires Nearest(q, n, Pow10(k))
    ensures Abs(Scaled(q, exp + k) - Scaled(n, exp)) <= Scaled(1, exp + k) / 2.0
  {
    var p: int := Pow10(k);
    var diff := Shift(q, k) - n;
    ScaledShift(q, exp + k, k);
    ScaledShift(1, exp + k, k);
    assert Shift(1, k) == p && 0 - p <= 2 * diff <= p;
    ScaledAdd(diff, n, exp);
    ScaledAdd(diff, diff, exp);
    ScaledOrder(2 * diff, p, exp);
    ScaledOrder(0 - p, 2 * diff, exp);
    ScaleSign(p as real, exp);
    assert (0 - p) as real == -(p as real);
  }

  /** Rounding moves a value by at most half a unit of the last place kept, and not
      at all if nothing is dropped. */
  lemma QuantizeClose(d: Dec, places: int)
    requires places >= 0
    ensures Quantize(d, places, ROUND_HALF_UP).exp == -places
    ensures Abs(Value(Quantize(d, places, ROUND_HALF_UP)) - Value(d)) <= Scaled(1, -places) / 2.0
    ensures d.exp >= -places ==> Value(Quantize(d, places, ROUND_HALF_UP)) == Value(d)
  {
    var r := Quantize(d, places, ROUND_HALF_UP);
    if d.exp >= -places {
      ExactRescale(d, places);
      ScaleSign(1.0, -places);
    } else {
      var k := -places - d.exp;
      HalfUpNearest(d.coef, Pow10(k));
      NearestSigned(r.coef, d.coef, Pow10(k), d.neg);
      NearestClose(Signed(r), Signed(d), d.exp, k);
    }
  }

  lemma NearestSigned(q: int, n: int, unit: nat, neg: bool)
    requires Nearest(q, n, unit)
    ensures Nearest(if neg then 0 - q else q, if neg then 0 - n else n, unit)
  {
    assert (0 - q) * unit == -(q * unit);
  }

  lemma ExactRescale(d: Dec, places: int)
    requires places >= 0 && d.exp >= -places
    ensures Value(Quantize(d, places, ROUND_HALF_UP)) == Value(d)
  {
    ScaledShift(Signed(d), d.exp, d.exp + places);
  }

  /** Rounding down never enlarges a magnitude, so a net weight taken as a ratio
      below 1 of a positive gross stays below it. */
  lemma QuantizeDownBelow(d: Dec, places: int)
    requires places >= 0 && !d.neg
    ensures 0.0 <= Value(Quantize(d, places, ROUND_DOWN)) <= Value(d)
  {
    var r := Quantize(d, places, ROUND_DOWN);
    ScaleSign(r.coef as real, -places);
    if d.exp >= -places {
      ScaledShift(d.coef, d.exp, d.exp + places);
    } else {
      var k := -places - d.exp;
      var unit := Pow10(k);
      assert d.coef == Quotient(d.coef, unit) * unit + d.coef % unit;
      assert r.coef == Quotient(d.coef, unit);
      ScaledShift(r.coef, -places, k);
      ScaledOrder(Shift(r.coef, k), d.coef, d.exp);
    }
  }
}
