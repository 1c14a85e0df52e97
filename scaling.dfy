/** Conversion of the raw sensor-1 and body-temperature words into physical
    units, over exact reals, with the two errors the double-precision
    computation raises for extreme scale factors. */
module Scaling {
  import opened Wrappers

  /** 10 raised to a natural exponent. */
  function Pow10Nat(n: nat): (p: real)
    ensures p >= 1.0
  {
    if n == 0 then 1.0 else 10.0 * Pow10Nat(n - 1)
  }

  /** `math.pow(10, e)` for any integer exponent, computed exactly. */
  function Pow10(e: int): (p: real)
    ensures p > 0.0
  {
    if e >= 0 then Pow10Nat(e) else 1.0 / Pow10Nat(-e)
  }

  /** Raising the exponent by one multiplies the power by ten. */
  lemma Pow10Step(e: int)
    ensures Pow10(e + 1) == 10.0 * Pow10(e)
  {
    if e < 0 {
      var p := Pow10Nat(-e - 1);
      assert Pow10Nat(-e) == 10.0 * p;
      if e + 1 < 0 {
        assert Pow10(e + 1) == 1.0 / p;
      }
      calc {
        10.0 * Pow10(e);
        10.0 * (1.0 / (10.0 * p));
        1.0 / p;
      }
    }
  }

  /** A negative exponent gives the reciprocal power. */
  lemma Pow10Negate(e: int)
    ensures Pow10(-e) * Pow10(e) == 1.0
  {
    if e == 0 {
    } else if e < 0 {
      assert Pow10(e) == 1.0 / Pow10Nat(-e);
    } else {
      assert Pow10(-e) == 1.0 / Pow10Nat(e);
    }
  }

  /** Solar irradiance in W/m2: `sensor1_data / math.pow(10, scale_factor)`. */
  function Irradiance(sensor1: int, scale: int): (irr: real)
    ensures irr * Pow10(scale) == sensor1 as real
  {
    sensor1 as real / Pow10(scale)
  }

  /** The exceptions `sensor1_data / math.pow(10, scale_factor)` can raise. */
  datatype ArithmeticError = OverflowError | ZeroDivisionError

  /** 1e308 is the largest power of ten an IEEE 754 double holds. */
  const MAX_DOUBLE_POW10: int := 308

  /** 1e-323 is the smallest power of ten that does not round to 0.0 (the
      smallest subnormal double is about 4.9e-324). */
  const MIN_DOUBLE_POW10: int := -323

  /** `math.pow(10, e)`: OverflowError when the result exceeds the largest
      double, 0.0 when it underflows, and otherwise 10^e (rounding is not
      modelled). */
  function MathPow10(e: int): (r: Result<real, ArithmeticError>)
    ensures r.Failure? <==> e > MAX_DOUBLE_POW10
    ensures r.Failure? ==> r.error == OverflowError
    ensures r.Success? ==> (r.value == 0.0 <==> e < MIN_DOUBLE_POW10)
  {
    if e > MAX_DOUBLE_POW10 then Failure(OverflowError)
    else if e < MIN_DOUBLE_POW10 then Success(0.0)
    else Success(Pow10(e))
  }

  /** Python's float division `x / y`: ZeroDivisionError for a zero
      divisor. */
  function FloatDivide(x: real, y: real): (r: Result<real, ArithmeticError>)
    ensures r.Success? <==> y != 0.0
    ensures r.Failure? ==> r.error == ZeroDivisionError
  {
    if y == 0.0 then Failure(ZeroDivisionError) else Success(x / y)
  }

  /** `sensor1_data / math.pow(10, scale_factor)` as the driver evaluates
      it: computed for every scale factor between -323 and 308, and then the
      exact quotient; a larger scale factor raises OverflowError and a
      smaller one ZeroDivisionError. */
  function IrradianceOf(sensor1: int, scale: int): (r: Result<real, ArithmeticError>)
    ensures r.Success? <==> MIN_DOUBLE_POW10 <= scale <= MAX_DOUBLE_POW10
    ensures r.Success? ==> r.value == Irradiance(sensor1, scale)
    ensures scale > MAX_DOUBLE_POW10 ==> r == Failure(OverflowError)
    ensures scale < MIN_DOUBLE_POW10 ==> r == Failure(ZeroDivisionError)
  {
    match MathPow10(scale)
    case Failure(e) => Failure(e)
    case Success(p) => FloatDivide(sensor1 as real, p)
  }

  /** Body temperature in degrees Celsius: `temp / 10.0`. */
  function BodyTemperature(raw: int): (t: real)
    ensures t * 10.0 == raw as real
  {
    raw as real / 10.0
  }

  /** The irradiance is the raw reading shifted by `scale` decimal places:
      the raw reading times ten to the opposite exponent, with the raw
      reading's sign, and the raw reading itself at scale 0. */
  lemma IrradianceShiftsDecimals(sensor1: int, scale: int)
    ensures Irradiance(sensor1, scale) == sensor1 as real * Pow10(-scale)
    ensures Irradiance(sensor1, scale) < 0.0 <==> sensor1 < 0
    ensures Irradiance(sensor1, scale) == 0.0 <==> sensor1 == 0
    ensures scale == 0 ==> Irradiance(sensor1, scale) == sensor1 as real
  {
    Pow10Negate(scale);
    var p := Pow10(scale);
    var q := Pow10(-scale);
    assert q * p == 1.0;
    calc {
      Irradiance(sensor1, scale);
      sensor1 as real / p;
      (sensor1 as real * (q * p)) / p;
      sensor1 as real * q;
    }
  }

  /** One more step of scale divides the irradiance by ten. */
  lemma IrradianceRescaled(sensor1: int, scale: int)
    ensures Irradiance(sensor1, scale + 1) * 10.0 == Irradiance(sensor1, scale)
  {
    Pow10Step(scale);
  }
}
