/**
 * Sensor readings on the device: the moisture ADC conversion, the averaging
 * of moisture samples, and the stored current values with their getters.
 * ADC samples are inputs; the temperature filter and the pH conversion work
 * in floating point and are not part of this model.
 */
module Sensors {
  import opened FirmwareConfig

  /**
   * C integer division, which truncates toward zero: the remainder is
   * smaller than the divisor in magnitude and is zero or has the sign of
   * the dividend.
   */
  function CDiv(a: int, b: int): (q: int)
    requires b != 0
    ensures a >= 0 && b > 0 ==> q == a / b
    ensures var rem := a - q * b; var ab := if b < 0 then -b else b;
      -ab < rem < ab && (rem == 0 || (rem < 0) == (a < 0))
  {
    var m := (if a < 0 then -a else a) / (if b < 0 then -b else b);
    TruncatedRemainder(a, b, m);
    if (a < 0) != (b < 0) then -m else m
  }

  /** The remainder of the truncated quotient has the magnitude and sign C gives it. */
  lemma TruncatedRemainder(a: int, b: int, m: int)
    requires b != 0 && m == (if a < 0 then -a else a) / (if b < 0 then -b else b)
    ensures var q := if (a < 0) != (b < 0) then -m else m;
      var rem := a - q * b; var ab := if b < 0 then -b else b;
      -ab < rem < ab && (rem == 0 || (rem < 0) == (a < 0))
  {
    var aa, ab := (if a < 0 then -a else a), (if b < 0 then -b else b);
    var q := if (a < 0) != (b < 0) then -m else m;
    assert 0 <= aa - m * ab < ab;
    if b < 0 {
      assert q * b == (-q) * ab;
    } else {
      assert q * b == q * ab;
    }
    if (a < 0) != (b < 0) {
      assert (-q) * ab == m * ab || q * ab == -(m * ab);
    }
  }

  /** Arduino's `map`: a linear rescale with integer arithmetic. */
  function ArduinoMap(x: int, inMin: int, inMax: int, outMin: int, outMax: int): int
    requires inMax != inMin
  {
    CDiv((x - inMin) * (outMax - outMin), inMax - inMin) + outMin
  }

  /** Arduino's `constrain`. */
  function Constrain(x: int, lo: int, hi: int): int {
    if x < lo then lo else if x > hi then hi else x
  }

  /** Moisture percentage of a raw ADC value: map the dry..wet range onto 0..100, then clamp. */
  function CalculateMoisturePercentage(raw: int): (pct: int)
    ensures 0 <= pct <= 100
    ensures raw >= MOISTURE_AIR_VALUE ==> pct == 0
    ensures raw <= MOISTURE_WATER_VALUE ==> pct == 100
  {
    Constrain(ArduinoMap(raw, MOISTURE_AIR_VALUE, MOISTURE_WATER_VALUE, 0, 100), 0, 100)
  }

  /** The mapped value before clamping is the truncated quotient (2000 - raw) * 100 / 1100. */
  lemma MapOfMoisture(raw: int)
    ensures ArduinoMap(raw, MOISTURE_AIR_VALUE, MOISTURE_WATER_VALUE, 0, 100)
            == CDiv((MOISTURE_AIR_VALUE - raw) * 100, MOISTURE_AIR_VALUE - MOISTURE_WATER_VALUE)
  {
  }

  lemma {:induction false} MulMonotone(d: nat, x: int, y: int)
    requires x <= y
    ensures d * x <= d * y
  {
    if d > 0 {
      MulMonotone(d - 1, x, y);
      assert d * x == (d - 1) * x + x && d * y == (d - 1) * y + y;
    }
  }

  /** Division of non-negative numbers by a positive divisor is monotone. */
  lemma DivMonotone(a: int, b: int, d: int)
    requires 0 <= a <= b && d > 0
    ensures a / d <= b / d
  {
    var qa, qb := a / d, b / d;
    if qa > qb {
      MulMonotone(d, qb + 1, qa);
    }
  }

  /** Truncating division by a positive divisor is monotone. */
  lemma CDivMonotone(a: int, b: int, d: int)
    requires a <= b && d > 0
    ensures CDiv(a, d) <= CDiv(b, d)
  {
    var qa, qb := CDiv(a, d), CDiv(b, d);
    assert qa == if a < 0 then -((-a) / d) else a / d;
    assert qb == if b < 0 then -((-b) / d) else b / d;
    if a >= 0 {
      DivMonotone(a, b, d);
    } else if b < 0 {
      DivMonotone(-b, -a, d);
    } else {
      DivMonotone(0, -a, d);
      DivMonotone(0, b, d);
    }
  }

  /** A drier probe (higher raw value) never reads as wetter. */
  lemma MoistureNonIncreasing(raw1: int, raw2: int)
    requires raw1 <= raw2
    ensures CalculateMoisturePercentage(raw2) <= CalculateMoisturePercentage(raw1)
  {
    MapOfMoisture(raw1);
    MapOfMoisture(raw2);
    CDivMonotone((MOISTURE_AIR_VALUE - raw2) * 100, (MOISTURE_AIR_VALUE - raw1) * 100, 1100);
  }

  /** Number of ADC samples `readMoisture` averages. */
  const MOISTURE_SAMPLES: nat := 5

  function Sum(s: seq<int>): int {
    if s == [] then 0 else Sum(s[..|s| - 1]) + s[|s| - 1]
  }

  /** The truncated mean of five samples lies between the smallest and largest sample. */
  lemma {:induction false} MeanWithinSamples(samples: seq<int>, lo: int, hi: int)
    requires |samples| == MOISTURE_SAMPLES
    requires forall i :: 0 <= i < |samples| ==> lo <= samples[i] <= hi
    ensures lo <= CDiv(Sum(samples), 5) <= hi
  {
    SumBounds(samples, lo, hi);
    CDivMonotone(5 * lo, Sum(samples), 5);
    CDivMonotone(Sum(samples), 5 * hi, 5);
    assert CDiv(5 * lo, 5) == lo && CDiv(5 * hi, 5) == hi;
  }

  lemma {:induction false} SumBounds(s: seq<int>, lo: int, hi: int)
    requires forall i :: 0 <= i < |s| ==> lo <= s[i] <= hi
    ensures |s| * lo <= Sum(s) <= |s| * hi
  {
    if s != [] {
      var n := |s| - 1;
      SumBounds(s[..n], lo, hi);
      assert |s| * lo == n * lo + lo && |s| * hi == n * hi + hi;
    }
  }

  /** The sensor globals: last temperature, moisture percentage and pH. */
  class SensorState {
    var currentTemperature: real
    var currentMoisture: int
    var currentPH: real

    constructor()
      ensures currentTemperature == 0.0 && currentMoisture == 0 && currentPH == 7.0
    {
      currentTemperature := 0.0;
      currentMoisture := 0;
      currentPH := 7.0;
    }

    function GetTemperature(): real reads this { currentTemperature }
    function GetMoisture(): int reads this { currentMoisture }
    function GetPH(): real reads this { currentPH }

    /** Averages five ADC samples with truncating division and stores their percentage. */
    method ReadMoisture(samples: seq<int>)
      requires |samples| == MOISTURE_SAMPLES
      modifies this
      ensures currentMoisture == CalculateMoisturePercentage(CDiv(Sum(samples), 5))
      ensures currentTemperature == old(currentTemperature) && currentPH == old(currentPH)
    {
      var readings := 5;
      var sum := 0;
      var i := 0;
      while i < readings
        invariant 0 <= i <= readings
        invariant sum == Sum(samples[..i])
      {
        assert samples[..i + 1][..i] == samples[..i];
        sum := sum + samples[i];
        i := i + 1;
      }
      assert samples[..i] == samples;
      var rawValue := CDiv(sum, readings);
      currentMoisture := CalculateMoisturePercentage(rawValue);
    }
  }
}
