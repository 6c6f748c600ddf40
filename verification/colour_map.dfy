/**
 The temperature-to-colour mapping of the control loop, over exact reals.

 A reading inside the band [-ColdLimit, HotLimit] is turned into three
 intensities: blue ramps up to the pivot and then saturates, green rises over
 the whole band with a slope correction that fades out above 30 degrees, and
 red is a tent peaking at the pivot. Each intensity is then cast to a 16-bit
 duty with Rust's truncating `as u16`.
 */
module ColourMap {
  import opened Pwm

  /** Magnitude of the coldest in-band reading (the band starts at -50). */
  const ColdLimit: real := 50.0
  /** The hottest in-band reading. */
  const HotLimit: real := 60.0
  /** Number of colour positions spread over the band. */
  const ColourPoints: real := 256.0
  /** Width of the band in degrees. */
  const BandDegrees: real := 110.0
  const PointsPerDegree: real := ColourPoints / BandDegrees
  const DoublePointsPerDegree: real := PointsPerDegree * 2.0
  /** The reading at which blue saturates and red peaks. */
  const Pivot: real := 5.0
  /** Green's slope correction: CorrectorBase up to CorrectorKnee degrees,
      then shrinking by CorrectorSlope per degree. */
  const CorrectorBase: real := 0.6
  const CorrectorKnee: real := 30.0
  const CorrectorSlope: real := 0.02

  /** The closed band of readings that are mapped to colours. */
  predicate InBand(val: real) {
    -ColdLimit <= val <= HotLimit
  }

  /** The loop's alarm test: the reading is below the cold limit or above
      the hot limit. It fires exactly outside the closed band. */
  predicate InAlarm(val: real)
    ensures InAlarm(val) <==> !InBand(val)
  {
    val < -ColdLimit || val > HotLimit
  }

  /** Both limits themselves pass the alarm test and are mapped. */
  lemma BandLimitsAreMapped()
    ensures !InAlarm(-ColdLimit) && !InAlarm(HotLimit)
  {
  }

  // ---------------------------------------------------------------- blue

  /** Blue intensity: a ramp from 0 at the cold limit, saturated at the
      full duty from the pivot on. */
  function BlueAmount(val: real): (b: real)
    ensures val >= Pivot ==> b == AbsMaxDuty as real
    ensures InBand(val) && val < Pivot ==> 0.0 <= b < AbsMaxDuty as real
  {
    if val < Pivot then (val + ColdLimit) * DoublePointsPerDegree else AbsMaxDuty as real
  }

  /** Blue starts dark at the cold limit and rises strictly up to the pivot. */
  lemma BlueRising(a: real, b: real)
    requires -ColdLimit <= a < b < Pivot
    ensures BlueAmount(-ColdLimit) == 0.0
    ensures BlueAmount(a) < BlueAmount(b)
  {
  }

  // --------------------------------------------------------------- green

  /** Green's slope correction, which shrinks above the knee. */
  function GreenCorrector(val: real): (c: real)
    ensures c <= CorrectorBase
    ensures val <= CorrectorKnee ==> c == CorrectorBase
    ensures c >= 0.0 <==> val <= HotLimit
    ensures c == 0.0 <==> val == HotLimit
  {
    CorrectorBase - (if val > CorrectorKnee then (val - CorrectorKnee) * CorrectorSlope else 0.0)
  }

  /** Above the knee green is a concave quadratic in t = val + ColdLimit,
      and its distance to the full duty factors as (110 - t)(k - t/50). */
  lemma GreenGapAboveKnee(val: real)
    requires val > CorrectorKnee
    ensures AbsMaxDuty as real - (val + ColdLimit) * (PointsPerDegree + GreenCorrector(val))
         == (BandDegrees - (val + ColdLimit)) * (PointsPerDegree - (val + ColdLimit) * CorrectorSlope)
  {
    var t := val + ColdLimit;
    assert GreenCorrector(val) == 2.2 - t * CorrectorSlope;
    assert BandDegrees * PointsPerDegree == 256.0;
  }

  /** On the half-open band the green product stays below the full duty. */
  lemma {:induction false} GreenBelowFull(val: real)
    requires -ColdLimit <= val < HotLimit
    ensures 0.0 <= (val + ColdLimit) * (PointsPerDegree + GreenCorrector(val)) < AbsMaxDuty as real
  {
    var t := val + ColdLimit;
    var slope := PointsPerDegree + GreenCorrector(val);
    MulNonNegative(t, slope);
    if val <= CorrectorKnee {
      // Up to the knee the slope is fixed, so green is at most 80 (k + 0.6) < 235.
      MulMonotone(t, 80.0, slope);
      assert 80.0 * slope == 80.0 * PointsPerDegree + 48.0;
    } else {
      // Above it, 256 - green = gap * slack with both factors positive.
      GreenGapAboveKnee(val);
      var gap := BandDegrees - t;
      var slack := PointsPerDegree - t * CorrectorSlope;
      MulPositive(gap, slack);
      assert t * slope == AbsMaxDuty as real - gap * slack;
    }
  }

  /** Green intensity: the distance from the cold limit times the corrected
      slope. Over exact reals it stays below the full duty on [-50, 60) and
      reaches it exactly at the hot limit. */
  function GreenAmount(val: real): (g: real)
    ensures InBand(val) ==> 0.0 <= g <= AbsMaxDuty as real
    ensures -ColdLimit <= val < HotLimit ==> g < AbsMaxDuty as real
    ensures val == HotLimit ==> g == AbsMaxDuty as real
  {
    var g := (val + ColdLimit) * (PointsPerDegree + GreenCorrector(val));
    assert -ColdLimit <= val < HotLimit ==> 0.0 <= g < AbsMaxDuty as real by {
      if -ColdLimit <= val < HotLimit { GreenBelowFull(val); }
    }
    assert val == HotLimit ==> g == AbsMaxDuty as real by {
      assert BandDegrees * PointsPerDegree == 256.0;
    }
    g
  }

  /** At the hot limit itself green is exactly the full duty: the corrector
      has shrunk to zero and 110 degrees times 256/110 points is 256. */
  lemma GreenAtHotLimit()
    ensures GreenCorrector(HotLimit) == 0.0
    ensures GreenAmount(HotLimit) == AbsMaxDuty as real
  {
    assert BandDegrees * PointsPerDegree == 256.0;
  }

  /** Green rises strictly over the whole closed band. */
  lemma {:induction false} GreenRising(a: real, b: real)
    requires -ColdLimit <= a < b <= HotLimit
    ensures GreenAmount(a) < GreenAmount(b)
  {
    if b <= CorrectorKnee {
      GreenRisingBelowKnee(a, b);
    } else if a >= CorrectorKnee {
      GreenRisingAboveKnee(a, b);
    } else {
      GreenRisingBelowKnee(a, CorrectorKnee);
      GreenRisingAboveKnee(CorrectorKnee, b);
    }
  }

  /** Up to the knee green is linear with the positive slope k + 0.6. */
  lemma GreenRisingBelowKnee(a: real, b: real)
    requires -ColdLimit <= a < b <= CorrectorKnee
    ensures GreenAmount(a) < GreenAmount(b)
  {
    var slope := PointsPerDegree + CorrectorBase;
    assert GreenCorrector(a) == GreenCorrector(b) == CorrectorBase;
    var ga := GreenAmount(a);
    var gb := GreenAmount(b);
    assert ga == (a + ColdLimit) * slope;
    assert gb == (b + ColdLimit) * slope;
    var width := b - a;
    assert gb - ga == width * slope;
    MulPositive(width, slope);
  }

  /** Above the knee the quadratic is still rising at the hot limit. */
  lemma GreenRisingAboveKnee(a: real, b: real)
    requires CorrectorKnee <= a < b <= HotLimit
    ensures GreenAmount(a) < GreenAmount(b)
  {
    var ta := a + ColdLimit;
    var tb := b + ColdLimit;
    assert GreenCorrector(a) == 2.2 - ta * CorrectorSlope;
    assert GreenCorrector(b) == 2.2 - tb * CorrectorSlope;
    var ga := GreenAmount(a);
    var gb := GreenAmount(b);
    assert ga == ta * (PointsPerDegree + GreenCorrector(a));
    assert gb == tb * (PointsPerDegree + GreenCorrector(b));
    var width := tb - ta;
    var slope := PointsPerDegree + 2.2 - (ta + tb) * CorrectorSlope;
    assert gb - ga == width * slope;
    assert 0.0 < width && 0.0 < slope;
    MulPositive(width, slope);
  }

  // ----------------------------------------------------------------- red

  /** Red intensity: a tent rising from the cold limit to the pivot and
      falling back to the hot limit. */
  function RedAmount(val: real): (r: real)
    ensures InBand(val) ==> 0.0 <= r <= 128.0
  {
    PointsPerDegree * (if val < Pivot then val + ColdLimit else HotLimit - val)
  }

  /** Red is 0 at both ends of the band and peaks at 128 on the pivot. */
  lemma RedPeak()
    ensures RedAmount(-ColdLimit) == 0.0 && RedAmount(HotLimit) == 0.0
    ensures RedAmount(Pivot) == 128.0
  {
  }

  /** Red rises strictly below the pivot. */
  lemma RedRising(a: real, b: real)
    requires -ColdLimit <= a < b < Pivot
    ensures RedAmount(a) < RedAmount(b) < RedAmount(Pivot)
  {
  }

  /** Red falls strictly from the pivot to the hot limit. */
  lemma RedFalling(a: real, b: real)
    requires Pivot <= a < b <= HotLimit
    ensures RedAmount(a) > RedAmount(b)
  {
  }

  // --------------------------------------------------------------- duties

  /** The red duty written to the PWM channel. */
  function RedDuty(val: real): (d: U16)
    ensures InBand(val) ==> d <= 128
    ensures InBand(val) ==> d as real <= RedAmount(val) < d as real + 1.0
  {
    AsU16(RedAmount(val))
  }

  /** The blue duty written to the PWM channel: below the full duty up to
      the pivot, exactly the full duty from there on. */
  function BlueDuty(val: real): (d: U16)
    ensures InBand(val) ==> d <= AbsMaxDuty
    ensures InBand(val) && val < Pivot ==> d < AbsMaxDuty
    ensures val >= Pivot ==> d == AbsMaxDuty
    ensures InBand(val) ==> d as real <= BlueAmount(val) < d as real + 1.0
  {
    AsU16(BlueAmount(val))
  }

  /** The green duty exactly as the loop computes it. On the closed band it
      is at most the full duty, and below the hot limit it stays under it. */
  function GreenDutyAsWritten(val: real): (d: U16)
    ensures InBand(val) ==> d <= AbsMaxDuty
    ensures -ColdLimit <= val < HotLimit ==> d < AbsMaxDuty
    ensures InBand(val) ==> d as real <= GreenAmount(val) < d as real + 1.0
  {
    AsU16(GreenAmount(val))
  }

  /** A warmer in-band reading never gets a smaller green duty. */
  lemma GreenDutyRising(a: real, b: real)
    requires -ColdLimit <= a <= b <= HotLimit
    ensures GreenDutyAsWritten(a) <= GreenDutyAsWritten(b)
  {
    if a < b {
      GreenRising(a, b);
      AsU16Monotone(GreenAmount(a), GreenAmount(b));
    }
  }

  /** At the hot limit the green duty as written reaches the full duty, so
      the bound "green duty below 256" fails for the in-band reading 60. */
  lemma GreenDutyAsWrittenAtHotLimit()
    ensures InBand(HotLimit) && !InAlarm(HotLimit)
    ensures GreenDutyAsWritten(HotLimit) == AbsMaxDuty
  {
    GreenAtHotLimit();
  }

  /** The green duty with the asserted bound restored: the as-written duty,
      held one step below the full duty. It differs from the as-written duty
      only at the hot limit. */
  function GreenDuty(val: real): (d: U16)
    ensures InBand(val) ==> d < AbsMaxDuty
    ensures -ColdLimit <= val < HotLimit ==> d == GreenDutyAsWritten(val)
    ensures InBand(val) ==> d <= GreenDutyAsWritten(val)
  {
    var w := GreenDutyAsWritten(val);
    if w >= AbsMaxDuty then AbsMaxDuty - 1 else w
  }

  /** The worked examples of the mapping: everything dark at the cold
      limit, and red at its peak, blue saturated, green at 161 on the pivot. */
  lemma MappingExamples()
    ensures RedDuty(-ColdLimit) == 0 && GreenDutyAsWritten(-ColdLimit) == 0 && BlueDuty(-ColdLimit) == 0
    ensures RedDuty(Pivot) == 128 && GreenDutyAsWritten(Pivot) == 161 && BlueDuty(Pivot) == 256
  {
    assert GreenAmount(Pivot) == 161.0;
    assert RedAmount(Pivot) == 128.0;
  }

  // ----------------------------------------------------- real arithmetic

  lemma MulNonNegative(x: real, y: real)
    requires 0.0 <= x && 0.0 <= y
    ensures 0.0 <= x * y
  {
  }

  lemma MulPositive(x: real, y: real)
    requires 0.0 < x && 0.0 < y
    ensures 0.0 < x * y
  {
  }

  /** Multiplying by a non-negative factor keeps the order. */
  lemma MulMonotone(x: real, y: real, k: real)
    requires x <= y && 0.0 <= k
    ensures x * k <= y * k
  {
    MulNonNegative(y - x, k);
    assert (y - x) * k == y * k - x * k;
  }
}
