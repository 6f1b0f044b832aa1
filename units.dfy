/** The exporter's unit conversions: wheel angle to encoder ticks and back,
    and head pan angle to servo pulse width. */
module Units {
  import opened Numeric

  /** `radians_to_ticks`: the angle as a fraction of a full turn, scaled to
      the encoder resolution and rounded half-to-even; the result is within
      half a tick of the exact value. */
  function RadiansToTicks(angleRad: real, ticksPerRevolution: int): (ticks: int)
    ensures var turns := angleRad / (2.0 * PI) * ticksPerRevolution as real;
      turns - 0.5 <= ticks as real <= turns + 0.5
  {
    Round(angleRad / (2.0 * PI) * ticksPerRevolution as real)
  }

  /** `ticks_to_radians`: `ticks` parts out of `ticksPerRevolution` of a
      full turn. Python divides by the resolution, so it must not be 0. */
  function TicksToRadians(ticks: int, ticksPerRevolution: int): (angleRad: real)
    requires ticksPerRevolution != 0
    ensures angleRad * ticksPerRevolution as real == ticks as real * (2.0 * PI)
  {
    (ticks as real * 2.0 * PI) / ticksPerRevolution as real
  }

  /** `math.degrees`. */
  function Degrees(angleRad: real): (deg: real)
  {
    angleRad * (180.0 / PI)
  }

  /** `rotation_to_microseconds`: 1500 us at the centre, 500 us per 90 degrees,
      then `min(max(us, 1000), 2000)`. */
  function RotationToMicroseconds(angleRad: real): (us: real)
    ensures 1000.0 <= us <= 2000.0
  {
    var raw := 1500.0 + Degrees(angleRad) * (500.0 / 90.0);
    var lower := if 1000.0 > raw then 1000.0 else raw;
    if 2000.0 < lower then 2000.0 else lower
  }

  /** `math.degrees` scales by 180 / pi: a half turn is 180 degrees. */
  lemma DegreesScale(angleRad: real)
    ensures Degrees(angleRad) * PI == angleRad * 180.0
    ensures Degrees(PI) == 180.0
  {
  }

  /** Converting ticks to an angle and back gives the same tick count, for
      every resolution Python can divide by (not only positive ones). */
  lemma TicksRoundTrip(ticks: int, ticksPerRevolution: int)
    requires ticksPerRevolution != 0
    ensures RadiansToTicks(TicksToRadians(ticks, ticksPerRevolution), ticksPerRevolution) == ticks
  {
    var a := TicksToRadians(ticks, ticksPerRevolution);
    assert a / (2.0 * PI) * ticksPerRevolution as real == ticks as real;
    RoundOfInteger(ticks);
  }

  /** A forward (non-negative) wheel angle never gives negative ticks. */
  lemma RadiansToTicksNonNegative(angleRad: real, ticksPerRevolution: int)
    requires angleRad >= 0.0 && ticksPerRevolution >= 0
    ensures RadiansToTicks(angleRad, ticksPerRevolution) >= 0
  {
    var q := angleRad / (2.0 * PI);
    assert q >= 0.0;
    assert q * ticksPerRevolution as real >= 0.0;
    RoundNonNegative(q * ticksPerRevolution as real);
  }

  /** Turning the wheel the other way gives the opposite tick count. */
  lemma RadiansToTicksNegate(angleRad: real, ticksPerRevolution: int)
    ensures RadiansToTicks(-angleRad, ticksPerRevolution) == -RadiansToTicks(angleRad, ticksPerRevolution)
  {
    var x := angleRad / (2.0 * PI) * ticksPerRevolution as real;
    assert (-angleRad) / (2.0 * PI) * ticksPerRevolution as real == -x;
    RoundNegate(x);
  }

  /** Angle 0 is the servo centre. */
  lemma ServoCentre()
    ensures RotationToMicroseconds(0.0) == 1500.0
  {
  }

  /** A larger pan angle never gives a shorter pulse. */
  lemma ServoMonotone(a: real, b: real)
    requires a <= b
    ensures RotationToMicroseconds(a) <= RotationToMicroseconds(b)
  {
    assert Degrees(a) <= Degrees(b);
  }

  /** The formula reaches the end stops at a quarter turn, so every angle of
      at least pi/2 (and in particular pi) gives 2000 us, and every angle of
      at most -pi/2 gives 1000 us. */
  lemma ServoSaturatesAtQuarterTurn(angleRad: real)
    ensures angleRad >= PI / 2.0 ==> RotationToMicroseconds(angleRad) == 2000.0
    ensures angleRad <= -PI / 2.0 ==> RotationToMicroseconds(angleRad) == 1000.0
  {
    assert Degrees(PI / 2.0) == 90.0;
    assert Degrees(-PI / 2.0) == -90.0;
    if angleRad >= PI / 2.0 {
      ServoMonotone(PI / 2.0, angleRad);
    }
    if angleRad <= -PI / 2.0 {
      ServoMonotone(angleRad, -PI / 2.0);
    }
  }

  /** Within the quarter turn the pulse follows the linear law, unclamped. */
  lemma ServoLinearWithinQuarterTurn(angleRad: real)
    requires -PI / 2.0 <= angleRad <= PI / 2.0
    ensures RotationToMicroseconds(angleRad) == 1500.0 + Degrees(angleRad) * (500.0 / 90.0)
  {
    ServoMonotone(-PI / 2.0, angleRad);
    assert Degrees(PI / 2.0) == 90.0;
    assert Degrees(-PI / 2.0) == -90.0;
    assert Degrees(angleRad) <= 90.0;
    assert Degrees(angleRad) >= -90.0;
  }
}
