/** The regulator's speed calculation: the filtered temperature mapped to a PWM
    duty in [0, 255]. */
module Actuator {

  /** Temperature at which the output starts to rise (tempOffset). */
  const TempOffset: int := 30
  /** Duty steps per degree above the offset (tempMultiply). */
  const TempMultiply: int := 2
  /** Largest duty analogWrite is given. */
  const SpeedLimit: int := 255

  /** The duty for an average temperature, stated by ranges of the input. */
  function Speed(averageTemp: int): (s: int)
    ensures 0 <= s <= SpeedLimit
    ensures averageTemp <= TempOffset ==> s == 0
    ensures TempOffset < averageTemp < 158 ==> s == (averageTemp - TempOffset) * TempMultiply
    ensures averageTemp >= 158 ==> s == SpeedLimit
  {
    var raw := (averageTemp - TempOffset) * TempMultiply;
    if raw < 0 then 0 else if raw > SpeedLimit then SpeedLimit else raw
  }

  /** A warmer average never yields a lower duty. */
  lemma SpeedMonotone(a: int, b: int)
    requires a <= b
    ensures Speed(a) <= Speed(b)
  {
  }

  /** Inside the linear band every extra degree adds exactly two duty steps. */
  lemma SpeedSlope(a: int)
    requires TempOffset <= a < 157
    ensures Speed(a + 1) == Speed(a) + TempMultiply
  {
  }

  /** The speed code of loop(): the raw product overwritten by two successive clamps. */
  method ComputeSpeed(averageTemp: int) returns (speed: int)
    ensures speed == Speed(averageTemp)
  {
    speed := 0;
    speed := (averageTemp - TempOffset) * TempMultiply;
    if speed < 0 {
      speed := 0;
    }
    if speed > SpeedLimit {
      speed := SpeedLimit;
    }
  }
}
