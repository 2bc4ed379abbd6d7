/** Conversion from real seconds to simulation ticks, and the bound at which
    the run loop stops. */
module Ticks {

  const SIM_TICK_TIME_SECONDS: real := 10.0
  const STOP_SIM_AFTER: real := 700.0

  /** Python's `int(x)`: truncation toward zero. */
  function Truncate(x: real): (r: int)
    ensures x >= 0.0 ==> r as real <= x < r as real + 1.0
    ensures x < 0.0 ==> r as real - 1.0 < x <= r as real
  {
    if x >= 0.0 then x.Floor else -((-x).Floor)
  }

  /** A number of seconds as whole ticks, rounded toward zero. */
  function SecondsToSimTicks(s: real): (r: int)
    ensures s >= 0.0 ==> r >= 0 && r as real * 10.0 <= s < (r as real + 1.0) * 10.0
    ensures s < 0.0 ==> r <= 0 && (r as real - 1.0) * 10.0 < s <= r as real * 10.0
  {
    Truncate(s / SIM_TICK_TIME_SECONDS)
  }

  lemma SecondsToSimTicksMonotone(s1: real, s2: real)
    requires 0.0 <= s1 <= s2
    ensures SecondsToSimTicks(s1) <= SecondsToSimTicks(s2)
  {
  }

  /** The incubation window (300 s) is 30 ticks and the stop bound (700 s) is 70 ticks. */
  lemma TickConstants()
    ensures SecondsToSimTicks(300.0) == 30
    ensures SecondsToSimTicks(STOP_SIM_AFTER) == 70
  {
    assert (300.0 / SIM_TICK_TIME_SECONDS) == 30.0;
    assert (STOP_SIM_AFTER / SIM_TICK_TIME_SECONDS) == 70.0;
  }

  /** The run loop: after each step the counter is compared with `bound`, and
      the loop stops at the first step after which the counter exceeds it.
      The result is the number of steps run from counter value `start`. */
  function StepsUntilStop(start: int, bound: int): (n: nat)
    decreases bound - start
    ensures n >= 1
    ensures start + n > bound
    ensures n == 1 || start + n - 1 <= bound
  {
    if start + 1 > bound then 1 else 1 + StepsUntilStop(start + 1, bound)
  }

  /** Starting from tick 0, the run performs exactly 71 steps. */
  lemma RunLength()
    ensures StepsUntilStop(0, SecondsToSimTicks(STOP_SIM_AFTER)) == 71
  {
    TickConstants();
  }
}
