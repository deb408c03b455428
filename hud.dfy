/**
 * The heads-up display shows iGlobalTime as `params.global_time as i32`: the
 * time truncated toward zero, saturating at the bounds of a 32-bit integer.
 */
module Hud {
  const I32Min: int := -0x8000_0000
  const I32Max: int := 0x7fff_ffff

  /** The whole seconds the timer label shows for time `t`. */
  function TimerSeconds(t: real): (r: int)
    ensures I32Min <= r <= I32Max
    ensures I32Min as real <= t < (I32Max + 1) as real && t >= 0.0 ==> r as real <= t < r as real + 1.0
    ensures I32Min as real <= t < (I32Max + 1) as real && t < 0.0 ==> r as real - 1.0 < t <= r as real
    ensures t < I32Min as real ==> r == I32Min
    ensures t >= (I32Max + 1) as real ==> r == I32Max
  {
    var z := if t >= 0.0 then t.Floor else -((-t).Floor);
    if z < I32Min then I32Min else if z > I32Max then I32Max else z
  }

  /** The label never counts down while non-negative time advances. */
  lemma TimerSecondsMonotone(s: real, t: real)
    requires 0.0 <= s <= t
    ensures TimerSeconds(s) <= TimerSeconds(t)
  {
  }
}
