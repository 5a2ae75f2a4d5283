/** Event time in milliseconds with the saturating arithmetic of
    crates/airpulse_dsl-types/src/time.rs. */
module EventTime {

  const TIME_MIN: int := -0x8000_0000_0000_0000
  const TIME_MAX: int := 0x7fff_ffff_ffff_ffff

  type Time = t: int | TIME_MIN <= t <= TIME_MAX
  type Duration = d: int | 0 <= d <= TIME_MAX

  function Clamp(t: int): Time
  {
    if t < TIME_MIN then TIME_MIN else if t > TIME_MAX then TIME_MAX else t
  }

  function Add(t: Time, d: Duration): Time { Clamp(t + d) }
  function Sub(t: Time, d: Duration): Time { Clamp(t - d) }
  function Latest(a: Time, b: Time): Time { if a <= b then b else a }

  /** If a window of `back + forward <= lookback` around `t` is still open at `now`, its
      start is not before the collection horizon; saturation does not matter. */
  lemma OpenWindowIsKept(t: Time, back: Duration, forward: Duration, lookback: Duration, now: Time)
    requires back + forward <= lookback && now <= Add(t, forward)
    ensures Sub(now, lookback) <= Sub(t, back)
  {
  }
}
