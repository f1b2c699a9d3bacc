/** The duration label of the frontend: milliseconds below one second, seconds below one minute,
    minutes from then on, each rounded to a whole number. */
module Format {
  import opened Strings

  /** `Math.round(x)`: the nearest integer, a half rounded up. */
  function Round(x: real): (n: int)
    ensures n as real - 0.5 <= x < n as real + 0.5
  {
    (x + 0.5).Floor
  }

  /** The unit is chosen on the unrounded duration. */
  function Unit(durationMs: real): string
  {
    if durationMs < 1000.0 then "ms" else if durationMs < 60000.0 then "s" else "min"
  }

  /** The duration in the chosen unit, before rounding. */
  function Scaled(durationMs: real): real
  {
    if durationMs < 1000.0 then durationMs
    else if durationMs < 60000.0 then durationMs / 1000.0
    else durationMs / 60000.0
  }

  /** `durationLabel(durationMs)`: the duration rounded in the unit its unrounded value falls in,
      followed by that unit. */
  function DurationLabel(durationMs: real): (text: string)
    ensures text == IntToString(Round(Scaled(durationMs))) + Unit(durationMs)
  {
    if durationMs < 1000.0 then IntToString(Round(durationMs)) + "ms"
    else if durationMs < 1000.0 * 60.0 then IntToString(Round(durationMs / 1000.0)) + "s"
    else IntToString(Round(durationMs / (1000.0 * 60.0))) + "min"
  }

  /** The label is the rounded duration in its unit followed by the unit, the number shown is at
      most half a unit off, and it stays within the unit's range: up to 1000 milliseconds for a
      non-negative duration below a second, 1 to 60 seconds, and at least one minute. */
  lemma DurationUnits(durationMs: real)
    ensures DurationLabel(durationMs) == IntToString(Round(Scaled(durationMs))) + Unit(durationMs)
    ensures var n := Round(Scaled(durationMs)) as real;
            n - 0.5 <= Scaled(durationMs) < n + 0.5
    ensures 0.0 <= durationMs < 1000.0 ==> Unit(durationMs) == "ms" && 0 <= Round(Scaled(durationMs)) <= 1000
    ensures 1000.0 <= durationMs < 60000.0 ==> Unit(durationMs) == "s" && 1 <= Round(Scaled(durationMs)) <= 60
    ensures 60000.0 <= durationMs ==> Unit(durationMs) == "min" && 1 <= Round(Scaled(durationMs))
  {
    var n := Round(Scaled(durationMs));
    if 1000.0 <= durationMs < 60000.0 {
      assert 1.0 <= Scaled(durationMs) < 60.0;
    } else if 60000.0 <= durationMs {
      assert 1.0 <= Scaled(durationMs);
    }
  }

  /** Because the unit is chosen before rounding, a duration just below a unit boundary shows the
      boundary in the smaller unit. */
  lemma BoundaryLabels()
    ensures DurationLabel(999.6) == "1000ms"
    ensures DurationLabel(59999.0) == "60s"
    ensures DurationLabel(60000.0) == "1min"
  {
    assert Round(999.6) == 1000;
    assert Round(59999.0 / 1000.0) == 60;
    assert Round(60000.0 / 60000.0) == 1;
    assert IntToString(1000) == "1000";
    assert IntToString(60) == "60";
    assert IntToString(1) == "1";
  }
}
