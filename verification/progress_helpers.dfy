/** The progress timer of long-running plugins: every tick adds the report interval to the elapsed
    time and reports the larger of the plugin's own work estimate and the elapsed fraction of the
    expected duration, until the timer is stopped. Ticks are explicit `Update` calls; the interval
    timer that drives them is not modelled. */
module ProgressHelpers {
  import opened Values

  /** One `PROGRESS` notification `{ $id: item.$id, progress }`. */
  datatype ProgressReport = ProgressReport(id: Value, progress: real)

  const DefaultDurationMs := 0
  const DefaultReportMs := 250

  /** A destructured option with a default: the default applies only when the option is absent. */
  function OrDefault(v: Option<int>, d: int): (r: int)
    ensures v.None? ==> r == d
    ensures v.Some? ==> r == v.value
  {
    if v.Some? then v.value else d
  }

  /** The default probe reports no work done. */
  function ProbeValue(probe: Option<real>): (r: real)
    ensures probe.None? ==> r == 0.0
    ensures probe.Some? ==> r == probe.value
  {
    if probe.Some? then probe.value else 0.0
  }

  function Min(a: real, b: real): (r: real)
    ensures r <= a && r <= b && (r == a || r == b)
  {
    if a <= b then a else b
  }

  function Max(a: real, b: real): (r: real)
    ensures r >= a && r >= b && (r == a || r == b)
  {
    if a >= b then a else b
  }

  /** The elapsed fraction of the expected duration: 0 without a positive duration, and never above
      1; never negative while the elapsed time is not. */
  function TimeFraction(progressMs: int, durationMs: int): (t: real)
    ensures t <= 1.0
    ensures durationMs <= 0 ==> t == 0.0
    ensures progressMs >= 0 ==> 0.0 <= t
    ensures durationMs > 0 && progressMs >= durationMs ==> t == 1.0
    ensures durationMs > 0 && progressMs < durationMs ==> t == progressMs as real / durationMs as real
  {
    if durationMs <= 0 then 0.0 else Min(progressMs as real / durationMs as real, 1.0)
  }

  /** The reported value: never below the time fraction, and equal to it or to the work estimate. */
  function Reported(work: real, progressMs: int, durationMs: int): (p: real)
    ensures p >= TimeFraction(progressMs, durationMs) && p >= work
    ensures p == work || p == TimeFraction(progressMs, durationMs)
    ensures 0.0 <= work <= 1.0 && progressMs >= 0 ==> 0.0 <= p <= 1.0
  {
    Max(work, TimeFraction(progressMs, durationMs))
  }

  /** `progressTimer(jobState, item, options)` with the notifications it sends recorded in `sent`. */
  class ProgressTimer {
    const id: Value
    const durationMs: int
    const reportMs: int
    var progressMs: int
    var done: bool
    var sent: seq<ProgressReport>
    /** The number of ticks that advanced the timer. */
    ghost var ticks: nat

    ghost predicate Valid()
      reads this
    {
      progressMs == ticks * reportMs && |sent| == ticks
    }

    constructor (item: Value, durationMs: Option<int>, reportMs: Option<int>)
      ensures Valid()
      ensures id == Field(item, "$id")
      ensures this.durationMs == OrDefault(durationMs, DefaultDurationMs)
      ensures this.reportMs == OrDefault(reportMs, DefaultReportMs)
      ensures progressMs == 0 && !done && sent == []
    {
      id := Field(item, "$id");
      this.durationMs := OrDefault(durationMs, DefaultDurationMs);
      this.reportMs := OrDefault(reportMs, DefaultReportMs);
      progressMs := 0;
      done := false;
      sent := [];
      ticks := 0;
    }

    /** One tick; `probe` is the value the plugin's probe returns at this tick, if it gave one. */
    method Update(probe: Option<real>)
      requires Valid()
      modifies this
      ensures Valid()
      ensures done == old(done)
      ensures old(done) ==> progressMs == old(progressMs) && sent == old(sent)
      ensures !old(done) ==> progressMs == old(progressMs) + reportMs
      ensures !old(done) ==> sent == old(sent) + [ProgressReport(id, Reported(ProbeValue(probe), progressMs, durationMs))]
    {
      if done {
        return;
      }
      progressMs := progressMs + reportMs;
      ticks := ticks + 1;
      var work := ProbeValue(probe);
      var time := if durationMs <= 0 then 0.0 else Min(progressMs as real / durationMs as real, 1.0);
      Report(Max(work, time));
    }

    method Report(progress: real)
      modifies this
      ensures sent == old(sent) + [ProgressReport(id, progress)]
      ensures progressMs == old(progressMs) && done == old(done) && ticks == old(ticks)
    {
      sent := sent + [ProgressReport(id, progress)];
    }

    method Stop()
      requires Valid()
      modifies this
      ensures Valid()
      ensures done && progressMs == old(progressMs) && sent == old(sent)
    {
      done := true;
    }
  }

  /** The elapsed time after `n` ticks with a non-negative interval is never negative, so every
      report lies in [0, 1] when the probe's values do. */
  lemma {:induction false} ElapsedNonNegative(ticks: nat, reportMs: int)
    requires reportMs >= 0
    ensures ticks * reportMs >= 0
  {
    if ticks > 0 {
      ElapsedNonNegative(ticks - 1, reportMs);
      assert ticks * reportMs == (ticks - 1) * reportMs + reportMs;
    }
  }

  /** With a non-negative interval the elapsed fraction never goes back: later ticks report at least
      the time fraction of earlier ones. */
  lemma TimeFractionMonotone(earlier: int, later: int, durationMs: int)
    requires earlier <= later
    ensures TimeFraction(earlier, durationMs) <= TimeFraction(later, durationMs)
  {
    if durationMs > 0 {
      var d := durationMs as real;
      assert earlier as real / d <= later as real / d by {
        assert earlier as real <= later as real;
        assert d > 0.0;
      }
    }
  }

  /** A timer updated a number of times and then stopped sends nothing more, whatever its probe
      reports. */
  method StoppedTimerIsSilent(t: ProgressTimer, probes: seq<Option<real>>)
    requires t.Valid()
    modifies t
    ensures t.sent == old(t.sent) && t.progressMs == old(t.progressMs)
  {
    t.Stop();
    var i := 0;
    while i < |probes|
      invariant 0 <= i <= |probes|
      invariant t.Valid() && t.done
      invariant t.sent == old(t.sent) && t.progressMs == old(t.progressMs)
    {
      t.Update(probes[i]);
      i := i + 1;
    }
  }
}
