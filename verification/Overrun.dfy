/** The guardrail on a poll clock that cannot keep up (pkg/monitor/overrun.go).
    Durations are integer nanoseconds. */
module Overrun {
  import opened Basics

  const OVERRUN_STREAK := 3
  const RECOVER_STREAK := 3
  const RECOVER_DIVISOR := 2
  const BACKOFF_HEADROOM := 2
  const MAX_BACKOFF_FACTOR := 8
  const MILLISECOND := 1_000_000

  /** One poll round, measured. */
  datatype CycleStat = CycleStat(dur: nat, readings: nat, failed: nat)

  /** A round says something about load when under half its readings failed. */
  predicate Evidence(c: CycleStat) { c.readings > 0 && c.failed * 2 < c.readings }

  datatype Report = Report(intervalMs: int, cycleMs: int, effectiveMs: int, accepted: bool, recovered: bool)

  datatype Guard = Guard(interval: nat, accepted: bool, over: nat, under: nat, engaged: bool,
                         cycle: nat, effective: nat)

  function NewGuard(interval: nat, accepted: bool): Guard {
    Guard(interval, accepted, 0, 0, false, 0, interval)
  }

  /** Twice the cycle, capped at eight intervals, never below one; none once accepted. */
  function Backoff(g: Guard, cycle: nat): nat {
    if g.accepted then g.interval
    else Max(Min(cycle * BACKOFF_HEADROOM, g.interval * MAX_BACKOFF_FACTOR), g.interval)
  }

  function EdgeOf(g: Guard, recovered: bool): Report {
    Report(g.interval / MILLISECOND, g.cycle / MILLISECOND, g.effective / MILLISECOND, g.accepted, recovered)
  }

  function Observe(g: Guard, c: CycleStat): (Guard, Option<Report>) {
    if !Evidence(c) then (g, None)
    else if c.dur > g.interval then
      var slow := g.(under := 0, over := g.over + 1);
      if !slow.engaged && slow.over >= OVERRUN_STREAK then
        var e := slow.(engaged := true, cycle := c.dur, effective := Backoff(slow, c.dur));
        (e, Some(EdgeOf(e, false)))
      else if slow.engaged && c.dur > slow.cycle then
        (slow.(cycle := c.dur, effective := Backoff(slow, c.dur)), None)
      else (slow, None)
    else
      var fit := g.(over := 0);
      if c.dur * RECOVER_DIVISOR > g.interval then (fit, None)
      else
        var half := fit.(under := fit.under + 1);
        if half.engaged && half.under >= RECOVER_STREAK then
          var e := half.(engaged := false, cycle := c.dur, effective := half.interval);
          (e, Some(EdgeOf(e, true)))
        else (half, None)
  }

  function Accept(g: Guard): Guard { g.(accepted := true, effective := g.interval) }

  class OverrunGuard {
    var interval: nat
    var accepted: bool
    var over: nat
    var under: nat
    var engaged: bool
    var cycle: nat
    var effective: nat

    function View(): Guard
      reads this
    {
      Guard(interval, accepted, over, under, engaged, cycle, effective)
    }

    constructor (interval: nat, accepted: bool)
      ensures View() == NewGuard(interval, accepted)
    {
      this.interval, this.accepted, effective := interval, accepted, interval;
      over, under, engaged, cycle := 0, 0, false, 0;
    }

    method Widened(c: nat) returns (d: nat)
      ensures d == Backoff(View(), c)
    {
      if accepted {
        return interval;
      }
      d := c * BACKOFF_HEADROOM;
      var capped := interval * MAX_BACKOFF_FACTOR;
      if d > capped {
        d := capped;
      }
      if d < interval {
        d := interval;
      }
    }

    method ObserveRound(c: CycleStat) returns (report: Option<Report>)
      modifies this
      ensures (View(), report) == Observe(old(View()), c)
    {
      if !Evidence(c) {
        return None;
      }
      if c.dur > interval {
        under := 0;
        over := over + 1;
        if !engaged && over >= OVERRUN_STREAK {
          engaged := true;
          cycle := c.dur;
          effective := Widened(c.dur);
          return Some(EdgeOf(View(), false));
        }
        if engaged && c.dur > cycle {
          cycle := c.dur;
          effective := Widened(c.dur);
        }
        return None;
      }
      over := 0;
      if c.dur * RECOVER_DIVISOR > interval {
        return None;
      }
      under := under + 1;
      if engaged && under >= RECOVER_STREAK {
        engaged := false;
        cycle := c.dur;
        effective := interval;
        return Some(EdgeOf(View(), true));
      }
      report := None;
    }

    method AcceptSlow()
      modifies this
      ensures View() == Accept(old(View()))
    {
      accepted := true;
      effective := interval;
    }
  }
}
