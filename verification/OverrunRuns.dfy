/** What the guardrail does over a whole run of rounds (pkg/monitor/overrun.go:93-178). */
module OverrunRuns {
  import opened Basics
  import opened Overrun

  datatype Op = Round(c: CycleStat) | Accepts

  function Step(g: Guard, op: Op): (Guard, Option<Report>) {
    match op
    case Round(c) => Observe(g, c)
    case Accepts => (Accept(g), None)
  }

  function After(ops: seq<Op>, interval: nat, accepted: bool): Guard {
    if ops == [] then NewGuard(interval, accepted)
    else Step(After(ops[..|ops| - 1], interval, accepted), ops[|ops| - 1]).0
  }

  /** What the last of these operations reports. */
  function Reported(ops: seq<Op>, interval: nat, accepted: bool): Option<Report> {
    if ops == [] then None
    else Step(After(ops[..|ops| - 1], interval, accepted), ops[|ops| - 1]).1
  }

  /** What operation k of a run reports. */
  function ReportAt(ops: seq<Op>, interval: nat, accepted: bool, k: nat): Option<Report>
    requires k < |ops|
  {
    Reported(ops[..k + 1], interval, accepted)
  }

  // --- said of the rounds alone ---------------------------------------------------

  /** A round that answered: something was read, and under half of it failed. */
  predicate Answered(op: Op) { op.Round? && op.c.readings > 0 && 2 * op.c.failed < op.c.readings }

  predicate Slow(op: Op, interval: nat) { Answered(op) && op.c.dur > interval }

  predicate Fits(op: Op, interval: nat) { Answered(op) && op.c.dur <= interval }

  /** Comfortably inside: within half the requested interval. */
  predicate Half(op: Op, interval: nat) { Answered(op) && op.c.dur * 2 <= interval }

  /** A round of which half or more failed, or in which nothing was read, moves nothing. */
  lemma UnansweredMovesNothing(ops: seq<Op>, interval: nat, accepted: bool)
    requires ops != [] && ops[|ops| - 1].Round?
    requires ops[|ops| - 1].c.readings == 0 || 2 * ops[|ops| - 1].c.failed >= ops[|ops| - 1].c.readings
    ensures After(ops, interval, accepted) == After(ops[..|ops| - 1], interval, accepted)
    ensures Reported(ops, interval, accepted) == None
  {
  }

  /** The two streaks: slow rounds, broken by one that fits, and rounds within half,
      broken by a slow one. */
  datatype Streak = OfSlow | OfHalf

  predicate Hits(which: Streak, op: Op, interval: nat) {
    if which == OfSlow then Slow(op, interval) else Half(op, interval)
  }

  predicate Breaks(which: Streak, op: Op, interval: nat) {
    if which == OfSlow then Fits(op, interval) else Slow(op, interval)
  }

  predicate Unbroken(which: Streak, ops: seq<Op>, interval: nat, from: nat) {
    forall m | from <= m < |ops| :: !Breaks(which, ops[m], interval)
  }

  ghost predicate OneHit(which: Streak, ops: seq<Op>, interval: nat) {
    exists j: nat :: j < |ops| && Hits(which, ops[j], interval) && Unbroken(which, ops, interval, j)
  }

  ghost predicate TwoHits(which: Streak, ops: seq<Op>, interval: nat) {
    exists i: nat, j: nat ::
      i < j < |ops| && Hits(which, ops[i], interval) && Hits(which, ops[j], interval) && Unbroken(which, ops, interval, i)
  }

  /** The last round hits, and two before it with nothing breaking in between. */
  ghost predicate ThreeHits(which: Streak, ops: seq<Op>, interval: nat) {
    ops != [] && Hits(which, ops[|ops| - 1], interval) && TwoHits(which, ops[..|ops| - 1], interval)
  }

  // --- the streak counters count exactly that ---------------------------------------

  function Counter(which: Streak, g: Guard): nat {
    if which == OfSlow then g.over else g.under
  }

  lemma CounterSteps(which: Streak, g: Guard, op: Op)
    ensures var h := Step(g, op).0;
            && h.interval == g.interval
            && Counter(which, h) ==
               if Breaks(which, op, g.interval) then 0
               else if Hits(which, op, g.interval) then Counter(which, g) + 1
               else Counter(which, g)
  {
  }

  lemma UnbrokenSteps(which: Streak, before: seq<Op>, op: Op, interval: nat, from: nat)
    requires from < |before|
    ensures Unbroken(which, before + [op], interval, from) <==>
            Unbroken(which, before, interval, from) && !Breaks(which, op, interval)
  {
    var ops := before + [op];
    if Unbroken(which, ops, interval, from) {
      assert !Breaks(which, ops[|before|], interval);
      forall m | from <= m < |before|
        ensures !Breaks(which, before[m], interval)
      {
        assert !Breaks(which, ops[m], interval);
      }
    }
  }

  lemma OneHitSteps(which: Streak, before: seq<Op>, op: Op, interval: nat)
    ensures OneHit(which, before + [op], interval) <==>
            !Breaks(which, op, interval) && (Hits(which, op, interval) || OneHit(which, before, interval))
  {
    var ops := before + [op];
    hide Unbroken, Breaks;
    if OneHit(which, ops, interval) {
      var j: nat :| j < |ops| && Hits(which, ops[j], interval) && Unbroken(which, ops, interval, j);
      LastUnbroken(which, before, op, interval);
      if j < |before| {
        UnbrokenSteps(which, before, op, interval, j);
        assert Hits(which, before[j], interval);
      }
    }
    if !Breaks(which, op, interval) && Hits(which, op, interval) {
      LastUnbroken(which, before, op, interval);
      assert ops[|before|] == op;
    } else if !Breaks(which, op, interval) && OneHit(which, before, interval) {
      var j: nat :| j < |before| && Hits(which, before[j], interval) && Unbroken(which, before, interval, j);
      UnbrokenSteps(which, before, op, interval, j);
      assert ops[j] == before[j];
    }
  }

  lemma LastUnbroken(which: Streak, before: seq<Op>, op: Op, interval: nat)
    ensures Unbroken(which, before + [op], interval, |before|) <==> !Breaks(which, op, interval)
  {
    assert (before + [op])[|before|] == op;
  }

  lemma TwoHitsSteps(which: Streak, before: seq<Op>, op: Op, interval: nat)
    ensures TwoHits(which, before + [op], interval) <==>
            && !Breaks(which, op, interval)
            && (TwoHits(which, before, interval) || (Hits(which, op, interval) && OneHit(which, before, interval)))
  {
    var ops := before + [op];
    hide Unbroken, Breaks;
    if TwoHits(which, ops, interval) {
      var i: nat, j: nat :| i < j < |ops| && Hits(which, ops[i], interval) && Hits(which, ops[j], interval)
                            && Unbroken(which, ops, interval, i);
      UnbrokenSteps(which, before, op, interval, i);
      assert Hits(which, before[i], interval);
    }
    if !Breaks(which, op, interval) && TwoHits(which, before, interval) {
      var i: nat, j: nat :| i < j < |before| && Hits(which, before[i], interval) && Hits(which, before[j], interval)
                            && Unbroken(which, before, interval, i);
      UnbrokenSteps(which, before, op, interval, i);
      assert ops[i] == before[i] && ops[j] == before[j];
    } else if !Breaks(which, op, interval) && Hits(which, op, interval) && OneHit(which, before, interval) {
      var i: nat :| i < |before| && Hits(which, before[i], interval) && Unbroken(which, before, interval, i);
      UnbrokenSteps(which, before, op, interval, i);
      assert ops[i] == before[i] && ops[|before|] == op;
    }
  }

  lemma {:induction false} CountersAreStreaks(which: Streak, ops: seq<Op>, interval: nat, accepted: bool)
    ensures var g := After(ops, interval, accepted);
            && g.interval == interval
            && (Counter(which, g) >= 1 <==> OneHit(which, ops, interval))
            && (Counter(which, g) >= 2 <==> TwoHits(which, ops, interval))
  {
    if ops != [] {
      var before := ops[..|ops| - 1];
      var op := ops[|ops| - 1];
      assert ops == before + [op];
      CountersAreStreaks(which, before, interval, accepted);
      CounterSteps(which, After(before, interval, accepted), op);
      OneHitSteps(which, before, op, interval);
      TwoHitsSteps(which, before, op, interval);
      hide OneHit, TwoHits, Step, Hits, Breaks, Counter;
    }
  }

  lemma ReportsByCounters(g: Guard, op: Op)
    ensures var (h, report) := Step(g, op);
            && (report.Some? && !report.value.recovered <==> !g.engaged && Slow(op, g.interval) && g.over >= 2)
            && (report.Some? && report.value.recovered <==> g.engaged && Half(op, g.interval) && g.under >= 2)
            && (g.engaged != h.engaged <==> report.Some?)
            && (report.Some? ==>
                  && op.Round? && report.value.intervalMs == g.interval / 1_000_000
                  && report.value.cycleMs == op.c.dur / 1_000_000
                  && report.value.effectiveMs == h.effective / 1_000_000 && report.value.accepted == h.accepted)
  {
  }

  /** Every report, exactly: a departure when the guard was at rest and this is the third
      slow round unbroken by a fitting one; a recovery when it was engaged and this is
      the third round within half the requested interval since the last slow one. It names
      the interval asked for, the round, and the period from then on. */
  lemma ReportsExactly(ops: seq<Op>, interval: nat, accepted: bool)
    requires ops != []
    ensures var was := After(ops[..|ops| - 1], interval, accepted).engaged;
            var report := Reported(ops, interval, accepted);
            && (report.Some? && !report.value.recovered <==> !was && ThreeHits(OfSlow, ops, interval))
            && (report.Some? && report.value.recovered <==> was && ThreeHits(OfHalf, ops, interval))
            && (report.Some? ==>
                  && report.value.intervalMs == interval / 1_000_000
                  && report.value.cycleMs == ops[|ops| - 1].c.dur / 1_000_000
                  && report.value.effectiveMs == After(ops, interval, accepted).effective / 1_000_000
                  && report.value.accepted == After(ops, interval, accepted).accepted)
  {
    var before := ops[..|ops| - 1];
    CountersAreStreaks(OfSlow, before, interval, accepted);
    CountersAreStreaks(OfHalf, before, interval, accepted);
    ReportsByCounters(After(before, interval, accepted), ops[|ops| - 1]);
    hide Step, TwoHits, OneHit, Slow, Half;
  }

  /** The reports of a run, in order. */
  function AllReports(ops: seq<Op>, interval: nat, accepted: bool): seq<Report> {
    if ops == [] then []
    else
      AllReports(ops[..|ops| - 1], interval, accepted)
      + match Reported(ops, interval, accepted) case Some(r) => [r] case None => []
  }

  /** Departure, recovery, departure, and so on: an odd number of them while engaged. */
  predicate Tells(g: Guard, reports: seq<Report>) {
    && (g.engaged <==> |reports| % 2 == 1)
    && forall k | 0 <= k < |reports| :: reports[k].recovered <==> k % 2 == 1
  }

  /** Reports alternate departure, recovery, departure: one per episode, whatever the
      rounds and whenever the operator accepts. */
  lemma {:induction false} ReportsAlternate(ops: seq<Op>, interval: nat, accepted: bool)
    ensures Tells(After(ops, interval, accepted), AllReports(ops, interval, accepted))
  {
    hide *;
    if ops == [] {
      NothingTold(interval, accepted);
    } else {
      var before := ops[..|ops| - 1];
      ReportsAlternate(before, interval, accepted);
      RunsUnfold(ops, interval, accepted);
      ReportTurns(After(before, interval, accepted), ops[|ops| - 1]);
      OneMoreTold(AllReports(before, interval, accepted), After(before, interval, accepted),
                  After(ops, interval, accepted), Reported(ops, interval, accepted));
    }
  }

  lemma NothingTold(interval: nat, accepted: bool)
    ensures Tells(After([], interval, accepted), AllReports([], interval, accepted))
  {
  }

  lemma RunsUnfold(ops: seq<Op>, interval: nat, accepted: bool)
    requires ops != []
    ensures var before, last := ops[..|ops| - 1], ops[|ops| - 1];
            var report := Reported(ops, interval, accepted);
            && (After(ops, interval, accepted), report) == Step(After(before, interval, accepted), last)
            && AllReports(ops, interval, accepted)
               == AllReports(before, interval, accepted) + match report case Some(r) => [r] case None => []
  {
    hide Step;
  }

  lemma ReportTurns(g: Guard, op: Op)
    ensures var (h, report) := Step(g, op);
            && (g.engaged != h.engaged <==> report.Some?)
            && (report.Some? ==> (report.value.recovered <==> g.engaged))
  {
    hide Slow, Half;
    ReportsByCounters(g, op);
  }

  lemma OneMoreTold(reports: seq<Report>, g: Guard, h: Guard, report: Option<Report>)
    requires Tells(g, reports)
    requires g.engaged != h.engaged <==> report.Some?
    requires report.Some? ==> (report.value.recovered <==> g.engaged)
    ensures Tells(h, reports + match report case Some(r) => [r] case None => [])
  {
  }

  // --- the period -----------------------------------------------------------------------

  /** dep is where the guard engaged for the episode still open after these operations. */
  ghost predicate EngagedAt(ops: seq<Op>, interval: nat, accepted: bool, dep: nat) {
    && dep < |ops|
    && ReportAt(ops, interval, accepted, dep).Some?
    && !ReportAt(ops, interval, accepted, dep).value.recovered
    && forall k: nat | dep < k < |ops| :: ReportAt(ops, interval, accepted, k).None?
  }

  /** w is the longest slow round since the guard engaged. */
  ghost predicate IsWorst(ops: seq<Op>, interval: nat, dep: nat, w: nat) {
    && (exists k: nat :: dep <= k < |ops| && Slow(ops[k], interval) && ops[k].c.dur == w)
    && (forall k: nat | dep <= k < |ops| && Slow(ops[k], interval) :: ops[k].c.dur <= w)
  }

  /** The state of the period against the history. */
  ghost predicate PeriodIs(ops: seq<Op>, interval: nat, accepted: bool, g: Guard, dep: nat) {
    && g.interval == interval
    && (g.accepted <==> accepted || Accepts in ops)
    && (!g.engaged || g.accepted ==> g.effective == interval)
    && (g.engaged ==> EngagedAt(ops, interval, accepted, dep) && IsWorst(ops, interval, dep, g.cycle) && g.cycle > interval)
    && (g.engaged && !g.accepted ==> g.effective == Max(Min(g.cycle * 2, interval * 8), interval))
  }

  /** The effective period is the interval unless the guard is engaged and the operator
      has not accepted; then it is twice the worst slow round since engaging, between
      one and eight intervals. */
  lemma {:induction false} PeriodExactly(ops: seq<Op>, interval: nat, accepted: bool) returns (dep: nat)
    ensures PeriodIs(ops, interval, accepted, After(ops, interval, accepted), dep)
  {
    dep := 0;
    if ops != [] {
      var before := ops[..|ops| - 1];
      var op := ops[|ops| - 1];
      dep := PeriodExactly(before, interval, accepted);
      assert ops == before + [op];
      dep := NextPeriod(before, op, interval, accepted, dep);
    }
  }

  lemma NextPeriod(before: seq<Op>, op: Op, interval: nat, accepted: bool, dep: nat) returns (dep': nat)
    requires PeriodIs(before, interval, accepted, After(before, interval, accepted), dep)
    ensures PeriodIs(before + [op], interval, accepted, After(before + [op], interval, accepted), dep')
  {
    var g := After(before, interval, accepted);
    var ops := before + [op];
    var h := Step(g, op).0;
    assert ops[..|before|] == before && After(ops, interval, accepted) == h;
    assert Accepts in ops <==> Accepts in before || op == Accepts;
    ReportsByCounters(g, op);
    assert ops[..|before| + 1] == ops;
    assert ReportAt(ops, interval, accepted, |before|) == Step(g, op).1;
    dep' := dep;
    if h.engaged {
      if g.engaged {
        SameReports(before, op, interval, accepted, dep);
        WorstGrows(before, op, interval, dep, g.cycle);
      } else {
        dep' := |before|;
        assert ops[dep'] == op;
      }
    }
    hide EngagedAt, IsWorst, After, ReportAt, Reported;
    PeriodSteps(g, op);
  }

  lemma PeriodSteps(g: Guard, op: Op)
    ensures var h := Step(g, op).0;
            && h.interval == g.interval
            && (h.accepted <==> g.accepted || op == Accepts)
            && (h.engaged && g.engaged ==>
                  h.cycle == if Slow(op, g.interval) && op.c.dur > g.cycle then op.c.dur else g.cycle)
            && (h.engaged && !g.engaged ==> Slow(op, g.interval) && h.cycle == op.c.dur)
  {
  }

  lemma SameReports(before: seq<Op>, op: Op, interval: nat, accepted: bool, dep: nat)
    requires EngagedAt(before, interval, accepted, dep)
    requires ReportAt(before + [op], interval, accepted, |before|).None?
    ensures EngagedAt(before + [op], interval, accepted, dep)
  {
    hide Reported;
    var ops := before + [op];
    forall k: nat | k < |before|
      ensures ReportAt(ops, interval, accepted, k) == ReportAt(before, interval, accepted, k)
    {
      assert ops[..k + 1] == before[..k + 1];
    }
  }

  lemma WorstGrows(before: seq<Op>, op: Op, interval: nat, dep: nat, w: nat)
    requires dep < |before| && IsWorst(before, interval, dep, w)
    ensures IsWorst(before + [op], interval, dep, if Slow(op, interval) && op.c.dur > w then op.c.dur else w)
  {
    var ops := before + [op];
    var k: nat :| dep <= k < |before| && Slow(before[k], interval) && before[k].c.dur == w;
    assert ops[k] == before[k] && ops[|before|] == op;
    hide Slow;
  }

  /** So the period never leaves the range from one interval to eight. */
  lemma PeriodStaysInRange(ops: seq<Op>, interval: nat, accepted: bool)
    ensures interval <= After(ops, interval, accepted).effective <= 8 * interval
  {
    var _ := PeriodExactly(ops, interval, accepted);
  }
}
