/** When events that could not be written are tried again, and that they all get through once
    writing works (internal/app/router.go:293-335). */
module RouterRetries {
  import opened Basics
  import opened RouterState
  import opened EventRouter
  import opened RouterProtocol
  import opened RouterGuarantee
  import Backoff

  // --- how long a failure is waited out ----------------------------------------------------

  /** The wait after n failed writes in a row: one second, doubled each time, thirty at most. */
  function FailureWait(n: nat): int {
    if n == 0 then 0 else Min(Backoff.Pow2(n - 1) * 1000, 30000)
  }

  /** A write that failed, a write that got through, or a crash: all that moves the wait. */
  predicate MovesTheWait(step: Step) { step.WriteFail? || step.Finish? || step.Crash? }

  /** How many writes have failed since one got through or the process began. */
  function FailuresInARow(steps: seq<Step>): nat {
    if steps == [] then 0
    else
      var last := steps[|steps| - 1];
      if last.WriteFail? then 1 + FailuresInARow(steps[..|steps| - 1])
      else if MovesTheWait(last) then 0
      else FailuresInARow(steps[..|steps| - 1])
  }

  /** When the last of them failed. */
  function LastFailure(steps: seq<Step>): int
    requires FailuresInARow(steps) > 0
  {
    var last := steps[|steps| - 1];
    if last.WriteFail? then last.now else LastFailure(steps[..|steps| - 1])
  }

  /** Nothing is tried again before this time. */
  function RetryTime(steps: seq<Step>): int {
    if FailuresInARow(steps) == 0 then 0 else LastFailure(steps) + FailureWait(FailuresInARow(steps))
  }

  lemma {:induction false} WaitDoubles(n: nat)
    ensures NextBackoff(FailureWait(n)) == FailureWait(n + 1)
  {
    if n > 0 {
      Backoff.Pow2Grows(0, n - 1);
      assert Backoff.Pow2(n) == 2 * Backoff.Pow2(n - 1);
    } else {
      assert Backoff.Pow2(0) == 1;
    }
  }

  lemma OtherStepsKeepTheWait(s: System, step: Step)
    requires Enabled(s, step) && !MovesTheWait(step)
    ensures Next(s, step).v.backoff == s.v.backoff && Next(s, step).v.retryAt == s.v.retryAt
  {
    hide DeferAll, Routable, Unrouted, MarkIfSettled;
  }

  lemma {:induction false} RunUpTo(start: System, steps: seq<Step>)
    requires Possible(start, steps) && steps != []
    ensures Possible(start, steps[..|steps| - 1])
    ensures Enabled(After(start, steps[..|steps| - 1]), steps[|steps| - 1])
    ensures After(start, steps) == Next(After(start, steps[..|steps| - 1]), steps[|steps| - 1])
    decreases |steps|
  {
    hide Enabled, Next;
    var front := steps[..|steps| - 1];
    if |steps| > 1 {
      assert steps[1..][..|steps| - 2] == front[1..];
      RunUpTo(Next(start, steps[0]), steps[1..]);
    } else {
      assert steps[1..] == [];
      assert After(Next(start, steps[0]), []) == Next(start, steps[0]);
    }
  }

  /** Over any run whatever, orderly or not, the wait is that of the failures since the last
      success, counted from the last of them; a success clears it. */
  lemma {:induction false} RetryTimeExactly(start: System, steps: seq<Step>)
    requires Init(start) && Possible(start, steps)
    ensures After(start, steps).v.backoff == FailureWait(FailuresInARow(steps))
    ensures After(start, steps).v.retryAt == RetryTime(steps)
  {
    if steps != [] {
      var front, last := steps[..|steps| - 1], steps[|steps| - 1];
      RunUpTo(start, steps);
      RetryTimeExactly(start, front);
      var s := After(start, front);
      hide Init, Possible, After, Enabled, FailureWait;
      if last.WriteFail? {
        WaitDoubles(FailuresInARow(front));
      } else if !MovesTheWait(last) {
        OtherStepsKeepTheWait(s, last);
      } else {
        assert FailureWait(0) == 0;
      }
    }
  }

  // --- what is deferred, and in what order events are taken ----------------------------------

  /** What a failed routing or a failed write defers waits behind what waits already, up to 2048
      events; only the surplus is dropped from the list. */
  lemma OnlySurplusIsDropped(s: System, step: Step, failed: seq<int>)
    requires Enabled(s, step) && |s.v.deferred| <= 2048
    requires (step.Begin? && failed == Unrouted(s.v.batch, step.route)) || (step.WriteFail? && failed == s.phase.taken)
    ensures var kept := Min(|failed|, 2048 - |s.v.deferred|);
            && Next(s, step).v.deferred == s.v.deferred + failed[..kept]
            && Next(s, step).dropped == s.dropped + multiset(failed[kept..])
  {
    hide Routable, Unrouted, Groups, MarkIfSettled, Decisions, DeferAll, Overflow;
    DeferredIs(s.v.deferred, failed);
  }

  lemma DeferredIs(deferred: seq<int>, es: seq<int>)
    requires |deferred| <= 2048
    ensures var kept := Min(|es|, 2048 - |deferred|);
            DeferAll(deferred, es) == deferred + es[..kept] && Overflow(deferred, es) == es[kept..]
  {
  }

  /** The events handed to the queue, in order. */
  function Pushed(steps: seq<Step>): seq<int> {
    if steps == [] then []
    else (if steps[0].Push? then [steps[0].e] else []) + Pushed(steps[1..])
  }

  predicate BetweenFlushes(step: Step) {
    step.Insert? || step.RegisterEvent? || step.Push? || step.Refuse? || step.ReceiveEvent?
  }

  /** Between flushes, batch and queue together are one line: first in, first out. */
  lemma {:induction false} QueuedInOrder(s: System, steps: seq<Step>)
    requires Possible(s, steps) && forall step | step in steps :: BetweenFlushes(step)
    ensures After(s, steps).v.batch + After(s, steps).v.queue == s.v.batch + s.v.queue + Pushed(steps)
    ensures s.v.batch <= After(s, steps).v.batch
    decreases |steps|
  {
    if steps == [] {
      NothingInLine(s);
    } else {
      hide *;
      assert steps[0] in steps && forall step | step in steps[1..] :: step in steps;
      RunUnfolds(s, steps);
      OneMoreInLine(s, steps[0]);
      QueuedInOrder(Next(s, steps[0]), steps[1..]);
      InLine(s.v.batch + s.v.queue, Pushed([steps[0]]), Pushed(steps[1..]));
    }
  }

  lemma NothingInLine(s: System)
    ensures After(s, []) == s && Pushed([]) == []
  {
  }

  lemma RunUnfolds(s: System, steps: seq<Step>)
    requires steps != [] && Possible(s, steps)
    ensures Enabled(s, steps[0]) && Possible(Next(s, steps[0]), steps[1..])
    ensures After(s, steps) == After(Next(s, steps[0]), steps[1..])
  {
    hide Enabled, Next;
  }

  lemma InLine(a: seq<int>, b: seq<int>, c: seq<int>)
    ensures a + b + c == a + (b + c)
  {
  }

  lemma OneMoreInLine(s: System, step: Step)
    requires Enabled(s, step) && BetweenFlushes(step)
    ensures Next(s, step).v.batch + Next(s, step).v.queue == s.v.batch + s.v.queue + Pushed([step])
    ensures s.v.batch <= Next(s, step).v.batch
    ensures forall rest | rest != [] && rest[0] == step :: Pushed(rest) == Pushed([step]) + Pushed(rest[1..])
  {
    hide MarkIfSettled;
  }

  // --- which events are tried again, and when -----------------------------------------------

  lemma {:induction false} BatchStaysSmall(start: System, steps: seq<Step>)
    requires Init(start) && Possible(start, steps)
    ensures |After(start, steps).v.batch| <= 50
  {
    if steps != [] {
      RunUpTo(start, steps);
      BatchStaysSmall(start, steps[..|steps| - 1]);
      var s := After(start, steps[..|steps| - 1]);
      hide Init, Possible, After;
      match steps[|steps| - 1] {
        case Take(now) => TakeConserves(s.v, now);
        case _ =>
      }
    }
  }

  /** After any run, a look at the deferred events before the retry time moves none of them,
      and one from then on moves the oldest of them, in order, as many as the batch has room. */
  lemma RetriesExactly(start: System, steps: seq<Step>, now: int)
    requires Init(start) && Possible(start, steps) && Enabled(After(start, steps), Take(now))
    ensures var s := After(start, steps);
            var t := Next(s, Take(now));
            var moved := if now < RetryTime(steps) then 0 else Min(50 - |s.v.batch|, |s.v.deferred|);
            && moved >= 0
            && t == s.(v := s.v.(batch := t.v.batch, deferred := t.v.deferred))
            && t.v.batch == s.v.batch + s.v.deferred[..moved]
            && t.v.deferred == s.v.deferred[moved..]
  {
    RetryTimeExactly(start, steps);
    BatchStaysSmall(start, steps);
    hide Possible, After, RetryTime;
    var s := After(start, steps);
    assert s.v.deferred[..0] == [] && s.v.deferred[0..] == s.v.deferred && s.v.batch + [] == s.v.batch;
  }

  // --- once writing works, everything deferred gets through ------------------------------------

  /** One tick of the router when nothing fails. */
  function Round(now: int, route: int -> Routing): seq<Step> {
    [Take(now), Begin(route)] + [WriteOk, Finish]
  }

  /** n ticks, the i-th from `i` on at its own time against its own configuration. */
  function Rounds(n: nat, at: nat -> int, route: nat -> (int -> Routing), i: nat): seq<Step>
    decreases n
  {
    if n == 0 then [] else Round(at(i), route(i)) + Rounds(n - 1, at, route, i + 1)
  }

  /** What waits for the router's own next ticks, oldest first. */
  function Waiting(s: System): seq<int> { s.v.batch + s.v.deferred }

  function RoundsFor(n: nat): nat { (n + 49) / 50 }

  ghost predicate AtRestLive(s: System) {
    s.life.Live? && s.phase.Idle? && |s.v.batch| <= 50 && Recorded(s)
  }

  lemma {:induction false} AllRoutable(pending: seq<int>, route: int -> Routing)
    requires forall e | e in pending :: route(e).Routed?
    ensures Routable(pending, route) == pending && Unrouted(pending, route) == []
  {
    if pending != [] {
      var n, rest := pending[0], pending[1..];
      assert n in pending && route(n).Routed?;
      AllRoutable(rest, route);
      assert [n] + rest == pending;
    }
  }

  lemma TakeFills(s: System, now: int)
    requires AtRestLive(s) && now >= s.v.retryAt
    ensures var k := Min(50, |Waiting(s)|);
            Next(s, Take(now)) == s.(v := s.v.(batch := Waiting(s)[..k], deferred := Waiting(s)[k..]))
  {
    var k := Min(50, |Waiting(s)|);
    var room := Min(50 - |s.v.batch|, |s.v.deferred|);
    assert s.v.deferred[..0] == [];
    assert Waiting(s)[..k] == s.v.batch + s.v.deferred[..room];
    assert Waiting(s)[k..] == s.v.deferred[room..];
  }

  lemma FlushServes(s: System, route: int -> Routing)
    requires AtRestLive(s) && s.v.batch != [] && forall e | e in s.v.batch :: route(e).Routed?
    ensures var t := Next(Next(Next(s, Begin(route)), WriteOk), Finish);
            && AtRestLive(t) && t.v.batch == [] && t.v.deferred == s.v.deferred && t.v.retryAt == 0
            && (forall e | e in s.v.batch :: Written(t, e))
            && (forall e | e in s.decided :: e in t.decided)
  {
    AllRoutable(s.v.batch, route);
    DecisionsAreWritten(s.v.batch, route);
    hide Routable, Unrouted, Groups, MarkIfSettled;
    var t := Next(Next(Next(s, Begin(route)), WriteOk), Finish);
    assert s.v.deferred + [] == s.v.deferred;
    assert Elements(s.v.batch) == Decisions(s.v.batch, route).Keys;
  }

  lemma RoundServes(s: System, now: int, route: int -> Routing)
    requires AtRestLive(s) && now >= s.v.retryAt && Waiting(s) != []
    requires forall e | e in Waiting(s) :: route(e).Routed?
    ensures Possible(s, Round(now, route))
    ensures var k := Min(50, |Waiting(s)|);
            var t := After(s, Round(now, route));
            && AtRestLive(t) && Waiting(t) == Waiting(s)[k..] && t.v.retryAt == 0
            && (forall e | e in Waiting(s)[..k] :: Written(t, e))
            && (forall e | e in s.decided :: e in t.decided)
  {
    TakeFills(s, now);
    var t1 := Next(s, Take(now));
    FlushServes(t1, route);
    hide *;
    FourSteps(s, Take(now), Begin(route), WriteOk, Finish);
  }

  lemma FourSteps(s: System, a: Step, b: Step, c: Step, d: Step)
    requires Enabled(s, a) && Enabled(Next(s, a), b) && Enabled(Next(Next(s, a), b), c)
    requires Enabled(Next(Next(Next(s, a), b), c), d)
    ensures Possible(s, [a, b] + [c, d])
    ensures After(s, [a, b] + [c, d]) == Next(Next(Next(Next(s, a), b), c), d)
  {
    hide Enabled, Next;
    var s2 := Next(Next(s, a), b);
    Nothing(Next(Next(s2, c), d));
    Then(Next(s2, c), d, []);
    Then(s2, c, [d] + []);
    Then(Next(s, a), b, [c] + ([d] + []));
    Then(s, a, [b] + ([c] + ([d] + [])));
    assert [a] + ([b] + ([c] + ([d] + []))) == [a, b] + [c, d];
  }

  /** Nothing waits any more, and all these events are written. */
  ghost predicate AllThrough(s: System, waited: seq<int>) {
    s.v.batch == [] && s.v.deferred == [] && forall e | e in waited :: Written(s, e)
  }

  lemma ThroughAfterARound(waited: seq<int>, k: nat, t: System, u: System)
    requires k <= |waited| && AllThrough(u, waited[k..]) && Recorded(u)
    requires forall e | e in waited[..k] :: Written(t, e)
    requires forall e | e in t.decided :: e in u.decided
    ensures AllThrough(u, waited)
  {
    assert waited == waited[..k] + waited[k..];
  }

  /** Once writing and routing work, one tick for every fifty events that wait, each from the
      retry time on, leaves nothing in the batch or deferred, and every event of both written. */
  lemma {:induction false} EverythingDeferredGetsThrough(s: System, at: nat -> int, route: nat -> (int -> Routing), i: nat)
    requires AtRestLive(s) && at(i) >= s.v.retryAt && forall j: nat :: at(j) >= 0
    requires forall j: nat, e | e in Waiting(s) :: route(j)(e).Routed?
    ensures Possible(s, Rounds(RoundsFor(|Waiting(s)|), at, route, i))
    ensures var t := After(s, Rounds(RoundsFor(|Waiting(s)|), at, route, i));
            AtRestLive(t) && AllThrough(t, Waiting(s)) && forall e | e in s.decided :: e in t.decided
    decreases |Waiting(s)|
  {
    hide Possible, After, Round, Written;
    var w := Waiting(s);
    if w == [] {
      assert RoundsFor(0) == 0;
      Nothing(s);
    } else {
      RoundServes(s, at(i), route(i));
      var k := Min(50, |w|);
      var t := After(s, Round(at(i), route(i)));
      assert forall e | e in w[k..] :: e in w;
      EverythingDeferredGetsThrough(t, at, route, i + 1);
      var rest := Rounds(RoundsFor(|w[k..]|), at, route, i + 1);
      assert Rounds(RoundsFor(|w|), at, route, i) == Round(at(i), route(i)) + rest;
      ThroughAfterARound(w, k, t, After(t, rest));
      RunsCompose(s, Round(at(i), route(i)), rest);
    }
  }
}
