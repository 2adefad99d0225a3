/** What the deltas of a Counter32 series are worth (section 7.1.6 of RFC 2578;
    pkg/monitor/counters.go:46-62, pkg/monitor/scheduler.go:326-362). */
module CounterRuns {
  import opened Basics
  import opened Text
  import opened Counters

  predicate IsCounter32(typ: string) { IsCounterType(typ) && CounterModulus(typ) == COUNTER32_MAX }

  /** What the agent shows of a true total. */
  function Shown(total: nat): nat { total % COUNTER32_MAX }

  // --- one delta ------------------------------------------------------------------

  /** A delta is exact, a gap, or off by whole moduli, and which one is decided: it is the
      true advance exactly when that is below 2^32 and, if the counter wrapped, below
      2^31; it is a gap exactly when the counter shows less and what it shows as the
      advance is at least 2^31. */
  lemma DeltaExactly(before: nat, after: nat, typ: string)
    requires before <= after && IsCounter32(typ)
    ensures var delta := CorrectedDelta(Shown(before), Shown(after), typ);
            var advance := after - before;
            && (delta == Some(advance) <==>
                  advance < COUNTER32_MAX && (Shown(before) <= Shown(after) || advance < COUNTER32_MAX / 2))
            && (delta == None <==> Shown(after) < Shown(before) && advance % COUNTER32_MAX >= COUNTER32_MAX / 2)
            && (delta.Some? ==> delta.value == advance % COUNTER32_MAX)
  {
    var m := COUNTER32_MAX;
    var d := Shown(after) - Shown(before);
    var k := after / m - before / m;
    assert after - before == k * m + d;
    if d >= 0 {
      RemainderIs(after - before, k, d);
    } else {
      RemainderIs(after - before, k - 1, d + m);
    }
  }

  lemma RemainderIs(n: int, k: int, r: int)
    requires n == k * COUNTER32_MAX + r && 0 <= r < COUNTER32_MAX
    ensures n % COUNTER32_MAX == r
    ensures n >= 0 ==> k >= 0
  {
  }

  // --- a series over many polls -----------------------------------------------------

  /** One poll of a series: the true total then, or no value. */
  datatype Poll = Answered(total: nat) | Missed

  function ReadingOf(target: string, oid: string, typ: string, poll: Poll): Reading {
    Reading(target, oid, if poll.Answered? then Some(Shown(poll.total)) else None, "", typ)
  }

  /** Totals only grow, and by less than `bound` between answers with no miss between. */
  predicate AdvancesBelow(polls: seq<Poll>, bound: int) {
    forall i | 0 < i < |polls| && polls[i - 1].Answered? && polls[i].Answered? ::
      polls[i - 1].total <= polls[i].total < polls[i - 1].total + bound
  }

  /** The last sample a series holds after some polls. */
  function Held(polls: seq<Poll>, typ: string): Option<LastSample> {
    if polls == [] || polls[|polls| - 1].Missed? then None
    else Some(LastSample(Shown(polls[|polls| - 1].total), typ))
  }

  /** The delta point of poll i. */
  function DeltaAt(polls: seq<Poll>, i: nat, target: string, oid: string, typ: string): Option<int>
    requires i < |polls|
  {
    DeltaOf(Held(polls[..i], typ), ReadingOf(target, oid, typ, polls[i]))
  }

  /** A delta is never a wrong number: poll i has one only when it and the poll before
      were answered, and then it is the true advance or, after a wrap of 2^31 or more,
      a gap. */
  lemma NeverAWrongNumber(polls: seq<Poll>, i: nat, target: string, oid: string, typ: string)
    requires IsCounter32(typ) && AdvancesBelow(polls, COUNTER32_MAX) && i < |polls|
    ensures var delta := DeltaAt(polls, i, target, oid, typ);
            if i > 0 && polls[i - 1].Answered? && polls[i].Answered? then
              var advance := polls[i].total - polls[i - 1].total;
              && (delta == Some(advance) || delta == None)
              && (delta == None <==> Shown(polls[i].total) < Shown(polls[i - 1].total) && advance >= COUNTER32_MAX / 2)
            else delta == None
  {
    if i > 0 {
      assert polls[..i][|polls[..i]| - 1] == polls[i - 1];
      if polls[i - 1].Answered? && polls[i].Answered? {
        DeltaExactly(polls[i - 1].total, polls[i].total, typ);
        RemainderIs(polls[i].total - polls[i - 1].total, 0, polls[i].total - polls[i - 1].total);
      }
    }
  }

  /** The sum of the deltas of polls from+1 to upto. */
  function SumDeltas(polls: seq<Poll>, from: nat, upto: nat, target: string, oid: string, typ: string): int
    requires from <= upto < |polls|
    decreases upto - from
  {
    if from == upto then 0
    else SumDeltas(polls, from, upto - 1, target, oid, typ) + DeltaAt(polls, upto, target, oid, typ).GetOr(0)
  }

  /** When every advance is below 2^31, an unbroken stretch has no gap and its deltas sum
      to the advance of the whole stretch. */
  lemma {:induction false} UnbrokenStretchSumsUp(polls: seq<Poll>, from: nat, upto: nat, target: string, oid: string, typ: string)
    requires IsCounter32(typ) && AdvancesBelow(polls, COUNTER32_MAX / 2) && from <= upto < |polls|
    requires forall i | from <= i <= upto :: polls[i].Answered?
    ensures forall i: nat | from < i <= upto :: DeltaAt(polls, i, target, oid, typ).Some?
    ensures SumDeltas(polls, from, upto, target, oid, typ) == polls[upto].total - polls[from].total
    decreases upto - from
  {
    if from < upto {
      UnbrokenStretchSumsUp(polls, from, upto - 1, target, oid, typ);
      assert AdvancesBelow(polls, COUNTER32_MAX);
      NeverAWrongNumber(polls, upto, target, oid, typ);
    }
  }

  // --- and a round keeps every series apart -------------------------------------------

  /** The readings of one series among a round's. */
  function Of(readings: seq<Reading>, key: string): seq<Reading> {
    if readings == [] then []
    else
      Of(readings[..|readings| - 1], key)
      + if KeyOf(readings[|readings| - 1]) == key then [readings[|readings| - 1]] else []
  }

  function SeriesAfter(prev: Option<LastSample>, rs: seq<Reading>): Option<LastSample> {
    if rs == [] then prev
    else
      var r := rs[|rs| - 1];
      if r.value.Some? then Some(LastSample(r.value.value, r.snmpType)) else None
  }

  /** What a round leaves for a series depends on its own readings alone, and an
      unanswered one breaks it. */
  lemma {:induction false} SeriesAreApart(last: Series, readings: seq<Reading>, key: string)
    ensures Lookup(RoundLast(last, readings), key) == SeriesAfter(Lookup(last, key), Of(readings, key))
  {
    if readings != [] {
      SeriesAreApart(last, readings[..|readings| - 1], key);
    }
  }

  /** So a session polling a series once a round gives it exactly the deltas above. */
  lemma {:induction false} RoundsHoldTheSeries(rounds: seq<seq<Reading>>, polls: seq<Poll>, target: string, oid: string, typ: string)
    requires |rounds| == |polls|
    requires forall i | 0 <= i < |rounds| ::
               Of(rounds[i], target + "|" + oid) == [ReadingOf(target, oid, typ, polls[i])]
    ensures Lookup(LastOver(rounds), target + "|" + oid) == Held(polls, typ)
  {
    if rounds != [] {
      var n := |rounds| - 1;
      RoundsHoldTheSeries(rounds[..n], polls[..n], target, oid, typ);
      SeriesAreApart(LastOver(rounds[..n]), rounds[n], target + "|" + oid);
    }
  }

  function LastOver(rounds: seq<seq<Reading>>): Series {
    if rounds == [] then map[]
    else RoundLast(LastOver(rounds[..|rounds| - 1]), rounds[|rounds| - 1])
  }

  lemma {:induction false} PointAt(last: Series, readings: seq<Reading>, k: nat)
    requires k < |readings|
    ensures RoundPoints(last, readings)[k] == PointOf(RoundLast(last, readings[..k]), readings[k])
  {
    var before := readings[..|readings| - 1];
    if k < |before| {
      PointAt(last, before, k);
      assert before[..k] == readings[..k];
    }
  }

  /** ... and its point in the next round carries the delta of the series, whatever else
      the session polls. */
  lemma PointIsTheSeriesDelta(rounds: seq<seq<Reading>>, readings: seq<Reading>, k: nat,
                              polls: seq<Poll>, target: string, oid: string, typ: string)
    requires |rounds| + 1 == |polls|
    requires forall i | 0 <= i < |rounds| ::
               Of(rounds[i], target + "|" + oid) == [ReadingOf(target, oid, typ, polls[i])]
    requires k < |readings| && readings[k] == ReadingOf(target, oid, typ, polls[|rounds|])
    requires Of(readings[..k], target + "|" + oid) == []
    ensures RoundPoints(LastOver(rounds), readings)[k].delta == DeltaAt(polls, |rounds|, target, oid, typ)
  {
    PointAt(LastOver(rounds), readings, k);
    SeriesAreApart(LastOver(rounds), readings[..k], target + "|" + oid);
    RoundsHoldTheSeries(rounds, polls[..|rounds|], target, oid, typ);
  }

  // --- which types are counters ----------------------------------------------------------------------

  lemma StartsAsCounter(typ: string)
    requires |typ| >= 7 && forall k | 0 <= k < 7 :: LowerChar(typ[k]) == "counter"[k]
    ensures IsCounterType(typ)
  {
    assert typ[0..] == typ;
    assert StartsWith(typ[0..], "counter");
  }

  /** A Counter32 wraps at 2^32, ... */
  lemma Counter32Wraps()
    ensures IsCounter32("Counter32")
  {
    hide IsCounterType, CounterModulus;
    StartsAsCounter("Counter32");
    NoSixtyFour("Counter32");
  }

  lemma NoSixtyFour(typ: string)
    requires forall i | 0 <= i < |typ| :: typ[i] != '6'
    ensures CounterModulus(typ) == 0x1_0000_0000
  {
  }

  /** ... a Counter64 at 2^64, ... */
  lemma Counter64Wraps()
    ensures IsCounterType("Counter64") && CounterModulus("Counter64") == 0x1_0000_0000_0000_0000
  {
    StartsAsCounter("Counter64");
    hide IsCounterType;
    assert "Counter64"[7] == '6' && "Counter64"[8] == '4';
  }

  /** ... and nothing else that an agent answers with wraps. */
  lemma NothingElseWraps(typ: string)
    requires typ in {"Gauge32", "Integer", "TimeTicks", "Unsigned32", ""}
    ensures !IsCounterType(typ)
  {
    hide IsCounterType;
    NoCounter(typ);
  }

  lemma NoCounter(typ: string)
    requires forall i | 0 <= i <= |typ| - 7 :: typ[i] != 'c' && typ[i] != 'C'
    ensures !IsCounterType(typ)
  {
    forall i | 0 <= i <= |typ|
      ensures !StartsWith(typ[i..], "counter")
    {
      if |typ| - i >= 7 {
        assert typ[i..][0] == typ[i];
      }
    }
  }

  /** What is no counter may fall: its delta is the difference, whichever way it went. */
  lemma GaugesMayFall(prev: int, current: int, typ: string)
    requires !IsCounterType(typ)
    ensures CorrectedDelta(prev, current, typ) == Some(current - prev)
  {
  }

  /** A counter that falls is never said to: it wrapped, or it was reset and leaves a gap. */
  lemma CountersNeverFall(prev: int, current: int, typ: string)
    requires IsCounterType(typ)
    ensures var delta := CorrectedDelta(prev, current, typ);
            delta.Some? ==> delta.value >= 0 && (delta.value == current - prev || current < prev)
  {
  }

  /** Readings are of one series exactly when target and OID are the same. */
  lemma KeysTellReadingsApart(a: Reading, b: Reading)
    requires '|' !in a.oid && '|' !in b.oid
    ensures KeyOf(a) == KeyOf(b) <==> a.target == b.target && a.oid == b.oid
  {
    if KeyOf(a) == KeyOf(b) {
      CutAtLastSeparator(a.target, a.oid, b.target, b.oid);
    }
  }

  /** A type that a reading does not name is that of the sample before, and of that sample only:
      after one nameless reading, a fall of the counter is taken for a fall of a gauge. */
  lemma TypeIsRememberedOnce(target: string, oid: string, a: nat, b: nat, c: nat)
    requires a < COUNTER32_MAX && c < b < a && b - a + COUNTER32_MAX < COUNTER32_MAX / 2
    ensures var first := Reading(target, oid, Some(a), "", "Counter32");
            var second := Reading(target, oid, Some(b), "", "");
            var third := Reading(target, oid, Some(c), "", "");
            var points := RoundPoints(map[], [first, second, third]);
            points[1].delta == Some(b - a + COUNTER32_MAX) && points[2].delta == Some(c - b)
  {
    var first := Reading(target, oid, Some(a), "", "Counter32");
    var second := Reading(target, oid, Some(b), "", "");
    var third := Reading(target, oid, Some(c), "", "");
    var all := [first, second, third];
    hide IsCounterType, CounterModulus, CorrectedDelta, RoundPoints, RoundLast;
    PointAt(map[], all, 1);
    PointAt(map[], all, 2);
    assert all[..1] == [first] && all[..2] == [first, second];
    TwoRoundsHold(first, second);
    FallsOfNoType(a, b, c);
  }

  lemma TwoRoundsHold(first: Reading, second: Reading)
    requires KeyOf(first) == KeyOf(second) && first.value.Some? && second.value.Some?
    ensures Lookup(RoundLast(map[], [first]), KeyOf(first)) == Some(LastSample(first.value.value, first.snmpType))
    ensures Lookup(RoundLast(map[], [first, second]), KeyOf(first)) == Some(LastSample(second.value.value, second.snmpType))
  {
    assert [first, second][..1] == [first] && [first][..0] == [];
    hide KeyOf;
  }

  lemma FallsOfNoType(a: nat, b: nat, c: nat)
    requires a < COUNTER32_MAX && c < b < a && b - a + COUNTER32_MAX < COUNTER32_MAX / 2
    ensures CorrectedDelta(a, b, "Counter32") == Some(b - a + COUNTER32_MAX)
    ensures CorrectedDelta(b, c, "") == Some(c - b)
  {
    Counter32Wraps();
    NothingElseWraps("");
    hide IsCounterType, CounterModulus;
  }

  // --- what a round counts as failed --------------------------------------------------------------------

  /** The readings that came with an error. */
  function Errors(readings: seq<Reading>): set<int> {
    set i | 0 <= i < |readings| && readings[i].error != ""
  }

  /** A round failed as often as readings came with an error; one that has no number, such as a
      text, is no failure. */
  lemma {:induction false} FailuresAreErrors(readings: seq<Reading>)
    ensures FailedOf(readings) == |Errors(readings)|
  {
    if readings != [] {
      var n := |readings| - 1;
      FailuresAreErrors(readings[..n]);
      assert Errors(readings) == Errors(readings[..n]) + if readings[n].error != "" then {n} else {};
    }
  }
}
