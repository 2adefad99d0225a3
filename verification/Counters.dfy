/** The poll clock's arithmetic (pkg/monitor/counters.go, pkg/monitor/scheduler.go:303-387).
    Values are integers: counters below 2^53 are exact in a float64. */
module Counters {
  import opened Basics
  import opened Text

  const COUNTER32_MAX := 0x1_0000_0000
  const COUNTER64_MAX := 0x1_0000_0000_0000_0000

  function LowerChar(c: char): char {
    if 'A' <= c <= 'Z' then ((c as int) + 32) as char else c
  }

  predicate StartsWith(s: string, word: string) {
    |word| <= |s| && forall i | 0 <= i < |word| :: LowerChar(s[i]) == word[i]
  }

  /** The type name contains "counter", in any case. */
  predicate IsCounterType(typ: string) {
    exists i | 0 <= i <= |typ| :: StartsWith(typ[i..], "counter")
  }

  function CounterModulus(typ: string): int {
    if exists i | 0 <= i < |typ| - 1 :: typ[i] == '6' && typ[i + 1] == '4' then COUNTER64_MAX else COUNTER32_MAX
  }

  /** The change between two samples, a counter wrap repaired and a reset left a gap. */
  function CorrectedDelta(prev: int, current: int, typ: string): Option<int> {
    var d := current - prev;
    if d >= 0 then Some(d)
    else if !IsCounterType(typ) then Some(d)
    else
      var modulus := CounterModulus(typ);
      var wrapped := d + modulus;
      if 0 < wrapped < modulus / 2 then Some(wrapped) else None
  }

  // --- one round ------------------------------------------------------------------

  datatype Reading = Reading(target: string, oid: string, value: Option<int>, error: string, snmpType: string)

  datatype LastSample = LastSample(value: int, typ: string)

  datatype Point = Point(target: string, oid: string, value: Option<int>, delta: Option<int>)

  datatype Stat = Stat(readings: nat, failed: nat)

  type Series = map<string, LastSample>

  function KeyOf(r: Reading): string { r.target + "|" + r.oid }

  /** The delta of a reading against the previous sample of its series; a type that the
      reading does not name is the previous sample's. */
  function DeltaOf(prev: Option<LastSample>, r: Reading): Option<int> {
    if r.value.None? || prev.None? then None
    else CorrectedDelta(prev.value.value, r.value.value, if r.snmpType == "" then prev.value.typ else r.snmpType)
  }

  function Lookup(last: Series, key: string): Option<LastSample> {
    if key in last then Some(last[key]) else None
  }

  function LastAfter(last: Series, r: Reading): Series {
    if r.value.Some? then last[KeyOf(r) := LastSample(r.value.value, r.snmpType)] else last - {KeyOf(r)}
  }

  function PointOf(last: Series, r: Reading): Point {
    Point(r.target, r.oid, r.value, DeltaOf(Lookup(last, KeyOf(r)), r))
  }

  function RoundLast(last: Series, readings: seq<Reading>): Series {
    if readings == [] then last
    else LastAfter(RoundLast(last, readings[..|readings| - 1]), readings[|readings| - 1])
  }

  function RoundPoints(last: Series, readings: seq<Reading>): (points: seq<Point>)
    ensures |points| == |readings|
  {
    if readings == [] then []
    else
      var before := readings[..|readings| - 1];
      RoundPoints(last, before) + [PointOf(RoundLast(last, before), readings[|readings| - 1])]
  }

  function FailedOf(readings: seq<Reading>): nat {
    if readings == [] then 0
    else FailedOf(readings[..|readings| - 1]) + if readings[|readings| - 1].error != "" then 1 else 0
  }

  class Clock {
    var last: Series

    constructor ()
      ensures last == map[]
    {
      last := map[];
    }

    /** tick: a round that was cancelled while it was fetched measures and keeps nothing. */
    method Tick(readings: seq<Reading>, cancelled: bool) returns (points: seq<Point>, stat: Stat)
      modifies this
      ensures cancelled ==> points == [] && stat == Stat(0, 0) && last == old(last)
      ensures !cancelled ==>
                && last == RoundLast(old(last), readings)
                && points == RoundPoints(old(last), readings)
                && stat == Stat(|readings|, FailedOf(readings))
    {
      points, stat := [], Stat(0, 0);
      if cancelled {
        return;
      }
      var i := 0;
      while i < |readings|
        invariant 0 <= i <= |readings|
        invariant last == RoundLast(old(last), readings[..i])
        invariant points == RoundPoints(old(last), readings[..i])
        invariant stat == Stat(i, FailedOf(readings[..i]))
      {
        var r := readings[i];
        assert readings[..i + 1][..i] == readings[..i];
        var key := KeyOf(r);
        stat := stat.(readings := stat.readings + 1);
        if r.error != "" {
          stat := stat.(failed := stat.failed + 1);
        }
        var delta := None;
        if r.value != None {
          if key in last {
            var typ := r.snmpType;
            if typ == "" {
              typ := last[key].typ;
            }
            delta := CorrectedDelta(last[key].value, r.value.value, typ);
          }
          last := last[key := LastSample(r.value.value, r.snmpType)];
        } else {
          last := last - {key};
        }
        points := points + [Point(r.target, r.oid, r.value, delta)];
        i := i + 1;
      }
      assert readings[..i] == readings;
    }
  }
}
