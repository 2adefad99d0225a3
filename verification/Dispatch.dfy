/** Draining the outbox (pkg/notify/dispatcher.go, pkg/storage/notify_store.go:188-337).

    What a delivery meets (is there a sink, what did it answer, when, was the outcome
    saved) is a function of the delivery: the environment's answer, which no schedule of
    the workers changes. */
module Dispatch {
  import opened Basics
  import opened Backoff

  datatype State = Pending | Sent | Dead

  /** One outbox row; times are whole seconds. */
  datatype Row = Row(sink: string, attempts: nat, nextTry: int, state: State)

  /** One row as read for a drain. */
  datatype Queued = Queued(id: int, sink: string, attempts: nat)

  datatype Outcome = NoSink | Delivered | Refused(permanent: bool)

  /** `at` is the clock after the send, in nanoseconds; `saved` is whether the row was written. */
  datatype Result = Result(outcome: Outcome, at: int, saved: bool)

  const BATCH := 20

  /** A timestamp is stored to the second. */
  function Seconds(t: int): int { t / SECOND }

  predicate GivesUp(q: Queued, outcome: Outcome) {
    outcome.NoSink? || (outcome.Refused? && (outcome.permanent || q.attempts + 1 >= MAX_ATTEMPTS))
  }

  /** The row of a delivery after it was attempted. */
  function After(row: Row, q: Queued, r: Result): Row {
    if !r.saved then row
    else if r.outcome.Delivered? then row.(state := Sent, attempts := row.attempts + 1)
    else row.(attempts := row.attempts + 1,
              nextTry := Seconds(r.at + Wait(q.attempts + 1)),
              state := if GivesUp(q, r.outcome) then Dead else Pending)
  }

  function Write(rows: map<int, Row>, q: Queued, r: Result): map<int, Row> {
    if q.id in rows then rows[q.id := After(rows[q.id], q, r)] else rows
  }

  /** Deliveries one after another: what a single worker would leave. */
  function WriteAll(rows: map<int, Row>, qs: seq<Queued>, results: Queued -> Result): map<int, Row> {
    if qs == [] then rows
    else Write(WriteAll(rows, qs[..|qs| - 1], results), qs[|qs| - 1], results(qs[|qs| - 1]))
  }

  /** The deliveries for one destination, in order. */
  function For(qs: seq<Queued>, sink: string): seq<Queued> {
    if qs == [] then []
    else For(qs[..|qs| - 1], sink) + if qs[|qs| - 1].sink == sink then [qs[|qs| - 1]] else []
  }

  ghost predicate DistinctIds(qs: seq<Queued>) {
    forall i, j | 0 <= i < j < |qs| :: qs[i].id != qs[j].id
  }

  lemma WriteStep(rows: map<int, Row>, qs: seq<Queued>, q: Queued, results: Queued -> Result)
    ensures WriteAll(rows, qs + [q], results) == Write(WriteAll(rows, qs, results), q, results(q))
  {
    assert (qs + [q])[..|qs|] == qs;
    hide Write;
  }

  lemma ForStep(qs: seq<Queued>, q: Queued, sink: string)
    ensures For(qs + [q], sink) == For(qs, sink) + if q.sink == sink then [q] else []
  {
    assert (qs + [q])[..|qs|] == qs;
  }

  lemma {:induction false} ForHolds(qs: seq<Queued>, sink: string)
    ensures forall i | 0 <= i < |For(qs, sink)| :: For(qs, sink)[i] in qs && For(qs, sink)[i].sink == sink
    ensures forall i | 0 <= i < |qs| && qs[i].sink == sink :: qs[i] in For(qs, sink)
  {
    if qs != [] {
      var front := qs[..|qs| - 1];
      ForHolds(front, sink);
      assert qs == front + [qs[|qs| - 1]];
      forall i | 0 <= i < |qs| && qs[i].sink == sink
        ensures qs[i] in For(qs, sink)
      {
        if i < |front| {
          assert front[i] == qs[i];
        }
      }
    }
  }

  // --- only the per-destination orders matter ------------------------------------------------

  ghost predicate SameForEvery(a: seq<Queued>, b: seq<Queued>) {
    forall sink: string :: For(a, sink) == For(b, sink)
  }

  lemma SameHolds(a: seq<Queued>, b: seq<Queued>, q: Queued)
    requires SameForEvery(a, b) && q in a
    ensures q in b
  {
    ForHolds(a, q.sink);
    ForHolds(b, q.sink);
    var i :| 0 <= i < |a| && a[i] == q;
    assert a[i] in For(a, q.sink);
    hide For;
    assert For(a, q.sink) == For(b, q.sink);
    var j :| 0 <= j < |For(b, q.sink)| && For(b, q.sink)[j] == q;
  }

  lemma {:induction false} NoDuplicatesForEach(a: seq<Queued>)
    requires forall sink: string :: NoDuplicates(For(a, sink))
    ensures NoDuplicates(a)
  {
    if a != [] {
      var front := a[..|a| - 1];
      var q := a[|a| - 1];
      assert a == front + [q];
      forall sink: string
        ensures NoDuplicates(For(front, sink))
      {
        ForStep(front, q, sink);
        assert NoDuplicates(For(a, sink));
        Prefix(For(front, sink), For(a, sink));
      }
      NoDuplicatesForEach(front);
      ForHolds(front, q.sink);
      ForStep(front, q, q.sink);
      hide For;
      assert NoDuplicates(For(a, q.sink));
      forall i | 0 <= i < |front|
        ensures front[i] != q
      {
        if front[i] == q {
          LastIsNew(For(front, q.sink), q);
        }
      }
    }
  }

  lemma Prefix(a: seq<Queued>, b: seq<Queued>)
    requires a <= b && NoDuplicates(b)
    ensures NoDuplicates(a)
  {
  }

  lemma LastIsNew(a: seq<Queued>, q: Queued)
    requires NoDuplicates(a + [q])
    ensures q !in a
  {
    assert forall i | 0 <= i < |a| :: (a + [q])[i] == a[i];
    assert (a + [q])[|a|] == q;
  }

  lemma {:induction false} ForHasNoDuplicates(qs: seq<Queued>, sink: string)
    requires DistinctIds(qs)
    ensures NoDuplicates(For(qs, sink))
  {
    if qs != [] {
      var front := qs[..|qs| - 1];
      ForHasNoDuplicates(front, sink);
      ForHolds(front, sink);
      var f := For(front, sink);
      var q := qs[|qs| - 1];
      forall i | 0 <= i < |f|
        ensures f[i] != q
      {
        hide For;
        var j :| 0 <= j < |front| && front[j] == f[i];
        assert qs[j].id != qs[|qs| - 1].id;
      }
    }
  }

  /** A rearrangement that keeps every destination's order holds each delivery once. */
  lemma SameIsDistinct(a: seq<Queued>, batch: seq<Queued>)
    requires SameForEvery(a, batch) && DistinctIds(batch)
    ensures DistinctIds(a) && Elements(a) == Elements(batch)
  {
    forall sink: string
      ensures NoDuplicates(For(a, sink))
    {
      ForHasNoDuplicates(batch, sink);
      assert For(a, sink) == For(batch, sink);
    }
    NoDuplicatesForEach(a);
    forall q | q in a
      ensures q in batch
    {
      SameHolds(a, batch, q);
    }
    forall q | q in batch
      ensures q in a
    {
      SameHolds(batch, a, q);
    }
    hide For, SameForEvery;
    forall i, j | 0 <= i < j < |a|
      ensures a[i].id != a[j].id
    {
      assert a[i] in a && a[j] in a;
      var k :| 0 <= k < |batch| && batch[k] == a[i];
      var l :| 0 <= l < |batch| && batch[l] == a[j];
      assert a[i] != a[j];
    }
  }

  /** A drain touches its own rows only, each as if it were alone. */
  lemma {:induction false} WriteAllIsPerRow(rows: map<int, Row>, qs: seq<Queued>, results: Queued -> Result)
    requires DistinctIds(qs)
    ensures WriteAll(rows, qs, results).Keys == rows.Keys
    ensures forall id | id in rows && (forall i | 0 <= i < |qs| :: qs[i].id != id) :: WriteAll(rows, qs, results)[id] == rows[id]
    ensures forall i | 0 <= i < |qs| && qs[i].id in rows ::
              WriteAll(rows, qs, results)[qs[i].id] == After(rows[qs[i].id], qs[i], results(qs[i]))
  {
    if qs != [] {
      var front := qs[..|qs| - 1];
      var q := qs[|qs| - 1];
      WriteAllIsPerRow(rows, front, results);
      assert forall i | 0 <= i < |front| :: qs[i] == front[i] && front[i].id != q.id;
      hide After;
      var w := WriteAll(rows, front, results);
      forall id | id in rows && (forall i | 0 <= i < |qs| :: qs[i].id != id)
        ensures WriteAll(rows, qs, results)[id] == rows[id]
      {
        assert qs[|qs| - 1].id != id;
        assert forall i | 0 <= i < |front| :: front[i].id == qs[i].id;
      }
    }
  }

  /** However the destinations were interleaved, the outbox ends as if served one by one. */
  lemma InterleavingDoesNotMatter(rows: map<int, Row>, a: seq<Queued>, batch: seq<Queued>, results: Queued -> Result)
    requires SameForEvery(a, batch) && DistinctIds(batch)
    ensures WriteAll(rows, a, results) == WriteAll(rows, batch, results)
  {
    SameIsDistinct(a, batch);
    WriteAllIsPerRow(rows, a, results);
    WriteAllIsPerRow(rows, batch, results);
    hide WriteAll, For, After, SameForEvery;
    var x, y := WriteAll(rows, a, results), WriteAll(rows, batch, results);
    forall id | id in rows
      ensures x[id] == y[id]
    {
      if i :| 0 <= i < |a| && a[i].id == id {
        assert a[i] in Elements(batch);
        var j :| 0 <= j < |batch| && batch[j] == a[i];
      } else {
        forall j | 0 <= j < |batch|
          ensures batch[j].id != id
        {
          assert batch[j] in Elements(a);
        }
      }
    }
  }

  lemma SomeOfTheBatch(xs: seq<Queued>, batch: seq<Queued>, i: nat)
    requires i < |xs| && For(xs, xs[i].sink) <= For(batch, xs[i].sink)
    ensures xs[i] in batch
  {
    var q := xs[i];
    ForHolds(xs, q.sink);
    ForHolds(batch, q.sink);
    assert q in For(xs, q.sink);
    hide For;
    var j :| 0 <= j < |For(xs, q.sink)| && For(xs, q.sink)[j] == q;
    assert For(batch, q.sink)[j] == q;
  }

  lemma PrefixesHoldEachOnce(xs: seq<Queued>, batch: seq<Queued>)
    requires DistinctIds(batch) && forall sink: string :: For(xs, sink) <= For(batch, sink)
    ensures NoDuplicates(xs)
  {
    hide For, DistinctIds, NoDuplicates;
    forall sink: string
      ensures NoDuplicates(For(xs, sink))
    {
      ForHasNoDuplicates(batch, sink);
      Prefix(For(xs, sink), For(batch, sink));
    }
    NoDuplicatesForEach(xs);
  }

  lemma PrefixesAreOfTheBatch(xs: seq<Queued>, batch: seq<Queued>)
    requires forall sink: string :: For(xs, sink) <= For(batch, sink)
    ensures Elements(xs) <= Elements(batch)
  {
    hide For;
    forall i | 0 <= i < |xs|
      ensures xs[i] in batch
    {
      SomeOfTheBatch(xs, batch, i);
    }
  }

  lemma DistinctIdsHoldEachOnce(batch: seq<Queued>)
    requires DistinctIds(batch)
    ensures NoDuplicates(batch)
  {
  }

  lemma NoMoreThanTheBatch(xs: seq<Queued>, batch: seq<Queued>)
    requires DistinctIds(batch) && forall sink: string :: For(xs, sink) <= For(batch, sink)
    ensures |xs| <= |batch|
  {
    PrefixesHoldEachOnce(xs, batch);
    PrefixesAreOfTheBatch(xs, batch);
    DistinctIdsHoldEachOnce(batch);
    hide *;
    NoDuplicatesCardinality(xs);
    NoDuplicatesCardinality(batch);
    Subset(Elements(xs), Elements(batch));
  }

  lemma {:induction false} Subset(a: set<Queued>, b: set<Queued>)
    requires a <= b
    ensures |a| <= |b|
  {
    if a != {} {
      var x := Member(a);
      Subset(a - {x}, b - {x});
    }
  }
}
