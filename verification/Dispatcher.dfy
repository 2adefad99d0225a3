/** The dispatcher object (pkg/notify/dispatcher.go:135-243) over its outbox. Drain here
    picks any worker at each delivery; DispatchRuns splits a delivery into its steps. */
module Dispatcher {
  import opened Basics
  import opened Backoff
  import opened Dispatch

  // --- grouping by destination -----------------------------------------------------------

  ghost predicate Groups(bySink: map<string, seq<Queued>>, batch: seq<Queued>) {
    forall sink: string :: For(batch, sink) == if sink in bySink then bySink[sink] else []
  }

  lemma GroupOne(bySink: map<string, seq<Queued>>, batch: seq<Queued>, q: Queued)
    requires Groups(bySink, batch)
    ensures Groups(bySink[q.sink := (if q.sink in bySink then bySink[q.sink] else []) + [q]], batch + [q])
  {
    forall sink: string
      ensures For(batch + [q], sink) == For(batch, sink) + if q.sink == sink then [q] else []
    {
      ForStep(batch, q, sink);
    }
    hide For;
    assert For(batch, q.sink) == if q.sink in bySink then bySink[q.sink] else [];
  }

  lemma GroupsNothing()
    ensures Groups(map[], []) && Elements<string>([]) == {} && NoDuplicates<string>([])
  {
  }

  /** Rows into one queue per destination; `order` lists the destinations as first met. */
  method GroupBySink(batch: seq<Queued>) returns (bySink: map<string, seq<Queued>>, order: seq<string>)
    ensures Groups(bySink, batch)
    ensures Elements(order) == bySink.Keys && NoDuplicates(order)
  {
    bySink, order := map[], [];
    GroupsNothing();
    hide *;
    assert batch[..0] == [];
    var i := 0;
    while i < |batch|
      invariant 0 <= i <= |batch|
      invariant Groups(bySink, batch[..i])
      invariant Elements(order) == bySink.Keys && NoDuplicates(order)
    {
      var q := batch[i];
      assert batch[..i + 1] == batch[..i] + [q];
      GroupOne(bySink, batch[..i], q);
      ghost var next := bySink[q.sink := (if q.sink in bySink then bySink[q.sink] else []) + [q]];
      if q.sink !in bySink {
        AddNew(order, q.sink);
        order := order + [q.sink];
        bySink := bySink[q.sink := []];
      }
      bySink := bySink[q.sink := bySink[q.sink] + [q]];
      assert bySink == next;
      i := i + 1;
    }
    assert batch[..i] == batch;
  }

  lemma AddNew(order: seq<string>, sink: string)
    requires NoDuplicates(order) && sink !in Elements(order)
    ensures NoDuplicates(order + [sink]) && Elements(order + [sink]) == Elements(order) + {sink}
  {
    ElementsAppend(order, [sink]);
    assert forall i | 0 <= i < |order| :: order[i] in Elements(order);
  }

  // --- one destination's queue while the drain runs -------------------------------------------

  /** Served, then queued, is the destination's share of the batch; shutdown may cut it short. */
  ghost predicate QueueStands(served: seq<Queued>, queues: map<string, seq<Queued>>, batch: seq<Queued>, done: bool, sink: string) {
    var queue := if sink in queues then queues[sink] else [];
    For(served, sink) + queue <= For(batch, sink) && (!done ==> For(served, sink) + queue == For(batch, sink))
  }

  lemma HeadIsOwn(served: seq<Queued>, queues: map<string, seq<Queued>>, batch: seq<Queued>, done: bool, sink: string)
    requires QueueStands(served, queues, batch, done, sink) && sink in queues && queues[sink] != []
    ensures queues[sink][0].sink == sink
  {
    ForHolds(batch, sink);
    var k := |For(served, sink)|;
    assert For(batch, sink)[k] == (For(served, sink) + queues[sink])[k];
  }

  lemma HeadMoves(done: seq<Queued>, queue: seq<Queued>)
    requires queue != []
    ensures done + [queue[0]] + queue[1..] == done + queue
  {
  }

  lemma ServeOne(served: seq<Queued>, queues: map<string, seq<Queued>>, batch: seq<Queued>, done: bool, active: string, sink: string)
    requires QueueStands(served, queues, batch, done, sink) && QueueStands(served, queues, batch, done, active)
    requires active in queues && queues[active] != []
    ensures QueueStands(served + [queues[active][0]], queues[active := queues[active][1..]], batch, done, sink)
  {
    HeadIsOwn(served, queues, batch, done, active);
    ForStep(served, queues[active][0], sink);
    HeadMoves(For(served, active), queues[active]);
    hide For;
    if sink != active {
      assert For(served, sink) + [] == For(served, sink);
    }
  }

  ghost predicate AllStand(served: seq<Queued>, queues: map<string, seq<Queued>>, batch: seq<Queued>, done: bool) {
    forall sink: string :: QueueStands(served, queues, batch, done, sink)
  }

  lemma QueueAtFirst(queues: map<string, seq<Queued>>, batch: seq<Queued>, done: bool, sink: string)
    requires For(batch, sink) == if sink in queues then queues[sink] else []
    ensures QueueStands([], queues, batch, done, sink)
  {
    assert For([], sink) == [];
    hide For;
    assert [] + For(batch, sink) == For(batch, sink);
  }

  lemma AllStandAtFirst(queues: map<string, seq<Queued>>, batch: seq<Queued>, done: bool)
    requires Groups(queues, batch)
    ensures AllStand([], queues, batch, done)
  {
    hide For, QueueStands;
    forall sink: string
      ensures QueueStands([], queues, batch, done, sink)
    {
      assert For(batch, sink) == if sink in queues then queues[sink] else [];
      QueueAtFirst(queues, batch, done, sink);
    }
  }

  lemma Serves(served: seq<Queued>, queues: map<string, seq<Queued>>, batch: seq<Queued>, done: bool, active: string)
    requires AllStand(served, queues, batch, done) && active in queues && queues[active] != []
    ensures AllStand(served + [queues[active][0]], queues[active := queues[active][1..]], batch, done)
  {
    var served', queues' := served + [queues[active][0]], queues[active := queues[active][1..]];
    assert forall sink: string :: QueueStands(served, queues, batch, done, sink);
    hide QueueStands;
    forall sink: string
      ensures QueueStands(served', queues', batch, done, sink)
    {
      ServeOne(served, queues, batch, done, active, sink);
    }
  }

  lemma EndsOne(served: seq<Queued>, queues: map<string, seq<Queued>>, batch: seq<Queued>, done: bool, active: string, sink: string)
    requires QueueStands(served, queues, batch, done, sink) && active in queues && (done || queues[active] == [])
    ensures QueueStands(served, queues[active := []], batch, done, sink)
  {
    hide For;
    assert For(served, sink) + [] == For(served, sink);
  }

  /** A worker that has nothing left, or sees the shutdown, ends. */
  lemma Ends(served: seq<Queued>, queues: map<string, seq<Queued>>, batch: seq<Queued>, done: bool, active: string)
    requires AllStand(served, queues, batch, done) && active in queues && (done || queues[active] == [])
    ensures AllStand(served, queues[active := []], batch, done)
  {
    var queues' := queues[active := []];
    assert forall sink: string :: QueueStands(served, queues, batch, done, sink);
    hide QueueStands;
    forall sink: string
      ensures QueueStands(served, queues', batch, done, sink)
    {
      EndsOne(served, queues, batch, done, active, sink);
    }
  }

  lemma Cuts(served: seq<Queued>, queues: map<string, seq<Queued>>, batch: seq<Queued>, done: bool)
    requires AllStand(served, queues, batch, done)
    ensures AllStand(served, queues, batch, true)
  {
    hide For;
    assert forall sink: string :: QueueStands(served, queues, batch, done, sink) ==> QueueStands(served, queues, batch, true, sink);
  }

  lemma StandingFits(served: seq<Queued>, queues: map<string, seq<Queued>>, batch: seq<Queued>, done: bool)
    requires AllStand(served, queues, batch, done)
    ensures forall sink: string :: For(served, sink) <= For(batch, sink)
    ensures DistinctIds(batch) ==> |served| <= |batch|
  {
    hide For;
    forall sink: string
      ensures For(served, sink) <= For(batch, sink)
    {
      assert QueueStands(served, queues, batch, done, sink);
    }
    if DistinctIds(batch) {
      NoMoreThanTheBatch(served, batch);
    }
  }

  lemma NothingLeft(served: seq<Queued>, queues: map<string, seq<Queued>>, batch: seq<Queued>)
    requires AllStand(served, queues, batch, false) && forall sink | sink in queues :: queues[sink] == []
    ensures SameForEvery(served, batch)
  {
    hide For;
    forall sink: string
      ensures For(served, sink) == For(batch, sink)
    {
      assert QueueStands(served, queues, batch, false, sink);
      assert For(served, sink) + [] == For(served, sink);
    }
  }

  /** The outbox and the reports after `served`, from what they were. */
  ghost predicate Shows(rows0: map<int, Row>, rows: map<int, Row>, reported0: seq<Queued>, reported: seq<Queued>,
                        served: seq<Queued>, results: Queued -> Result) {
    rows == WriteAll(rows0, served, results) && reported == reported0 + served
  }

  lemma ShowsNothing(rows: map<int, Row>, reported: seq<Queued>, results: Queued -> Result)
    ensures Shows(rows, rows, reported, reported, [], results)
  {
  }

  lemma ShownMeans(rows0: map<int, Row>, rows: map<int, Row>, reported0: seq<Queued>, reported: seq<Queued>,
                   served: seq<Queued>, results: Queued -> Result)
    requires Shows(rows0, rows, reported0, reported, served, results)
    ensures rows == WriteAll(rows0, served, results) && reported == reported0 + served
  {
  }

  lemma ShowsOneMore(rows0: map<int, Row>, rows: map<int, Row>, reported0: seq<Queued>, reported: seq<Queued>,
                     served: seq<Queued>, results: Queued -> Result, q: Queued)
    requires Shows(rows0, rows, reported0, reported, served, results)
    ensures Shows(rows0, Write(rows, q, results(q)), reported0, reported + [q], served + [q], results)
  {
    WriteStep(rows0, served, q, results);
    hide WriteAll, Write;
  }

  class Dispatcher {
    var rows: map<int, Row>
    var reported: seq<Queued>
    var running: bool
    var done: bool

    constructor (rows: map<int, Row>)
      ensures this.rows == rows && reported == [] && !running && !done
    {
      this.rows, reported, running, done := rows, [], false, false;
    }

    method Stop()
      modifies this`done
      ensures done
    {
      done := true;
    }

    method MarkSent(id: int, saved: bool)
      modifies this`rows
      ensures rows == if saved && id in old(rows)
                      then old(rows)[id := old(rows)[id].(state := Sent, attempts := old(rows)[id].attempts + 1)]
                      else old(rows)
    {
      if saved && id in rows {
        rows := rows[id := rows[id].(state := Sent, attempts := rows[id].attempts + 1)];
      }
    }

    method MarkFailed(id: int, nextTry: int, dead: bool, saved: bool)
      modifies this`rows
      ensures rows == if saved && id in old(rows)
                      then old(rows)[id := old(rows)[id].(attempts := old(rows)[id].attempts + 1, nextTry := Seconds(nextTry),
                                                          state := if dead then Dead else Pending)]
                      else old(rows)
    {
      if saved && id in rows {
        rows := rows[id := rows[id].(attempts := rows[id].attempts + 1, nextTry := Seconds(nextTry),
                                     state := if dead then Dead else Pending)];
      }
    }

    method Fail(q: Queued, dead: bool, r: Result)
      requires !r.outcome.Delivered? && (dead <==> GivesUp(q, r.outcome))
      modifies this`rows, this`reported
      ensures rows == Write(old(rows), q, r) && reported == old(reported) + [q]
    {
      hide Wait, GivesUp;
      var next := r.at + Wait(q.attempts + 1);
      MarkFailed(q.id, next, dead, r.saved);
      reported := reported + [q];
    }

    /** deliver: send one queued delivery and record what happened. */
    method Deliver(q: Queued, results: Queued -> Result)
      modifies this`rows, this`reported
      ensures rows == Write(old(rows), q, results(q)) && reported == old(reported) + [q]
    {
      var r := results(q);
      if r.outcome.NoSink? {
        Fail(q, true, r);
        return;
      }
      if r.outcome.Delivered? {
        MarkSent(q.id, r.saved);
        reported := reported + [q];
        return;
      }
      var dead := r.outcome.permanent || q.attempts + 1 >= MAX_ATTEMPTS;
      Fail(q, dead, r);
    }

    /** The workers, one delivery at a time: any worker may be next, and shutdown may come
        before any delivery. */
    method RunWorkers(batch: seq<Queued>, queues0: map<string, seq<Queued>>, results: Queued -> Result)
      returns (ghost served: seq<Queued>)
      requires Groups(queues0, batch) && DistinctIds(batch)
      modifies this`rows, this`reported, this`done
      ensures reported == old(reported) + served && rows == WriteAll(old(rows), served, results)
      ensures old(done) ==> done
      ensures forall sink: string :: For(served, sink) <= For(batch, sink)
      ensures !done ==> SameForEvery(served, batch)
    {
      served := [];
      ghost var rows0, reported0 := rows, reported;
      var queues, left := queues0, queues0.Keys;
      ShowsNothing(rows, reported, results);
      hide *;
      AllStandAtFirst(queues, batch, done);
      StandingFits([], queues, batch, done);
      while left != {}
        invariant left <= queues.Keys && (old(done) ==> done)
        invariant Shows(rows0, rows, reported0, reported, served, results)
        invariant AllStand(served, queues, batch, done)
        invariant forall sink | sink in queues && sink !in left :: queues[sink] == []
        invariant |served| <= |batch|
        decreases |left| + |batch| - |served|
      {
        var sink := Pick(left);
        if * {
          Cuts(served, queues, batch, done);
          Stop();
        }
        if done || queues[sink] == [] {
          Ends(served, queues, batch, done, sink);
          queues, left := queues[sink := []], left - {sink};
        } else {
          var q := queues[sink][0];
          Serves(served, queues, batch, done, sink);
          ShowsOneMore(rows0, rows, reported0, reported, served, results, q);
          Deliver(q, results);
          served, queues := served + [q], queues[sink := queues[sink][1..]];
          StandingFits(served, queues, batch, done);
        }
      }
      StandingFits(served, queues, batch, done);
      if !done {
        NothingLeft(served, queues, batch);
      }
      ShownMeans(rows0, rows, reported0, reported, served, results);
    }

    /** Drain. `batch` is what reading the outbox gave, None when the read failed. */
    method Drain(batch: Option<seq<Queued>>, results: Queued -> Result) returns (ghost served: seq<Queued>)
      requires batch.Some? ==> DistinctIds(batch.value)
      modifies this
      ensures reported == old(reported) + served && rows == WriteAll(old(rows), served, results)
      ensures running == old(running) && (old(done) ==> done)
      ensures old(running) || batch.None? ==> served == []
      ensures !old(running) && batch.Some? ==> forall sink: string :: For(served, sink) <= For(batch.value, sink)
      ensures !old(running) && batch.Some? && !done ==>
                SameForEvery(served, batch.value) && rows == WriteAll(old(rows), batch.value, results)
    {
      served := [];
      if running || batch.None? {
        return;
      }
      hide *;
      running := true;
      var queues, order := GroupBySink(batch.value);
      served := RunWorkers(batch.value, queues, results);
      running := false;
      if !done {
        InterleavingDoesNotMatter(old(rows), served, batch.value, results);
      }
    }
  }
}
