/** One drain as its workers run it (pkg/notify/dispatcher.go:138-243): a goroutine per
    destination, each sending, then writing the row, then reporting, in any interleaving,
    with shutdown at any moment. */
module DispatchRuns {
  import opened Basics
  import opened Dispatch

  /** What a worker has in hand: nothing, a delivery that was sent, or one whose row is written. */
  datatype Hand = Empty | Answered(q: Queued) | Recorded(q: Queued)

  datatype Worker = Worker(queue: seq<Queued>, hand: Hand)

  /** `started`, `written` and `reported` list the sends, the row writes and the results told,
      in the order they happened. */
  datatype System = System(rows: map<int, Row>, workers: map<string, Worker>,
                           started: seq<Queued>, written: seq<Queued>, reported: seq<Queued>, closing: bool)

  datatype Move = Work(sink: string) | Close

  predicate Busy(w: Worker) { w.queue != [] || !w.hand.Empty? }

  predicate Enabled(s: System, m: Move) {
    m.Close? || (m.sink in s.workers && Busy(s.workers[m.sink]))
  }

  function Advance(s: System, sink: string, results: Queued -> Result): System
    requires sink in s.workers && Busy(s.workers[sink])
  {
    var w := s.workers[sink];
    match w.hand
    case Empty =>
      if s.closing then s.(workers := s.workers[sink := Worker([], Empty)])
      else s.(started := s.started + [w.queue[0]],
              workers := s.workers[sink := Worker(w.queue[1..], Answered(w.queue[0]))])
    case Answered(q) =>
      s.(rows := Write(s.rows, q, results(q)), written := s.written + [q],
         workers := s.workers[sink := w.(hand := Recorded(q))])
    case Recorded(q) =>
      s.(reported := s.reported + [q], workers := s.workers[sink := w.(hand := Empty)])
  }

  function Next(s: System, m: Move, results: Queued -> Result): System
    requires Enabled(s, m)
  {
    match m
    case Close => s.(closing := true)
    case Work(sink) => Advance(s, sink, results)
  }

  ghost predicate IsRun(s: System, moves: seq<Move>, results: Queued -> Result)
    decreases |moves|
  {
    moves == [] || (Enabled(s, moves[0]) && IsRun(Next(s, moves[0], results), moves[1..], results))
  }

  ghost function End(s: System, moves: seq<Move>, results: Queued -> Result): System
    requires IsRun(s, moves, results)
    decreases |moves|
  {
    if moves == [] then s else End(Next(s, moves[0], results), moves[1..], results)
  }

  function SinksOf(batch: seq<Queued>): set<string> { set q | q in batch :: q.sink }

  /** The workers as Drain starts them. */
  function Start(rows: map<int, Row>, batch: seq<Queued>): System {
    System(rows, map sink | sink in SinksOf(batch) :: Worker(For(batch, sink), Empty), [], [], [], false)
  }

  ghost predicate Finished(s: System) {
    forall sink | sink in s.workers :: !Busy(s.workers[sink])
  }

  // --- what every step keeps --------------------------------------------------------------

  /** One destination: told, then in hand, then still queued, is its share of the batch in
      order; shutdown may cut that short. */
  ghost predicate Stands(told: seq<Queued>, done: seq<Queued>, w: Worker, whole: seq<Queued>, closing: bool) {
    var line := done + (if w.hand.Answered? then [w.hand.q] else []) + w.queue;
    done == told + (if w.hand.Recorded? then [w.hand.q] else [])
    && line <= whole && (!closing ==> line == whole)
  }

  lemma Drops(told: seq<Queued>, done: seq<Queued>, w: Worker, whole: seq<Queued>)
    requires Stands(told, done, w, whole, true) && w.hand.Empty?
    ensures Stands(told, done, Worker([], Empty), whole, true)
  {
    assert done + [] + [] == done && done + [] + w.queue == done + w.queue;
  }

  lemma Takes(told: seq<Queued>, done: seq<Queued>, w: Worker, whole: seq<Queued>, closing: bool)
    requires Stands(told, done, w, whole, closing) && w.hand.Empty? && w.queue != []
    ensures Stands(told, done, Worker(w.queue[1..], Answered(w.queue[0])), whole, closing)
    ensures w.queue[0] in whole
  {
    assert done + [w.queue[0]] + w.queue[1..] == done + [] + w.queue;
    assert whole[|done|] == (done + [] + w.queue)[|done|] == w.queue[0];
  }

  lemma Records(told: seq<Queued>, done: seq<Queued>, w: Worker, whole: seq<Queued>, closing: bool)
    requires Stands(told, done, w, whole, closing) && w.hand.Answered?
    ensures Stands(told, done + [w.hand.q], w.(hand := Recorded(w.hand.q)), whole, closing)
  {
    assert done + [w.hand.q] + [] + w.queue == done + [w.hand.q] + w.queue;
  }

  lemma Tells(told: seq<Queued>, done: seq<Queued>, w: Worker, whole: seq<Queued>, closing: bool)
    requires Stands(told, done, w, whole, closing) && w.hand.Recorded?
    ensures Stands(told + [w.hand.q], done, w.(hand := Empty), whole, closing)
  {
  }

  ghost predicate InStep(s: System, batch: seq<Queued>, sink: string)
    requires sink in s.workers
  {
    Stands(For(s.reported, sink), For(s.written, sink), s.workers[sink], For(batch, sink), s.closing)
    && (s.workers[sink].hand.Empty? || s.workers[sink].hand.q.sink == sink)
    && For(s.started, sink) == For(s.written, sink) + if s.workers[sink].hand.Answered? then [s.workers[sink].hand.q] else []
  }

  ghost predicate Idle(s: System, sink: string) {
    For(s.started, sink) == [] && For(s.written, sink) == [] && For(s.reported, sink) == []
  }

  ghost predicate Inv(s: System, rows0: map<int, Row>, batch: seq<Queued>, results: Queued -> Result) {
    s.workers.Keys == SinksOf(batch)
    && s.rows == WriteAll(rows0, s.written, results)
    && forall sink: string :: SinkStands(s, batch, sink)
  }

  /** A destination the batch does not name has no worker and no deliveries. */
  ghost predicate SinkStands(s: System, batch: seq<Queued>, sink: string) {
    if sink in s.workers then InStep(s, batch, sink) else Idle(s, sink)
  }

  lemma ForNothing()
    ensures forall sink: string :: For([], sink) == []
  {
  }

  lemma StartHoldsInv(rows: map<int, Row>, batch: seq<Queued>, results: Queued -> Result)
    ensures Inv(Start(rows, batch), rows, batch, results)
  {
    ForNothing();
    var s := Start(rows, batch);
    hide For;
    forall sink: string
      ensures SinkStands(s, batch, sink)
    {
      assert [] + [] + For(batch, sink) == For(batch, sink);
    }
  }

  lemma WorkerStaysInStep(s: System, sink: string, batch: seq<Queued>, results: Queued -> Result)
    requires sink in s.workers && Busy(s.workers[sink]) && InStep(s, batch, sink)
    ensures InStep(Advance(s, sink, results), batch, sink)
  {
    var w := s.workers[sink];
    var told, done, whole := For(s.reported, sink), For(s.written, sink), For(batch, sink);
    match w.hand
    case Empty =>
      if s.closing {
        Drops(told, done, w, whole);
      } else {
        Takes(told, done, w, whole, s.closing);
        OwnSink(batch, sink, w.queue[0]);
        ForStep(s.started, w.queue[0], sink);
      }
      hide For, Stands;
    case Answered(q) =>
      Records(told, done, w, whole, s.closing);
      ForStep(s.written, q, sink);
      hide For, Stands, Write;
    case Recorded(q) =>
      Tells(told, done, w, whole, s.closing);
      ForStep(s.reported, q, sink);
      hide For, Stands;
  }

  lemma OwnSink(batch: seq<Queued>, sink: string, q: Queued)
    requires q in For(batch, sink)
    ensures q.sink == sink
  {
    ForHolds(batch, sink);
    var i :| 0 <= i < |For(batch, sink)| && For(batch, sink)[i] == q;
  }

  predicate NextIsOwn(w: Worker, sink: string) {
    if w.hand.Empty? then w.queue == [] || w.queue[0].sink == sink else w.hand.q.sink == sink
  }

  /** A step of one destination's worker shows nothing to another destination. */
  lemma OthersSeeNothing(s: System, active: string, results: Queued -> Result, sink: string)
    requires active in s.workers && Busy(s.workers[active]) && sink != active
    requires NextIsOwn(s.workers[active], active)
    ensures var s' := Advance(s, active, results);
            For(s'.started, sink) == For(s.started, sink) && For(s'.written, sink) == For(s.written, sink) && For(s'.reported, sink) == For(s.reported, sink)
            && (sink in s'.workers <==> sink in s.workers)
            && (sink in s.workers ==> s'.workers[sink] == s.workers[sink]) && s'.closing == s.closing
  {
    var w := s.workers[active];
    if !w.hand.Empty? {
      ForStep(s.written, w.hand.q, sink);
      ForStep(s.reported, w.hand.q, sink);
    } else if !s.closing {
      ForStep(s.started, w.queue[0], sink);
    }
    hide For, Write;
  }

  lemma RowsFollowTheWrites(s: System, active: string, rows0: map<int, Row>, results: Queued -> Result)
    requires active in s.workers && Busy(s.workers[active]) && s.rows == WriteAll(rows0, s.written, results)
    ensures Advance(s, active, results).rows == WriteAll(rows0, Advance(s, active, results).written, results)
  {
    var hand := s.workers[active].hand;
    OnlyAWriteWrites(s, active, results);
    if hand.Answered? {
      WriteStep(rows0, s.written, hand.q, results);
    }
    hide *;
  }

  lemma OnlyAWriteWrites(s: System, active: string, results: Queued -> Result)
    requires active in s.workers && Busy(s.workers[active])
    ensures var hand := s.workers[active].hand;
            var s' := Advance(s, active, results);
            if hand.Answered? then s'.rows == Write(s.rows, hand.q, results(hand.q)) && s'.written == s.written + [hand.q]
            else s'.rows == s.rows && s'.written == s.written
  {
    hide Write;
  }

  lemma WorkersAreKept(s: System, active: string, results: Queued -> Result)
    requires active in s.workers && Busy(s.workers[active])
    ensures Advance(s, active, results).workers.Keys == s.workers.Keys
  {
    hide Write;
  }

  lemma OthersStay(s: System, active: string, batch: seq<Queued>, results: Queued -> Result, sink: string)
    requires active in s.workers && Busy(s.workers[active]) && sink != active
    requires NextIsOwn(s.workers[active], active)
    requires SinkStands(s, batch, sink)
    ensures SinkStands(Advance(s, active, results), batch, sink)
  {
    OthersSeeNothing(s, active, results, sink);
    hide For, Advance, Stands;
  }

  lemma TheActiveStays(s: System, active: string, batch: seq<Queued>, results: Queued -> Result)
    requires active in s.workers && Busy(s.workers[active]) && SinkStands(s, batch, active)
    ensures SinkStands(Advance(s, active, results), batch, active)
    ensures NextIsOwn(s.workers[active], active)
  {
    WorkersAreKept(s, active, results);
    var w := s.workers[active];
    if w.hand.Empty? && w.queue != [] {
      Takes(For(s.reported, active), For(s.written, active), w, For(batch, active), s.closing);
      OwnSink(batch, active, w.queue[0]);
    }
    WorkerStaysInStep(s, active, batch, results);
    hide For, Advance, Stands;
  }

  lemma AdvanceKeepsInv(s: System, active: string, rows0: map<int, Row>, batch: seq<Queued>, results: Queued -> Result)
    requires Inv(s, rows0, batch, results) && Enabled(s, Work(active))
    ensures Inv(Advance(s, active, results), rows0, batch, results)
  {
    WorkersAreKept(s, active, results);
    RowsFollowTheWrites(s, active, rows0, results);
    TheActiveStays(s, active, batch, results);
    hide WriteAll, Advance, SinkStands;
    forall sink: string
      ensures SinkStands(Advance(s, active, results), batch, sink)
    {
      if sink != active {
        OthersStay(s, active, batch, results, sink);
      }
    }
  }

  lemma ClosingKeepsASink(s: System, batch: seq<Queued>, sink: string)
    requires SinkStands(s, batch, sink)
    ensures SinkStands(s.(closing := true), batch, sink)
  {
    hide For;
  }

  lemma StepKeepsInv(s: System, m: Move, rows0: map<int, Row>, batch: seq<Queued>, results: Queued -> Result)
    requires Inv(s, rows0, batch, results) && Enabled(s, m)
    ensures Inv(Next(s, m, results), rows0, batch, results)
  {
    if m.Close? {
      hide WriteAll, SinkStands;
      forall sink: string
        ensures SinkStands(s.(closing := true), batch, sink)
      {
        ClosingKeepsASink(s, batch, sink);
      }
    } else {
      AdvanceKeepsInv(s, m.sink, rows0, batch, results);
    }
  }

  lemma {:induction false} RunKeepsInv(s: System, moves: seq<Move>, rows0: map<int, Row>, batch: seq<Queued>, results: Queued -> Result)
    requires Inv(s, rows0, batch, results) && IsRun(s, moves, results)
    ensures Inv(End(s, moves, results), rows0, batch, results)
    decreases |moves|
  {
    if moves != [] {
      StepKeepsInv(s, moves[0], rows0, batch, results);
      hide Inv, Next, Enabled;
      RunKeepsInv(Next(s, moves[0], results), moves[1..], rows0, batch, results);
    }
  }

  // --- the theorems ------------------------------------------------------------------------

  /** In every run, whatever was shut down when: each destination's reports are the start of
      its queue, and the outbox is what serving just the written deliveries serially leaves. */
  lemma EveryRunServesInOrder(rows: map<int, Row>, batch: seq<Queued>, moves: seq<Move>, results: Queued -> Result, sink: string)
    requires IsRun(Start(rows, batch), moves, results)
    ensures var s := End(Start(rows, batch), moves, results);
            For(s.reported, sink) <= For(s.written, sink) <= For(s.started, sink) <= For(batch, sink)
            && |For(s.started, sink)| <= |For(s.reported, sink)| + 1
            && s.rows == WriteAll(rows, s.written, results)
  {
    StartHoldsInv(rows, batch, results);
    RunKeepsInv(Start(rows, batch), moves, rows, batch, results);
    var s := End(Start(rows, batch), moves, results);
    hide Start, For, IsRun, End, WriteAll;
    assert SinkStands(s, batch, sink);
  }

  /** A drain that ran to its end without shutdown reported every due delivery exactly once,
      in queue order within each destination, and left the outbox a serial drain leaves. */
  lemma ADrainIsSerial(rows: map<int, Row>, batch: seq<Queued>, moves: seq<Move>, results: Queued -> Result)
    requires DistinctIds(batch) && IsRun(Start(rows, batch), moves, results)
    requires Finished(End(Start(rows, batch), moves, results)) && !End(Start(rows, batch), moves, results).closing
    ensures var s := End(Start(rows, batch), moves, results);
            (forall sink: string :: For(s.reported, sink) == For(batch, sink))
            && DistinctIds(s.reported) && Elements(s.reported) == Elements(batch)
            && s.rows == WriteAll(rows, batch, results)
  {
    StartHoldsInv(rows, batch, results);
    RunKeepsInv(Start(rows, batch), moves, rows, batch, results);
    var s := End(Start(rows, batch), moves, results);
    hide Start, IsRun, End, WriteAll;
    forall sink: string
      ensures For(s.reported, sink) == For(s.written, sink) == For(batch, sink)
    {
      assert SinkStands(s, batch, sink);
      if sink in s.workers {
        assert !Busy(s.workers[sink]);
      } else {
        ForHolds(batch, sink);
        assert sink !in SinksOf(batch);
        NothingFor(batch, sink);
      }
    }
    assert SameForEvery(s.reported, batch) && SameForEvery(s.written, batch);
    SameIsDistinct(s.reported, batch);
    InterleavingDoesNotMatter(rows, s.written, batch, results);
  }

  lemma {:induction false} NothingFor(batch: seq<Queued>, sink: string)
    requires sink !in SinksOf(batch)
    ensures For(batch, sink) == []
  {
    if batch != [] {
      var front := batch[..|batch| - 1];
      assert batch == front + [batch[|batch| - 1]];
      assert batch[|batch| - 1] in batch && batch[|batch| - 1].sink in SinksOf(batch);
      assert forall q | q in front :: q in batch;
      NothingFor(front, sink);
    }
  }

  // --- a drain ends -------------------------------------------------------------------------

  lemma {:induction false} StepsAreCounted(s: System, moves: seq<Move>, results: Queued -> Result)
    requires IsRun(s, moves, results) && !s.closing && forall i | 0 <= i < |moves| :: moves[i].Work?
    ensures var e := End(s, moves, results);
            |e.started| + |e.written| + |e.reported| == |s.started| + |s.written| + |s.reported| + |moves| && !e.closing
    decreases |moves|
  {
    if moves != [] {
      hide Write;
      StepsAreCounted(Next(s, moves[0], results), moves[1..], results);
    }
  }

  /** No drain takes more than three steps a delivery; one that can take none has finished. */
  lemma EveryDrainEnds(rows: map<int, Row>, batch: seq<Queued>, moves: seq<Move>, results: Queued -> Result)
    requires DistinctIds(batch) && IsRun(Start(rows, batch), moves, results)
    requires forall i | 0 <= i < |moves| :: moves[i].Work?
    ensures |moves| <= 3 * |batch|
    ensures (forall sink: string :: !Enabled(End(Start(rows, batch), moves, results), Work(sink)))
            ==> Finished(End(Start(rows, batch), moves, results))
  {
    StepsAreCounted(Start(rows, batch), moves, results);
    assert |Start(rows, batch).started| + |Start(rows, batch).written| + |Start(rows, batch).reported| == 0;
    var s := End(Start(rows, batch), moves, results);
    hide Start, IsRun, End, For, WriteAll;
    forall sink: string
      ensures For(s.reported, sink) <= For(s.written, sink) <= For(s.started, sink) <= For(batch, sink)
    {
      EveryRunServesInOrder(rows, batch, moves, results, sink);
    }
    NoMoreThanTheBatch(s.started, batch);
    NoMoreThanTheBatch(s.written, batch);
    NoMoreThanTheBatch(s.reported, batch);
    if forall sink: string :: !Enabled(s, Work(sink)) {
      forall sink | sink in s.workers
        ensures !Busy(s.workers[sink])
      {
        assert !Enabled(s, Work(sink));
      }
    }
  }
}
