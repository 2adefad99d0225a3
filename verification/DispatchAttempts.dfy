/** Deliveries over many drains (pkg/notify/dispatcher.go, backoff.go, pkg/storage/notify_store.go):
    how often one is sent, and when it is given up. */
module DispatchAttempts {
  import opened Basics
  import opened Backoff
  import opened Dispatch

  /** The outbox, with the sends of each row and whether its last failure was final, both since
      it was queued or last retried by hand. */
  datatype Ledger = Ledger(rows: map<int, Row>, sends: map<int, nat>, final: set<int>)

  datatype Round =
    | Enqueue(id: int, sink: string, now: int)
    | Drained(now: int, batch: seq<Queued>, served: seq<Queued>, results: Queued -> Result)
    | Retry(id: int, now: int)

  predicate DueRow(rows: map<int, Row>, now: int, id: int) {
    id in rows && rows[id].state == Pending && rows[id].nextTry <= now
  }

  /** DueDeliveries: the rows due, longest waiting first, at most twenty. */
  ghost predicate IsDue(rows: map<int, Row>, now: int, batch: seq<Queued>) {
    DistinctIds(batch) && |batch| <= BATCH
    && (forall i | 0 <= i < |batch| ::
          DueRow(rows, now, batch[i].id) && batch[i] == Queued(batch[i].id, rows[batch[i].id].sink, rows[batch[i].id].attempts))
    && (forall i, j | 0 <= i < j < |batch| :: rows[batch[i].id].nextTry <= rows[batch[j].id].nextTry)
    && (forall id | DueRow(rows, now, id) ::
          (exists i :: 0 <= i < |batch| && batch[i].id == id)
          || (|batch| == BATCH && forall i | 0 <= i < |batch| :: rows[batch[i].id].nextTry <= rows[id].nextTry))
  }

  /** `served` is what the workers got to: all of the batch, or less after a shutdown. */
  ghost predicate Possible(l: Ledger, r: Round) {
    match r
    case Enqueue(id, _, _) => id !in l.rows
    case Drained(now, batch, served, _) => IsDue(l.rows, now, batch) && forall sink: string :: For(served, sink) <= For(batch, sink)
    case Retry(_, _) => true
  }

  function SendAll(sends: map<int, nat>, served: seq<Queued>, results: Queued -> Result): map<int, nat> {
    if served == [] then sends
    else
      var rest := SendAll(sends, served[..|served| - 1], results);
      var q := served[|served| - 1];
      if q.id in rest && !results(q).outcome.NoSink? then rest[q.id := rest[q.id] + 1] else rest
  }

  predicate IsFinal(o: Outcome) { o.NoSink? || (o.Refused? && o.permanent) }

  function FinalAll(final: set<int>, served: seq<Queued>, results: Queued -> Result): set<int> {
    if served == [] then final
    else
      var q := served[|served| - 1];
      FinalAll(final, served[..|served| - 1], results) + if IsFinal(results(q).outcome) then {q.id} else {}
  }

  function Next(l: Ledger, r: Round): Ledger {
    match r
    case Enqueue(id, sink, now) => Ledger(l.rows[id := Row(sink, 0, now, Pending)], l.sends[id := 0], l.final - {id})
    case Drained(_, _, served, results) =>
      Ledger(WriteAll(l.rows, served, results), SendAll(l.sends, served, results), FinalAll(l.final, served, results))
    case Retry(id, now) =>
      if id !in l.rows then l
      else Ledger(l.rows[id := Row(l.rows[id].sink, 0, now, Pending)], l.sends[id := 0], l.final - {id})
  }

  ghost predicate IsHistory(l: Ledger, rounds: seq<Round>)
    decreases |rounds|
  {
    rounds == [] || (Possible(l, rounds[0]) && IsHistory(Next(l, rounds[0]), rounds[1..]))
  }

  ghost function Outcomes(l: Ledger, rounds: seq<Round>): Ledger
    requires IsHistory(l, rounds)
    decreases |rounds|
  {
    if rounds == [] then l else Outcomes(Next(l, rounds[0]), rounds[1..])
  }

  /** Every outcome reached its row. */
  ghost predicate Saved(r: Round) {
    r.Drained? ==> forall i | 0 <= i < |r.served| :: r.results(r.served[i]).saved
  }

  ghost predicate RowRight(row: Row, sends: nat, final: bool) {
    sends <= row.attempts <= MAX_ATTEMPTS
    && (row.state == Pending ==> row.attempts < MAX_ATTEMPTS)
    && (row.state == Dead ==> row.attempts == MAX_ATTEMPTS || final)
  }

  ghost predicate Right(l: Ledger) {
    l.rows.Keys == l.sends.Keys && forall id | id in l.rows :: RowRight(l.rows[id], l.sends[id], id in l.final)
  }

  lemma {:induction false} SendAllIsPerRow(sends: map<int, nat>, served: seq<Queued>, results: Queued -> Result)
    requires DistinctIds(served)
    ensures SendAll(sends, served, results).Keys == sends.Keys
    ensures forall id | id in sends && (forall i | 0 <= i < |served| :: served[i].id != id) :: SendAll(sends, served, results)[id] == sends[id]
    ensures forall i | 0 <= i < |served| && served[i].id in sends ::
              SendAll(sends, served, results)[served[i].id]
              == sends[served[i].id] + if results(served[i]).outcome.NoSink? then 0 else 1
  {
    if served != [] {
      var front := served[..|served| - 1];
      var q := served[|served| - 1];
      SendAllIsPerRow(sends, front, results);
      assert forall i | 0 <= i < |front| :: served[i] == front[i] && front[i].id != q.id;
      forall id | id in sends && (forall i | 0 <= i < |served| :: served[i].id != id)
        ensures SendAll(sends, served, results)[id] == sends[id]
      {
        assert served[|served| - 1].id != id;
        assert forall i | 0 <= i < |front| :: front[i].id == served[i].id;
      }
    }
  }

  lemma {:induction false} FinalAllIsPerRow(final: set<int>, served: seq<Queued>, results: Queued -> Result, id: int)
    requires DistinctIds(served)
    ensures (forall i | 0 <= i < |served| :: served[i].id != id) ==> (id in FinalAll(final, served, results) <==> id in final)
    ensures forall i | 0 <= i < |served| && served[i].id == id ::
              id in FinalAll(final, served, results) <==> id in final || IsFinal(results(served[i]).outcome)
  {
    if served != [] {
      var front := served[..|served| - 1];
      FinalAllIsPerRow(final, front, results, id);
      assert forall i | 0 <= i < |front| :: served[i] == front[i];
      hide IsFinal;
    }
  }

  /** What was served is part of what was due. */
  lemma ServedIsDue(rows: map<int, Row>, now: int, batch: seq<Queued>, served: seq<Queued>)
    requires IsDue(rows, now, batch) && forall sink: string :: For(served, sink) <= For(batch, sink)
    ensures DistinctIds(served)
    ensures forall i | 0 <= i < |served| ::
              DueRow(rows, now, served[i].id) && served[i].attempts == rows[served[i].id].attempts
  {
    hide For;
    PartIsDistinct(served, batch);
    forall i | 0 <= i < |served|
      ensures DueRow(rows, now, served[i].id) && served[i].attempts == rows[served[i].id].attempts
    {
      SomeOfTheBatch(served, batch, i);
      var j :| 0 <= j < |batch| && batch[j] == served[i];
    }
  }

  lemma PartIsDistinct(served: seq<Queued>, batch: seq<Queued>)
    requires DistinctIds(batch) && forall sink: string :: For(served, sink) <= For(batch, sink)
    ensures DistinctIds(served)
  {
    hide For;
    forall sink: string
      ensures NoDuplicates(For(served, sink))
    {
      ForHasNoDuplicates(batch, sink);
      Prefix(For(served, sink), For(batch, sink));
    }
    NoDuplicatesForEach(served);
    forall i, j | 0 <= i < j < |served|
      ensures served[i].id != served[j].id
    {
      SomeOfTheBatch(served, batch, i);
      SomeOfTheBatch(served, batch, j);
      var k :| 0 <= k < |batch| && batch[k] == served[i];
      var m :| 0 <= m < |batch| && batch[m] == served[j];
    }
  }

  lemma OneAttempt(row: Row, q: Queued, r: Result, sends: nat, final: bool)
    requires RowRight(row, sends, final) && row.state == Pending && q.attempts == row.attempts && r.saved
    ensures RowRight(After(row, q, r), sends + (if r.outcome.NoSink? then 0 else 1), final || IsFinal(r.outcome))
  {
    hide Wait;
  }

  lemma RowAfterDrain(l: Ledger, r: Round, id: int)
    requires Right(l) && Possible(l, r) && Saved(r) && r.Drained? && id in l.rows
    ensures var l' := Next(l, r);
            id in l'.rows && id in l'.sends && RowRight(l'.rows[id], l'.sends[id], id in l'.final)
  {
    ServedIsDue(l.rows, r.now, r.batch, r.served);
    WriteAllIsPerRow(l.rows, r.served, r.results);
    SendAllIsPerRow(l.sends, r.served, r.results);
    FinalAllIsPerRow(l.final, r.served, r.results, id);
    assert RowRight(l.rows[id], l.sends[id], id in l.final);
    hide WriteAll, SendAll, FinalAll, For, After, IsFinal, RowRight, IsDue, DistinctIds;
    if i :| 0 <= i < |r.served| && r.served[i].id == id {
      var q := r.served[i];
      OneAttempt(l.rows[id], q, r.results(q), l.sends[id], id in l.final);
    }
  }

  lemma DrainKeepsRight(l: Ledger, r: Round)
    requires Right(l) && Possible(l, r) && Saved(r) && r.Drained?
    ensures Right(Next(l, r))
  {
    ServedIsDue(l.rows, r.now, r.batch, r.served);
    WriteAllIsPerRow(l.rows, r.served, r.results);
    SendAllIsPerRow(l.sends, r.served, r.results);
    var l' := Next(l, r);
    assert l'.rows.Keys == l.rows.Keys && l'.sends.Keys == l.sends.Keys;
    hide Next, WriteAll, SendAll, Possible, Saved, RowRight;
    forall id | id in l'.rows
      ensures RowRight(l'.rows[id], l'.sends[id], id in l'.final)
    {
      RowAfterDrain(l, r, id);
    }
  }

  lemma {:induction false} HistoryKeepsRight(l: Ledger, rounds: seq<Round>)
    requires Right(l) && IsHistory(l, rounds) && forall i | 0 <= i < |rounds| :: Saved(rounds[i])
    ensures Right(Outcomes(l, rounds))
    decreases |rounds|
  {
    if rounds != [] {
      var r := rounds[0];
      assert Saved(rounds[0]);
      if r.Drained? {
        DrainKeepsRight(l, r);
      }
      assert Right(Next(l, r)) by {
        hide WriteAll, SendAll, FinalAll;
      }
      hide Next, Possible, Right;
      assert forall i | 0 <= i < |rounds[1..]| :: Saved(rounds[1..][i]) by {
        assert forall i | 0 <= i < |rounds[1..]| :: rounds[1..][i] == rounds[i + 1];
      }
      HistoryKeepsRight(Next(l, r), rounds[1..]);
    }
  }

  /** With outcomes saved, no delivery is sent more than six times unless retried by hand, and
      one is given up only after six attempts or a failure that is final. */
  lemma SixSendsAtMost(rounds: seq<Round>, id: int)
    requires IsHistory(Ledger(map[], map[], {}), rounds) && forall i | 0 <= i < |rounds| :: Saved(rounds[i])
    requires id in Outcomes(Ledger(map[], map[], {}), rounds).rows
    ensures var l := Outcomes(Ledger(map[], map[], {}), rounds);
            id in l.sends && l.sends[id] <= MAX_ATTEMPTS
            && (l.rows[id].state == Dead ==> l.rows[id].attempts == MAX_ATTEMPTS || id in l.final)
            && (l.rows[id].state == Pending ==> l.rows[id].attempts < MAX_ATTEMPTS)
  {
    var none := Ledger(map[], map[], {});
    assert Right(none);
    HistoryKeepsRight(none, rounds);
  }

  // --- the failing family: outcomes that are not saved ------------------------------------------

  function Unsaved(): Queued -> Result { (_: Queued) => Result(Delivered, 0, false) }

  function Again(n: nat): seq<Round> {
    if n == 0 then [] else [Drained(0, TheOne(), TheOne(), Unsaved())] + Again(n - 1)
  }

  function OneQueued(sends: nat): Ledger { Ledger(map[1 := Row("", 0, 0, Pending)], map[1 := sends], {}) }

  function TheOne(): seq<Queued> { [Queued(1, "", 0)] }

  lemma TheOneIsDue(sends: nat)
    ensures IsDue(OneQueued(sends).rows, 0, TheOne())
  {
    var rows := OneQueued(sends).rows;
    assert DueRow(rows, 0, TheOne()[0].id);
    forall id | DueRow(rows, 0, id)
      ensures exists i :: 0 <= i < |TheOne()| && TheOne()[i].id == id
    {
      assert TheOne()[0].id == id;
    }
  }

  lemma TheOneIsUnsaved(rows: map<int, Row>, sends: map<int, nat>)
    requires 1 in rows && 1 in sends
    ensures WriteAll(rows, TheOne(), Unsaved()) == rows
    ensures SendAll(sends, TheOne(), Unsaved()) == sends[1 := sends[1] + 1]
    ensures FinalAll({}, TheOne(), Unsaved()) == {}
  {
    var q := Queued(1, "", 0);
    assert [] + [q] == TheOne() && TheOne()[..0] == [];
    assert SendAll(sends, [], Unsaved()) == sends;
    OneIsWritten(rows, q, Unsaved());
    assert Write(rows, q, Unsaved()(q)) == rows by { assert rows[1 := rows[1]] == rows; }
    hide WriteAll, Write;
  }

  lemma OneIsWritten(rows: map<int, Row>, q: Queued, results: Queued -> Result)
    ensures WriteAll(rows, [q], results) == Write(rows, q, results(q))
  {
    hide Write;
    WriteStep(rows, [], q, results);
    assert [] + [q] == [q];
    assert WriteAll(rows, [], results) == rows;
  }

  lemma AgainChangesNothing(sends: nat)
    ensures Possible(OneQueued(sends), Drained(0, TheOne(), TheOne(), Unsaved()))
    ensures Next(OneQueued(sends), Drained(0, TheOne(), TheOne(), Unsaved())) == OneQueued(sends + 1)
  {
    TheOneIsDue(sends);
    TheOneIsUnsaved(OneQueued(sends).rows, OneQueued(sends).sends);
    hide IsDue, For, WriteAll, SendAll, FinalAll, TheOne, Unsaved;
  }

  /** A delivery whose outcome is never saved is sent again by every drain, without bound. */
  lemma {:induction false} UnsavedIsSentAgain(sends: nat, n: nat)
    ensures IsHistory(OneQueued(sends), Again(n))
    ensures Outcomes(OneQueued(sends), Again(n)) == OneQueued(sends + n)
    decreases n
  {
    hide *;
    if n > 0 {
      AgainChangesNothing(sends);
      UnsavedIsSentAgain(sends + 1, n - 1);
      AgainStep(n);
      OneRoundMore(OneQueued(sends), Again(n));
    } else {
      AgainNever();
      NoRounds(OneQueued(sends));
    }
  }

  lemma OneRoundMore(l: Ledger, rounds: seq<Round>)
    requires rounds != [] && Possible(l, rounds[0]) && IsHistory(Next(l, rounds[0]), rounds[1..])
    ensures IsHistory(l, rounds) && Outcomes(l, rounds) == Outcomes(Next(l, rounds[0]), rounds[1..])
  {
    hide Next, Possible;
  }

  lemma NoRounds(l: Ledger)
    ensures IsHistory(l, []) && Outcomes(l, []) == l
  {
  }

  lemma AgainNever()
    ensures Again(0) == []
  {
  }

  lemma AgainStep(n: nat)
    requires n > 0
    ensures Again(n) != [] && Again(n)[0] == Drained(0, TheOne(), TheOne(), Unsaved()) && Again(n)[1..] == Again(n - 1)
  {
    hide TheOne, Unsaved;
  }

  // --- the waits -------------------------------------------------------------------------------

  /** A delivery that may be tried again waits at least 15 seconds and at most 15 minutes. */
  lemma RetriesWait(row: Row, q: Queued, r: Result)
    requires row.state == Pending && row.attempts < MAX_ATTEMPTS && q.attempts == row.attempts && r.saved
    requires !r.outcome.Delivered? && After(row, q, r).state == Pending
    ensures Seconds(r.at) + 15 <= After(row, q, r).nextTry <= Seconds(r.at) + 900
  {
    WaitsGrow(q.attempts + 1, q.attempts + 1);
    hide Wait;
    LaterByWholeSeconds(r.at, Wait(q.attempts + 1));
  }

  lemma LaterByWholeSeconds(at: int, wait: int)
    requires SHORTEST <= wait <= LONGEST
    ensures Seconds(at) + 15 <= Seconds(at + wait) <= Seconds(at) + 900
  {
    assert at + SHORTEST == at + 15 * SECOND && at + LONGEST == at + 900 * SECOND;
  }

  /** `k` transient failures in a row. */
  function Failed(row: Row, id: int, ats: seq<int>): Row {
    if ats == [] then row
    else
      var was := Failed(row, id, ats[..|ats| - 1]);
      After(was, Queued(id, was.sink, was.attempts), Result(Refused(false), ats[|ats| - 1], true))
  }

  /** A delivery that only ever fails transiently is dead at its sixth attempt and not before. */
  lemma {:induction false} SixFailuresMakeADeadLetter(row: Row, id: int, ats: seq<int>)
    requires row.state == Pending && row.attempts == 0 && |ats| <= MAX_ATTEMPTS
    ensures Failed(row, id, ats).attempts == |ats|
    ensures Failed(row, id, ats).state == if |ats| == MAX_ATTEMPTS then Dead else Pending
  {
    hide Wait;
    if ats != [] {
      SixFailuresMakeADeadLetter(row, id, ats[..|ats| - 1]);
    }
  }

  /** The waits of its failures double: after the k-th, 15 seconds times 2^(k-1) from that failure. */
  lemma {:induction false} SuccessiveWaitsDouble(row: Row, id: int, ats: seq<int>)
    requires row.state == Pending && row.attempts == 0 && 1 <= |ats| <= 5
    ensures var next := Failed(row, id, ats).nextTry;
            next == (ats[|ats| - 1] / 1_000_000_000) + (match |ats| case 1 => 15 case 2 => 30 case 3 => 60 case 4 => 120 case _ => 240)
  {
    var n := |ats|;
    SixFailuresMakeADeadLetter(row, id, ats[..n - 1]);
    NoOverflow(n - 1);
    assert Pow2(0) == 1 && Pow2(1) == 2 && Pow2(2) == 4 && Pow2(3) == 8 && Pow2(4) == 16;
    WholeSecondsLater(ats[n - 1], Pow2(n - 1) * 15);
    hide Unbounded, Pow2, Failed;
    var was := Failed(row, id, ats[..n - 1]);
    assert was.attempts == n - 1;
    FailedOnce(row, id, ats);
  }

  lemma FailedOnce(row: Row, id: int, ats: seq<int>)
    requires ats != []
    ensures var was := Failed(row, id, ats[..|ats| - 1]);
            Failed(row, id, ats).nextTry == Seconds(ats[|ats| - 1] + Wait(was.attempts + 1))
  {
    hide Wait;
  }

  lemma WholeSecondsLater(at: int, seconds: int)
    ensures Seconds(at + seconds * SECOND) == at / 1_000_000_000 + seconds
  {
  }

  // --- the fate of one delivery -------------------------------------------------------------------

  /** Its attempts one after another, each outcome saved. */
  function Attempted(row: Row, id: int, rs: seq<Result>): Row {
    if rs == [] then row
    else
      var was := Attempted(row, id, rs[..|rs| - 1]);
      After(was, Queued(id, was.sink, was.attempts), rs[|rs| - 1])
  }

  predicate Transient(r: Result) { r.outcome.Refused? && !r.outcome.permanent }

  /** A delivery that failed transiently before is, after its n-th attempt, sent when that got
      through, dead when there is no sink any more or the failure is final, dead too when it was
      the sixth, and otherwise waiting for the next. */
  lemma {:induction false} FateOfADelivery(row: Row, id: int, rs: seq<Result>)
    requires row.state == Pending && row.attempts == 0 && 1 <= |rs| <= 6
    requires forall k | 0 <= k < |rs| :: rs[k].saved
    requires forall k | 0 <= k < |rs| - 1 :: Transient(rs[k])
    ensures var last, end := rs[|rs| - 1].outcome, Attempted(row, id, rs);
            && end.attempts == |rs| && end.sink == row.sink
            && end.state == match last
                            case Delivered => Sent
                            case NoSink => Dead
                            case Refused(permanent) => if permanent || |rs| == 6 then Dead else Pending
  {
    hide Wait;
    var front := rs[..|rs| - 1];
    if front != [] {
      assert forall k | 0 <= k < |front| :: front[k] == rs[k];
      assert Transient(rs[|front| - 1]);
      FateOfADelivery(row, id, front);
    }
  }
}
