/** What the router promises over whole runs, and exactly when. */
module RouterGuarantee {
  import opened Basics
  import opened RouterState
  import opened EventRouter
  import opened RouterProtocol

  // --- safety over every run ----------------------------------------------------

  lemma {:induction false} RunKeepsInv(s: System, steps: seq<Step>)
    requires Inv(s) && Possible(s, steps) && AllOrderly(s, steps)
    ensures Inv(After(s, steps)) && s.stored <= After(s, steps).stored
    decreases |steps|
  {
    if steps != [] {
      StepKeepsInv(s, steps[0]);
      RunKeepsInv(Next(s, steps[0]), steps[1..]);
    }
  }

  /** Through any interleaving, failed routing or writing, and crash: every event
      accept() answered true for is written or above the stored watermark, and the
      watermark never moves back. */
  lemma NothingAcceptedIsLost(start: System, steps: seq<Step>)
    requires Init(start) && Possible(start, steps) && AllOrderly(start, steps)
    ensures Guarantee(After(start, steps))
    ensures start.stored <= After(start, steps).stored
  {
    RunKeepsInv(start, steps);
    InvImpliesGuarantee(After(start, steps));
  }

  /** Once a replay finds nothing above its mark, everything ever accepted, in any
      life of the process, has all its rows in the outbox. */
  lemma CompletedReplayHasDeliveredEverything(start: System, steps: seq<Step>)
    requires Init(start) && Possible(start, steps) && AllOrderly(start, steps)
    requires var s := After(start, steps);
             s.life.Replaying? && IsNextBatch(s.journal, s.life.mark, ROUTE_BATCH_SIZE, [])
    ensures forall n | n in After(start, steps).accepted :: Written(After(start, steps), n)
    ensures Orderly(After(start, steps), GoLive)
  {
    RunKeepsInv(start, steps);
  }

  /** Every event in flight is in one place; no transaction exceeds the batch size,
      and neither the queue nor the deferred list its depth. */
  lemma EveryOwedEventHasOnePlace(start: System, steps: seq<Step>, n: int)
    requires Init(start) && Possible(start, steps) && AllOrderly(start, steps)
    requires After(start, steps).life.Live?
    ensures var s := After(start, steps);
            && Places(s, n) == (if n in s.v.inflight then 1 else 0)
            && (Owed(s, n) ==> Places(s, n) == 1)
            && |Taken(s.phase)| <= ROUTE_BATCH_SIZE && |s.v.batch| <= ROUTE_BATCH_SIZE
            && |s.v.deferred| <= ROUTE_QUEUE_DEPTH && |s.v.queue| <= ROUTE_QUEUE_DEPTH
  {
    RunKeepsInv(start, steps);
  }

  // --- the mark itself ------------------------------------------------------------

  /** Settling confirms at least the mark promised before the write, whatever was
      registered or refused while the transaction ran. */
  lemma SettleKeepsThePromise(s: System)
    requires Inv(s) && s.life.Live? && s.phase.Settling?
    ensures Next(s, Finish).v.confirmed >= s.phase.mark
    ensures Next(s, Finish).stored >= s.phase.mark
  {
  }

  /** The mark taken is the largest safe one: any larger mark would cover an event
      that stays in flight. */
  lemma MarkIsTheLargestSafeOne(s: System, seqs: set<int>, m: int)
    requires Inv(s) && s.life.Live?
    requires MarkIfSettled(s.v, seqs) < m <= s.v.highest
    ensures exists n | n in s.v.inflight - seqs :: n <= m
  {
    var owed := s.v.inflight - seqs;
    assert owed != {} && Smallest(owed) in owed;
  }

  /** When all that is owed is in a batch that routes, its transaction carries the
      highest event registered as its mark and a decision for every one of them. */
  lemma CleanFlushCatchesUp(s: System, route: int -> Routing)
    requires Marked(s) && Enabled(s, Begin(route))
    requires s.v.inflight == Elements(s.v.batch) && forall n | n in s.v.batch :: route(n).Routed?
    ensures Next(s, Begin(route)).phase.mark == s.v.highest
    ensures Next(s, Begin(route)).phase.decisions.Keys == s.v.inflight
  {
    PartitionIsExact(s.v.batch, route);
    var taken := Routable(s.v.batch, route);
    forall n: int
      ensures n in taken <==> n in s.v.inflight
    {
      assert n in Elements(s.v.batch) <==> n in s.v.batch;
    }
    assert Elements(taken) == s.v.inflight;
    forall n: int
      ensures n in Decisions(taken, route) <==> n in s.v.inflight
    {
    }
  }

  // --- both duties of the environment are needed, exactly ---------------------------

  lemma Nothing(s: System)
    ensures Possible(s, []) && AllOrderly(s, []) && After(s, []) == s
  {
  }

  lemma Then(s: System, step: Step, rest: seq<Step>)
    requires Enabled(s, step) && Possible(Next(s, step), rest)
    ensures Possible(s, [step] + rest)
    ensures After(s, [step] + rest) == After(Next(s, step), rest)
    ensures AllOrderly(s, [step] + rest) == (Orderly(s, step) && AllOrderly(Next(s, step), rest))
  {
    assert ([step] + rest)[1..] == rest;
  }

  /** An event that is owed and not above a confirmed mark is lost by the next flush. */
  lemma LostFromIdle(s: System, e: int) returns (steps: seq<Step>)
    requires s.life.Live? && s.phase.Idle? && Owed(s, e) && e <= s.v.confirmed
    requires s.v.batch != [] || (s.v.queue != [])
    ensures Possible(s, steps) && AllOrderly(s, steps)
    ensures !Guarantee(After(s, steps))
    decreases s.v.batch == []
  {
    if s.v.batch == [] {
      steps := LostFromIdle(Next(s, ReceiveEvent), e);
      Then(s, ReceiveEvent, steps);
      steps := [ReceiveEvent] + steps;
    } else {
      var unroutable := (n: int) => Unroutable;
      NothingRoutable(s.v.batch, unroutable);
      var s1 := Next(s, Begin(unroutable));
      var s2 := Next(s1, WriteOk);
      assert e !in s2.decided && s2.stored >= s.v.confirmed;
      Then(s1, WriteOk, []);
      Then(s, Begin(unroutable), [WriteOk]);
      steps := [Begin(unroutable)] + [WriteOk];
    }
  }

  lemma {:induction false} NothingRoutable(pending: seq<int>, route: int -> Routing)
    requires forall n :: route(n) == Unroutable
    ensures Routable(pending, route) == [] && Groups(pending, route) == {}
  {
    if pending != [] {
      NothingRoutable(pending[1..], route);
    }
  }

  /** The same from any phase of a flush, for an event outside its transaction. */
  lemma LostFromAnyPhase(s: System, e: int) returns (steps: seq<Step>)
    requires s.life.Live? && Owed(s, e) && e <= Floor(s)
    requires s.phase.Writing? ==> e !in s.phase.decisions
    requires s.phase.Settling? ==> s.phase.mark <= s.stored
    requires e in s.v.queue
    ensures Possible(s, steps) && AllOrderly(s, steps)
    ensures !Guarantee(After(s, steps))
  {
    if e <= s.stored {
      steps := [];
    } else if s.phase.Idle? {
      steps := LostFromIdle(s, e);
    } else if s.phase.Writing? {
      var w := Next(s, WriteOk);
      assert e !in w.decided;
      if e <= w.stored {
        Then(s, WriteOk, []);
        steps := [WriteOk];
      } else {
        steps := LostFromSettling(w, e);
        Then(s, WriteOk, steps);
        steps := [WriteOk] + steps;
      }
    } else {
      steps := LostFromSettling(s, e);
    }
  }

  lemma LostFromSettling(s: System, e: int) returns (steps: seq<Step>)
    requires s.life.Live? && s.phase.Settling? && Owed(s, e) && e <= s.v.confirmed
    requires e in s.v.queue
    ensures Possible(s, steps) && AllOrderly(s, steps)
    ensures !Guarantee(After(s, steps))
  {
    steps := LostFromIdle(Next(s, Finish), e);
    Then(s, Finish, steps);
    steps := [Finish] + steps;
  }

  // --- an event in a producer's hands, below the floor, is lost whatever the queue holds --------

  /** The event is with its producer, undecided, and outside the transaction under way. */
  ghost predicate Overtakes(s: System, e: int) {
    && s.life.Live? && e in s.handing && e !in s.decided && e <= Floor(s)
    && |s.v.queue| <= ROUTE_QUEUE_DEPTH
    && match s.phase
       case Idle => true
       case Writing(taken, decisions, _, _) => e !in decisions
       case Settling(_, mark) => mark <= s.stored
  }

  /** It can be handed over as soon as there is room. */
  lemma LostOncePushed(s: System, e: int) returns (steps: seq<Step>)
    requires Overtakes(s, e) && |s.v.queue| < ROUTE_QUEUE_DEPTH
    ensures Possible(s, steps) && AllOrderly(s, steps) && !Guarantee(After(s, steps))
  {
    var p := Next(s, Push(e));
    assert p.v.queue[|p.v.queue| - 1] == e;
    steps := LostFromAnyPhase(p, e);
    Then(s, Push(e), steps);
    steps := [Push(e)] + steps;
  }

  /** A receive makes room, and a flush makes room for the receive. */
  lemma LostFromIdleHands(s: System, e: int) returns (steps: seq<Step>)
    requires Overtakes(s, e) && s.phase.Idle? && s.v.queue != [] && |s.v.batch| < ROUTE_BATCH_SIZE
    ensures Possible(s, steps) && AllOrderly(s, steps) && !Guarantee(After(s, steps))
  {
    var r := Next(s, ReceiveEvent);
    steps := LostOncePushed(r, e);
    Then(s, ReceiveEvent, steps);
    steps := [ReceiveEvent] + steps;
  }

  lemma FinishingKeepsFloor(s: System, e: int)
    requires Overtakes(s, e) && s.phase.Settling?
    ensures Overtakes(Next(s, Finish), e) && Next(s, Finish).phase.Idle?
    ensures Next(s, Finish).v.queue == s.v.queue && Next(s, Finish).v.batch == s.v.batch
  {
  }

  lemma WritingKeepsFloor(s: System, e: int)
    requires Overtakes(s, e) && s.phase.Writing?
    ensures Overtakes(Next(s, WriteOk), e) && Next(s, WriteOk).phase.Settling?
    ensures Next(s, WriteOk).v == s.v
  {
  }

  /** A flush that can route nothing empties the batch all the same. */
  lemma EmptyingKeepsFloor(s: System, e: int, route: int -> Routing)
    requires Overtakes(s, e) && s.phase.Idle? && s.v.batch != [] && forall n :: route(n) == Unroutable
    ensures Overtakes(Next(s, Begin(route)), e) && Next(s, Begin(route)).phase.Writing?
    ensures Next(s, Begin(route)).v.queue == s.v.queue && Next(s, Begin(route)).v.batch == []
  {
    NothingRoutable(s.v.batch, route);
    hide DeferAll, Unrouted, Overflow;
  }

  lemma LostWhileSettling(s: System, e: int) returns (steps: seq<Step>)
    requires Overtakes(s, e) && s.phase.Settling? && s.v.queue != [] && |s.v.batch| < ROUTE_BATCH_SIZE
    ensures Possible(s, steps) && AllOrderly(s, steps) && !Guarantee(After(s, steps))
  {
    FinishingKeepsFloor(s, e);
    steps := LostFromIdleHands(Next(s, Finish), e);
    Then(s, Finish, steps);
    steps := [Finish] + steps;
  }

  lemma LostWhileWriting(s: System, e: int) returns (steps: seq<Step>)
    requires Overtakes(s, e) && s.phase.Writing? && s.v.queue != [] && |s.v.batch| < ROUTE_BATCH_SIZE
    ensures Possible(s, steps) && AllOrderly(s, steps) && !Guarantee(After(s, steps))
  {
    WritingKeepsFloor(s, e);
    steps := LostWhileSettling(Next(s, WriteOk), e);
    Then(s, WriteOk, steps);
    steps := [WriteOk] + steps;
  }

  lemma LostFromIdleAnyBatch(s: System, e: int) returns (steps: seq<Step>)
    requires Overtakes(s, e) && s.phase.Idle? && s.v.queue != []
    ensures Possible(s, steps) && AllOrderly(s, steps) && !Guarantee(After(s, steps))
  {
    if |s.v.batch| < ROUTE_BATCH_SIZE {
      steps := LostFromIdleHands(s, e);
    } else {
      var unroutable := (n: int) => Unroutable;
      EmptyingKeepsFloor(s, e, unroutable);
      steps := LostWhileWriting(Next(s, Begin(unroutable)), e);
      Then(s, Begin(unroutable), steps);
      steps := [Begin(unroutable)] + steps;
    }
  }

  /** Whatever the queue, the batch and the phase. */
  lemma LostFromHands(s: System, e: int) returns (steps: seq<Step>)
    requires Overtakes(s, e)
    ensures Possible(s, steps) && AllOrderly(s, steps) && !Guarantee(After(s, steps))
    decreases if s.phase.Writing? then 2 else if s.phase.Settling? then 1 else 0
  {
    if |s.v.queue| < ROUTE_QUEUE_DEPTH {
      steps := LostOncePushed(s, e);
    } else if s.phase.Idle? {
      steps := LostFromIdleAnyBatch(s, e);
    } else if s.phase.Settling? {
      FinishingKeepsFloor(s, e);
      steps := LostFromHands(Next(s, Finish), e);
      Then(s, Finish, steps);
      steps := [Finish] + steps;
    } else {
      WritingKeepsFloor(s, e);
      steps := LostFromHands(Next(s, WriteOk), e);
      Then(s, WriteOk, steps);
      steps := [WriteOk] + steps;
    }
  }

  lemma RegisteredBelowOvertakes(s: System, e: int)
    requires Inv(s) && Enabled(s, RegisterEvent(e)) && e !in s.decided && e <= Floor(s)
    ensures Overtakes(Next(s, RegisterEvent(e)), e)
  {
    HandingIsInFlight(s);
  }

  /** Registering a new event keeps the promise through every orderly continuation if
      and only if its seq is above the floor at that moment. Insert and registration
      are separate steps, so concurrent producers can break this. */
  lemma RegistrationIsSafeExactlyAboveTheFloor(s: System, e: int)
    requires Inv(s) && Enabled(s, RegisterEvent(e)) && e !in s.decided
    ensures e > Floor(s) <==>
            forall rest | Possible(Next(s, RegisterEvent(e)), rest) && AllOrderly(Next(s, RegisterEvent(e)), rest) ::
              Guarantee(After(Next(s, RegisterEvent(e)), rest))
  {
    var r := Next(s, RegisterEvent(e));
    if e > Floor(s) {
      StepKeepsInv(s, RegisterEvent(e));
      forall rest | Possible(r, rest) && AllOrderly(r, rest)
        ensures Guarantee(After(r, rest))
      {
        RunKeepsInv(r, rest);
        InvImpliesGuarantee(After(r, rest));
      }
    } else {
      RegisteredBelowOvertakes(s, e);
      var rest := LostFromHands(r, e);
      assert !Guarantee(After(r, rest));
    }
  }

  /** Producers that hand events over in seq order are always orderly. */
  lemma InOrderProducersAreOrderly(s: System, e: int)
    requires Inv(s) && Enabled(s, RegisterEvent(e)) && e > s.v.highest && e > s.stored
    ensures Orderly(s, RegisterEvent(e))
  {
  }

  /** Going live after a replay that stopped keeps the promise through every orderly
      continuation if and only if nothing accepted is still owed: a fresh router
      starts its marks from zero and cannot see what the replay left behind. */
  lemma GoingLiveIsSafeExactlyWhenNothingIsOwed(s: System)
    requires Inv(s) && Enabled(s, GoLive)
    ensures (forall n | n in s.accepted :: !Owed(s, n)) <==>
            forall rest | Possible(Next(s, GoLive), rest) && AllOrderly(Next(s, GoLive), rest) ::
              Guarantee(After(Next(s, GoLive), rest))
  {
    var g := Next(s, GoLive);
    if forall n | n in s.accepted :: !Owed(s, n) {
      StepKeepsInv(s, GoLive);
      forall rest | Possible(g, rest) && AllOrderly(g, rest)
        ensures Guarantee(After(g, rest))
      {
        RunKeepsInv(g, rest);
        InvImpliesGuarantee(After(g, rest));
      }
    } else {
      var n :| n in s.accepted && Owed(s, n);
      var rest := LostByGoingLive(g, n);
    }
  }

  lemma LostByGoingLive(s: System, n: int) returns (steps: seq<Step>)
    requires s.life.Live? && s.v == Fresh && s.phase.Idle? && Owed(s, n) && n > s.stored && n in s.journal
    requires s.accepted <= s.journal
    ensures Possible(s, steps) && AllOrderly(s, steps)
    ensures !Guarantee(After(s, steps))
  {
    hide Possible, After, AllOrderly;
    LargestExists(s.journal + {0, s.stored});
    var top: int :| top in s.journal + {0, s.stored} && forall m | m in s.journal + {0, s.stored} :: m <= top;
    var e := top + 1;
    var s1 := Next(s, Insert(e));
    var s2 := Next(s1, RegisterEvent(e));
    var s3 := Next(s2, Push(e));
    steps := Overtaken(Next(s3, ReceiveEvent), n, e);
    Then(s3, ReceiveEvent, steps);
    steps := [ReceiveEvent] + steps;
    Then(s2, Push(e), steps);
    steps := [Push(e)] + steps;
    Then(s1, RegisterEvent(e), steps);
    steps := [RegisterEvent(e)] + steps;
    Then(s, Insert(e), steps);
    steps := [Insert(e)] + steps;
  }

  /** A later event, alone in flight, takes the mark over one the router does not know. */
  lemma Overtaken(s: System, n: int, e: int) returns (steps: seq<Step>)
    requires s.life.Live? && s.phase.Idle? && s.v.batch == [e] && s.v.inflight == {e}
    requires s.v.highest >= e > n && Owed(s, n)
    ensures Possible(s, steps) && AllOrderly(s, steps)
    ensures !Guarantee(After(s, steps))
  {
    hide Possible, After, AllOrderly;
    var all := (m: int) => Routed({});
    var b := Next(s, Begin(all));
    assert Routable([e], all) == [e];
    assert s.v.inflight - Elements([e]) == {};
    var w := Next(b, WriteOk);
    assert n !in w.decided && w.stored >= e;
    Nothing(w);
    Then(b, WriteOk, []);
    assert [WriteOk] + [] == [WriteOk];
    Then(s, Begin(all), [WriteOk]);
    steps := [Begin(all)] + [WriteOk];
  }

  // --- the methods of the Router class are runs of this protocol ---------------------

  ghost function MachineOf(s: System): Machine {
    Machine(s.v, s.outbox, s.stored)
  }

  ghost predicate Resting(s: System) {
    Inv(s) && s.life.Live? && s.phase.Idle?
  }

  lemma CommittedFlush(s: System, a: Attempt)
    requires Resting(s) && s.v.batch != [] && a.committed
    ensures var b := Next(s, Begin(a.route));
            && Enabled(b, WriteOk) && Enabled(Next(b, WriteOk), Finish)
            && MachineOf(Next(Next(b, WriteOk), Finish)) == FlushStep(MachineOf(s), a)
            && Next(Next(b, WriteOk), Finish).phase.Idle?
  {
    hide Inv;
  }

  lemma FailedFlush(s: System, a: Attempt)
    requires Resting(s) && s.v.batch != [] && !a.committed
    ensures var b := Next(s, Begin(a.route));
            && Enabled(b, WriteFail(a.now))
            && MachineOf(Next(b, WriteFail(a.now))) == FlushStep(MachineOf(s), a)
            && Next(b, WriteFail(a.now)).phase.Idle?
  {
    hide Inv;
  }

  /** Router.Flush, uninterrupted, is Begin, WriteOk, Finish or Begin, WriteFail. */
  lemma FlushIsARun(s: System, a: Attempt) returns (steps: seq<Step>)
    requires Resting(s)
    ensures Possible(s, steps) && AllOrderly(s, steps)
    ensures Resting(After(s, steps)) && MachineOf(After(s, steps)) == FlushStep(MachineOf(s), a)
  {
    Nothing(s);
    if s.v.batch == [] {
      return [];
    }
    hide Possible, After, AllOrderly, FlushStep, Inv;
    var b := Next(s, Begin(a.route));
    if a.committed {
      CommittedFlush(s, a);
      var w := Next(b, WriteOk);
      Nothing(Next(w, Finish));
      Then(w, Finish, []);
      Then(b, WriteOk, [Finish] + []);
      steps := [WriteOk] + ([Finish] + []);
    } else {
      FailedFlush(s, a);
      Nothing(Next(b, WriteFail(a.now)));
      Then(b, WriteFail(a.now), []);
      steps := [WriteFail(a.now)] + [];
    }
    Then(s, Begin(a.route), steps);
    steps := [Begin(a.route)] + steps;
    RunKeepsInv(s, steps);
  }

  /** Router.Tick, uninterrupted, is Take and then a flush. */
  lemma TickIsARun(s: System, a: Attempt) returns (steps: seq<Step>)
    requires Resting(s)
    ensures Possible(s, steps) && AllOrderly(s, steps) && Resting(After(s, steps))
    ensures MachineOf(After(s, steps)) == FlushStep(MachineOf(s).(v := TakeDeferred(s.v, a.now)), a)
  {
    var t := Next(s, Take(a.now));
    StepKeepsInv(s, Take(a.now));
    hide Inv, FlushStep, TakeDeferred;
    var flushing := FlushIsARun(t, a);
    Then(s, Take(a.now), flushing);
    steps := [Take(a.now)] + flushing;
  }

  /** Router.Accept, uninterrupted, is RegisterEvent and then Push or Refuse. */
  lemma AcceptIsARun(s: System, e: int) returns (steps: seq<Step>)
    requires Resting(s) && Enabled(s, RegisterEvent(e)) && Orderly(s, RegisterEvent(e))
    ensures Possible(s, steps) && AllOrderly(s, steps) && Resting(After(s, steps))
    ensures After(s, steps).v ==
            if |s.v.queue| < ROUTE_QUEUE_DEPTH then Register(s.v, e).(queue := s.v.queue + [e])
            else Settle(Register(s.v, e), {e})
    ensures e in After(s, steps).accepted <==> |s.v.queue| < ROUTE_QUEUE_DEPTH
  {
    var r := Next(s, RegisterEvent(e));
    var handOver := if |s.v.queue| < ROUTE_QUEUE_DEPTH then Push(e) else Refuse(e);
    Then(r, handOver, []);
    Then(s, RegisterEvent(e), [handOver]);
    steps := [RegisterEvent(e)] + [handOver];
    RunKeepsInv(s, steps);
  }

  lemma RunsCompose(s: System, a: seq<Step>, b: seq<Step>)
    requires Possible(s, a) && Possible(After(s, a), b)
    ensures Possible(s, a + b) && After(s, a + b) == After(After(s, a), b)
    ensures AllOrderly(s, a) && AllOrderly(After(s, a), b) ==> AllOrderly(s, a + b)
    decreases |a|
  {
    if a == [] {
      assert [] + b == b;
    } else {
      assert (a + b)[1..] == a[1..] + b;
      RunsCompose(Next(s, a[0]), a[1..], b);
    }
  }

  /** Router.Drain is a run too, so it keeps every promise above; the method itself
      shows that it ends with nothing queued and nothing batched. */
  lemma DrainIsARun(s: System, env: nat -> Attempt, k: nat) returns (steps: seq<Step>)
    requires Resting(s) && |s.v.batch| < ROUTE_BATCH_SIZE
    ensures Possible(s, steps) && AllOrderly(s, steps)
    ensures Resting(After(s, steps)) && MachineOf(After(s, steps)) == DrainStep(MachineOf(s), env, k)
    decreases |s.v.queue|
  {
    if s.v.queue == [] {
      steps := FlushIsARun(s, env(k));
    } else {
      var r := Next(s, ReceiveEvent);
      StepKeepsInv(s, ReceiveEvent);
      if |r.v.batch| >= ROUTE_BATCH_SIZE {
        var flushing := FlushIsARun(r, env(k));
        var rest := DrainIsARun(After(r, flushing), env, k + 1);
        RunsCompose(r, flushing, rest);
        steps := flushing + rest;
      } else {
        steps := DrainIsARun(r, env, k);
      }
      Then(s, ReceiveEvent, steps);
      steps := [ReceiveEvent] + steps;
    }
  }
}
