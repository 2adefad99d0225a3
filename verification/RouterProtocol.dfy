/** The router as a protocol (internal/app/router.go, internal/app/app.go:877-898).

    Producers, the router goroutine, the database and crashes interleave: one step
    is one critical section, one transaction or one queue operation. A flush is
    therefore three steps, and a producer's insert, registration and hand-over are
    three more. The ticker, the done channel and the clock only decide WHEN a step
    is taken, so any enabled step may be next.

    `decided`, `accepted` and `dropped` are history: what a committed transaction
    decided for an event, which events accept() answered true for in any life of
    the process, and which fell off the deferred list in this one. */
module RouterProtocol {
  import opened Basics
  import opened RouterState
  import opened EventRouter

  datatype Phase =
    | Idle
    | Writing(taken: seq<int>, decisions: map<int, set<Sink>>, groups: set<Delivery>, mark: int)
    | Settling(taken: seq<int>, mark: int)

  /** A replay and live routing exclude each other: nothing is accepted while one runs. */
  datatype Life = Down | Replaying(mark: int) | Live

  datatype System = System(
    journal: set<int>,
    outbox: set<Delivery>,
    stored: int,
    life: Life,
    v: Volatile,
    handing: set<int>,
    phase: Phase,
    decided: map<int, set<Sink>>,
    accepted: set<int>,
    dropped: multiset<int>)

  datatype Step =
    | Insert(e: int)
    | RegisterEvent(e: int)
    | Push(e: int)
    | Refuse(e: int)
    | ReceiveEvent
    | Take(now: int)
    | Begin(route: int -> Routing)
    | WriteOk
    | WriteFail(now: int)
    | Finish
    | Crash
    | Restart
    | ReplayBatch(pending: seq<int>, route: int -> Routing)
    | GoLive

  function Taken(phase: Phase): seq<int> {
    match phase
    case Idle => []
    case Writing(taken, _, _, _) => taken
    case Settling(taken, _) => taken
  }

  function Decisions(taken: seq<int>, route: int -> Routing): map<int, set<Sink>> {
    map n | n in taken && route(n).Routed? :: route(n).sinks
  }

  ghost predicate Enabled(s: System, step: Step) {
    match step
    case Insert(e) => s.life.Live? && e > 0 && forall n | n in s.journal :: n < e
    case RegisterEvent(e) => s.life.Live? && e > 0 && e in s.journal && e !in s.v.inflight && e !in s.accepted
    case Push(e) => s.life.Live? && e in s.handing && |s.v.queue| < ROUTE_QUEUE_DEPTH
    case Refuse(e) => s.life.Live? && e in s.handing && |s.v.queue| >= ROUTE_QUEUE_DEPTH
    case ReceiveEvent => s.life.Live? && s.phase.Idle? && s.v.queue != [] && |s.v.batch| < ROUTE_BATCH_SIZE
    case Take(_) => s.life.Live? && s.phase.Idle?
    case Begin(_) => s.life.Live? && s.phase.Idle? && s.v.batch != []
    case WriteOk => s.life.Live? && s.phase.Writing?
    case WriteFail(_) => s.life.Live? && s.phase.Writing?
    case Finish => s.life.Live? && s.phase.Settling?
    case Crash => !s.life.Down?
    case Restart => s.life.Down?
    case ReplayBatch(pending, route) =>
      && s.life.Replaying? && pending != []
      && IsNextBatch(s.journal, s.life.mark, ROUTE_BATCH_SIZE, pending)
      && forall n | n in pending :: route(n).Routed?
    case GoLive => s.life.Replaying?
  }

  ghost function Next(s: System, step: Step): System
    requires Enabled(s, step)
  {
    match step
    case Insert(e) => s.(journal := s.journal + {e})
    case RegisterEvent(e) => s.(v := Register(s.v, e), handing := s.handing + {e})
    case Push(e) =>
      s.(v := s.v.(queue := s.v.queue + [e]), handing := s.handing - {e}, accepted := s.accepted + {e})
    case Refuse(e) => s.(v := Settle(s.v, {e}), handing := s.handing - {e})
    case ReceiveEvent => s.(v := ReceiveStep(s.v))
    case Take(now) => s.(v := TakeDeferred(s.v, now))
    case Begin(route) =>
      var taken := Routable(s.v.batch, route);
      s.(v := BeginFlush(s.v, route),
         dropped := s.dropped + multiset(Overflow(s.v.deferred, Unrouted(s.v.batch, route))),
         phase := Writing(taken, Decisions(taken, route), Groups(s.v.batch, route),
                          MarkIfSettled(s.v, Elements(taken))))
    case WriteOk =>
      s.(outbox := s.outbox + s.phase.groups,
         stored := Max(s.stored, s.phase.mark),
         decided := s.decided + s.phase.decisions,
         phase := Settling(s.phase.taken, s.phase.mark))
    case WriteFail(now) =>
      s.(v := FailFlush(s.v, s.phase.taken, now),
         dropped := s.dropped + multiset(Overflow(s.v.deferred, s.phase.taken)),
         phase := Idle)
    case Finish => s.(v := FinishFlush(s.v, s.phase.taken), phase := Idle)
    case Crash => s.(life := Down, v := Fresh, handing := {}, phase := Idle, dropped := multiset{})
    case Restart => s.(life := Replaying(s.stored))
    case ReplayBatch(pending, route) =>
      var mark := pending[|pending| - 1];
      s.(outbox := s.outbox + Groups(pending, route),
         stored := Max(s.stored, mark),
         decided := s.decided + Decisions(pending, route),
         life := Replaying(mark))
    case GoLive => s.(life := Live)
  }

  // --- the promise, and what the environment owes it -------------------------

  /** Written: a committed transaction holds a row for each destination decided. */
  ghost predicate Written(s: System, n: int) {
    n in s.decided && Rows(n, s.decided[n]) <= s.outbox
  }

  /** Nothing accepted is both missing from the outbox and invisible to a replay. */
  ghost predicate Guarantee(s: System) {
    forall n | n in s.accepted :: Written(s, n) || (n in s.journal && n > s.stored)
  }

  /** Every mark that is recorded, confirmed or on its way to the database. */
  ghost function Floor(s: System): int {
    var held := Max(s.stored, s.v.confirmed);
    if s.phase.Idle? then held else Max(held, s.phase.mark)
  }

  ghost predicate Owed(s: System, n: int) {
    n in s.accepted && n !in s.decided
  }

  /** The environment's two duties. An event is registered while its seq is still
      above the floor, and live routing starts with nothing left owed. */
  ghost predicate Orderly(s: System, step: Step) {
    match step
    case RegisterEvent(e) => e > Floor(s)
    case GoLive => forall n | n in s.accepted :: !Owed(s, n)
    case _ => true
  }

  ghost predicate Possible(s: System, steps: seq<Step>)
    decreases |steps|
  {
    steps == [] || (Enabled(s, steps[0]) && Possible(Next(s, steps[0]), steps[1..]))
  }

  ghost function After(s: System, steps: seq<Step>): System
    requires Possible(s, steps)
    decreases |steps|
  {
    if steps == [] then s else After(Next(s, steps[0]), steps[1..])
  }

  ghost predicate AllOrderly(s: System, steps: seq<Step>)
    requires Possible(s, steps)
    decreases |steps|
  {
    steps == [] || (Orderly(s, steps[0]) && AllOrderly(Next(s, steps[0]), steps[1..]))
  }

  /** A process that has accepted nothing yet, over any database. */
  ghost predicate Init(s: System) {
    && s.life == Down && s.v == Fresh && s.handing == {} && s.phase == Idle
    && s.decided == map[] && s.accepted == {} && s.dropped == multiset{}
  }

  // --- the invariant -----------------------------------------------------------

  ghost predicate Recorded(s: System) {
    && s.accepted <= s.journal
    && forall n | n in s.decided :: Rows(n, s.decided[n]) <= s.outbox
  }

  /** How the in-flight set stands to the marks, in each phase of a flush. */
  ghost predicate Marked(s: System) {
    && s.v.confirmed <= s.v.highest
    && (forall n | n in s.v.inflight :: 0 < n <= s.v.highest && s.v.confirmed < n && n in s.journal)
    && (forall n | n in s.accepted :: n in s.decided || n in s.v.inflight)
    && s.handing !! s.accepted
    && match s.phase
       case Idle => forall n | n in s.v.inflight :: s.stored < n
       case Writing(taken, decisions, groups, mark) =>
         && mark <= s.v.highest
         && decisions.Keys == Elements(taken)
         && (forall n | n in decisions :: Rows(n, decisions[n]) <= groups)
         && (forall n | n in s.v.inflight :: s.stored < n && (n in taken || mark < n))
       case Settling(taken, mark) =>
         && mark <= s.v.highest && mark <= s.stored
         && (forall n | n in taken :: n in s.decided)
         && (forall n | n in s.v.inflight :: n in taken || s.stored < n)
  }

  /** How many places hold an event: a producer's hands, the queue, the batch, the
      transaction, the deferred list, and what was dropped from that list. */
  ghost function Places(s: System, n: int): int {
    multiset(s.handing)[n] + multiset(s.v.queue)[n] + multiset(s.v.batch)[n]
    + multiset(Taken(s.phase))[n] + multiset(s.v.deferred)[n] + s.dropped[n]
  }

  /** Each event in flight is in exactly one place, and no other event is in any. */
  ghost predicate Placed(s: System) {
    && (forall n :: Places(s, n) == if n in s.v.inflight then 1 else 0)
    && |s.v.queue| <= ROUTE_QUEUE_DEPTH
    && |s.v.deferred| <= ROUTE_QUEUE_DEPTH
    && |s.v.batch| <= ROUTE_BATCH_SIZE
    && |Taken(s.phase)| <= ROUTE_BATCH_SIZE
  }

  ghost predicate Inv(s: System) {
    && Recorded(s)
    && match s.life
       case Live => Marked(s) && Placed(s)
       case Down => AtRest(s)
       case Replaying(mark) => AtRest(s) && mark == s.stored
  }

  ghost predicate AtRest(s: System) {
    && s.v == Fresh && s.handing == {} && s.phase == Idle && s.dropped == multiset{}
    && forall n | n in s.accepted :: n in s.decided || s.stored < n
  }

  lemma InvImpliesGuarantee(s: System)
    requires Inv(s)
    ensures Guarantee(s)
  {
  }

  lemma HandingIsInFlight(s: System)
    requires Placed(s)
    ensures s.handing <= s.v.inflight
    ensures forall n | n in Taken(s.phase) :: n in s.v.inflight && n !in s.handing
  {
    forall n | n in s.handing
      ensures n in s.v.inflight
    {
      assert Places(s, n) >= multiset(s.handing)[n] > 0;
    }
    forall n | n in Taken(s.phase)
      ensures n in s.v.inflight && n !in s.handing
    {
      assert multiset(Taken(s.phase))[n] > 0;
      assert Places(s, n) >= multiset(s.handing)[n] + multiset(Taken(s.phase))[n];
    }
  }

  lemma RecordedIsKept(s: System, step: Step)
    requires Inv(s) && s.life.Live? && Enabled(s, step) && !step.Crash?
    ensures Recorded(Next(s, step))
  {
    if step.Push? {
      HandingIsInFlight(s);
    }
  }

  /** A mark stays below everything it leaves in flight. */
  lemma MarkStaysBelow(v: Volatile, seqs: set<int>)
    requires v.confirmed <= v.highest
    requires forall n | n in v.inflight :: v.confirmed < n <= v.highest
    ensures v.confirmed <= MarkIfSettled(v, seqs) <= v.highest
    ensures forall n | n in v.inflight && n !in seqs :: MarkIfSettled(v, seqs) < n
  {
    forall n | n in v.inflight && n !in seqs
      ensures MarkIfSettled(v, seqs) < n
    {
      assert n in v.inflight - seqs;
    }
  }

  lemma DecisionsAreWritten(pending: seq<int>, route: int -> Routing)
    ensures var taken := Routable(pending, route);
            var decisions := Decisions(taken, route);
            && decisions.Keys == Elements(taken)
            && forall n | n in decisions :: Rows(n, decisions[n]) <= Groups(pending, route)
  {
    PartitionIsExact(pending, route);
    GroupsHoldTheDecisions(pending, route);
    var taken := Routable(pending, route);
    forall n: int
      ensures n in Decisions(taken, route) <==> n in Elements(taken)
    {
    }
  }

  lemma BeginKeepsMarks(s: System, route: int -> Routing)
    requires Marked(s) && Enabled(s, Begin(route))
    ensures Marked(Next(s, Begin(route)))
  {
    var taken := Routable(s.v.batch, route);
    MarkStaysBelow(s.v, Elements(taken));
    DecisionsAreWritten(s.v.batch, route);
    hide MarkIfSettled, Routable, Groups, Decisions, DeferAll;
  }

  /** Settling, after a flush or for one refused event: nothing still owed is confirmed. */
  lemma SettlingKeepsMarks(s: System, step: Step)
    requires Marked(s) && Placed(s) && Enabled(s, step) && (step.Finish? || step.Refuse?)
    ensures Marked(Next(s, step))
  {
    HandingIsInFlight(s);
    MarkStaysBelow(s.v, if step.Finish? then Elements(s.phase.taken) else {step.e});
    hide MarkIfSettled;
  }

  lemma MarkedIsKept(s: System, step: Step)
    requires Inv(s) && s.life.Live? && Enabled(s, step) && Orderly(s, step) && !step.Crash?
    ensures Marked(Next(s, step))
  {
    if step.Begin? {
      BeginKeepsMarks(s, step.route);
    } else if step.Finish? || step.Refuse? {
      SettlingKeepsMarks(s, step);
    } else if step.Push? {
      PushKeepsMarks(s, step.e);
    } else if step.RegisterEvent? || step.Insert? {
      OthersKeepMarks(s, step);
    } else {
      MovesKeepMarks(s, step);
    }
  }

  lemma PushKeepsMarks(s: System, e: int)
    requires Marked(s) && Placed(s) && Enabled(s, Push(e))
    ensures Marked(Next(s, Push(e)))
  {
    HandingIsInFlight(s);
  }

  lemma OthersKeepMarks(s: System, step: Step)
    requires Marked(s) && Enabled(s, step) && Orderly(s, step) && (step.RegisterEvent? || step.Insert?)
    ensures Marked(Next(s, step))
  {
  }

  lemma MovesKeepMarks(s: System, step: Step)
    requires Marked(s) && s.life.Live? && Enabled(s, step) && !step.Crash?
    requires step.ReceiveEvent? || step.Take? || step.WriteOk? || step.WriteFail?
    ensures Marked(Next(s, step))
  {
  }

  lemma SizesAreKept(s: System, step: Step)
    requires Placed(s) && s.life.Live? && Enabled(s, step) && !step.Crash?
    ensures var t := Next(s, step);
            && |t.v.queue| <= ROUTE_QUEUE_DEPTH && |t.v.deferred| <= ROUTE_QUEUE_DEPTH
            && |t.v.batch| <= ROUTE_BATCH_SIZE && |Taken(t.phase)| <= ROUTE_BATCH_SIZE
  {
    match step {
      case Take(now) =>
        TakeConserves(s.v, now);
      case Begin(route) =>
        PartitionIsExact(s.v.batch, route);
        DeferConserves(s.v.deferred, Unrouted(s.v.batch, route));
      case WriteFail(_) =>
        DeferConserves(s.v.deferred, s.phase.taken);
      case _ =>
    }
  }

  lemma DeferCounts(deferred: seq<int>, es: seq<int>, n: int)
    ensures multiset(DeferAll(deferred, es))[n] + multiset(Overflow(deferred, es))[n]
         == multiset(deferred)[n] + multiset(es)[n]
  {
    DeferConserves(deferred, es);
    assert (multiset(DeferAll(deferred, es)) + multiset(Overflow(deferred, es)))[n]
        == (multiset(deferred) + multiset(es))[n];
  }

  lemma BeginMoves(s: System, route: int -> Routing, n: int)
    requires Enabled(s, Begin(route))
    ensures Places(Next(s, Begin(route)), n) == Places(s, n)
  {
    var aside := Unrouted(s.v.batch, route);
    PartitionIsExact(s.v.batch, route);
    assert (multiset(Routable(s.v.batch, route)) + multiset(aside))[n] == multiset(s.v.batch)[n];
    DeferCounts(s.v.deferred, aside, n);
  }

  lemma FailureMoves(s: System, now: int, n: int)
    requires Enabled(s, WriteFail(now))
    ensures Places(Next(s, WriteFail(now)), n) == Places(s, n)
  {
    DeferCounts(s.v.deferred, s.phase.taken, n);
  }

  lemma TakeMoves(s: System, now: int, n: int)
    requires Enabled(s, Take(now))
    ensures Places(Next(s, Take(now)), n) == Places(s, n)
  {
    TakeConserves(s.v, now);
    var w := TakeDeferred(s.v, now);
    assert (multiset(w.batch) + multiset(w.deferred))[n] == (multiset(s.v.batch) + multiset(s.v.deferred))[n];
  }

  lemma SettlingRemoves(s: System, step: Step, n: int)
    requires Placed(s) && Enabled(s, step) && (step.Finish? || step.Refuse?)
    ensures Places(Next(s, step), n) == if n in Next(s, step).v.inflight then 1 else 0
  {
    HandingIsInFlight(s);
    assert Places(s, n) == if n in s.v.inflight then 1 else 0;
    if step.Finish? {
      assert multiset(s.phase.taken)[n] > 0 <==> n in s.phase.taken;
    }
  }

  lemma NothingMoves(s: System, t: System, n: int)
    requires t.v == s.v && t.handing == s.handing && Taken(t.phase) == Taken(s.phase) && t.dropped == s.dropped
    ensures Places(t, n) == Places(s, n)
  {
  }

  lemma ReceiveMoves(s: System, n: int)
    requires Enabled(s, ReceiveEvent)
    ensures Places(Next(s, ReceiveEvent), n) == Places(s, n)
  {
    assert s.v.queue == [s.v.queue[0]] + s.v.queue[1..];
  }

  lemma ProducerMoves(s: System, step: Step, n: int)
    requires Placed(s) && Enabled(s, step) && (step.RegisterEvent? || step.Push?)
    ensures Places(Next(s, step), n) == if n in Next(s, step).v.inflight then 1 else 0
  {
    HandingIsInFlight(s);
    assert Places(s, n) == if n in s.v.inflight then 1 else 0;
  }

  lemma PlacesMove(s: System, step: Step, n: int)
    requires Placed(s) && s.life.Live? && Enabled(s, step) && !step.Crash?
    ensures Places(Next(s, step), n) == if n in Next(s, step).v.inflight then 1 else 0
  {
    assert Places(s, n) == if n in s.v.inflight then 1 else 0;
    hide Places;
    match step {
      case ReceiveEvent =>
        ReceiveMoves(s, n);
      case Take(now) =>
        TakeMoves(s, now, n);
      case Begin(route) =>
        BeginMoves(s, route, n);
      case WriteFail(now) =>
        FailureMoves(s, now, n);
      case Finish =>
        SettlingRemoves(s, step, n);
      case Refuse(_) =>
        SettlingRemoves(s, step, n);
      case WriteOk =>
        assert Next(s, step).v == s.v;
        NothingMoves(s, Next(s, step), n);
      case Insert(_) =>
        NothingMoves(s, Next(s, step), n);
      case _ =>
        ProducerMoves(s, step, n);
    }
  }

  lemma PlacedIsKept(s: System, step: Step)
    requires Placed(s) && s.life.Live? && Enabled(s, step) && !step.Crash?
    ensures Placed(Next(s, step))
  {
    hide Next, Places;
    SizesAreKept(s, step);
    forall n
      ensures Places(Next(s, step), n) == if n in Next(s, step).v.inflight then 1 else 0
    {
      PlacesMove(s, step, n);
    }
  }

  lemma ReplayIsKept(s: System, step: Step)
    requires Inv(s) && Enabled(s, step) && step.ReplayBatch?
    ensures Inv(Next(s, step)) && Next(s, step).stored > s.stored
  {
    GroupsHoldTheDecisions(step.pending, step.route);
    assert step.pending[|step.pending| - 1] in step.pending;
  }

  lemma StepKeepsInv(s: System, step: Step)
    requires Inv(s) && Enabled(s, step) && Orderly(s, step)
    ensures Inv(Next(s, step)) && s.stored <= Next(s, step).stored
  {
    if step.ReplayBatch? {
      ReplayIsKept(s, step);
    } else if s.life.Live? && !step.Crash? {
      RecordedIsKept(s, step);
      MarkedIsKept(s, step);
      PlacedIsKept(s, step);
    }
  }
}
