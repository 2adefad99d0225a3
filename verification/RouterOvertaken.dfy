/** Two short runs from an empty database that break the router's promise, each by one step
    the environment owes it not to take (internal/app/app.go:873-903, internal/app/router.go). */
module RouterOvertaken {
  import opened Basics
  import opened RouterState
  import opened EventRouter
  import opened RouterProtocol
  import opened RouterGuarantee

  const Empty := System({}, {}, 0, Down, Fresh, {}, Idle, map[], {}, multiset{})

  function ToNoSink(): int -> Routing { (n: int) => Routed({}) }

  lemma AndThen(start: System, steps: seq<Step>, step: Step)
    requires Possible(start, steps) && Enabled(After(start, steps), step)
    ensures Possible(start, steps + [step])
    ensures After(start, steps + [step]) == Next(After(start, steps), step)
    ensures AllOrderly(start, steps) && Orderly(After(start, steps), step) ==> AllOrderly(start, steps + [step])
  {
    hide Enabled, Next, Orderly;
    Nothing(Next(After(start, steps), step));
    Then(After(start, steps), step, []);
    assert [step] + [] == [step];
    RunsCompose(start, steps, [step]);
  }

  // --- one event on its own, from the queue to its settled mark ------------------------------

  /** A live, idle router that owes nothing, over events routed so far. */
  function AtEase(journal: set<int>, stored: int, v: Volatile, decided: map<int, set<Sink>>, accepted: set<int>): System {
    System(journal, {}, stored, Live, v, {}, Idle, decided, accepted, multiset{})
  }

  lemma AloneInBatch(e: int)
    ensures Routable([e], ToNoSink()) == [e] && Unrouted([e], ToNoSink()) == [] && Groups([e], ToNoSink()) == {}
    ensures Decisions([e], ToNoSink()) == map[e := {}] && Elements([e]) == {e}
    ensures DeferAll([], []) == [] && Overflow([], []) == []
  {
    assert Rows(e, {}) == {};
  }

  /** The event alone in the batch, in flight. */
  function InBatch(journal: set<int>, stored: int, decided: map<int, set<Sink>>, accepted: set<int>, e: int): System {
    AtEase(journal, stored, Fresh.(batch := [e], inflight := {e}, highest := e), decided, accepted + {e})
  }

  function ToBatch(e: int): seq<Step> { [RegisterEvent(e), Push(e), ReceiveEvent] }

  function FlushOnce(): seq<Step> { [Begin(ToNoSink()), WriteOk, Finish] }

  lemma OneEventIsTaken(journal: set<int>, stored: int, decided: map<int, set<Sink>>, accepted: set<int>, e: int)
    requires e > 0 && e in journal && e !in accepted && e > stored >= 0
    ensures var s := AtEase(journal, stored, Fresh, decided, accepted);
            Possible(s, ToBatch(e)) && AllOrderly(s, ToBatch(e))
            && After(s, ToBatch(e)) == InBatch(journal, stored, decided, accepted, e)
  {
    var s := AtEase(journal, stored, Fresh, decided, accepted);
    var s1 := Next(s, RegisterEvent(e));
    var s2 := Next(s1, Push(e));
    var s3 := Next(s2, ReceiveEvent);
    assert s3.v.batch == [e] && s3.v.queue == [] && s3.v.inflight == {e} && s3.handing == {};
    assert s3 == InBatch(journal, stored, decided, accepted, e);
    ThreeSteps(s, RegisterEvent(e), Push(e), ReceiveEvent);
  }

  lemma ThreeSteps(s: System, a: Step, b: Step, c: Step)
    requires Enabled(s, a) && Enabled(Next(s, a), b) && Enabled(Next(Next(s, a), b), c)
    requires Orderly(s, a) && Orderly(Next(s, a), b) && Orderly(Next(Next(s, a), b), c)
    ensures Possible(s, [a, b, c]) && AllOrderly(s, [a, b, c])
    ensures After(s, [a, b, c]) == Next(Next(Next(s, a), b), c)
  {
    hide Enabled, Next, Orderly;
    var s1 := Next(s, a);
    var s2 := Next(s1, b);
    Nothing(Next(s2, c));
    Then(s2, c, []);
    Then(s1, b, [c] + []);
    Then(s, a, [b] + ([c] + []));
    assert [a] + ([b] + ([c] + [])) == [a, b, c];
  }

  lemma OneEventIsWritten(journal: set<int>, stored: int, decided: map<int, set<Sink>>, accepted: set<int>, e: int)
    requires e > stored >= 0
    ensures var s := InBatch(journal, stored, decided, accepted, e);
            var v := Fresh.(highest := e, confirmed := e);
            Possible(s, FlushOnce()) && AllOrderly(s, FlushOnce())
            && After(s, FlushOnce()) == AtEase(journal, e, v, decided[e := {}], accepted + {e})
  {
    var s := InBatch(journal, stored, decided, accepted, e);
    AloneInBatch(e);
    hide Routable, Unrouted, Groups, Decisions, DeferAll, Overflow, ToNoSink;
    var s4 := Next(s, Begin(ToNoSink()));
    assert s4.v.inflight - {e} == {} && s4.phase.mark == e && s4.dropped == multiset{};
    var s5 := Next(s4, WriteOk);
    assert s5.decided == decided[e := {}] && s5.stored == e && s5.outbox == {};
    var s6 := Next(s5, Finish);
    assert s6 == AtEase(journal, e, Fresh.(highest := e, confirmed := e), decided[e := {}], accepted + {e});
    ThreeSteps(s, Begin(ToNoSink()), WriteOk, Finish);
  }

  /** From ease to ease: the event is written, and the mark is at its seq. */
  lemma OneEventIsServed(journal: set<int>, stored: int, decided: map<int, set<Sink>>, accepted: set<int>, e: int)
    requires e > 0 && e in journal && e !in accepted && e > stored >= 0
    ensures var s := AtEase(journal, stored, Fresh, decided, accepted);
            var v := Fresh.(highest := e, confirmed := e);
            var steps := ToBatch(e) + FlushOnce();
            Possible(s, steps) && AllOrderly(s, steps)
            && After(s, steps) == AtEase(journal, e, v, decided[e := {}], accepted + {e})
  {
    OneEventIsTaken(journal, stored, decided, accepted, e);
    OneEventIsWritten(journal, stored, decided, accepted, e);
    hide *;
    RunsCompose(AtEase(journal, stored, Fresh, decided, accepted), ToBatch(e), FlushOnce());
  }

  // --- a producer overtaken by another ----------------------------------------------------------

  /** Start up over an empty journal and insert two events. */
  function TwoInserted(): seq<Step> { [Restart, GoLive, Insert(1)] + [Insert(2)] }

  lemma TwoAreInserted()
    ensures Possible(Empty, TwoInserted()) && AllOrderly(Empty, TwoInserted())
    ensures After(Empty, TwoInserted()) == AtEase({1, 2}, 0, Fresh, map[], {})
  {
    OneIsInserted();
    assert Next(AtEase({1}, 0, Fresh, map[], {}), Insert(2)) == AtEase({1, 2}, 0, Fresh, map[], {});
    AndThen(Empty, [Restart, GoLive, Insert(1)], Insert(2));
  }

  /** The second of two events is registered, routed and written before the first is registered. */
  function Overtaking(): seq<Step> { TwoInserted() + (ToBatch(2) + FlushOnce()) }

  function Overtaken(): System {
    AtEase({1, 2}, 2, Fresh.(highest := 2, confirmed := 2), map[2 := {}], {2})
  }

  lemma LateIsLost()
    ensures var s := Overtaken();
            Enabled(s, RegisterEvent(1)) && !Orderly(s, RegisterEvent(1)) && 1 <= Floor(s)
            && Enabled(Next(s, RegisterEvent(1)), Push(1))
            && !Guarantee(Next(Next(s, RegisterEvent(1)), Push(1)))
  {
    var t := Next(Next(Overtaken(), RegisterEvent(1)), Push(1));
    assert 1 in t.accepted && 1 !in t.decided && t.stored == 2;
  }

  lemma OvertakingIsARun()
    ensures Possible(Empty, Overtaking()) && AllOrderly(Empty, Overtaking())
    ensures After(Empty, Overtaking()) == Overtaken()
  {
    TwoAreInserted();
    OneEventIsServed({1, 2}, 0, map[], {}, 2);
    assert {} + {2} == {2};
    hide Possible, AllOrderly, After, TwoInserted, ToBatch, FlushOnce;
    RunsCompose(Empty, TwoInserted(), ToBatch(2) + FlushOnce());
  }

  /** Each step of the run is one the environment may take, up to the late registration, which
      is not; the event is then accepted, and lost: it has no row and lies below the mark. */
  lemma ProducersCanOvertake()
    ensures Init(Empty) && Possible(Empty, Overtaking()) && AllOrderly(Empty, Overtaking())
    ensures var s := After(Empty, Overtaking());
            Enabled(s, RegisterEvent(1)) && !Orderly(s, RegisterEvent(1)) && 1 <= Floor(s)
    ensures Possible(Empty, Overtaking() + [RegisterEvent(1)] + [Push(1)])
    ensures !Guarantee(After(Empty, Overtaking() + [RegisterEvent(1)] + [Push(1)]))
  {
    assert Init(Empty);
    hide *;
    OvertakingIsARun();
    LateIsLost();
    AndThen(Empty, Overtaking(), RegisterEvent(1));
    AndThen(Empty, Overtaking() + [RegisterEvent(1)], Push(1));
  }

  // --- live after a replay that stopped --------------------------------------------------------------

  /** One event is accepted, the process dies before routing it, and at the next start the
      replay stops at once, because the event cannot be routed. */
  function Stranded(): seq<Step> {
    [Restart, GoLive, Insert(1)] + ([RegisterEvent(1), Push(1), Crash] + [Restart])
  }

  function StrandedState(): System {
    System({1}, {}, 0, Replaying(0), Fresh, {}, Idle, map[], {1}, multiset{})
  }

  lemma OneIsInserted()
    ensures Possible(Empty, [Restart, GoLive, Insert(1)]) && AllOrderly(Empty, [Restart, GoLive, Insert(1)])
    ensures After(Empty, [Restart, GoLive, Insert(1)]) == AtEase({1}, 0, Fresh, map[], {})
  {
    assert Next(Next(Next(Empty, Restart), GoLive), Insert(1)) == AtEase({1}, 0, Fresh, map[], {});
    ThreeSteps(Empty, Restart, GoLive, Insert(1));
  }

  lemma OneIsAcceptedAndForgotten()
    ensures var s := AtEase({1}, 0, Fresh, map[], {});
            var steps := [RegisterEvent(1), Push(1), Crash] + [Restart];
            Possible(s, steps) && AllOrderly(s, steps) && After(s, steps) == StrandedState()
  {
    var s := AtEase({1}, 0, Fresh, map[], {});
    var s3 := Next(Next(Next(s, RegisterEvent(1)), Push(1)), Crash);
    ThreeSteps(s, RegisterEvent(1), Push(1), Crash);
    assert Next(s3, Restart) == StrandedState();
    AndThen(s, [RegisterEvent(1), Push(1), Crash], Restart);
  }

  lemma OneIsStranded()
    ensures Possible(Empty, Stranded()) && AllOrderly(Empty, Stranded())
    ensures After(Empty, Stranded()) == StrandedState()
  {
    OneIsInserted();
    OneIsAcceptedAndForgotten();
    hide Possible, AllOrderly, After, AtEase, StrandedState;
    RunsCompose(Empty, [Restart, GoLive, Insert(1)], [RegisterEvent(1), Push(1), Crash] + [Restart]);
  }

  /** Live routing starts all the same, and one more event is served. */
  function LiveAfterAll(): seq<Step> { [GoLive] + ([Insert(2)] + (ToBatch(2) + FlushOnce())) }

  /** No batch of that replay can be routed; going live then breaks the promise. */
  lemma AStoppedReplayCanStrand()
    ensures Init(Empty) && Possible(Empty, Stranded()) && AllOrderly(Empty, Stranded())
    ensures var s := After(Empty, Stranded());
            Enabled(s, GoLive) && !Orderly(s, GoLive) && Owed(s, 1)
            && (forall pending, route: int -> Routing | route(1) == Unroutable :: !Enabled(s, ReplayBatch(pending, route)))
    ensures Possible(Empty, Stranded() + LiveAfterAll())
    ensures !Guarantee(After(Empty, Stranded() + LiveAfterAll()))
  {
    OneIsStranded();
    var s := StrandedState();
    var live := Next(s, GoLive);
    var both := Next(live, Insert(2));
    assert live == AtEase({1}, 0, Fresh, map[], {1}) && both == AtEase({1, 2}, 0, Fresh, map[], {1});
    forall pending, route: int -> Routing | route(1) == Unroutable
      ensures !Enabled(s, ReplayBatch(pending, route))
    {
      OnlyOneToReplay(pending);
    }
    OneEventIsServed({1, 2}, 0, map[], {1}, 2);
    var served := ToBatch(2) + FlushOnce();
    var t := AtEase({1, 2}, 2, Fresh.(highest := 2, confirmed := 2), map[2 := {}], {1} + {2});
    assert 1 in t.accepted && 1 !in t.decided && t.stored == 2;
    hide Possible, AllOrderly, After, Stranded, ToBatch, FlushOnce;
    Then(live, Insert(2), served);
    Then(s, GoLive, [Insert(2)] + served);
    RunsCompose(Empty, Stranded(), LiveAfterAll());
  }

  lemma OnlyOneToReplay(pending: seq<int>)
    ensures pending != [] && IsNextBatch({1}, 0, ROUTE_BATCH_SIZE, pending) ==> 1 in pending
  {
    if pending != [] && IsNextBatch({1}, 0, ROUTE_BATCH_SIZE, pending) {
      assert pending[0] in pending;
    }
  }
}
