/** The router and the store it writes, as objects (internal/app/router.go,
    pkg/storage/watermark.go). Each method is proved to have the effect that
    RouterState gives it; RouterProtocol reasons about those effects over runs.

    Whatever the environment decides is a parameter: whether a configuration read
    succeeds (`route`), whether a transaction commits, and the clock. */
module EventRouter {
  import opened Basics
  import opened RouterState

  /** What one flush meets. */
  datatype Attempt = Attempt(route: int -> Routing, committed: bool, now: int)

  /** A router together with the tables it writes. */
  datatype Machine = Machine(v: Volatile, outbox: set<Delivery>, mark: int)

  ghost function FlushStep(m: Machine, a: Attempt): Machine {
    if m.v.batch == [] then m
    else
      var taken := Routable(m.v.batch, a.route);
      var begun := BeginFlush(m.v, a.route);
      if a.committed then
        Machine(FinishFlush(begun, taken),
                m.outbox + Groups(m.v.batch, a.route),
                Max(m.mark, MarkIfSettled(begun, Elements(taken))))
      else
        m.(v := FailFlush(begun, taken, a.now))
  }

  function ReceiveStep(v: Volatile): Volatile
    requires v.queue != []
  {
    v.(batch := v.batch + [v.queue[0]], queue := v.queue[1..])
  }

  /** drain: receive until the queue is empty, flushing whenever the batch fills.
      The k-th flush meets env(k). */
  ghost function DrainStep(m: Machine, env: nat -> Attempt, k: nat): Machine
    decreases |m.v.queue|
  {
    if m.v.queue == [] then FlushStep(m, env(k))
    else
      var next := m.(v := ReceiveStep(m.v));
      if |next.v.batch| >= ROUTE_BATCH_SIZE then DrainStep(FlushStep(next, env(k)), env, k + 1)
      else DrainStep(next, env, k)
  }

  /** The journal rows above a mark, oldest first, at most `limit` of them. */
  function EventsAfter(journal: seq<int>, mark: int, limit: nat): seq<int> {
    if journal == [] || limit == 0 then []
    else if journal[0] > mark then [journal[0]] + EventsAfter(journal[1..], mark, limit - 1)
    else EventsAfter(journal[1..], mark, limit)
  }

  predicate Ascending(journal: seq<int>) {
    forall i, j | 0 <= i < j < |journal| :: journal[i] < journal[j]
  }

  class Store {
    var journal: seq<int>
    var outbox: set<Delivery>
    var mark: int

    /** EnqueueRouted: deliveries and watermark move together or not at all. */
    method EnqueueRouted(groups: set<Delivery>, watermark: int, committed: bool) returns (ok: bool)
      modifies this`outbox, this`mark
      ensures ok == committed
      ensures outbox == if committed then old(outbox) + groups else old(outbox)
      ensures mark == if committed then Max(old(mark), watermark) else old(mark)
    {
      if committed {
        outbox := outbox + groups;
        if mark < watermark {
          mark := watermark;
        }
      }
      ok := committed;
    }
  }

  class Router {
    const store: Store
    var queue: seq<int>
    var batch: seq<int>
    var deferred: seq<int>
    var inflight: set<int>
    var highest: int
    var confirmed: int
    var backoff: int
    var retryAt: int

    /** Journal seqs start at one, and zero means "none" to settle. */
    ghost predicate Valid()
      reads this
    {
      forall n | n in inflight :: n > 0
    }

    ghost function View(): Volatile
      reads this
    {
      Volatile(queue, batch, deferred, inflight, highest, confirmed, backoff, retryAt)
    }

    ghost function State(): Machine
      reads this, store
    {
      Machine(View(), store.outbox, store.mark)
    }

    constructor (store: Store)
      ensures this.store == store && Valid() && View() == Fresh
    {
      this.store := store;
      queue, batch, deferred, inflight := [], [], [], {};
      highest, confirmed, backoff, retryAt := 0, 0, 0, 0;
    }

    method LowestOwed(owed: set<int>) returns (lowest: int)
      requires forall n | n in owed :: n > 0
      ensures lowest == if owed == {} then 0 else Smallest(owed)
    {
      lowest := 0;
      var rest := owed;
      while rest != {}
        invariant rest <= owed
        invariant lowest == 0 <==> rest == owed
        invariant lowest != 0 ==> lowest in owed - rest && forall n | n in owed - rest :: lowest <= n
        decreases rest
      {
        var n := Pick(rest);
        if lowest == 0 || n < lowest {
          lowest := n;
        }
        assert owed - (rest - {n}) == (owed - rest) + {n};
        rest := rest - {n};
      }
      if owed != {} {
        assert owed - rest == owed;
      }
    }

    method MarkOf(owed: set<int>) returns (mark: int)
      requires forall n | n in owed :: n > 0
      ensures mark == SafeMark(owed, highest, confirmed)
    {
      var lowest := LowestOwed(owed);
      mark := highest;
      if lowest > 0 {
        mark := lowest - 1;
      }
      if mark < confirmed {
        mark := confirmed;
      }
    }

    /** markIfSettled: nothing is settled by asking. */
    method AskMark(seqs: seq<int>) returns (mark: int)
      requires Valid()
      ensures mark == MarkIfSettled(View(), Elements(seqs))
    {
      mark := MarkOf(inflight - Elements(seqs));
    }

    method SettleSeqs(seqs: seq<int>, single: int) returns (mark: int)
      requires Valid()
      modifies this`inflight, this`confirmed
      ensures Valid()
      ensures View() == Settle(old(View()), Elements(seqs) + if single != 0 then {single} else {})
      ensures mark == confirmed
    {
      inflight := inflight - Elements(seqs);
      if single != 0 {
        inflight := inflight - {single};
      }
      assert inflight == old(inflight) - (Elements(seqs) + if single != 0 then {single} else {});
      confirmed := MarkOf(inflight);
      mark := confirmed;
    }

    /** accept: the event is owed from here on, unless the queue is full. */
    method Accept(e: int) returns (taken: bool)
      requires Valid() && e > 0
      modifies this
      ensures Valid()
      ensures taken == (|old(queue)| < ROUTE_QUEUE_DEPTH)
      ensures taken ==> View() == Register(old(View()), e).(queue := old(queue) + [e])
      ensures !taken ==> View() == Settle(Register(old(View()), e), {e})
    {
      if e > highest {
        highest := e;
      }
      inflight := inflight + {e};
      if |queue| < ROUTE_QUEUE_DEPTH {
        queue := queue + [e];
        taken := true;
      } else {
        assert Elements<int>([]) + {e} == {e};
        var _ := SettleSeqs([], e);
        taken := false;
      }
    }

    method Defer1(e: int)
      modifies this`deferred
      ensures deferred == DeferAll(old(deferred), [e])
    {
      if |deferred| >= ROUTE_QUEUE_DEPTH {
        return;
      }
      deferred := deferred + [e];
    }

    method FailedFlush(now: int)
      modifies this`backoff, this`retryAt
      ensures backoff == NextBackoff(old(backoff)) && retryAt == now + backoff
    {
      if backoff == 0 {
        backoff := ROUTE_RETRY_MIN;
      } else if backoff < ROUTE_RETRY_MAX {
        backoff := backoff * 2;
        if backoff > ROUTE_RETRY_MAX {
          backoff := ROUTE_RETRY_MAX;
        }
      }
      retryAt := now + backoff;
    }

    method TakeDeferredEvents(now: int)
      modifies this`batch, this`deferred
      ensures View() == TakeDeferred(old(View()), now)
    {
      if |deferred| == 0 || now < retryAt {
        return;
      }
      var room := ROUTE_BATCH_SIZE - |batch|;
      if room <= 0 {
        assert deferred[..0] == [] && deferred[0..] == deferred;
        return;
      }
      if room > |deferred| {
        room := |deferred|;
      }
      batch := batch + deferred[..room];
      deferred := deferred[room..];
    }

    /** The first half of flush: decide every event, putting the undecided aside. */
    method RouteBatch(route: int -> Routing) returns (routed: seq<int>, groups: set<Delivery>)
      modifies this`batch, this`deferred
      ensures View() == BeginFlush(old(View()), route)
      ensures routed == Routable(old(batch), route)
      ensures groups == Groups(old(batch), route)
    {
      hide DeferAll, Routable, Unrouted, Groups;
      var pending := batch;
      batch := [];
      groups, routed := {}, [];
      ghost var held := deferred;
      var i := 0;
      while i < |pending|
        invariant 0 <= i <= |pending|
        invariant batch == []
        invariant Routable(pending, route) == routed + Routable(pending[i..], route)
        invariant Groups(pending, route) == groups + Groups(pending[i..], route)
        invariant DeferAll(held, Unrouted(pending, route)) == DeferAll(deferred, Unrouted(pending[i..], route))
      {
        var e := pending[i];
        DecideNext(pending, route, i);
        match route(e) {
          case Unroutable =>
            DeferOneThenRest(deferred, e, Unrouted(pending[i + 1..], route));
            Defer1(e);
          case Routed(sinks) =>
            routed := routed + [e];
            groups := groups + Rows(e, sinks);
        }
        i := i + 1;
      }
      assert pending[i..] == [];
      NothingLeftToDecide(route, deferred);
    }

    /** The failing half of flush: the routed events wait for another attempt. */
    method DeferRouted(routed: seq<int>)
      modifies this`deferred
      ensures deferred == DeferAll(old(deferred), routed)
    {
      var k := 0;
      while k < |routed|
        invariant 0 <= k <= |routed|
        invariant DeferAll(old(deferred), routed) == DeferAll(deferred, routed[k..])
      {
        DeferOneThenRest(deferred, routed[k], routed[k + 1..]);
        assert routed[k..] == [routed[k]] + routed[k + 1..];
        Defer1(routed[k]);
        k := k + 1;
      }
      assert routed[k..] == [];
    }

    /** flush: route the batch, write it with its mark, and only then settle it. */
    method Flush(a: Attempt)
      requires Valid()
      modifies this, store`outbox, store`mark
      ensures Valid()
      ensures State() == FlushStep(old(State()), a)
    {
      if |batch| == 0 {
        return;
      }
      var routed, groups := RouteBatch(a.route);
      var mark := AskMark(routed);
      var ok := store.EnqueueRouted(groups, mark, a.committed);
      if !ok {
        DeferRouted(routed);
        FailedFlush(a.now);
        return;
      }
      var _ := SettleSeqs(routed, 0);
      assert Elements(routed) + {} == Elements(routed);
      backoff := 0;
      retryAt := 0;
    }

    /** One tick of the router's loop: what is due joins the batch, which is then flushed. */
    method Tick(a: Attempt)
      requires Valid()
      modifies this, store`outbox, store`mark
      ensures Valid()
      ensures State() == FlushStep(old(State()).(v := TakeDeferred(old(View()), a.now)), a)
    {
      TakeDeferredEvents(a.now);
      Flush(a);
    }

    /** One receive by the router's loop, which flushes when the batch fills. */
    method Receive(a: Attempt)
      requires Valid() && queue != []
      modifies this, store`outbox, store`mark
      ensures Valid()
      ensures var next := old(State()).(v := ReceiveStep(old(View())));
              State() == if |next.v.batch| >= ROUTE_BATCH_SIZE then FlushStep(next, a) else next
    {
      batch := batch + [queue[0]];
      queue := queue[1..];
      if |batch| >= ROUTE_BATCH_SIZE {
        Flush(a);
      }
    }

    /** drain: ends with nothing queued and nothing batched, whatever the writes do. */
    method Drain(env: nat -> Attempt)
      requires Valid()
      modifies this, store`outbox, store`mark
      ensures Valid()
      ensures State() == DrainStep(old(State()), env, 0)
      ensures queue == [] && batch == []
    {
      var k := 0;
      while queue != []
        invariant Valid()
        invariant DrainStep(old(State()), env, 0) == DrainStep(State(), env, k)
        decreases |queue|
      {
        batch := batch + [queue[0]];
        queue := queue[1..];
        if |batch| >= ROUTE_BATCH_SIZE {
          Flush(env(k));
          k := k + 1;
        }
      }
      Flush(env(k));
    }
  }

  lemma DecideNext(pending: seq<int>, route: int -> Routing, i: nat)
    requires i < |pending|
    ensures var e := pending[i];
            var rest := pending[i + 1..];
            match route(e)
            case Unroutable =>
              && Routable(pending[i..], route) == Routable(rest, route)
              && Unrouted(pending[i..], route) == [e] + Unrouted(rest, route)
              && Groups(pending[i..], route) == Groups(rest, route)
            case Routed(sinks) =>
              && Routable(pending[i..], route) == [e] + Routable(rest, route)
              && Unrouted(pending[i..], route) == Unrouted(rest, route)
              && Groups(pending[i..], route) == Rows(e, sinks) + Groups(rest, route)
  {
    assert pending[i..][1..] == pending[i + 1..];
  }

  lemma NothingLeftToDecide(route: int -> Routing, deferred: seq<int>)
    ensures Routable([], route) == [] && Groups([], route) == {}
    ensures DeferAll(deferred, Unrouted([], route)) == deferred
  {
  }

  lemma DeferOneThenRest(deferred: seq<int>, e: int, rest: seq<int>)
    ensures DeferAll(deferred, [e] + rest) == DeferAll(DeferAll(deferred, [e]), rest)
  {
    if |deferred| < ROUTE_QUEUE_DEPTH {
      assert ([e] + rest)[..RoomFor(deferred, 1 + |rest|)]
          == [e] + rest[..RoomFor(deferred + [e], |rest|)];
    }
  }

  /** How a replay ended. */
  datatype ReplayEnd = Completed | ReadFailed | Stopped(at: int) | WriteFailed

  /** What one replayed batch meets. */
  datatype ReplayAttempt = ReplayAttempt(readable: bool, route: int -> Routing, committed: bool)

  /** The rows that decisions ask for. */
  ghost predicate IsDecided(decided: map<int, set<Sink>>, d: Delivery) {
    d.seqNo in decided && d.sink in decided[d.seqNo]
  }

  /** Each decision is an answer the configuration gave for that event during the replay. */
  ghost predicate AreAnswers(decided: map<int, set<Sink>>, env: nat -> ReplayAttempt) {
    forall n | n in decided :: exists k: nat :: env(k).route(n) == Routed(decided[n])
  }

  /** The decisions of one batch that could all be routed. */
  ghost function BatchDecisions(pending: seq<int>, route: int -> Routing): map<int, set<Sink>>
    requires forall n | n in pending :: route(n).Routed?
  {
    map n | n in pending :: route(n).sinks
  }

  lemma BatchIsAnswered(decided: map<int, set<Sink>>, env: nat -> ReplayAttempt, k: nat, pending: seq<int>)
    requires AreAnswers(decided, env) && forall n | n in pending :: env(k).route(n).Routed?
    ensures AreAnswers(decided + BatchDecisions(pending, env(k).route), env)
  {
    var more := decided + BatchDecisions(pending, env(k).route);
    forall n | n in more
      ensures exists j: nat :: env(j).route(n) == Routed(more[n])
    {
      if n in pending {
        assert env(k).route(n) == Routed(more[n]);
      } else {
        assert n in decided;
      }
    }
  }

  lemma OneMoreDecided(pending: seq<int>, i: nat, route: int -> Routing, groups: set<Delivery>)
    requires i < |pending| && forall n | n in pending[..i + 1] :: route(n).Routed?
    requires forall n | n in pending[..i] :: route(n).Routed?
    requires forall d: Delivery :: d in groups <==> IsDecided(BatchDecisions(pending[..i], route), d)
    ensures forall d: Delivery ::
              d in groups + Rows(pending[i], route(pending[i]).sinks)
              <==> IsDecided(BatchDecisions(pending[..i + 1], route), d)
  {
    assert pending[..i + 1] == pending[..i] + [pending[i]];
  }

  lemma DecisionsJoin(before: set<Delivery>, outbox: set<Delivery>, groups: set<Delivery>,
                      decided: map<int, set<Sink>>, more: map<int, set<Sink>>)
    requires forall n | n in more :: n !in decided
    requires forall d: Delivery :: d in outbox <==> d in before || IsDecided(decided, d)
    requires forall d: Delivery :: d in groups <==> IsDecided(more, d)
    ensures forall d: Delivery :: d in outbox + groups <==> d in before || IsDecided(decided + more, d)
  {
  }

  /** replayUnrouted, whatever the configuration answers for each event at each attempt. */
  method ReplayUnrouted(store: Store, env: nat -> ReplayAttempt)
    returns (end: ReplayEnd, ghost decided: map<int, set<Sink>>)
    requires Ascending(store.journal)
    modifies store`outbox, store`mark
    ensures store.mark >= old(store.mark)
    // one decision for each event the mark has moved over, and exactly its rows
    ensures forall n :: n in decided <==> n in store.journal && old(store.mark) < n <= store.mark
    ensures AreAnswers(decided, env)
    ensures forall d: Delivery :: d in store.outbox <==> d in old(store.outbox) || IsDecided(decided, d)
    ensures end == Completed ==> forall n | n in store.journal :: n <= store.mark
    ensures end.Stopped? ==> end.at in store.journal && store.mark < end.at
    ensures end.Stopped? ==> exists k: nat :: env(k).route(end.at) == Unroutable
  {
    hide AreAnswers, IsDecided, Rows, IsNextBatch, EventsAfter, Above;
    var mark := store.mark;
    var k := 0;
    decided := map[];
    NothingToAnswer(env);
    NothingDecided();
    while true
      invariant mark == store.mark >= old(store.mark)
      invariant forall n :: n in decided <==> n in store.journal && old(store.mark) < n <= mark
      invariant AreAnswers(decided, env)
      invariant forall d: Delivery :: d in store.outbox <==> d in old(store.outbox) || IsDecided(decided, d)
      decreases |Above(store.journal, mark)|
    {
      if !env(k).readable {
        end := ReadFailed;
        return;
      }
      var pending := EventsAfter(store.journal, mark, ROUTE_BATCH_SIZE);
      EventsAfterIsNextBatch(store.journal, mark, ROUTE_BATCH_SIZE);
      if pending == [] {
        EmptyBatchIsTheEnd(store.journal, mark, ROUTE_BATCH_SIZE);
        end := Completed;
        return;
      }
      NextBatchIsBetween(store.journal, mark, ROUTE_BATCH_SIZE, pending);
      var groups: set<Delivery> := {};
      ghost var outbox := store.outbox;
      var i := 0;
      assert BatchDecisions(pending[..0], env(k).route) == map[];
      while i < |pending|
        invariant 0 <= i <= |pending|
        invariant store.outbox == outbox && store.mark == mark
        invariant forall n | n in pending[..i] :: env(k).route(n).Routed?
        invariant forall d: Delivery :: d in groups <==> IsDecided(BatchDecisions(pending[..i], env(k).route), d)
      {
        assert pending[i] in pending;
        match env(k).route(pending[i]) {
          case Unroutable =>
            assert env(k).route(pending[i]) == Unroutable;
            end := Stopped(pending[i]);
            return;
          case Routed(sinks) =>
            assert forall n | n in pending[..i + 1] :: n in pending[..i] || n == pending[i];
            OneMoreDecided(pending, i, env(k).route, groups);
            groups := groups + Rows(pending[i], sinks);
        }
        i := i + 1;
      }
      assert pending[..i] == pending;
      BatchIsAnswered(decided, env, k, pending);
      ghost var before := mark;
      assert pending[|pending| - 1] in pending;
      mark := pending[|pending| - 1];
      AboveShrinks(store.journal, before, mark);
      assert forall n | n in BatchDecisions(pending, env(k).route) :: n in pending && n !in decided;
      DecisionsJoin(old(store.outbox), store.outbox, groups, decided, BatchDecisions(pending, env(k).route));
      var ok := store.EnqueueRouted(groups, mark, env(k).committed);
      if !ok {
        end := WriteFailed;
        return;
      }
      decided := decided + BatchDecisions(pending, env(k).route);
      k := k + 1;
    }
  }

  lemma EmptyBatchIsTheEnd(journal: seq<int>, mark: int, limit: nat)
    requires limit > 0 && IsNextBatch(Elements(journal), mark, limit, [])
    ensures forall n | n in journal :: n <= mark
  {
    assert forall n | n in journal :: n in Elements(journal);
  }

  lemma NothingDecided()
    ensures forall d: Delivery :: !IsDecided(map[], d)
  {
  }

  lemma NothingToAnswer(env: nat -> ReplayAttempt)
    ensures AreAnswers(map[], env)
  {
  }

  /** The next batch is every event between the mark it starts from and the one it ends on. */
  lemma NextBatchIsBetween(journal: seq<int>, mark: int, limit: nat, pending: seq<int>)
    requires IsNextBatch(Elements(journal), mark, limit, pending) && pending != []
    ensures mark < pending[|pending| - 1]
    ensures forall n :: n in pending <==> n in journal && mark < n <= pending[|pending| - 1]
  {
    assert forall n :: n in journal <==> n in Elements(journal);
    assert pending[|pending| - 1] in pending;
  }

  ghost function Above(journal: seq<int>, mark: int): set<int> {
    set n | n in journal && n > mark
  }

  lemma AboveShrinks(journal: seq<int>, low: int, high: int)
    requires low < high && high in journal
    ensures |Above(journal, high)| < |Above(journal, low)|
  {
    assert Above(journal, high) < Above(journal, low) by {
      assert high in Above(journal, low) && high !in Above(journal, high);
    }
    StrictSubsetIsSmaller(Above(journal, high), Above(journal, low));
  }

  lemma StrictSubsetIsSmaller(a: set<int>, b: set<int>)
    requires a < b
    ensures |a| < |b|
  {
    assert |b| == |a| + |b - a| by { assert b == a + (b - a); }
    assert b - a != {};
  }

  /** The next batch to replay: what is above the mark, in order, cut at the limit. */
  ghost predicate IsNextBatch(journal: set<int>, mark: int, limit: nat, pending: seq<int>) {
    && Ascending(pending)
    && |pending| <= limit
    && (forall n | n in pending :: n in journal && n > mark)
    && (forall n | n in journal && n > mark ::
          n in pending || (|pending| == limit && forall p | p in pending :: p < n))
  }

  lemma {:induction false} EventsAfterAreAbove(journal: seq<int>, mark: int, limit: nat)
    ensures |EventsAfter(journal, mark, limit)| <= limit
    ensures forall n | n in EventsAfter(journal, mark, limit) :: n in journal && n > mark
  {
    if journal != [] && limit != 0 {
      EventsAfterAreAbove(journal[1..], mark, if journal[0] > mark then limit - 1 else limit);
      assert journal == [journal[0]] + journal[1..];
    }
  }

  lemma {:induction false} EventsAfterAscend(journal: seq<int>, mark: int, limit: nat)
    requires Ascending(journal)
    ensures Ascending(EventsAfter(journal, mark, limit))
  {
    if journal != [] && limit != 0 {
      var tail := journal[1..];
      if journal[0] > mark {
        EventsAfterAscend(tail, mark, limit - 1);
        EventsAfterAreAbove(tail, mark, limit - 1);
        var rest := EventsAfter(tail, mark, limit - 1);
        forall i | 0 <= i < |rest|
          ensures journal[0] < rest[i]
        {
          assert rest[i] in rest && rest[i] in tail;
        }
      } else {
        EventsAfterAscend(tail, mark, limit);
      }
    }
  }

  /** What the answer leaves out lies behind a full batch. */
  lemma {:induction false} EventsAfterSkipsNothing(journal: seq<int>, mark: int, limit: nat, n: int)
    requires Ascending(journal) && n in journal && n > mark
    ensures var pending := EventsAfter(journal, mark, limit);
            n in pending || (|pending| == limit && forall p | p in pending :: p < n)
  {
    if limit != 0 {
      var tail := journal[1..];
      assert journal == [journal[0]] + tail;
      var k := if journal[0] > mark then limit - 1 else limit;
      if n != journal[0] {
        assert n in tail;
        EventsAfterSkipsNothing(tail, mark, k, n);
        assert forall m | m in tail :: journal[0] < m;
      }
    }
  }

  /** EventsAfter answers the next batch, so an empty answer means nothing is left. */
  lemma EventsAfterIsNextBatch(journal: seq<int>, mark: int, limit: nat)
    requires Ascending(journal)
    ensures IsNextBatch(Elements(journal), mark, limit, EventsAfter(journal, mark, limit))
  {
    EventsAfterAreAbove(journal, mark, limit);
    EventsAfterAscend(journal, mark, limit);
    forall n | n in Elements(journal) && n > mark
      ensures var pending := EventsAfter(journal, mark, limit);
              n in pending || (|pending| == limit && forall p | p in pending :: p < n)
    {
      EventsAfterSkipsNothing(journal, mark, limit, n);
    }
  }
}
