/** What one event router knows, and the effect of each of its critical sections
    (internal/app/router.go). Events are named by their journal seq, which is all
    the in-flight bookkeeping looks at. Times and delays are in milliseconds. */
module RouterState {
  import opened Basics

  const ROUTE_QUEUE_DEPTH := 2048
  const ROUTE_BATCH_SIZE := 50
  const ROUTE_RETRY_MIN := 1000
  const ROUTE_RETRY_MAX := 30000

  type Sink = string

  /** The answer of routedGroupsFor for one event: the configuration could not be
      read, or these are the destinations (possibly none). */
  datatype Routing = Unroutable | Routed(sinks: set<Sink>)

  /** One outbox row, unique by event and sink. */
  datatype Delivery = Delivery(seqNo: int, sink: Sink)

  /** A router's volatile state: everything a crash forgets. */
  datatype Volatile = Volatile(
    queue: seq<int>,
    batch: seq<int>,
    deferred: seq<int>,
    inflight: set<int>,
    highest: int,
    confirmed: int,
    backoff: int,
    retryAt: int)

  const Fresh := Volatile([], [], [], {}, 0, 0, 0, 0)

  // --- the watermark ------------------------------------------------------

  /** The mark that is safe while `owed` is still in flight. */
  ghost function SafeMark(owed: set<int>, highest: int, confirmed: int): (mark: int)
    ensures mark >= confirmed
    ensures forall n | n in owed && n > confirmed :: mark < n
    ensures (forall n | n in owed :: n <= highest) && confirmed <= highest ==> mark <= highest
  {
    Max(confirmed, if owed == {} then highest else Smallest(owed) - 1)
  }

  function Register(v: Volatile, e: int): Volatile {
    v.(highest := Max(v.highest, e), inflight := v.inflight + {e})
  }

  ghost function MarkIfSettled(v: Volatile, seqs: set<int>): int {
    SafeMark(v.inflight - seqs, v.highest, v.confirmed)
  }

  ghost function Settle(v: Volatile, seqs: set<int>): Volatile {
    v.(inflight := v.inflight - seqs, confirmed := MarkIfSettled(v, seqs))
  }

  // --- deferring ----------------------------------------------------------

  /** How many of n further events still fit in the deferred list. */
  function RoomFor(deferred: seq<int>, n: nat): nat {
    Min(n, Max(0, ROUTE_QUEUE_DEPTH - |deferred|))
  }

  /** defer1 applied to each event in turn: what fits is kept, in order. */
  function DeferAll(deferred: seq<int>, es: seq<int>): seq<int> {
    deferred + es[..RoomFor(deferred, |es|)]
  }

  /** ... and what does not fit is dropped from the list only. */
  function Overflow(deferred: seq<int>, es: seq<int>): seq<int> {
    es[RoomFor(deferred, |es|)..]
  }

  function NextBackoff(backoff: int): int {
    if backoff == 0 then ROUTE_RETRY_MIN
    else if backoff < ROUTE_RETRY_MAX then Min(backoff * 2, ROUTE_RETRY_MAX)
    else backoff
  }

  function DeferredRoom(v: Volatile): nat {
    Min(Max(0, ROUTE_BATCH_SIZE - |v.batch|), |v.deferred|)
  }

  function TakeDeferred(v: Volatile, now: int): Volatile {
    if v.deferred == [] || now < v.retryAt then v
    else
      var room := DeferredRoom(v);
      v.(batch := v.batch + v.deferred[..room], deferred := v.deferred[room..])
  }

  // --- one flush, cut where it takes and releases the lock -----------------

  /** The events of a batch that could be routed, in order. */
  function Routable(pending: seq<int>, route: int -> Routing): seq<int> {
    if pending == [] then []
    else (if route(pending[0]).Routed? then [pending[0]] else []) + Routable(pending[1..], route)
  }

  function Unrouted(pending: seq<int>, route: int -> Routing): seq<int> {
    if pending == [] then []
    else (if route(pending[0]).Routed? then [] else [pending[0]]) + Unrouted(pending[1..], route)
  }

  /** The rows a decision asks for. */
  function Rows(n: int, sinks: set<Sink>): set<Delivery> {
    set s | s in sinks :: Delivery(n, s)
  }

  function Groups(pending: seq<int>, route: int -> Routing): set<Delivery> {
    if pending == [] then {}
    else (if route(pending[0]).Routed? then Rows(pending[0], route(pending[0]).sinks) else {})
         + Groups(pending[1..], route)
  }

  /** Emptying the batch and putting the unroutable events aside. */
  function BeginFlush(v: Volatile, route: int -> Routing): Volatile {
    v.(batch := [], deferred := DeferAll(v.deferred, Unrouted(v.batch, route)))
  }

  function FailFlush(v: Volatile, taken: seq<int>, now: int): Volatile {
    v.(deferred := DeferAll(v.deferred, taken),
       backoff := NextBackoff(v.backoff),
       retryAt := now + NextBackoff(v.backoff))
  }

  ghost function FinishFlush(v: Volatile, taken: seq<int>): Volatile {
    Settle(v, Elements(taken)).(backoff := 0, retryAt := 0)
  }

  // --- facts about these pieces --------------------------------------------

  /** Every event of a batch is either routable or not, exactly once each. */
  lemma {:induction false} PartitionIsExact(pending: seq<int>, route: int -> Routing)
    ensures multiset(Routable(pending, route)) + multiset(Unrouted(pending, route)) == multiset(pending)
    ensures |Routable(pending, route)| + |Unrouted(pending, route)| == |pending|
    ensures forall n | n in Routable(pending, route) :: n in pending && route(n).Routed?
    ensures forall n | n in pending && route(n).Routed? :: n in Routable(pending, route)
  {
    if pending != [] {
      var n, rest := pending[0], pending[1..];
      PartitionIsExact(rest, route);
      assert pending == [n] + rest;
      PartitionSteps(pending, route);
      hide *;
      OneOfTwo(Routable(rest, route), Unrouted(rest, route), n);
    }
  }

  lemma PartitionSteps(pending: seq<int>, route: int -> Routing)
    requires pending != []
    ensures var r := route(pending[0]).Routed?;
            && Routable(pending, route) == (if r then [pending[0]] else []) + Routable(pending[1..], route)
            && Unrouted(pending, route) == (if r then [] else [pending[0]]) + Unrouted(pending[1..], route)
  {
  }

  lemma OneOfTwo(a: seq<int>, b: seq<int>, n: int)
    ensures multiset([n] + a) + multiset([] + b) == multiset([n]) + (multiset(a) + multiset(b))
    ensures multiset([] + a) + multiset([n] + b) == multiset([n]) + (multiset(a) + multiset(b))
  {
    assert [] + a == a && [] + b == b;
  }

  /** The rows of a flush include every row of every event it could route. */
  lemma {:induction false} GroupsHoldTheDecisions(pending: seq<int>, route: int -> Routing)
    ensures forall n | n in pending && route(n).Routed? :: Rows(n, route(n).sinks) <= Groups(pending, route)
  {
    if pending != [] {
      GroupsHoldTheDecisions(pending[1..], route);
      assert pending == [pending[0]] + pending[1..];
    }
  }

  /** ... and no other row. */
  lemma {:induction false} GroupsHoldNothingElse(pending: seq<int>, route: int -> Routing, d: Delivery)
    requires d in Groups(pending, route)
    ensures d.seqNo in pending && route(d.seqNo).Routed? && d.sink in route(d.seqNo).sinks
  {
    if d in Groups(pending[1..], route) {
      GroupsHoldNothingElse(pending[1..], route, d);
    }
  }

  /** Deferring neither loses nor repeats an event. */
  lemma DeferConserves(deferred: seq<int>, es: seq<int>)
    ensures multiset(DeferAll(deferred, es)) + multiset(Overflow(deferred, es))
         == multiset(deferred) + multiset(es)
    ensures |DeferAll(deferred, es)| <= Max(|deferred|, ROUTE_QUEUE_DEPTH)
  {
    var k := RoomFor(deferred, |es|);
    assert es == es[..k] + es[k..];
  }

  lemma TakeConserves(v: Volatile, now: int)
    ensures var w := TakeDeferred(v, now);
            && multiset(w.batch) + multiset(w.deferred) == multiset(v.batch) + multiset(v.deferred)
            && |w.batch| <= Max(|v.batch|, ROUTE_BATCH_SIZE)
            && |w.deferred| <= |v.deferred|
  {
    var room := DeferredRoom(v);
    assert v.deferred == v.deferred[..room] + v.deferred[room..];
  }
}
