/** Which destinations an event is sent to (pkg/notify/route.go): the routes in priority
    order, scanned up to the first matching stop rule, every sink once.

    Whether a rule matches one event at that event's time is a parameter: a predicate on
    routes. */
module RouteSelect {
  import opened Basics
  import opened Text

  datatype Route = Route(id: string, enabled: bool, priority: int, rule: string, sinkIds: seq<string>, stop: bool)

  /** The test that ends an insertion: ascending priority, then ascending id. */
  predicate InOrder(a: Route, b: Route) {
    a.priority < b.priority || (a.priority == b.priority && AtMost(a.id, b.id))
  }

  predicate SameKey(a: Route, b: Route) { a.priority == b.priority && a.id == b.id }

  lemma OrderIsTotal(a: Route, b: Route)
    ensures InOrder(a, b) || InOrder(b, a)
    ensures InOrder(a, b) && InOrder(b, a) <==> SameKey(a, b)
  {
    AtMostIsTotal(a.id, b.id);
    if AtMost(a.id, b.id) && AtMost(b.id, a.id) {
      AtMostIsAntisymmetric(a.id, b.id);
    }
    AtMostIsTotal(a.id, a.id);
  }

  lemma OrderIsTransitive(a: Route, b: Route, c: Route)
    requires InOrder(a, b) && InOrder(b, c)
    ensures InOrder(a, c)
  {
    if a.priority == b.priority == c.priority {
      AtMostIsTransitive(a.id, b.id, c.id);
    }
  }

  // --- the order --------------------------------------------------------------------

  /** Indices into `rs`, with `n` moved left past every route it must precede. */
  function Inserted(rs: seq<Route>, places: seq<nat>, n: nat): (r: seq<nat>)
    requires n < |rs| && forall k | 0 <= k < |places| :: places[k] < n
    ensures |r| == |places| + 1
    ensures forall k | 0 <= k < |r| :: r[k] <= n
  {
    if places == [] || InOrder(rs[places[|places| - 1]], rs[n]) then places + [n]
    else Inserted(rs, places[..|places| - 1], n) + [places[|places| - 1]]
  }

  /** Where insertion sort leaves the first `n` routes: the index each position came from. */
  function Places(rs: seq<Route>, n: nat): (r: seq<nat>)
    requires n <= |rs|
    ensures |r| == n
    ensures forall k | 0 <= k < |r| :: r[k] < n
  {
    if n == 0 then [] else Inserted(rs, Places(rs, n - 1), n - 1)
  }

  function At(rs: seq<Route>, places: seq<nat>): (r: seq<Route>)
    requires forall k | 0 <= k < |places| :: places[k] < |rs|
    ensures |r| == |places|
  {
    seq(|places|, k requires 0 <= k < |places| => rs[places[k]])
  }

  function Arranged(rs: seq<Route>): seq<Route> { At(rs, Places(rs, |rs|)) }

  /** Route `i` is evaluated before route `j`: by key, and among equals as listed. */
  predicate Earlier(rs: seq<Route>, i: nat, j: nat)
    requires i < |rs| && j < |rs|
  {
    InOrder(rs[i], rs[j]) && (InOrder(rs[j], rs[i]) ==> i < j)
  }

  lemma EarlierIsStrict(rs: seq<Route>, i: nat, j: nat)
    requires i < |rs| && j < |rs|
    ensures !(Earlier(rs, i, j) && Earlier(rs, j, i))
    ensures i != j ==> Earlier(rs, i, j) || Earlier(rs, j, i)
  {
    OrderIsTotal(rs[i], rs[j]);
  }

  lemma EarlierIsTransitive(rs: seq<Route>, i: nat, j: nat, k: nat)
    requires i < |rs| && j < |rs| && k < |rs|
    requires Earlier(rs, i, j) && Earlier(rs, j, k)
    ensures Earlier(rs, i, k)
  {
    OrderIsTransitive(rs[i], rs[j], rs[k]);
    if InOrder(rs[k], rs[i]) {
      OrderIsTransitive(rs[k], rs[i], rs[j]);
      OrderIsTransitive(rs[j], rs[k], rs[i]);
    }
  }

  ghost predicate InEvaluationOrder(rs: seq<Route>, places: seq<nat>)
    requires forall k | 0 <= k < |places| :: places[k] < |rs|
  {
    forall k, l | 0 <= k < l < |places| :: Earlier(rs, places[k], places[l])
  }

  lemma {:induction false} InsertedHolds(rs: seq<Route>, places: seq<nat>, n: nat)
    requires n < |rs| && forall k | 0 <= k < |places| :: places[k] < n
    ensures Elements(Inserted(rs, places, n)) == Elements(places) + {n}
  {
    hide InOrder;
    if places == [] || InOrder(rs[places[|places| - 1]], rs[n]) {
      ElementsAppend(places, [n]);
    } else {
      var last := places[|places| - 1];
      var front := places[..|places| - 1];
      InsertedHolds(rs, front, n);
      ElementsAppend(Inserted(rs, front, n), [last]);
      assert places == front + [last];
      ElementsAppend(front, [last]);
    }
  }

  ghost predicate AllBefore(rs: seq<Route>, places: seq<nat>, j: nat)
    requires j < |rs| && forall k | 0 <= k < |places| :: places[k] < |rs|
  {
    forall k | 0 <= k < |places| :: Earlier(rs, places[k], j)
  }

  lemma OrderedAppend(rs: seq<Route>, places: seq<nat>, j: nat)
    requires j < |rs| && forall k | 0 <= k < |places| :: places[k] < |rs|
    requires InEvaluationOrder(rs, places) && AllBefore(rs, places, j)
    ensures InEvaluationOrder(rs, places + [j])
  {
    hide Earlier;
  }

  /** One more index at the end of the listing goes after its equals. */
  lemma {:induction false} InsertedIsOrdered(rs: seq<Route>, places: seq<nat>, n: nat)
    requires n < |rs| && forall k | 0 <= k < |places| :: places[k] < n
    requires InEvaluationOrder(rs, places)
    ensures InEvaluationOrder(rs, Inserted(rs, places, n))
  {
    if places == [] {
      return;
    }
    var last := places[|places| - 1];
    var front := places[..|places| - 1];
    OrderIsTotal(rs[last], rs[n]);
    if InOrder(rs[last], rs[n]) {
      assert Earlier(rs, last, n);
      hide Earlier, InOrder;
      forall k | 0 <= k < |places|
        ensures Earlier(rs, places[k], n)
      {
        if k < |places| - 1 {
          EarlierIsTransitive(rs, places[k], last, n);
        }
      }
      OrderedAppend(rs, places, n);
    } else {
      assert Earlier(rs, n, last);
      InsertedIsOrdered(rs, front, n);
      InsertedHolds(rs, front, n);
      var r := Inserted(rs, front, n);
      assert Inserted(rs, places, n) == r + [last];
      hide Earlier, InOrder, Inserted;
      forall k | 0 <= k < |r|
        ensures Earlier(rs, r[k], last)
      {
        assert r[k] in Elements(r);
        if r[k] != n {
          var m :| 0 <= m < |front| && front[m] == r[k];
          assert Earlier(rs, places[m], places[|places| - 1]);
        }
      }
      OrderedAppend(rs, r, last);
    }
  }

  function Below(n: nat): (s: set<nat>)
    ensures forall k: nat :: k in s <==> k < n
  {
    if n == 0 then {} else Below(n - 1) + {n - 1}
  }

  lemma PlacesStep(rs: seq<Route>, n: nat)
    requires 0 < n <= |rs|
    ensures Places(rs, n) == Inserted(rs, Places(rs, n - 1), n - 1)
    ensures Places(rs, 0) == []
  {
    hide Inserted;
  }

  /** The sort puts every route exactly once, by priority, then id, then as listed. */
  lemma {:induction false} PlacesAreTheEvaluationOrder(rs: seq<Route>, n: nat)
    requires n <= |rs|
    ensures InEvaluationOrder(rs, Places(rs, n))
    ensures Elements(Places(rs, n)) == Below(n)
  {
    if n > 0 {
      PlacesAreTheEvaluationOrder(rs, n - 1);
      PlacesStep(rs, n);
      hide InEvaluationOrder, Inserted, Places;
      var before := Places(rs, n - 1);
      InsertedIsOrdered(rs, before, n - 1);
      InsertedHolds(rs, before, n - 1);
    }
  }

  // --- insertion sort in place -----------------------------------------------------------

  lemma InsertedSkips(rs: seq<Route>, places: seq<nat>, j: nat, n: nat)
    requires n < |rs| && 0 < j <= |places| && forall k | 0 <= k < |places| :: places[k] < n
    requires !InOrder(rs[places[j - 1]], rs[n])
    ensures Inserted(rs, places[..j], n) + places[j..] == Inserted(rs, places[..j - 1], n) + places[j - 1..]
  {
    assert places[..j][..j - 1] == places[..j - 1];
    hide InOrder, Inserted;
    assert places[j - 1..] == [places[j - 1]] + places[j..];
  }

  lemma InsertedStops(rs: seq<Route>, places: seq<nat>, j: nat, n: nat)
    requires n < |rs| && j <= |places| && forall k | 0 <= k < |places| :: places[k] < n
    requires j == 0 || InOrder(rs[places[j - 1]], rs[n])
    ensures Inserted(rs, places[..j], n) == places[..j] + [n]
  {
    hide InOrder;
  }

  /** `s` with its entry `i` moved left to position `j`. */
  function Shifted<T>(s: seq<T>, j: nat, i: nat): seq<T>
    requires j <= i < |s|
  {
    s[..j] + [s[i]] + s[j..i] + s[i + 1..]
  }

  lemma ShiftStep<T>(s: seq<T>, j: nat, i: nat)
    requires 0 < j <= i < |s|
    ensures Shifted(s, j, i)[j - 1] == s[j - 1] && Shifted(s, j, i)[j] == s[i]
    ensures Shifted(s, j, i)[j - 1 := s[i]][j := s[j - 1]] == Shifted(s, j - 1, i)
  {
  }

  lemma ShiftIsInsertion(rs: seq<Route>, places: seq<nat>, i: nat, j: nat, s: seq<Route>)
    requires j <= i < |rs| && |places| == i && forall k | 0 <= k < i :: places[k] < i
    requires s == At(rs, places) + rs[i..]
    requires Inserted(rs, places, i) == places[..j] + [i] + places[j..]
    ensures Shifted(s, j, i) == At(rs, Inserted(rs, places, i)) + rs[i + 1..]
  {
    hide InOrder, Inserted;
  }

  /** The inner loop of Select's sort: entry `i` moves left until the one before it may stay there. */
  method MoveLeft(a: array<Route>, i: nat, ghost rs: seq<Route>, ghost places: seq<nat>)
    requires i < a.Length == |rs| && |places| == i && forall k | 0 <= k < i :: places[k] < i
    requires a[..] == At(rs, places) + rs[i..]
    modifies a
    ensures a[..] == At(rs, Inserted(rs, places, i)) + rs[i + 1..]
  {
    ghost var s := a[..];
    var j := i;
    assert Shifted(s, i, i) == s && places[..i] == places && places[..i] + places[i..] == places;
    assert forall k | 0 <= k < i :: s[k] == rs[places[k]];
    assert s[i] == rs[i];
    hide InOrder, Inserted, Shifted, At;
    while j > 0
      invariant 0 <= j <= i
      invariant a[..] == Shifted(s, j, i)
      invariant Inserted(rs, places, i) == Inserted(rs, places[..j], i) + places[j..]
    {
      ShiftStep(s, j, i);
      var x, y := a[j - 1], a[j];
      assert x == a[..][j - 1] && y == a[..][j];
      if InOrder(x, y) {
        break;
      }
      InsertedSkips(rs, places, j, i);
      a[j - 1], a[j] := y, x;
      j := j - 1;
    }
    InsertedStops(rs, places, j, i);
    ShiftIsInsertion(rs, places, i, j, s);
  }

  /** Select's sort, in place. */
  method SortRoutes(a: array<Route>)
    modifies a
    ensures a[..] == Arranged(old(a[..]))
  {
    ghost var rs := a[..];
    assert At(rs, Places(rs, 0)) + rs[0..] == rs;
    hide InOrder, Inserted, Places, At;
    var i := 0;
    while i < a.Length
      invariant 0 <= i <= a.Length == |rs|
      invariant a[..] == At(rs, Places(rs, i)) + rs[i..]
    {
      MoveLeft(a, i, rs, Places(rs, i));
      PlacesStep(rs, i + 1);
      i := i + 1;
    }
    assert rs[i..] == [] && Arranged(rs) + [] == Arranged(rs);
  }
}
