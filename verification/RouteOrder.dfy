/** What the order of the routes decides (pkg/notify/route.go:299-333). */
module RouteOrder {
  import opened Basics
  import opened RouteSelect
  import opened RouteScan
  import Text

  // --- the order of the sinks -----------------------------------------------------------

  function Without(xs: seq<string>, gone: seq<string>): seq<string> {
    if xs == [] then []
    else
      var rest := Without(xs[..|xs| - 1], gone);
      var x := xs[|xs| - 1];
      if x in gone then rest else rest + [x]
  }

  lemma {:induction false} WithoutHolds(xs: seq<string>, gone: seq<string>)
    ensures forall x :: x in Without(xs, gone) <==> x in xs && x !in gone
  {
    if xs != [] {
      WithoutHolds(xs[..|xs| - 1], gone);
      assert xs == xs[..|xs| - 1] + [xs[|xs| - 1]];
    }
  }

  lemma DistinctHolds(xs: seq<string>, x: string)
    ensures x in Distinct(xs) <==> x in xs
  {
    DistinctKeepsEach(xs);
  }

  lemma WithoutStep(xs: seq<string>, x: string, gone: seq<string>)
    ensures Without(xs + [x], gone) == if x in gone then Without(xs, gone) else Without(xs, gone) + [x]
  {
    assert (xs + [x])[..|xs|] == xs;
  }

  lemma DistinctAppendStep(xs: seq<string>, front: seq<string>, y: string)
    requires Distinct(xs + front) == Distinct(xs) + Without(Distinct(front), xs)
    ensures Distinct(xs + front + [y]) == Distinct(xs) + Without(Distinct(front + [y]), xs)
  {
    DistinctStep(xs + front, y);
    DistinctStep(front, y);
    DistinctHolds(xs + front, y);
    DistinctHolds(front, y);
    WithoutStep(Distinct(front), y, xs);
    hide *;
    var first, kept := Distinct(xs), Without(Distinct(front), xs);
    assert first + (kept + [y]) == first + kept + [y];
    assert y in xs + front <==> y in xs || y in front;
  }

  lemma LastSplits(xs: seq<string>, ys: seq<string>)
    requires ys != []
    ensures ys[..|ys| - 1] + [ys[|ys| - 1]] == ys
    ensures xs + ys[..|ys| - 1] + [ys[|ys| - 1]] == xs + ys
  {
  }

  lemma {:induction false} DistinctAppend(xs: seq<string>, ys: seq<string>)
    ensures Distinct(xs + ys) == Distinct(xs) + Without(Distinct(ys), xs)
  {
    if ys == [] {
      assert xs + ys == xs;
    } else {
      var front := ys[..|ys| - 1];
      var y := ys[|ys| - 1];
      LastSplits(xs, ys);
      hide *;
      DistinctAppend(xs, front);
      DistinctAppendStep(xs, front, y);
    }
  }

  /** The position of the first route the scan reaches that lists sink `s`. */
  function FirstMention(ordered: seq<Route>, matches: Route -> bool, s: string): nat {
    if ordered == [] || (Fires(ordered[0], matches) && s in ordered[0].sinkIds) then 0
    else 1 + FirstMention(ordered[1..], matches, s)
  }

  ghost predicate InPriorityOrder(ordered: seq<Route>, matches: Route -> bool, out: seq<string>) {
    forall p, q | 0 <= p < q < |out| :: FirstMention(ordered, matches, out[p]) <= FirstMention(ordered, matches, out[q])
  }

  lemma {:induction false} WithoutKeepsOrder(ordered: seq<Route>, matches: Route -> bool, out: seq<string>, gone: seq<string>)
    requires InPriorityOrder(ordered, matches, out)
    ensures InPriorityOrder(ordered, matches, Without(out, gone))
  {
    if out != [] {
      var front := out[..|out| - 1];
      var x := out[|out| - 1];
      hide FirstMention;
      WithoutKeepsOrder(ordered, matches, front, gone);
      WithoutHolds(front, gone);
      var w := Without(front, gone);
      if x !in gone {
        forall p | 0 <= p < |w|
          ensures FirstMention(ordered, matches, w[p]) <= FirstMention(ordered, matches, x)
        {
          assert w[p] in front;
          var k :| 0 <= k < |front| && front[k] == w[p];
          assert out[k] == front[k];
        }
      }
    }
  }

  /** The sinks come in the order of the first route to ask for each. */
  lemma {:induction false} SinksComeInPriorityOrder(ordered: seq<Route>, matches: Route -> bool)
    ensures InPriorityOrder(ordered, matches, Distinct(Wanted(ordered, matches)))
  {
    if ordered == [] {
      return;
    }
    var rest := ordered[1..];
    SinksComeInPriorityOrder(rest, matches);
    var later := Distinct(Wanted(rest, matches));
    if !Fires(ordered[0], matches) {
      OneLater(ordered, matches, later, []);
    } else {
      var first := ordered[0].sinkIds;
      var tail := if ordered[0].stop then [] else Wanted(rest, matches);
      DistinctAppend(first, tail);
      DistinctKeepsEach(first);
      var kept := Without(Distinct(tail), first);
      WithoutHolds(Distinct(tail), first);
      if ordered[0].stop {
        assert InPriorityOrder(rest, matches, Distinct(tail)) by { assert Distinct(tail) == []; }
      }
      WithoutKeepsOrder(rest, matches, Distinct(tail), first);
      OneLater(ordered, matches, kept, first);
      FirstIsFirst(ordered, matches, Distinct(first), kept);
    }
  }

  /** Sinks the first route does not take are one route further when it is put in front. */
  lemma OneLater(ordered: seq<Route>, matches: Route -> bool, out: seq<string>, first: seq<string>)
    requires ordered != [] && InPriorityOrder(ordered[1..], matches, out)
    requires first == if Fires(ordered[0], matches) then ordered[0].sinkIds else []
    requires forall x | x in out :: x !in first
    ensures InPriorityOrder(ordered, matches, out)
  {
    forall p | 0 <= p < |out|
      ensures FirstMention(ordered, matches, out[p]) == 1 + FirstMention(ordered[1..], matches, out[p])
    {
      assert out[p] in out;
    }
    hide FirstMention;
  }

  lemma FirstIsFirst(ordered: seq<Route>, matches: Route -> bool, first: seq<string>, kept: seq<string>)
    requires ordered != [] && Fires(ordered[0], matches)
    requires forall x | x in first :: x in ordered[0].sinkIds
    requires InPriorityOrder(ordered, matches, kept)
    ensures InPriorityOrder(ordered, matches, first + kept)
  {
    forall p | 0 <= p < |first|
      ensures FirstMention(ordered, matches, first[p]) == 0
    {
      assert first[p] in first;
    }
    hide FirstMention, Fires;
  }

  // --- independence of the order of listing --------------------------------------------------

  predicate HasKey(r: Route, priority: int, id: string) { r.priority == priority && r.id == id }

  /** The routes under one key, as listed. */
  function OfKey(rs: seq<Route>, priority: int, id: string): seq<Route> {
    if rs == [] then []
    else OfKey(rs[..|rs| - 1], priority, id)
         + if HasKey(rs[|rs| - 1], priority, id) then [rs[|rs| - 1]] else []
  }

  lemma OfKeyStep(rs: seq<Route>, r: Route, priority: int, id: string)
    ensures OfKey(rs + [r], priority, id) == OfKey(rs, priority, id) + if HasKey(r, priority, id) then [r] else []
  {
    assert (rs + [r])[..|rs|] == rs;
  }

  lemma AtAppend(rs: seq<Route>, places: seq<nat>, n: nat)
    requires n < |rs| && forall k | 0 <= k < |places| :: places[k] < |rs|
    ensures At(rs, places + [n]) == At(rs, places) + [rs[n]]
  {
  }

  lemma {:induction false} InsertionIsStable(rs: seq<Route>, places: seq<nat>, n: nat, priority: int, id: string)
    requires n < |rs| && forall k | 0 <= k < |places| :: places[k] < n
    ensures OfKey(At(rs, Inserted(rs, places, n)), priority, id)
         == OfKey(At(rs, places), priority, id) + if HasKey(rs[n], priority, id) then [rs[n]] else []
  {
    if places == [] || InOrder(rs[places[|places| - 1]], rs[n]) {
      AtAppend(rs, places, n);
      OfKeyStep(At(rs, places), rs[n], priority, id);
    } else {
      var last := places[|places| - 1];
      var front := places[..|places| - 1];
      assert places == front + [last];
      InsertionIsStable(rs, front, n, priority, id);
      AtAppend(rs, front, last);
      AtAppend(rs, Inserted(rs, front, n), last);
      OfKeyStep(At(rs, front), rs[last], priority, id);
      OfKeyStep(At(rs, Inserted(rs, front, n)), rs[last], priority, id);
      OrderIsTotal(rs[last], rs[n]);
      hide At, OfKey, InOrder;
      assert !(HasKey(rs[last], priority, id) && HasKey(rs[n], priority, id));
    }
  }

  /** Routes under one key keep the order they were listed in. */
  lemma {:induction false} SortIsStable(rs: seq<Route>, n: nat, priority: int, id: string)
    requires n <= |rs|
    ensures OfKey(At(rs, Places(rs, n)), priority, id) == OfKey(rs[..n], priority, id)
  {
    if n > 0 {
      SortIsStable(rs, n - 1, priority, id);
      PlacesStep(rs, n);
      InsertionIsStable(rs, Places(rs, n - 1), n - 1, priority, id);
      assert rs[..n] == rs[..n - 1] + [rs[n - 1]];
      OfKeyStep(rs[..n - 1], rs[n - 1], priority, id);
      hide At, OfKey, HasKey, Places, Inserted;
    }
  }

  ghost predicate SameUnderEveryKey(a: seq<Route>, b: seq<Route>) {
    forall priority: int, id: string :: OfKey(a, priority, id) == OfKey(b, priority, id)
  }

  ghost predicate Ascending(rs: seq<Route>) {
    forall k, l | 0 <= k < l < |rs| :: InOrder(rs[k], rs[l])
  }

  lemma ArrangedAscends(rs: seq<Route>)
    ensures Ascending(Arranged(rs))
  {
    PlacesAreTheEvaluationOrder(rs, |rs|);
    hide Places, InOrder;
    var places := Places(rs, |rs|);
    forall k, l | 0 <= k < l < |rs|
      ensures InOrder(Arranged(rs)[k], Arranged(rs)[l])
    {
      assert Earlier(rs, places[k], places[l]);
    }
  }

  lemma {:induction false} OfKeyFinds(rs: seq<Route>, priority: int, id: string)
    ensures OfKey(rs, priority, id) != [] <==> exists k :: 0 <= k < |rs| && HasKey(rs[k], priority, id)
  {
    if rs != [] {
      var front := rs[..|rs| - 1];
      OfKeyFinds(front, priority, id);
      hide HasKey;
      if k :| 0 <= k < |rs| && HasKey(rs[k], priority, id) {
        assert k < |rs| - 1 ==> HasKey(front[k], priority, id);
      }
      if k :| 0 <= k < |front| && HasKey(front[k], priority, id) {
        assert HasKey(rs[k], priority, id);
      }
      assert HasKey(rs[|rs| - 1], priority, id) ==> OfKey(rs, priority, id) != [];
    }
  }

  lemma LastCoversTheOther(a: seq<Route>, b: seq<Route>)
    requires a != [] && Ascending(b) && SameUnderEveryKey(a, b)
    ensures b != [] && InOrder(a[|a| - 1], b[|b| - 1])
  {
    var x := a[|a| - 1];
    OfKeyFinds(a, x.priority, x.id);
    OfKeyFinds(b, x.priority, x.id);
    hide OfKey;
    assert HasKey(a[|a| - 1], x.priority, x.id);
    assert OfKey(a, x.priority, x.id) == OfKey(b, x.priority, x.id);
    var k :| 0 <= k < |b| && HasKey(b[k], x.priority, x.id);
    OrderIsTotal(x, b[k]);
    if k < |b| - 1 {
      OrderIsTransitive(x, b[k], b[|b| - 1]);
    }
  }

  lemma Cancel(a: seq<Route>, b: seq<Route>, tail: seq<Route>)
    requires a + tail == b + tail
    ensures a == b
  {
    assert a == (a + tail)[..|a + tail| - |tail|];
    assert b == (b + tail)[..|b + tail| - |tail|];
  }

  /** Two ascending lists with the same routes under every key are the same list. */
  lemma {:induction false} AscendingIsDetermined(a: seq<Route>, b: seq<Route>)
    requires Ascending(a) && Ascending(b) && SameUnderEveryKey(a, b)
    ensures a == b
  {
    if a == [] {
      if b != [] {
        LastCoversTheOther(b, a);
      }
      return;
    }
    LastCoversTheOther(a, b);
    LastCoversTheOther(b, a);
    var x, y := a[|a| - 1], b[|b| - 1];
    var a', b' := a[..|a| - 1], b[..|b| - 1];
    OrderIsTotal(x, y);
    assert a == a' + [x] && b == b' + [y];
    hide InOrder;
    assert OfKey(a, x.priority, x.id) == OfKey(b, x.priority, x.id);
    OfKeyStep(a', x, x.priority, x.id);
    OfKeyStep(b', y, x.priority, x.id);
    hide OfKey;
    assert x == OfKey(a, x.priority, x.id)[|OfKey(a, x.priority, x.id)| - 1];
    assert x == y;
    forall priority: int, id: string
      ensures OfKey(a', priority, id) == OfKey(b', priority, id)
    {
      OfKeyStep(a', x, priority, id);
      OfKeyStep(b', x, priority, id);
      assert OfKey(a, priority, id) == OfKey(b, priority, id);
      Cancel(OfKey(a', priority, id), OfKey(b', priority, id), if HasKey(x, priority, id) then [x] else []);
    }
    AscendingIsDetermined(a', b');
  }

  /** Two listings of routes are evaluated alike exactly when they agree under every key. */
  lemma ListingMattersOnlyWithinAKey(a: seq<Route>, b: seq<Route>)
    ensures Arranged(a) == Arranged(b) <==> SameUnderEveryKey(a, b)
  {
    forall priority: int, id: string
      ensures OfKey(Arranged(a), priority, id) == OfKey(a, priority, id)
      ensures OfKey(Arranged(b), priority, id) == OfKey(b, priority, id)
    {
      SortIsStable(a, |a|, priority, id);
      SortIsStable(b, |b|, priority, id);
      assert a[..|a|] == a && b[..|b|] == b;
    }
    hide OfKey, Arranged;
    if SameUnderEveryKey(a, b) {
      ArrangedAscends(a);
      ArrangedAscends(b);
      AscendingIsDetermined(Arranged(a), Arranged(b));
    }
    if Arranged(a) == Arranged(b) {
      forall priority: int, id: string
        ensures OfKey(a, priority, id) == OfKey(b, priority, id)
      {
        assert OfKey(Arranged(a), priority, id) == OfKey(a, priority, id);
        assert OfKey(Arranged(b), priority, id) == OfKey(b, priority, id);
      }
    }
  }

  ghost predicate KeysAreDistinct(rs: seq<Route>) {
    forall k, l | 0 <= k < l < |rs| :: !SameKey(rs[k], rs[l])
  }

  lemma {:induction false} OneRouteAKey(rs: seq<Route>, priority: int, id: string)
    requires KeysAreDistinct(rs)
    ensures |OfKey(rs, priority, id)| <= 1
    ensures forall r :: r in OfKey(rs, priority, id) <==> r in rs && HasKey(r, priority, id)
  {
    if rs != [] {
      var front := rs[..|rs| - 1];
      var r := rs[|rs| - 1];
      assert rs == front + [r];
      OneRouteAKey(front, priority, id);
      OfKeyFinds(front, priority, id);
      hide OfKey;
      OfKeyStep(front, r, priority, id);
      forall k | 0 <= k < |front|
        ensures !(HasKey(front[k], priority, id) && HasKey(r, priority, id))
      {
        assert !SameKey(rs[k], rs[|rs| - 1]);
      }
    }
  }

  /** With no two routes on one key, Select answers alike however the routes are listed. */
  lemma ListingDoesNotMatter(a: seq<Route>, b: seq<Route>, matches: Route -> bool)
    requires KeysAreDistinct(a) && KeysAreDistinct(b)
    requires forall r :: r in a <==> r in b
    ensures Selected(a, matches) == Selected(b, matches)
  {
    hide OfKey, KeysAreDistinct, Arranged, Wanted, Distinct;
    forall priority: int, id: string
      ensures OfKey(a, priority, id) == OfKey(b, priority, id)
    {
      OneRouteAKey(a, priority, id);
      OneRouteAKey(b, priority, id);
      SameAtMostOne(OfKey(a, priority, id), OfKey(b, priority, id));
    }
    ListingMattersOnlyWithinAKey(a, b);
  }

  lemma SameAtMostOne(x: seq<Route>, y: seq<Route>)
    requires |x| <= 1 && |y| <= 1 && forall r :: r in x <==> r in y
    ensures x == y
  {
    assert |x| == 1 ==> x[0] in y;
    assert |y| == 1 ==> y[0] in x;
  }

  /** Two routes on one key are evaluated as listed, and that can change the answer. */
  lemma TiedRoutesKeepTheirListing()
    ensures exists a: seq<Route>, b: seq<Route>, matches: Route -> bool ::
              multiset(a) == multiset(b) && Selected(a, matches) != Selected(b, matches)
  {
    var r := Route("r", true, 0, "", ["x"], true);
    var s := Route("r", true, 0, "", ["y"], true);
    var all: Route -> bool := (_: Route) => true;
    AtMostItself();
    assert InOrder(r, s) && InOrder(s, r);
    TwoTied(r, s, all);
    TwoTied(s, r, all);
    var a: seq<Route> := [r, s];
    var b: seq<Route> := [s, r];
    assert multiset(a) == multiset(b);
  }

  lemma AtMostItself()
    ensures Text.AtMost("r", "r")
  {
    assert "r"[1..] == "";
  }

  lemma TwoTied(r: Route, s: Route, matches: Route -> bool)
    requires InOrder(r, s) && Ends(r, matches) && |r.sinkIds| == 1
    ensures Selected([r, s], matches) == r.sinkIds
  {
    var rs := [r, s];
    PlacesStep(rs, 1);
    PlacesStep(rs, 2);
    assert Places(rs, 2) == [0, 1];
    assert Arranged(rs) == rs;
    assert Wanted(rs, matches) == r.sinkIds + [];
    DistinctStep([], r.sinkIds[0]);
    assert [] + [r.sinkIds[0]] == r.sinkIds;
  }
}
