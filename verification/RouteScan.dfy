/** The scan of Select (pkg/notify/route.go:316-332) and what it chooses, stated on the
    routes as the caller listed them. */
module RouteScan {
  import opened Basics
  import opened Text
  import opened RouteSelect

  predicate Fires(r: Route, matches: Route -> bool) { r.enabled && matches(r) }

  predicate Ends(r: Route, matches: Route -> bool) { Fires(r, matches) && r.stop }

  /** Every sink the scan meets, repeats and all, in the order it meets them. */
  function Wanted(ordered: seq<Route>, matches: Route -> bool): seq<string> {
    if ordered == [] then []
    else if !Fires(ordered[0], matches) then Wanted(ordered[1..], matches)
    else ordered[0].sinkIds + if ordered[0].stop then [] else Wanted(ordered[1..], matches)
  }

  /** The first mention of each. */
  function Distinct(xs: seq<string>): seq<string> {
    if xs == [] then []
    else
      var d := Distinct(xs[..|xs| - 1]);
      var x := xs[|xs| - 1];
      if x in d then d else d + [x]
  }

  function Selected(routes: seq<Route>, matches: Route -> bool): seq<string> {
    Distinct(Wanted(Arranged(routes), matches))
  }

  lemma DistinctStep(xs: seq<string>, x: string)
    ensures Distinct(xs + [x]) == if x in Distinct(xs) then Distinct(xs) else Distinct(xs) + [x]
  {
    assert (xs + [x])[..|xs|] == xs;
  }

  lemma {:induction false} DistinctKeepsEach(xs: seq<string>)
    ensures NoDuplicates(Distinct(xs))
    ensures forall x :: x in Distinct(xs) <==> x in xs
  {
    if xs != [] {
      var front := xs[..|xs| - 1];
      DistinctKeepsEach(front);
      assert xs == front + [xs[|xs| - 1]];
    }
  }

  // --- the scan -------------------------------------------------------------------------

  lemma WantedStep(rs: seq<Route>, i: nat, matches: Route -> bool)
    requires i < |rs|
    ensures Wanted(rs[i..], matches) ==
            if !Fires(rs[i], matches) then Wanted(rs[i + 1..], matches)
            else rs[i].sinkIds + if rs[i].stop then [] else Wanted(rs[i + 1..], matches)
  {
    assert rs[i..][1..] == rs[i + 1..];
    hide Fires;
  }

  /** What the scan has met once the first `k` sinks of a route are done. */
  function Met(met: seq<string>, sinkIds: seq<string>, k: nat): seq<string>
    requires k <= |sinkIds|
  {
    met + sinkIds[..k]
  }

  lemma MetSteps(met: seq<string>, sinkIds: seq<string>, k: nat)
    requires k < |sinkIds|
    ensures Met(met, sinkIds, k + 1) == Met(met, sinkIds, k) + [sinkIds[k]]
  {
  }

  lemma MetEnds(met: seq<string>, sinkIds: seq<string>)
    ensures Met(met, sinkIds, 0) == met && Met(met, sinkIds, |sinkIds|) == met + sinkIds
  {
    assert sinkIds[..|sinkIds|] == sinkIds;
  }

  /** The inner loop: the sinks of one route, each unless already chosen. */
  method TakeSinks(sinkIds: seq<string>, out0: seq<string>, seen0: set<string>, ghost met: seq<string>)
    returns (out: seq<string>, seen: set<string>)
    requires out0 == Distinct(met) && seen0 == Elements(out0)
    ensures out == Distinct(met + sinkIds) && seen == Elements(out)
  {
    out, seen := out0, seen0;
    MetEnds(met, sinkIds);
    hide Distinct, Met;
    var k := 0;
    while k < |sinkIds|
      invariant 0 <= k <= |sinkIds|
      invariant out == Distinct(Met(met, sinkIds, k)) && seen == Elements(out)
    {
      DistinctStep(Met(met, sinkIds, k), sinkIds[k]);
      MetSteps(met, sinkIds, k);
      if sinkIds[k] !in seen {
        ElementsAppend(out, [sinkIds[k]]);
        seen := seen + {sinkIds[k]};
        out := out + [sinkIds[k]];
      }
      k := k + 1;
    }
  }

  /** The scan stands before route `i`, having met `met`. */
  ghost predicate ScanAt(rs: seq<Route>, i: nat, matches: Route -> bool, met: seq<string>)
    requires i <= |rs|
  {
    Wanted(rs, matches) == met + Wanted(rs[i..], matches)
  }

  lemma ScanStarts(rs: seq<Route>, matches: Route -> bool)
    ensures ScanAt(rs, 0, matches, []) && Distinct([]) == []
  {
    assert rs[0..] == rs;
    hide Wanted;
    assert [] + Wanted(rs, matches) == Wanted(rs, matches);
  }

  lemma ScanEnds(rs: seq<Route>, matches: Route -> bool, met: seq<string>)
    requires ScanAt(rs, |rs|, matches, met)
    ensures Wanted(rs, matches) == met
  {
    assert rs[|rs|..] == [];
  }

  lemma ScanMoves(rs: seq<Route>, i: nat, matches: Route -> bool, met: seq<string>)
    requires i < |rs| && ScanAt(rs, i, matches, met)
    ensures !Fires(rs[i], matches) ==> ScanAt(rs, i + 1, matches, met)
    ensures Fires(rs[i], matches) && !rs[i].stop ==> ScanAt(rs, i + 1, matches, met + rs[i].sinkIds)
    ensures Fires(rs[i], matches) && rs[i].stop ==> Wanted(rs, matches) == met + rs[i].sinkIds
  {
    WantedStep(rs, i, matches);
    hide Wanted, Fires;
    var rest := Wanted(rs[i + 1..], matches);
    assert met + (rs[i].sinkIds + rest) == (met + rs[i].sinkIds) + rest;
    assert rs[i].sinkIds + [] == rs[i].sinkIds;
  }

  /** The scan over the sorted routes. */
  method Scan(ordered: array<Route>, matches: Route -> bool) returns (out: seq<string>)
    ensures out == Distinct(Wanted(ordered[..], matches))
  {
    ghost var rs := ordered[..];
    ScanStarts(rs, matches);
    hide Wanted, Distinct, ScanAt;
    var seen: set<string> := {};
    out := [];
    ghost var met: seq<string> := [];
    var i := 0;
    while i < ordered.Length
      invariant 0 <= i <= ordered.Length == |rs|
      invariant out == Distinct(met) && seen == Elements(out)
      invariant ScanAt(rs, i, matches, met)
    {
      ScanMoves(rs, i, matches, met);
      var r := ordered[i];
      i := i + 1;
      if !r.enabled || !matches(r) {
        continue;
      }
      out, seen := TakeSinks(r.sinkIds, out, seen, met);
      met := met + r.sinkIds;
      if r.stop {
        return;
      }
    }
    ScanEnds(rs, matches, met);
  }

  /** Select: sort a copy of the routes, then scan. */
  method Select(routes: seq<Route>, matches: Route -> bool) returns (out: seq<string>)
    ensures out == Selected(routes, matches)
  {
    hide Arranged, Wanted, Distinct;
    var ordered := new Route[|routes|](i requires 0 <= i < |routes| => routes[i]);
    assert ordered[..] == routes;
    SortRoutes(ordered);
    out := Scan(ordered, matches);
  }

  // --- what is chosen, on the routes as listed ----------------------------------------------

  ghost predicate Reached(ordered: seq<Route>, matches: Route -> bool, k: nat)
    requires k < |ordered|
  {
    forall l: nat | l < k :: !Ends(ordered[l], matches)
  }

  ghost predicate Mentions(ordered: seq<Route>, matches: Route -> bool, k: nat, s: string)
    requires k < |ordered|
  {
    Fires(ordered[k], matches) && s in ordered[k].sinkIds && Reached(ordered, matches, k)
  }

  lemma {:induction false} WantedExactly(ordered: seq<Route>, matches: Route -> bool, s: string)
    ensures s in Wanted(ordered, matches) <==> exists k: nat :: k < |ordered| && Mentions(ordered, matches, k, s)
  {
    if ordered == [] {
      return;
    }
    var rest := ordered[1..];
    WantedExactly(rest, matches, s);
    if Fires(ordered[0], matches) && s in ordered[0].sinkIds {
      assert Mentions(ordered, matches, 0, s);
    } else {
      if s in Wanted(ordered, matches) {
        var k: nat :| k < |rest| && Mentions(rest, matches, k, s);
        forall l: nat | l < k + 1
          ensures !Ends(ordered[l], matches)
        {
          if l > 0 {
            assert ordered[l] == rest[l - 1];
          }
        }
        assert Mentions(ordered, matches, k + 1, s);
      }
      if k: nat :| k < |ordered| && Mentions(ordered, matches, k, s) {
        assert !Ends(ordered[0], matches);
        forall l: nat | l < k - 1
          ensures !Ends(rest[l], matches)
        {
          assert rest[l] == ordered[l + 1];
        }
        assert Mentions(rest, matches, k - 1, s);
      }
    }
  }

  /** Route `i` as listed is not shut out: no matching stop rule is evaluated before it. */
  ghost predicate Open(routes: seq<Route>, matches: Route -> bool, i: nat)
    requires i < |routes|
  {
    forall j: nat | j < |routes| && Ends(routes[j], matches) :: !Earlier(routes, j, i)
  }

  ghost predicate Chooses(routes: seq<Route>, matches: Route -> bool, i: nat, s: string)
    requires i < |routes|
  {
    Fires(routes[i], matches) && s in routes[i].sinkIds && Open(routes, matches, i)
  }

  lemma PlaceOf(routes: seq<Route>, i: nat) returns (k: nat)
    requires i < |routes|
    ensures k < |routes| && Places(routes, |routes|)[k] == i
  {
    PlacesAreTheEvaluationOrder(routes, |routes|);
    assert i in Elements(Places(routes, |routes|));
    k :| k < |routes| && Places(routes, |routes|)[k] == i;
  }

  lemma PlacesAreOrdered(routes: seq<Route>, l: nat, k: nat)
    requires l < k < |routes|
    ensures |Places(routes, |routes|)| == |routes|
    ensures Earlier(routes, Places(routes, |routes|)[l], Places(routes, |routes|)[k])
  {
    PlacesAreTheEvaluationOrder(routes, |routes|);
    hide Earlier, Places;
  }

  lemma ArrangedAt(routes: seq<Route>, k: nat)
    requires k < |routes|
    ensures |Arranged(routes)| == |Places(routes, |routes|)| == |routes| && Places(routes, |routes|)[k] < |routes|
    ensures Arranged(routes)[k] == routes[Places(routes, |routes|)[k]]
  {
    PlacesAreTheEvaluationOrder(routes, |routes|);
    hide Places;
  }

  lemma ReachedHasNoneBefore(routes: seq<Route>, matches: Route -> bool, k: nat, j: nat)
    requires k < |routes| && Reached(Arranged(routes), matches, k)
    requires j < |routes| && Ends(routes[j], matches)
    ensures !Earlier(routes, j, Places(routes, |routes|)[k])
  {
    hide Earlier, Ends, Places, Arranged;
    var l := PlaceOf(routes, j);
    ArrangedAt(routes, l);
    assert l >= k;
    if l > k {
      PlacesAreOrdered(routes, k, l);
      EarlierIsStrict(routes, Places(routes, |routes|)[k], j);
    } else {
      EarlierIsStrict(routes, j, j);
    }
  }

  lemma ReachedIsOpen(routes: seq<Route>, matches: Route -> bool, k: nat)
    requires k < |routes| && Reached(Arranged(routes), matches, k)
    ensures Open(routes, matches, Places(routes, |routes|)[k])
  {
    hide Earlier, Ends, Places, Arranged, Reached;
    forall j: nat | j < |routes| && Ends(routes[j], matches)
      ensures !Earlier(routes, j, Places(routes, |routes|)[k])
    {
      ReachedHasNoneBefore(routes, matches, k, j);
    }
  }

  lemma OpenIsReached(routes: seq<Route>, matches: Route -> bool, k: nat)
    requires k < |routes|
    ensures |Places(routes, |routes|)| == |routes|
    ensures Reached(Arranged(routes), matches, k) <==> Open(routes, matches, Places(routes, |routes|)[k])
  {
    ArrangedAt(routes, k);
    hide Earlier, Ends, Places, Arranged;
    if Reached(Arranged(routes), matches, k) {
      ReachedIsOpen(routes, matches, k);
    } else {
      var l: nat :| l < k && Ends(Arranged(routes)[l], matches);
      ArrangedAt(routes, l);
      PlacesAreOrdered(routes, l, k);
    }
  }

  /** Select names a sink exactly when a matching enabled route lists it and no matching stop
      rule comes before that route; each sink is named once. */
  lemma SelectedExactly(routes: seq<Route>, matches: Route -> bool, s: string)
    ensures s in Selected(routes, matches) <==> exists i: nat :: i < |routes| && Chooses(routes, matches, i, s)
    ensures NoDuplicates(Selected(routes, matches))
  {
    var ordered := Arranged(routes);
    var places := Places(routes, |routes|);
    DistinctKeepsEach(Wanted(ordered, matches));
    WantedExactly(ordered, matches, s);
    hide Wanted, Distinct, Places, Open, Reached, Fires;
    if k: nat :| k < |ordered| && Mentions(ordered, matches, k, s) {
      OpenIsReached(routes, matches, k);
      assert Chooses(routes, matches, places[k], s);
    }
    if i: nat :| i < |routes| && Chooses(routes, matches, i, s) {
      var k := PlaceOf(routes, i);
      OpenIsReached(routes, matches, k);
      assert Mentions(ordered, matches, k, s);
    }
  }
}
