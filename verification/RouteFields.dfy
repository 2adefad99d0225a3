/** Who is told of an event, said on the fields of rules and destinations alone
    (pkg/notify/route.go:283-332, internal/app/app.go:904-1076). */
module RouteFields {
  import opened Basics
  import opened Text
  import opened RouteSelect
  import opened RouteScan
  import opened RouteGroups
  import opened RouteDelivery

  // --- the order of ids ------------------------------------------------------------------------

  /** Byte order: at the first place where they differ, or where one ends. */
  ghost predicate Less(a: string, b: string) {
    exists k :: FirstDifference(a, b, k)
  }

  predicate FirstDifference(a: string, b: string, k: int) {
    0 <= k <= |a| && k < |b| && a[..k] == b[..k] && (k == |a| || a[k] < b[k])
  }

  lemma {:induction false} LessIsAtMost(a: string, b: string)
    ensures AtMost(a, b) <==> a == b || Less(a, b)
  {
    if a != "" && b != "" && a[0] == b[0] {
      LessIsAtMost(a[1..], b[1..]);
      if k :| FirstDifference(a[1..], b[1..], k) {
        assert a[..k + 1] == [a[0]] + a[1..][..k] && b[..k + 1] == [b[0]] + b[1..][..k];
        assert FirstDifference(a, b, k + 1);
      }
      if k :| FirstDifference(a, b, k) {
        FurtherOn(a, b, k);
      }
      assert a == [a[0]] + a[1..] && b == [b[0]] + b[1..];
    } else {
      StartsApart(a, b);
    }
  }

  lemma FurtherOn(a: string, b: string, k: int)
    requires a != "" && b != "" && a[0] == b[0] && FirstDifference(a, b, k)
    ensures FirstDifference(a[1..], b[1..], k - 1)
  {
    assert k > 0;
    assert a[1..][..k - 1] == a[..k][1..] && b[1..][..k - 1] == b[..k][1..];
  }

  lemma StartsApart(a: string, b: string)
    requires a == "" || b == "" || a[0] != b[0]
    ensures AtMost(a, b) <==> a == b || Less(a, b)
  {
    if AtMost(a, b) && a != b {
      assert FirstDifference(a, b, 0);
    }
    if k :| FirstDifference(a, b, k) && k > 0 {
      assert a[..k][0] == b[..k][0];
    }
  }

  // --- which rules name a destination ------------------------------------------------------------

  /** Rule j is looked at before rule i: a lower priority number, then a lower id, then the listing. */
  ghost predicate Before(routes: seq<Route>, j: nat, i: nat)
    requires j < |routes| && i < |routes|
  {
    || routes[j].priority < routes[i].priority
    || (routes[j].priority == routes[i].priority
        && (Less(routes[j].id, routes[i].id) || (routes[j].id == routes[i].id && j < i)))
  }

  /** Rule i is enabled, matches and names the destination, and no enabled matching rule that
      stops is looked at before it. */
  ghost predicate Names(routes: seq<Route>, matches: Route -> bool, i: nat, id: string) {
    && i < |routes|
    && routes[i].enabled && matches(routes[i]) && id in routes[i].sinkIds
    && forall j: nat | j < |routes| && routes[j].enabled && matches(routes[j]) && routes[j].stop :: !Before(routes, j, i)
  }

  lemma LessIsStrict(a: string, b: string)
    ensures !(Less(a, b) && Less(b, a)) && !Less(a, a)
  {
    LessIsAtMost(a, b);
    LessIsAtMost(b, a);
    if k :| FirstDifference(a, a, k) {
      assert false;
    }
    if AtMost(a, b) && AtMost(b, a) {
      AtMostIsAntisymmetric(a, b);
    }
  }

  lemma BeforeIsEarlier(routes: seq<Route>, j: nat, i: nat)
    requires j < |routes| && i < |routes|
    ensures Before(routes, j, i) <==> Earlier(routes, j, i)
  {
    LessIsAtMost(routes[j].id, routes[i].id);
    LessIsAtMost(routes[i].id, routes[j].id);
    LessIsStrict(routes[j].id, routes[i].id);
    hide Less, AtMost;
  }

  lemma NamesIsChooses(routes: seq<Route>, matches: Route -> bool, i: nat, id: string)
    requires i < |routes|
    ensures Names(routes, matches, i, id) <==> Chooses(routes, matches, i, id)
  {
    hide Before, Earlier;
    forall j: nat | j < |routes|
      ensures Before(routes, j, i) <==> Earlier(routes, j, i)
    {
      BeforeIsEarlier(routes, j, i);
    }
  }

  /** Select names a destination exactly when some rule does, and names it once. */
  lemma SelectedOnFields(routes: seq<Route>, matches: Route -> bool, id: string)
    ensures id in Selected(routes, matches) <==> exists i: nat :: Names(routes, matches, i, id)
    ensures NoDuplicates(Selected(routes, matches))
  {
    hide Selected, Names, Chooses;
    SelectedExactly(routes, matches, id);
    if i: nat :| i < |routes| && Chooses(routes, matches, i, id) {
      NamesIsChooses(routes, matches, i, id);
    }
    if i: nat :| Names(routes, matches, i, id) {
      NamesAreListed(routes, matches, i, id);
      NamesIsChooses(routes, matches, i, id);
    }
  }

  lemma NamesAreListed(routes: seq<Route>, matches: Route -> bool, i: nat, id: string)
    requires Names(routes, matches, i, id)
    ensures i < |routes|
  {
  }

  // --- which destinations are there ----------------------------------------------------------------

  /** Row m is the last configured under this id, and it is enabled. */
  predicate IsThere(sinks: seq<Sink>, m: nat, id: string) {
    m < |sinks| && sinks[m].id == id && sinks[m].enabled && forall k | m < k < |sinks| :: sinks[k].id != id
  }

  lemma LiveIsThere(sinks: seq<Sink>, id: string)
    ensures Live(ConfigOf(sinks), id) <==> exists m: nat :: IsThere(sinks, m, id)
  {
    hide ConfigOf;
    ConfigIsTheLastRow(sinks, id);
    if id in ConfigOf(sinks) {
      var m :| 0 <= m < |sinks| && sinks[m].id == id && ConfigOf(sinks)[id] == sinks[m]
               && forall j | m < j < |sinks| :: sinks[j].id != id;
      assert sinks[m].enabled ==> IsThere(sinks, m, id);
    }
  }

  /** The event announces that a delivery to this destination was given up: it carries its id or,
      when that is missing or empty, its name. */
  predicate AnnouncesLossOf(e: Event, id: string) {
    && e.kind == "system.sink_dead_letter" && id != ""
    && if "sinkId" in e.params && e.params["sinkId"].Words? && e.params["sinkId"].text != ""
       then e.params["sinkId"].text == id
       else "sink" in e.params && e.params["sink"].Words? && e.params["sink"].text == id
  }

  lemma LossIsTold(e: Event, id: string)
    ensures AnnouncesLossOf(e, id) <==> DeadLetterSink(e) != "" && DeadLetterSink(e) == id
  {
  }

  /** The groups of an event name a destination, once, if and only if a rule names it, it is
      configured and enabled, and it is not the one whose loss the event announces. */
  lemma GroupsOnFields(routes: seq<Route>, matches: Route -> bool, sinks: seq<Sink>, e: Event, style: Style,
                       out: seq<Group>, id: string)
    requires ListsAll(out, GroupMap(Destinations(routes, matches, e), ConfigOf(sinks), e, style))
    ensures (exists g :: 0 <= g < |out| && id in out[g].sinkIds) <==>
            && (exists i: nat :: Names(routes, matches, i, id))
            && (exists m: nat :: IsThere(sinks, m, id))
            && !AnnouncesLossOf(e, id)
    ensures forall g, h | 0 <= g < |out| && 0 <= h < |out| && id in out[g].sinkIds && id in out[h].sinkIds :: g == h
    ensures forall g | 0 <= g < |out| :: NoDuplicates(out[g].sinkIds)
  {
    GroupsNameEachDestinationOnce(routes, matches, sinks, e, style, out, id);
    SelectedExactly(routes, matches, id);
    SelectedOnFields(routes, matches, id);
    LiveIsThere(sinks, id);
    LossIsTold(e, id);
    hide *;
  }
}
