/** What the groups of one event mean (internal/app/app.go:904-1076): each destination is
    named exactly once, with its own rendering, and never for its own dead letter. */
module RouteDelivery {
  import opened Basics
  import opened RouteSelect
  import opened RouteScan
  import opened RouteGroups

  lemma {:induction false} KeptHolds(ids: seq<string>, failing: string)
    ensures forall id :: id in Kept(ids, failing) <==> id in ids && id != failing
    ensures NoDuplicates(ids) ==> NoDuplicates(Kept(ids, failing))
  {
    if ids != [] {
      var front := ids[..|ids| - 1];
      KeptHolds(front, failing);
      assert ids == front + [ids[|ids| - 1]];
      assert NoDuplicates(ids) ==> ids[|ids| - 1] !in front;
    }
  }

  /** The destinations are what Select names, less the one the dead letter is about. */
  lemma DestinationsExactly(routes: seq<Route>, matches: Route -> bool, e: Event)
    ensures forall id :: id in Destinations(routes, matches, e) <==>
                         id in Selected(routes, matches) && (DeadLetterSink(e) == "" || id != DeadLetterSink(e))
    ensures NoDuplicates(Destinations(routes, matches, e))
  {
    DistinctKeepsEach(Wanted(Arranged(routes), matches));
    KeptHolds(Selected(routes, matches), DeadLetterSink(e));
  }

  /** The announcement that a delivery was given up is never sent to the sink that failed. */
  lemma DeadLettersDoNotReturn(name: string, sinkId: string, error: string, routes: seq<Route>, matches: Route -> bool)
    requires sinkId != ""
    ensures DeadLetterSink(DeadLetterEvent(name, sinkId, error)) == sinkId
    ensures sinkId !in Destinations(routes, matches, DeadLetterEvent(name, sinkId, error))
  {
    DestinationsExactly(routes, matches, DeadLetterEvent(name, sinkId, error));
  }

  /** The live destinations with one rendering, in order. */
  function Under(ids: seq<string>, config: map<string, Sink>, e: Event, style: Style, key: Key): seq<string> {
    if ids == [] then []
    else
      var id := ids[|ids| - 1];
      Under(ids[..|ids| - 1], config, e, style, key)
      + if Live(config, id) && style.KeyFor(e, config[id]) == key then [id] else []
  }

  ghost predicate GroupIs(m: map<Key, Group>, ids: seq<string>, config: map<string, Sink>, e: Event, style: Style, key: Key) {
    (key in m <==> Under(ids, config, e, style, key) != [])
    && (key in m ==> m[key] == Group(if key.redacts then style.redact(e) else e, Under(ids, config, e, style, key), key.text))
  }

  /** A group holds exactly the live destinations with its rendering. */
  lemma {:induction false} GroupMapIs(ids: seq<string>, config: map<string, Sink>, e: Event, style: Style, key: Key)
    ensures GroupIs(GroupMap(ids, config, e, style), ids, config, e, style, key)
  {
    if ids != [] {
      var front := ids[..|ids| - 1];
      var id := ids[|ids| - 1];
      GroupMapIs(front, config, e, style, key);
      if Live(config, id) {
        var own := style.KeyFor(e, config[id]);
        GroupMapIs(front, config, e, style, own);
        var m := GroupMap(front, config, e, style);
        assert own !in m ==> Under(front, config, e, style, own) + [id] == [id];
      }
    }
  }

  lemma {:induction false} UnderHolds(ids: seq<string>, config: map<string, Sink>, e: Event, style: Style, key: Key)
    ensures forall id :: id in Under(ids, config, e, style, key) <==>
                         id in ids && Live(config, id) && style.KeyFor(e, config[id]) == key
    ensures NoDuplicates(ids) ==> NoDuplicates(Under(ids, config, e, style, key))
  {
    if ids != [] {
      var front := ids[..|ids| - 1];
      UnderHolds(front, config, e, style, key);
      assert ids == front + [ids[|ids| - 1]];
      assert NoDuplicates(ids) ==> ids[|ids| - 1] !in front;
    }
  }

  /** One group as listed. */
  lemma GroupHolds(ids: seq<string>, config: map<string, Sink>, e: Event, style: Style,
                   out: seq<Group>, keys: seq<Key>, i: nat)
    requires NoDuplicates(ids) && Lists(out, GroupMap(ids, config, e, style), keys) && i < |out|
    ensures NoDuplicates(out[i].sinkIds) && out[i].sinkIds != []
    ensures forall id :: id in out[i].sinkIds <==>
                         id in ids && Live(config, id) && style.KeyFor(e, config[id]) == keys[i]
    ensures out[i].event == (if keys[i].redacts then style.redact(e) else e) && out[i].text == keys[i].text
  {
    GroupMapIs(ids, config, e, style, keys[i]);
    UnderHolds(ids, config, e, style, keys[i]);
  }

  /** Every live destination is in a group, and nothing else is. */
  lemma EveryDestinationIsNamed(ids: seq<string>, config: map<string, Sink>, e: Event, style: Style,
                                out: seq<Group>, keys: seq<Key>, id: string)
    requires NoDuplicates(ids) && Lists(out, GroupMap(ids, config, e, style), keys)
    ensures id in ids && Live(config, id) <==> exists i :: 0 <= i < |out| && id in out[i].sinkIds
  {
    if i :| 0 <= i < |out| && id in out[i].sinkIds {
      GroupHolds(ids, config, e, style, out, keys, i);
    }
    if id in ids && Live(config, id) {
      var key := style.KeyFor(e, config[id]);
      GroupMapIs(ids, config, e, style, key);
      UnderHolds(ids, config, e, style, key);
      assert key in Elements(keys);
      var i :| 0 <= i < |keys| && keys[i] == key;
      assert id in out[i].sinkIds;
    }
  }

  /** No destination is named twice, in one group or across groups. */
  lemma NoDestinationIsNamedTwice(ids: seq<string>, config: map<string, Sink>, e: Event, style: Style,
                                  out: seq<Group>, keys: seq<Key>, i: nat, a: nat, j: nat, b: nat)
    requires NoDuplicates(ids) && Lists(out, GroupMap(ids, config, e, style), keys)
    requires i < |out| && a < |out[i].sinkIds| && j < |out| && b < |out[j].sinkIds|
    requires out[i].sinkIds[a] == out[j].sinkIds[b]
    ensures i == j && a == b
  {
    GroupHolds(ids, config, e, style, out, keys, i);
    GroupHolds(ids, config, e, style, out, keys, j);
    assert out[i].sinkIds[a] in out[i].sinkIds;
  }

  /** Every destination gets its own rendering of the event, masked if it asks for masking. */
  lemma EveryDestinationGetsItsRendering(ids: seq<string>, config: map<string, Sink>, e: Event, style: Style,
                                         out: seq<Group>, keys: seq<Key>, i: nat, id: string)
    requires NoDuplicates(ids) && Lists(out, GroupMap(ids, config, e, style), keys)
    requires i < |out| && id in out[i].sinkIds
    ensures id in config && out[i].event == if config[id].redacts then style.redact(e) else e
    ensures out[i].text == style.render(out[i].event, config[id])
  {
    GroupHolds(ids, config, e, style, out, keys, i);
  }

  lemma KeysOfListing(out: seq<Group>, m: map<Key, Group>) returns (keys: seq<Key>)
    requires ListsAll(out, m)
    ensures Lists(out, m, keys)
  {
    keys :| Lists(out, m, keys);
  }

  /** The groups of an event as routedGroupsFor returns them: destination by destination. */
  lemma GroupsNameEachDestinationOnce(routes: seq<Route>, matches: Route -> bool, sinks: seq<Sink>, e: Event, style: Style,
                                      out: seq<Group>, id: string)
    requires ListsAll(out, GroupMap(Destinations(routes, matches, e), ConfigOf(sinks), e, style))
    ensures (exists i :: 0 <= i < |out| && id in out[i].sinkIds) <==>
            (exists r: nat :: r < |routes| && Chooses(routes, matches, r, id))
            && (DeadLetterSink(e) == "" || id != DeadLetterSink(e))
            && Live(ConfigOf(sinks), id)
    ensures forall i, j | 0 <= i < |out| && 0 <= j < |out| && id in out[i].sinkIds && id in out[j].sinkIds :: i == j
    ensures forall i | 0 <= i < |out| :: NoDuplicates(out[i].sinkIds)
  {
    var ids := Destinations(routes, matches, e);
    DestinationsExactly(routes, matches, e);
    SelectedExactly(routes, matches, id);
    hide *;
    var keys := KeysOfListing(out, GroupMap(ids, ConfigOf(sinks), e, style));
    EveryDestinationIsNamed(ids, ConfigOf(sinks), e, style, out, keys, id);
    forall i | 0 <= i < |out|
      ensures NoDuplicates(out[i].sinkIds)
    {
      GroupHolds(ids, ConfigOf(sinks), e, style, out, keys, i);
    }
    forall i, j | 0 <= i < |out| && 0 <= j < |out| && id in out[i].sinkIds && id in out[j].sinkIds
      ensures i == j
    {
      var a :| 0 <= a < |out[i].sinkIds| && out[i].sinkIds[a] == id;
      var b :| 0 <= b < |out[j].sinkIds| && out[j].sinkIds[b] == id;
      NoDestinationIsNamedTwice(ids, ConfigOf(sinks), e, style, out, keys, i, a, j, b);
    }
  }

  /** The configuration read is the last row of each id. */
  lemma {:induction false} ConfigIsTheLastRow(sinks: seq<Sink>, id: string)
    ensures id in ConfigOf(sinks) <==> exists i :: 0 <= i < |sinks| && sinks[i].id == id
    ensures id in ConfigOf(sinks) ==>
              exists i :: 0 <= i < |sinks| && sinks[i].id == id && ConfigOf(sinks)[id] == sinks[i]
                          && forall j | i < j < |sinks| :: sinks[j].id != id
  {
    if sinks != [] {
      var n := |sinks| - 1;
      var front := sinks[..n];
      ConfigIsTheLastRow(front, id);
      if sinks[n].id == id {
        assert ConfigOf(sinks)[id] == sinks[n];
      } else if id in ConfigOf(sinks) {
        var i :| 0 <= i < |front| && front[i].id == id && ConfigOf(front)[id] == front[i]
                 && forall j | i < j < |front| :: front[j].id != id;
        assert sinks[i].id == id && ConfigOf(sinks)[id] == sinks[i];
        assert forall j | i < j < |sinks| :: j < n ==> front[j].id == sinks[j].id;
      }
      assert forall i | 0 <= i < n :: front[i] == sinks[i];
    }
  }
}
