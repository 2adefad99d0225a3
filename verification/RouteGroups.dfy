/** From an event to what is queued for it (internal/app/app.go:904-1076): the selected
    destinations, without those that must not get it, one rendering per group.

    Redaction and rendering are parameters; reading the rules or the destinations may fail. */
module RouteGroups {
  import opened Basics
  import opened RouteSelect
  import opened RouteScan

  datatype Result<+T> = Ok(value: T) | Failed

  datatype Param = Words(text: string) | Other

  datatype Event = Event(kind: string, params: map<string, Param>, summary: string)

  /** A configured destination; `look` is what the rendering reads of it. */
  datatype Sink = Sink(id: string, enabled: bool, redacts: bool, look: string)

  datatype Rendering = Rendering(subject: string, body: string)

  datatype Group = Group(event: Event, sinkIds: seq<string>, text: Rendering)

  /** What destinations must share to share a group. */
  datatype Key = Key(redacts: bool, text: Rendering)

  const DEAD_LETTER := "system.sink_dead_letter"

  function TextOf(e: Event, name: string): Option<string> {
    if name in e.params && e.params[name].Words? then Some(e.params[name].text) else None
  }

  /** deadLetterSink: the destination a dead letter is about, or "". */
  function DeadLetterSink(e: Event): string {
    if e.kind != DEAD_LETTER then ""
    else if TextOf(e, "sinkId").GetOr("") != "" then TextOf(e, "sinkId").GetOr("")
    else TextOf(e, "sink").GetOr("")
  }

  /** deadLetterEvent, as far as routing reads it. */
  function DeadLetterEvent(name: string, sinkId: string, error: string): Event {
    Event(DEAD_LETTER,
          map["sink" := Words(name), "sinkId" := Words(sinkId), "attempts" := Other, "error" := Words(error)],
          "Delivery to " + name + " given up: " + error)
  }

  /** How one event is prepared for one destination. */
  datatype Style = Style(redact: Event -> Event, render: (Event, Sink) -> Rendering) {
    function EventFor(e: Event, sink: Sink): Event { if sink.redacts then redact(e) else e }

    function KeyFor(e: Event, sink: Sink): Key { Key(sink.redacts, render(EventFor(e, sink), sink)) }
  }

  /** configBySink: the last row under an id stands. */
  function ConfigOf(sinks: seq<Sink>): map<string, Sink> {
    if sinks == [] then map[] else ConfigOf(sinks[..|sinks| - 1])[sinks[|sinks| - 1].id := sinks[|sinks| - 1]]
  }

  /** The sinks that are left once the failing one is dropped. */
  function Kept(ids: seq<string>, failing: string): seq<string> {
    if ids == [] then []
    else Kept(ids[..|ids| - 1], failing) + if ids[|ids| - 1] != failing then [ids[|ids| - 1]] else []
  }

  predicate Live(config: map<string, Sink>, id: string) { id in config && config[id].enabled }

  /** The groups, before they are listed. */
  function GroupMap(ids: seq<string>, config: map<string, Sink>, e: Event, style: Style): map<Key, Group> {
    if ids == [] then map[]
    else
      var m := GroupMap(ids[..|ids| - 1], config, e, style);
      var id := ids[|ids| - 1];
      if !Live(config, id) then m else Joined(m, config[id], id, e, style)
  }

  function Joined(m: map<Key, Group>, sink: Sink, id: string, e: Event, style: Style): map<Key, Group> {
    var key := style.KeyFor(e, sink);
    var g := if key in m then m[key] else Group(style.EventFor(e, sink), [], key.text);
    m[key := g.(sinkIds := g.sinkIds + [id])]
  }

  /** `out` holds the values of `m`, one per key, in some order. */
  ghost predicate Lists(out: seq<Group>, m: map<Key, Group>, keys: seq<Key>) {
    Listed(out, m, keys) && Elements(keys) == m.Keys
  }

  /** ... whichever order that was. */
  ghost predicate ListsAll(out: seq<Group>, m: map<Key, Group>) {
    exists keys :: Lists(out, m, keys)
  }

  ghost predicate Listed(out: seq<Group>, m: map<Key, Group>, keys: seq<Key>) {
    |keys| == |out| && NoDuplicates(keys) && forall i | 0 <= i < |out| :: keys[i] in m && out[i] == m[keys[i]]
  }

  // --- the loops ----------------------------------------------------------------------------

  lemma KeptStep(ids: seq<string>, id: string, failing: string)
    ensures Kept(ids + [id], failing) == Kept(ids, failing) + if id != failing then [id] else []
  {
    assert (ids + [id])[..|ids|] == ids;
  }

  /** The filter over the front of the slice it reads. */
  method DropFailing(ids: array<string>, failing: string) returns (kept: nat)
    modifies ids
    ensures kept <= ids.Length
    ensures ids[..kept] == Kept(old(ids[..]), failing)
  {
    ghost var was := ids[..];
    kept := 0;
    var i := 0;
    assert was[..0] == [];
    while i < ids.Length
      invariant 0 <= kept <= i <= ids.Length == |was|
      invariant ids[i..] == was[i..]
      invariant ids[..kept] == Kept(was[..i], failing)
    {
      assert ids[i] == ids[i..][0] == was[i];
      assert ids[i..][1..] == ids[i + 1..] && was[i..][1..] == was[i + 1..];
      assert was[..i + 1] == was[..i] + [was[i]];
      KeptStep(was[..i], was[i], failing);
      hide Kept;
      var id := ids[i];
      i := i + 1;
      if id != failing {
        ids[kept] := id;
        kept := kept + 1;
        assert ids[..kept] == ids[..kept - 1] + [id];
      }
    }
    assert was[..i] == was;
  }

  lemma ConfigStep(sinks: seq<Sink>, i: nat)
    requires i < |sinks|
    ensures ConfigOf(sinks[..i + 1]) == ConfigOf(sinks[..i])[sinks[i].id := sinks[i]]
  {
    assert sinks[..i + 1][..i] == sinks[..i];
  }

  method ConfigBySink(sinks: seq<Sink>) returns (config: map<string, Sink>)
    ensures config == ConfigOf(sinks)
  {
    config := map[];
    var i := 0;
    assert sinks[..0] == [];
    while i < |sinks|
      invariant 0 <= i <= |sinks| && config == ConfigOf(sinks[..i])
    {
      ConfigStep(sinks, i);
      hide ConfigOf;
      config := config[sinks[i].id := sinks[i]];
      i := i + 1;
    }
    assert sinks[..i] == sinks;
  }

  lemma GroupStep(ids: seq<string>, i: nat, config: map<string, Sink>, e: Event, style: Style)
    requires i < |ids|
    ensures GroupMap(ids[..i + 1], config, e, style) ==
            (var m := GroupMap(ids[..i], config, e, style);
             if !Live(config, ids[i]) then m else Joined(m, config[ids[i]], ids[i], e, style))
  {
    assert ids[..i + 1][..i] == ids[..i];
    hide Joined;
  }

  method Gather(ids: seq<string>, config: map<string, Sink>, e: Event, style: Style) returns (groups: map<Key, Group>)
    ensures groups == GroupMap(ids, config, e, style)
  {
    groups := map[];
    var i := 0;
    assert ids[..0] == [];
    while i < |ids|
      invariant 0 <= i <= |ids| && groups == GroupMap(ids[..i], config, e, style)
    {
      GroupStep(ids, i, config, e, style);
      hide GroupMap;
      var id := ids[i];
      i := i + 1;
      if id !in config || !config[id].enabled {
        continue;
      }
      var cfg := config[id];
      var ev := e;
      if cfg.redacts {
        ev := style.redact(e);
      }
      var text := style.render(ev, cfg);
      var key := Key(cfg.redacts, text);
      if key !in groups {
        groups := groups[key := Group(ev, [], text)];
      }
      groups := groups[key := groups[key].(sinkIds := groups[key].sinkIds + [id])];
    }
    assert ids[..i] == ids;
  }

  lemma ListOne(out: seq<Group>, m: map<Key, Group>, keys: seq<Key>, left: set<Key>, key: Key)
    requires Listed(out, m, keys) && left !! Elements(keys) && left + Elements(keys) == m.Keys && key in left
    ensures Listed(out + [m[key]], m, keys + [key])
    ensures left - {key} !! Elements(keys + [key]) && left - {key} + Elements(keys + [key]) == m.Keys
  {
    ElementsAppend(keys, [key]);
    assert Elements([key]) == {key};
    forall i | 0 <= i < |keys|
      ensures keys[i] != key
    {
      assert keys[i] in Elements(keys);
    }
  }

  /** Ranging over the map: every group once, in no set order. */
  method ListGroups(groups: map<Key, Group>) returns (out: seq<Group>)
    ensures ListsAll(out, groups)
  {
    out := [];
    ghost var keys: seq<Key> := [];
    var left := groups.Keys;
    assert Listed(out, groups, keys) && Elements(keys) == {};
    hide Listed, Elements;
    while left != {}
      invariant left !! Elements(keys) && left + Elements(keys) == groups.Keys
      invariant Listed(out, groups, keys)
      decreases |left|
    {
      var key := Pick(left);
      ListOne(out, groups, keys, left, key);
      out, keys, left := out + [groups[key]], keys + [key], left - {key};
    }
    assert Lists(out, groups, keys);
  }

  /** The destinations the event goes to, in order. */
  function Destinations(routes: seq<Route>, matches: Route -> bool, e: Event): seq<string> {
    var chosen := Selected(routes, matches);
    if DeadLetterSink(e) == "" then chosen else Kept(chosen, DeadLetterSink(e))
  }

  /** routedGroupsFor. `matches` says which rules match the event at its own time. */
  method RoutedGroupsFor(routes: Result<seq<Route>>, sinks: Result<seq<Sink>>, e: Event,
                         matches: Route -> bool, style: Style)
    returns (r: Result<seq<Group>>)
    ensures r.Failed? <==> routes.Failed? || (sinks.Failed? && Destinations(routes.value, matches, e) != [])
    ensures r.Ok? && Destinations(routes.value, matches, e) == [] ==> r.value == []
    ensures r.Ok? && sinks.Ok? ==>
              ListsAll(r.value, GroupMap(Destinations(routes.value, matches, e), ConfigOf(sinks.value), e, style))
  {
    if routes.Failed? {
      return Failed;
    }
    hide GroupMap, ConfigOf, Selected, ListsAll;
    NoRoutesNoSinks(matches);
    if |routes.value| == 0 {
      NoGroups(sinks, e, style);
      return Ok([]);
    }
    var chosen := Select(routes.value, matches);
    var failing := DeadLetterSink(e);
    if failing != "" {
      var ids := new string[|chosen|](i requires 0 <= i < |chosen| => chosen[i]);
      assert ids[..] == chosen;
      var kept := DropFailing(ids, failing);
      chosen := ids[..kept];
    }
    if |chosen| == 0 {
      NoGroups(sinks, e, style);
      return Ok([]);
    }
    if sinks.Failed? {
      return Failed;
    }
    var config := ConfigBySink(sinks.value);
    var groups := Gather(chosen, config, e, style);
    var out := ListGroups(groups);
    r := Ok(out);
  }

  lemma NoRoutesNoSinks(matches: Route -> bool)
    ensures Selected([], matches) == [] && forall failing :: Kept([], failing) == []
  {
    assert Arranged([]) == [];
  }

  lemma NoGroups(sinks: Result<seq<Sink>>, e: Event, style: Style)
    ensures sinks.Ok? ==> ListsAll([], GroupMap([], ConfigOf(sinks.value), e, style))
  {
    assert Lists([], map[], []);
  }
}
