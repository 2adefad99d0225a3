/** The loops of the preset package (pkg/preset/preset.go, discover.go, threshold.go),
    each proved to compute its function over the preset's entries. */
module PresetLoops {
  import opened Basics
  import opened Text
  import opened Preset

  // --- entries met so far by a pair of nested loops -------------------------------------

  function Upto(ws: seq<Widget>, i: nat, j: nat): seq<Entry>
    requires i < |ws| && j <= |ws[i].oids|
  {
    Entries(ws[..i]) + EntriesOf(ws[i], ws[i].oids[..j], i)
  }

  lemma UptoStarts(ws: seq<Widget>, i: nat)
    requires i < |ws|
    ensures Upto(ws, i, 0) == Entries(ws[..i])
  {
  }

  lemma UptoSteps(ws: seq<Widget>, i: nat, j: nat)
    requires i < |ws| && j < |ws[i].oids|
    ensures Upto(ws, i, j + 1) == Upto(ws, i, j) + [EntryOf(ws[i], ws[i].oids[j], i)]
  {
    assert ws[i].oids[..j + 1][..j] == ws[i].oids[..j];
    hide EntryOf;
  }

  lemma UptoEnds(ws: seq<Widget>, i: nat)
    requires i < |ws|
    ensures Upto(ws, i, |ws[i].oids|) == Entries(ws[..i + 1])
  {
    assert ws[..i + 1][..i] == ws[..i];
    assert ws[i].oids[..|ws[i].oids|] == ws[i].oids;
  }

  lemma Append(es: seq<Entry>, e: Entry)
    ensures (es + [e])[..|es|] == es
  {
  }

  lemma PollStep(es: seq<Entry>, e: Entry)
    ensures PollList(es + [e]) == if e.template || e.key in PollList(es) then PollList(es) else PollList(es) + [e.key]
  {
    Append(es, e);
  }

  lemma BandStep(es: seq<Entry>, e: Entry)
    ensures BandMap(es + [e]) == if e.template || e.band.None? then BandMap(es) else BandMap(es)[e.key := e.band.value]
  {
    Append(es, e);
  }

  lemma CostStep(es: seq<Entry>, e: Entry)
    ensures CostOf(es + [e]) == CountEntry(CostOf(es), e, SeenKeys(es), WatchedKeys(es))
  {
    Append(es, e);
    hide CountEntry, SeenKeys, WatchedKeys;
  }

  lemma ClaimStep(es: seq<Entry>, e: Entry)
    ensures FirstClaims(es + [e]) ==
            if e.template || e.band.None? || e.key in FirstClaims(es) then FirstClaims(es)
            else FirstClaims(es)[e.key := Claim(e.widget, e.band.value)]
  {
    Append(es, e);
  }

  lemma ConflictStep(es: seq<Entry>, e: Entry)
    ensures ReportedKeys(es + [e]) == if Clashes(es, e) then ReportedKeys(es) + {e.key} else ReportedKeys(es)
    ensures Conflicts(es + [e]) ==
            Conflicts(es) + if Clashes(es, e) && e.key !in ReportedKeys(es)
                            then [Conflict(e.widget, e.key, FirstClaims(es)[e.key].widget + 1)] else []
  {
    Append(es, e);
    hide Same, FirstClaims;
  }

  // --- polling ---------------------------------------------------------------------------------

  /** PollOIDs: deduplicated, in a stable order. */
  method PollOIDs(ws: seq<Widget>) returns (out: seq<string>)
    ensures out == PollList(Entries(ws))
  {
    hide Upto, PollList, Entries;
    out := [];
    var seen: set<string> := {};
    var i := 0;
    Nothing();
    while i < |ws|
      invariant 0 <= i <= |ws|
      invariant out == PollList(Entries(ws[..i])) && seen == Elements(out)
    {
      var oids := ws[i].oids;
      UptoStarts(ws, i);
      var j := 0;
      while j < |oids|
        invariant 0 <= j <= |oids|
        invariant out == PollList(Upto(ws, i, j)) && seen == Elements(out)
      {
        UptoSteps(ws, i, j);
        PollStep(Upto(ws, i, j), EntryOf(ws[i], oids[j], i));
        if !IsTemplate(oids[j]) {
          var key := Normalise(oids[j]);
          if key !in seen {
            seen := seen + {key};
            out := out + [key];
          }
        }
        j := j + 1;
      }
      UptoEnds(ws, i);
      i := i + 1;
    }
    assert ws[..i] == ws;
  }

  lemma Nothing()
    ensures Entries([]) == [] && PollList([]) == [] && BandMap([]) == map[] && CostOf([]) == Cost(0, 0, 0, 0)
    ensures FirstClaims([]) == map[] && ReportedKeys([]) == {} && Conflicts([]) == []
    ensures SeenKeys([]) == {} && WatchedKeys([]) == {}
  {
  }

  /** ThresholdsFor: the band of every reading the preset watches. */
  method ThresholdsFor(ws: seq<Widget>) returns (out: map<string, Threshold>)
    ensures out == BandMap(Entries(ws))
  {
    hide Upto, BandMap, Entries;
    out := map[];
    var i := 0;
    Nothing();
    while i < |ws|
      invariant 0 <= i <= |ws|
      invariant out == BandMap(Entries(ws[..i]))
    {
      var oids := ws[i].oids;
      UptoStarts(ws, i);
      var j := 0;
      while j < |oids|
        invariant 0 <= j <= |oids|
        invariant out == BandMap(Upto(ws, i, j))
      {
        UptoSteps(ws, i, j);
        BandStep(Upto(ws, i, j), EntryOf(ws[i], oids[j], i));
        if ws[i].threshold != None && !IsTemplate(oids[j]) {
          out := out[Normalise(oids[j]) := ws[i].threshold.value];
        }
        j := j + 1;
      }
      UptoEnds(ws, i);
      i := i + 1;
    }
    assert ws[..i] == ws;
  }

  /** checkThresholdConflicts, before its final sort for display. */
  method CheckThresholdConflicts(ws: seq<Widget>) returns (errs: seq<Conflict>)
    ensures errs == Conflicts(Entries(ws))
  {
    hide Upto, Conflicts, Entries, FirstClaims, ReportedKeys;
    errs := [];
    var first: map<string, Claim> := map[];
    var seen: set<string> := {};
    var i := 0;
    Nothing();
    while i < |ws|
      invariant 0 <= i <= |ws|
      invariant errs == Conflicts(Entries(ws[..i]))
      invariant first == FirstClaims(Entries(ws[..i])) && seen == ReportedKeys(Entries(ws[..i]))
    {
      var oids := ws[i].oids;
      UptoStarts(ws, i);
      var j := 0;
      while j < |oids|
        invariant 0 <= j <= |oids|
        invariant errs == Conflicts(Upto(ws, i, j))
        invariant first == FirstClaims(Upto(ws, i, j)) && seen == ReportedKeys(Upto(ws, i, j))
      {
        UptoSteps(ws, i, j);
        ClaimStep(Upto(ws, i, j), EntryOf(ws[i], oids[j], i));
        ConflictStep(Upto(ws, i, j), EntryOf(ws[i], oids[j], i));
        if ws[i].threshold != None && !IsTemplate(oids[j]) {
          var key := Normalise(oids[j]);
          if key !in first {
            first := first[key := Claim(i, ws[i].threshold.value)];
          } else if !Same(first[key].band, ws[i].threshold.value) && key !in seen {
            seen := seen + {key};
            errs := errs + [Conflict(i, key, first[key].widget + 1)];
          }
        }
        j := j + 1;
      }
      UptoEnds(ws, i);
      i := i + 1;
    }
    assert ws[..i] == ws;
  }

  // --- the stated cost ---------------------------------------------------------------------------

  lemma SeenStep(es: seq<Entry>, e: Entry)
    ensures SeenKeys(es + [e]) == SeenKeys(es) + if e.template || e.key == "" then {} else {e.key}
    ensures WatchedKeys(es + [e]) ==
            WatchedKeys(es) + if e.template || e.key == "" || e.band.None? then {} else {e.key}
  {
    assert forall x :: x in es + [e] <==> x in es || x == e;
  }

  /** One OID of Estimate: what it adds, and which keys are marked. */
  method EstimateOne(c: Cost, w: Widget, oid: string, i: nat, seen: set<string>, watched: set<string>, ghost es: seq<Entry>)
    returns (r: Cost, seen': set<string>, watched': set<string>)
    requires seen - {""} == SeenKeys(es) && watched - {""} == WatchedKeys(es)
    ensures r == CountEntry(c, EntryOf(w, oid, i), SeenKeys(es), WatchedKeys(es))
    ensures seen' - {""} == SeenKeys(es + [EntryOf(w, oid, i)])
    ensures watched' - {""} == WatchedKeys(es + [EntryOf(w, oid, i)])
  {
    SeenStep(es, EntryOf(w, oid, i));
    hide SeenKeys, WatchedKeys, InstanceLimit, IsTemplate, Normalise;
    r, seen', watched' := c, seen, watched;
    var n := 1;
    var key := Normalise(oid);
    if IsTemplate(oid) {
      var per := InstanceLimit(w);
      if per == 0 {
        return;
      }
      n := per;
      key := "";
    }
    if key == "" || key !in seen {
      seen' := seen + {key};
      r := r.(oids := r.oids + n);
      if key == "" {
        r := r.(discovered := r.discovered + n);
      }
    }
    if w.threshold != None && (key == "" || key !in watched) {
      watched' := watched + {key};
      r := r.(watched := r.watched + n);
      if Alerts(w.threshold.value) {
        r := r.(alerting := r.alerting + n);
      }
    }
  }

  /** Estimate: the figures stated before anything is polled. */
  method Estimate(ws: seq<Widget>, intervalSec: int) returns (c: Cost, pollsPerDay: int, varbindsPerDay: int)
    ensures c == CostOf(Entries(ws))
    ensures intervalSec <= 0 ==> pollsPerDay == varbindsPerDay == 0
    ensures intervalSec > 0 ==> pollsPerDay == 86400 / intervalSec && varbindsPerDay == pollsPerDay * c.oids
  {
    hide Upto, CostOf, Entries, SeenKeys, WatchedKeys, CountEntry, EntryOf;
    c := Cost(0, 0, 0, 0);
    var seen, watched: set<string> := {}, {};
    var i := 0;
    Nothing();
    while i < |ws|
      invariant 0 <= i <= |ws|
      invariant c == CostOf(Entries(ws[..i]))
      invariant seen - {""} == SeenKeys(Entries(ws[..i])) && watched - {""} == WatchedKeys(Entries(ws[..i]))
    {
      var oids := ws[i].oids;
      UptoStarts(ws, i);
      var j := 0;
      while j < |oids|
        invariant 0 <= j <= |oids|
        invariant c == CostOf(Upto(ws, i, j))
        invariant seen - {""} == SeenKeys(Upto(ws, i, j)) && watched - {""} == WatchedKeys(Upto(ws, i, j))
      {
        UptoSteps(ws, i, j);
        CostStep(Upto(ws, i, j), EntryOf(ws[i], oids[j], i));
        c, seen, watched := EstimateOne(c, ws[i], oids[j], i, seen, watched, Upto(ws, i, j));
        j := j + 1;
      }
      UptoEnds(ws, i);
      i := i + 1;
    }
    assert ws[..i] == ws;
    pollsPerDay, varbindsPerDay := 0, 0;
    if intervalSec > 0 {
      pollsPerDay := SECONDS_PER_DAY / intervalSec;
      varbindsPerDay := pollsPerDay * c.oids;
    }
  }

  // --- expansion -----------------------------------------------------------------------------------

  method CountTemplates(oids: seq<string>) returns (templates: nat)
    ensures templates == |TemplatesOf(oids)|
  {
    templates := 0;
    var j := 0;
    assert oids[0..] == oids;
    while j < |oids|
      invariant 0 <= j <= |oids|
      invariant templates + |TemplatesOf(oids[j..])| == |TemplatesOf(oids)|
    {
      TemplatesStep(oids, j);
      hide TemplatesOf, IsTemplate;
      if IsTemplate(oids[j]) {
        templates := templates + 1;
      }
      j := j + 1;
    }
  }

  lemma TemplatesStep(oids: seq<string>, j: nat)
    requires j < |oids|
    ensures TemplatesOf(oids[j..]) == (if IsTemplate(oids[j]) then [oids[j]] else []) + TemplatesOf(oids[j + 1..])
    ensures FixedOf(oids[j..]) == (if IsTemplate(oids[j]) then [] else [oids[j]]) + FixedOf(oids[j + 1..])
  {
    assert oids[j..][1..] == oids[j + 1..];
  }

  /** discoverInstanceLimit. */
  method DiscoverInstanceLimit(w: Widget) returns (limit: nat)
    ensures limit == InstanceLimit(w)
  {
    if w.discover == None {
      return 0;
    }
    limit := MAX_DISCOVERED_PER_WIDGET;
    if w.discover.value.max > 0 {
      limit := w.discover.value.max;
    }
    var templates := CountTemplates(w.oids);
    hide TemplatesOf;
    if templates == 0 {
      return 0;
    }
    var doc := KindMax(w.kind);
    hide KindMax;
    if doc != None {
      var room := doc.value - (|w.oids| - templates);
      if room < 0 {
        room := 0;
      }
      var byKind := room / templates;
      if byKind < limit {
        limit := byKind;
      }
    }
  }

  /** What is left for the loops below once the first `j` OIDs are done. */
  function Left(oids: seq<string>, j: nat): seq<string>
    requires j <= |oids|
  {
    TemplatesOf(oids[j..])
  }

  function FixedLeft(oids: seq<string>, j: nat): seq<string>
    requires j <= |oids|
  {
    FixedOf(oids[j..])
  }

  lemma LeftEnds(oids: seq<string>)
    ensures Left(oids, 0) == TemplatesOf(oids) && FixedLeft(oids, 0) == FixedOf(oids)
    ensures Left(oids, |oids|) == [] && FixedLeft(oids, |oids|) == []
  {
    hide IsTemplate;
    assert oids[0..] == oids && oids[|oids|..] == [];
  }

  lemma OneInstanceUnfolds(oid: string, rest: seq<string>, suffix: string)
    ensures OneInstance([oid] + rest, suffix) == [Instantiate(oid, suffix)] + OneInstance(rest, suffix)
    ensures OneInstance([], suffix) == []
  {
    hide Instantiate;
    assert ([oid] + rest)[1..] == rest;
  }

  lemma InstanceStep(oids: seq<string>, j: nat, suffix: string)
    requires j < |oids|
    ensures OneInstance(Left(oids, j), suffix) ==
            (if IsTemplate(oids[j]) then [Instantiate(oids[j], suffix)] else []) + OneInstance(Left(oids, j + 1), suffix)
  {
    TemplatesStep(oids, j);
    OneInstanceUnfolds(oids[j], TemplatesOf(oids[j + 1..]), suffix);
    hide IsTemplate, TemplatesOf, Instantiate, OneInstance;
    assert [] + TemplatesOf(oids[j + 1..]) == TemplatesOf(oids[j + 1..]);
  }

  lemma FixedStep(oids: seq<string>, j: nat)
    requires j < |oids|
    ensures FixedLeft(oids, j) == (if IsTemplate(oids[j]) then [] else [oids[j]]) + FixedLeft(oids, j + 1)
  {
    TemplatesStep(oids, j);
    hide IsTemplate, TemplatesOf, FixedOf;
  }

  lemma Regroup(done: seq<string>, one: seq<string>, rest: seq<string>)
    ensures done + (one + rest) == (done + one) + rest
    ensures done + [] == done && [] + rest == rest
  {
  }

  /** The inner loop of ExpandWidget: every template, for one instance. */
  method ExpandInstance(oids: seq<string>, suffix: string) returns (out: seq<string>)
    ensures out == OneInstance(TemplatesOf(oids), suffix)
  {
    OneInstanceUnfolds("", [], suffix);
    LeftEnds(oids);
    hide *;
    out := [];
    ghost var whole := OneInstance(TemplatesOf(oids), suffix);
    Regroup(out, [], whole);
    var j := 0;
    while j < |oids|
      invariant 0 <= j <= |oids|
      invariant whole == out + OneInstance(Left(oids, j), suffix)
    {
      InstanceStep(oids, j, suffix);
      ghost var rest := OneInstance(Left(oids, j + 1), suffix);
      if IsTemplate(oids[j]) {
        Regroup(out, [Instantiate(oids[j], suffix)], rest);
        out := out + [Instantiate(oids[j], suffix)];
      } else {
        Regroup(out, [], rest);
      }
      j := j + 1;
    }
    Regroup(out, [], []);
  }

  lemma InstancesStep(templates: seq<string>, kept: seq<string>, i: nat)
    requires i < |kept|
    ensures AllInstances(templates, kept[i..]) == OneInstance(templates, kept[i]) + AllInstances(templates, kept[i + 1..])
  {
    assert kept[i..][1..] == kept[i + 1..];
    hide OneInstance;
  }

  /** The outer loop of ExpandWidget: instance by instance. */
  method ExpandInstances(oids: seq<string>, kept: seq<string>) returns (out: seq<string>)
    ensures out == AllInstances(TemplatesOf(oids), kept)
  {
    hide OneInstance, TemplatesOf;
    out := [];
    var i := 0;
    assert kept[0..] == kept;
    ghost var ts := TemplatesOf(oids);
    while i < |kept|
      invariant 0 <= i <= |kept|
      invariant AllInstances(ts, kept) == out + AllInstances(ts, kept[i..])
    {
      InstancesStep(ts, kept, i);
      hide AllInstances;
      var one := ExpandInstance(oids, kept[i]);
      assert out + (one + AllInstances(ts, kept[i + 1..])) == out + one + AllInstances(ts, kept[i + 1..]);
      out := out + one;
      i := i + 1;
    }
    assert kept[i..] == [];
  }

  method FixedOids(oids: seq<string>) returns (fixed: seq<string>)
    ensures fixed == FixedOf(oids)
  {
    LeftEnds(oids);
    hide *;
    fixed := [];
    Regroup(fixed, [], FixedOf(oids));
    var j := 0;
    while j < |oids|
      invariant 0 <= j <= |oids|
      invariant FixedOf(oids) == fixed + FixedLeft(oids, j)
    {
      FixedStep(oids, j);
      if !IsTemplate(oids[j]) {
        Regroup(fixed, [oids[j]], FixedLeft(oids, j + 1));
        fixed := fixed + [oids[j]];
      } else {
        Regroup(fixed, [], FixedLeft(oids, j + 1));
      }
      j := j + 1;
    }
    Regroup(fixed, [], []);
  }

  /** ExpandWidget: templates instance by instance, then the OIDs that carried none. */
  method ExpandOne(w: Widget, found: seq<string>) returns (out: Widget)
    ensures out == ExpandWidget(w, found)
  {
    if w.discover == None {
      return w;
    }
    hide InstanceLimit, AllInstances, TemplatesOf, FixedOf;
    var limit := DiscoverInstanceLimit(w);
    var kept := found;
    if |kept| > limit {
      kept := kept[..limit];
    }
    var oids := ExpandInstances(w.oids, kept);
    var fixed := FixedOids(w.oids);
    out := w.(discover := None, oids := oids + fixed);
  }

  /** Expand: every widget with what its own walk found. */
  method ExpandAll(ws: seq<Widget>, found: nat -> seq<string>) returns (out: seq<Widget>)
    ensures out == Expand(ws, found)
  {
    hide ExpandWidget;
    out := [];
    var i := 0;
    while i < |ws|
      invariant 0 <= i <= |ws|
      invariant |out| == i && forall k | 0 <= k < i :: out[k] == ExpandWidget(ws[k], found(k))
    {
      var w := ExpandOne(ws[i], found(i));
      out := out + [w];
      i := i + 1;
    }
  }

  /** The count rules of Validate, every problem in order. */
  method ValidateCounts(ws: seq<Widget>) returns (errs: seq<Problem>)
    ensures errs == CheckCounts(ws)
  {
    hide CheckWidget, Share;
    errs := [];
    if |ws| == 0 {
      errs := errs + [NoWidgets];
    }
    if |ws| > MAX_WIDGETS {
      errs := errs + [TooManyWidgets];
    }
    ghost var shape := errs;
    var total := 0;
    var i := 0;
    while i < |ws|
      invariant 0 <= i <= |ws|
      invariant errs == shape + CheckWidgets(ws[..i]) && total == TotalShare(ws[..i])
    {
      assert ws[..i + 1][..i] == ws[..i];
      errs := errs + CheckWidget(ws[i]);
      total := total + Share(ws[i]);
      i := i + 1;
    }
    assert ws[..i] == ws;
    if total > MAX_OIDS_PER_PRESET {
      errs := errs + [TooManyOids];
    }
  }
}
