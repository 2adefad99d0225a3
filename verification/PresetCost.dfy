/** The bounds and the stated cost of a preset hold for every walk
    (pkg/preset/discover.go:80-162, pkg/preset/preset.go:350-413, 471-558). */
module PresetCost {
  import opened Basics
  import opened Text
  import opened Preset

  // --- size bounds ---------------------------------------------------------------

  /** A product, named so that a proof may treat it as one number. */
  function Times(a: nat, b: nat): nat { a * b }

  lemma RoomForOne(room: nat, templates: nat)
    requires 0 < templates <= room
    ensures room / templates >= 1
    ensures Times(templates, room / templates) <= room
  {
    assert room == templates * (room / templates) + room % templates;
  }

  lemma TimesAtMost(a: nat, b: nat, c: nat)
    requires b <= c
    ensures Times(a, b) <= Times(a, c)
  {
  }

  lemma TimesDistributes(a: nat, b: nat, c: nat)
    ensures Times(a + b, c) == Times(a, c) + Times(b, c)
    ensures Times(1, c) == c && Times(a, 1) == a
  {
  }

  /** A discovering widget that passes the count rules may always take one instance, and
      as many as it may take never exceed what its kind can draw. */
  lemma LimitFitsTheKind(w: Widget)
    requires CheckWidget(w) == [] && w.discover.Some?
    ensures InstanceLimit(w) >= 1
    ensures KindMax(w.kind).Some?
    ensures Times(|TemplatesOf(w.oids)|, InstanceLimit(w)) + |FixedOf(w.oids)| <= KindMax(w.kind).value
  {
    var templates := |TemplatesOf(w.oids)|;
    var room := KindMax(w.kind).value - (|w.oids| - templates);
    RoomForOne(room, templates);
    TimesAtMost(templates, InstanceLimit(w), room / templates);
    hide Times;
  }

  /** How many readings a widget of this kind can show. */
  function Drawn(kind: string): nat {
    if kind == "value" || kind == "rate" || kind == "status" then 1
    else if kind == "chart" then 8
    else if kind == "grid" || kind == "map" then 96
    else 0
  }

  /** The limit is the largest there is: it is the bound on the walk, declared or 128, or one more
      instance would not fit what the kind can draw. */
  lemma LimitIsTheLargest(w: Widget)
    requires CheckWidget(w) == [] && w.discover.Some?
    ensures var bound := if w.discover.value.max > 0 then w.discover.value.max else 128;
            && InstanceLimit(w) <= bound
            && (InstanceLimit(w) == bound
                || Times(|TemplatesOf(w.oids)|, InstanceLimit(w) + 1) + |FixedOf(w.oids)| > Drawn(w.kind))
  {
    LimitIs(w);
    hide Times, Quotient, TemplatesOf, FixedOf, CheckWidget, InstanceLimit, KindMax, Drawn;
    var templates := |TemplatesOf(w.oids)|;
    OneMoreIsTooMany(KindMax(w.kind).value - |FixedOf(w.oids)|, templates);
  }

  /** A quotient, named so that a proof may treat it as one number. */
  function Quotient(a: nat, b: nat): nat
    requires b > 0
  {
    a / b
  }

  lemma LimitIs(w: Widget)
    requires CheckWidget(w) == [] && w.discover.Some?
    ensures var templates, room := |TemplatesOf(w.oids)|, KindMax(w.kind).GetOr(0) - |FixedOf(w.oids)|;
            var bound := if w.discover.value.max > 0 then w.discover.value.max else 128;
            && KindMax(w.kind) == Some(Drawn(w.kind)) && templates > 0 && room >= 0
            && InstanceLimit(w) == Min(bound, Quotient(room, templates))
  {
    hide TemplatesOf, FixedOf;
  }

  lemma OneMoreIsTooMany(room: nat, templates: nat)
    requires templates > 0
    ensures Times(templates, Quotient(room, templates) + 1) > room
  {
    assert room == templates * (room / templates) + room % templates;
  }

  lemma {:induction false} ChecksEveryWidget(ws: seq<Widget>, i: nat)
    requires CheckWidgets(ws) == [] && i < |ws|
    ensures CheckWidget(ws[i]) == []
  {
    if i < |ws| - 1 {
      ChecksEveryWidget(ws[..|ws| - 1], i);
    }
  }

  lemma ShareCovers(t: nat, f: nat, k: nat, limit: nat)
    requires k <= limit && 1 <= limit
    ensures Times(t, k) + f <= Times(t + f, limit)
    ensures Times(t, k) + f <= Times(t, limit) + f
  {
    TimesAtMost(t, k, limit);
    TimesAtMost(f, 1, limit);
    TimesDistributes(t, f, limit);
    TimesDistributes(f, 0, 1);
    hide Times;
  }

  lemma ExpandedLength(w: Widget, found: seq<string>)
    requires w.discover.Some?
    ensures |ExpandWidget(w, found).oids| == Times(|TemplatesOf(w.oids)|, |Kept(w, found)|) + |FixedOf(w.oids)|
    ensures Share(w) == Times(|TemplatesOf(w.oids)| + |FixedOf(w.oids)|, InstanceLimit(w))
  {
    hide TemplatesOf, FixedOf, AllInstances, Kept, InstanceLimit;
  }

  lemma ExpandedSize(w: Widget, found: seq<string>)
    requires CheckWidget(w) == []
    ensures |ExpandWidget(w, found).oids| <= Share(w)
    ensures KindMax(w.kind).Some? && |ExpandWidget(w, found).oids| <= KindMax(w.kind).value
  {
    if w.discover.Some? {
      DiscoveredSize(w, found);
    }
  }

  lemma KeptWithinLimit(w: Widget, found: seq<string>)
    ensures |Kept(w, found)| <= InstanceLimit(w)
  {
    hide InstanceLimit;
  }

  lemma DiscoveredSize(w: Widget, found: seq<string>)
    requires CheckWidget(w) == [] && w.discover.Some?
    ensures |ExpandWidget(w, found).oids| <= Share(w)
    ensures KindMax(w.kind).Some? && |ExpandWidget(w, found).oids| <= KindMax(w.kind).value
  {
    hide *;
    LimitFitsTheKind(w);
    ExpandedLength(w, found);
    KeptWithinLimit(w, found);
    ShareCovers(|TemplatesOf(w.oids)|, |FixedOf(w.oids)|, |Kept(w, found)|, InstanceLimit(w));
    var t, f, limit := |TemplatesOf(w.oids)|, |FixedOf(w.oids)|, InstanceLimit(w);
    assert Times(t, |Kept(w, found)|) + f <= Times(t + f, limit);
  }

  function TotalOids(ws: seq<Widget>): nat {
    if ws == [] then 0 else TotalOids(ws[..|ws| - 1]) + |ws[|ws| - 1].oids|
  }

  lemma {:induction false} ExpandedTotal(ws: seq<Widget>, found: nat -> seq<string>)
    requires CheckWidgets(ws) == []
    ensures TotalOids(Expand(ws, found)) <= TotalShare(ws)
  {
    if ws != [] {
      var before := ws[..|ws| - 1];
      ExpandedTotal(before, found);
      ExpandedSize(ws[|ws| - 1], found(|ws| - 1));
      assert Expand(ws, found)[..|ws| - 1] == Expand(before, found);
    }
  }

  /** The rules one widget is held to. */
  predicate WidgetFits(w: Widget) {
    && Drawn(w.kind) > 0 && 1 <= |w.oids| <= Drawn(w.kind)
    && (w.discover.None? ==> forall oid | oid in w.oids :: !IsTemplate(oid))
    && (w.discover.Some? ==> 0 <= w.discover.value.max <= 500 && exists oid | oid in w.oids :: IsTemplate(oid))
  }

  lemma {:induction false} NoTemplatesExactly(oids: seq<string>)
    ensures |TemplatesOf(oids)| == 0 <==> forall oid | oid in oids :: !IsTemplate(oid)
  {
    if oids != [] {
      NoTemplatesExactly(oids[1..]);
      assert oids[0] in oids;
    }
  }

  lemma WidgetFitsExactly(w: Widget)
    ensures CheckWidget(w) == [] <==> WidgetFits(w)
  {
    NoTemplatesExactly(w.oids);
    hide TemplatesOf, IsTemplate;
  }

  lemma {:induction false} WidgetsFitExactly(ws: seq<Widget>)
    ensures CheckWidgets(ws) == [] <==> forall i | 0 <= i < |ws| :: WidgetFits(ws[i])
  {
    hide CheckWidget, WidgetFits;
    if ws != [] {
      var front := ws[..|ws| - 1];
      WidgetsFitExactly(front);
      WidgetFitsExactly(ws[|ws| - 1]);
      assert forall i | 0 <= i < |front| :: front[i] == ws[i];
    }
  }

  /** A preset passes the count rules if and only if it has one to forty widgets, each of a known
      kind with as many OIDs as it can show and a placeholder exactly where it discovers, and what
      they may poll together is no more than five hundred. */
  lemma AcceptedExactly(ws: seq<Widget>)
    ensures CheckCounts(ws) == [] <==>
            1 <= |ws| <= 40 && (forall i | 0 <= i < |ws| :: WidgetFits(ws[i])) && TotalShare(ws) <= 500
  {
    WidgetsFitExactly(ws);
    hide CheckWidgets, WidgetFits, TotalShare;
  }

  /** For every preset the count rules pass and everything a walk may find, expansion
      keeps each widget within its kind and the preset within its bound. */
  lemma ExpansionStaysBounded(ws: seq<Widget>, found: nat -> seq<string>)
    requires CheckCounts(ws) == []
    ensures forall i: nat | i < |ws| :: |Expand(ws, found)[i].oids| <= Drawn(ws[i].kind)
    ensures TotalOids(Expand(ws, found)) <= 500
  {
    ExpandedTotal(ws, found);
    forall i: nat | i < |ws|
      ensures |Expand(ws, found)[i].oids| <= Drawn(ws[i].kind)
    {
      ChecksEveryWidget(ws, i);
      ExpandedSize(ws[i], found(i));
      DrawnIs(ws[i].kind);
      hide CheckWidget, CheckWidgets, ExpandWidget, KindMax, TotalShare, TotalOids, Drawn;
    }
  }

  lemma DrawnIs(kind: string)
    ensures KindMax(kind).Some? ==> KindMax(kind).value == Drawn(kind)
  {
  }

  // --- what the loops count, in closed form ------------------------------------------------

  /** An entry that counts: every one, or only those of a widget with a band. */
  predicate Counts(e: Entry, banded: bool) { !banded || e.band.Some? }

  /** The keys that are polled, or watched. */
  ghost function Keys(es: seq<Entry>, banded: bool): set<string> {
    set e | e in es && !e.template && Counts(e, banded) :: e.key
  }

  /** What is counted without comparing keys: templates and empty keys. */
  function Bulk(es: seq<Entry>, banded: bool): nat {
    if es == [] then 0
    else
      var e := es[|es| - 1];
      Bulk(es[..|es| - 1], banded) + if Counts(e, banded) && (e.template || e.key == "") then e.n else 0
  }

  /** The readings counted for: all of them, or the watched ones. */
  function Figure(c: Cost, banded: bool): nat { if banded then c.watched else c.oids }

  lemma KeysStep(before: seq<Entry>, e: Entry, banded: bool)
    ensures Keys(before + [e], banded) == Keys(before, banded) + if !e.template && Counts(e, banded) then {e.key} else {}
  {
    var es := before + [e];
    assert forall x :: x in es <==> x in before || x == e;
  }

  lemma SeenAreKeys(es: seq<Entry>)
    ensures SeenKeys(es) == Keys(es, false) - {""}
    ensures WatchedKeys(es) == Keys(es, true) - {""}
  {
  }

  predicate UnitFixed(es: seq<Entry>) {
    forall k | 0 <= k < |es| && !es[k].template :: es[k].n == 1
  }

  /** One entry adds itself to a figure when it is of no key or of a new one. */
  lemma FigureStep(c: Cost, e: Entry, seen: set<string>, watched: set<string>, banded: bool)
    ensures Figure(CountEntry(c, e, seen, watched), banded) ==
            Figure(c, banded)
            + if Counts(e, banded) && (e.template || e.key == "" || e.key !in if banded then watched else seen)
              then e.n else 0
  {
  }

  lemma KeyCountStep(had: set<string>, key: string)
    ensures key != "" ==> |(had + {key}) - {""}| == |had - {""}| + if key in had then 0 else 1
    ensures key == "" ==> (had + {key}) - {""} == had - {""}
  {
    if key != "" {
      if key in had {
        assert had + {key} == had;
      } else {
        assert (had + {key}) - {""} == (had - {""}) + {key};
      }
    }
  }

  lemma {:induction false} CostInClosedForm(es: seq<Entry>, banded: bool)
    requires UnitFixed(es)
    ensures Figure(CostOf(es), banded) == |Keys(es, banded) - {""}| + Bulk(es, banded)
  {
    if es != [] {
      var before := es[..|es| - 1];
      var e := es[|es| - 1];
      assert es == before + [e];
      CostInClosedForm(before, banded);
      KeysStep(before, e, banded);
      SeenAreKeys(before);
      FigureStep(CostOf(before), e, SeenKeys(before), WatchedKeys(before), banded);
      KeyCountStep(Keys(before, banded), e.key);
      assert Keys(before, banded) + {} == Keys(before, banded);
      hide Keys, SeenKeys, WatchedKeys, CountEntry, Figure;
    }
  }

  lemma {:induction false} PolledAreKeys(es: seq<Entry>)
    ensures NoDuplicates(PollList(es))
    ensures Elements(PollList(es)) == Keys(es, false)
  {
    if es != [] {
      var before := es[..|es| - 1];
      var e := es[|es| - 1];
      assert es == before + [e];
      PolledAreKeys(before);
      KeysStep(before, e, false);
      ElementsAppend(PollList(before), [e.key]);
      assert Elements([e.key]) == {e.key};
      hide Keys;
    }
  }

  lemma {:induction false} BandsAreKeys(es: seq<Entry>)
    ensures BandMap(es).Keys == Keys(es, true)
  {
    if es != [] {
      var before := es[..|es| - 1];
      var e := es[|es| - 1];
      assert es == before + [e];
      BandsAreKeys(before);
      KeysStep(before, e, true);
      hide Keys;
    }
  }

  // --- what expansion adds ----------------------------------------------------------------

  lemma {:induction false} WidgetEntries(w: Widget, oids: seq<string>, i: nat, k: nat)
    requires k < |oids|
    ensures EntriesOf(w, oids, i)[k] == EntryOf(w, oids[k], i)
  {
    if k < |oids| - 1 {
      WidgetEntries(w, oids[..|oids| - 1], i, k);
    }
  }

  lemma WidgetEntriesAre(w: Widget, i: nat, e: Entry)
    ensures e in EntriesOf(w, w.oids, i) <==> exists oid | oid in w.oids :: e == EntryOf(w, oid, i)
  {
    if e in EntriesOf(w, w.oids, i) {
      var k :| 0 <= k < |w.oids| && EntriesOf(w, w.oids, i)[k] == e;
      WidgetEntries(w, w.oids, i, k);
      assert w.oids[k] in w.oids;
    }
    if oid :| oid in w.oids && e == EntryOf(w, oid, i) {
      var k :| 0 <= k < |w.oids| && w.oids[k] == oid;
      WidgetEntries(w, w.oids, i, k);
    }
  }

  /** The keys a widget polls, when it counts. */
  ghost function WidgetKeys(w: Widget, banded: bool): set<string> {
    if banded && w.threshold.None? then {}
    else set oid | oid in w.oids && !IsTemplate(oid) :: Normalise(oid)
  }

  lemma KeysOfWidget(w: Widget, i: nat, banded: bool)
    ensures Keys(EntriesOf(w, w.oids, i), banded) == WidgetKeys(w, banded)
  {
    forall key
      ensures key in Keys(EntriesOf(w, w.oids, i), banded) <==> key in WidgetKeys(w, banded)
    {
      if key in Keys(EntriesOf(w, w.oids, i), banded) {
        var e :| e in EntriesOf(w, w.oids, i) && !e.template && Counts(e, banded) && e.key == key;
        WidgetEntriesAre(w, i, e);
      }
      if key in WidgetKeys(w, banded) {
        var oid :| oid in w.oids && !IsTemplate(oid) && Normalise(oid) == key;
        WidgetEntriesAre(w, i, EntryOf(w, oid, i));
      }
    }
  }

  lemma KeysAppend(a: seq<Entry>, b: seq<Entry>, banded: bool)
    ensures Keys(a + b, banded) == Keys(a, banded) + Keys(b, banded)
  {
    assert forall x :: x in a + b <==> x in a || x in b;
  }

  /** The keys that expansion brings in: at most one per instance written. */
  ghost function Found(w: Widget, found: seq<string>, banded: bool): set<string> {
    if w.discover.None? || (banded && w.threshold.None?) then {}
    else set oid | oid in AllInstances(TemplatesOf(w.oids), Kept(w, found)) :: Normalise(oid)
  }

  lemma ExpandedKeys(w: Widget, found: seq<string>, banded: bool)
    ensures WidgetKeys(ExpandWidget(w, found), banded) <= WidgetKeys(w, banded) + Found(w, found, banded)
  {
    if w.discover.Some? {
      var insts := AllInstances(TemplatesOf(w.oids), Kept(w, found));
      assert forall oid :: oid in insts + FixedOf(w.oids) <==> oid in insts || oid in FixedOf(w.oids);
    }
  }

  lemma {:induction false} ImageIsNoLarger(xs: seq<string>)
    ensures |set x | x in xs :: Normalise(x)| <= |xs|
  {
    if xs != [] {
      var before := xs[..|xs| - 1];
      ImageIsNoLarger(before);
      assert forall x :: x in xs <==> x in before || x == xs[|xs| - 1];
      assert (set x | x in xs :: Normalise(x)) == (set x | x in before :: Normalise(x)) + {Normalise(xs[|xs| - 1])};
    }
  }

  lemma FoundIsBounded(w: Widget, found: seq<string>, banded: bool)
    ensures |Found(w, found, banded)| <=
            if banded && w.threshold.None? then 0 else Times(|TemplatesOf(w.oids)|, InstanceLimit(w))
  {
    var insts := AllInstances(TemplatesOf(w.oids), Kept(w, found));
    ImageIsNoLarger(insts);
    TimesAtMost(|TemplatesOf(w.oids)|, |Kept(w, found)|, InstanceLimit(w));
    hide TemplatesOf, AllInstances, InstanceLimit, Kept;
  }

  // --- the bulk of a preset pays for its instances --------------------------------------------

  lemma {:induction false} BulkAppend(a: seq<Entry>, b: seq<Entry>, banded: bool)
    ensures Bulk(a + b, banded) == Bulk(a, banded) + Bulk(b, banded)
  {
    if b == [] {
      assert a + b == a;
    } else {
      assert (a + b)[..|a + b| - 1] == a + b[..|b| - 1];
      BulkAppend(a, b[..|b| - 1], banded);
    }
  }

  lemma {:induction false} TemplatesAppend(oids: seq<string>, oid: string)
    ensures TemplatesOf(oids + [oid]) == TemplatesOf(oids) + if IsTemplate(oid) then [oid] else []
  {
    if oids != [] {
      assert (oids + [oid])[1..] == oids[1..] + [oid];
      TemplatesAppend(oids[1..], oid);
    } else {
      assert [] + [oid] == [oid];
    }
  }

  function EmptyKeys(oids: seq<string>): nat {
    if oids == [] then 0
    else
      var oid := oids[|oids| - 1];
      EmptyKeys(oids[..|oids| - 1]) + if !IsTemplate(oid) && Normalise(oid) == "" then 1 else 0
  }

  /** The bulk of a widget is its templates at the limit, and its empty keys. */
  lemma {:induction false} BulkOfWidget(w: Widget, oids: seq<string>, i: nat, banded: bool)
    requires !banded || w.threshold.Some?
    ensures Bulk(EntriesOf(w, oids, i), banded) == Times(|TemplatesOf(oids)|, InstanceLimit(w)) + EmptyKeys(oids)
  {
    if oids == [] {
      TimesDistributes(0, 0, InstanceLimit(w));
    } else {
      var before := oids[..|oids| - 1];
      var oid := oids[|oids| - 1];
      assert oids == before + [oid];
      BulkOfWidget(w, before, i, banded);
      BulkOfOneMore(w, before, oid, i, banded);
    }
  }

  lemma WidgetStep(w: Widget, before: seq<string>, oid: string, i: nat)
    ensures EntriesOf(w, before + [oid], i) == EntriesOf(w, before, i) + [EntryOf(w, oid, i)]
    ensures EmptyKeys(before + [oid]) == EmptyKeys(before) + if !IsTemplate(oid) && Normalise(oid) == "" then 1 else 0
  {
    assert (before + [oid])[..|before|] == before;
    hide EntryOf, IsTemplate, Normalise;
  }

  lemma BulkOfOneMore(w: Widget, before: seq<string>, oid: string, i: nat, banded: bool)
    requires !banded || w.threshold.Some?
    requires Bulk(EntriesOf(w, before, i), banded) == Times(|TemplatesOf(before)|, InstanceLimit(w)) + EmptyKeys(before)
    ensures Bulk(EntriesOf(w, before + [oid], i), banded)
         == Times(|TemplatesOf(before + [oid])|, InstanceLimit(w)) + EmptyKeys(before + [oid])
  {
    WidgetStep(w, before, oid, i);
    TemplatesAppend(before, oid);
    BulkStep(EntriesOf(w, before, i), EntryOf(w, oid, i), banded);
    TimesDistributes(|TemplatesOf(before)|, 1, InstanceLimit(w));
    hide TemplatesOf, InstanceLimit, IsTemplate, Normalise, Bulk, Times, EntriesOf, EmptyKeys;
  }

  lemma BulkStep(before: seq<Entry>, e: Entry, banded: bool)
    ensures Bulk(before + [e], banded) ==
            Bulk(before, banded) + if Counts(e, banded) && (e.template || e.key == "") then e.n else 0
  {
    assert (before + [e])[..|before|] == before;
  }

  lemma {:induction false} EmptyKeyIsCounted(oids: seq<string>, oid: string)
    requires oid in oids && !IsTemplate(oid) && Normalise(oid) == ""
    ensures EmptyKeys(oids) >= 1
  {
    if oid != oids[|oids| - 1] {
      EmptyKeyIsCounted(oids[..|oids| - 1], oid);
    }
  }

  /** What one widget adds: its own keys and, of what it expands to, no more than its bulk. */
  lemma WidgetAdds(w: Widget, found: seq<string>, i: nat, banded: bool) returns (extra: set<string>)
    ensures WidgetKeys(ExpandWidget(w, found), banded) <= WidgetKeys(w, banded) + extra
    ensures |extra| + (if "" in WidgetKeys(w, banded) then 1 else 0) <= Bulk(EntriesOf(w, w.oids, i), banded)
  {
    extra := Found(w, found, banded);
    ExpandedKeys(w, found, banded);
    FoundIsBounded(w, found, banded);
    if !banded || w.threshold.Some? {
      BulkOfWidget(w, w.oids, i, banded);
      if "" in WidgetKeys(w, banded) {
        var oid :| oid in w.oids && !IsTemplate(oid) && Normalise(oid) == "";
        EmptyKeyIsCounted(w.oids, oid);
      }
    }
    hide Found, TemplatesOf, InstanceLimit, ExpandWidget, Bulk, Times;
  }

  lemma OneMoreWidget(ws: seq<Widget>, found: nat -> seq<string>, banded: bool)
    requires ws != []
    ensures var n := |ws| - 1;
            var w := ws[n];
            && Keys(Entries(ws), banded) == Keys(Entries(ws[..n]), banded) + WidgetKeys(w, banded)
            && Keys(Entries(Expand(ws, found)), banded)
               == Keys(Entries(Expand(ws[..n], found)), banded) + WidgetKeys(ExpandWidget(w, found(n)), banded)
            && Bulk(Entries(ws), banded) == Bulk(Entries(ws[..n]), banded) + Bulk(EntriesOf(w, w.oids, n), banded)
  {
    var n := |ws| - 1;
    var w := ws[n];
    var x := ExpandWidget(w, found(n));
    assert Expand(ws, found)[..n] == Expand(ws[..n], found);
    KeysAppend(Entries(ws[..n]), EntriesOf(w, w.oids, n), banded);
    KeysAppend(Entries(Expand(ws[..n], found)), EntriesOf(x, x.oids, n), banded);
    KeysOfWidget(w, n, banded);
    KeysOfWidget(x, n, banded);
    BulkAppend(Entries(ws[..n]), EntriesOf(w, w.oids, n), banded);
    hide Keys, Bulk, ExpandWidget, EntriesOf, WidgetKeys;
  }

  /** The keys of the expanded preset, the keys named in the file, and the bulk. */
  lemma {:induction false} ExpandedPresetKeys(ws: seq<Widget>, found: nat -> seq<string>, banded: bool)
    returns (extra: set<string>)
    ensures Keys(Entries(Expand(ws, found)), banded) <= Keys(Entries(ws), banded) + extra
    ensures |extra| + (if "" in Keys(Entries(ws), banded) then 1 else 0) <= Bulk(Entries(ws), banded)
  {
    if ws == [] {
      return {};
    }
    var n := |ws| - 1;
    var front := ExpandedPresetKeys(ws[..n], found, banded);
    var more := WidgetAdds(ws[n], found(n), n, banded);
    extra := front + more;
    OneMoreWidget(ws, found, banded);
    assert |extra| <= |front| + |more|;
    hide Keys, Bulk, Expand, ExpandWidget, EntriesOf, WidgetKeys, Entries;
  }

  lemma {:induction false} EntriesAreUnit(ws: seq<Widget>)
    ensures UnitFixed(Entries(ws))
  {
    if ws != [] {
      var n := |ws| - 1;
      EntriesAreUnit(ws[..n]);
      forall k | 0 <= k < |ws[n].oids|
        ensures EntriesOf(ws[n], ws[n].oids, n)[k] == EntryOf(ws[n], ws[n].oids[k], n)
      {
        WidgetEntries(ws[n], ws[n].oids, n, k);
      }
    }
  }

  lemma KeysWithinFigure(ws: seq<Widget>, found: nat -> seq<string>, banded: bool)
    ensures |Keys(Entries(Expand(ws, found)), banded)| <= Figure(CostOf(Entries(ws)), banded)
  {
    var named := Keys(Entries(ws), banded);
    var extra := ExpandedPresetKeys(ws, found, banded);
    EntriesAreUnit(ws);
    CostInClosedForm(Entries(ws), banded);
    SubsetIsNoLarger(Keys(Entries(Expand(ws, found)), banded), named + extra);
    if "" in named {
      assert |named| == |named - {""}| + 1;
    } else {
      assert named - {""} == named;
    }
    hide Keys, Figure;
  }

  lemma {:induction false} SubsetIsNoLarger(a: set<string>, b: set<string>)
    requires a <= b
    ensures |a| <= |b|
  {
    if a != {} {
      var x := Member(a);
      SubsetIsNoLarger(a - {x}, b - {x});
    }
  }

  /** For every preset, valid or not, and everything a walk may find: the OIDs polled
      after expansion are at most the OIDs stated before it, and the readings that end up
      with a band are at most the stated watched ones. */
  lemma CostIsAnUpperBound(ws: seq<Widget>, found: nat -> seq<string>)
    ensures |PollList(Entries(Expand(ws, found)))| <= CostOf(Entries(ws)).oids
    ensures |BandMap(Entries(Expand(ws, found)))| <= CostOf(Entries(ws)).watched
  {
    var es := Entries(Expand(ws, found));
    PolledAreKeys(es);
    NoDuplicatesCardinality(PollList(es));
    BandsAreKeys(es);
    assert |BandMap(es)| == |BandMap(es).Keys|;
    KeysWithinFigure(ws, found, false);
    KeysWithinFigure(ws, found, true);
    hide Keys;
  }

  // --- and exact without discovery ---------------------------------------------------------------

  /** No template anywhere, and no OID that is empty once its leading dot is off. */
  predicate Concrete(es: seq<Entry>) {
    forall k | 0 <= k < |es| :: !es[k].template && es[k].key != ""
  }

  lemma {:induction false} ConcreteHasNoBulk(es: seq<Entry>, banded: bool)
    requires Concrete(es)
    ensures Bulk(es, banded) == 0
  {
    if es != [] {
      ConcreteHasNoBulk(es[..|es| - 1], banded);
    }
  }

  lemma CostIsExactWithoutDiscovery(ws: seq<Widget>)
    requires Concrete(Entries(ws))
    ensures |PollList(Entries(ws))| == CostOf(Entries(ws)).oids
    ensures |BandMap(Entries(ws))| == CostOf(Entries(ws)).watched
  {
    var es := Entries(ws);
    EntriesAreUnit(ws);
    CostInClosedForm(es, false);
    CostInClosedForm(es, true);
    ConcreteHasNoBulk(es, false);
    ConcreteHasNoBulk(es, true);
    PolledAreKeys(es);
    NoDuplicatesCardinality(PollList(es));
    BandsAreKeys(es);
    forall banded | banded == true || banded == false
      ensures Keys(es, banded) - {""} == Keys(es, banded)
    {
    }
    assert |BandMap(es)| == |BandMap(es).Keys|;
  }
}
