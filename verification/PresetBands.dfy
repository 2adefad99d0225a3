/** One reading, one band: conflicts, order and alerting (pkg/preset/threshold.go:76-118,
    157-194; pkg/preset/preset.go:488-514). */
module PresetBands {
  import opened Basics
  import opened Text
  import opened Preset
  import opened PresetCost

  // --- what a widget claims -----------------------------------------------------------

  /** The widget names this reading, and has this band. */
  predicate GivesBand(w: Widget, oid: string, key: string, band: Threshold) {
    oid in w.oids && !IsTemplate(oid) && Undotted(oid) == key && w.threshold == Some(band)
  }

  /** Some widget with this band names this reading. */
  ghost predicate Claimed(ws: seq<Widget>, key: string, band: Threshold) {
    exists w, oid :: w in ws && GivesBand(w, oid, key, band)
  }

  /** Two OIDs are one reading when they differ by a leading dot only. */
  function Undotted(oid: string): string { if oid != "" && oid[0] == '.' then oid[1..] else oid }

  /** A band alerts unless it says that it does not. */
  predicate MayAlert(t: Threshold) { t.alertEnabled != Some(false) }

  predicate SayTheSame(a: Threshold, b: Threshold) {
    a.min == b.min && a.max == b.max && a.forSeconds == b.forSeconds && (MayAlert(a) <==> MayAlert(b))
  }

  /** Bands on one reading say the same thing. */
  ghost predicate Agree(ws: seq<Widget>) {
    forall key, a, b | Claimed(ws, key, a) && Claimed(ws, key, b) :: SayTheSame(a, b)
  }

  // --- on entries -----------------------------------------------------------------------

  predicate Bands(e: Entry, key: string, band: Threshold) {
    !e.template && e.key == key && e.band == Some(band)
  }

  ghost predicate EntryClaims(es: seq<Entry>, key: string, band: Threshold) {
    exists e :: e in es && Bands(e, key, band)
  }

  ghost predicate EntriesAgree(es: seq<Entry>) {
    forall key, a, b | EntryClaims(es, key, a) && EntryClaims(es, key, b) :: Same(a, b)
  }

  lemma EntryClaimsStep(before: seq<Entry>, e: Entry, key: string, band: Threshold)
    ensures EntryClaims(before + [e], key, band) <==> EntryClaims(before, key, band) || Bands(e, key, band)
  {
    assert forall x :: x in before + [e] <==> x in before || x == e;
    if EntryClaims(before, key, band) {
      var x :| x in before && Bands(x, key, band);
      assert x in before + [e];
    }
    if Bands(e, key, band) {
      assert e in before + [e];
    }
  }

  lemma EntryOfFixed(w: Widget, oid: string, i: nat, key: string, band: Threshold)
    ensures Bands(EntryOf(w, oid, i), key, band) <==> !IsTemplate(oid) && Undotted(oid) == key && w.threshold == Some(band)
  {
    hide IsTemplate, InstanceLimit;
  }

  lemma WidgetEntriesClaim(w: Widget, i: nat, key: string, band: Threshold)
    ensures EntryClaims(EntriesOf(w, w.oids, i), key, band) <==> exists oid :: GivesBand(w, oid, key, band)
  {
    hide IsTemplate, EntryOf, Undotted, EntriesOf, Bands;
    if e :| e in EntriesOf(w, w.oids, i) && Bands(e, key, band) {
      WidgetEntriesAre(w, i, e);
      var oid :| oid in w.oids && e == EntryOf(w, oid, i);
      EntryOfFixed(w, oid, i, key, band);
      assert GivesBand(w, oid, key, band);
    }
    if oid :| GivesBand(w, oid, key, band) {
      WidgetEntriesAre(w, i, EntryOf(w, oid, i));
      EntryOfFixed(w, oid, i, key, band);
    }
  }

  lemma ClaimedStep(before: seq<Widget>, w: Widget, key: string, band: Threshold)
    ensures Claimed(before + [w], key, band) <==> Claimed(before, key, band) || exists oid :: GivesBand(w, oid, key, band)
  {
    hide GivesBand;
    var ws := before + [w];
    assert forall x :: x in ws <==> x in before || x == w;
    if x, oid :| x in before && GivesBand(x, oid, key, band) {
      assert x in ws;
    }
    if oid :| GivesBand(w, oid, key, band) {
      assert w in ws;
    }
  }

  lemma {:induction false} EntriesClaimWhatWidgetsClaim(ws: seq<Widget>, key: string, band: Threshold)
    ensures EntryClaims(Entries(ws), key, band) <==> Claimed(ws, key, band)
  {
    if ws != [] {
      hide EntryClaims, Claimed, EntriesOf, GivesBand;
      var n := |ws| - 1;
      var w := ws[n];
      EntriesClaimWhatWidgetsClaim(ws[..n], key, band);
      WidgetEntriesClaim(w, n, key, band);
      ClaimsAppend(Entries(ws[..n]), EntriesOf(w, w.oids, n), key, band);
      ClaimedStep(ws[..n], w, key, band);
      assert ws[..n] + [w] == ws;
    }
  }

  lemma ClaimsAppend(a: seq<Entry>, b: seq<Entry>, key: string, band: Threshold)
    ensures EntryClaims(a + b, key, band) <==> EntryClaims(a, key, band) || EntryClaims(b, key, band)
  {
    if EntryClaims(a, key, band) {
      var x :| x in a && Bands(x, key, band);
      assert x in a + b;
    }
    if EntryClaims(b, key, band) {
      var x :| x in b && Bands(x, key, band);
      assert x in a + b;
    }
  }

  /** The first and the last band on a reading are both claimed, and none is missed. */
  lemma {:induction false} MapsHoldClaims(es: seq<Entry>, key: string)
    ensures key in BandMap(es) <==> key in FirstClaims(es)
    ensures key in BandMap(es) ==> EntryClaims(es, key, BandMap(es)[key]) && EntryClaims(es, key, FirstClaims(es)[key].band)
    ensures forall band | EntryClaims(es, key, band) :: key in BandMap(es)
  {
    if es != [] {
      var before := es[..|es| - 1];
      var e := es[|es| - 1];
      assert es == before + [e];
      MapsHoldClaims(before, key);
      forall band
        ensures EntryClaims(es, key, band) <==> EntryClaims(before, key, band) || Bands(e, key, band)
      {
        EntryClaimsStep(before, e, key, band);
      }
      hide EntryClaims;
    }
  }

  // --- conflicts, exactly ------------------------------------------------------------------

  lemma {:induction false} ReportedWhenConflicts(es: seq<Entry>)
    ensures Conflicts(es) == [] <==> ReportedKeys(es) == {}
  {
    if es != [] {
      ReportedWhenConflicts(es[..|es| - 1]);
      hide Clashes, FirstClaims;
    }
  }

  lemma AgreeStep(before: seq<Entry>, e: Entry)
    ensures EntriesAgree(before + [e]) <==> EntriesAgree(before) && !Clashes(before, e)
  {
    forall key, band
      ensures EntryClaims(before + [e], key, band) <==> EntryClaims(before, key, band) || Bands(e, key, band)
    {
      EntryClaimsStep(before, e, key, band);
    }
    MapsHoldClaims(before, e.key);
    hide EntryClaims, BandMap, FirstClaims;
    if !e.template && e.band.Some? {
      assert EntryClaims(before + [e], e.key, e.band.value) by { assert Bands(e, e.key, e.band.value); }
    }
  }

  /** checkThresholdConflicts reports nothing exactly when all bands on one reading say
      the same thing. */
  lemma {:induction false} NoConflictExactly(es: seq<Entry>)
    ensures Conflicts(es) == [] <==> EntriesAgree(es)
  {
    if es != [] {
      var before := es[..|es| - 1];
      assert es == before + [es[|es| - 1]];
      NoConflictExactly(before);
      AgreeStep(before, es[|es| - 1]);
      ReportedWhenConflicts(before);
      hide EntriesAgree, Clashes, FirstClaims;
    }
  }

  lemma SameIsSayTheSame(a: Threshold, b: Threshold)
    ensures Same(a, b) <==> SayTheSame(a, b)
  {
  }

  lemma WidgetsAgreeExactly(ws: seq<Widget>)
    ensures Conflicts(Entries(ws)) == [] <==> Agree(ws)
  {
    hide EntryClaims, Claimed, Entries, Same, SayTheSame, Conflicts;
    NoConflictExactly(Entries(ws));
    forall key, band
      ensures EntryClaims(Entries(ws), key, band) <==> Claimed(ws, key, band)
    {
      EntriesClaimWhatWidgetsClaim(ws, key, band);
    }
    forall a, b
      ensures Same(a, b) <==> SayTheSame(a, b)
    {
      SameIsSayTheSame(a, b);
    }
  }

  /** Without conflicts the threshold map says the same whatever order the widgets are
      in: it depends only on which widgets there are. */
  lemma ThresholdsIgnoreOrder(ws: seq<Widget>, vs: seq<Widget>)
    requires forall w :: w in ws <==> w in vs
    requires Conflicts(Entries(ws)) == []
    ensures Conflicts(Entries(vs)) == []
    ensures BandMap(Entries(ws)).Keys == BandMap(Entries(vs)).Keys
    ensures forall key | key in BandMap(Entries(ws)) :: SayTheSame(BandMap(Entries(ws))[key], BandMap(Entries(vs))[key])
  {
    WidgetsAgreeExactly(ws);
    WidgetsAgreeExactly(vs);
    forall key, band
      ensures Claimed(ws, key, band) <==> Claimed(vs, key, band)
    {
    }
    forall key
      ensures key in BandMap(Entries(ws)) <==> key in BandMap(Entries(vs))
      ensures key in BandMap(Entries(ws)) ==> SayTheSame(BandMap(Entries(ws))[key], BandMap(Entries(vs))[key])
    {
      SameBand(ws, vs, key);
    }
  }

  lemma SameBand(ws: seq<Widget>, vs: seq<Widget>, key: string)
    requires Agree(ws)
    requires forall k, band :: Claimed(ws, k, band) <==> Claimed(vs, k, band)
    ensures key in BandMap(Entries(ws)) <==> key in BandMap(Entries(vs))
    ensures key in BandMap(Entries(ws)) ==> SayTheSame(BandMap(Entries(ws))[key], BandMap(Entries(vs))[key])
  {
    MapsHoldClaims(Entries(ws), key);
    MapsHoldClaims(Entries(vs), key);
    forall band
      ensures EntryClaims(Entries(ws), key, band) <==> Claimed(ws, key, band)
      ensures EntryClaims(Entries(vs), key, band) <==> Claimed(vs, key, band)
    {
      EntriesClaimWhatWidgetsClaim(ws, key, band);
      EntriesClaimWhatWidgetsClaim(vs, key, band);
    }
    hide EntryClaims, Claimed, Entries, BandMap;
  }

  // --- alerting ---------------------------------------------------------------------------------

  /** The readings whose first band is evaluated. */
  ghost function FirstAlerting(es: seq<Entry>): set<string> {
    set key | key in FirstClaims(es) && Alerts(FirstClaims(es)[key].band)
  }

  lemma FirstStep(before: seq<Entry>, e: Entry)
    requires !e.template
    ensures var es := before + [e];
            && FirstClaims(es).Keys == FirstClaims(before).Keys + (if e.band.Some? then {e.key} else {})
            && FirstAlerting(es) ==
               FirstAlerting(before)
               + if e.band.Some? && e.key !in FirstClaims(before) && Alerts(e.band.value) then {e.key} else {}
  {
    assert (before + [e])[..|before|] == before;
  }

  lemma WatchedStep(before: seq<Entry>, e: Entry)
    requires !e.template && e.key != ""
    ensures WatchedKeys(before + [e]) == WatchedKeys(before) + if e.band.Some? then {e.key} else {}
  {
    assert forall x :: x in before + [e] <==> x in before || x == e;
  }

  lemma AlertingStep(c: Cost, e: Entry, seen: set<string>, watched: set<string>)
    requires !e.template && e.key != "" && e.n == 1
    ensures CountEntry(c, e, seen, watched).alerting ==
            c.alerting + if e.band.Some? && e.key !in watched && Alerts(e.band.value) then 1 else 0
  {
  }

  lemma {:induction false} AlertingInClosedForm(es: seq<Entry>)
    requires Concrete(es) && UnitFixed(es)
    ensures CostOf(es).alerting == |FirstAlerting(es)|
    ensures FirstClaims(es).Keys == WatchedKeys(es)
  {
    if es != [] {
      var before := es[..|es| - 1];
      var e := es[|es| - 1];
      assert es == before + [e];
      AlertingInClosedForm(before);
      FirstStep(before, e);
      WatchedStep(before, e);
      AlertingStep(CostOf(before), e, SeenKeys(before), WatchedKeys(before));
      assert e.key !in FirstClaims(before) ==> e.key !in FirstAlerting(before);
      hide WatchedKeys, SeenKeys, FirstAlerting, FirstClaims, CountEntry;
    }
  }

  lemma SameBandAlerts(es: seq<Entry>, key: string)
    requires EntriesAgree(es)
    ensures key in FirstAlerting(es) <==> key in BandMap(es) && MayAlert(BandMap(es)[key])
  {
    MapsHoldClaims(es, key);
    hide EntryClaims, BandMap, FirstClaims;
  }

  /** For a preset without discovery or conflicts, the readings said to alert, counted by
      the first widget to name each, are as many as the entries of the threshold map that
      alert, where the last widget decides. */
  lemma AlertingIsExact(ws: seq<Widget>)
    requires Concrete(Entries(ws)) && Conflicts(Entries(ws)) == []
    ensures CostOf(Entries(ws)).alerting
         == |set key | key in BandMap(Entries(ws)) && MayAlert(BandMap(Entries(ws))[key])|
  {
    var es := Entries(ws);
    EntriesAreUnit(ws);
    AlertingInClosedForm(es);
    NoConflictExactly(es);
    forall key
      ensures key in FirstAlerting(es) <==> key in BandMap(es) && MayAlert(BandMap(es)[key])
    {
      SameBandAlerts(es, key);
    }
    hide EntriesAgree, Conflicts, Concrete;
    assert FirstAlerting(es) == set key | key in BandMap(es) && MayAlert(BandMap(es)[key]);
  }

  // --- what is polled --------------------------------------------------------------------------

  lemma {:induction false} KeysAreNamed(ws: seq<Widget>, key: string)
    ensures key in Keys(Entries(ws), false) <==>
            exists w, oid :: w in ws && oid in w.oids && !IsTemplate(oid) && Undotted(oid) == key
  {
    if ws != [] {
      var n := |ws| - 1;
      var w := ws[n];
      KeysAreNamed(ws[..n], key);
      assert forall x :: x in ws <==> x in ws[..n] || x == w;
      KeysAppend(Entries(ws[..n]), EntriesOf(w, w.oids, n), false);
      KeysOfWidget(w, n, false);
      assert key in WidgetKeys(w, false) <==> exists oid :: oid in w.oids && !IsTemplate(oid) && Undotted(oid) == key;
    }
  }

  /** What is polled is each OID some widget names, with no dot before it, and each once. */
  lemma PolledExactly(ws: seq<Widget>)
    ensures NoDuplicates(PollList(Entries(ws)))
    ensures forall key :: key in PollList(Entries(ws)) <==>
                          exists w, oid :: w in ws && oid in w.oids && !IsTemplate(oid) && Undotted(oid) == key
  {
    PolledAreKeys(Entries(ws));
    hide Keys, PollList, Entries, IsTemplate, Undotted;
    forall key
      ensures key in PollList(Entries(ws)) <==>
              exists w, oid :: w in ws && oid in w.oids && !IsTemplate(oid) && Undotted(oid) == key
    {
      KeysAreNamed(ws, key);
      assert key in Elements(PollList(Entries(ws))) <==> key in PollList(Entries(ws));
    }
  }

  // --- which widget decides, and where a conflict is reported -----------------------------------

  /** Entry q is the last to give this reading a band. */
  ghost predicate IsLastClaim(es: seq<Entry>, key: string, q: int) {
    0 <= q < |es| && Claims(es[q], key) && forall m | q < m < |es| :: !Claims(es[m], key)
  }

  predicate Claims(e: Entry, key: string) { !e.template && e.key == key && e.band.Some? }

  /** The last entry to give a reading a band decides it. */
  lemma {:induction false} LastBandStands(es: seq<Entry>, key: string, q: int)
    requires IsLastClaim(es, key, q)
    ensures key in BandMap(es) && Some(BandMap(es)[key]) == es[q].band
  {
    var n := |es| - 1;
    if q < n {
      assert !Claims(es[n], key);
      assert es[..n][q] == es[q];
      LastBandStands(es[..n], key, q);
    }
  }

  /** Entry p is the first to give the reading a band, and entry q the first to say otherwise. */
  ghost predicate ClashAt(es: seq<Entry>, key: string, p: int, q: int) {
    && 0 <= p < q < |es| && Claims(es[p], key) && Claims(es[q], key)
    && (forall m | 0 <= m < p :: !Claims(es[m], key))
    && !SayTheSame(es[p].band.value, es[q].band.value)
    && forall m | p < m < q && Claims(es[m], key) :: SayTheSame(es[p].band.value, es[m].band.value)
  }

  ghost predicate IsFirstClaim(es: seq<Entry>, key: string, p: int) {
    0 <= p < |es| && Claims(es[p], key) && forall m | 0 <= m < p :: !Claims(es[m], key)
  }

  lemma {:induction false} FirstClaimIs(es: seq<Entry>, key: string) returns (p: int)
    ensures key in FirstClaims(es) <==> exists m :: 0 <= m < |es| && Claims(es[m], key)
    ensures key in FirstClaims(es) ==>
              IsFirstClaim(es, key, p) && FirstClaims(es)[key] == Claim(es[p].widget, es[p].band.value)
  {
    p := 0;
    if es != [] {
      var n := |es| - 1;
      p := FirstClaimIs(es[..n], key);
      assert forall m | 0 <= m < n :: es[..n][m] == es[m];
      if key !in FirstClaims(es[..n]) {
        p := n;
      }
    }
  }

  /** The reading has been reported exactly when some entry clashed. */
  lemma {:induction false} ReportedExactly(es: seq<Entry>, key: string)
    ensures key in ReportedKeys(es) <==> exists p, q :: ClashAt(es, key, p, q)
  {
    if es != [] {
      var n := |es| - 1;
      var before, e := es[..n], es[n];
      ReportedExactly(before, key);
      var p := FirstClaimIs(before, key);
      ClashesGrow(before, e, key, p);
      assert before + [e] == es;
    }
  }

  lemma ClashesGrow(before: seq<Entry>, e: Entry, key: string, p: int)
    requires key in FirstClaims(before) <==> exists m :: 0 <= m < |before| && Claims(before[m], key)
    requires key in FirstClaims(before) ==>
               IsFirstClaim(before, key, p) && FirstClaims(before)[key] == Claim(before[p].widget, before[p].band.value)
    ensures (exists p, q :: ClashAt(before + [e], key, p, q)) <==>
            (exists p, q :: ClashAt(before, key, p, q)) || (Clashes(before, e) && e.key == key)
  {
    hide FirstClaims;
    var es := before + [e];
    assert forall m | 0 <= m < |before| :: es[m] == before[m];
    if a, q :| ClashAt(before, key, a, q) {
      assert ClashAt(es, key, a, q);
    } else if Clashes(before, e) && e.key == key {
      assert forall m | p < m < |before| && Claims(before[m], key) :: SayTheSame(before[p].band.value, before[m].band.value) by {
        NoClashAgrees(before, key, p);
      }
      assert ClashAt(es, key, p, |before|);
    }
    if a, q :| ClashAt(es, key, a, q) {
      if q < |before| {
        assert ClashAt(before, key, a, q);
      } else {
        assert Claims(before[a], key) && a == p;
      }
    }
  }

  /** When no entry clashed, all say what the first said. */
  lemma NoClashAgrees(es: seq<Entry>, key: string, p: int)
    requires IsFirstClaim(es, key, p) && forall a, q :: !ClashAt(es, key, a, q)
    ensures forall m | p < m < |es| && Claims(es[m], key) :: SayTheSame(es[p].band.value, es[m].band.value)
  {
    var m := p + 1;
    while m < |es|
      invariant p < m <= |es|
      invariant forall k | p < k < m && Claims(es[k], key) :: SayTheSame(es[p].band.value, es[k].band.value)
    {
      if Claims(es[m], key) && !SayTheSame(es[p].band.value, es[m].band.value) {
        assert ClashAt(es, key, p, m);
        assert false;
      }
      m := m + 1;
    }
  }

  lemma {:induction false} ConflictKeys(es: seq<Entry>)
    ensures forall c | c in Conflicts(es) :: c.key in ReportedKeys(es)
    ensures forall i, j | 0 <= i < j < |Conflicts(es)| :: Conflicts(es)[i].key != Conflicts(es)[j].key
  {
    if es != [] {
      hide Clashes, FirstClaims;
      var before := es[..|es| - 1];
      ConflictKeys(before);
      forall i | 0 <= i < |Conflicts(before)|
        ensures Conflicts(before)[i].key in ReportedKeys(before)
      {
        assert Conflicts(before)[i] in Conflicts(before);
      }
    }
  }

  /** The last entry clashes for the first time exactly when this is where the clash is. */
  lemma LastClash(before: seq<Entry>, e: Entry, p: int)
    requires !e.template && e.key in FirstClaims(before) ==>
               IsFirstClaim(before, e.key, p) && FirstClaims(before)[e.key] == Claim(before[p].widget, before[p].band.value)
    requires e.key in FirstClaims(before) <==> exists m :: 0 <= m < |before| && Claims(before[m], e.key)
    requires e.key in ReportedKeys(before) <==> exists a, q :: ClashAt(before, e.key, a, q)
    ensures Clashes(before, e) && e.key !in ReportedKeys(before) <==> ClashAt(before + [e], e.key, p, |before|)
  {
    hide FirstClaims, ReportedKeys;
    var es := before + [e];
    assert forall m | 0 <= m < |before| :: es[m] == before[m];
    if Clashes(before, e) && e.key !in ReportedKeys(before) {
      NoClashAgrees(before, e.key, p);
    }
    if ClashAt(es, e.key, p, |before|) {
      assert Claims(before[p], e.key);
      if a, q :| ClashAt(before, e.key, a, q) {
        EarlierClashes(before, e, e.key, a, q);
        OneClash(es, e.key, p, |before|, a, q);
      }
    }
  }

  lemma OneClash(es: seq<Entry>, key: string, p: int, q: int, a: int, r: int)
    requires ClashAt(es, key, p, q) && ClashAt(es, key, a, r)
    ensures p == a && q == r
  {
  }

  lemma EarlierClashes(before: seq<Entry>, e: Entry, key: string, p: int, q: int)
    requires q < |before|
    ensures ClashAt(before + [e], key, p, q) <==> ClashAt(before, key, p, q)
  {
    var es := before + [e];
    assert forall m | 0 <= m < |before| :: es[m] == before[m];
  }

  lemma ClashOfLast(before: seq<Entry>, e: Entry, key: string, a: int, p: int)
    requires ClashAt(before + [e], key, a, |before|) && IsFirstClaim(before, key, p)
    ensures e.key == key && a == p
  {
    var es := before + [e];
    assert forall m | 0 <= m < |before| :: es[m] == before[m];
  }

  ghost predicate ConflictAt(es: seq<Entry>, c: Conflict, p: int, q: int) {
    ClashAt(es, c.key, p, q) && c.widget == es[q].widget && c.other == es[p].widget + 1
  }

  lemma OneMoreConflict(before: seq<Entry>, e: Entry, c: Conflict)
    requires c in Conflicts(before) <==> exists p, q :: ConflictAt(before, c, p, q)
    ensures c in Conflicts(before + [e]) <==> exists p, q :: ConflictAt(before + [e], c, p, q)
  {
    hide Clashes, FirstClaims, ReportedKeys, ClashAt, IsFirstClaim, Claims, SayTheSame;
    var es, n := before + [e], |before|;
    assert es[..n] == before && es[n] == e;
    var p := FirstClaimIs(before, e.key);
    ReportedExactly(before, e.key);
    LastClash(before, e, p);
    if a, q :| ConflictAt(before, c, a, q) {
      ClashHolds(before, c.key, a, q);
      EarlierClashes(before, e, c.key, a, q);
      assert ConflictAt(es, c, a, q);
    }
    if c in Conflicts(es) && c !in Conflicts(before) {
      NewConflict(before, e, c, p);
    }
    if a, q :| ConflictAt(es, c, a, q) {
      ClashHolds(es, c.key, a, q);
      if q < n {
        EarlierClashes(before, e, c.key, a, q);
        assert ConflictAt(before, c, a, q);
      } else {
        LastConflict(before, e, c, a, p);
      }
    }
  }

  lemma ClashHolds(es: seq<Entry>, key: string, p: int, q: int)
    requires ClashAt(es, key, p, q)
    ensures 0 <= p < q < |es|
  {
  }

  /** p is where the first claim stands, if there is one. */
  ghost predicate KnowsFirst(es: seq<Entry>, key: string, p: int) {
    && (key in FirstClaims(es) <==> exists m :: 0 <= m < |es| && Claims(es[m], key))
    && (key in FirstClaims(es) ==>
          IsFirstClaim(es, key, p) && FirstClaims(es)[key] == Claim(es[p].widget, es[p].band.value))
  }

  lemma FirstIsKnown(es: seq<Entry>, key: string, p: int, a: int)
    requires KnowsFirst(es, key, p) && 0 <= a < |es| && Claims(es[a], key)
    ensures IsFirstClaim(es, key, p) && key in FirstClaims(es) && 0 <= p < |es|
    ensures FirstClaims(es)[key].widget == es[p].widget
  {
    hide FirstClaims, Claims;
  }

  lemma ConflictUnpacks(es: seq<Entry>, c: Conflict, p: int, q: int)
    requires ConflictAt(es, c, p, q)
    ensures ClashAt(es, c.key, p, q) && 0 <= p < q < |es| && c.widget == es[q].widget && c.other == es[p].widget + 1
  {
  }

  lemma NewConflict(before: seq<Entry>, e: Entry, c: Conflict, p: int)
    requires c in Conflicts(before + [e]) && c !in Conflicts(before) && KnowsFirst(before, e.key, p)
    requires Clashes(before, e) && e.key !in ReportedKeys(before) <==> ClashAt(before + [e], e.key, p, |before|)
    ensures ConflictAt(before + [e], c, p, |before|)
  {
    hide FirstClaims, ReportedKeys, ClashAt, IsFirstClaim, Claims, Same, Conflicts;
    ConflictsStep(before, e);
    ClashHolds(before + [e], e.key, p, |before|);
    assert (before + [e])[|before|] == e && (before + [e])[p] == before[p];
  }

  lemma LastConflict(before: seq<Entry>, e: Entry, c: Conflict, a: int, p: int)
    requires ConflictAt(before + [e], c, a, |before|) && KnowsFirst(before, e.key, p)
    requires Clashes(before, e) && e.key !in ReportedKeys(before) <==> ClashAt(before + [e], e.key, p, |before|)
    ensures c in Conflicts(before + [e])
  {
    hide *;
    ConflictUnpacks(before + [e], c, a, |before|);
    ClashOfLastIs(before, e, c.key, a);
    FirstIsKnown(before, e.key, p, a);
    ClashOfLast(before, e, c.key, a, p);
    ConflictsStep(before, e);
    assert c == Conflict(e.widget, e.key, FirstClaims(before)[e.key].widget + 1);
  }

  lemma ClashOfLastIs(before: seq<Entry>, e: Entry, key: string, a: int)
    requires ClashAt(before + [e], key, a, |before|)
    ensures e.key == key && !e.template && 0 <= a < |before| && Claims(before[a], key)
  {
    assert (before + [e])[a] == before[a] && (before + [e])[|before|] == e;
  }

  lemma ConflictsStep(before: seq<Entry>, e: Entry)
    ensures Conflicts(before + [e]) ==
            Conflicts(before)
            + if Clashes(before, e) && e.key !in ReportedKeys(before)
              then [Conflict(e.widget, e.key, FirstClaims(before)[e.key].widget + 1)]
              else []
  {
    hide FirstClaims, ReportedKeys;
    assert (before + [e])[..|before|] == before;
  }

  /** Each conflict names the widget that first says otherwise and, counted from one, the widget
      that spoke first; each reading on which widgets differ has exactly one. */
  lemma {:induction false} ConflictsExactly(es: seq<Entry>, c: Conflict)
    ensures c in Conflicts(es) <==> exists p, q :: ConflictAt(es, c, p, q)
    ensures forall i, j | 0 <= i < j < |Conflicts(es)| :: Conflicts(es)[i].key != Conflicts(es)[j].key
  {
    ConflictKeys(es);
    if es != [] {
      var n := |es| - 1;
      ConflictsExactly(es[..n], c);
      assert es == es[..n] + [es[n]];
      hide *;
      OneMoreConflict(es[..n], es[n], c);
    }
  }

  // --- the order of polling ---------------------------------------------------------------------

  /** Where this reading is named for the first time. */
  ghost predicate FirstNamed(es: seq<Entry>, key: string, p: int) {
    0 <= p < |es| && Polls(es[p], key) && forall m | 0 <= m < p :: !Polls(es[m], key)
  }

  predicate Polls(e: Entry, key: string) { !e.template && e.key == key }

  /** Readings are polled in the order in which they are named for the first time. */
  lemma {:induction false} PolledInOrder(es: seq<Entry>, i: nat, j: nat) returns (p: int, q: int)
    requires i < j < |PollList(es)|
    ensures FirstNamed(es, PollList(es)[i], p) && FirstNamed(es, PollList(es)[j], q) && p < q
  {
    var n := |es| - 1;
    var before := PollList(es[..n]);
    assert forall m | 0 <= m < n :: es[..n][m] == es[m];
    if j < |before| {
      p, q := PolledInOrder(es[..n], i, j);
    } else {
      p := PolledSomewhere(es[..n], i);
      q := n;
      NamedIsPolled(es[..n], es[n].key);
    }
  }

  lemma {:induction false} PolledSomewhere(es: seq<Entry>, i: nat) returns (p: int)
    requires i < |PollList(es)|
    ensures FirstNamed(es, PollList(es)[i], p)
  {
    var n := |es| - 1;
    assert forall m | 0 <= m < n :: es[..n][m] == es[m];
    if i < |PollList(es[..n])| {
      p := PolledSomewhere(es[..n], i);
    } else {
      p := n;
      NamedIsPolled(es[..n], es[n].key);
    }
  }

  lemma NamedIsPolled(es: seq<Entry>, key: string)
    ensures key !in PollList(es) ==> forall m | 0 <= m < |es| :: !Polls(es[m], key)
  {
    PolledAreKeys(es);
    hide PollList;
    if key !in PollList(es) {
      forall m | 0 <= m < |es|
        ensures !Polls(es[m], key)
      {
        assert es[m] in es;
        assert key !in Elements(PollList(es));
      }
    }
  }
}
