/** Presets: what a dashboard file asks to poll, and what it is said to cost
    (pkg/preset/preset.go, discover.go, threshold.go). Bounds are reals. */
module Preset {
  import opened Basics
  import opened Text

  const MAX_OIDS_PER_PRESET := 500
  const MAX_WIDGETS := 40
  const MAX_DISCOVERED_PER_WIDGET := 128
  const SECONDS_PER_DAY := 86400

  datatype Threshold = Threshold(min: Option<real>, max: Option<real>, forSeconds: int, alertEnabled: Option<bool>)

  datatype Discover = Discover(walk: string, max: int)

  datatype Widget = Widget(kind: string, oids: seq<string>, discover: Option<Discover>, threshold: Option<Threshold>)

  /** How many readings a kind can show; None for a kind outside the vocabulary. */
  function KindMax(kind: string): (n: Option<nat>)
    ensures n.Some? ==> n.value > 0
  {
    if kind == "value" || kind == "rate" || kind == "status" then Some(1)
    else if kind == "chart" then Some(8)
    else if kind == "grid" || kind == "map" then Some(96)
    else None
  }

  // --- OIDs and templates ------------------------------------------------------------

  predicate AtPlaceholder(s: string) { |s| >= 3 && s[0] == '{' && s[1] == '#' && s[2] == '}' }

  /** An OID that carries a placeholder is a template, not an address. */
  predicate IsTemplate(oid: string) {
    oid != "" && (AtPlaceholder(oid) || IsTemplate(oid[1..]))
  }

  function Instantiate(oid: string, suffix: string): string {
    if oid == "" then ""
    else if AtPlaceholder(oid) then suffix + Instantiate(oid[3..], suffix)
    else [oid[0]] + Instantiate(oid[1..], suffix)
  }

  function Normalise(oid: string): string { TrimPrefix(oid, '.') }

  function TemplatesOf(oids: seq<string>): (ts: seq<string>)
    ensures |ts| <= |oids|
    ensures forall t | t in ts :: t in oids && IsTemplate(t)
  {
    if oids == [] then [] else (if IsTemplate(oids[0]) then [oids[0]] else []) + TemplatesOf(oids[1..])
  }

  function FixedOf(oids: seq<string>): (fs: seq<string>)
    ensures |fs| + |TemplatesOf(oids)| == |oids|
    ensures forall f | f in fs :: f in oids && !IsTemplate(f)
  {
    if oids == [] then [] else (if IsTemplate(oids[0]) then [] else [oids[0]]) + FixedOf(oids[1..])
  }

  // --- discovery ---------------------------------------------------------------------

  /** How many instances a widget may take: the walk bound, or what its kind can draw. */
  function InstanceLimit(w: Widget): nat {
    if w.discover.None? then 0
    else
      var limit: nat := if w.discover.value.max > 0 then w.discover.value.max else MAX_DISCOVERED_PER_WIDGET;
      var templates := |TemplatesOf(w.oids)|;
      if templates == 0 then 0
      else match KindMax(w.kind)
        case Some(m) => Min(limit, Max(0, m - (|w.oids| - templates)) / templates)
        case None => limit
  }

  function OneInstance(templates: seq<string>, suffix: string): (r: seq<string>)
    ensures |r| == |templates|
  {
    if templates == [] then [] else [Instantiate(templates[0], suffix)] + OneInstance(templates[1..], suffix)
  }

  /** Instance-major: every template for the first instance, then for the second. */
  function AllInstances(templates: seq<string>, found: seq<string>): (r: seq<string>)
    ensures |r| == |templates| * |found|
  {
    if found == [] then []
    else
      var rest := AllInstances(templates, found[1..]);
      assert |templates| * |found| == |templates| + |templates| * |found[1..]|;
      OneInstance(templates, found[0]) + rest
  }

  function Kept(w: Widget, found: seq<string>): (kept: seq<string>)
    ensures |kept| <= InstanceLimit(w) && kept <= found
  {
    if |found| > InstanceLimit(w) then found[..InstanceLimit(w)] else found
  }

  function ExpandWidget(w: Widget, found: seq<string>): Widget {
    if w.discover.None? then w
    else w.(discover := None, oids := AllInstances(TemplatesOf(w.oids), Kept(w, found)) + FixedOf(w.oids))
  }

  function Expand(ws: seq<Widget>, found: nat -> seq<string>): (r: seq<Widget>)
    ensures |r| == |ws|
  {
    seq(|ws|, i requires 0 <= i < |ws| => ExpandWidget(ws[i], found(i)))
  }

  // --- the count rules of Validate ------------------------------------------------------

  datatype Problem =
    | NoWidgets | TooManyWidgets | UnknownKind | NoOids | TooManyForKind
    | PlaceholderWithoutDiscover | DiscoverWithoutPlaceholder | MaxOutOfRange | TooManyOids

  function CheckDiscovery(w: Widget): seq<Problem> {
    var templates := |TemplatesOf(w.oids)|;
    match w.discover
    case None => if templates > 0 then [PlaceholderWithoutDiscover] else []
    case Some(d) =>
      (if templates == 0 then [DiscoverWithoutPlaceholder] else [])
      + (if d.max < 0 || d.max > MAX_OIDS_PER_PRESET then [MaxOutOfRange] else [])
  }

  function CheckWidget(w: Widget): seq<Problem> {
    (if KindMax(w.kind).None? then [UnknownKind] else [])
    + (if w.oids == [] then [NoOids] else [])
    + (if KindMax(w.kind).Some? && |w.oids| > KindMax(w.kind).value then [TooManyForKind] else [])
    + CheckDiscovery(w)
  }

  /** A discovering widget counts its bound, because the walk has not happened yet. */
  function Share(w: Widget): nat {
    if w.discover.Some? then |w.oids| * InstanceLimit(w) else |w.oids|
  }

  function TotalShare(ws: seq<Widget>): nat {
    if ws == [] then 0 else TotalShare(ws[..|ws| - 1]) + Share(ws[|ws| - 1])
  }

  function CheckWidgets(ws: seq<Widget>): seq<Problem> {
    if ws == [] then [] else CheckWidgets(ws[..|ws| - 1]) + CheckWidget(ws[|ws| - 1])
  }

  function CheckCounts(ws: seq<Widget>): seq<Problem> {
    (if ws == [] then [NoWidgets] else [])
    + (if |ws| > MAX_WIDGETS then [TooManyWidgets] else [])
    + CheckWidgets(ws)
    + (if TotalShare(ws) > MAX_OIDS_PER_PRESET then [TooManyOids] else [])
  }

  // --- thresholds ------------------------------------------------------------------------

  /** A band is evaluated unless it says it is not. */
  predicate Alerts(t: Threshold) { t.alertEnabled.None? || t.alertEnabled.value }

  predicate Same(a: Threshold, b: Threshold) {
    a.min == b.min && a.max == b.max && a.forSeconds == b.forSeconds && (Alerts(a) <==> Alerts(b))
  }

  // --- every OID of a preset, in order ----------------------------------------------------

  /** One OID as the counting loops meet it: its key (none for a template), how many
      readings it stands for, and the band of its widget. */
  datatype Entry = Entry(template: bool, key: string, n: nat, band: Option<Threshold>, widget: nat)

  function EntryOf(w: Widget, oid: string, i: nat): Entry {
    if IsTemplate(oid) then Entry(true, "", InstanceLimit(w), w.threshold, i)
    else Entry(false, Normalise(oid), 1, w.threshold, i)
  }

  function EntriesOf(w: Widget, oids: seq<string>, i: nat): (es: seq<Entry>)
    ensures |es| == |oids|
  {
    if oids == [] then []
    else EntriesOf(w, oids[..|oids| - 1], i) + [EntryOf(w, oids[|oids| - 1], i)]
  }

  function Entries(ws: seq<Widget>): seq<Entry> {
    if ws == [] then []
    else Entries(ws[..|ws| - 1]) + EntriesOf(ws[|ws| - 1], ws[|ws| - 1].oids, |ws| - 1)
  }

  // --- what the counting loops compute over them -------------------------------------------

  datatype Cost = Cost(oids: nat, discovered: nat, watched: nat, alerting: nat)

  /** The distinct keys counted so far; a template and an empty key are never the same
      reading twice. */
  function SeenKeys(es: seq<Entry>): set<string> {
    set e | e in es && !e.template && e.key != "" :: e.key
  }

  function WatchedKeys(es: seq<Entry>): set<string> {
    set e | e in es && !e.template && e.key != "" && e.band.Some? :: e.key
  }

  function CountEntry(c: Cost, e: Entry, seen: set<string>, watched: set<string>): Cost {
    var unique := e.template || e.key == "";
    var counted := if unique || e.key !in seen
                   then c.(oids := c.oids + e.n, discovered := c.discovered + if unique then e.n else 0)
                   else c;
    if e.band.Some? && (unique || e.key !in watched) then
      counted.(watched := counted.watched + e.n,
               alerting := counted.alerting + if Alerts(e.band.value) then e.n else 0)
    else counted
  }

  function CostOf(es: seq<Entry>): Cost {
    if es == [] then Cost(0, 0, 0, 0)
    else
      var before := es[..|es| - 1];
      CountEntry(CostOf(before), es[|es| - 1], SeenKeys(before), WatchedKeys(before))
  }

  /** PollOIDs: the keys in the order they first appear. */
  function PollList(es: seq<Entry>): seq<string> {
    if es == [] then []
    else
      var polled := PollList(es[..|es| - 1]);
      var e := es[|es| - 1];
      if e.template || e.key in polled then polled else polled + [e.key]
  }

  /** ThresholdsFor: the last widget to name an OID decides its band. */
  function BandMap(es: seq<Entry>): map<string, Threshold> {
    if es == [] then map[]
    else
      var m := BandMap(es[..|es| - 1]);
      var e := es[|es| - 1];
      if e.template || e.band.None? then m else m[e.key := e.band.value]
  }

  /** Where checkThresholdConflicts keeps the first widget to name an OID. */
  datatype Claim = Claim(widget: nat, band: Threshold)

  datatype Conflict = Conflict(widget: nat, key: string, other: nat)

  function FirstClaims(es: seq<Entry>): map<string, Claim> {
    if es == [] then map[]
    else
      var m := FirstClaims(es[..|es| - 1]);
      var e := es[|es| - 1];
      if e.template || e.band.None? || e.key in m then m else m[e.key := Claim(e.widget, e.band.value)]
  }

  function ReportedKeys(es: seq<Entry>): set<string> {
    if es == [] then {}
    else
      var before := es[..|es| - 1];
      var e := es[|es| - 1];
      if Clashes(before, e) then ReportedKeys(before) + {e.key} else ReportedKeys(before)
  }

  predicate Clashes(before: seq<Entry>, e: Entry) {
    && !e.template && e.band.Some? && e.key in FirstClaims(before)
    && !Same(FirstClaims(before)[e.key].band, e.band.value)
  }

  /** One conflict per OID, at the first widget that disagrees with the first claim. */
  function Conflicts(es: seq<Entry>): seq<Conflict> {
    if es == [] then []
    else
      var before := es[..|es| - 1];
      var e := es[|es| - 1];
      Conflicts(before)
      + if Clashes(before, e) && e.key !in ReportedKeys(before)
        then [Conflict(e.widget, e.key, FirstClaims(before)[e.key].widget + 1)]
        else []
  }
}
