/** The incidents of a run, told on its readings alone: values against the limits of their
    band, and times (pkg/monitor/breach.go:99-210). */
module BreachBands {
  import opened Basics
  import opened Text
  import opened Breach
  import opened BreachRuns

  // --- one reading against its band ---------------------------------------------------------

  /** There is a value, and a band that alerts. */
  predicate Armed(x: Input) {
    x.s.value.Some? && x.th.Some? && x.th.value.alertEnabled
  }

  predicate UnderMin(x: Input) {
    Armed(x) && x.th.value.min.Some? && x.s.value.value < x.th.value.min.value
  }

  predicate OverMax(x: Input) {
    Armed(x) && x.th.value.max.Some? && x.s.value.value > x.th.value.max.value
  }

  /** Below is looked at first: it counts when a band is upside down and both hold. */
  predicate Beyond(x: Input, side: Side) {
    match side
    case Below => UnderMin(x)
    case Above => OverMax(x) && !UnderMin(x)
  }

  function LimitOf(x: Input, side: Side): real
    requires Beyond(x, side)
  {
    match side
    case Below => x.th.value.min.value
    case Above => x.th.value.max.value
  }

  /** A value, and nothing wrong with it. */
  predicate Healthy(x: Input) { x.s.value.Some? && !UnderMin(x) && !OverMax(x) }

  /** When the reading was taken. */
  function TimeOf(x: Input): int { if x.s.stamp.Some? then x.s.stamp.value else x.s.clock }

  // --- the readings of one series -------------------------------------------------------------

  predicate OfSeries(x: Input, session: string, target: string, oid: string) {
    x.session == session && x.s.target == target && x.s.oid == oid
  }

  /** The readings kept under one episode key, in order. */
  function Readings(inputs: seq<Input>, key: Key): seq<Input> {
    if inputs == [] then []
    else
      Readings(inputs[..|inputs| - 1], key)
      + if KeyOf(inputs[|inputs| - 1]) == key then [inputs[|inputs| - 1]] else []
  }

  function Series(inputs: seq<Input>, session: string, target: string, oid: string): seq<Input> {
    if inputs == [] then []
    else
      Series(inputs[..|inputs| - 1], session, target, oid)
      + if OfSeries(inputs[|inputs| - 1], session, target, oid) then [inputs[|inputs| - 1]] else []
  }

  /** The separator of keys occurs in no session and no OID, so that keys tell series apart. */
  predicate Plain(x: Input) { '|' !in x.session && '|' !in x.s.oid }

  /** Two readings share an episode key exactly when session, target and OID are the same. */
  lemma KeysTellSeriesApart(x: Input, y: Input)
    requires Plain(x) && Plain(y)
    ensures KeyOf(x) == KeyOf(y) <==> OfSeries(y, x.session, x.s.target, x.s.oid)
  {
    if KeyOf(x) == KeyOf(y) {
      var p := "threshold|";
      var s, t := x.session + "|" + (x.s.target + "|" + x.s.oid), y.session + "|" + (y.s.target + "|" + y.s.oid);
      assert KeyOf(x) == p + s && KeyOf(y) == p + t;
      assert (p + s)[|p|..] == s && (p + t)[|p|..] == t;
      CutAtSeparator(x.session, x.s.target + "|" + x.s.oid, y.session, y.s.target + "|" + y.s.oid);
      CutAtLastSeparator(x.s.target, x.s.oid, y.s.target, y.s.oid);
    }
  }

  /** So what is kept under a key is one series: one OID of one target in one session. */
  lemma {:induction false} ReadingsAreOneSeries(inputs: seq<Input>, x: Input)
    requires Plain(x) && forall i | 0 <= i < |inputs| :: Plain(inputs[i])
    ensures Readings(inputs, KeyOf(x)) == Series(inputs, x.session, x.s.target, x.s.oid)
  {
    if inputs != [] {
      hide Plain, KeyOf, OfSeries;
      ReadingsAreOneSeries(inputs[..|inputs| - 1], x);
      KeysTellSeriesApart(x, inputs[|inputs| - 1]);
    }
  }

  // --- an incident, on the readings ------------------------------------------------------------

  /** Readings i to j are beyond the limit of one side, and i is where that began. */
  ghost predicate Stretch(xs: seq<Input>, i: int, j: int, side: Side) {
    && 0 <= i <= j < |xs|
    && (forall k | i <= k <= j :: Beyond(xs[k], side))
    && (i > 0 ==> !Beyond(xs[i - 1], side))
  }

  /** Reading k comes the asked-for time after reading i, whose time is kept to the second. */
  predicate LongEnough(xs: seq<Input>, i: int, k: int)
    requires 0 <= i <= k < |xs| && xs[k].th.Some?
  {
    TimeOf(xs[k]) - (TimeOf(xs[i]) - TimeOf(xs[i]) % 1_000_000_000) >= xs[k].th.value.forSeconds * 1_000_000_000
  }

  /** Some reading of the stretch came long enough after its start. */
  ghost predicate Sustained(xs: seq<Input>, i: int, j: int, side: Side) {
    Stretch(xs, i, j, side) && exists k | i <= k <= j :: Beyond(xs[k], side) && LongEnough(xs, i, k)
  }

  /** Reading j is the first of its stretch to be so. */
  ghost predicate OpensOn(xs: seq<Input>, i: int, j: int, side: Side) {
    Stretch(xs, i, j, side) && LongEnough(xs, i, j)
    && forall k | i <= k < j :: Beyond(xs[k], side) ==> !LongEnough(xs, i, k)
  }

  /** Reading j is healthy, right after a sustained stretch. */
  ghost predicate ResolvesOn(xs: seq<Input>, i: int, j: int, side: Side) {
    0 < j < |xs| && Healthy(xs[j]) && Sustained(xs, i, j - 1, side)
  }

  // --- the history of the evaluator says the same ------------------------------------------------

  /** One tick of a history against the reading it came from. */
  predicate Tells(t: Tick, x: Input) {
    && (t.verdict.Outside? <==> Beyond(x, Below) || Beyond(x, Above))
    && (t.verdict.Outside? ==>
          Beyond(x, t.verdict.side) && t.verdict.bound == LimitOf(x, t.verdict.side) && t.verdict.value == x.s.value.value)
    && (t.verdict.Back? <==> Healthy(x))
    && (t.verdict.Back? ==> t.verdict.value == x.s.value.value)
    && t.at == TimeOf(x)
    && (x.th.Some? ==> t.hold == x.th.value.forSeconds)
  }

  lemma TickTells(st: State, x: Input)
    ensures Tells(TickOf(st, x), x)
  {
  }

  lemma {:induction false} HistoryTells(inputs: seq<Input>, nextId: nat, key: Key)
    ensures var h, xs := History(inputs, nextId, key), Readings(inputs, key);
            |h| == |xs| && forall k | 0 <= k < |h| :: Tells(h[k], xs[k])
  {
    if inputs != [] {
      hide Tells, TickOf, KeyOf;
      var before, last := inputs[..|inputs| - 1], inputs[|inputs| - 1];
      HistoryTells(before, nextId, key);
      TickTells(RunState(before, nextId), last);
    }
  }

  ghost predicate AllTell(h: seq<Tick>, xs: seq<Input>) {
    |h| == |xs| && forall k | 0 <= k < |h| :: Tells(h[k], xs[k])
  }

  lemma SidesExclude(x: Input)
    ensures !(Beyond(x, Below) && Beyond(x, Above))
    ensures Healthy(x) ==> !Beyond(x, Below) && !Beyond(x, Above)
  {
  }

  lemma OnSide(t: Tick, x: Input, side: Side)
    requires Tells(t, x)
    ensures Beyond(x, side) <==> t.verdict.Outside? && t.verdict.side == side
  {
    SidesExclude(x);
    match side {
      case Below =>
      case Above =>
    }
  }

  lemma StretchesAreEpisodes(h: seq<Tick>, xs: seq<Input>, i: int, j: int, side: Side)
    requires AllTell(h, xs)
    ensures Stretch(xs, i, j, side) <==> IsEpisode(h, i, j) && h[i].verdict.Outside? && h[i].verdict.side == side
  {
    forall k | 0 <= k < |h|
      ensures Beyond(xs[k], side) <==> h[k].verdict.Outside? && h[k].verdict.side == side
    {
      OnSide(h[k], xs[k], side);
    }
    hide Tells, Beyond;
  }

  lemma LongEnoughIsHeld(h: seq<Tick>, xs: seq<Input>, i: int, k: int)
    requires AllTell(h, xs) && 0 <= i <= k < |xs| && xs[k].th.Some?
    ensures LongEnough(xs, i, k) <==> Held(h, i, k)
  {
    assert Tells(h[i], xs[i]) && Tells(h[k], xs[k]);
  }

  lemma OpeningsAreOpenings(h: seq<Tick>, xs: seq<Input>, i: int, j: int, side: Side)
    requires AllTell(h, xs)
    ensures OpensOn(xs, i, j, side) <==> OpensAt(h, i, j) && h[i].verdict.side == side
  {
    StretchesAreEpisodes(h, xs, i, j, side);
    if Stretch(xs, i, j, side) {
      forall k | i <= k <= j
        ensures Beyond(xs[k], side) && xs[k].th.Some? && (LongEnough(xs, i, k) <==> Held(h, i, k))
      {
        LongEnoughIsHeld(h, xs, i, k);
      }
    }
    hide AllTell, Beyond, LongEnough, Held, Stretch, IsEpisode;
  }

  lemma SustainedIsRaised(h: seq<Tick>, xs: seq<Input>, i: int, j: int, side: Side)
    requires AllTell(h, xs)
    ensures Sustained(xs, i, j, side) <==>
            IsEpisode(h, i, j) && h[i].verdict.Outside? && h[i].verdict.side == side && Raised(h, i, j)
  {
    StretchesAreEpisodes(h, xs, i, j, side);
    if Stretch(xs, i, j, side) {
      forall k | i <= k <= j
        ensures Beyond(xs[k], side) && xs[k].th.Some? && (LongEnough(xs, i, k) <==> Held(h, i, k))
      {
        LongEnoughIsHeld(h, xs, i, k);
      }
    }
    hide AllTell, Beyond, LongEnough, Held, Stretch, IsEpisode;
  }

  lemma ResolutionsAreResolutions(h: seq<Tick>, xs: seq<Input>, i: int, j: int, side: Side)
    requires AllTell(h, xs)
    ensures ResolvesOn(xs, i, j, side) <==>
            ResolvesAt(h, i, j) && h[i].verdict.Outside? && h[i].verdict.side == side
  {
    SustainedIsRaised(h, xs, i, j - 1, side);
    hide Sustained, IsEpisode, Raised, Healthy, Beyond;
  }

  /** A reading that neither opens nor resolves on any side is no opening and no resolution. */
  lemma NeitherIsNeither(h: seq<Tick>, xs: seq<Input>, n: int)
    requires AllTell(h, xs)
    requires forall i, side :: !OpensOn(xs, i, n, side) && !ResolvesOn(xs, i, n, side)
    ensures forall i :: !OpensAt(h, i, n) && !ResolvesAt(h, i, n)
  {
    forall i
      ensures !OpensAt(h, i, n) && !ResolvesAt(h, i, n)
    {
      if OpensAt(h, i, n) {
        OpeningsAreOpenings(h, xs, i, n, h[i].verdict.side);
      }
      if ResolvesAt(h, i, n) {
        ResolutionsAreResolutions(h, xs, i, n, h[i].verdict.side);
      }
    }
  }

  // --- the theorem -----------------------------------------------------------------------------------

  /** What the last of these readings records, given the ids their episodes would take. */
  ghost predicate TellsEvents(xs: seq<Input>, h: seq<Tick>, key: Key, evs: seq<Event>)
    requires |h| == |xs| > 0
  {
    var n := |xs| - 1;
    && (forall i, side | OpensOn(xs, i, n, side) ::
          evs == [Opened(key, h[i].supply, side, LimitOf(xs[n], side), xs[n].s.value.value)])
    && (forall i, side | ResolvesOn(xs, i, n, side) ::
          evs == [Resolved(key, h[i].supply, xs[n].s.value.value)])
    && ((forall i, side :: !OpensOn(xs, i, n, side) && !ResolvesOn(xs, i, n, side)) ==> evs == [])
  }

  lemma OpeningTold(h: seq<Tick>, xs: seq<Input>, i: int, n: int, side: Side)
    requires AllTell(h, xs) && OpensOn(xs, i, n, side)
    ensures OpensAt(h, i, n) && h[n].verdict.side == side
    ensures h[n].verdict.bound == LimitOf(xs[n], side) && h[n].verdict.value == xs[n].s.value.value
  {
    OpeningsAreOpenings(h, xs, i, n, side);
    assert Beyond(xs[n], side) && Tells(h[n], xs[n]);
    OnSide(h[n], xs[n], side);
    hide AllTell, Tells, OpensOn, OpensAt;
  }

  lemma ResolutionTold(h: seq<Tick>, xs: seq<Input>, i: int, n: int, side: Side)
    requires AllTell(h, xs) && ResolvesOn(xs, i, n, side)
    ensures ResolvesAt(h, i, n) && h[n].verdict.value == xs[n].s.value.value
  {
    ResolutionsAreResolutions(h, xs, i, n, side);
    assert Healthy(xs[n]) && Tells(h[n], xs[n]);
  }

  lemma HistoryTellsEvents(h: seq<Tick>, xs: seq<Input>, key: Key, evs: seq<Event>)
    requires AllTell(h, xs) && h != []
    requires var n := |h| - 1;
             && (forall i :: OpensAt(h, i, n) ==>
                   evs == [Opened(key, h[i].supply, h[n].verdict.side, h[n].verdict.bound, h[n].verdict.value)])
             && (forall i :: ResolvesAt(h, i, n) ==> evs == [Resolved(key, h[i].supply, h[n].verdict.value)])
             && ((forall i :: !OpensAt(h, i, n) && !ResolvesAt(h, i, n)) ==> evs == [])
    ensures TellsEvents(xs, h, key, evs)
  {
    var n := |xs| - 1;
    forall i, side | OpensOn(xs, i, n, side)
      ensures evs == [Opened(key, h[i].supply, side, LimitOf(xs[n], side), xs[n].s.value.value)]
    {
      OpeningTold(h, xs, i, n, side);
    }
    forall i, side | ResolvesOn(xs, i, n, side)
      ensures evs == [Resolved(key, h[i].supply, xs[n].s.value.value)]
    {
      ResolutionTold(h, xs, i, n, side);
    }
    if forall i, side :: !OpensOn(xs, i, n, side) && !ResolvesOn(xs, i, n, side) {
      NeitherIsNeither(h, xs, n);
    }
    hide OpensOn, OpensAt, ResolvesOn, ResolvesAt, AllTell;
  }

  lemma LastReading(inputs: seq<Input>)
    requires inputs != []
    ensures var xs := Readings(inputs, KeyOf(inputs[|inputs| - 1]));
            xs != [] && xs[|xs| - 1] == inputs[|inputs| - 1]
  {
  }

  /** Every threshold event, on the readings alone: the last reading of a run opens an incident
      on a side if and only if it is the first of a stretch beyond that side's limit to have
      lasted, naming the limit it is beyond and its value; it resolves one if and only if it is
      healthy and ends a stretch that had lasted; and nothing else is ever recorded. */
  lemma IncidentsOnTheReadings(inputs: seq<Input>, nextId: nat)
    requires inputs != []
    ensures var x := inputs[|inputs| - 1];
            var xs, h := Readings(inputs, KeyOf(x)), History(inputs, nextId, KeyOf(x));
            && |h| == |xs| > 0 && xs[|xs| - 1] == x
            && TellsEvents(xs, h, KeyOf(x), LastEvents(inputs, nextId))
  {
    hide *;
    var key := KeyOf(inputs[|inputs| - 1]);
    HistoryIsTold(inputs, nextId, key);
    EventsAreExactlyTheIncidents(inputs, nextId);
    LastReading(inputs);
    HistoryTellsEvents(History(inputs, nextId, key), Readings(inputs, key), key, LastEvents(inputs, nextId));
  }

  lemma HistoryIsTold(inputs: seq<Input>, nextId: nat, key: Key)
    ensures |History(inputs, nextId, key)| == |Readings(inputs, key)|
    ensures AllTell(History(inputs, nextId, key), Readings(inputs, key))
  {
    HistoryTells(inputs, nextId, key);
  }

  /** After any run an episode is kept for a key if and only if its readings end in a stretch
      beyond one side's limit; it is that stretch's: its side, when it began, whether it lasted. */
  lemma EpisodesOnTheReadings(inputs: seq<Input>, nextId: nat, key: Key, i: int, side: Side)
    ensures var xs := Readings(inputs, key);
            var episodes := RunState(inputs, nextId).episodes;
            && (Stretch(xs, i, |xs| - 1, side) ==>
                  && key in episodes && episodes[key].kind == side
                  && episodes[key].firstSeen == Some(TimeOf(xs[i]) - TimeOf(xs[i]) % 1_000_000_000)
                  && (episodes[key].firedAt.Some? <==> Sustained(xs, i, |xs| - 1, side)))
            && (key in episodes ==> xs != [] && Beyond(xs[|xs| - 1], episodes[key].kind))
  {
    var h, xs := History(inputs, nextId, key), Readings(inputs, key);
    HistoryIsTold(inputs, nextId, key);
    var a := EpisodesAreTracked(inputs, nextId, key);
    StretchesAreEpisodes(h, xs, i, |xs| - 1, side);
    SustainedIsRaised(h, xs, i, |xs| - 1, side);
    if Stretch(xs, i, |xs| - 1, side) {
      EpisodeBeginsOnce(h, a, i, |xs| - 1);
      assert Tells(h[i], xs[i]);
    }
    if key in RunState(inputs, nextId).episodes {
      assert Tells(h[|h| - 1], xs[|xs| - 1]) && SameSide(h[a], h[|h| - 1]);
    }
    hide RunState, History, Readings, Stretch, Sustained, Raised;
  }

  /** The episode of a stretch that was raised keeps, to the second, the time of the reading that
      raised it. */
  lemma RaisedWhen(inputs: seq<Input>, nextId: nat, key: Key, i: int, k: int, side: Side)
    requires var xs := Readings(inputs, key); Stretch(xs, i, |xs| - 1, side) && OpensOn(xs, i, k, side)
    ensures var xs, episodes := Readings(inputs, key), RunState(inputs, nextId).episodes;
            key in episodes
            && episodes[key].firedAt == Some(TimeOf(xs[k]) - TimeOf(xs[k]) % 1_000_000_000)
  {
    hide *;
    var h, xs := History(inputs, nextId, key), Readings(inputs, key);
    HistoryIsTold(inputs, nextId, key);
    var a := EpisodesAreTracked(inputs, nextId, key);
    StretchesAreEpisodes(h, xs, i, |xs| - 1, side);
    OpeningsAreOpenings(h, xs, i, k, side);
    OpeningIsThere(h, i, k);
    TrackedWhenRaised(RunState(inputs, nextId).episodes, key, h, a, i, k);
    TimeIsTold(h, xs, k);
  }

  lemma OpeningIsThere(h: seq<Tick>, i: int, k: int)
    requires OpensAt(h, i, k)
    ensures 0 <= i <= k < |h|
  {
  }

  lemma TrackedWhenRaised(episodes: map<Key, Episode>, key: Key, h: seq<Tick>, a: int, i: int, k: int)
    requires Tracks(episodes, key, h, a) && IsEpisode(h, i, |h| - 1) && OpensAt(h, i, k)
    ensures key in episodes && 0 <= k < |h| && episodes[key].firedAt == Some(ToSecond(h[k].at))
  {
    hide Raised, Held;
    assert SameSide(h[i], h[|h| - 1]);
    EpisodeBeginsOnce(h, a, i, |h| - 1);
  }

  lemma TimeIsTold(h: seq<Tick>, xs: seq<Input>, k: int)
    requires AllTell(h, xs) && 0 <= k < |h|
    ensures |xs| == |h| && ToSecond(h[k].at) == TimeOf(xs[k]) - TimeOf(xs[k]) % 1_000_000_000
  {
    assert Tells(h[k], xs[k]);
  }
}
