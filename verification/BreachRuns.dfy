/** The incidents a whole run of samples amounts to (pkg/monitor/breach.go:113-213). */
module BreachRuns {
  import opened Basics
  import opened Breach

  /** One sample as the evaluator meets it. */
  datatype Input = Input(session: string, s: Sample, th: Option<Threshold>)

  datatype Verdict = Outside(side: Side, bound: real, value: real) | Back(value: real) | Unreadable

  /** What one series sees of a sample; `supply` is the id a new episode would get. */
  datatype Tick = Tick(verdict: Verdict, at: int, hold: int, supply: nat)

  function KeyOf(x: Input): Key { ThresholdKey(x.session, x.s.target, x.s.oid) }

  /** A readable sample that is not outside an armed band is back inside it. */
  function VerdictOf(x: Input): Verdict {
    match Classify(x.s.value, x.th)
    case Some((side, bound)) => Outside(side, bound, x.s.value.value)
    case None => if x.s.value.Some? then Back(x.s.value.value) else Unreadable
  }

  function Start(nextId: nat): State { State(map[], map[], nextId) }

  function RunState(inputs: seq<Input>, nextId: nat): State {
    if inputs == [] then Start(nextId)
    else
      var x := inputs[|inputs| - 1];
      SampleState(RunState(inputs[..|inputs| - 1], nextId), x.session, x.s, x.th)
  }

  /** The events the last of these samples causes. */
  function LastEvents(inputs: seq<Input>, nextId: nat): seq<Event>
    requires inputs != []
  {
    var x := inputs[|inputs| - 1];
    SampleEvents(RunState(inputs[..|inputs| - 1], nextId), x.session, x.s, x.th)
  }

  /** The samples of one series, in order. */
  function History(inputs: seq<Input>, nextId: nat, key: Key): seq<Tick> {
    if inputs == [] then []
    else
      var before := inputs[..|inputs| - 1];
      var x := inputs[|inputs| - 1];
      History(before, nextId, key)
      + if KeyOf(x) == key then [TickOf(RunState(before, nextId), x)] else []
  }

  /** The tick a sample adds to its series. */
  function TickOf(st: State, x: Input): Tick {
    Tick(VerdictOf(x), At(x.s), if x.th.Some? then x.th.value.forSeconds else 0, st.nextId)
  }

  // --- what an incident is, said without an evaluator -------------------------------

  predicate SameSide(a: Tick, b: Tick) {
    a.verdict.Outside? && b.verdict.Outside? && a.verdict.side == b.verdict.side
  }

  /** Samples i to j are outside on one side, and i is where that began. */
  ghost predicate IsEpisode(h: seq<Tick>, i: int, j: int) {
    && 0 <= i <= j < |h|
    && (forall k | i <= k <= j :: SameSide(h[i], h[k]))
    && (i > 0 ==> !SameSide(h[i - 1], h[i]))
  }

  /** Measured from the start of the episode, stored to the second, sample k has held. */
  predicate Held(h: seq<Tick>, i: int, k: int)
    requires 0 <= i <= k < |h|
  {
    h[k].at - ToSecond(h[i].at) >= h[k].hold * SECOND
  }

  ghost predicate Raised(h: seq<Tick>, i: int, j: int)
    requires 0 <= i <= j < |h|
  {
    exists k | i <= k <= j :: Held(h, i, k)
  }

  /** Sample j is the first of its episode, begun at i, that has held. */
  ghost predicate OpensAt(h: seq<Tick>, i: int, j: int) {
    IsEpisode(h, i, j) && Held(h, i, j) && forall k | i <= k < j :: !Held(h, i, k)
  }

  /** Sample j is back inside, and the episode before it, begun at i, was raised. */
  ghost predicate ResolvesAt(h: seq<Tick>, i: int, j: int) {
    0 < j < |h| && h[j].verdict.Back? && IsEpisode(h, i, j - 1) && Raised(h, i, j - 1)
  }

  // --- the evaluator tracks exactly that ---------------------------------------------

  lemma InsideAnEpisode(h: seq<Tick>, i: int, j: int)
    requires IsEpisode(h, i, j)
    ensures forall m | i < m <= j :: SameSide(h[m - 1], h[m])
  {
    forall m | i < m <= j
      ensures SameSide(h[m - 1], h[m])
    {
      assert SameSide(h[i], h[m - 1]) && SameSide(h[i], h[m]);
    }
  }

  lemma EpisodeBeginsOnce(h: seq<Tick>, i: int, i': int, j: int)
    requires IsEpisode(h, i, j) && IsEpisode(h, i', j)
    ensures i == i'
  {
    InsideAnEpisode(h, i, j);
    InsideAnEpisode(h, i', j);
  }

  /** The open episode of a series is the run of samples that ends its history. */
  ghost predicate Tracks(episodes: map<Key, Episode>, key: Key, h: seq<Tick>, i: int) {
    if h == [] || !h[|h| - 1].verdict.Outside? then key !in episodes
    else
      && key in episodes && IsEpisode(h, i, |h| - 1)
      && var epi := episodes[key];
         && epi.kind == h[i].verdict.side
         && epi.firstSeen == Some(ToSecond(h[i].at))
         && epi.corrId == h[i].supply
         && (epi.firedAt.Some? <==> Raised(h, i, |h| - 1))
         && (forall k | OpensAt(h, i, k) :: epi.firedAt == Some(ToSecond(h[k].at)))
  }

  lemma {:induction false} EpisodesAreTracked(inputs: seq<Input>, nextId: nat, key: Key) returns (i: int)
    ensures Tracks(RunState(inputs, nextId).episodes, key, History(inputs, nextId, key), i)
  {
    i := 0;
    if inputs != [] {
      var before := inputs[..|inputs| - 1];
      var x := inputs[|inputs| - 1];
      i := EpisodesAreTracked(before, nextId, key);
      if KeyOf(x) == key {
        assert History(inputs, nextId, key) == History(before, nextId, key) + [TickOf(RunState(before, nextId), x)];
        i := NextEpisode(RunState(before, nextId), x, History(before, nextId, key), i);
      } else {
        assert History(inputs, nextId, key) == History(before, nextId, key);
      }
    }
  }

  lemma NextEpisode(st: State, x: Input, h: seq<Tick>, i: int) returns (i': int)
    requires Tracks(st.episodes, KeyOf(x), h, i)
    ensures Tracks(SampleState(st, x.session, x.s, x.th).episodes, KeyOf(x), h + [TickOf(st, x)], i')
  {
    var n := |h|;
    var g := h + [TickOf(st, x)];
    i' := i;
    if VerdictOf(x).Outside? {
      if n > 0 && SameSide(g[n - 1], g[n]) {
        assert IsEpisode(g, i, n);
        RaisedOneMore(g, i, n);
        assert Raised(g, i, n - 1) <==> Raised(h, i, n - 1) by { RaisedInPrefix(h, g, i, n - 1); }
        forall k | OpensAt(g, i, k)
          ensures k < n ==> OpensAt(h, i, k)
          ensures k == n ==> !Raised(h, i, n - 1)
        {
          OpensInPrefix(h, g, i, k);
        }
      } else {
        i' := n;
        assert IsEpisode(g, n, n);
        assert Raised(g, n, n) <==> Held(g, n, n);
      }
    }
  }

  lemma OpensInPrefix(h: seq<Tick>, g: seq<Tick>, i: int, k: int)
    requires h <= g && |g| == |h| + 1 && 0 <= i < |h| && OpensAt(g, i, k)
    ensures k < |h| ==> OpensAt(h, i, k)
    ensures k == |h| ==> !Raised(h, i, |h| - 1)
  {
    assert forall m | i <= m < |h| :: Held(g, i, m) <==> Held(h, i, m);
    assert forall m | i <= m < |h| :: SameSide(g[i], g[m]) <==> SameSide(h[i], h[m]);
  }

  lemma RaisedInPrefix(h: seq<Tick>, g: seq<Tick>, i: int, j: int)
    requires h <= g && 0 <= i <= j < |h|
    ensures Raised(g, i, j) <==> Raised(h, i, j)
  {
    assert forall k | i <= k <= j :: Held(g, i, k) <==> Held(h, i, k);
  }

  lemma RaisedOneMore(g: seq<Tick>, i: int, n: int)
    requires 0 <= i < n < |g|
    ensures Raised(g, i, n) <==> Raised(g, i, n - 1) || Held(g, i, n)
  {
  }

  /** Every threshold event, exactly: over any run of samples of any number of series,
      the last sample opens an incident if and only if it is the first of its episode
      to have held; it resolves one if and only if it is back inside and the episode
      it ends was raised; both carry the id taken when that episode began. */
  lemma EventsAreExactlyTheIncidents(inputs: seq<Input>, nextId: nat)
    requires inputs != []
    ensures var x := inputs[|inputs| - 1];
            var key := KeyOf(x);
            var h := History(inputs, nextId, key);
            var n := |h| - 1;
            && n >= 0 && h[n].verdict == VerdictOf(x)
            && (forall i :: OpensAt(h, i, n) ==>
                  LastEvents(inputs, nextId) ==
                  [Opened(key, h[i].supply, h[n].verdict.side, h[n].verdict.bound, h[n].verdict.value)])
            && (forall i :: ResolvesAt(h, i, n) ==>
                  LastEvents(inputs, nextId) == [Resolved(key, h[i].supply, h[n].verdict.value)])
            && ((forall i :: !OpensAt(h, i, n) && !ResolvesAt(h, i, n)) ==> LastEvents(inputs, nextId) == [])
  {
    var x := inputs[|inputs| - 1];
    var key := KeyOf(x);
    var before := inputs[..|inputs| - 1];
    var st := RunState(before, nextId);
    var h := History(before, nextId, key);
    var i := EpisodesAreTracked(before, nextId, key);
    assert History(inputs, nextId, key) == h + [TickOf(st, x)];
    LastEventOfSeries(st, x, h, i);
  }

  lemma LastEventOfSeries(st: State, x: Input, h: seq<Tick>, i: int)
    requires Tracks(st.episodes, KeyOf(x), h, i)
    ensures var g := h + [TickOf(st, x)];
            var n := |h|;
            var evs := SampleEvents(st, x.session, x.s, x.th);
            && (forall a :: OpensAt(g, a, n) ==>
                  evs == [Opened(KeyOf(x), g[a].supply, g[n].verdict.side, g[n].verdict.bound, g[n].verdict.value)])
            && (forall a :: ResolvesAt(g, a, n) ==> evs == [Resolved(KeyOf(x), g[a].supply, g[n].verdict.value)])
            && ((forall a :: !OpensAt(g, a, n) && !ResolvesAt(g, a, n)) ==> evs == [])
  {
    var n := |h|;
    var g := h + [TickOf(st, x)];
    if n > 0 && h[n - 1].verdict.Outside? {
      assert IsEpisode(g, i, n - 1);
      RaisedInPrefix(h, g, i, n - 1);
    }
    if VerdictOf(x).Outside? {
      var start := if n > 0 && SameSide(g[n - 1], g[n]) then i else n;
      assert IsEpisode(g, start, n);
      forall a | OpensAt(g, a, n)
        ensures a == start
      {
        EpisodeBeginsOnce(g, a, start, n);
      }
      assert start < n ==> (Raised(g, i, n - 1) <==> exists k | i <= k < n :: Held(g, i, k));
      assert OpensAt(g, start, n) <==> SampleEvents(st, x.session, x.s, x.th) != [];
    } else {
      forall a | ResolvesAt(g, a, n)
        ensures a == i
      {
        assert SameSide(g[a], g[n - 1]);
        EpisodeBeginsOnce(g, a, i, n - 1);
      }
    }
  }

  // --- and so the events of a series follow the incident grammar -----------------------

  ghost predicate Quiet(h: seq<Tick>, m: int) {
    forall a :: !OpensAt(h, a, m) && !ResolvesAt(h, a, m)
  }

  /** An incident is opened at most once. */
  lemma OpenedOnce(h: seq<Tick>, i: int, j: int, j': int)
    requires OpensAt(h, i, j) && OpensAt(h, i, j')
    ensures j == j'
  {
  }

  /** A resolution closes an incident that was opened, with nothing in between. */
  lemma ResolvedWasOpened(h: seq<Tick>, i: int, j: int) returns (k: int)
    requires ResolvesAt(h, i, j)
    ensures i <= k < j && OpensAt(h, i, k)
    ensures forall m | k < m < j :: Quiet(h, m)
  {
    k := FirstHeld(h, i, j - 1);
    assert IsEpisode(h, i, k);
    forall m | k < m < j
      ensures Quiet(h, m)
    {
      assert IsEpisode(h, i, m) && SameSide(h[i], h[m]);
      forall a | OpensAt(h, a, m)
        ensures false
      {
        EpisodeBeginsOnce(h, a, i, m);
      }
    }
  }

  lemma FirstHeld(h: seq<Tick>, i: int, j: int) returns (k: int)
    requires 0 <= i <= j < |h| && Raised(h, i, j)
    ensures i <= k <= j && Held(h, i, k) && forall m | i <= m < k :: !Held(h, i, m)
  {
    k := i;
    while !Held(h, i, k)
      invariant i <= k <= j
      invariant forall m | i <= m < k :: !Held(h, i, m)
      decreases j - k
    {
      k := k + 1;
    }
  }

  /** Between two openings of one series, the first was resolved, unless a flip of
      side or an unreadable sample ended its episode. Episodes never overlap. */
  lemma ReopenedOnlyAfterAnEnd(h: seq<Tick>, i: int, j: int, i': int, j': int) returns (m: int)
    requires OpensAt(h, i, j) && OpensAt(h, i', j') && j < j'
    ensures j < m <= i'
    ensures ResolvesAt(h, i, m) || h[m].verdict.Unreadable? || (h[m].verdict.Outside? && !SameSide(h[i], h[m]))
  {
    assert SameSide(h[i], h[j]);
    m := j + 1;
    while m < |h| && SameSide(h[i], h[m])
      invariant j < m <= |h|
      invariant forall k | i <= k < m :: SameSide(h[i], h[k])
      decreases |h| - m
    {
      m := m + 1;
    }
    assert IsEpisode(h, i, m - 1);
    InsideAnEpisode(h, i, m - 1);
    InsideAnEpisode(h, i', j');
    if i' == i {
      OpenedOnce(h, i, j, j');
    }
    if h[m].verdict.Back? {
      assert Held(h, i, j);
    }
  }

  /** An opened incident really was outside, on one side, from the start of its episode
      to the opening, for more than ForSeconds less the second lost in storing it. */
  lemma OpenedMeansHeld(h: seq<Tick>, i: int, j: int)
    requires OpensAt(h, i, j)
    ensures forall k | i <= k <= j :: SameSide(h[i], h[k])
    ensures h[j].at - h[i].at > (h[j].hold - 1) * SECOND
  {
    assert h[i].at - ToSecond(h[i].at) < SECOND;
  }

  /** Episodes of a series have different ids, in order. */
  lemma {:induction false} IdsIncrease(inputs: seq<Input>, nextId: nat, key: Key, i: int, i': int)
    requires var h := History(inputs, nextId, key);
             0 <= i < i' < |h| && IsEpisode(h, i, i) && IsEpisode(h, i', i')
    ensures History(inputs, nextId, key)[i].supply < History(inputs, nextId, key)[i'].supply
  {
    var before := inputs[..|inputs| - 1];
    var h := History(inputs, nextId, key);
    var g := History(before, nextId, key);
    assert g <= h;
    if i' < |g| {
      assert g[i] == h[i] && g[i'] == h[i'] && (i > 0 ==> g[i - 1] == h[i - 1]) && g[i' - 1] == h[i' - 1];
      assert IsEpisode(g, i, i) && IsEpisode(g, i', i');
      IdsIncrease(before, nextId, key, i, i');
    } else {
      StartSpendsAnId(before, nextId, key, i);
    }
  }

  lemma {:induction false} StartSpendsAnId(inputs: seq<Input>, nextId: nat, key: Key, i: int)
    requires var h := History(inputs, nextId, key); 0 <= i < |h| && IsEpisode(h, i, i)
    ensures History(inputs, nextId, key)[i].supply < RunState(inputs, nextId).nextId
  {
    var before := inputs[..|inputs| - 1];
    var h := History(inputs, nextId, key);
    var g := History(before, nextId, key);
    assert g <= h;
    if i < |g| {
      assert g[i] == h[i] && (i > 0 ==> g[i - 1] == h[i - 1]);
      assert IsEpisode(g, i, i);
      StartSpendsAnId(before, nextId, key, i);
    } else {
      var _ := EpisodesAreTracked(before, nextId, key);
    }
  }

  /** Two open episodes never share an id. */
  ghost predicate IdsDistinct(st: State) {
    && (forall k | k in st.episodes :: st.episodes[k].corrId < st.nextId)
    && (forall k, l | k in st.episodes && l in st.episodes && k != l :: st.episodes[k].corrId != st.episodes[l].corrId)
  }

  lemma {:induction false} OpenIdsAreDistinct(inputs: seq<Input>, nextId: nat)
    ensures IdsDistinct(RunState(inputs, nextId))
  {
    if inputs != [] {
      OpenIdsAreDistinct(inputs[..|inputs| - 1], nextId);
    }
  }

  // --- restarting -----------------------------------------------------------------------

  ghost predicate Mirrors(st: State) {
    && st.store == st.episodes
    && forall k | k in st.episodes :: st.episodes[k].dedupKey == k
  }

  /** The rows LoadEpisodes returns: every saved episode once, in any order. */
  ghost predicate Lists(records: seq<Episode>, store: map<Key, Episode>) {
    && (forall r | r in records :: r.dedupKey in store && store[r.dedupKey] == r)
    && (forall k | k in store :: store[k] in records)
  }

  lemma {:induction false} RestoreRebuilds(episodes: map<Key, Episode>, records: seq<Episode>, store: map<Key, Episode>)
    requires forall r | r in records :: r.dedupKey in store && store[r.dedupKey] == r
    requires forall k | k in episodes :: k in store && store[k] == episodes[k]
    requires forall k | k in store :: k in episodes || (store[k] in records && store[k].dedupKey == k)
    ensures RestoredFrom(episodes, records) == store
    decreases |records|
  {
    if records == [] {
    } else {
      RestoreRebuilds(episodes[records[0].dedupKey := records[0]], records[1..], store);
    }
  }

  datatype Op = Sampled(x: Input) | Restarted(records: seq<Episode>)

  function OpState(st: State, op: Op): State {
    match op
    case Sampled(x) => SampleState(st, x.session, x.s, x.th)
    case Restarted(records) => State(RestoredFrom(map[], records), st.store, st.nextId)
  }

  function OpEvents(st: State, op: Op): seq<Event> {
    match op
    case Sampled(x) => SampleEvents(st, x.session, x.s, x.th)
    case Restarted(_) => []
  }

  function OpsState(st: State, ops: seq<Op>): State
    decreases |ops|
  {
    if ops == [] then st else OpsState(OpState(st, ops[0]), ops[1..])
  }

  function OpsEvents(st: State, ops: seq<Op>): seq<Event>
    decreases |ops|
  {
    if ops == [] then [] else OpEvents(st, ops[0]) + OpsEvents(OpState(st, ops[0]), ops[1..])
  }

  /** Each restart loads what is saved at that moment. */
  ghost predicate LoadsWhatWasSaved(st: State, ops: seq<Op>)
    decreases |ops|
  {
    ops == []
    || ((ops[0].Restarted? ==> Lists(ops[0].records, st.store)) && LoadsWhatWasSaved(OpState(st, ops[0]), ops[1..]))
  }

  function WithoutRestarts(ops: seq<Op>): seq<Op> {
    if ops == [] then []
    else (if ops[0].Restarted? then [] else [ops[0]]) + WithoutRestarts(ops[1..])
  }

  /** Stopping after any sample and restoring a fresh evaluator, any number of times,
      yields the same threshold events and the same episodes as never stopping. */
  lemma {:induction false} RestartsAreInvisible(st: State, ops: seq<Op>)
    requires Mirrors(st) && LoadsWhatWasSaved(st, ops)
    ensures OpsEvents(st, ops) == OpsEvents(st, WithoutRestarts(ops))
    ensures OpsState(st, ops) == OpsState(st, WithoutRestarts(ops))
    ensures Mirrors(OpsState(st, ops))
    decreases |ops|
  {
    if ops != [] {
      match ops[0] {
        case Sampled(x) =>
          var kept := WithoutRestarts(ops);
          assert kept[0] == ops[0] && kept[1..] == WithoutRestarts(ops[1..]);
        case Restarted(records) =>
          RestoreRebuilds(map[], records, st.store);
          assert OpState(st, ops[0]) == st;
          assert WithoutRestarts(ops) == WithoutRestarts(ops[1..]);
      }
      RestartsAreInvisible(OpState(st, ops[0]), ops[1..]);
    }
  }

  function PollOps(session: string, samples: seq<Sample>, ths: map<string, Threshold>): seq<Op> {
    seq(|samples|, i requires 0 <= i < |samples| =>
          Sampled(Input(session, samples[i],
                        if samples[i].oid in ths then Some(ths[samples[i].oid]) else None)))
  }

  /** One poll handed to Ingest is its samples, one after the other. */
  lemma {:induction false} PollIsItsSamples(st: State, session: string, samples: seq<Sample>, ths: map<string, Threshold>)
    ensures PollState(st, session, samples, ths) == OpsState(st, PollOps(session, samples, ths))
    ensures PollEvents(st, session, samples, ths) == OpsEvents(st, PollOps(session, samples, ths))
    decreases |samples|
  {
    if samples != [] {
      var x := Input(session, samples[0], BandFor(ths, samples[0].oid));
      assert PollOps(session, samples, ths)[1..] == PollOps(session, samples[1..], ths);
      PollIsItsSamples(OpState(st, Sampled(x)), session, samples[1..], ths);
    }
  }

  function AsOps(inputs: seq<Input>): seq<Op> {
    seq(|inputs|, i requires 0 <= i < |inputs| => Sampled(inputs[i]))
  }

  lemma {:induction false} OpsAppend(st: State, a: seq<Op>, b: seq<Op>)
    ensures OpsState(st, a + b) == OpsState(OpsState(st, a), b)
    decreases |a|
  {
    if a == [] {
      assert a + b == b;
    } else {
      assert (a + b)[1..] == a[1..] + b;
      OpsAppend(OpState(st, a[0]), a[1..], b);
    }
  }

  /** The run that incidents are told from is the run that restarts are dropped from. */
  lemma {:induction false} RunsAgree(inputs: seq<Input>, nextId: nat)
    ensures OpsState(Start(nextId), AsOps(inputs)) == RunState(inputs, nextId)
  {
    if inputs != [] {
      var before := inputs[..|inputs| - 1];
      var x := inputs[|inputs| - 1];
      RunsAgree(before, nextId);
      assert AsOps(inputs) == AsOps(before) + [Sampled(x)];
      OpsAppend(Start(nextId), AsOps(before), [Sampled(x)]);
      assert OpsState(RunState(before, nextId), [Sampled(x)]) == OpState(RunState(before, nextId), Sampled(x));
    }
  }
}
