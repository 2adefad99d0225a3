/** The threshold evaluator (pkg/monitor/breach.go): polling samples become
    incidents. Values are reals and times integer nanoseconds; the hooks that save,
    delete and record are the fields `store` and `recorded`, and correlation ids
    come from one supply that never repeats. */
module Breach {
  import opened Basics

  type Key = string

  const SECOND := 1_000_000_000

  datatype Threshold = Threshold(min: Option<real>, max: Option<real>, forSeconds: int, alertEnabled: bool)

  /** One polled value. `stamp` is the timestamp when it parses; `clock` is what the
      evaluator reads off its own clock when it does not. */
  datatype Sample = Sample(target: string, oid: string, stamp: Option<int>, clock: int,
                           value: Option<real>, error: string)

  datatype Side = Below | Above

  datatype Episode = Episode(dedupKey: Key, kind: Side, sessionId: string, target: string, oid: string,
                             firstSeen: Option<int>, firedAt: Option<int>, corrId: nat)

  datatype Event =
    | Opened(key: Key, corrId: nat, kind: Side, bound: real, value: real)
    | Resolved(key: Key, corrId: nat, value: real)
    | WentDown(key: Key)
    | CameUp(key: Key)

  /** The part of an evaluator that threshold events depend on. */
  datatype State = State(episodes: map<Key, Episode>, store: map<Key, Episode>, nextId: nat)

  function ThresholdKey(session: string, target: string, oid: string): Key {
    "threshold|" + session + "|" + target + "|" + oid
  }

  function ReachKey(session: string, target: string): Key {
    "reach|" + session + "|" + target
  }

  /** RFC 3339 text keeps whole seconds only. */
  function ToSecond(t: int): int { (t / SECOND) * SECOND }

  function At(s: Sample): int {
    match s.stamp
    case Some(t) => t
    case None => s.clock
  }

  /** Which bound the value is outside of, if any. */
  function Classify(value: Option<real>, th: Option<Threshold>): Option<(Side, real)> {
    if th.None? || !th.value.alertEnabled || value.None? then None
    else if th.value.min.Some? && value.value < th.value.min.value then Some((Below, th.value.min.value))
    else if th.value.max.Some? && value.value > th.value.max.value then Some((Above, th.value.max.value))
    else None
  }

  /** The episode a breaching sample belongs to: the open one on the same side, or a
      new one. A flip from below to above is not a continuation. */
  function EpisodeFor(st: State, session: string, s: Sample, kind: Side): Episode {
    var key := ThresholdKey(session, s.target, s.oid);
    if key in st.episodes && st.episodes[key].kind == kind then st.episodes[key]
    else Episode(key, kind, session, s.target, s.oid, Some(ToSecond(At(s))), None, st.nextId)
  }

  predicate StartsEpisode(st: State, key: Key, kind: Side) {
    key !in st.episodes || st.episodes[key].kind != kind
  }

  /** Whether an episode that has not been raised yet has now been held long enough. */
  predicate Sustained(epi: Episode, at: int, forSeconds: int) {
    var first := if epi.firstSeen.Some? then epi.firstSeen.value else at;
    at - first >= forSeconds * SECOND
  }

  function SampleState(st: State, session: string, s: Sample, th: Option<Threshold>): State {
    var key := ThresholdKey(session, s.target, s.oid);
    match Classify(s.value, th)
    case None =>
      if key in st.episodes then State(st.episodes - {key}, st.store - {key}, st.nextId) else st
    case Some((kind, _)) =>
      var starts := StartsEpisode(st, key, kind);
      var epi := EpisodeFor(st, session, s, kind);
      var fires := epi.firedAt.None? && Sustained(epi, At(s), th.value.forSeconds);
      var kept := if fires then epi.(firedAt := Some(ToSecond(At(s)))) else epi;
      State(if starts || fires then st.episodes[key := kept] else st.episodes,
            if starts || fires then st.store[key := kept] else st.store,
            if starts then st.nextId + 1 else st.nextId)
  }

  function SampleEvents(st: State, session: string, s: Sample, th: Option<Threshold>): seq<Event> {
    var key := ThresholdKey(session, s.target, s.oid);
    match Classify(s.value, th)
    case None =>
      if key in st.episodes && st.episodes[key].firedAt.Some? && s.value.Some? then
        [Resolved(key, st.episodes[key].corrId, s.value.value)]
      else []
    case Some((kind, bound)) =>
      var epi := EpisodeFor(st, session, s, kind);
      if epi.firedAt.None? && Sustained(epi, At(s), th.value.forSeconds) then
        [Opened(key, epi.corrId, kind, bound, s.value.value)]
      else []
  }

  function BandFor(thresholds: map<string, Threshold>, oid: string): Option<Threshold> {
    if oid in thresholds then Some(thresholds[oid]) else None
  }

  function PollState(st: State, session: string, samples: seq<Sample>, ths: map<string, Threshold>): State
    decreases |samples|
  {
    if samples == [] then st
    else PollState(SampleState(st, session, samples[0], BandFor(ths, samples[0].oid)), session, samples[1..], ths)
  }

  function PollEvents(st: State, session: string, samples: seq<Sample>, ths: map<string, Threshold>): seq<Event>
    decreases |samples|
  {
    if samples == [] then []
    else
      var th := BandFor(ths, samples[0].oid);
      SampleEvents(st, session, samples[0], th)
      + PollEvents(SampleState(st, session, samples[0], th), session, samples[1..], ths)
  }

  // --- reachability, per target -------------------------------------------------

  function Targets(samples: seq<Sample>): set<string> { set s | s in samples :: s.target }

  predicate Failed(s: Sample) { s.value.None? || s.error != "" }

  /** A target is down for a poll when every one of its samples failed. */
  predicate Silent(samples: seq<Sample>, target: string) {
    forall s | s in samples && s.target == target :: Failed(s)
  }

  predicate GoesDown(down: set<Key>, session: string, samples: seq<Sample>, target: string) {
    target in Targets(samples) && Silent(samples, target) && ReachKey(session, target) !in down
  }

  predicate ComesUp(down: set<Key>, session: string, samples: seq<Sample>, target: string) {
    target in Targets(samples) && !Silent(samples, target) && ReachKey(session, target) in down
  }

  /** The reachability events of one poll over some targets: one per transition, in
      no set order, because the targets are the keys of a map. */
  ghost predicate ReportsReach(down: set<Key>, session: string, samples: seq<Sample>,
                               targets: set<string>, evs: seq<Event>) {
    && NoDuplicates(evs)
    && forall ev :: ev in evs <==> exists t | t in targets :: IsTransition(down, session, samples, t, ev)
  }

  predicate IsTransition(down: set<Key>, session: string, samples: seq<Sample>, t: string, ev: Event) {
    || (GoesDown(down, session, samples, t) && ev == WentDown(ReachKey(session, t)))
    || (ComesUp(down, session, samples, t) && ev == CameUp(ReachKey(session, t)))
  }

  function DownAfter(down: set<Key>, session: string, samples: seq<Sample>, targets: set<string>): set<Key> {
    down
    - (set t | t in targets && ComesUp(down, session, samples, t) :: ReachKey(session, t))
    + (set t | t in targets && GoesDown(down, session, samples, t) :: ReachKey(session, t))
  }

  lemma ReachKeyIsInjective(session: string, t: string, u: string)
    requires ReachKey(session, t) == ReachKey(session, u)
    ensures t == u
  {
    var n := |"reach|" + session + "|"|;
    assert ReachKey(session, t)[n..] == t && ReachKey(session, u)[n..] == u;
  }

  // --- the object -----------------------------------------------------------------

  datatype Count = Count(total: nat, failed: nat)

  ghost predicate CountsUpTo(counts: map<string, Count>, samples: seq<Sample>) {
    && counts.Keys == Targets(samples)
    && forall t | t in counts ::
         counts[t].failed <= counts[t].total && counts[t].total > 0
         && (counts[t].failed == counts[t].total <==> Silent(samples, t))
  }

  class Evaluator {
    var episodes: map<Key, Episode>
    var downStates: set<Key>
    // what the hooks write
    var store: map<Key, Episode>
    var recorded: seq<Event>
    var nextId: nat

    ghost function View(): State
      reads this
    {
      State(episodes, store, nextId)
    }

    /** A new evaluator over whatever is already saved and recorded. */
    constructor (store: map<Key, Episode>, recorded: seq<Event>, nextId: nat)
      ensures View() == State(map[], store, nextId)
      ensures downStates == {} && this.recorded == recorded
    {
      episodes, downStates := map[], {};
      this.store, this.recorded, this.nextId := store, recorded, nextId;
    }

    method Restore(records: seq<Episode>)
      modifies this`episodes
      ensures episodes == RestoredFrom(old(episodes), records)
    {
      var i := 0;
      while i < |records|
        invariant 0 <= i <= |records|
        invariant RestoredFrom(old(episodes), records) == RestoredFrom(episodes, records[i..])
      {
        episodes := episodes[records[i].dedupKey := records[i]];
        assert records[i..][1..] == records[i + 1..];
        i := i + 1;
      }
    }

    method CountTargets(samples: seq<Sample>) returns (counts: map<string, Count>)
      ensures CountsUpTo(counts, samples)
    {
      hide CountsUpTo;
      counts := map[];
      CountNone();
      var i := 0;
      while i < |samples|
        invariant 0 <= i <= |samples|
        invariant CountsUpTo(counts, samples[..i])
      {
        var s := samples[i];
        var c := if s.target in counts then counts[s.target] else Count(0, 0);
        c := c.(total := c.total + 1);
        if s.value == None || s.error != "" {
          c := c.(failed := c.failed + 1);
        }
        assert samples[..i + 1] == samples[..i] + [s];
        CountOneMore(counts, samples[..i], s, c);
        counts := counts[s.target := c];
        i := i + 1;
      }
      assert samples[..i] == samples;
    }

    /** Ingest: one poll's samples for one session. */
    method Ingest(session: string, samples: seq<Sample>, thresholds: map<string, Threshold>)
      returns (ghost reach: seq<Event>)
      modifies this
      ensures View() == PollState(old(View()), session, samples, thresholds)
      ensures recorded == old(recorded) + reach + PollEvents(old(View()), session, samples, thresholds)
      ensures ReportsReach(old(downStates), session, samples, Targets(samples), reach)
      ensures downStates == DownAfter(old(downStates), session, samples, Targets(samples))
    {
      hide PollState, PollEvents, SampleState, SampleEvents, ReportsReach, DownAfter;
      reach := ReportReachability(session, samples);
      ghost var before := recorded;
      assert samples[0..] == samples;
      var i := 0;
      while i < |samples|
        invariant 0 <= i <= |samples|
        invariant PollState(old(View()), session, samples, thresholds)
               == PollState(View(), session, samples[i..], thresholds)
        invariant before + PollEvents(old(View()), session, samples, thresholds)
               == recorded + PollEvents(View(), session, samples[i..], thresholds)
        invariant downStates == DownAfter(old(downStates), session, samples, Targets(samples))
      {
        PollSteps(View(), session, samples, i, thresholds);
        IngestSample(session, samples[i], BandFor(thresholds, samples[i].oid));
        i := i + 1;
      }
      PollEnds(View(), session, samples[i..], thresholds);
    }

    method ReportReachability(session: string, samples: seq<Sample>) returns (ghost reach: seq<Event>)
      modifies this`downStates, this`recorded
      ensures recorded == old(recorded) + reach
      ensures ReportsReach(old(downStates), session, samples, Targets(samples), reach)
      ensures downStates == DownAfter(old(downStates), session, samples, Targets(samples))
    {
      var counts := CountTargets(samples);
      reach := [];
      var todo := counts.Keys;
      ghost var done: set<string> := {};
      while todo != {}
        invariant done + todo == Targets(samples) && done !! todo
        invariant recorded == old(recorded) + reach
        invariant ReportsReach(old(downStates), session, samples, done, reach)
        invariant downStates == DownAfter(old(downStates), session, samples, done)
        decreases todo
      {
        var target := Pick(todo);
        var key := ReachKey(session, target);
        var down := counts[target].failed == counts[target].total;
        OneTarget(old(downStates), session, samples, done, target, reach);
        if down && key !in downStates {
          downStates := downStates + {key};
          recorded := recorded + [WentDown(key)];
          reach := reach + [WentDown(key)];
        } else if !down && key in downStates {
          downStates := downStates - {key};
          recorded := recorded + [CameUp(key)];
          reach := reach + [CameUp(key)];
        }
        todo, done := todo - {target}, done + {target};
      }
      assert done == Targets(samples);
    }

    method IngestSample(session: string, s: Sample, th: Option<Threshold>)
      modifies this`episodes, this`store, this`recorded, this`nextId
      ensures View() == SampleState(old(View()), session, s, th)
      ensures recorded == old(recorded) + SampleEvents(old(View()), session, s, th)
    {
      hide ThresholdKey, ToSecond;
      var key := ThresholdKey(session, s.target, s.oid);
      var verdict := Classify(s.value, th);
      if verdict == None {
        if key in episodes {
          if episodes[key].firedAt != None && s.value != None {
            recorded := recorded + [Resolved(key, episodes[key].corrId, s.value.value)];
          }
          episodes := episodes - {key};
          store := store - {key};
        }
        return;
      }
      var (kind, bound) := verdict.value;
      var at := At(s);
      if key !in episodes || episodes[key].kind != kind {
        var started := Episode(key, kind, session, s.target, s.oid, Some(ToSecond(at)), None, nextId);
        nextId := nextId + 1;
        episodes := episodes[key := started];
        store := store[key := started];
      }
      var epi := episodes[key];
      if epi.firedAt != None {
        return;
      }
      var first := if epi.firstSeen != None then epi.firstSeen.value else at;
      if at - first < th.value.forSeconds * SECOND {
        return;
      }
      epi := epi.(firedAt := Some(ToSecond(at)));
      episodes := episodes[key := epi];
      store := store[key := epi];
      recorded := recorded + [Opened(key, epi.corrId, kind, bound, s.value.value)];
    }
  }

  function RestoredFrom(episodes: map<Key, Episode>, records: seq<Episode>): map<Key, Episode>
    decreases |records|
  {
    if records == [] then episodes
    else RestoredFrom(episodes[records[0].dedupKey := records[0]], records[1..])
  }

  lemma PollSteps(st: State, session: string, samples: seq<Sample>, i: nat, ths: map<string, Threshold>)
    requires i < |samples|
    ensures var th := BandFor(ths, samples[i].oid);
            var next := SampleState(st, session, samples[i], th);
            && PollState(st, session, samples[i..], ths) == PollState(next, session, samples[i + 1..], ths)
            && PollEvents(st, session, samples[i..], ths)
               == SampleEvents(st, session, samples[i], th) + PollEvents(next, session, samples[i + 1..], ths)
  {
    hide SampleState, SampleEvents;
    assert samples[i..][1..] == samples[i + 1..];
  }

  lemma PollEnds(st: State, session: string, samples: seq<Sample>, ths: map<string, Threshold>)
    requires samples == []
    ensures PollState(st, session, samples, ths) == st && PollEvents(st, session, samples, ths) == []
  {
  }

  lemma CountNone()
    ensures CountsUpTo(map[], [])
  {
  }

  /** One more sample of a target is one more in its total, and in its failures if it failed. */
  lemma CountOneMore(counts: map<string, Count>, samples: seq<Sample>, s: Sample, c: Count)
    requires CountsUpTo(counts, samples)
    requires var b := if s.target in counts then counts[s.target] else Count(0, 0);
             c == Count(b.total + 1, if Failed(s) then b.failed + 1 else b.failed)
    ensures CountsUpTo(counts[s.target := c], samples + [s])
  {
    assert s.target !in Targets(samples) ==> Silent(samples, s.target);
    forall t
      ensures Silent(samples + [s], t) <==> Silent(samples, t) && (s.target == t ==> Failed(s))
    {
      SilentAppend(samples, s, t);
    }
    hide Silent;
    assert Targets(samples + [s]) == Targets(samples) + {s.target};
  }

  lemma SilentAppend(samples: seq<Sample>, s: Sample, target: string)
    ensures Silent(samples + [s], target) <==> Silent(samples, target) && (s.target == target ==> Failed(s))
  {
    assert s in samples + [s];
    assert forall x :: x in samples + [s] <==> x in samples || x == s;
  }

  /** Handling one more target extends the report by its transition, if it made one. */
  lemma OneTarget(down: set<Key>, session: string, samples: seq<Sample>,
                  done: set<string>, target: string, evs: seq<Event>)
    requires ReportsReach(down, session, samples, done, evs)
    requires target !in done && target in Targets(samples)
    ensures ReportsReach(down, session, samples, done + {target},
              if GoesDown(down, session, samples, target) then evs + [WentDown(ReachKey(session, target))]
              else if ComesUp(down, session, samples, target) then evs + [CameUp(ReachKey(session, target))]
              else evs)
    ensures ReachKey(session, target) in DownAfter(down, session, samples, done) <==> ReachKey(session, target) in down
    ensures DownAfter(down, session, samples, done + {target}) ==
              if GoesDown(down, session, samples, target) then
                DownAfter(down, session, samples, done) + {ReachKey(session, target)}
              else if ComesUp(down, session, samples, target) then
                DownAfter(down, session, samples, done) - {ReachKey(session, target)}
              else DownAfter(down, session, samples, done)
  {
    forall t | t in done
      ensures ReachKey(session, t) != ReachKey(session, target)
    {
      if ReachKey(session, t) == ReachKey(session, target) {
        ReachKeyIsInjective(session, t, target);
      }
    }
    var key := ReachKey(session, target);
    assert WentDown(key) !in evs && CameUp(key) !in evs;
    var next := if GoesDown(down, session, samples, target) then evs + [WentDown(key)]
                else if ComesUp(down, session, samples, target) then evs + [CameUp(key)]
                else evs;
    forall ev
      ensures ev in next <==> exists t | t in done + {target} :: IsTransition(down, session, samples, t, ev)
    {
      if ev in evs {
        var t :| t in done && IsTransition(down, session, samples, t, ev);
        assert t in done + {target};
      } else if ev in next {
        assert IsTransition(down, session, samples, target, ev);
        assert target in done + {target};
      }
    }
  }
}
