/** Which targets are down, told on the polls alone (pkg/monitor/breach.go:126-152). */
module BreachReach {
  import opened Basics
  import opened Text
  import opened Breach

  datatype Poll = Poll(session: string, samples: seq<Sample>)

  /** The separator of keys occurs in no session. */
  ghost predicate PlainSessions(polls: seq<Poll>) {
    forall i | 0 <= i < |polls| :: '|' !in polls[i].session
  }

  /** What the evaluator holds after these polls, from a start with nothing down. */
  function DownRun(polls: seq<Poll>): set<Key> {
    if polls == [] then {}
    else
      var p := polls[|polls| - 1];
      DownAfter(DownRun(polls[..|polls| - 1]), p.session, p.samples, Targets(p.samples))
  }

  // --- said of the polls ---------------------------------------------------------------------

  predicate Asked(p: Poll, session: string, target: string) {
    p.session == session && exists i | 0 <= i < |p.samples| :: p.samples[i].target == target
  }

  /** The target was asked for, and no answer came without an error. */
  predicate NoAnswer(p: Poll, session: string, target: string) {
    Asked(p, session, target)
    && forall i | 0 <= i < |p.samples| && p.samples[i].target == target ::
         p.samples[i].value == None || p.samples[i].error != ""
  }

  /** The last poll that asked for the target got no answer. */
  ghost predicate IsDown(polls: seq<Poll>, session: string, target: string) {
    exists k | 0 <= k < |polls| ::
      NoAnswer(polls[k], session, target) && forall j | k < j < |polls| :: !Asked(polls[j], session, target)
  }

  lemma {:induction false} IsDownStep(polls: seq<Poll>, p: Poll, session: string, target: string)
    ensures IsDown(polls + [p], session, target) <==>
            if Asked(p, session, target) then NoAnswer(p, session, target) else IsDown(polls, session, target)
  {
    var all := polls + [p];
    hide Asked, NoAnswer;
    assert NoAnswer(p, session, target) ==> Asked(p, session, target) by { NoAnswerIsAsked(p, session, target); }
    assert all[|polls|] == p;
    if IsDown(polls, session, target) && !Asked(p, session, target) {
      var k :| 0 <= k < |polls| && NoAnswer(polls[k], session, target)
               && forall j | k < j < |polls| :: !Asked(polls[j], session, target);
      assert all[k] == polls[k];
    }
    if IsDown(all, session, target) && !Asked(p, session, target) {
      var k :| 0 <= k < |all| && NoAnswer(all[k], session, target)
               && forall j | k < j < |all| :: !Asked(all[j], session, target);
      assert all[k] == polls[k];
      assert forall j | k < j < |polls| :: polls[j] == all[j];
    }
  }

  lemma NoAnswerIsAsked(p: Poll, session: string, target: string)
    ensures NoAnswer(p, session, target) ==> Asked(p, session, target)
  {
  }

  lemma TargetsAreAsked(p: Poll, target: string)
    ensures target in Targets(p.samples) <==> Asked(p, p.session, target)
    ensures target in Targets(p.samples) && Silent(p.samples, target) <==> NoAnswer(p, p.session, target)
  {
    forall i | 0 <= i < |p.samples|
      ensures p.samples[i] in p.samples
    {
    }
  }

  lemma ReachKeysTellTargetsApart(session: string, target: string, session': string, target': string)
    requires '|' !in session && '|' !in session'
    ensures ReachKey(session, target) == ReachKey(session', target') <==> session == session' && target == target'
  {
    if ReachKey(session, target) == ReachKey(session', target') {
      var p := "reach|";
      var s, t := session + "|" + target, session' + "|" + target';
      assert ReachKey(session, target) == p + s && ReachKey(session', target') == p + t;
      assert (p + s)[|p|..] == s && (p + t)[|p|..] == t;
      CutAtSeparator(session, target, session', target');
    }
  }

  lemma DownStep(down: set<Key>, p: Poll, session: string, target: string)
    requires '|' !in session && '|' !in p.session
    ensures ReachKey(session, target) in DownAfter(down, p.session, p.samples, Targets(p.samples)) <==>
            if Asked(p, session, target) then NoAnswer(p, session, target) else ReachKey(session, target) in down
  {
    TargetsAreAsked(p, target);
    forall t | t in Targets(p.samples)
      ensures ReachKey(session, target) == ReachKey(p.session, t) <==> session == p.session && target == t
    {
      ReachKeysTellTargetsApart(session, target, p.session, t);
    }
    hide Silent, ReachKey, Targets;
  }

  /** A target is held to be down exactly when the last poll that asked for it got no answer. */
  lemma {:induction false} DownExactly(polls: seq<Poll>, session: string, target: string)
    requires PlainSessions(polls) && '|' !in session
    ensures ReachKey(session, target) in DownRun(polls) <==> IsDown(polls, session, target)
  {
    if polls != [] {
      var before, p := polls[..|polls| - 1], polls[|polls| - 1];
      hide ReachKey, DownAfter, IsDown, Asked, NoAnswer;
      DownExactly(before, session, target);
      assert before + [p] == polls;
      IsDownStep(before, p, session, target);
      DownStep(DownRun(before), p, session, target);
    }
  }

  /** One poll reports, in any order and once each: a target that was not down and now gave no
      answer, and a target that was down and now answered. */
  lemma ReachEventsExactly(polls: seq<Poll>, p: Poll, evs: seq<Event>, target: string)
    requires PlainSessions(polls) && '|' !in p.session
    requires ReportsReach(DownRun(polls), p.session, p.samples, Targets(p.samples), evs)
    ensures NoDuplicates(evs)
    ensures WentDown(ReachKey(p.session, target)) in evs <==>
            NoAnswer(p, p.session, target) && !IsDown(polls, p.session, target)
    ensures CameUp(ReachKey(p.session, target)) in evs <==>
            Asked(p, p.session, target) && !NoAnswer(p, p.session, target) && IsDown(polls, p.session, target)
    ensures forall ev | ev in evs :: ev.WentDown? || ev.CameUp?
  {
    DownExactly(polls, p.session, target);
    TargetsAreAsked(p, target);
    forall t
      ensures ReachKey(p.session, target) == ReachKey(p.session, t) <==> target == t
    {
      ReachKeysTellTargetsApart(p.session, target, p.session, t);
    }
    hide ReachKey, Silent, Asked, NoAnswer, IsDown, Targets, NoDuplicates;
    assert target in Targets(p.samples) ==>
           forall ev :: IsTransition(DownRun(polls), p.session, p.samples, target, ev) ==> ev in evs;
  }
}
