/** The import-cycle search (pkg/mib/cycle.go:129-183): a depth-first search that
    reports the stack from a node it meets again. */
module Cycle {
  import opened Basics
  import opened Text

  type Module = string
  type Graph = map<Module, seq<Module>>

  // --- the graph ---------------------------------------------------------------

  /** An import of a module that is not in the graph is an edge to nowhere. */
  predicate Edge(g: Graph, u: Module, v: Module) { u in g && v in g[u] }

  predicate IsPath(g: Graph, p: seq<Module>) {
    forall i | 0 <= i < |p| - 1 :: Edge(g, p[i], p[i + 1])
  }

  /** A closed walk along import edges. */
  predicate IsClosed(g: Graph, c: seq<Module>) {
    |c| >= 2 && c[0] == c[|c| - 1] && IsPath(g, c)
  }

  /** A closed walk that repeats nothing but its first module, and leaves the graph nowhere. */
  ghost predicate IsLoop(g: Graph, c: seq<Module>) {
    IsClosed(g, c) && NoDuplicates(c[..|c| - 1]) && forall i | 0 <= i < |c| :: c[i] in g
  }

  ghost predicate Acyclic(g: Graph) {
    forall c :: !IsClosed(g, c)
  }

  // --- what has been reported ------------------------------------------------------

  function KeyOf(loop: seq<Module>): string { Join(Sorted(loop), '|') }

  predicate PipeFree(g: Graph) {
    forall u | u in g :: '|' !in u
  }

  ghost predicate Names(found: seq<seq<Module>>, v: Module) {
    exists k | 0 <= k < |found| :: v in found[k]
  }

  /** Something was reported for v: a loop through it, unless a separator inside a module
      name made another loop look like it. */
  ghost predicate Covered(g: Graph, found: seq<seq<Module>>, v: Module) {
    found != [] && (PipeFree(g) ==> Names(found, v))
  }

  lemma SameKeySameModules(g: Graph, a: seq<Module>, b: seq<Module>, v: Module)
    requires PipeFree(g) && IsLoop(g, a) && IsLoop(g, b) && KeyOf(a) == KeyOf(b)
    ensures v in a <==> v in b
  {
    SortKeepsElements(a);
    SortKeepsElements(b);
    SortedLoopSplits(g, a);
    SortedLoopSplits(g, b);
  }

  lemma SortedLoopSplits(g: Graph, a: seq<Module>)
    requires PipeFree(g) && IsLoop(g, a)
    ensures Split(KeyOf(a), '|') == Sorted(a)
  {
    SortKeepsElements(a);
    assert a[0] in Sorted(a);
    forall p | p in Sorted(a)
      ensures '|' !in p
    {
      assert p in a;
    }
    SplitUndoesJoin(Sorted(a), '|');
  }

  // --- ranks: why a finished search proves what it did not report ---------------------

  /** Every edge out of a finished module leads to one finished earlier, or to a module
      something was reported for. */
  ghost predicate Ranked(g: Graph, rank: map<Module, nat>, found: seq<seq<Module>>) {
    forall u, v | u in rank && Edge(g, u, v) && v in g ::
      (v in rank && rank[v] < rank[u]) || Covered(g, found, v)
  }

  lemma {:induction false} RankFallsAlong(g: Graph, rank: map<Module, nat>, found: seq<seq<Module>>,
                                          c: seq<Module>, n: nat)
    requires Ranked(g, rank, found) && rank.Keys == g.Keys
    requires 1 <= n < |c| && IsPath(g, c) && c[|c| - 1] in g
    requires forall i | 0 <= i < |c| :: !Covered(g, found, c[i])
    ensures c[0] in rank && c[n] in rank && rank[c[n]] < rank[c[0]]
  {
    assert Edge(g, c[n - 1], c[n]);
    assert c[n] in g by {
      if n < |c| - 1 {
        assert Edge(g, c[n], c[n + 1]);
      }
    }
    if n > 1 {
      RankFallsAlong(g, rank, found, c, n - 1);
    }
  }

  /** Once every module is finished, each closed walk of imports passes through a module
      something was reported for. */
  lemma EveryCycleIsCovered(g: Graph, rank: map<Module, nat>, found: seq<seq<Module>>, c: seq<Module>)
    requires Ranked(g, rank, found) && rank.Keys == g.Keys
    requires IsClosed(g, c)
    ensures exists i | 0 <= i < |c| :: Covered(g, found, c[i])
  {
    assert Edge(g, c[0], c[1]);
    if forall i | 0 <= i < |c| :: !Covered(g, found, c[i]) {
      RankFallsAlong(g, rank, found, c, |c| - 1);
    }
  }

  // --- the search --------------------------------------------------------------------------

  datatype Colour = Grey | Black

  /** What the closure of the inner walk shares. A module without a colour is white. For the
      proof, `clock` counts the modules finished; `start` and `rank` are its readings when a
      module was met and when it was finished, and `path` is the stack it was met on. */
  datatype State = State(colour: map<Module, Colour>, stack: seq<Module>, found: seq<seq<Module>>,
                         seen: set<string>, rank: map<Module, nat>, clock: nat,
                         start: map<Module, nat>, path: map<Module, seq<Module>>)

  ghost predicate Coloured(g: Graph, s: State) {
    && s.colour.Keys <= g.Keys
    && (forall u :: u in s.stack <==> u in s.colour && s.colour[u] == Grey)
    && (forall u :: u in s.rank <==> u in s.colour && s.colour[u] == Black)
    && (forall u | u in s.rank :: s.rank[u] < s.clock)
  }

  ghost predicate Reported(g: Graph, found: seq<seq<Module>>, seen: set<string>) {
    && (forall k | 0 <= k < |found| :: IsLoop(g, found[k]))
    && (forall key | key in seen :: exists k | 0 <= k < |found| :: KeyOf(found[k]) == key)
  }

  ghost predicate Sound(g: Graph, s: State) {
    && Coloured(g, s)
    && NoDuplicates(s.stack) && IsPath(g, s.stack)
    && Ranked(g, s.rank, s.found)
    && Reported(g, s.found, s.seen)
  }

  function Enter(s: State, node: Module): State {
    s.(colour := s.colour[node := Grey], stack := s.stack + [node],
       start := s.start[node := s.clock], path := s.path[node := s.stack + [node]])
  }

  function Leave(s: State): State
    requires s.stack != []
  {
    var node := s.stack[|s.stack| - 1];
    s.(stack := s.stack[..|s.stack| - 1], colour := s.colour[node := Black],
       rank := s.rank[node := s.clock], clock := s.clock + 1)
  }

  const Unsearched := State(map[], [], [], {}, map[], 0, map[], map[])

  /** The search as a function of what it shares: meeting a module that is on the path ... */
  function FirstIndex(stack: seq<Module>, next: Module): (at: nat)
    ensures stack != [] ==> at < |stack|
    ensures next in stack ==> stack[at] == next && next !in stack[..at]
  {
    if next !in stack || stack[0] == next then 0 else 1 + FirstIndex(stack[1..], next)
  }

  lemma {:induction false} FirstIndexIs(stack: seq<Module>, next: Module, at: nat)
    requires at < |stack| && stack[at] == next && forall i | 0 <= i < at :: stack[i] != next
    ensures FirstIndex(stack, next) == at
  {
    if at > 0 {
      assert stack[0] != next;
      FirstIndexIs(stack[1..], next, at - 1);
    }
  }

  function Meet(s: State, next: Module): State {
    var loop := s.stack[if s.stack == [] then 0 else FirstIndex(s.stack, next)..] + [next];
    if KeyOf(loop) in s.seen then s else s.(seen := s.seen + {KeyOf(loop)}, found := s.found + [loop])
  }

  /** ... one import of the module on top ... */
  function VisitOne(g: Graph, s: State, next: Module): (r: State)
    ensures r.stack == s.stack && s.colour.Keys <= r.colour.Keys
    decreases g.Keys - s.colour.Keys, 1, 0
  {
    if next !in s.colour then (if next in g then WalkFrom(g, s, next) else s)
    else if s.colour[next] == Grey then Meet(s, next)
    else s
  }

  /** ... its imports from the i-th on ... */
  function VisitFrom(g: Graph, s: State, node: Module, i: nat): (r: State)
    requires node in g && i <= |g[node]|
    ensures r.stack == s.stack && s.colour.Keys <= r.colour.Keys
    decreases g.Keys - s.colour.Keys, 2, |g[node]| - i
  {
    if i == |g[node]| then s else VisitFrom(g, VisitOne(g, s, g[node][i]), node, i + 1)
  }

  /** ... a module not met before ... */
  function WalkFrom(g: Graph, s: State, node: Module): (r: State)
    requires node in g && node !in s.colour
    ensures r.stack == s.stack && s.colour.Keys + {node} <= r.colour.Keys
    decreases g.Keys - s.colour.Keys, 0, 0
  {
    var e := Enter(s, node);
    assert node in g.Keys - s.colour.Keys && node !in g.Keys - e.colour.Keys;
    assert g.Keys - e.colour.Keys <= g.Keys - s.colour.Keys;
    var r := Leave(VisitFrom(g, e, node, 0));
    assert r.stack == s.stack;
    r
  }

  /** ... and every module in turn. */
  function SearchFrom(g: Graph, s: State, nodes: seq<Module>): State
    requires forall i | 0 <= i < |nodes| :: nodes[i] in g
    decreases |nodes|
  {
    if nodes == [] then s
    else SearchFrom(g, if nodes[0] in s.colour then s else WalkFrom(g, s, nodes[0]), nodes[1..])
  }

  lemma EnteringIsSound(g: Graph, s: State, node: Module)
    requires Sound(g, s) && node in g && node !in s.colour
    requires s.stack != [] ==> Edge(g, s.stack[|s.stack| - 1], node)
    ensures Sound(g, Enter(s, node))
  {
    hide Ranked, Reported;
    var t := Enter(s, node);
    assert node !in s.stack;
    forall i | 0 <= i < |t.stack| - 1
      ensures Edge(g, t.stack[i], t.stack[i + 1])
    {
      if i < |s.stack| - 1 {
        assert Edge(g, s.stack[i], s.stack[i + 1]);
      }
    }
  }

  lemma LeavingKeepsPath(g: Graph, stack: seq<Module>)
    requires stack != [] && NoDuplicates(stack) && IsPath(g, stack)
    ensures NoDuplicates(stack[..|stack| - 1]) && IsPath(g, stack[..|stack| - 1])
    ensures forall u :: u in stack[..|stack| - 1] <==> u in stack && u != stack[|stack| - 1]
  {
    var rest := stack[..|stack| - 1];
    forall i | 0 <= i < |rest| - 1
      ensures Edge(g, rest[i], rest[i + 1])
    {
      assert Edge(g, stack[i], stack[i + 1]);
    }
    assert stack == rest + [stack[|stack| - 1]];
  }

  lemma LeavingKeepsColours(g: Graph, s: State)
    requires Coloured(g, s) && s.stack != [] && NoDuplicates(s.stack) && IsPath(g, s.stack)
    ensures Coloured(g, Leave(s))
  {
    LeavingKeepsPath(g, s.stack);
    hide IsPath, NoDuplicates;
    assert s.stack[|s.stack| - 1] in s.stack;
  }

  lemma LeavingKeepsRanks(g: Graph, s: State)
    requires Coloured(g, s) && s.stack != [] && Ranked(g, s.rank, s.found)
    requires forall v | Edge(g, s.stack[|s.stack| - 1], v) && v in g :: v in s.rank || Covered(g, s.found, v)
    ensures Ranked(g, Leave(s).rank, s.found)
  {
    hide Covered, Edge;
    var node := s.stack[|s.stack| - 1];
    assert node in s.stack && node !in s.rank;
    var rank := Leave(s).rank;
    forall u, v | u in rank && Edge(g, u, v) && v in g
      ensures (v in rank && rank[v] < rank[u]) || Covered(g, s.found, v)
    {
      if u != node {
        assert u in s.rank;
      }
    }
  }

  /** A module is finished when each known import of it is finished or reported for. */
  lemma LeavingIsSound(g: Graph, s: State)
    requires Sound(g, s) && s.stack != []
    requires forall v | Edge(g, s.stack[|s.stack| - 1], v) && v in g :: v in s.rank || Covered(g, s.found, v)
    ensures Sound(g, Leave(s))
  {
    LeavingKeepsPath(g, s.stack);
    LeavingKeepsColours(g, s);
    LeavingKeepsRanks(g, s);
    hide Coloured, Ranked, Reported, Covered, NoDuplicates, IsPath, Edge;
  }

  lemma ColoursTell(g: Graph, s: State, u: Module)
    requires Sound(g, s) && u in s.colour
    ensures s.colour[u] == Grey ==> u in s.stack
    ensures s.colour[u] == Black ==> u in s.rank
  {
  }

  lemma ReportingIsSound(g: Graph, s: State, at: nat, next: Module)
    requires Sound(g, s) && at < |s.stack| && s.stack[at] == next && Edge(g, s.stack[|s.stack| - 1], next)
    ensures var loop := s.stack[at..] + [next];
            var key := KeyOf(loop);
            && (key !in s.seen ==>
                  Sound(g, s.(seen := s.seen + {key}, found := s.found + [loop]))
                  && Covered(g, s.found + [loop], next))
            && (key in s.seen ==> Covered(g, s.found, next))
  {
    var loop := s.stack[at..] + [next];
    var key := KeyOf(loop);
    StackLoop(g, s.stack, at, next);
    if key !in s.seen {
      var more := s.found + [loop];
      assert more[|s.found|] == loop && next in loop;
      MoreFoundCoversMore(g, s.rank, s.found, loop);
      MoreIsReported(g, s.found, s.seen, loop);
      hide Ranked, Reported, IsLoop, KeyOf;
    } else {
      var k :| 0 <= k < |s.found| && KeyOf(s.found[k]) == key;
      if PipeFree(g) {
        SameKeySameModules(g, loop, s.found[k], next);
        assert next in loop;
      }
    }
  }

  lemma MoreIsReported(g: Graph, found: seq<seq<Module>>, seen: set<string>, loop: seq<Module>)
    requires Reported(g, found, seen) && IsLoop(g, loop)
    ensures Reported(g, found + [loop], seen + {KeyOf(loop)})
  {
    hide IsLoop, KeyOf;
    var more := found + [loop];
    forall key | key in seen + {KeyOf(loop)}
      ensures exists k | 0 <= k < |more| :: KeyOf(more[k]) == key
    {
      if key in seen {
        var k :| 0 <= k < |found| && KeyOf(found[k]) == key;
        assert more[k] == found[k];
      } else {
        assert more[|found|] == loop;
      }
    }
  }

  lemma WalkUnfolds(g: Graph, s: State, node: Module)
    requires node in g && node !in s.colour
    ensures VisitFrom(g, Enter(s, node), node, 0).stack != []
    ensures WalkFrom(g, s, node) == Leave(VisitFrom(g, Enter(s, node), node, 0))
  {
    hide VisitFrom;
  }

  lemma VisitUnfolds(g: Graph, s: State, node: Module, i: nat)
    requires node in g && i <= |g[node]|
    ensures VisitFrom(g, s, node, i) ==
            if i == |g[node]| then s else VisitFrom(g, VisitOne(g, s, g[node][i]), node, i + 1)
  {
    hide VisitOne;
  }

  // --- the search keeps what was shown of it ----------------------------------------------

  /** An import of a finished module is finished, or reported for, or unknown. */
  ghost predicate Done(g: Graph, s: State, next: Module) {
    next in g ==> next in s.rank || Covered(g, s.found, next)
  }

  ghost predicate Extends(s: State, r: State) {
    r.stack == s.stack && s.found <= r.found && s.rank.Keys <= r.rank.Keys && s.colour.Keys <= r.colour.Keys
  }

  ghost predicate AllDone(g: Graph, s: State, node: Module, i: nat)
    requires node in g && i <= |g[node]|
  {
    forall j | 0 <= j < i :: Done(g, s, g[node][j])
  }

  lemma AllDoneStays(g: Graph, s: State, r: State, node: Module, i: nat)
    requires node in g && i <= |g[node]| && AllDone(g, s, node, i) && Extends(s, r)
    ensures AllDone(g, r, node, i)
  {
    CoverGrows(g, s.found, r.found);
    hide Covered;
  }

  lemma OneMoreDone(g: Graph, s: State, node: Module, i: nat)
    requires node in g && i < |g[node]| && AllDone(g, s, node, i) && Done(g, s, g[node][i])
    ensures AllDone(g, s, node, i + 1)
  {
  }

  lemma ExtendsTwice(a: State, b: State, c: State)
    requires Extends(a, b) && Extends(b, c)
    ensures Extends(a, c)
  {
  }

  lemma ExtendsItself(s: State)
    ensures Extends(s, s)
  {
  }

  lemma ExtendedHolds(s: State, r: State)
    requires Extends(s, r)
    ensures r.stack == s.stack && s.colour.Keys <= r.colour.Keys
  {
  }

  lemma MeetIsSound(g: Graph, s: State, next: Module)
    requires Sound(g, s) && next in s.stack && Edge(g, s.stack[|s.stack| - 1], next)
    ensures Sound(g, Meet(s, next)) && Extends(s, Meet(s, next)) && Covered(g, Meet(s, next).found, next)
  {
    ReportingIsSound(g, s, FirstIndex(s.stack, next), next);
    hide Sound, Covered, KeyOf, FirstIndex;
  }

  lemma {:induction false} VisitOneIsSound(g: Graph, s: State, next: Module)
    requires Sound(g, s) && s.stack != [] && Edge(g, s.stack[|s.stack| - 1], next)
    ensures Sound(g, VisitOne(g, s, next)) && Extends(s, VisitOne(g, s, next)) && Done(g, VisitOne(g, s, next), next)
    decreases g.Keys - s.colour.Keys, 1, 0
  {
    if next !in s.colour {
      if next in g {
        WalkIsSound(g, s, next);
      }
      hide Sound, WalkFrom, Covered;
    } else {
      ColoursTell(g, s, next);
      hide Sound, WalkFrom, Covered, Meet;
      if s.colour[next] == Grey {
        MeetIsSound(g, s, next);
      }
    }
  }

  lemma OneMoreVisited(g: Graph, s: State, v: State, node: Module, i: nat)
    requires node in g && i < |g[node]| && AllDone(g, s, node, i)
    requires Extends(s, v) && Done(g, v, g[node][i])
    ensures AllDone(g, v, node, i + 1) && v.stack == s.stack
    ensures g.Keys - v.colour.Keys <= g.Keys - s.colour.Keys
  {
    AllDoneStays(g, s, v, node, i);
    OneMoreDone(g, v, node, i);
    hide AllDone, Done;
  }

  lemma {:induction false} VisitFromIsSound(g: Graph, s: State, node: Module, i: nat)
    requires node in g && i <= |g[node]|
    requires Sound(g, s) && s.stack != [] && s.stack[|s.stack| - 1] == node && AllDone(g, s, node, i)
    ensures var r := VisitFrom(g, s, node, i);
            Sound(g, r) && Extends(s, r) && AllDone(g, r, node, |g[node]|)
    decreases g.Keys - s.colour.Keys, 2, |g[node]| - i
  {
    VisitUnfolds(g, s, node, i);
    if i == |g[node]| {
      ExtendsItself(s);
      hide *;
    } else {
      var next := g[node][i];
      assert Edge(g, node, next);
      var v := VisitOne(g, s, next);
      hide *;
      VisitOneIsSound(g, s, next);
      OneMoreVisited(g, s, v, node, i);
      VisitFromIsSound(g, v, node, i + 1);
      ExtendsTwice(s, v, VisitFrom(g, s, node, i));
    }
  }

  lemma LeavingADone(g: Graph, v: State, node: Module)
    requires node in g && Sound(g, v) && v.stack != [] && v.stack[|v.stack| - 1] == node
    requires AllDone(g, v, node, |g[node]|)
    ensures Sound(g, Leave(v)) && node in Leave(v).rank && v.rank.Keys <= Leave(v).rank.Keys
  {
    assert forall next | Edge(g, node, next) :: Done(g, v, next);
    LeavingIsSound(g, v);
    hide Sound, Covered;
  }

  lemma WalkExtends(g: Graph, s: State, v: State, node: Module)
    requires node !in s.colour && Extends(Enter(s, node), v)
    ensures v.stack != [] && Extends(s, Leave(v))
  {
  }

  /** The inner walk finishes the module, and keeps what was there. */
  lemma {:induction false} WalkIsSound(g: Graph, s: State, node: Module)
    requires Sound(g, s) && node in g && node !in s.colour
    requires s.stack != [] ==> Edge(g, s.stack[|s.stack| - 1], node)
    ensures Sound(g, WalkFrom(g, s, node)) && Extends(s, WalkFrom(g, s, node)) && node in WalkFrom(g, s, node).rank
    decreases g.Keys - s.colour.Keys, 0, 0
  {
    EnteringIsSound(g, s, node);
    WalkUnfolds(g, s, node);
    var e := Enter(s, node);
    assert node in g.Keys - s.colour.Keys && node !in g.Keys - e.colour.Keys;
    assert g.Keys - e.colour.Keys <= g.Keys - s.colour.Keys;
    assert AllDone(g, e, node, 0);
    VisitFromIsSound(g, e, node, 0);
    WalkExtends(g, s, VisitFrom(g, e, node, 0), node);
    hide Sound, Done, AllDone, VisitFrom, WalkFrom, Leave;
    LeavingADone(g, VisitFrom(g, e, node, 0), node);
  }

  ghost predicate AllColoured(s: State, nodes: seq<Module>) {
    forall i | 0 <= i < |nodes| :: nodes[i] in s.colour
  }

  lemma OneMoreColoured(s: State, nodes: seq<Module>)
    requires nodes != [] && nodes[0] in s.colour && AllColoured(s, nodes[1..])
    ensures AllColoured(s, nodes)
  {
    forall i | 0 <= i < |nodes|
      ensures nodes[i] in s.colour
    {
      if i > 0 {
        assert nodes[i] == nodes[1..][i - 1];
      }
    }
  }

  lemma SearchUnfolds(g: Graph, s: State, nodes: seq<Module>)
    requires nodes != [] && forall i | 0 <= i < |nodes| :: nodes[i] in g
    ensures forall i | 0 <= i < |nodes[1..]| :: nodes[1..][i] in g
    ensures SearchFrom(g, s, nodes) ==
            SearchFrom(g, if nodes[0] in s.colour then s else WalkFrom(g, s, nodes[0]), nodes[1..])
    ensures SearchFrom(g, s, []) == s
  {
    hide WalkFrom;
  }

  lemma {:induction false} SearchIsSound(g: Graph, s: State, nodes: seq<Module>)
    requires forall i | 0 <= i < |nodes| :: nodes[i] in g
    requires Sound(g, s) && s.stack == []
    ensures var r := SearchFrom(g, s, nodes);
            Sound(g, r) && Extends(s, r) && AllColoured(r, nodes)
    decreases |nodes|
  {
    if nodes == [] {
      hide Sound;
    } else {
      SearchUnfolds(g, s, nodes);
      var next := if nodes[0] in s.colour then s else WalkFrom(g, s, nodes[0]);
      hide *;
      if nodes[0] !in s.colour {
        WalkIsSound(g, s, nodes[0]);
      } else {
        ExtendsItself(s);
      }
      ExtendedHolds(s, next);
      SearchIsSound(g, next, nodes[1..]);
      var r := SearchFrom(g, s, nodes);
      ExtendsTwice(s, next, r);
      ExtendedHolds(next, r);
      OneMoreColoured(r, nodes);
    }
  }

  lemma StackLoop(g: Graph, stack: seq<Module>, at: nat, next: Module)
    requires at < |stack| && stack[at] == next && IsPath(g, stack) && NoDuplicates(stack)
    requires Edge(g, stack[|stack| - 1], next)
    ensures IsLoop(g, stack[at..] + [next])
  {
    var loop := stack[at..] + [next];
    assert loop[..|loop| - 1] == stack[at..];
    forall i | 0 <= i < |loop| - 1
      ensures Edge(g, loop[i], loop[i + 1])
    {
      if i < |loop| - 2 {
        assert Edge(g, stack[at + i], stack[at + i + 1]);
      }
    }
    assert Edge(g, loop[0], loop[1]);
    forall i | 0 <= i < |loop|
      ensures loop[i] in g
    {
      if i < |loop| - 1 {
        assert Edge(g, loop[i], loop[i + 1]);
      }
    }
  }

  lemma CoverGrows(g: Graph, a: seq<seq<Module>>, b: seq<seq<Module>>)
    requires a <= b
    ensures forall v | Covered(g, a, v) :: Covered(g, b, v)
  {
    forall v | Covered(g, a, v)
      ensures Covered(g, b, v)
    {
      if PipeFree(g) {
        var k :| 0 <= k < |a| && v in a[k];
        assert v in b[k];
      }
    }
  }

  lemma MoreFoundCoversMore(g: Graph, rank: map<Module, nat>, found: seq<seq<Module>>, loop: seq<Module>)
    requires Ranked(g, rank, found)
    ensures Ranked(g, rank, found + [loop])
  {
    CoverGrows(g, found, found + [loop]);
  }

  lemma AllFinished(g: Graph, s: State, nodes: seq<Module>)
    requires Sound(g, s) && s.stack == []
    requires forall u | u in g :: u in nodes
    requires AllColoured(s, nodes)
    ensures s.rank.Keys == g.Keys
    ensures Ranked(g, s.rank, s.found) && forall k | 0 <= k < |s.found| :: IsLoop(g, s.found[k])
  {
    forall u | u in g
      ensures u in s.rank
    {
      assert u in nodes && u in s.colour && u !in s.stack;
    }
  }

  lemma FinishedSearch(g: Graph, rank: map<Module, nat>, found: seq<seq<Module>>)
    requires Ranked(g, rank, found) && rank.Keys == g.Keys
    requires forall k | 0 <= k < |found| :: IsLoop(g, found[k])
    ensures found == [] <==> Acyclic(g)
    ensures PipeFree(g) ==> forall c | IsClosed(g, c) :: exists i | 0 <= i < |c| :: Names(found, c[i])
  {
    forall c | IsClosed(g, c)
      ensures exists i | 0 <= i < |c| :: Covered(g, found, c[i])
      ensures found != []
    {
      EveryCycleIsCovered(g, rank, found, c);
    }
    if found != [] {
      assert IsLoop(g, found[0]) && IsClosed(g, found[0]);
    }
  }
}
