/** What the import-cycle search knows of the way it met each module, step by step. */
module CycleOrder {
  import opened Basics
  import opened Cycle
  import opened CycleTree

  /** Every module met keeps its path; the path of the module on top is the stack. */
  ghost predicate Planted(g: Graph, s: State) {
    IsTree(g, s.path) && s.path.Keys == s.colour.Keys
    && (s.stack != [] ==> s.stack[|s.stack| - 1] in s.path && s.path[s.stack[|s.stack| - 1]] == s.stack)
  }

  /** A module met before u was finished is above u, or was finished before u; what is above
      was met first. */
  ghost predicate Timed(s: State) {
    && s.start.Keys == s.colour.Keys
    && (forall u | u in s.start :: s.start[u] <= s.clock)
    && (forall u | u in s.rank :: s.rank[u] < s.clock)
    && (forall r, u | Above(s.path, r, u) && r in s.start && u in s.start :: s.start[r] <= s.start[u])
    && (forall z, u | z in s.start && u in s.rank && s.start[z] <= s.rank[u] ::
          Above(s.path, z, u) || (z in s.rank && s.rank[z] < s.rank[u]))
  }

  /** Every report is a closed stretch of the tree. */
  ghost predicate Traced(g: Graph, s: State) {
    forall k | 0 <= k < |s.found| :: IsStretchSet(g, s.path, Elements(s.found[k]))
  }

  ghost predicate Told(found: seq<seq<Module>>, modules: set<Module>) {
    exists k :: 0 <= k < |found| && Elements(found[k]) == modules
  }

  /** An import that was looked at: what it names was met, and what it closes was reported. */
  ghost predicate Handled(g: Graph, s: State, u: Module, v: Module) {
    (v in g ==> v in s.start)
    && (Closes(g, s.path, v, u) && PipeFree(g) ==> Told(s.found, Elements(Stretch(s.path, v, u))))
  }

  ghost predicate AllHandled(g: Graph, s: State, u: Module, i: nat)
    requires u in g && i <= |g[u]|
  {
    forall j | 0 <= j < i :: Handled(g, s, u, g[u][j])
  }

  /** Every import of a finished module was looked at, before it was finished. */
  ghost predicate Looked(g: Graph, s: State) {
    forall u, v | u in s.rank && Edge(g, u, v) ::
      Handled(g, s, u, v) && (v in s.start ==> s.start[v] <= s.rank[u])
  }

  ghost predicate Ordered(g: Graph, s: State) {
    Planted(g, s) && Timed(s) && Traced(g, s) && Looked(g, s)
  }

  /** What later steps keep. */
  ghost predicate Grows(s: State, r: State) {
    r.stack == s.stack && s.found <= r.found && s.colour.Keys <= r.colour.Keys && s.start.Keys <= r.start.Keys
    && (forall u | u in s.path :: u in r.path && r.path[u] == s.path[u])
  }

  lemma GrowsItself(s: State)
    ensures Grows(s, s)
  {
  }

  lemma GrowsTwice(a: State, b: State, c: State)
    requires Grows(a, b) && Grows(b, c)
    ensures Grows(a, c)
  {
  }

  /** A path keeps its place while others are added. */
  lemma AboveStays(g: Graph, t: Tree, r: Tree, v: Module, u: Module)
    requires IsTree(g, t) && IsTree(g, r) && u in t && forall x | x in t :: x in r && r[x] == t[x]
    ensures Above(r, v, u) <==> Above(t, v, u)
  {
    OnBranch(g, r, v, u);
    OnBranch(g, t, v, u);
    assert IsBranch(g, t, u);
  }

  lemma ToldStays(a: seq<seq<Module>>, b: seq<seq<Module>>, modules: set<Module>)
    requires a <= b && Told(a, modules)
    ensures Told(b, modules)
  {
    var k :| 0 <= k < |a| && Elements(a[k]) == modules;
    assert b[k] == a[k];
  }

  lemma HandledStays(g: Graph, s: State, r: State, u: Module, v: Module)
    requires Handled(g, s, u, v) && Planted(g, s) && Planted(g, r) && u in s.path && Grows(s, r)
    ensures Handled(g, r, u, v)
  {
    AboveStays(g, s.path, r.path, v, u);
    hide IsTree;
    if Closes(g, r.path, v, u) && PipeFree(g) {
      assert Stretch(r.path, v, u) == Stretch(s.path, v, u);
      ToldStays(s.found, r.found, Elements(Stretch(s.path, v, u)));
    }
  }

  lemma AllHandledStays(g: Graph, s: State, r: State, u: Module, i: nat)
    requires u in g && i <= |g[u]| && AllHandled(g, s, u, i)
    requires Planted(g, s) && Planted(g, r) && u in s.path && Grows(s, r)
    ensures AllHandled(g, r, u, i)
  {
    forall j | 0 <= j < i
      ensures Handled(g, r, u, g[u][j])
    {
      assert Handled(g, s, u, g[u][j]);
      hide Handled, Planted, Grows;
      HandledStays(g, s, r, u, g[u][j]);
    }
  }

  lemma StretchSetStays(g: Graph, t: Tree, r: Tree, modules: set<Module>)
    requires IsStretchSet(g, t, modules) && forall x | x in t :: x in r && r[x] == t[x]
    ensures IsStretchSet(g, r, modules)
  {
    var a, b :| Closes(g, t, a, b) && Elements(Stretch(t, a, b)) == modules;
    assert Closes(g, r, a, b) && Stretch(r, a, b) == Stretch(t, a, b);
  }

  // --- entering --------------------------------------------------------------------------------

  lemma BranchStays(g: Graph, t: Tree, r: Tree, u: Module)
    requires IsTree(g, t) && u in t && forall x | x in t :: x in r && r[x] == t[x]
    ensures IsBranch(g, r, u)
  {
    assert IsBranch(g, t, u);
    hide IsTree, IsPath, NoDuplicates;
  }

  lemma NewBranch(g: Graph, t: Tree, stack: seq<Module>, node: Module)
    requires IsTree(g, t) && node !in t && node in g
    requires stack != [] ==> stack[|stack| - 1] in t && t[stack[|stack| - 1]] == stack
    requires NoDuplicates(stack + [node]) && IsPath(g, stack + [node])
    ensures IsBranch(g, t[node := stack + [node]], node)
  {
    var e := stack + [node];
    if stack != [] {
      assert IsBranch(g, t, stack[|stack| - 1]);
    }
    hide IsTree, IsPath, NoDuplicates;
    forall i | 0 <= i < |e|
      ensures e[i] in t[node := e] && t[node := e][e[i]] == e[..i + 1]
    {
      if i < |stack| {
        assert t[stack[i]] == stack[..i + 1] == e[..i + 1];
      }
    }
  }

  lemma OneMoreBranch(g: Graph, t: Tree, stack: seq<Module>, node: Module)
    requires IsTree(g, t) && node !in t && node in g
    requires stack != [] ==> stack[|stack| - 1] in t && t[stack[|stack| - 1]] == stack
    requires NoDuplicates(stack + [node]) && IsPath(g, stack + [node])
    ensures IsTree(g, t[node := stack + [node]])
  {
    var r := t[node := stack + [node]];
    NewBranch(g, t, stack, node);
    hide IsBranch, IsPath, NoDuplicates;
    forall u | u in r
      ensures IsBranch(g, r, u)
    {
      if u != node {
        BranchStays(g, t, r, u);
      }
    }
  }

  lemma EnteredStackIsSimple(g: Graph, s: State, node: Module)
    requires Sound(g, s) && node in g && node !in s.colour
    requires s.stack != [] ==> Edge(g, s.stack[|s.stack| - 1], node)
    ensures NoDuplicates(s.stack + [node]) && IsPath(g, s.stack + [node])
  {
    EnteringIsSound(g, s, node);
    hide IsPath, NoDuplicates, Edge, Coloured, Ranked, Reported;
  }

  lemma EnteringPlants(g: Graph, s: State, node: Module)
    requires Sound(g, s) && Planted(g, s) && node in g && node !in s.colour
    requires s.stack != [] ==> Edge(g, s.stack[|s.stack| - 1], node)
    ensures Planted(g, Enter(s, node))
  {
    EnteredStackIsSimple(g, s, node);
    hide Sound, IsTree, IsPath, NoDuplicates, Edge;
    OneMoreBranch(g, s.path, s.stack, node);
    assert Enter(s, node).path.Keys == Enter(s, node).colour.Keys;
  }

  lemma EnteringKeepsAbove(g: Graph, s: State, node: Module)
    requires Planted(g, s) && node !in s.colour && Planted(g, Enter(s, node))
    ensures forall r, u | u in s.path :: Above(Enter(s, node).path, r, u) <==> Above(s.path, r, u)
  {
    var e := Enter(s, node);
    hide IsTree, Above;
    forall r, u | u in s.path
      ensures Above(e.path, r, u) <==> Above(s.path, r, u)
    {
      AboveStays(g, s.path, e.path, r, u);
    }
  }

  lemma EnteringKeepsTime(g: Graph, s: State, node: Module)
    requires Coloured(g, s) && Planted(g, s) && Timed(s) && node !in s.colour
    requires Planted(g, Enter(s, node))
    ensures Timed(Enter(s, node))
  {
    EnteringKeepsAbove(g, s, node);
    assert s.start.Keys == s.path.Keys;
    hide IsTree, Above;
  }

  lemma EnteringIsOrdered(g: Graph, s: State, node: Module)
    requires Sound(g, s) && Ordered(g, s) && node in g && node !in s.colour
    requires s.stack != [] ==> Edge(g, s.stack[|s.stack| - 1], node)
    ensures Ordered(g, Enter(s, node)) && AllHandled(g, Enter(s, node), node, 0)
  {
    var e := Enter(s, node);
    EnteringPlants(g, s, node);
    EnteringKeepsTime(g, s, node);
    hide Timed, IsTree, Ranked, Reported;
    forall k | 0 <= k < |e.found|
      ensures IsStretchSet(g, e.path, Elements(e.found[k]))
    {
      StretchSetStays(g, s.path, e.path, Elements(s.found[k]));
    }
    EnteringLooksOn(g, s, node);
  }

  lemma EnteringLooksOn(g: Graph, s: State, node: Module)
    requires Sound(g, s) && Planted(g, s) && Timed(s) && Looked(g, s) && node in g && node !in s.colour
    requires Planted(g, Enter(s, node))
    ensures Looked(g, Enter(s, node))
  {
    var e := Enter(s, node);
    assert s.start.Keys == s.colour.Keys;
    forall u, v | u in e.rank && Edge(g, u, v)
      ensures Handled(g, e, u, v) && (v in e.start ==> e.start[v] <= e.rank[u])
    {
      assert Handled(g, s, u, v);
      assert u in s.path;
      AboveStays(g, s.path, e.path, v, u);
      assert Closes(g, e.path, v, u) ==> Stretch(e.path, v, u) == Stretch(s.path, v, u);
      assert v != node;
    }
  }

  // --- meeting a module on the path -----------------------------------------------------------------

  lemma StackCloses(g: Graph, t: Tree, stack: seq<Module>, at: nat)
    requires IsTree(g, t) && at < |stack| && stack[|stack| - 1] in t && t[stack[|stack| - 1]] == stack
    requires Edge(g, stack[|stack| - 1], stack[at])
    ensures Closes(g, t, stack[at], stack[|stack| - 1]) && Stretch(t, stack[at], stack[|stack| - 1]) == stack[at..]
  {
    var u := stack[|stack| - 1];
    assert IsBranch(g, t, u);
    assert t[stack[at]] == stack[..at + 1];
    hide IsTree, IsPath, NoDuplicates;
  }

  lemma BackToTheStart(p: seq<Module>)
    requires p != []
    ensures Elements(p + [p[0]]) == Elements(p)
  {
    assert p[0] in p;
  }

  lemma MeetingCloses(g: Graph, s: State, next: Module)
    requires Sound(g, s) && Planted(g, s) && next in s.stack && Edge(g, s.stack[|s.stack| - 1], next)
    ensures var u := s.stack[|s.stack| - 1];
            Closes(g, s.path, next, u)
            && Elements(s.stack[FirstIndex(s.stack, next)..] + [next]) == Elements(Stretch(s.path, next, u))
            && IsLoop(g, s.stack[FirstIndex(s.stack, next)..] + [next])
  {
    var at := FirstIndex(s.stack, next);
    StackLoop(g, s.stack, at, next);
    StackCloses(g, s.path, s.stack, at);
    hide *;
    BackToTheStart(s.stack[at..]);
  }

  /** Two reports under one key have the same modules. */
  lemma SeenIsTold(g: Graph, s: State, loop: seq<Module>)
    requires Sound(g, s) && IsLoop(g, loop) && KeyOf(loop) in s.seen && PipeFree(g)
    ensures Told(s.found, Elements(loop))
  {
    var k :| 0 <= k < |s.found| && KeyOf(s.found[k]) == KeyOf(loop);
    assert IsLoop(g, s.found[k]);
    hide IsLoop, KeyOf, Sound;
    forall v
      ensures v in Elements(s.found[k]) <==> v in Elements(loop)
    {
      SameKeySameModules(g, s.found[k], loop, v);
    }
    assert Elements(s.found[k]) == Elements(loop);
  }

  lemma MeetingTells(g: Graph, s: State, next: Module)
    requires Sound(g, s) && Planted(g, s) && next in s.stack && Edge(g, s.stack[|s.stack| - 1], next)
    ensures var u, m := s.stack[|s.stack| - 1], Meet(s, next);
            Closes(g, s.path, next, u) && (PipeFree(g) ==> Told(m.found, Elements(Stretch(s.path, next, u))))
            && (m.found == s.found
                || (|m.found| == |s.found| + 1 && s.found <= m.found
                    && Elements(m.found[|s.found|]) == Elements(Stretch(s.path, next, u))))
  {
    var m := Meet(s, next);
    var loop := s.stack[FirstIndex(s.stack, next)..] + [next];
    MeetingCloses(g, s, next);
    if KeyOf(loop) in s.seen {
      if PipeFree(g) {
        SeenIsTold(g, s, loop);
      }
    } else {
      assert m.found[|s.found|] == loop;
    }
    hide Sound, Planted, IsLoop, FirstIndex, KeyOf, Closes, Edge;
  }

  lemma MeetingChanges(s: State, next: Module)
    ensures var m := Meet(s, next);
            m.stack == s.stack && m.colour == s.colour && m.path == s.path && m.start == s.start
            && m.rank == s.rank && m.clock == s.clock && s.found <= m.found
  {
    hide KeyOf, FirstIndex;
  }

  lemma MeetingHandles(g: Graph, s: State, next: Module)
    requires Sound(g, s) && Ordered(g, s) && next in s.stack && Edge(g, s.stack[|s.stack| - 1], next)
    ensures Handled(g, Meet(s, next), s.stack[|s.stack| - 1], next)
  {
    MeetingTells(g, s, next);
    MeetingChanges(s, next);
    assert next in s.start by { assert next in s.colour; }
    hide Meet, IsTree, Sound, Above, Closes, Edge, Traced, Looked, Planted, Timed;
  }

  lemma MeetingIsOrdered(g: Graph, s: State, next: Module)
    requires Sound(g, s) && Ordered(g, s) && next in s.stack && Edge(g, s.stack[|s.stack| - 1], next)
    ensures Ordered(g, Meet(s, next)) && Grows(s, Meet(s, next))
  {
    hide Meet, Sound, Closes, Edge, Traced, Looked, Planted, Timed, Above, Told;
    var m := Meet(s, next);
    MeetingTells(g, s, next);
    MeetingChanges(s, next);
    MeetingTraces(g, s, m, next, s.stack[|s.stack| - 1]);
    MeetingLooksOn(g, s, m);
    SamePlan(g, s, m);
  }

  lemma SamePlan(g: Graph, s: State, m: State)
    requires Planted(g, s) && Timed(s)
    requires m.stack == s.stack && m.colour == s.colour && m.path == s.path && m.start == s.start
    requires m.rank == s.rank && m.clock == s.clock
    ensures Planted(g, m) && Timed(m)
  {
    hide IsTree, Above;
  }

  lemma MeetingTraces(g: Graph, s: State, m: State, next: Module, u: Module)
    requires Traced(g, s) && m.path == s.path && Closes(g, s.path, next, u)
    requires m.found == s.found
             || (|m.found| == |s.found| + 1 && s.found <= m.found
                 && Elements(m.found[|s.found|]) == Elements(Stretch(s.path, next, u)))
    ensures Traced(g, m)
  {
    forall k | 0 <= k < |m.found|
      ensures IsStretchSet(g, m.path, Elements(m.found[k]))
    {
      if k < |s.found| {
        assert m.found[k] == s.found[k];
      }
    }
  }

  lemma MeetingLooksOn(g: Graph, s: State, m: State)
    requires Looked(g, s) && m.path == s.path && m.start == s.start && m.rank == s.rank && s.found <= m.found
    ensures Looked(g, m)
  {
    forall u, v | u in m.rank && Edge(g, u, v)
      ensures Handled(g, m, u, v)
    {
      assert Handled(g, s, u, v);
      if Closes(g, s.path, v, u) && PipeFree(g) {
        ToldStays(s.found, m.found, Elements(Stretch(s.path, v, u)));
      }
    }
  }

  // --- finishing --------------------------------------------------------------------------------------

  lemma LeavingKeepsTime(g: Graph, s: State)
    requires Coloured(g, s) && Planted(g, s) && Timed(s) && s.stack != []
    ensures Timed(Leave(s))
  {
    var node := s.stack[|s.stack| - 1];
    assert node in s.stack;
    forall z | z in s.start
      ensures Above(s.path, z, node) || z in s.rank
    {
      if s.colour[z] == Grey {
        assert z in s.path[node];
        OnBranch(g, s.path, z, node);
      }
    }
    hide Above, IsTree;
  }

  lemma OneUp(g: Graph, t: Tree, stack: seq<Module>)
    requires IsTree(g, t) && |stack| >= 2 && stack[|stack| - 1] in t && t[stack[|stack| - 1]] == stack
    ensures stack[|stack| - 2] in t && t[stack[|stack| - 2]] == stack[..|stack| - 1]
  {
    assert IsBranch(g, t, stack[|stack| - 1]);
    hide IsTree, IsPath, NoDuplicates;
  }

  lemma LeavingPlants(g: Graph, s: State)
    requires Coloured(g, s) && Planted(g, s) && s.stack != []
    ensures Planted(g, Leave(s))
  {
    assert s.stack[|s.stack| - 1] in s.stack;
    if |s.stack| > 1 {
      OneUp(g, s.path, s.stack);
    }
    hide IsTree;
  }

  lemma LeavingLooksBack(g: Graph, s: State, node: Module)
    requires Coloured(g, s) && Timed(s) && Looked(g, s) && s.stack != [] && s.stack[|s.stack| - 1] == node && node in g
    requires AllHandled(g, s, node, |g[node]|)
    ensures Looked(g, Leave(s))
  {
    var l := Leave(s);
    assert node in s.stack;
    assert forall u | u in s.start :: s.start[u] <= s.clock;
    hide Timed, Above, Closes;
    forall u, v | u in l.rank && Edge(g, u, v)
      ensures Handled(g, l, u, v) && (v in l.start ==> l.start[v] <= l.rank[u])
    {
      assert Handled(g, s, u, v);
      assert u != node ==> l.rank[u] == s.rank[u];
    }
  }

  lemma LeavingIsOrdered(g: Graph, s: State, node: Module)
    requires Sound(g, s) && Ordered(g, s) && s.stack != [] && s.stack[|s.stack| - 1] == node && node in g
    requires AllHandled(g, s, node, |g[node]|)
    ensures Ordered(g, Leave(s)) && node in Leave(s).start
  {
    LeavingKeepsTime(g, s);
    LeavingPlants(g, s);
    LeavingLooksBack(g, s, node);
    assert node in s.start by { assert node in s.colour by { assert node in s.stack; } }
    hide Planted, Timed, Looked, IsStretchSet, AllHandled, Sound;
  }

  // --- the whole search ---------------------------------------------------------------------------------

  lemma OnlyThePathCloses(g: Graph, s: State, next: Module)
    requires Planted(g, s) && s.stack != [] && next !in s.stack
    ensures !Above(s.path, next, s.stack[|s.stack| - 1])
  {
    OnBranch(g, s.path, next, s.stack[|s.stack| - 1]);
    hide IsTree;
  }

  /** An import that leads nowhere back up is handled once what it names was met. */
  lemma HandledOffThePath(g: Graph, s: State, r: State, next: Module)
    requires Planted(g, s) && Planted(g, r) && s.stack != [] && next !in s.stack && Grows(s, r)
    requires next in g ==> next in r.start
    ensures Handled(g, r, s.stack[|s.stack| - 1], next)
  {
    OnlyThePathCloses(g, s, next);
    AboveStays(g, s.path, r.path, next, s.stack[|s.stack| - 1]);
    hide IsTree;
  }

  lemma {:induction false} VisitOneIsOrdered(g: Graph, s: State, next: Module)
    requires Sound(g, s) && Ordered(g, s) && s.stack != [] && Edge(g, s.stack[|s.stack| - 1], next)
    ensures Ordered(g, VisitOne(g, s, next)) && Grows(s, VisitOne(g, s, next))
    ensures Handled(g, VisitOne(g, s, next), s.stack[|s.stack| - 1], next)
    decreases g.Keys - s.colour.Keys, 1, 0
  {
    StackIsGrey(g, s, next);
    if next !in s.colour && next in g {
      WalkIsOrdered(g, s, next);
      HandledOffThePath(g, s, WalkFrom(g, s, next), next);
    } else if next in s.colour && s.colour[next] == Grey {
      MeetingIsOrdered(g, s, next);
      MeetingHandles(g, s, next);
    } else {
      GrowsItself(s);
      HandledOffThePath(g, s, s, next);
    }
    hide Sound, WalkFrom, Meet, Handled, Grows, Planted, Timed, Traced, Looked;
  }

  lemma StackIsGrey(g: Graph, s: State, next: Module)
    requires Sound(g, s) && Ordered(g, s)
    ensures next in s.stack <==> next in s.colour && s.colour[next] == Grey
    ensures next in s.colour <==> next in s.start
  {
    hide IsTree, Ranked, Reported;
  }

  lemma {:induction false} VisitFromIsOrdered(g: Graph, s: State, node: Module, i: nat)
    requires node in g && i <= |g[node]|
    requires Sound(g, s) && s.stack != [] && s.stack[|s.stack| - 1] == node
    requires Cycle.AllDone(g, s, node, i) && Ordered(g, s) && AllHandled(g, s, node, i)
    ensures var r := VisitFrom(g, s, node, i);
            Ordered(g, r) && Grows(s, r) && AllHandled(g, r, node, |g[node]|)
    decreases g.Keys - s.colour.Keys, 2, |g[node]| - i
  {
    hide *;
    VisitUnfolds(g, s, node, i);
    if i == |g[node]| {
      GrowsItself(s);
    } else {
      var next := g[node][i];
      ImportIsEdge(g, node, i);
      var v := VisitOne(g, s, next);
      VisitOneIsSound(g, s, next);
      OneMoreVisited(g, s, v, node, i);
      VisitOneIsOrdered(g, s, next);
      OneMoreHandled(g, s, v, node, i);
      VisitFromIsOrdered(g, v, node, i + 1);
      GrowsTwice(s, v, VisitFrom(g, s, node, i));
    }
  }

  lemma ImportIsEdge(g: Graph, node: Module, i: nat)
    requires node in g && i < |g[node]|
    ensures Edge(g, node, g[node][i])
  {
  }

  lemma OneMoreHandled(g: Graph, s: State, v: State, node: Module, i: nat)
    requires node in g && i < |g[node]| && AllHandled(g, s, node, i)
    requires s.stack != [] && s.stack[|s.stack| - 1] == node
    requires Ordered(g, s) && Ordered(g, v) && Grows(s, v) && Handled(g, v, node, g[node][i])
    ensures AllHandled(g, v, node, i + 1)
  {
    AllHandledStays(g, s, v, node, i);
    hide Handled, Grows, Planted, Timed, Traced, Looked;
  }

  lemma {:induction false} WalkIsOrdered(g: Graph, s: State, node: Module)
    requires Sound(g, s) && Ordered(g, s) && node in g && node !in s.colour
    requires s.stack != [] ==> Edge(g, s.stack[|s.stack| - 1], node)
    ensures Ordered(g, WalkFrom(g, s, node)) && Grows(s, WalkFrom(g, s, node)) && node in WalkFrom(g, s, node).start
    decreases g.Keys - s.colour.Keys, 0, 0
  {
    var e := Enter(s, node);
    EnteringIsSound(g, s, node);
    WalkUnfolds(g, s, node);
    assert node in g.Keys - s.colour.Keys && node !in g.Keys - e.colour.Keys;
    assert g.Keys - e.colour.Keys <= g.Keys - s.colour.Keys;
    assert Cycle.AllDone(g, e, node, 0);
    assert e.stack[|e.stack| - 1] == node;
    EnteringIsOrdered(g, s, node);
    VisitFromIsSound(g, e, node, 0);
    VisitFromIsOrdered(g, e, node, 0);
    var v := VisitFrom(g, e, node, 0);
    WalkGrows(g, s, v, node);
    assert v.stack[|v.stack| - 1] == node;
    hide *;
    LeavingIsOrdered(g, v, node);
  }

  lemma WalkGrows(g: Graph, s: State, v: State, node: Module)
    requires node !in s.colour && Planted(g, s) && Grows(Enter(s, node), v)
    ensures v.stack == s.stack + [node] && Grows(s, Leave(v))
  {
    hide IsTree;
  }

  lemma {:induction false} SearchIsOrdered(g: Graph, s: State, nodes: seq<Module>)
    requires forall i | 0 <= i < |nodes| :: nodes[i] in g
    requires Sound(g, s) && Ordered(g, s) && s.stack == []
    ensures Ordered(g, SearchFrom(g, s, nodes))
    decreases |nodes|
  {
    if nodes == [] {
      hide Ordered, Sound;
    } else {
      SearchUnfolds(g, s, nodes);
      var next := if nodes[0] in s.colour then s else WalkFrom(g, s, nodes[0]);
      hide *;
      if nodes[0] !in s.colour {
        WalkIsSound(g, s, nodes[0]);
        WalkIsOrdered(g, s, nodes[0]);
        ExtendedHolds(s, next);
      }
      SearchIsOrdered(g, next, nodes[1..]);
    }
  }

  lemma UnsearchedIsOrdered(g: Graph)
    ensures Sound(g, Unsearched) && Ordered(g, Unsearched)
  {
  }
}
