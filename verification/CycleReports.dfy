/** When every loop is reported (pkg/mib/cycle.go:129-183), exactly. */
module CycleReports {
  import opened Basics
  import opened Cycle
  import opened CycleTree
  import opened CycleOrder
  import opened CycleSearch

  /** The path the search first met each module on. */
  ghost function FirstPaths(g: Graph, nodes: seq<Module>): Tree
    requires IsListing(g, nodes)
  {
    ListedAreKnown(g, nodes);
    SearchFrom(g, Unsearched, nodes).path
  }

  ghost predicate EveryLoopIsTold(g: Graph, found: seq<seq<Module>>) {
    forall c | IsLoop(g, c) :: Told(found, Elements(c))
  }

  /** Where a finished search stands. */
  ghost predicate Finished(g: Graph, s: State) {
    Ordered(g, s) && s.stack == [] && s.rank.Keys == g.Keys && s.start.Keys == g.Keys && s.path.Keys == g.Keys
  }

  lemma SearchFinishes(g: Graph, nodes: seq<Module>)
    requires IsListing(g, nodes)
    ensures forall i | 0 <= i < |nodes| :: nodes[i] in g
    ensures Finished(g, SearchFrom(g, Unsearched, nodes))
  {
    ListedAreKnown(g, nodes);
    UnsearchedIsOrdered(g);
    SearchIsSound(g, Unsearched, nodes);
    SearchIsOrdered(g, Unsearched, nodes);
    var s := SearchFrom(g, Unsearched, nodes);
    AllFinished(g, s, nodes);
    RanksAreMet(g, s);
    hide SearchFrom, Sound, Ordered, IsListing, AllColoured;
    ExtendedHolds(Unsearched, s);
  }

  lemma RanksAreMet(g: Graph, s: State)
    requires Sound(g, s) && Ordered(g, s) && s.rank.Keys == g.Keys
    ensures s.start.Keys == g.Keys && s.path.Keys == g.Keys
  {
    hide IsTree, Ranked, Reported, Traced, Looked;
    forall u | u in g
      ensures u in s.colour
    {
      assert u in s.rank;
    }
  }

  lemma ClosedIsTold(g: Graph, s: State, r: Module, u: Module)
    requires Finished(g, s) && PipeFree(g) && Closes(g, s.path, r, u)
    ensures Told(s.found, Elements(Stretch(s.path, r, u)))
  {
    assert Handled(g, s, u, r);
  }

  lemma TreesTellAll(g: Graph, s: State)
    requires Finished(g, s) && PipeFree(g) && NothingPassedOver(g, s.path)
    ensures EveryLoopIsTold(g, s.found)
  {
    hide Finished, NothingPassedOver, IsLoop, Told, PipeFree;
    forall c | IsLoop(g, c)
      ensures Told(s.found, Elements(c))
    {
      OneLoopIsTold(g, s, c);
    }
  }

  lemma OneLoopIsTold(g: Graph, s: State, c: seq<Module>)
    requires Finished(g, s) && PipeFree(g) && NothingPassedOver(g, s.path) && IsLoop(g, c)
    ensures Told(s.found, Elements(c))
  {
    var r, u := LoopsAreStretches(g, s.path, c);
    ClosedIsTold(g, s, r, u);
  }

  /** What was told is a closed stretch, so a loop that is none was not told. */
  lemma ToldIsAStretch(g: Graph, s: State, modules: set<Module>)
    requires Traced(g, s) && Told(s.found, modules)
    ensures IsStretchSet(g, s.path, modules)
  {
    var k :| 0 <= k < |s.found| && Elements(s.found[k]) == modules;
  }

  lemma AllToldMeansTrees(g: Graph, s: State)
    requires Finished(g, s) && EveryLoopIsTold(g, s.found)
    ensures NothingPassedOver(g, s.path)
  {
    forall u, w | Edge(g, u, w) && Reaches(g, w, u)
      ensures Descended(s.path, u, w) || Above(s.path, w, u)
    {
      OneIsNotPassedOver(g, s, u, w);
    }
  }

  lemma OneIsNotPassedOver(g: Graph, s: State, u: Module, w: Module)
    requires Finished(g, s) && EveryLoopIsTold(g, s.found) && Edge(g, u, w) && Reaches(g, w, u)
    ensures Descended(s.path, u, w) || Above(s.path, w, u)
  {
    if !Descended(s.path, u, w) && !Above(s.path, w, u) {
      var c := PassedOverIsMissed(g, s.path, u, w);
      hide Timed, IsTree, Looked, IsStretchSet, IsLoop, Told, Above, Descended, Reaches, Edge;
      assert Told(s.found, Elements(c));
      ToldIsAStretch(g, s, Elements(c));
      assert false;
    }
  }

  /** Every loop is reported, up to where it is entered and the order within, if and only if no
      import between two modules that reach each other is passed over: each was descended along
      or leads back up to the current path. The one way the search passes over such an import
      is to find what it names finished. */
  lemma EveryLoopIsReportedExactly(g: Graph, nodes: seq<Module>)
    requires IsListing(g, nodes) && PipeFree(g)
    ensures EveryLoopIsTold(g, Reports(g, nodes)) <==> NothingPassedOver(g, FirstPaths(g, nodes))
  {
    SearchFinishes(g, nodes);
    var s := SearchFrom(g, Unsearched, nodes);
    assert Reports(g, nodes) == s.found && FirstPaths(g, nodes) == s.path;
    hide *;
    if NothingPassedOver(g, s.path) {
      TreesTellAll(g, s);
    }
    if EveryLoopIsTold(g, s.found) {
      AllToldMeansTrees(g, s);
    }
  }

  // --- a condition on the graph alone --------------------------------------------------------------

  /** Between two modules that reach each other there is one simple path each way. */
  ghost predicate OnePathEachWay(g: Graph) {
    forall p, q, a, b | IsSimple(g, p, a, b) && IsSimple(g, q, a, b) && Reaches(g, b, a) :: p == q
  }

  lemma LatestOnWalk(s: State, c: seq<Module>) returns (k: nat)
    requires c != [] && forall i | 0 <= i < |c| :: c[i] in s.rank
    ensures k < |c| && forall i | 0 <= i < |c| :: s.rank[c[i]] <= s.rank[c[k]]
  {
    k := 0;
    var i := 1;
    while i < |c|
      invariant 1 <= i <= |c| && k < |c|
      invariant forall j | 0 <= j < i :: s.rank[c[j]] <= s.rank[c[k]]
    {
      if s.rank[c[i]] > s.rank[c[k]] {
        k := i;
      }
      i := i + 1;
    }
  }

  /** Whatever imports a module below z, and is finished no later than z, is below z. */
  lemma BelowTheLatest(g: Graph, s: State, z: Module, u: Module, v: Module)
    requires Finished(g, s) && Edge(g, u, v) && v in g && z in g && Above(s.path, z, v)
    requires s.rank[u] <= s.rank[z]
    ensures Above(s.path, z, u)
  {
    assert Handled(g, s, u, v);
    hide IsTree, Traced;
  }

  /** On a walk that ends at the module finished last, that module is above all. */
  lemma {:induction false} LatestIsAbove(g: Graph, s: State, p: seq<Module>, z: Module, i: nat)
    requires Finished(g, s) && p != [] && IsPath(g, p) && p[|p| - 1] == z && z in g && i < |p|
    requires forall j | 0 <= j < |p| :: p[j] in g && s.rank[p[j]] <= s.rank[z]
    ensures Above(s.path, z, p[i])
    decreases |p| - i
  {
    hide IsTree, Ordered;
    if i < |p| - 1 {
      LatestIsAbove(g, s, p, z, i + 1);
      assert Edge(g, p[i], p[i + 1]);
      BelowTheLatest(g, s, z, p[i], p[i + 1]);
    } else {
      assert s.path[z] <= s.path[z];
    }
  }

  lemma WalkIsKnown(g: Graph, p: seq<Module>, from: Module, to: Module)
    requires IsWalk(g, p, from, to) && to in g
    ensures forall i | 0 <= i < |p| :: p[i] in g
  {
    forall i | 0 <= i < |p|
      ensures p[i] in g
    {
      if i < |p| - 1 {
        assert Edge(g, p[i], p[i + 1]);
      }
    }
  }

  ghost predicate NoLater(g: Graph, s: State, p: seq<Module>, z: Module)
    requires z in s.rank
  {
    forall j | 0 <= j < |p| :: p[j] in g && p[j] in s.rank && s.rank[p[j]] <= s.rank[z]
  }

  lemma WalkToTheLatest(g: Graph, s: State, q: seq<Module>, z: Module, i: nat)
    requires Finished(g, s) && q != [] && IsPath(g, q) && q[|q| - 1] == z && z in s.rank && i < |q|
    requires NoLater(g, s, q, z)
    ensures Above(s.path, z, q[i])
  {
    hide IsPath, Ordered;
    LatestIsAbove(g, s, q, z, i);
  }

  lemma LaterPart(g: Graph, s: State, p: seq<Module>, k: nat, z: Module)
    requires k < |p| && z in s.rank && NoLater(g, s, p, z)
    ensures NoLater(g, s, p[..k + 1], z) && NoLater(g, s, p[k + 1..] + p[..k + 1], z)
  {
    var q := p[k + 1..] + p[..k + 1];
    forall j | 0 <= j < |q|
      ensures q[j] in p
    {
      assert q[j] == p[if j < |p| - k - 1 then k + 1 + j else j - (|p| - k - 1)];
    }
    assert forall x | x in p :: x in g && x in s.rank && s.rank[x] <= s.rank[z];
  }

  /** On a closed walk, the module finished last is above where the walk begins, ... */
  lemma LatestIsAboveFirst(g: Graph, s: State, p: seq<Module>, k: nat, z: Module)
    requires Finished(g, s) && IsPath(g, p) && k < |p| && p[k] == z && z in s.rank && NoLater(g, s, p, z)
    ensures Above(s.path, z, p[0])
  {
    hide *;
    PathPart(g, p, 0, k + 1);
    assert p[0..k + 1] == p[..k + 1];
    LaterPart(g, s, p, k, z);
    WalkToTheLatest(g, s, p[..k + 1], z, 0);
  }

  /** ... and above where it ends. */
  lemma LatestIsAboveLast(g: Graph, s: State, p: seq<Module>, k: nat, z: Module)
    requires Finished(g, s) && IsPath(g, p) && k < |p| - 1 && p[k] == z && z in s.rank && NoLater(g, s, p, z)
    requires Edge(g, p[|p| - 1], p[0])
    ensures Above(s.path, z, p[|p| - 1])
  {
    hide *;
    var a, b := p[k + 1..], p[..k + 1];
    PathPart(g, p, 0, k + 1);
    PathPart(g, p, k + 1, |p|);
    assert p[0..k + 1] == b && p[k + 1..|p|] == a;
    LaterPart(g, s, p, k, z);
    PathsJoin(g, a, b);
    assert (a + b)[|a| - 1] == p[|p| - 1];
    WalkToTheLatest(g, s, a + b, z, |a| - 1);
  }

  lemma LatestIsAboveItself(g: Graph, s: State, z: Module)
    requires Finished(g, s) && z in s.rank
    ensures Above(s.path, z, z)
  {
    hide IsTree, Ordered;
    LatestIsAbove(g, s, [z], z, 0);
  }

  /** The module finished last of those on a walk. */
  lemma LatestOn(g: Graph, s: State, p: seq<Module>, w: Module, u: Module) returns (k: nat)
    requires Finished(g, s) && IsWalk(g, p, w, u) && u in g
    ensures k < |p| && p[k] in s.rank && NoLater(g, s, p, p[k])
  {
    hide IsTree, Ordered;
    WalkIsKnown(g, p, w, u);
    k := LatestOnWalk(s, p);
  }

  lemma WalkReaches(g: Graph, p: seq<Module>, from: Module, to: Module, k: nat)
    requires IsWalk(g, p, from, to) && k < |p|
    ensures Reaches(g, from, p[k])
  {
    PathPart(g, p, 0, k + 1);
    assert IsWalk(g, p[0..k + 1], from, p[k]);
  }

  /** Two modules that reach each other have a common ancestor that they reach. */
  lemma CommonAncestor(g: Graph, s: State, u: Module, w: Module) returns (z: Module)
    requires Finished(g, s) && Edge(g, u, w) && Reaches(g, w, u)
    ensures Above(s.path, z, u) && Above(s.path, z, w) && Reaches(g, w, z)
  {
    var p := AWalk(g, w, u);
    hide *;
    EdgeIsKnown(g, u, w);
    var k := LatestOn(g, s, p, w, u);
    z := p[k];
    WalkReaches(g, p, w, u, k);
    WalkIs(g, p, w, u);
    LatestIsAboveFirst(g, s, p, k, z);
    if k == |p| - 1 {
      LatestIsAboveItself(g, s, z);
    } else {
      LatestIsAboveLast(g, s, p, k, z);
    }
  }

  lemma AWalk(g: Graph, from: Module, to: Module) returns (p: seq<Module>)
    requires Reaches(g, from, to)
    ensures IsWalk(g, p, from, to)
  {
    p :| IsWalk(g, p, from, to);
  }

  lemma WalkIs(g: Graph, p: seq<Module>, from: Module, to: Module)
    requires IsWalk(g, p, from, to)
    ensures p != [] && IsPath(g, p) && p[0] == from && p[|p| - 1] == to
  {
  }

  lemma EdgeIsKnown(g: Graph, u: Module, w: Module)
    requires Edge(g, u, w)
    ensures u in g
  {
  }

  lemma DownAndAcross(g: Graph, t: Tree, z: Module, u: Module, w: Module)
    requires IsTree(g, t) && Above(t, z, u) && Edge(g, u, w) && w in t && !Above(t, w, u)
    ensures t[z] != [] && IsSimple(g, Stretch(t, z, u) + [w], z, w)
  {
    StretchIs(g, t, z, u);
    OnBranch(g, t, w, u);
    hide IsTree;
    var p := Stretch(t, z, u);
    PathsJoin(g, p, [w]);
    forall i | 0 <= i < |p|
      ensures p[i] != w
    {
      assert p[i] == t[u][|t[z]| - 1 + i];
    }
  }

  /** An import passed over between two modules that reach each other gives two ways. */
  lemma PassedOverGivesTwoWays(g: Graph, s: State, u: Module, w: Module)
    returns (p: seq<Module>, q: seq<Module>, a: Module)
    requires Finished(g, s) && Edge(g, u, w) && Reaches(g, w, u)
    requires !Descended(s.path, u, w) && !Above(s.path, w, u)
    ensures IsSimple(g, p, a, w) && IsSimple(g, q, a, w) && p != q && Reaches(g, w, a)
  {
    var t := s.path;
    var z := CommonAncestor(g, s, u, w);
    hide Timed, Traced, Looked, Reaches;
    a := if Above(t, u, w) then u else z;
    StretchIs(g, t, a, w);
    AboveItself(t, u);
    DownAndAcross(g, t, a, u, w);
    p, q := Stretch(t, a, w), Stretch(t, a, u) + [w];
    TwoWaysDiffer(g, t, a, u, w);
  }

  lemma AboveItself(t: Tree, u: Module)
    requires u in t
    ensures Above(t, u, u)
  {
  }

  lemma TwoWaysDiffer(g: Graph, t: Tree, a: Module, u: Module, w: Module)
    requires IsTree(g, t) && Above(t, a, u) && Above(t, a, w) && t[a] != []
    requires !Descended(t, u, w)
    ensures Stretch(t, a, w) != Stretch(t, a, u) + [w]
  {
    OnBranch(g, t, a, u);
    OnBranch(g, t, a, w);
    hide IsTree;
    var n := |t[a]| - 1;
    assert t[u] == t[u][..n] + Stretch(t, a, u) && t[w] == t[w][..n] + Stretch(t, a, w);
    assert t[u][..n] == t[a][..n] == t[w][..n];
    assert t[u] + [w] == t[u][..n] + (Stretch(t, a, u) + [w]);
  }

  /** Where modules that reach each other have one simple path each way, every loop is reported,
      in whatever order modules and imports are tried. */
  lemma OnePathEachWayIsEnough(g: Graph, nodes: seq<Module>)
    requires IsListing(g, nodes) && PipeFree(g) && OnePathEachWay(g)
    ensures EveryLoopIsTold(g, Reports(g, nodes))
  {
    SearchFinishes(g, nodes);
    var s := SearchFrom(g, Unsearched, nodes);
    EveryLoopIsReportedExactly(g, nodes);
    assert FirstPaths(g, nodes) == s.path;
    hide Finished, Reports, SearchFrom, EveryLoopIsTold, Above, Descended, Reaches, Edge, IsSimple;
    forall u, w | Edge(g, u, w) && Reaches(g, w, u)
      ensures Descended(s.path, u, w) || Above(s.path, w, u)
    {
      if !Descended(s.path, u, w) && !Above(s.path, w, u) {
        var p, q, a := PassedOverGivesTwoWays(g, s, u, w);
        assert false;
      }
    }
  }
}
