/** When the import-cycle search reports every loop (pkg/mib/cycle.go:129-183), said of the
    way it first met each module. Each module keeps the path it was met on, so the modules
    form a tree: a path that starts another is an ancestor's. */
module CycleTree {
  import opened Basics
  import opened Cycle

  // --- walks -------------------------------------------------------------------------------

  ghost predicate IsWalk(g: Graph, p: seq<Module>, from: Module, to: Module) {
    p != [] && IsPath(g, p) && p[0] == from && p[|p| - 1] == to
  }

  ghost predicate Reaches(g: Graph, from: Module, to: Module) {
    exists p :: IsWalk(g, p, from, to)
  }

  ghost predicate IsSimple(g: Graph, p: seq<Module>, from: Module, to: Module) {
    IsWalk(g, p, from, to) && NoDuplicates(p)
  }

  lemma PathsJoin(g: Graph, p: seq<Module>, q: seq<Module>)
    requires p != [] && q != [] && IsPath(g, p) && IsPath(g, q) && Edge(g, p[|p| - 1], q[0])
    ensures IsPath(g, p + q)
  {
    forall i | 0 <= i < |p + q| - 1
      ensures Edge(g, (p + q)[i], (p + q)[i + 1])
    {
      if i < |p| - 1 {
        assert Edge(g, p[i], p[i + 1]);
      } else if i >= |p| {
        assert Edge(g, q[i - |p|], q[i - |p| + 1]);
      }
    }
  }

  lemma PathPart(g: Graph, p: seq<Module>, a: nat, b: nat)
    requires IsPath(g, p) && a <= b <= |p|
    ensures IsPath(g, p[a..b])
  {
    forall i | 0 <= i < b - a - 1
      ensures Edge(g, p[a..b][i], p[a..b][i + 1])
    {
      assert Edge(g, p[a + i], p[a + i + 1]);
    }
  }

  /** A walk without its detours. */
  lemma {:induction false} WalkShortens(g: Graph, p: seq<Module>, from: Module, to: Module) returns (q: seq<Module>)
    requires IsWalk(g, p, from, to)
    ensures IsSimple(g, q, from, to)
    decreases |p|
  {
    q := p;
    if i, j :| 0 <= i < j < |p| && p[i] == p[j] {
      var cut := p[..i] + p[j..];
      PathPart(g, p, 0, i);
      PathPart(g, p, j, |p|);
      assert p[0..i] == p[..i] && p[j..|p|] == p[j..];
      if i > 0 {
        assert Edge(g, p[i - 1], p[i]);
        PathsJoin(g, p[..i], p[j..]);
      } else {
        assert cut == p[j..];
      }
      q := WalkShortens(g, cut, from, to);
    }
  }

  // --- the tree of first paths ------------------------------------------------------------------

  type Tree = map<Module, seq<Module>>

  ghost predicate IsBranch(g: Graph, t: Tree, u: Module)
    requires u in t
  {
    u in g && t[u] != [] && t[u][|t[u]| - 1] == u && NoDuplicates(t[u]) && IsPath(g, t[u])
    && forall i | 0 <= i < |t[u]| :: t[u][i] in t && t[t[u][i]] == t[u][..i + 1]
  }

  ghost predicate IsTree(g: Graph, t: Tree) {
    forall u {:trigger IsBranch(g, t, u)} | u in t :: IsBranch(g, t, u)
  }

  /** r is u or an ancestor of u: u was met on a path through r. */
  ghost predicate Above(t: Tree, r: Module, u: Module) {
    r in t && u in t && t[r] <= t[u]
  }

  /** The import was followed to a module not met before. */
  ghost predicate Descended(t: Tree, u: Module, w: Module) {
    u in t && w in t && t[w] == t[u] + [w]
  }

  lemma OnBranch(g: Graph, t: Tree, r: Module, u: Module)
    requires IsTree(g, t) && u in t
    ensures r in t[u] <==> Above(t, r, u)
    ensures Above(t, r, u) ==> 0 < |t[r]| <= |t[u]| && t[u][|t[r]| - 1] == r
  {
    assert IsBranch(g, t, u);
    if r in t[u] {
      var i :| 0 <= i < |t[u]| && t[u][i] == r;
    }
    if Above(t, r, u) {
      assert IsBranch(g, t, r);
      assert t[u][|t[r]| - 1] == t[r][|t[r]| - 1];
    }
  }

  /** The modules from r down to u. */
  ghost function Stretch(t: Tree, r: Module, u: Module): seq<Module>
    requires Above(t, r, u) && t[r] != []
  {
    t[u][|t[r]| - 1..]
  }

  lemma DepthOnBranch(g: Graph, t: Tree, u: Module, m: nat)
    requires IsTree(g, t) && u in t && m < |t[u]|
    ensures t[u][m] in t && |t[t[u][m]]| == m + 1 && t[t[u][m]] <= t[u]
  {
    assert IsBranch(g, t, u);
    hide IsTree, IsPath, NoDuplicates;
  }

  lemma StretchIs(g: Graph, t: Tree, r: Module, u: Module)
    requires IsTree(g, t) && Above(t, r, u)
    ensures t[r] != [] && IsSimple(g, Stretch(t, r, u), r, u)
  {
    OnBranch(g, t, r, u);
    assert IsBranch(g, t, u);
    PathPart(g, t[u], |t[r]| - 1, |t[u]|);
    assert t[u][|t[r]| - 1..|t[u]|] == Stretch(t, r, u);
    hide IsTree, IsPath;
  }

  lemma StretchHolds(g: Graph, t: Tree, r: Module, u: Module, v: Module)
    requires IsTree(g, t) && Above(t, r, u) && t[r] != [] && v in Stretch(t, r, u)
    ensures Above(t, v, u) && |t[v]| >= |t[r]|
  {
    var i :| 0 <= i < |Stretch(t, r, u)| && Stretch(t, r, u)[i] == v;
    DepthOnBranch(g, t, u, |t[r]| - 1 + i);
    hide IsTree;
  }

  lemma InStretch(g: Graph, t: Tree, r: Module, u: Module, v: Module)
    requires IsTree(g, t) && Above(t, r, u) && Above(t, v, u) && |t[r]| <= |t[v]| && t[r] != []
    ensures v in Stretch(t, r, u)
  {
    OnBranch(g, t, v, u);
    assert Stretch(t, r, u)[|t[v]| - |t[r]|] == v;
  }

  /** An import that leads back up closes this loop. */
  ghost predicate Closes(g: Graph, t: Tree, r: Module, u: Module) {
    Above(t, r, u) && t[r] != [] && Edge(g, u, r)
  }

  ghost function ClosedLoop(t: Tree, r: Module, u: Module): seq<Module>
    requires Above(t, r, u) && t[r] != []
  {
    Stretch(t, r, u) + [r]
  }

  // --- without branches inside a component, every loop is a stretch --------------------------------

  /** No import between two modules of one component is passed over: it was descended along,
      or it leads back up. */
  ghost predicate NothingPassedOver(g: Graph, t: Tree) {
    forall u, w | Edge(g, u, w) && Reaches(g, w, u) :: Descended(t, u, w) || Above(t, w, u)
  }

  function Rotated(c: seq<Module>, k: nat): seq<Module>
    requires k < |c|
  {
    c[k..|c| - 1] + c[..k + 1]
  }

  /** Where entry i of the rotated loop stood. */
  function Before(c: seq<Module>, k: nat, i: nat): (j: nat)
    requires k < |c| - 1 && i < |c|
    ensures j < |c|
  {
    if k + i < |c| - 1 then k + i else k + i - (|c| - 1)
  }

  lemma RotatedAt(c: seq<Module>, k: nat, i: nat)
    requires k < |c| - 1 && i < |c|
    ensures |Rotated(c, k)| == |c| && Rotated(c, k)[i] == c[Before(c, k, i)]
  {
  }

  lemma RotatedSteps(g: Graph, c: seq<Module>, k: nat, i: nat)
    requires IsLoop(g, c) && k < |c| - 1 && i < |c| - 1
    ensures Rotated(c, k) != [] && Edge(g, Rotated(c, k)[i], Rotated(c, k)[i + 1])
  {
    RotatedAt(c, k, i);
    RotatedAt(c, k, i + 1);
    hide Rotated, Edge, NoDuplicates;
    var j := Before(c, k, i);
    assert j < |c| - 1 ==> Edge(g, c[j], c[j + 1]);
    assert c[Before(c, k, i + 1)] == c[j + 1];
  }

  lemma RotatedHolds(c: seq<Module>, k: nat)
    requires k < |c| - 1 && c[0] == c[|c| - 1]
    ensures Elements(Rotated(c, k)) == Elements(c)
  {
    var m := |c| - 1;
    var d := Rotated(c, k);
    forall i | 0 <= i < |c|
      ensures d[i] == c[Before(c, k, i)]
    {
      RotatedAt(c, k, i);
    }
    forall j | 0 <= j < |c|
      ensures c[j] in d
    {
      var i := if j == m then m - k else if j >= k then j - k else m - k + j;
      assert c[Before(c, k, i)] == c[j];
      assert d[i] in d;
    }
    hide Rotated;
    assert forall i | 0 <= i < |d| :: d[i] in c;
  }

  lemma RotatedIsLoop(g: Graph, c: seq<Module>, k: nat)
    requires IsLoop(g, c) && k < |c| - 1
    ensures |Rotated(c, k)| == |c| && IsLoop(g, Rotated(c, k)) && Rotated(c, k)[0] == c[k]
    ensures Elements(Rotated(c, k)) == Elements(c)
  {
    var d := Rotated(c, k);
    RotatedHolds(c, k);
    forall i | 0 <= i < |c|
      ensures d[i] == c[Before(c, k, i)] && d[i] in g
    {
      RotatedAt(c, k, i);
    }
    forall i | 0 <= i < |c| - 1
      ensures Edge(g, d[i], d[i + 1])
    {
      RotatedSteps(g, c, k, i);
    }
    hide Rotated, Edge;
    forall i, j | 0 <= i < j < |c| - 1
      ensures d[i] != d[j]
    {
      assert c[Before(c, k, i)] == c[..|c| - 1][Before(c, k, i)];
      assert c[Before(c, k, j)] == c[..|c| - 1][Before(c, k, j)];
    }
  }

  /** Along a loop, each next module reaches the one before. */
  lemma LoopsComeBack(g: Graph, c: seq<Module>, j: nat)
    requires IsLoop(g, c) && j < |c| - 1
    ensures Edge(g, c[j], c[j + 1]) && Reaches(g, c[j + 1], c[j])
  {
    var m := |c| - 1;
    var k := if j + 1 == m then 0 else j + 1;
    RotatedIsLoop(g, c, k);
    var d := Rotated(c, k);
    PathPart(g, d, 0, m);
    assert d[0..m][m - 1] == d[m - 1] == c[j];
    assert IsWalk(g, d[0..m], c[j + 1], c[j]);
  }

  lemma TopOfLoop(t: Tree, c: seq<Module>) returns (k: nat)
    requires |c| >= 2 && c[0] == c[|c| - 1] && forall i | 0 <= i < |c| :: c[i] in t
    ensures k < |c| - 1 && forall i | 0 <= i < |c| :: |t[c[k]]| <= |t[c[i]]|
  {
    k := 0;
    var i := 1;
    while i < |c| - 1
      invariant 1 <= i <= |c| - 1 && k < |c| - 1
      invariant forall j | 0 <= j < i :: |t[c[k]]| <= |t[c[j]]|
    {
      if |t[c[i]]| < |t[c[k]]| {
        k := i;
      }
      i := i + 1;
    }
  }

  /** The next module of a loop that has run straight down is not back on its way. */
  lemma NotBackYet(g: Graph, t: Tree, c: seq<Module>, j: nat)
    requires IsTree(g, t) && IsLoop(g, c) && 0 < j < |c| - 1 && c[0] in t && c[j - 1] in t && c[j] in t
    requires t[c[j - 1]] == t[c[0]] + c[1..j] && |t[c[0]]| <= |t[c[j]]|
    ensures !Above(t, c[j], c[j - 1])
  {
    var u, w := c[j - 1], c[j];
    OnBranch(g, t, w, u);
    assert IsBranch(g, t, c[0]);
    hide IsTree, IsPath, Above;
    forall i | |t[c[0]]| - 1 <= i < |t[u]|
      ensures t[u][i] != w
    {
      var k := i - (|t[c[0]]| - 1);
      assert t[u][i] == c[k];
      assert c[..|c| - 1][k] != c[..|c| - 1][j];
    }
  }

  /** From its topmost module on, a loop runs straight down the tree. */
  lemma {:induction false} RunsDown(g: Graph, t: Tree, c: seq<Module>, j: nat)
    requires IsTree(g, t) && t.Keys == g.Keys && NothingPassedOver(g, t)
    requires IsLoop(g, c) && forall i | 0 <= i < |c| :: |t[c[0]]| <= |t[c[i]]|
    requires j < |c| - 1
    ensures t[c[j]] == t[c[0]] + c[1..j + 1]
  {
    if j > 0 {
      RunsDown(g, t, c, j - 1);
      LoopsComeBack(g, c, j - 1);
      NotBackYet(g, t, c, j);
      hide IsTree, Above, Reaches, Edge, IsPath, NoDuplicates;
      assert c[1..j + 1] == c[1..j] + [c[j]];
    }
  }

  lemma LoopsAreStretches(g: Graph, t: Tree, c: seq<Module>) returns (r: Module, u: Module)
    requires IsTree(g, t) && t.Keys == g.Keys && NothingPassedOver(g, t) && IsLoop(g, c)
    ensures Closes(g, t, r, u) && Elements(c) == Elements(Stretch(t, r, u))
  {
    var k := TopOfLoop(t, c);
    RotatedIsLoop(g, c, k);
    var d := Rotated(c, k);
    forall i | 0 <= i < |d|
      ensures |t[d[0]]| <= |t[d[i]]|
    {
      assert d[i] in Elements(d);
      var j :| 0 <= j < |c| && c[j] == d[i];
    }
    var m := |d| - 1;
    RunsDown(g, t, d, m - 1);
    r, u := d[0], d[m - 1];
    assert Edge(g, d[m - 1], d[m]);
    assert IsBranch(g, t, r);
    assert Stretch(t, r, u) == d[..m];
    forall x
      ensures x in Elements(d) <==> x in Elements(d[..m])
    {
      if x in Elements(d) {
        var i :| 0 <= i < |d| && d[i] == x;
        assert d[..m][if i == m then 0 else i] == x;
      }
    }
  }

  // --- and an import passed over yields a loop that is none --------------------------------------

  /** Some closed stretch has exactly these modules. */
  ghost predicate IsStretchSet(g: Graph, t: Tree, modules: set<Module>) {
    exists r, u :: Closes(g, t, r, u) && Elements(Stretch(t, r, u)) == modules
  }

  /** Two modules of a stretch are above one another, and so is what lies between. */
  lemma StretchIsAChain(g: Graph, t: Tree, r: Module, u: Module, a: Module, b: Module)
    requires IsTree(g, t) && Above(t, r, u) && t[r] != [] && a in Stretch(t, r, u) && b in Stretch(t, r, u)
    ensures Above(t, a, b) || Above(t, b, a)
    ensures Above(t, a, b) ==> forall v | Above(t, a, v) && Above(t, v, b) :: v in Stretch(t, r, u)
  {
    StretchHolds(g, t, r, u, a);
    StretchHolds(g, t, r, u, b);
    hide IsTree;
    if |t[a]| <= |t[b]| {
      assert t[a] == t[u][..|t[a]|] == t[b][..|t[a]|];
    } else {
      assert t[b] == t[u][..|t[b]|] == t[a][..|t[b]|];
    }
    if Above(t, a, b) {
      forall v | Above(t, a, v) && Above(t, v, b)
        ensures v in Stretch(t, r, u)
      {
        InStretch(g, t, r, u, v);
      }
    }
  }

  lemma StretchTop(g: Graph, t: Tree, r: Module, x: Module, u: Module)
    requires IsTree(g, t) && Above(t, r, x) && t[r] != [] && u in Stretch(t, r, x)
    ensures Above(t, r, u)
  {
    StretchHolds(g, t, r, x, u);
    hide IsTree;
    assert t[r] == t[x][..|t[r]|] == t[u][..|t[r]|];
  }

  lemma EdgeAndPath(g: Graph, p: seq<Module>, u: Module, w: Module)
    requires IsSimple(g, p, w, u) && Edge(g, u, w)
    ensures IsLoop(g, [u] + p) && u in [u] + p && w in [u] + p
  {
    var c := [u] + p;
    assert c[..|c| - 1] == [u] + p[..|p| - 1];
    PathsJoin(g, [u], p);
    forall i | 0 <= i < |c|
      ensures c[i] in g
    {
      if i < |c| - 1 {
        assert Edge(g, c[i], c[i + 1]);
      }
    }
    forall i, j | 0 <= i < j < |c| - 1
      ensures c[i] != c[j]
    {
      if i == 0 {
        assert p[j - 1] != p[|p| - 1];
      }
    }
  }

  /** A passed-over import inside a component closes a loop whose modules are no closed stretch. */
  lemma PassedOverIsMissed(g: Graph, t: Tree, u: Module, w: Module) returns (c: seq<Module>)
    requires IsTree(g, t) && t.Keys == g.Keys
    requires Edge(g, u, w) && Reaches(g, w, u) && !Descended(t, u, w) && !Above(t, w, u)
    ensures IsLoop(g, c) && !IsStretchSet(g, t, Elements(c))
  {
    var p :| IsWalk(g, p, w, u);
    p := WalkShortens(g, p, w, u);
    EdgeAndPath(g, p, u, w);
    c := [u] + p;
    assert u in Elements(c) && w in Elements(c);
    if IsStretchSet(g, t, Elements(c)) {
      var r, x :| Closes(g, t, r, x) && Elements(Stretch(t, r, x)) == Elements(c);
      StretchIsAChain(g, t, r, x, u, w);
      StretchHolds(g, t, r, x, w);
      StretchTop(g, t, r, x, u);
      c := ShortCut(g, t, u, w, r, x);
    }
  }

  lemma OneBelow(g: Graph, t: Tree, u: Module, w: Module)
    requires IsTree(g, t) && Above(t, u, w)
    ensures |t[w]| <= |t[u]| + 1 ==> u == w || Descended(t, u, w)
  {
    assert IsBranch(g, t, w) && IsBranch(g, t, u);
    if |t[w]| <= |t[u]| + 1 {
      if |t[w]| == |t[u]| {
        assert t[w] == t[u];
      } else {
        assert t[w] == t[u] + [w];
      }
    }
  }

  /** The module just below u on the way to w. */
  lemma NextBelow(g: Graph, t: Tree, u: Module, w: Module) returns (v: Module)
    requires IsTree(g, t) && Above(t, u, w) && !Descended(t, u, w) && u != w
    ensures Above(t, u, v) && Above(t, v, w) && |t[u]| < |t[v]| < |t[w]|
  {
    OneBelow(g, t, u, w);
    assert IsBranch(g, t, w);
    var i := |t[u]|;
    v := t[w][i];
    assert t[v] == t[w][..i + 1];
  }

  /** Entry k of two pieces of a branch put together stood here. */
  function Origin(n: nat, at: nat, j: nat, k: nat): int
  {
    if k < n - j then j + k else at + k - (n - j)
  }

  lemma TwoPieces(b: seq<Module>, at: nat, i: nat, j: nat)
    requires NoDuplicates(b) && at <= i < j < |b|
    ensures NoDuplicates(b[j..] + b[at..i + 1])
    ensures forall k | 0 <= k < |b[j..] + b[at..i + 1]| ::
              (b[j..] + b[at..i + 1])[k] == b[Origin(|b|, at, j, k)]
  {
  }

  /** What lies strictly between u and w on the branch is in neither piece. */
  lemma NotInPieces(g: Graph, t: Tree, x: Module, v: Module, at: nat, i: nat, j: nat)
    requires IsTree(g, t) && x in t && at <= i < j < |t[x]| && v in t && i + 1 < |t[v]| < j + 1
    ensures v !in t[x][j..] + t[x][at..i + 1]
  {
    var b := t[x];
    var p := b[j..] + b[at..i + 1];
    assert IsBranch(g, t, x);
    TwoPieces(b, at, i, j);
    hide IsTree, NoDuplicates, IsPath;
    forall k | 0 <= k < |p|
      ensures p[k] != v
    {
      var m := Origin(|b|, at, j, k);
      assert p[k] == b[m] && |t[b[m]]| == m + 1;
    }
  }

  lemma PiecesAreAWalk(g: Graph, b: seq<Module>, at: nat, i: nat, j: nat)
    requires IsPath(g, b) && at <= i < j < |b| && Edge(g, b[|b| - 1], b[at])
    ensures IsWalk(g, b[j..] + b[at..i + 1], b[j], b[i])
  {
    PathPart(g, b, j, |b|);
    PathPart(g, b, at, i + 1);
    assert b[j..|b|] == b[j..];
    PathsJoin(g, b[j..], b[at..i + 1]);
  }

  /** Down from w to x, up to r, and down to u, around a module in between. */
  lemma AroundTheMiddle(g: Graph, t: Tree, u: Module, v: Module, w: Module, r: Module, x: Module) returns (p: seq<Module>)
    requires IsTree(g, t) && Above(t, u, w) && Above(t, r, u) && Above(t, w, x) && Closes(g, t, r, x)
    requires v in t && |t[u]| < |t[v]| < |t[w]|
    ensures IsSimple(g, p, w, u) && v !in p
  {
    var b := t[x];
    var at, i, j := OneBranch(g, t, u, w, r, x);
    PiecesAreAWalk(g, b, at, i, j);
    TwoPieces(b, at, i, j);
    NotInPieces(g, t, x, v, at, i, j);
    p := b[j..] + b[at..i + 1];
    hide IsTree, Above, Closes, IsPath, NoDuplicates, IsWalk;
  }

  lemma OneBranch(g: Graph, t: Tree, u: Module, w: Module, r: Module, x: Module) returns (at: nat, i: nat, j: nat)
    requires IsTree(g, t) && Above(t, u, w) && Above(t, r, u) && Above(t, w, x) && Closes(g, t, r, x)
    requires |t[u]| < |t[w]|
    ensures at <= i < j < |t[x]| && i == |t[u]| - 1 && j == |t[w]| - 1
    ensures t[x][at] == r && t[x][i] == u && t[x][j] == w && Edge(g, t[x][|t[x]| - 1], r)
    ensures NoDuplicates(t[x]) && IsPath(g, t[x])
  {
    OnBranch(g, t, r, x);
    OnBranch(g, t, w, x);
    OnBranch(g, t, u, x);
    assert IsBranch(g, t, x) && IsBranch(g, t, r);
    at, i, j := |t[r]| - 1, |t[u]| - 1, |t[w]| - 1;
  }

  lemma ShortCut(g: Graph, t: Tree, u: Module, w: Module, r: Module, x: Module) returns (c: seq<Module>)
    requires IsTree(g, t) && t.Keys == g.Keys
    requires Edge(g, u, w) && !Descended(t, u, w) && !Above(t, w, u) && Above(t, u, w)
    requires Closes(g, t, r, x) && Above(t, r, u) && Above(t, w, x)
    ensures IsLoop(g, c) && !IsStretchSet(g, t, Elements(c))
  {
    assert u != w;
    var v := NextBelow(g, t, u, w);
    var p := AroundTheMiddle(g, t, u, v, w, r, x);
    EdgeAndPath(g, p, u, w);
    c := [u] + p;
    assert u in Elements(c) && w in Elements(c) && v !in Elements(c);
    hide IsTree, IsLoop, Closes;
    forall r', x' | Closes(g, t, r', x') && Above(t, r', x') && t[r'] != [] && u in Elements(Stretch(t, r', x')) && w in Elements(Stretch(t, r', x'))
      ensures v in Elements(Stretch(t, r', x'))
    {
      StretchIsAChain(g, t, r', x', u, w);
    }
  }
}
