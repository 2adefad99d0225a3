/** The import-cycle search as the code runs it (pkg/mib/cycle.go:129-197), and what its
    reports are worth. */
module CycleSearch {
  import opened Basics
  import opened Text
  import opened Cycle

  // --- the search itself ---------------------------------------------------------------------

  lemma NothingToSearch(g: Graph, s: State)
    ensures SearchFrom(g, s, []) == s
  {
  }

  class Search {
    const graph: Graph
    var colour: map<Module, Colour>
    var stack: seq<Module>
    var found: seq<seq<Module>>
    var seen: set<string>
    ghost var rank: map<Module, nat>
    ghost var clock: nat
    ghost var start: map<Module, nat>
    ghost var path: map<Module, seq<Module>>

    ghost function View(): State
      reads this
    {
      State(colour, stack, found, seen, rank, clock, start, path)
    }

    constructor (graph: Graph)
      ensures this.graph == graph && View() == Unsearched
    {
      this.graph := graph;
      colour, stack, found, seen := map[], [], [], {};
      rank, clock, start, path := map[], 0, map[], map[];
    }

    /** Meeting a module on the current path: the loop is the stack from there. */
    method Report(next: Module)
      modifies this`found, this`seen
      ensures View() == Meet(old(View()), next)
    {
      var at := 0;
      var i := 0;
      while i < |stack|
        invariant 0 <= i <= |stack| && at == 0
        invariant forall k | 0 <= k < i :: stack[k] != next
      {
        if stack[i] == next {
          at := i;
          FirstIndexIs(stack, next, at);
          break;
        }
        i := i + 1;
      }
      assert at == if stack == [] then 0 else FirstIndex(stack, next);
      hide FirstIndex, KeyOf;
      var loop := stack[at..] + [next];
      var key := KeyOf(loop);
      if key !in seen {
        seen := seen + {key};
        found := found + [loop];
      }
    }

    /** One import of the module on top of the stack. */
    method Visit(next: Module)
      modifies this
      ensures View() == VisitOne(graph, old(View()), next)
      decreases graph.Keys - colour.Keys, 1
    {
      hide Meet, WalkFrom;
      if next !in colour {
        if next in graph {
          Walk(next);
        }
      } else if colour[next] == Grey {
        Report(next);
      }
    }

    /** The inner walk. */
    method Walk(node: Module)
      requires node in graph && node !in colour
      modifies this
      ensures View() == WalkFrom(graph, old(View()), node)
      decreases graph.Keys - colour.Keys, 0
    {
      hide VisitOne, VisitFrom, WalkFrom;
      WalkUnfolds(graph, View(), node);
      colour := colour[node := Grey];
      stack := stack + [node];
      start := start[node := clock];
      path := path[node := stack];
      assert View() == Enter(old(View()), node);
      assert node in graph.Keys - old(colour).Keys && node !in graph.Keys - colour.Keys;
      var i := 0;
      while i < |graph[node]|
        invariant 0 <= i <= |graph[node]|
        invariant stack == old(stack) + [node] && old(colour).Keys + {node} <= colour.Keys
        invariant VisitFrom(graph, Enter(old(View()), node), node, 0) == VisitFrom(graph, View(), node, i)
      {
        VisitUnfolds(graph, View(), node, i);
        Visit(graph[node][i]);
        i := i + 1;
      }
      VisitUnfolds(graph, View(), node, i);
      ghost var last := View();
      stack := stack[..|stack| - 1];
      colour := colour[node := Black];
      rank := rank[node := clock];
      clock := clock + 1;
      assert View() == Leave(last);
    }

    /** The outer loop: every module in turn, unless met before. */
    method WalkAll(nodes: seq<Module>)
      requires forall i | 0 <= i < |nodes| :: nodes[i] in graph
      modifies this
      ensures View() == SearchFrom(graph, old(View()), nodes)
    {
      assert nodes[0..] == nodes;
      hide *;
      var i := 0;
      while i < |nodes|
        invariant 0 <= i <= |nodes|
        invariant SearchFrom(graph, old(View()), nodes) == SearchFrom(graph, View(), nodes[i..])
      {
        SearchSteps(graph, View(), nodes, i);
        if nodes[i] !in colour {
          Walk(nodes[i]);
        }
        i := i + 1;
      }
      assert nodes[i..] == [];
      NothingToSearch(graph, View());
    }
  }

  method KeysOf(g: Graph) returns (keys: seq<Module>)
    ensures NoDuplicates(keys) && forall k :: k in keys <==> k in g
  {
    keys := [];
    var rest := g.Keys;
    while rest != {}
      invariant rest <= g.Keys
      invariant NoDuplicates(keys) && forall k :: k in keys <==> k in g && k !in rest
      decreases rest
    {
      var k := Pick(rest);
      keys := keys + [k];
      rest := rest - {k};
    }
  }

  ghost predicate Ascends(xs: seq<string>) {
    forall i, j | 0 <= i < j < |xs| :: AtMost(xs[i], xs[j])
  }

  lemma {:induction false} InsertKeepsOrder(x: string, xs: seq<string>)
    requires Ascends(xs)
    ensures Ascends(InsertSorted(x, xs))
  {
    if xs != [] {
      AtMostIsTotal(x, xs[0]);
      if AtMost(x, xs[0]) {
        forall i | 1 <= i < |xs|
          ensures AtMost(x, xs[i])
        {
          AtMostIsTransitive(x, xs[0], xs[i]);
        }
      } else {
        InsertKeepsOrder(x, xs[1..]);
        InsertKeepsElements(x, xs[1..]);
        var r := InsertSorted(x, xs[1..]);
        hide AtMost;
        forall i | 0 <= i < |r|
          ensures AtMost(xs[0], r[i])
        {
          assert r[i] in multiset(r);
          assert r[i] == x || r[i] in xs[1..];
        }
      }
    }
  }

  lemma {:induction false} SortAscends(xs: seq<string>)
    ensures Ascends(Sorted(xs))
  {
    if xs != [] {
      SortAscends(xs[1..]);
      InsertKeepsOrder(xs[0], Sorted(xs[1..]));
    }
  }

  lemma {:induction false} NoDuplicatesCountsOnce(xs: seq<string>)
    requires NoDuplicates(xs)
    ensures forall x :: multiset(xs)[x] <= 1
  {
    if xs != [] {
      var front, last := xs[..|xs| - 1], xs[|xs| - 1];
      assert xs == front + [last];
      NoDuplicatesCountsOnce(front);
      assert last !in front;
    }
  }

  lemma {:induction false} CountsOnceNoDuplicates(xs: seq<string>)
    requires forall x :: multiset(xs)[x] <= 1
    ensures NoDuplicates(xs)
  {
    if xs != [] {
      var front, last := xs[..|xs| - 1], xs[|xs| - 1];
      assert xs == front + [last];
      assert forall x :: multiset(front)[x] <= multiset(xs)[x];
      CountsOnceNoDuplicates(front);
      assert multiset(xs)[last] == multiset(front)[last] + 1;
      assert last !in multiset(front);
    }
  }

  lemma SortedIsListing(g: Graph, keys: seq<Module>)
    requires NoDuplicates(keys) && forall u :: u in keys <==> u in g
    ensures IsListing(g, Sorted(keys))
  {
    SortKeepsElements(keys);
    SortAscends(keys);
    NoDuplicatesCountsOnce(keys);
    CountsOnceNoDuplicates(Sorted(keys));
  }

  /** The order the modules are tried in: each once, ascending. */
  ghost predicate IsListing(g: Graph, nodes: seq<Module>) {
    NoDuplicates(nodes) && Ascends(nodes) && forall u :: u in nodes <==> u in g
  }

  lemma ListedAreKnown(g: Graph, nodes: seq<Module>)
    requires IsListing(g, nodes)
    ensures forall i | 0 <= i < |nodes| :: nodes[i] in g
  {
    assert forall i | 0 <= i < |nodes| :: nodes[i] in nodes;
  }

  ghost function Reports(g: Graph, nodes: seq<Module>): seq<seq<Module>>
    requires IsListing(g, nodes)
  {
    ListedAreKnown(g, nodes);
    SearchFrom(g, Unsearched, nodes).found
  }

  lemma SearchSteps(g: Graph, s: State, nodes: seq<Module>, i: nat)
    requires forall k | 0 <= k < |nodes| :: nodes[k] in g
    requires i < |nodes|
    ensures SearchFrom(g, s, nodes[i..]) ==
            SearchFrom(g, if nodes[i] in s.colour then s else WalkFrom(g, s, nodes[i]), nodes[i + 1..])
  {
    assert nodes[i..][1..] == nodes[i + 1..];
    hide WalkFrom;
  }

  /** cyclesIn: terminates with every known module finished. It reports nothing exactly
      when the graph is acyclic, and only real loops of known modules. It need not report
      every cycle; but when no name contains the separator of its deduplication key,
      every cycle passes through a module that some reported loop names. What it reports is
      the search from each module in ascending order. */
  method CyclesIn(graph: Graph) returns (found: seq<seq<Module>>, ghost nodes: seq<Module>)
    ensures forall k | 0 <= k < |found| :: IsLoop(graph, found[k])
    ensures found == [] <==> Acyclic(graph)
    ensures PipeFree(graph) ==>
              forall c | IsClosed(graph, c) :: exists i | 0 <= i < |c| :: Names(found, c[i])
    ensures IsListing(graph, nodes) && found == Reports(graph, nodes)
  {
    var search := new Search(graph);
    var keys := KeysOf(graph);
    var order := Sorted(keys);
    SortedIsListing(graph, keys);
    ListedAreKnown(graph, order);
    nodes := order;
    hide SearchFrom, IsListing, IsLoop, IsClosed, Acyclic, PipeFree, Names;
    search.WalkAll(order);
    found := search.found;
    ReportsTellCycles(graph, nodes);
  }

  /** What a finished search has reported. */
  lemma ReportsTellCycles(g: Graph, nodes: seq<Module>)
    requires IsListing(g, nodes)
    ensures forall k | 0 <= k < |Reports(g, nodes)| :: IsLoop(g, Reports(g, nodes)[k])
    ensures Reports(g, nodes) == [] <==> Acyclic(g)
    ensures PipeFree(g) ==>
              forall c | IsClosed(g, c) :: exists i | 0 <= i < |c| :: Names(Reports(g, nodes), c[i])
  {
    ListedAreKnown(g, nodes);
    assert Sound(g, Unsearched);
    SearchIsSound(g, Unsearched, nodes);
    var r := SearchFrom(g, Unsearched, nodes);
    hide SearchFrom, Sound, IsLoop, IsClosed, Names, Acyclic;
    AllFinished(g, r, nodes);
    FinishedSearch(g, r.rank, r.found);
  }

  // --- what the reports are worth -----------------------------------------------------------

  /** The same set of files always reports the same cycles: there is one ascending listing. */
  lemma {:induction false} ListingIsUnique(a: seq<Module>, b: seq<Module>)
    requires NoDuplicates(a) && Ascends(a) && NoDuplicates(b) && Ascends(b)
    requires Elements(a) == Elements(b)
    ensures a == b
  {
    SomethingIsHeld(b);
    if a == [] {
      assert Elements(a) == {};
      return;
    }
    assert a[0] in Elements(a);
    FirstIsLeast(a, b);
    FirstIsLeast(b, a);
    AtMostIsAntisymmetric(a[0], b[0]);
    assert a == [a[0]] + a[1..] && b == [b[0]] + b[1..];
    hide AtMost;
    forall x
      ensures x in a[1..] <==> x in b[1..]
    {
      assert x in Elements(a) <==> x in Elements(b);
      assert a[0] !in a[1..] && b[0] !in b[1..];
    }
    ListingIsUnique(a[1..], b[1..]);
  }

  lemma SomethingIsHeld(b: seq<Module>)
    ensures b != [] ==> Elements(b) != {}
  {
    if b != [] {
      assert b[0] in Elements(b);
    }
  }

  lemma FirstIsLeast(a: seq<Module>, b: seq<Module>)
    requires a != [] && Ascends(b) && a[0] in Elements(b)
    ensures b != [] && AtMost(b[0], a[0])
  {
    var k :| 0 <= k < |b| && b[k] == a[0];
    if k == 0 {
      AtMostIsTotal(a[0], a[0]);
    }
  }

  lemma SameModulesSameReports(g: Graph, a: seq<Module>, b: seq<Module>)
    requires IsListing(g, a) && IsListing(g, b)
    ensures Reports(g, a) == Reports(g, b)
  {
    ListingIsUnique(a, b);
  }

  /** Two loops that share the import of a by c: a, b, c and a, c. */
  ghost predicate TwoLoops(g: Graph, a: Module, b: Module, c: Module) {
    a != b && b != c && a != c && g.Keys == {a, b, c} && g[a] == [b, c] && g[b] == [c] && g[c] == [a]
  }

  lemma OneImport(g: Graph, s: State, node: Module)
    requires node in g && node !in s.colour && |g[node]| == 1
    ensures VisitOne(g, Enter(s, node), g[node][0]).stack != []
    ensures WalkFrom(g, s, node) == Leave(VisitOne(g, Enter(s, node), g[node][0]))
  {
    WalkUnfolds(g, s, node);
    VisitUnfolds(g, Enter(s, node), node, 0);
    hide VisitFrom, WalkFrom, VisitOne;
    VisitUnfolds(g, VisitOne(g, Enter(s, node), g[node][0]), node, 1);
  }

  lemma TwoImports(g: Graph, s: State, node: Module)
    requires node in g && node !in s.colour && |g[node]| == 2
    ensures var v := VisitOne(g, VisitOne(g, Enter(s, node), g[node][0]), g[node][1]);
            v.stack != [] && WalkFrom(g, s, node) == Leave(v)
  {
    WalkUnfolds(g, s, node);
    VisitUnfolds(g, Enter(s, node), node, 0);
    hide VisitFrom, WalkFrom, VisitOne;
    var v := VisitOne(g, Enter(s, node), g[node][0]);
    VisitUnfolds(g, v, node, 1);
    VisitUnfolds(g, VisitOne(g, v, g[node][1]), node, 2);
  }

  lemma VisitIs(g: Graph, s: State, next: Module)
    ensures next !in s.colour && next in g ==> VisitOne(g, s, next) == WalkFrom(g, s, next)
    ensures next in s.colour && s.colour[next] == Grey ==> VisitOne(g, s, next) == Meet(s, next)
    ensures next in s.colour && s.colour[next] == Black ==> VisitOne(g, s, next) == s
  {
    hide WalkFrom, Meet;
  }

  lemma FirstMeeting(s: State, next: Module)
    requires s.stack != [] && s.stack[0] == next && s.seen == {} && s.found == []
    ensures Meet(s, next).found == [s.stack + [next]]
    ensures Meet(s, next).colour == s.colour && Meet(s, next).stack == s.stack
  {
    FirstIndexIs(s.stack, next, 0);
    hide KeyOf, FirstIndex;
    assert s.stack[0..] == s.stack;
  }

  lemma EnterIs(s: State, node: Module)
    ensures var e := Enter(s, node);
            e.colour == s.colour[node := Grey] && e.stack == s.stack + [node] && e.seen == s.seen && e.found == s.found
  {
  }

  lemma LeaveIs(s: State, stack: seq<Module>, node: Module)
    requires s.stack == stack + [node]
    ensures Leave(s).colour == s.colour[node := Black] && Leave(s).found == s.found
  {
  }

  /** c is met on the path a, b: its import of a closes the one loop reported. */
  lemma WalkOfC(g: Graph, s: State, a: Module, b: Module, c: Module)
    requires TwoLoops(g, a, b, c)
    requires a in s.colour && s.colour[a] == Grey && c !in s.colour
    requires s.stack == [a, b] && s.seen == {} && s.found == []
    ensures var r := WalkFrom(g, s, c);
            r.found == [[a, b, c, a]] && c in r.colour && r.colour[c] == Black
  {
    assert c in g && g[c] == [a];
    hide *;
    OneImport(g, s, c);
    EnterIs(s, c);
    var e := Enter(s, c);
    VisitIs(g, e, a);
    FirstMeeting(e, a);
    LeaveIs(Meet(e, a), s.stack, c);
    assert e.stack + [a] == [a, b, c, a];
  }

  lemma WalkOfB(g: Graph, s: State, a: Module, b: Module, c: Module)
    requires TwoLoops(g, a, b, c)
    requires a in s.colour && s.colour[a] == Grey && b !in s.colour && c !in s.colour
    requires s.stack == [a] && s.seen == {} && s.found == []
    ensures var r := WalkFrom(g, s, b);
            r.found == [[a, b, c, a]] && c in r.colour && r.colour[c] == Black
  {
    assert b in g && g[b] == [c] && a != b && b != c && c in g;
    hide *;
    OneImport(g, s, b);
    EnterIs(s, b);
    var e := Enter(s, b);
    VisitIs(g, e, c);
    assert e.stack == [a, b];
    WalkOfC(g, e, a, b, c);
    LeaveIs(WalkFrom(g, e, c), s.stack, b);
  }

  /** When a reaches its second import, c is finished, and the loop a, c is passed over. */
  lemma WalkOfA(g: Graph, a: Module, b: Module, c: Module)
    requires TwoLoops(g, a, b, c)
    ensures var r := WalkFrom(g, Unsearched, a);
            r.found == [[a, b, c, a]] && {a, b, c} <= r.colour.Keys
  {
    assert a in g && g[a] == [b, c] && a != b && b != c && a != c && b in g;
    hide *;
    TwoImports(g, Unsearched, a);
    EnterIs(Unsearched, a);
    var e := Enter(Unsearched, a);
    VisitIs(g, e, b);
    VisitIs(g, VisitOne(g, e, b), c);
    assert e.stack == [a];
    WalkOfB(g, e, a, b, c);
    LeaveIs(WalkFrom(g, e, b), [], a);
  }

  lemma ShortLoopIsALoop(g: Graph, a: Module, b: Module, c: Module)
    requires TwoLoops(g, a, b, c)
    ensures IsLoop(g, [a, c, a])
  {
    assert [a, c, a][..2] == [a, c];
  }

  lemma OnlyTheLongLoop(g: Graph, a: Module, b: Module, c: Module)
    requires TwoLoops(g, a, b, c) && IsListing(g, [a, b, c])
    ensures Reports(g, [a, b, c]) == [[a, b, c, a]]
  {
    var nodes := [a, b, c];
    ListedAreKnown(g, nodes);
    WalkOfA(g, a, b, c);
    var r := WalkFrom(g, Unsearched, a);
    hide WalkFrom, IsListing, SearchFrom, TwoLoops;
    SearchUnfolds(g, Unsearched, nodes);
    assert nodes[1..] == [b, c];
    SearchUnfolds(g, r, [b, c]);
    assert [b, c][1..] == [c];
    SearchUnfolds(g, r, [c]);
    assert [c][1..] == [];
  }

  lemma ListingOfABC(g: Graph)
    requires g.Keys == {"A", "B", "C"}
    ensures IsListing(g, ["A", "B", "C"])
  {
  }

  /** A loop that closes on a module already finished is not reported: of A -> B -> C -> A and
      A -> C -> A, only the first is. */
  lemma NotEveryCycleIsReported(g: Graph)
    requires TwoLoops(g, "A", "B", "C")
    ensures IsListing(g, ["A", "B", "C"]) && IsLoop(g, ["A", "C", "A"])
    ensures forall k | 0 <= k < |Reports(g, ["A", "B", "C"])| ::
              Elements(Reports(g, ["A", "B", "C"])[k]) != Elements(["A", "C", "A"])
  {
    ListingOfABC(g);
    OnlyTheLongLoop(g, "A", "B", "C");
    ShortLoopIsALoop(g, "A", "B", "C");
    hide IsListing, Reports, IsLoop;
    assert "B" in Elements(["A", "B", "C", "A"]) && "B" !in Elements(["A", "C", "A"]);
  }
}
