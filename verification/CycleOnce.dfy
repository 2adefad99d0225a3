/** No loop is reported twice (pkg/mib/cycle.go:163-168). */
module CycleOnce {
  import opened Basics
  import opened Text
  import opened Cycle
  import opened CycleSearch

  // --- a sorted list is its multiset -------------------------------------------------------

  lemma FirstIsLeastOf(a: seq<string>, b: seq<string>)
    requires Ascends(a) && Ascends(b) && multiset(a) == multiset(b) && a != [] && b != []
    ensures a[0] == b[0]
  {
    assert a[0] in multiset(a) && b[0] in multiset(b);
    var k :| 0 <= k < |b| && b[k] == a[0];
    var m :| 0 <= m < |a| && a[m] == b[0];
    AtMostIsTotal(a[0], a[0]);
    AtMostIsTotal(b[0], b[0]);
    assert AtMost(b[0], a[0]) && AtMost(a[0], b[0]);
    AtMostIsAntisymmetric(a[0], b[0]);
  }

  lemma TailAscends(a: seq<string>)
    requires Ascends(a) && a != []
    ensures Ascends(a[1..])
  {
    hide AtMost;
  }

  lemma {:induction false} AscendingIsUnique(a: seq<string>, b: seq<string>)
    requires Ascends(a) && Ascends(b) && multiset(a) == multiset(b)
    ensures a == b
  {
    assert |a| == |multiset(a)| && |b| == |multiset(b)|;
    if a != [] {
      hide AtMost;
      FirstIsLeastOf(a, b);
      assert a == [a[0]] + a[1..] && b == [b[0]] + b[1..];
      assert multiset(a[1..]) == multiset(a) - multiset{a[0]} && multiset(b[1..]) == multiset(b) - multiset{b[0]};
      TailAscends(a);
      TailAscends(b);
      AscendingIsUnique(a[1..], b[1..]);
    }
  }

  /** The key of a report is one of its modules, whatever their order. */
  lemma KeyIsOfTheModules(a: seq<Module>, b: seq<Module>)
    requires multiset(a) == multiset(b)
    ensures KeyOf(a) == KeyOf(b)
  {
    SortAscends(a);
    SortAscends(b);
    SortKeepsElements(a);
    SortKeepsElements(b);
    AscendingIsUnique(Sorted(a), Sorted(b));
  }

  // --- each key once ------------------------------------------------------------------------

  ghost predicate Once(s: State) {
    && (forall k | 0 <= k < |s.found| :: KeyOf(s.found[k]) in s.seen)
    && forall i, j | 0 <= i < j < |s.found| :: KeyOf(s.found[i]) != KeyOf(s.found[j])
  }

  lemma MeetingIsOnce(s: State, next: Module)
    requires Once(s)
    ensures Once(Meet(s, next))
  {
    hide KeyOf, FirstIndex;
  }

  lemma OthersAreOnce(s: State, node: Module)
    requires Once(s)
    ensures Once(Enter(s, node)) && (s.stack != [] ==> Once(Leave(s)))
  {
    hide KeyOf;
  }

  lemma {:induction false} VisitOneIsOnce(g: Graph, s: State, next: Module)
    requires Once(s)
    ensures Once(VisitOne(g, s, next))
    decreases g.Keys - s.colour.Keys, 1, 0
  {
    hide Once, Meet, WalkFrom;
    if next !in s.colour {
      if next in g {
        WalkIsOnce(g, s, next);
      }
    } else if s.colour[next] == Grey {
      MeetingIsOnce(s, next);
    }
  }

  lemma {:induction false} VisitFromIsOnce(g: Graph, s: State, node: Module, i: nat)
    requires node in g && i <= |g[node]| && Once(s)
    ensures Once(VisitFrom(g, s, node, i))
    decreases g.Keys - s.colour.Keys, 2, |g[node]| - i
  {
    hide Once, VisitOne, VisitFrom;
    VisitUnfolds(g, s, node, i);
    if i < |g[node]| {
      VisitOneIsOnce(g, s, g[node][i]);
      VisitFromIsOnce(g, VisitOne(g, s, g[node][i]), node, i + 1);
    }
  }

  lemma {:induction false} WalkIsOnce(g: Graph, s: State, node: Module)
    requires node in g && node !in s.colour && Once(s)
    ensures Once(WalkFrom(g, s, node))
    decreases g.Keys - s.colour.Keys, 0, 0
  {
    hide Once, VisitFrom, WalkFrom;
    WalkUnfolds(g, s, node);
    var e := Enter(s, node);
    assert node in g.Keys - s.colour.Keys && node !in g.Keys - e.colour.Keys;
    assert g.Keys - e.colour.Keys <= g.Keys - s.colour.Keys;
    OthersAreOnce(s, node);
    VisitFromIsOnce(g, e, node, 0);
    OthersAreOnce(VisitFrom(g, e, node, 0), node);
  }

  lemma {:induction false} SearchIsOnce(g: Graph, s: State, nodes: seq<Module>)
    requires (forall i | 0 <= i < |nodes| :: nodes[i] in g) && Once(s)
    ensures Once(SearchFrom(g, s, nodes))
    decreases |nodes|
  {
    hide Once, WalkFrom, SearchFrom;
    if nodes == [] {
      NothingToSearch(g, s);
    } else {
      SearchUnfolds(g, s, nodes);
      if nodes[0] !in s.colour {
        WalkIsOnce(g, s, nodes[0]);
      }
      SearchIsOnce(g, if nodes[0] in s.colour then s else WalkFrom(g, s, nodes[0]), nodes[1..]);
    }
  }

  /** No two reports name the same modules, the one they return to twice. */
  lemma NoLoopIsReportedTwice(g: Graph, nodes: seq<Module>, i: nat, j: nat)
    requires IsListing(g, nodes) && i < j < |Reports(g, nodes)|
    ensures multiset(Reports(g, nodes)[i]) != multiset(Reports(g, nodes)[j])
  {
    ListedAreKnown(g, nodes);
    assert Once(Unsearched);
    SearchIsOnce(g, Unsearched, nodes);
    hide SearchFrom, KeyOf;
    if multiset(Reports(g, nodes)[i]) == multiset(Reports(g, nodes)[j]) {
      KeyIsOfTheModules(Reports(g, nodes)[i], Reports(g, nodes)[j]);
    }
  }
}
