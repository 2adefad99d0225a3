/** Small vocabulary shared by the models: optional values, bounds, and the sets
    and multisets behind a sequence. */
module Basics {

  datatype Option<+T> = None | Some(value: T) {
    function GetOr(default: T): T {
      match this
      case Some(v) => v
      case None => default
    }
  }

  function Max(a: int, b: int): int { if a < b then b else a }

  function Min(a: int, b: int): int { if a < b then a else b }

  /** The distinct elements of a sequence. */
  function Elements<T(==)>(xs: seq<T>): set<T> { set x | x in xs }

  ghost predicate NoDuplicates<T(!new)>(xs: seq<T>) {
    forall i, j | 0 <= i < j < |xs| :: xs[i] != xs[j]
  }

  lemma ElementsAppend<T>(xs: seq<T>, ys: seq<T>)
    ensures Elements(xs + ys) == Elements(xs) + Elements(ys)
  {
  }

  lemma Member<T>(s: set<T>) returns (x: T)
    requires s != {}
    ensures x in s
  {
    x :| x in s;
  }

  /** Some element of a set: ranging over a map visits its keys in no set order. */
  method Pick<T>(s: set<T>) returns (x: T)
    requires s != {}
    ensures x in s
  {
    x :| x in s;
  }

  lemma {:induction false} SmallestExists(s: set<int>)
    requires s != {}
    ensures exists m :: m in s && forall n | n in s :: m <= n
  {
    var m := Member(s);
    if s == {m} {
      assert forall n | n in s :: m <= n;
    } else {
      SmallestExists(s - {m});
      var k :| k in s - {m} && forall n | n in s - {m} :: k <= n;
      var least := Min(m, k);
      assert forall n | n in s && n != m :: n in s - {m};
      assert least in s && forall n | n in s :: least <= n;
    }
  }

  ghost function Smallest(s: set<int>): (m: int)
    requires s != {}
    ensures m in s
    ensures forall n | n in s :: m <= n
  {
    SmallestExists(s);
    var m: int :| m in s && forall n | n in s :: m <= n;
    m
  }

  lemma {:induction false} LargestExists(s: set<int>)
    requires s != {}
    ensures exists m :: m in s && forall n | n in s :: n <= m
  {
    var m := Member(s);
    if s == {m} {
      assert forall n | n in s :: n <= m;
    } else {
      LargestExists(s - {m});
      var k :| k in s - {m} && forall n | n in s - {m} :: n <= k;
      var most := Max(m, k);
      assert forall n | n in s && n != m :: n in s - {m};
      assert most in s && forall n | n in s :: n <= most;
    }
  }

  /** A sequence without repeats is no longer than the set it fills. */
  lemma NoDuplicatesCardinality<T(!new)>(xs: seq<T>)
    requires NoDuplicates(xs)
    ensures |Elements(xs)| == |xs|
  {
    if xs == [] {
    } else {
      var last := xs[|xs| - 1];
      var front := xs[..|xs| - 1];
      NoDuplicatesCardinality(front);
      assert xs == front + [last];
      assert last !in front;
      assert Elements(xs) == Elements(front) + {last};
    }
  }
}
