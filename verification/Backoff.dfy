/** How long a failed delivery waits (pkg/notify/backoff.go), in nanoseconds of 64 bits. */
module Backoff {
  const SECOND := 1_000_000_000
  const MAX_ATTEMPTS := 6
  const SHORTEST := 15 * SECOND
  const LONGEST := 900 * SECOND
  const TWO_63 := 0x8000_0000_0000_0000
  const TWO_64 := 0x1_0000_0000_0000_0000

  /** An int64 after overflow. */
  function Wrap(x: int): (r: int)
    ensures -TWO_63 <= r < TWO_63
  {
    (x + TWO_63) % TWO_64 - TWO_63
  }

  function Pow2(n: nat): nat { if n == 0 then 1 else 2 * Pow2(n - 1) }

  /** 1<<k, then times 15, then times a second: each step in 64 bits. */
  function Unbounded(k: nat): int { Wrap(Wrap(Wrap(Pow2(k)) * 15) * SECOND) }

  function Wait(attempt: int): int {
    var d := Unbounded(if attempt < 1 then 0 else attempt - 1);
    if d > LONGEST then LONGEST else d
  }

  lemma {:induction false} Pow2Grows(a: nat, b: nat)
    requires a <= b
    ensures 1 <= Pow2(a) <= Pow2(b)
  {
    if a < b {
      Pow2Grows(a, b - 1);
    } else if a > 0 {
      Pow2Grows(a - 1, a - 1);
    }
  }

  lemma Pow2Of29()
    ensures Pow2(29) == 0x2000_0000
  {
    assert Pow2(10) == 1024;
    assert Pow2(20) == 0x10_0000;
  }

  lemma Fits(x: int)
    requires -TWO_63 <= x < TWO_63
    ensures Wrap(x) == x
  {
  }

  lemma NoOverflow(k: nat)
    requires k <= 29
    ensures Unbounded(k) == Pow2(k) * 15 * SECOND
  {
    Pow2Grows(k, 29);
    Pow2Of29();
    hide Pow2, Wrap;
    Fits(Pow2(k));
    Fits(Pow2(k) * 15);
    Fits(Pow2(k) * 15 * SECOND);
  }

  /** Up to attempt 30 the wait doubles until it meets the cap. */
  lemma DoublesUpToTheCap(attempt: nat)
    requires 1 <= attempt < 30
    ensures Wait(1) == SHORTEST
    ensures Wait(attempt + 1) == if 2 * Wait(attempt) > LONGEST then LONGEST else 2 * Wait(attempt)
  {
    NoOverflow(0);
    NoOverflow(attempt - 1);
    NoOverflow(attempt);
    assert Pow2(attempt) == 2 * Pow2(attempt - 1);
    hide Unbounded;
  }

  predicate InBounds(wait: int) { SHORTEST <= wait <= LONGEST }

  lemma {:induction false} WaitsGrow(a: nat, b: nat)
    requires 1 <= a <= b <= 30
    ensures SHORTEST <= Wait(a) <= Wait(b) <= LONGEST
  {
    if a < b {
      WaitsGrow(a, b - 1);
      DoublesUpToTheCap(b - 1);
      hide Unbounded;
    } else if a > 1 {
      WaitsGrow(a - 1, a - 1);
      DoublesUpToTheCap(a - 1);
      hide Unbounded;
    } else {
      NoOverflow(0);
    }
  }

  lemma Attempt31Overflows()
    ensures Wait(31) == -2340616713709551616
  {
    Pow2Of29();
    assert Pow2(30) == 2 * Pow2(29);
    hide Pow2;
    assert 0x4000_0000 * 15 * SECOND - TWO_64 == -2340616713709551616;
  }

  /** Every wait up to attempt `n` is within 15 s and 15 min exactly while `n` is at most 30. */
  lemma WaitsAreBoundedExactly(n: nat)
    ensures (forall attempt: nat | attempt <= n :: InBounds(Wait(attempt))) <==> n <= 30
  {
    Attempt31Overflows();
    forall attempt: nat | attempt <= 30
      ensures InBounds(Wait(attempt))
    {
      if attempt == 0 {
        WaitsGrow(1, 1);
      } else {
        WaitsGrow(attempt, attempt);
      }
    }
    hide Wait;
    if n > 30 {
      assert !InBounds(Wait(31));
    }
  }
}
