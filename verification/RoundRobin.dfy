/** The group of I/O contexts and its round robin over a wrapping 64-bit index. */
module RoundRobin {
  import opened Arith

  /** The context handed out by query number `q` (counted from 0) among `n` contexts. */
  function Pick(n: nat, q: nat): (c: nat)
    requires n > 0
    ensures c < n
  {
    Cell(Wrap(q), n)
  }

  /** How often context `c` was handed out by the first `q` queries. */
  function Count(n: nat, c: nat, q: nat): nat
    requires n > 0
  {
    if q == 0 then 0 else Count(n, c, q - 1) + if Pick(n, q - 1) == c then 1 else 0
  }

  /** The integer quotient of `q` by `n`, by repeated subtraction. */
  function Laps(q: nat, n: nat): nat
    requires n > 0
    decreases q
  {
    if q < n then 0 else 1 + Laps(q - n, n)
  }

  /** `Laps` is the division operator. */
  lemma {:induction false} LapsIsQuotient(q: nat, n: nat)
    requires n > 0
    ensures Laps(q, n) == q / n
    decreases q
  {
    LapsTimes(q, n);
    CellIsRemainder(q, n);
    QuotientUnique(q, n, Laps(q, n), Cell(q, n));
  }

  lemma {:induction false} LapsTimes(q: nat, n: nat)
    requires n > 0
    ensures q == Laps(q, n) * n + Cell(q, n)
    decreases q
  {
    if q >= n {
      LapsTimes(q - n, n);
      assert Laps(q, n) * n == (1 + Laps(q - n, n)) * n == n + Laps(q - n, n) * n;
    }
  }

  lemma QuotientUnique(x: nat, n: nat, k: nat, r: nat)
    requires r < n && x == k * n + r && x % n == r
    ensures x / n == k
  {
    assert x == (x / n) * n + r;
    assert (x / n - k) * n == 0;
    if x / n > k {
      MultipleAtLeast(x / n - k, n);
    } else if x / n < k {
      assert (k - x / n) * n == 0;
      MultipleAtLeast(k - x / n, n);
    }
  }

  lemma {:induction false} LapsStep(q: nat, n: nat)
    requires n > 0
    ensures Cell(q + 1, n) == (if Cell(q, n) + 1 < n then Cell(q, n) + 1 else 0)
    ensures Laps(q + 1, n) == Laps(q, n) + (if Cell(q, n) + 1 < n then 0 else 1)
    decreases q
  {
    CellStep(q, 1, n);
    if q >= n {
      LapsStep(q - n, n);
      assert q + 1 - n == q - n + 1;
    } else if q + 1 == n {
      assert Laps(q + 1 - n, n) == 0;
    }
  }

  /** The count in closed form, before the index wraps or when it wraps after whole laps. */
  lemma {:induction false} CountClosed(n: nat, c: nat, q: nat)
    requires 0 < n < TWO64 && c < n
    requires q <= TWO64 || WholeLaps(n)
    ensures Count(n, c, q) == Laps(q, n) + if c < Cell(q, n) then 1 else 0
    decreases q
  {
    if q > 0 {
      CountClosed(n, c, q - 1);
      LapsStep(q - 1, n);
      if q > TWO64 {
        CellOfWrapped(q - 1, 0, n);
      }
    }
  }

  /** `c` was handed out floor(q/n) or ceil(q/n) times. */
  predicate Fair(n: nat, c: nat, q: nat)
    requires n > 0
  {
    Count(n, c, q) == Laps(q, n) || (Cell(q, n) != 0 && Count(n, c, q) == Laps(q, n) + 1)
  }

  /** Up to 2^64 queries the distribution is fair for every number of contexts. */
  lemma FairUntilWrap(n: nat, c: nat, q: nat)
    requires 0 < n < TWO64 && c < n && q <= TWO64
    ensures Fair(n, c, q)
    ensures Count(n, c, q) == q / n || (q % n != 0 && Count(n, c, q) == q / n + 1)
  {
    CountClosed(n, c, q);
    CellIsRemainder(q, n);
    LapsIsQuotient(q, n);
  }

  /** It stays fair for any number of queries exactly when the number of contexts divides 2^64. */
  lemma FairForeverExact(n: nat)
    requires 0 < n < TWO64
    ensures (forall c: nat, q: nat :: c < n ==> Fair(n, c, q)) <==> WholeLaps(n)
  {
    if WholeLaps(n) {
      forall c: nat, q: nat | c < n
        ensures Fair(n, c, q)
      {
        CountClosed(n, c, q);
      }
    } else {
      CountClosed(n, 0, TWO64);
      LapsStep(TWO64, n);
      assert Pick(n, TWO64) == 0;
      assert Count(n, 0, TWO64 + 1) == Count(n, 0, TWO64) + 1;
      assert !Fair(n, 0, TWO64 + 1);
    }
  }

  lemma LapAhead(q: nat, n: nat)
    requires n > 0
    ensures Cell(q + n, n) == Cell(q, n) && Laps(q + n, n) == Laps(q, n) + 1
  {
    assert q + n - n == q;
  }

  /** Before the index wraps, `n` consecutive queries hand out each context exactly once. */
  lemma EachOnceUntilWrap(n: nat, c: nat, q: nat)
    requires 0 < n < TWO64 && c < n && q + n <= TWO64
    ensures Count(n, c, q + n) == Count(n, c, q) + 1
  {
    CountClosed(n, c, q);
    CountClosed(n, c, q + n);
    LapAhead(q, n);
  }

  /** Every window of `n` consecutive queries does so exactly when `n` divides 2^64. */
  lemma EachOnceExact(n: nat)
    requires 0 < n < TWO64
    ensures (forall c: nat, q: nat :: c < n ==> Count(n, c, q + n) == Count(n, c, q) + 1) <==> WholeLaps(n)
  {
    if WholeLaps(n) {
      forall c: nat, q: nat | c < n
        ensures Count(n, c, q + n) == Count(n, c, q) + 1
      {
        CountClosed(n, c, q);
        CountClosed(n, c, q + n);
        LapAhead(q, n);
      }
    } else {
      var q := TWO64 - n;
      LapAhead(q, n);
      assert Pick(n, q) != 0 && Pick(n, TWO64) == 0;
      assert Count(n, 0, q + 1) == Count(n, 0, q);
      assert q + n == TWO64 && (q + 1) + n == TWO64 + 1;
      assert Count(n, 0, TWO64 + 1) == Count(n, 0, TWO64) + 1;
      assert Count(n, 0, q + n) != Count(n, 0, q) + 1 || Count(n, 0, (q + 1) + n) != Count(n, 0, q + 1) + 1;
    }
  }

  class IoContextGroup<Context> {
    const contexts: seq<Context>
    var index: nat
    /** The queries answered so far. */
    ghost var answered: nat

    ghost predicate Valid()
      reads this
    {
      0 < |contexts| < TWO64 && index == Wrap(answered)
    }

    constructor (contexts: seq<Context>)
      requires 0 < |contexts| < TWO64
      ensures Valid() && this.contexts == contexts && answered == 0
    {
      this.contexts := contexts;
      index, answered := 0, 0;
    }

    /** The index is read and advanced in one atomic step. */
    method Query() returns (context: Context)
      requires Valid()
      modifies this
      ensures Valid() && answered == old(answered) + 1
      ensures context == contexts[Pick(|contexts|, old(answered))]
    {
      WrapSum(answered, 1);
      context := contexts[Cell(index, |contexts|)];
      index := Wrap(index + 1);
      answered := answered + 1;
    }
  }
}
