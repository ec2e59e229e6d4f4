/** Counters: 64-bit wrap-around, and the array cell a counter falls on. */
module Arith {

  type byte = x: int | 0 <= x < 256

  /** The number of values of a 64-bit `std::size_t`. */
  const TWO64: nat := 0x1_0000_0000_0000_0000

  /** The number of values of a `uint32_t`. */
  const TWO32: nat := 0x1_0000_0000

  function Zeros(n: nat): seq<byte> {
    seq<byte>(n, i => 0)
  }

  /** The remainder of `x` by `cap`, by repeated subtraction: the cell counter `x` falls on. */
  function Cell(x: nat, cap: nat): (r: nat)
    requires cap > 0
    ensures r < cap
    decreases x
  {
    if x < cap then x else Cell(x - cap, cap)
  }

  /** `Cell` is the remainder operator. */
  lemma {:induction false} CellIsRemainder(x: nat, cap: nat)
    requires cap > 0
    ensures Cell(x, cap) == x % cap
    decreases x
  {
    if x >= cap {
      CellIsRemainder(x - cap, cap);
      RemainderLess(x, cap);
    } else {
      RemainderUnique(x, cap, 0, x);
    }
  }

  lemma RemainderLess(x: nat, cap: nat)
    requires 0 < cap <= x
    ensures x % cap == (x - cap) % cap
  {
    var q := (x - cap) / cap;
    assert x == (q + 1) * cap + (x - cap) % cap;
    RemainderUnique(x, cap, q + 1, (x - cap) % cap);
  }

  /** A quotient and a remainder in range determine the remainder. */
  lemma RemainderUnique(x: int, c: nat, q: int, r: nat)
    requires r < c && x == q * c + r
    ensures x % c == r
  {
    var q', r' := x / c, x % c;
    assert (q - q') * c == r' - r by {
      assert x == q' * c + r';
    }
    if q > q' {
      MultipleAtLeast(q - q', c);
    } else if q < q' {
      assert (q' - q) * c == r - r';
      MultipleAtLeast(q' - q, c);
    }
  }

  lemma {:induction false} MultipleAtLeast(k: int, c: nat)
    requires k >= 1
    ensures k * c >= c
  {
    if k > 1 {
      MultipleAtLeast(k - 1, c);
      assert k * c == (k - 1) * c + c;
    }
  }

  /** Moving on by at most one lap, in closed form. */
  lemma {:induction false} CellStep(x: nat, i: nat, cap: nat)
    requires cap > 0 && i <= cap
    ensures Cell(x + i, cap) == if Cell(x, cap) + i < cap then Cell(x, cap) + i else Cell(x, cap) + i - cap
    decreases x
  {
    if x >= cap {
      CellStep(x - cap, i, cap);
      assert x + i - cap == x - cap + i;
    }
  }

  /** Two counters less than one lap apart fall on different cells. */
  lemma CellDistinct(x: nat, y: nat, cap: nat)
    requires cap > 0 && x < y < x + cap
    ensures Cell(x, cap) != Cell(y, cap)
  {
    CellStep(x, y - x, cap);
    assert x + (y - x) == y;
  }

  /** Only the cell of the first summand matters. */
  lemma {:induction false} CellAdd(x: nat, y: nat, cap: nat)
    requires cap > 0
    ensures Cell(x + y, cap) == Cell(Cell(x, cap) + y, cap)
    decreases x
  {
    if x >= cap {
      CellAdd(x - cap, y, cap);
      assert x + y - cap == x - cap + y;
    }
  }

  // ---------------------------------------------------------------- 64-bit counters

  /** The value a 64-bit counter shows after counting to `x`. */
  function Wrap(x: nat): (r: nat)
    ensures r < TWO64
  {
    Cell(x, TWO64)
  }

  /** The value a `uint32_t` shows when `x` is stored in it. */
  function Wrap32(x: nat): (r: nat)
    ensures r < TWO32
  {
    Cell(x, TWO32)
  }

  /** Unsigned 64-bit subtraction. */
  function Minus(a: nat, b: nat): (r: nat)
    requires a < TWO64 && b < TWO64
    ensures r < TWO64
  {
    if b <= a then a - b else a + TWO64 - b
  }

  lemma WrapSmall(x: nat)
    requires x < TWO64
    ensures Wrap(x) == x
  {
  }

  lemma WrapStep(x: nat, i: nat)
    requires i < TWO64
    ensures Wrap(x + i) == if Wrap(x) + i < TWO64 then Wrap(x) + i else Wrap(x) + i - TWO64
  {
    CellStep(x, i, TWO64);
  }

  /** A difference survives the wrapping of both ends. */
  lemma WrapDifference(a: nat, b: nat)
    requires a <= b && b - a < TWO64
    ensures Minus(Wrap(b), Wrap(a)) == b - a
  {
    WrapStep(a, b - a);
    assert a + (b - a) == b;
  }

  lemma WrapSum(a: nat, n: nat)
    ensures Wrap(Wrap(a) + n) == Wrap(a + n)
  {
    CellAdd(a, n, TWO64);
  }

  /** A whole number of laps of `cap` cells fits into the range of a 64-bit counter. */
  predicate WholeLaps(cap: nat)
    requires cap > 0
  {
    Cell(TWO64, cap) == 0
  }

  /** A wrapped counter falls on the same cell when the laps are whole. */
  lemma {:induction false} CellOfWrapped(x: nat, i: nat, cap: nat)
    requires cap > 0 && WholeLaps(cap)
    ensures Cell(Wrap(x) + i, cap) == Cell(x + i, cap)
    decreases x
  {
    if x >= TWO64 {
      CellOfWrapped(x - TWO64, i, cap);
      CellAdd(TWO64, x - TWO64 + i, cap);
      assert TWO64 + (x - TWO64 + i) == x + i;
    }
  }
}
