/** Integer helpers: the binary-search cube root and rounding up to a power of two. */
module IntegerMath {

  function Cube(x: int): (r: int) {
    x * x * x
  }

  lemma {:induction false} CubeMonotone(a: int, b: int)
    requires a <= b
    ensures Cube(a) <= Cube(b)
    ensures a < b ==> Cube(a) < Cube(b)
  {
    var d := b - a;
    var q := a * a + a * b + b * b;
    assert Cube(b) - Cube(a) == d * q;
    assert 2 * q == a * a + b * b + (a + b) * (a + b);
    Squares(a, b);
    if d > 0 {
      Positive(d, q);
    }
  }

  lemma {:induction false} Squares(a: int, b: int)
    ensures a * a + b * b + (a + b) * (a + b) >= 0
    ensures a != b ==> a * a + b * b + (a + b) * (a + b) > 0
  {
    assert a * a >= 0 && b * b >= 0 && (a + b) * (a + b) >= 0;
    if a != 0 {
      assert a * a > 0;
    }
    if b != 0 {
      assert b * b > 0;
    }
  }

  lemma {:induction false} Positive(d: int, q: int)
    requires d > 0 && q > 0
    ensures d * q > 0
  {
  }

  /** The cube root rounded down, by its definition. */
  predicate IsRoot(n: nat, r: nat) {
    Cube(r) <= n < Cube(r + 1)
  }

  lemma {:induction false} RootIsUnique(n: nat, a: nat, b: nat)
    requires IsRoot(n, a) && IsRoot(n, b)
    ensures a == b
  {
    if a < b {
      CubeMonotone(a + 1, b);
    } else if b < a {
      CubeMonotone(b + 1, a);
    }
  }

  /** The root found by counting up: the plain reading of what CubeRoot searches for. */
  function RootFrom(n: nat, r: nat): (root: nat)
    requires Cube(r) <= n
    ensures IsRoot(n, root)
    decreases n - Cube(r)
  {
    CubeMonotone(r, r + 1);
    if Cube(r + 1) <= n then RootFrom(n, r + 1) else r
  }

  function RootOf(n: nat): (root: nat)
    ensures IsRoot(n, root)
  {
    RootFrom(n, 0)
  }

  /** Unsigned 64-bit arithmetic keeps the low 64 bits of a product. */
  function Wrap64(x: nat): (r: nat)
    ensures r < 0x1_0000_0000_0000_0000
  {
    x % 0x1_0000_0000_0000_0000
  }

  lemma {:induction false} NoWrap(x: nat)
    requires x < 0x1_0000_0000_0000_0000
    ensures Wrap64(x) == x
  {
  }

  /** The largest value whose cube fits 64 bits. */
  const LAST_CUBE: nat := 2642245

  /** What the code compares: each product keeps 64 bits. */
  function WrappedCube(x: nat): (r: nat) {
    Wrap64(Wrap64(x * x) * x)
  }

  lemma {:induction false} FitsCube(x: nat)
    requires x <= LAST_CUBE
    ensures WrappedCube(x) == Cube(x)
  {
    CubeMonotone(x, LAST_CUBE);
    Scale(x, LAST_CUBE, x);
    Scale(x, LAST_CUBE, LAST_CUBE);
    NoWrap(x * x);
    NoWrap(x * x * x);
  }

  lemma {:induction false} Scale(a: nat, b: nat, c: nat)
    requires a <= b
    ensures a * c <= b * c
  {
  }

  /** Exact below this, too large at and above it: the second midpoint's cube leaves
      64 bits and comes back small. */
  const FIRST_WRONG: nat := 11 * 0x1000_0000_0000_0000

  /** The searched interval: past the first three probes, no cube can wrap. */
  predicate Early(low: nat, high: nat) {
    || (low == 0 && high == 4194304)
    || (low == 2097152 && high == 4194304)
    || (low == 2097152 && high == 3145727)
  }

  predicate Brackets(n: nat, low: nat, high: nat) {
    Cube(low) <= n < Cube(high + 1) && (high <= LAST_CUBE || Early(low, high))
  }

  /** The first midpoint that matters wraps to eleven sixteenths of the range. */
  lemma {:induction false} EarlyCubes()
    ensures WrappedCube(2097152) == Cube(2097152) == 0x8000_0000_0000_0000
    ensures WrappedCube(3145728) == FIRST_WRONG && Cube(3145728) == 27 * 0x1000_0000_0000_0000
    ensures WrappedCube(2621440) == Cube(2621440) == 125 * 0x200_0000_0000_0000
  {
  }

  lemma {:induction false} Narrows(n: nat, low: nat, high: nat)
    requires n < FIRST_WRONG && low < high && Brackets(n, low, high)
    ensures var mid := low + (high - low + 1) / 2;
      if WrappedCube(mid) <= n then Brackets(n, mid, high) else Brackets(n, low, mid - 1)
  {
    hide WrappedCube, Cube;
    var mid := low + (high - low + 1) / 2;
    EarlyCubes();
    if high <= LAST_CUBE {
      FitsCube(mid);
    }
  }

  lemma {:induction false} Strays(n: nat, low: nat, high: nat)
    requires FIRST_WRONG <= n && low < high == 4194304 && Early(low, high)
    ensures var mid := low + (high - low + 1) / 2;
      WrappedCube(mid) <= n && (Early(mid, high) || mid >= 3145728)
  {
    hide WrappedCube, Cube;
    EarlyCubes();
  }

  lemma {:induction false} TooLarge(n: nat, r: nat)
    requires n < 0x1_0000_0000_0000_0000 && r >= 3145728
    ensures Cube(r) > n
  {
    CubeMonotone(3145728, r);
  }

  /** The largest r with r * r * r <= n, for exactly the n below FIRST_WRONG. */
  method CubeRoot(n: nat) returns (r: nat)
    requires n < 0x1_0000_0000_0000_0000
    ensures IsRoot(n, r) <==> n < FIRST_WRONG
    ensures n >= FIRST_WRONG ==> Cube(r) > n
  {
    hide Cube, WrappedCube;
    var low: nat, high: nat := 0, 4194304;
    StartBrackets(n);
    while low < high
      invariant low <= high <= 4194304
      invariant n < FIRST_WRONG ==> Brackets(n, low, high)
      invariant n >= FIRST_WRONG ==> low >= 3145728 || (Early(low, high) && high == 4194304)
      decreases high - low
    {
      var mid: nat := low + (high - low + 1) / 2;
      if n < FIRST_WRONG {
        Narrows(n, low, high);
      } else if low < 3145728 {
        Strays(n, low, high);
      }
      if WrappedCube(mid) <= n {
        low := mid;
      } else {
        high := mid - 1;
      }
    }
    if n >= FIRST_WRONG {
      TooLarge(n, low);
    }
    return low;
  }

  lemma {:induction false} StartBrackets(n: nat)
    requires n < 0x1_0000_0000_0000_0000
    ensures Brackets(n, 0, 4194304)
  {
  }

  /** Rounds up to a power of two; zero goes to one. The result leaves 32 bits only
      above 2^31. */
  method NextPowerOfTwo(n: bv32) returns (r: bv32)
    ensures n <= 0x8000_0000 ==> r >= n && r != 0 && r & (r - 1) == 0
    ensures 1 < n <= 0x8000_0000 ==> r / 2 < n
    ensures n > 0x8000_0000 ==> r == 0
  {
    if n == 0 {
      return 1;
    }
    var m := n - 1;
    m := m | (m >> 1);
    m := m | (m >> 2);
    m := m | (m >> 4);
    m := m | (m >> 8);
    m := m | (m >> 16);
    return m + 1;
  }
}
