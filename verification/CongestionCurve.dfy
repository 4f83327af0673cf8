/** The integer CUBIC curve of section 4.2 of RFC 9438, its Reno floor and the queue
    target. Windows are bytes, times microseconds. */
module CongestionCurve {
  import opened IntegerMath

  const OFFSET_LIMIT: int := 2000000

  /** The largest offset whose scaled cube still fits a signed 64-bit product. */
  const LAST_OFFSET: int := 267844

  /** Division as the source's integers do it, towards zero. */
  function Truncated(a: int, b: int): (r: int)
    requires b > 0
  {
    if a >= 0 then a / b else -((-a) / b)
  }

  lemma {:induction false} TruncatedMonotone(a: int, b: int)
    requires a <= b
    ensures Truncated(a, 1000000000) <= Truncated(b, 1000000000)
  {
  }

  /** What the last loss took: thirty percent, rounded down. */
  function Reduction(wMax: nat): (r: nat) {
    wMax * 30 / 100
  }

  function RootArgument(wMax: nat): (r: nat) {
    Reduction(wMax) * 1000000000 / 480
  }

  /** K, the milliseconds the curve takes to climb back to wMax. */
  function KMilli(wMax: nat): (r: nat) {
    RootOf(RootArgument(wMax))
  }

  /** The root is taken where the search is exact, and no product before it wraps. */
  lemma {:induction false} RootArgumentFits(wMax: nat)
    requires wMax < 0x1_0000_0000
    ensures Reduction(wMax) * 1000000000 < 0x1_0000_0000_0000_0000
    ensures RootArgument(wMax) < FIRST_WRONG
  {
  }

  function Bounded(offset: int): (r: int) {
    if offset > OFFSET_LIMIT then OFFSET_LIMIT
    else if offset < -OFFSET_LIMIT then -OFFSET_LIMIT
    else offset
  }

  /** C is 480 bytes per second cubed: 0.4 packets of 1200 bytes. */
  function ScaledCube(offset: int): (r: int) {
    480 * Cube(offset)
  }

  function Offset(wMax: nat, elapsed: nat): (r: int) {
    elapsed / 1000 - KMilli(wMax)
  }

  /** The window this long after the last reduction. Products are unbounded here;
      CubicOverflow says where the source's are. */
  function CubicWindow(wMax: nat, elapsed: nat): (r: nat) {
    if wMax == 0 then 0
    else Floored(wMax + Truncated(ScaledCube(Bounded(Offset(wMax, elapsed))), 1000000000))
  }

  function Floored(x: int): (r: nat) {
    if x < 0 then 0 else x
  }

  lemma {:induction false} ScaledCubeMonotone(a: int, b: int)
    requires a <= b
    ensures ScaledCube(a) <= ScaledCube(b)
    ensures a < b ==> ScaledCube(a) < ScaledCube(b)
  {
    CubeMonotone(a, b);
  }

  /** Growth follows time and never turns back. */
  lemma {:induction false} CubicMonotone(wMax: nat, earlier: nat, later: nat)
    requires earlier <= later
    ensures CubicWindow(wMax, earlier) <= CubicWindow(wMax, later)
  {
    hide ScaledCube, KMilli;
    var a, b := Bounded(Offset(wMax, earlier)), Bounded(Offset(wMax, later));
    assert a <= b;
    ScaledCubeMonotone(a, b);
    TruncatedMonotone(ScaledCube(a), ScaledCube(b));
  }

  /** K's cube never overshoots the reduction. */
  lemma {:induction false} KWithin(wMax: nat)
    ensures ScaledCube(KMilli(wMax)) <= Reduction(wMax) * 1000000000
    ensures wMax < 0x1_0000_0000 ==> KMilli(wMax) < LAST_OFFSET
  {
    var k, n := KMilli(wMax), RootArgument(wMax);
    assert Cube(k) <= n;
    assert 480 * n <= Reduction(wMax) * 1000000000;
    if wMax < 0x1_0000_0000 && k >= LAST_OFFSET {
      CubeMonotone(LAST_OFFSET, k);
    }
  }

  lemma {:induction false} OddCube(x: int)
    ensures ScaledCube(-x) == -ScaledCube(x)
  {
    assert Cube(-x) == -Cube(x);
  }

  /** At every instant the window is at least wMax less its reduction: the curve
      starts where the loss left the budget, not below it. */
  lemma {:induction false} CubicNeverBelowRetained(wMax: nat, elapsed: nat)
    requires wMax < 0x1_0000_0000
    ensures CubicWindow(wMax, elapsed) >= wMax - Reduction(wMax)
    ensures CubicWindow(wMax, elapsed) >= wMax * 70 / 100
  {
    hide ScaledCube, KMilli;
    var k: int, reduction: int := KMilli(wMax), Reduction(wMax);
    KWithin(wMax);
    OddCube(k);
    ScaledCubeMonotone(-k, Bounded(Offset(wMax, elapsed)));
    TruncatedMonotone(-(reduction * 1000000000), ScaledCube(Bounded(Offset(wMax, elapsed))));
    assert Truncated(-(reduction * 1000000000), 1000000000) == -reduction;
  }

  /** Exactly at K milliseconds the window is wMax again, and it is on the far side
      of wMax before and after. */
  lemma {:induction false} CubicMeetsWMax(wMax: nat, elapsed: nat)
    ensures elapsed / 1000 == KMilli(wMax) ==> CubicWindow(wMax, elapsed) == wMax
    ensures elapsed / 1000 <= KMilli(wMax) ==> CubicWindow(wMax, elapsed) <= wMax
    ensures elapsed / 1000 >= KMilli(wMax) ==> CubicWindow(wMax, elapsed) >= wMax
  {
    hide KMilli, ScaledCube;
    var b := Bounded(Offset(wMax, elapsed));
    assert ScaledCube(0) == 0 by {
      OddCube(0);
    }
    if b >= 0 {
      ScaledCubeMonotone(0, b);
    }
    if b <= 0 {
      ScaledCubeMonotone(b, 0);
    }
  }

  /** K is tight: one millisecond more would overshoot what the loss took. */
  lemma {:induction false} KTight(wMax: nat)
    ensures ScaledCube(KMilli(wMax)) <= Reduction(wMax) * 1000000000 < ScaledCube(KMilli(wMax) + 1) + 480
  {
    var k, n := KMilli(wMax), RootArgument(wMax);
    assert Cube(k) <= n < Cube(k + 1);
  }

  /** C times the cube of the seconds from K (section 4.2 of RFC 9438), at every whole
      second the clamp lets through: 480 bytes after one, 3840 after two. */
  lemma {:induction false} CubicAtSeconds(wMax: nat, elapsed: nat, seconds: nat)
    requires wMax > 0 && seconds <= 2000
    ensures elapsed / 1000 == KMilli(wMax) + 1000 * seconds ==>
      CubicWindow(wMax, elapsed) == wMax + 480 * seconds * seconds * seconds
    ensures elapsed / 1000 + 1000 * seconds == KMilli(wMax) ==>
      CubicWindow(wMax, elapsed) == Floored(wMax - 480 * seconds * seconds * seconds)
  {
    hide KMilli;
    var t: int := seconds;
    var cube := t * t * t;
    assert Cube(1000 * t) == 1000000000 * cube;
    assert Cube(-(1000 * t)) == -(1000000000 * cube);
    assert cube >= 0;
    assert Truncated(480 * (1000000000 * cube), 1000000000) == 480 * cube;
    assert Truncated(-(480 * (1000000000 * cube)), 1000000000) == -(480 * cube);
    assert 480 * t * t * t == 480 * cube;
  }

  predicate FitsInt64(x: int) {
    -0x8000_0000_0000_0000 <= x <= 0x7fff_ffff_ffff_ffff
  }

  /** Every product the source forms, left to right. */
  predicate ProductsFit(b: int) {
    FitsInt64(480 * b) && FitsInt64(480 * b * b) && FitsInt64(480 * b * b * b)
  }

  lemma {:induction false} SmallProducts(b: int)
    requires -LAST_OFFSET <= b <= LAST_OFFSET
    ensures ProductsFit(b)
  {
    CubeMonotone(-LAST_OFFSET, b);
    CubeMonotone(b, LAST_OFFSET);
    assert 480 * b * b * b == 480 * Cube(b);
    assert 0 <= b * b <= LAST_OFFSET * LAST_OFFSET by {
      if b >= 0 {
        Scale(b, LAST_OFFSET, b);
        Scale(b, LAST_OFFSET, LAST_OFFSET);
      } else {
        Scale(-b, LAST_OFFSET, -b);
        Scale(-b, LAST_OFFSET, LAST_OFFSET);
        assert b * b == (-b) * (-b);
      }
    }
  }

  /** Nothing the source forms leaves its word; a zero window forms no product. */
  predicate CurveFits(wMax: nat, elapsed: nat) {
    wMax == 0 || ProductsFit(Bounded(Offset(wMax, elapsed)))
  }

  /** The clamp at two million does not keep the cube in range. The products fit a
      signed 64-bit integer exactly when there are none or no more than LAST_OFFSET
      milliseconds have passed since K. */
  lemma {:induction false} CubicOverflow(wMax: nat, elapsed: nat)
    requires wMax < 0x1_0000_0000
    ensures CurveFits(wMax, elapsed) <==> wMax == 0 || elapsed / 1000 <= KMilli(wMax) + LAST_OFFSET
  {
    hide KMilli, ScaledCube, ProductsFit;
    var b := Bounded(Offset(wMax, elapsed));
    KWithin(wMax);
    if b <= LAST_OFFSET {
      SmallProducts(b);
    } else {
      LargeProduct(b);
    }
  }

  lemma {:induction false} LargeProduct(b: int)
    requires b > LAST_OFFSET
    ensures !ProductsFit(b)
  {
    CubeMonotone(LAST_OFFSET + 1, b);
    assert 480 * b * b * b == 480 * Cube(b);
  }

  /** A window of one byte is past its range after 267.845 seconds. */
  lemma {:induction false} OverflowExample()
    ensures !CurveFits(1, 267845000)
  {
    assert Cube(0) == 0 && Cube(1) == 1;
    assert IsRoot(0, 0);
    RootIsUnique(0, KMilli(1), 0);
    CubicOverflow(1, 267845000);
  }

  /** Where a straight line would be: seventy percent plus a fixed step a round. */
  function RenoWindow(wMax: nat, elapsed: nat, srtt: nat): (r: nat) {
    if srtt == 0 then 0 else wMax * 70 / 100 + elapsed / srtt * 635
  }

  /** The larger of the two, which growth follows: it starts at what the loss left
      and never turns back. */
  function Target(wMax: nat, elapsed: nat, srtt: nat): (r: nat) {
    if CubicWindow(wMax, elapsed) > RenoWindow(wMax, elapsed, srtt)
    then CubicWindow(wMax, elapsed) else RenoWindow(wMax, elapsed, srtt)
  }

  /** The straight line: what the loss left, and 635 bytes for every whole round trip
      since; the target is never under it nor under the curve, and is one of them. */
  lemma {:induction false} TargetExact(wMax: nat, elapsed: nat, srtt: nat, rounds: nat)
    requires srtt > 0 && rounds * srtt <= elapsed < (rounds + 1) * srtt
    ensures var line := wMax * 70 / 100 + 635 * rounds;
      var target := Target(wMax, elapsed, srtt);
      && target >= line && target >= CubicWindow(wMax, elapsed)
      && (target == line || target == CubicWindow(wMax, elapsed))
  {
    hide CubicWindow;
    assert elapsed / srtt == rounds by {
      QuotientIs(elapsed, srtt, rounds);
    }
  }

  lemma {:induction false} QuotientIs(n: nat, d: nat, q: nat)
    requires d > 0 && q * d <= n < (q + 1) * d
    ensures n / d == q
  {
    Quotients(q * d, n, d);
    assert (q * d) / d == q;
    if n / d > q {
      Scale(q + 1, n / d, d);
    }
  }

  lemma {:induction false} TargetMonotone(wMax: nat, earlier: nat, later: nat, srtt: nat)
    requires earlier <= later && wMax < 0x1_0000_0000
    ensures wMax * 70 / 100 <= Target(wMax, earlier, srtt) <= Target(wMax, later, srtt)
  {
    hide CubicWindow;
    CubicMonotone(wMax, earlier, later);
    CubicNeverBelowRetained(wMax, earlier);
    if srtt > 0 {
      Quotients(earlier, later, srtt);
    }
  }

  lemma {:induction false} Quotients(a: nat, b: nat, d: nat)
    requires a <= b && d > 0
    ensures a / d <= b / d
  {
    if a / d > b / d {
      Scale(b / d + 1, a / d, d);
    }
  }

  function QueueTarget(minRtt: nat): (r: nat)
    ensures r >= 1000 && r >= minRtt / 8 && (r == 1000 || r == minRtt / 8)
  {
    if minRtt / 8 < 1000 then 1000 else minRtt / 8
  }
}
