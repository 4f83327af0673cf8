/** Poly1305 as the packet path computes it, on 32-bit limbs, against section 2.5 of
    RFC 8439. Limbs are bounded integers, so every sum and product below is also
    proved not to overflow its word. */
module Poly1305 {

  newtype u32 = x: int | 0 <= x < 0x1_0000_0000

  newtype u64 = x: int | 0 <= x < 0x1_0000_0000_0000_0000

  type byte = x: int | 0 <= x < 256

  /** The accumulator, least significant limb first. */
  datatype Limbs = Limbs(h0: u32, h1: u32, h2: u32, h3: u32, h4: u32)

  datatype Four = Four(w0: u32, w1: u32, w2: u32, w3: u32)

  // --- The standard ---

  /** Residue modulo 2^130 - 5. */
  function ModP(x: int): (m: int)
    ensures 0 <= m < 0x3_ffff_ffff_ffff_ffff_ffff_ffff_ffff_fffb
  {
    x % 0x3_ffff_ffff_ffff_ffff_ffff_ffff_ffff_fffb
  }

  function TimesP(k: int): (r: int) {
    k * 0x3_ffff_ffff_ffff_ffff_ffff_ffff_ffff_fffb
  }

  /** A little-endian number. */
  function Num(s: seq<byte>): (r: nat) {
    if s == [] then 0 else s[0] + 256 * Num(s[1..])
  }

  function Pow256(n: nat): (r: nat) {
    if n == 0 then 1 else 256 * Pow256(n - 1)
  }

  /** A block with the extra bit beyond its last byte. */
  function BlockNum(part: seq<byte>): (r: nat) {
    Num(part) + Pow256(|part|)
  }

  /** Where the last block of a message starts. */
  function LastStart(n: nat): (t: nat)
    requires n > 0
    ensures t < n <= t + 16 && t % 16 == 0
  {
    (n - 1) / 16 * 16
  }

  /** The accumulator after every block of the message. */
  function Accumulated(msg: seq<byte>, r: nat): (res: nat) {
    if msg == [] then 0
    else
      var t := LastStart(|msg|);
      ModP((Accumulated(msg[..t], r) + BlockNum(msg[t..])) * r)
  }

  /** r with the bits the standard requires clear. */
  function ClampedBytes(r: seq<byte>): (c: seq<byte>)
    requires |r| == 16
    ensures |c| == 16
  {
    seq(16, i requires 0 <= i < 16 =>
      if i % 4 == 3 then r[i] % 16
      else if i % 4 == 0 && i > 0 then r[i] / 4 * 4
      else r[i])
  }

  /** The tag as a number: the low 128 bits of the accumulator plus s. */
  function Tag(key: seq<byte>, msg: seq<byte>): (r: nat)
    requires |key| == 32
  {
    (Accumulated(msg, Num(ClampedBytes(key[..16]))) + Num(key[16..])) % 0x1_0000_0000_0000_0000_0000_0000_0000_0000
  }

  // --- Values of limbs ---

  function Value(h: Limbs): (r: nat) {
    h.h0 as int + h.h1 as int * 0x1_0000_0000 + h.h2 as int * 0x1_0000_0000_0000_0000
    + h.h3 as int * 0x1_0000_0000_0000_0000_0000_0000 + h.h4 as int * 0x1_0000_0000_0000_0000_0000_0000_0000_0000
  }

  function Value4(w: Four): (r: nat) {
    w.w0 as int + w.w1 as int * 0x1_0000_0000 + w.w2 as int * 0x1_0000_0000_0000_0000
    + w.w3 as int * 0x1_0000_0000_0000_0000_0000_0000
  }

  /** The bound every block keeps. */
  predicate Bounded(h: Limbs) {
    h.h4 <= 4
  }

  predicate Clamped(r: Four) {
    && r.w0 < 0x1000_0000 && r.w1 < 0x1000_0000 && r.w2 < 0x1000_0000 && r.w3 < 0x1000_0000
    && r.w1 % 4 == 0 && r.w2 % 4 == 0 && r.w3 % 4 == 0
  }

  /** The masks of the key setup, in the arithmetic used here. */
  lemma MasksAreRemainders(x: bv32)
    ensures x & 0x0fff_ffff == x % 0x1000_0000
    ensures x & 0x0fff_fffc == x % 0x1000_0000 / 4 * 4
    ensures x & 3 == x % 4 && x >> 2 == x / 4
  {
  }

  // --- Arithmetic ---

  lemma {:induction false} MulBound(a: nat, b: nat, amax: nat, bmax: nat)
    requires a <= amax && b <= bmax
    ensures 0 <= a * b <= amax * bmax
  {
    assert a * b <= amax * b;
    assert amax * b <= amax * bmax;
  }

  lemma {:induction false} ModShift(a: int, k: int)
    ensures ModP(a + TimesP(k)) == ModP(a)
  {
  }

  lemma {:induction false} Quotient(a: int) returns (k: int)
    ensures a == ModP(a) + TimesP(k)
  {
    k := a / 0x3_ffff_ffff_ffff_ffff_ffff_ffff_ffff_fffb;
  }

  /** Reducing before or after a block comes to the same. */
  lemma {:induction false} BlockCongruent(h: int, acc: int, n: int, r: int)
    requires ModP(h) == ModP(acc)
    ensures ModP((h + n) * r) == ModP((acc + n) * r)
  {
    var i := Quotient(h);
    var j := Quotient(acc);
    var d := (i - j) * r;
    assert h - acc == TimesP(i - j);
    assert (h + n) * r == (acc + n) * r + (h - acc) * r;
    assert (h - acc) * r == TimesP(d) by {
      Shuffle(i - j, r);
    }
    ModShift((acc + n) * r, d);
  }

  lemma {:induction false} Shuffle(k: int, r: int)
    ensures TimesP(k) * r == TimesP(k * r)
  {
  }

  /** h + c, limb by limb, before any carry. */
  datatype Sums = Sums(s0: u64, s1: u64, s2: u64, s3: u64, s4: u32)

  /** The product's limbs before any carry. */
  datatype Products = Products(x0: u64, x1: u64, x2: u64, x3: u64, x4: u32)

  function SumsValue(s: Sums): (r: nat) {
    s.s0 as int + s.s1 as int * 0x1_0000_0000 + s.s2 as int * 0x1_0000_0000_0000_0000
    + s.s3 as int * 0x1_0000_0000_0000_0000_0000_0000 + s.s4 as int * 0x1_0000_0000_0000_0000_0000_0000_0000_0000
  }

  function ProductsValue(x: Products): (r: nat) {
    x.x0 as int + x.x1 as int * 0x1_0000_0000 + x.x2 as int * 0x1_0000_0000_0000_0000
    + x.x3 as int * 0x1_0000_0000_0000_0000_0000_0000 + x.x4 as int * 0x1_0000_0000_0000_0000_0000_0000_0000_0000
  }

  predicate SumsBounded(s: Sums) {
    s.s0 < 0x2_0000_0000 && s.s1 < 0x2_0000_0000 && s.s2 < 0x2_0000_0000 && s.s3 < 0x2_0000_0000 && s.s4 <= 5
  }

  /** What the carry pass needs of the products. */
  predicate ProductsBounded(x: Products) {
    x.x1 < 0xa000_0000_0000_0000 && x.x2 < 0xa000_0000_0000_0000 && x.x3 <= 0x8000_0000_0000_0000 && x.x4 <= 15
  }

  lemma {:induction false} SmallProduct(s: int, r: int)
    requires 0 <= s < 0x2_0000_0000 && 0 <= r < 0x1000_0000
    ensures 0 <= s * r <= 0x1_ffff_ffff * 0xfff_ffff
    ensures 0 <= s * (r / 4) <= 0x1_ffff_ffff * 0x3ff_ffff
    ensures 0 <= s * (r % 4) <= s * 3
    ensures s * r == 4 * (s * (r / 4)) + s * (r % 4)
    ensures s * (r / 4 * 5) == 5 * (s * (r / 4))
    ensures r % 4 == 0 ==> s * (r / 4 + r) == 5 * (s * (r / 4))
  {
    MulBound(s, r, 0x1_ffff_ffff, 0xfff_ffff);
    MulBound(s, r / 4, 0x1_ffff_ffff, 0x3ff_ffff);
    MulBound(s, r % 4, s, 3);
    assert r == 4 * (r / 4) + r % 4;
    Distribute(s, r / 4, r % 4);
  }

  lemma {:induction false} Distribute(s: int, q: int, t: int)
    ensures s * (4 * q + t) == 4 * (s * q) + s * t
    ensures s * (q * 5) == 5 * (s * q)
    ensures s * (q + 4 * q) == 5 * (s * q)
  {
  }

  lemma {:induction false} SmallTop(s: int, r: int)
    requires 0 <= s <= 5 && 0 <= r < 0x1000_0000
    ensures 0 <= s * (r / 4) <= 5 * 0x3ff_ffff
    ensures 0 <= s * (r % 4) <= 15
    ensures s * r == 4 * (s * (r / 4)) + s * (r % 4)
    ensures s * (r / 4 * 5) == 5 * (s * (r / 4))
    ensures r % 4 == 0 ==> s * (r / 4 + r) == 5 * (s * (r / 4))
  {
    MulBound(s, r / 4, 5, 0x3ff_ffff);
    MulBound(s, r % 4, 5, 3);
    assert r == 4 * (r / 4) + r % 4;
    Distribute(s, r / 4, r % 4);
  }

  /** One limb of the sum against every limb of r. */
  datatype Row = Row(a0: int, a1: int, a2: int, a3: int, b: int)

  /** s times each quarter limb, and s times the two bits r0 loses. */
  function RowOf(s: int, r: Four): (res: Row) {
    Row(s * (r.w0 as int / 4), s * (r.w1 as int / 4), s * (r.w2 as int / 4), s * (r.w3 as int / 4), s * (r.w0 as int % 4))
  }

  lemma {:induction false} LimbRow(s: int, r: Four)
    requires 0 <= s < 0x2_0000_0000 && Clamped(r)
    ensures var w := RowOf(s, r);
      && 0 <= w.a0 <= 0x1_ffff_ffff * 0x3ff_ffff && 0 <= w.a1 <= 0x1_ffff_ffff * 0x3ff_ffff
      && 0 <= w.a2 <= 0x1_ffff_ffff * 0x3ff_ffff && 0 <= w.a3 <= 0x1_ffff_ffff * 0x3ff_ffff
      && 0 <= 4 * w.a0 + w.b <= 0x1_ffff_ffff * 0xfff_ffff
      && s * r.w0 as int == 4 * w.a0 + w.b && s * r.w1 as int == 4 * w.a1
      && s * r.w2 as int == 4 * w.a2 && s * r.w3 as int == 4 * w.a3
      && s * (r.w0 as int / 4 * 5) == 5 * w.a0
      && s * (r.w1 as int / 4 + r.w1 as int) == 5 * w.a1
      && s * (r.w2 as int / 4 + r.w2 as int) == 5 * w.a2
      && s * (r.w3 as int / 4 + r.w3 as int) == 5 * w.a3
  {
    SmallProduct(s, r.w0 as int);
    SmallProduct(s, r.w1 as int);
    SmallProduct(s, r.w2 as int);
    SmallProduct(s, r.w3 as int);
  }

  lemma {:induction false} TopRow(s: int, r: Four)
    requires 0 <= s <= 5 && Clamped(r)
    ensures var w := RowOf(s, r);
      && 0 <= w.a0 <= 5 * 0x3ff_ffff && 0 <= w.a1 <= 5 * 0x3ff_ffff
      && 0 <= w.a2 <= 5 * 0x3ff_ffff && 0 <= w.a3 <= 5 * 0x3ff_ffff && 0 <= w.b <= 15
      && s * (r.w0 as int / 4 * 5) == 5 * w.a0
      && s * (r.w1 as int / 4 + r.w1 as int) == 5 * w.a1
      && s * (r.w2 as int / 4 + r.w2 as int) == 5 * w.a2
      && s * (r.w3 as int / 4 + r.w3 as int) == 5 * w.a3
  {
    SmallTop(s, r.w0 as int);
    SmallTop(s, r.w1 as int);
    SmallTop(s, r.w2 as int);
    SmallTop(s, r.w3 as int);
  }

  /** A row is that limb times r. */
  function RowValue(w: Row): (r: int) {
    4 * w.a0 + w.b + 4 * w.a1 * 0x1_0000_0000 + 4 * w.a2 * 0x1_0000_0000_0000_0000
    + 4 * w.a3 * 0x1_0000_0000_0000_0000_0000_0000
  }

  lemma {:induction false} RowIsProduct(s: int, r: Four)
    requires Clamped(r)
    ensures RowValue(RowOf(s, r)) == s * Value4(r)
  {
    var q0, q1, q2, q3, t := r.w0 as int / 4, r.w1 as int / 4, r.w2 as int / 4, r.w3 as int / 4, r.w0 as int % 4;
    assert Value4(r) == 4 * q0 + t + 4 * q1 * 0x1_0000_0000 + 4 * q2 * 0x1_0000_0000_0000_0000
                        + 4 * q3 * 0x1_0000_0000_0000_0000_0000_0000;
    Spread(s, q0, q1, q2, q3, t);
  }

  lemma {:induction false} Spread(s: int, q0: int, q1: int, q2: int, q3: int, t: int)
    ensures s * (4 * q0 + t + 4 * q1 * 0x1_0000_0000 + 4 * q2 * 0x1_0000_0000_0000_0000
                 + 4 * q3 * 0x1_0000_0000_0000_0000_0000_0000)
      == 4 * (s * q0) + s * t + 4 * (s * q1) * 0x1_0000_0000 + 4 * (s * q2) * 0x1_0000_0000_0000_0000
         + 4 * (s * q3) * 0x1_0000_0000_0000_0000_0000_0000
  {
  }

  /** The whole product is its rows, each a limb further up. */
  lemma {:induction false} RowsAreProduct(s: Sums, v: int)
    ensures SumsValue(s) * v ==
      s.s0 as int * v + s.s1 as int * v * 0x1_0000_0000 + s.s2 as int * v * 0x1_0000_0000_0000_0000
      + s.s3 as int * v * 0x1_0000_0000_0000_0000_0000_0000 + s.s4 as int * v * 0x1_0000_0000_0000_0000_0000_0000_0000_0000
  {
  }

  /** The products past 2^130 that were folded back in times five. */
  function Folded(w1: Row, w2: Row, w3: Row, w4: Row): (r: int) {
    w1.a3 + w2.a2 + w3.a1 + w4.a0
    + (w2.a3 + w3.a2 + w4.a1) * 0x1_0000_0000
    + (w3.a3 + w4.a2) * 0x1_0000_0000_0000_0000
    + w4.a3 * 0x1_0000_0000_0000_0000_0000_0000
  }

  lemma {:induction false} FoldRows(w0: Row, w1: Row, w2: Row, w3: Row, w4: Row, x0: int, x1: int, x2: int, x3: int, x4: int)
    requires x0 == 4 * w0.a0 + w0.b + 5 * w1.a3 + 5 * w2.a2 + 5 * w3.a1 + 5 * w4.a0
    requires x1 == 4 * w0.a1 + 4 * w1.a0 + w1.b + 5 * w2.a3 + 5 * w3.a2 + 5 * w4.a1
    requires x2 == 4 * w0.a2 + 4 * w1.a1 + 4 * w2.a0 + w2.b + 5 * w3.a3 + 5 * w4.a2
    requires x3 == 4 * w0.a3 + 4 * w1.a2 + 4 * w2.a1 + 4 * w3.a0 + w3.b + 5 * w4.a3
    requires x4 == w4.b
    ensures RowValue(w0) + RowValue(w1) * 0x1_0000_0000 + RowValue(w2) * 0x1_0000_0000_0000_0000
      + RowValue(w3) * 0x1_0000_0000_0000_0000_0000_0000 + RowValue(w4) * 0x1_0000_0000_0000_0000_0000_0000_0000_0000
      == x0 + x1 * 0x1_0000_0000 + x2 * 0x1_0000_0000_0000_0000 + x3 * 0x1_0000_0000_0000_0000_0000_0000
         + x4 * 0x1_0000_0000_0000_0000_0000_0000_0000_0000 + TimesP(Folded(w1, w2, w3, w4))
  {
  }

  /** (h + c) * r, without carry propagation. No product or sum leaves its word. */
  method Multiply(s: Sums, r: Four) returns (x: Products, ghost k: int)
    requires SumsBounded(s) && Clamped(r)
    ensures ProductsBounded(x)
    ensures SumsValue(s) * Value4(r) == ProductsValue(x) + TimesP(k)
  {
    hide RowOf, RowValue, TimesP;
    var r0, r1, r2, r3 := r.w0 as u64, r.w1 as u64, r.w2 as u64, r.w3 as u64;
    var n0: u32, n1: u32, n2: u32, n3: u32 := r.w0 / 4 * 5, r.w1 / 4 + r.w1, r.w2 / 4 + r.w2, r.w3 / 4 + r.w3;
    var rr0, rr1, rr2, rr3, rr4 := n0 as u64, n1 as u64, n2 as u64, n3 as u64, r.w0 % 4;
    var s0, s1, s2, s3, s4 := s.s0, s.s1, s.s2, s.s3, s.s4 as u64;
    ghost var w0, w1, w2 := RowOf(s0 as int, r), RowOf(s1 as int, r), RowOf(s2 as int, r);
    ghost var w3, w4 := RowOf(s3 as int, r), RowOf(s4 as int, r);
    LimbRow(s0 as int, r);
    LimbRow(s1 as int, r);
    LimbRow(s2 as int, r);
    LimbRow(s3 as int, r);
    TopRow(s4 as int, r);
    TopBits(s4 as int, r);
    var x0 := s0 * r0 + s1 * rr3 + s2 * rr2 + s3 * rr1 + s4 * rr0;
    var x1 := s0 * r1 + s1 * r0 + s2 * rr3 + s3 * rr2 + s4 * rr1;
    var x2 := s0 * r2 + s1 * r1 + s2 * r0 + s3 * rr3 + s4 * rr2;
    var x3 := s0 * r3 + s1 * r2 + s2 * r1 + s3 * r0 + s4 * rr3;
    var x4: u32 := s.s4 * rr4;
    x := Products(x0, x1, x2, x3, x4);
    k := Folded(w1, w2, w3, w4);
    ProductIs(s, r, x);
  }

  lemma {:induction false} TopBits(s: int, r: Four)
    ensures RowOf(s, r).b == s * (r.w0 as int % 4)
  {
  }

  lemma {:induction false} ProductIs(s: Sums, r: Four, x: Products)
    requires Clamped(r)
    requires var w0, w1, w2 := RowOf(s.s0 as int, r), RowOf(s.s1 as int, r), RowOf(s.s2 as int, r);
      var w3, w4 := RowOf(s.s3 as int, r), RowOf(s.s4 as int, r);
      && x.x0 as int == 4 * w0.a0 + w0.b + 5 * w1.a3 + 5 * w2.a2 + 5 * w3.a1 + 5 * w4.a0
      && x.x1 as int == 4 * w0.a1 + 4 * w1.a0 + w1.b + 5 * w2.a3 + 5 * w3.a2 + 5 * w4.a1
      && x.x2 as int == 4 * w0.a2 + 4 * w1.a1 + 4 * w2.a0 + w2.b + 5 * w3.a3 + 5 * w4.a2
      && x.x3 as int == 4 * w0.a3 + 4 * w1.a2 + 4 * w2.a1 + 4 * w3.a0 + w3.b + 5 * w4.a3
      && x.x4 as int == w4.b
    ensures SumsValue(s) * Value4(r) == ProductsValue(x)
      + TimesP(Folded(RowOf(s.s1 as int, r), RowOf(s.s2 as int, r), RowOf(s.s3 as int, r), RowOf(s.s4 as int, r)))
  {
    hide RowOf, RowValue, Folded, Value4;
    var w0, w1, w2 := RowOf(s.s0 as int, r), RowOf(s.s1 as int, r), RowOf(s.s2 as int, r);
    var w3, w4 := RowOf(s.s3 as int, r), RowOf(s.s4 as int, r);
    RowIsProduct(s.s0 as int, r);
    RowIsProduct(s.s1 as int, r);
    RowIsProduct(s.s2 as int, r);
    RowIsProduct(s.s3 as int, r);
    RowIsProduct(s.s4 as int, r);
    RowsAreProduct(s, Value4(r));
    FoldRows(w0, w1, w2, w3, w4, x.x0 as int, x.x1 as int, x.x2 as int, x.x3 as int, x.x4 as int);
  }

  /** Partial reduction modulo 2^130 - 5: the carries run once round, and what
      passes 2^130 comes back times five. */
  method Carry(x: Products) returns (h: Limbs, ghost k: int)
    requires ProductsBounded(x)
    ensures Bounded(h)
    ensures ProductsValue(x) == Value(h) + TimesP(k)
  {
    var u5: u32 := (x.x3 / 0x1_0000_0000) as u32 + x.x4;
    var u0: u64 := (u5 / 4 * 5) as u64 + x.x0 % 0x1_0000_0000;
    var u1: u64 := u0 / 0x1_0000_0000 + x.x1 % 0x1_0000_0000 + x.x0 / 0x1_0000_0000;
    var u2: u64 := u1 / 0x1_0000_0000 + x.x2 % 0x1_0000_0000 + x.x1 / 0x1_0000_0000;
    var u3: u64 := u2 / 0x1_0000_0000 + x.x3 % 0x1_0000_0000 + x.x2 / 0x1_0000_0000;
    var u4: u32 := (u3 / 0x1_0000_0000) as u32 + u5 % 4;
    h := Limbs((u0 % 0x1_0000_0000) as u32, (u1 % 0x1_0000_0000) as u32, (u2 % 0x1_0000_0000) as u32,
               (u3 % 0x1_0000_0000) as u32, u4);
    k := u5 as int / 4;
  }

  // --- Bytes and limbs ---

  function Load32(s: seq<byte>, i: nat): (r: u32)
    requires i + 4 <= |s|
  {
    (s[i] as int + 256 * s[i + 1] as int + 65536 * s[i + 2] as int + 16777216 * s[i + 3] as int) as u32
  }

  function Words(s: seq<byte>): (r: Four)
    requires |s| >= 16
  {
    Four(Load32(s, 0), Load32(s, 4), Load32(s, 8), Load32(s, 12))
  }

  function Store32(w: u32): (b: seq<byte>)
    ensures |b| == 4 && Load32(b, 0) == w
  {
    var x := w as int;
    var y := x / 256;
    var z := y / 256;
    [x % 256, y % 256, z % 256, z / 256]
  }

  /** Four bytes at a time. */
  lemma {:induction false} NumStep(s: seq<byte>)
    requires |s| >= 4
    ensures Num(s) == Load32(s, 0) as int + 0x1_0000_0000 * Num(s[4..])
  {
    assert s[1..][1..] == s[2..] && s[2..][1..] == s[3..] && s[3..][1..] == s[4..];
    assert Num(s) == s[0] + 256 * Num(s[1..]);
    assert Num(s[1..]) == s[1] + 256 * Num(s[2..]);
    assert Num(s[2..]) == s[2] + 256 * Num(s[3..]);
    assert Num(s[3..]) == s[3] + 256 * Num(s[4..]);
  }

  lemma {:induction false} NumWords(s: seq<byte>)
    requires |s| == 16
    ensures Num(s) == Value4(Words(s))
  {
    NumStep(s);
    NumStep(s[4..]);
    NumStep(s[8..]);
    NumStep(s[12..]);
    assert s[4..][4..] == s[8..] && s[8..][4..] == s[12..] && s[12..][4..] == [];
    assert Num([]) == 0;
    assert Load32(s[4..], 0) == Load32(s, 4) && Load32(s[8..], 0) == Load32(s, 8) && Load32(s[12..], 0) == Load32(s, 12);
  }

  lemma {:induction false} Pow16()
    ensures Pow256(16) == 0x1_0000_0000_0000_0000_0000_0000_0000_0000
  {
    assert Pow256(4) == 0x1_0000_0000;
    assert Pow256(8) == 0x1_0000_0000_0000_0000;
    assert Pow256(12) == 0x1_0000_0000_0000_0000_0000_0000;
  }

  /** Zero filling and a one byte write the extra bit where the standard wants it. */
  lemma {:induction false} PaddedNum(part: seq<byte>, n: nat)
    ensures Num(part + [1] + Zeros(n)) == BlockNum(part)
    decreases |part|
  {
    if part == [] {
      assert part + [1] + Zeros(n) == [1] + Zeros(n);
      assert ([1] + Zeros(n))[1..] == Zeros(n);
      ZerosNum(n);
      assert Num([]) == 0;
    } else {
      var s := part + [1] + Zeros(n);
      assert s[1..] == part[1..] + [1] + Zeros(n);
      PaddedNum(part[1..], n);
    }
  }

  function Zeros(n: nat): (z: seq<byte>)
    ensures |z| == n
  {
    if n == 0 then [] else [0] + Zeros(n - 1)
  }

  lemma {:induction false} ZerosAt(n: nat)
    ensures forall i :: 0 <= i < n ==> Zeros(n)[i] == 0
  {
    if n > 0 {
      ZerosAt(n - 1);
    }
  }

  lemma {:induction false} ZerosNum(n: nat)
    ensures Num(Zeros(n)) == 0
  {
    if n > 0 {
      assert Zeros(n)[1..] == Zeros(n - 1);
      ZerosNum(n - 1);
    }
  }

  /** The masks of the limbs clear the bits the standard names in the bytes. */
  lemma {:induction false} ClampIsClamp(key: seq<byte>)
    requires |key| == 16
    ensures Words(ClampedBytes(key)) == ClampWords(Words(key))
  {
    ClampLow(key[0], key[1], key[2], key[3]);
    ClampHigh(key[4], key[5], key[6], key[7]);
    ClampHigh(key[8], key[9], key[10], key[11]);
    ClampHigh(key[12], key[13], key[14], key[15]);
  }

  function ClampWords(w: Four): (r: Four)
    ensures Clamped(r)
  {
    Four(w.w0 % 0x1000_0000, w.w1 % 0x1000_0000 / 4 * 4, w.w2 % 0x1000_0000 / 4 * 4, w.w3 % 0x1000_0000 / 4 * 4)
  }

  lemma {:induction false} ClampLow(a: byte, b: byte, c: byte, d: byte)
    ensures (a + 256 * b + 65536 * c + 16777216 * d) % 0x1000_0000 == a + 256 * b + 65536 * c + 16777216 * (d % 16)
  {
    assert d == d / 16 * 16 + d % 16;
    assert a + 256 * b + 65536 * c + 16777216 * d ==
      (a + 256 * b + 65536 * c + 16777216 * (d % 16)) + 0x1000_0000 * (d / 16);
  }

  lemma {:induction false} ClampHigh(a: byte, b: byte, c: byte, d: byte)
    ensures (a + 256 * b + 65536 * c + 16777216 * d) % 0x1000_0000 / 4 * 4
      == a / 4 * 4 + 256 * b + 65536 * c + 16777216 * (d % 16)
  {
    ClampLow(a, b, c, d);
    assert a == a / 4 * 4 + a % 4;
  }

  // --- Whole blocks ---

  /** The accumulator after nb blocks of input, each with its extra bit. */
  function Absorbed(acc: nat, input: seq<byte>, nb: nat, end: nat, r: nat): (res: nat)
    requires 16 * nb <= |input|
  {
    if nb == 0 then ModP(acc)
    else ModP((Absorbed(acc, input, nb - 1, end, r) + Num(input[16 * (nb - 1)..16 * nb])
               + end * 0x1_0000_0000_0000_0000_0000_0000_0000_0000) * r)
  }

  lemma {:induction false} AbsorbedStep(acc: nat, input: seq<byte>, nb: nat, end: nat, r: nat)
    requires 16 * nb + 16 <= |input|
    ensures Absorbed(acc, input, nb + 1, end, r) ==
      ModP((Absorbed(acc, input, nb, end, r) + Num(input[16 * nb..16 * nb + 16])
            + end * 0x1_0000_0000_0000_0000_0000_0000_0000_0000) * r)
  {
    hide ModP, Num;
    assert 16 * (nb + 1) == 16 * nb + 16;
  }

  /** One more block on a whole number of them. */
  lemma {:induction false} AccumulatedStep(m: seq<byte>, part: seq<byte>, r: nat)
    requires |m| % 16 == 0 && 0 < |part| <= 16
    ensures Accumulated(m + part, r) == ModP((Accumulated(m, r) + BlockNum(part)) * r)
  {
    hide ModP, BlockNum;
    var whole := m + part;
    assert LastStart(|whole|) == |m|;
    assert whole[..|m|] == m && whole[|m|..] == part;
  }

  lemma {:induction false} SameFactor(x: int, y: int, r: int)
    requires x == y
    ensures ModP(x * r) == ModP(y * r)
  {
  }

  lemma {:induction false} FullBlocks(m: seq<byte>, input: seq<byte>, nb: nat, r: nat)
    requires |m| % 16 == 0 && 16 * nb <= |input|
    ensures Absorbed(Accumulated(m, r), input, nb, 1, r) == Accumulated(m + input[..16 * nb], r)
  {
    hide ModP, Num, Accumulated, Absorbed, Pow256;
    if nb == 0 {
      assert m + input[..0] == m;
      AccumulatedReduced(m, r);
      StartAbsorbed(Accumulated(m, r), input, 1, r);
    } else {
      FullBlocks(m, input, nb - 1, r);
      AbsorbedStep(Accumulated(m, r), input, nb - 1, 1, r);
      Pow16();
      var front, block := m + input[..16 * (nb - 1)], input[16 * (nb - 1)..16 * nb];
      AccumulatedStep(front, block, r);
      SameFactor(Accumulated(front, r) + BlockNum(block),
                 Accumulated(front, r) + Num(block) + 1 * 0x1_0000_0000_0000_0000_0000_0000_0000_0000, r);
      assert front + block == m + input[..16 * nb];
    }
  }

  lemma {:induction false} AccumulatedReduced(m: seq<byte>, r: nat)
    ensures ModP(Accumulated(m, r)) == Accumulated(m, r)
  {
  }

  /** The last block, short: padded with a one byte and zeros, and no extra bit. */
  lemma {:induction false} ShortBlock(m: seq<byte>, part: seq<byte>, r: nat)
    requires |m| % 16 == 0 && 0 < |part| < 16
    ensures Absorbed(Accumulated(m, r), part + [1] + Zeros(15 - |part|), 1, 0, r) == Accumulated(m + part, r)
  {
    var padded := part + [1] + Zeros(15 - |part|);
    AccumulatedReduced(m, r);
    assert Absorbed(Accumulated(m, r), padded, 0, 0, r) == Accumulated(m, r);
    hide ModP, Num, Accumulated, Absorbed, Pow256;
    assert padded[0..16] == padded;
    PaddedNum(part, 15 - |part|);
    AbsorbedStep(Accumulated(m, r), padded, 0, 0, r);
    AccumulatedStep(m, part, r);
  }

  lemma {:induction false} StartAbsorbed(h: nat, input: seq<byte>, end: nat, r: nat)
    ensures Absorbed(h, input, 0, end, r) == ModP(h) == ModP(ModP(h))
  {
  }

  lemma {:induction false} Twice(h: nat)
    ensures ModP(ModP(h)) == ModP(h)
  {
  }

  lemma {:induction false} NothingYet(h: Limbs, r: nat)
    requires h == Limbs(0, 0, 0, 0, 0)
    ensures ModP(Value(h)) == Accumulated([], r)
  {
    hide ModP;
    ZeroResidue(Value(h));
    EmptyMessage(r);
  }

  lemma {:induction false} EmptyMessage(r: nat)
    ensures Accumulated([], r) == 0
  {
  }

  lemma {:induction false} ZeroResidue(x: int)
    requires x == 0
    ensures ModP(x) == 0
  {
  }

  /** The residue of the starting accumulator is all that matters. */
  lemma {:induction false} AbsorbedFull(h: nat, m: seq<byte>, input: seq<byte>, nb: nat, r: nat)
    requires |m| % 16 == 0 && 16 * nb <= |input| && ModP(h) == Accumulated(m, r)
    ensures Absorbed(h, input, nb, 1, r) == Accumulated(m + input[..16 * nb], r)
  {
    AccumulatedReduced(m, r);
    Blockwise(h, Accumulated(m, r), input, nb, 1, r);
    FullBlocks(m, input, nb, r);
  }

  // --- The context, updated in place ---

  class Context {
    var h: Limbs
    const r: Four
    const pad: Four
    const c: array<byte>
    var cIdx: nat
    ghost const key: seq<byte>
    /** Every byte given so far. */
    ghost var msg: seq<byte>

    ghost predicate Keyed() {
      && |key| == 32 && c.Length == 16 && Clamped(r)
      && Value4(r) == Num(ClampedBytes(key[..16])) && Value4(pad) == Num(key[16..])
    }

    ghost predicate Valid()
      reads this, c
    {
      && Keyed() && Bounded(h)
      && cIdx < 16 && cIdx <= |msg| && (|msg| - cIdx) % 16 == 0
      && c[..cIdx] == msg[|msg| - cIdx..]
      && ModP(Value(h)) == Accumulated(msg[..|msg| - cIdx], Value4(r))
    }

    constructor (key: seq<byte>)
      requires |key| == 32
      ensures Valid() && msg == [] && this.key == key && fresh(c)
    {
      hide ModP, Value, Value4, Num, Absorbed, Accumulated, ClampedBytes;
      h := Limbs(0, 0, 0, 0, 0);
      r := ClampWords(Words(key));
      pad := Words(key[16..]);
      c := new byte[16](i => 0);
      cIdx := 0;
      this.key := key;
      msg := [];
      new;
      NothingYet(h, Value4(r));
      NumWords(ClampedBytes(key[..16]));
      ClampIsClamp(key[..16]);
      NumWords(key[16..]);
    }

    /** h = (h + block) * r, block by block. */
    method PolyBlocks(input: seq<byte>, nb: nat, end: u32)
      requires Clamped(r) && Bounded(h) && 16 * nb <= |input| && end <= 1
      modifies this`h
      ensures Bounded(h)
      ensures ModP(Value(h)) == Absorbed(old(Value(h)), input, nb, end as nat, Value4(r))
    {
      StartAbsorbed(Value(h), input, end as nat, Value4(r));
      hide ModP, Value, Value4, Num, Absorbed, Accumulated, ClampedBytes;
      for i := 0 to nb
        invariant Bounded(h)
        invariant ModP(Value(h)) == Absorbed(old(Value(h)), input, i, end as nat, Value4(r)) == ModP(ModP(Value(h)))
      {
        AbsorbedStep(old(Value(h)), input, i, end as nat, Value4(r));
        OneBlock(input[16 * i..16 * i + 16], end, Absorbed(old(Value(h)), input, i, end as nat, Value4(r)));
        Twice(Value(h));
      }
    }

    method AddBlock(block: seq<byte>, end: u32) returns (s: Sums)
      requires Bounded(h) && |block| == 16 && end <= 1
      ensures SumsBounded(s)
      ensures SumsValue(s) == Value(h) + (Num(block) + end as nat * 0x1_0000_0000_0000_0000_0000_0000_0000_0000)
    {
      hide Num;
      NumWords(block);
      s := Sums(h.h0 as u64 + Load32(block, 0) as u64, h.h1 as u64 + Load32(block, 4) as u64,
                h.h2 as u64 + Load32(block, 8) as u64, h.h3 as u64 + Load32(block, 12) as u64, h.h4 + end);
    }

    method OneBlock(block: seq<byte>, end: u32, ghost acc: nat)
      requires Clamped(r) && Bounded(h) && |block| == 16 && end <= 1 && ModP(Value(h)) == ModP(acc)
      modifies this`h
      ensures Bounded(h)
      ensures ModP(Value(h)) ==
        ModP((acc + Num(block) + end as nat * 0x1_0000_0000_0000_0000_0000_0000_0000_0000) * Value4(r))
    {
      hide ModP, TimesP, Num, Value, Value4, SumsValue, ProductsValue, Clamped, Bounded;
      ghost var n := Num(block) + end as nat * 0x1_0000_0000_0000_0000_0000_0000_0000_0000;
      ghost var before := Value(h);
      var s := AddBlock(block, end);
      ghost var j, k;
      var x;
      x, j := Multiply(s, r);
      h, k := Carry(x);
      Reduced((before + n) * Value4(r), Value(h), j, k);
      BlockCongruent(before, acc, n, Value4(r));
    }

    /** Absorbs more of the message, however it is cut. */
    method Update(message: seq<byte>)
      requires Valid()
      modifies this, c
      ensures Valid() && msg == old(msg) + message
    {
      hide ModP, Value, Value4, Num, Absorbed, Accumulated, ClampedBytes, Keyed;
      if |message| == 0 {
        assert msg == msg + message;
        return;
      }
      var gap := (16 - cIdx) % 16;
      var aligned := if gap < |message| then gap else |message|;
      Align(message[..aligned]);
      var rest := message[aligned..];
      UpdateRest(rest);
      assert message == message[..aligned] + rest;
      assert old(msg) + message == old(msg) + message[..aligned] + rest;
    }

    /** Fills up towards a block boundary and processes a completed block. */
    method Align(part: seq<byte>)
      requires Valid() && |part| <= (16 - cIdx) % 16
      modifies this, c
      ensures Valid() && msg == old(msg) + part
      ensures |part| == (16 - old(cIdx)) % 16 ==> cIdx == 0
    {
      hide ModP, Value, Value4, Num, Absorbed, Accumulated, ClampedBytes, Keyed;
      Fill(part);
      if cIdx == 16 {
        Flush();
      }
    }

    /** The rest of the message: whole blocks at once, then the bytes left over. */
    method UpdateRest(rest: seq<byte>)
      requires Valid() && (|rest| > 0 ==> cIdx == 0)
      modifies this, c
      ensures Valid() && msg == old(msg) + rest
    {
      hide ModP, Value, Value4, Num, Absorbed, Accumulated, ClampedBytes, Keyed;
      var nb := |rest| / 16;
      if nb > 0 {
        Bulk(rest, nb);
      }
      Fill(rest[16 * nb..]);
      assert rest == rest[..16 * nb] + rest[16 * nb..];
      assert old(msg) + rest == old(msg) + rest[..16 * nb] + rest[16 * nb..];
    }

    /** Buffering, where the buffer may stand full for a moment. */
    ghost predicate Buffered()
      reads this, c
    {
      && Keyed() && Bounded(h)
      && cIdx <= 16 && cIdx <= |msg| && (|msg| - cIdx) % 16 == 0
      && c[..cIdx] == msg[|msg| - cIdx..]
      && ModP(Value(h)) == Accumulated(msg[..|msg| - cIdx], Value4(r))
    }

    method Fill(part: seq<byte>)
      requires Buffered() && cIdx + |part| <= 16
      modifies this`cIdx, this`msg, c
      ensures Buffered() && msg == old(msg) + part && cIdx == old(cIdx) + |part|
    {
      hide ModP, Value, Value4, Num, Absorbed, Accumulated, ClampedBytes;
      for i := 0 to |part|
        modifies this`cIdx, c
        invariant cIdx == old(cIdx) + i
        invariant c[..cIdx] == old(c[..cIdx]) + part[..i]
      {
        c[cIdx] := part[i];
        cIdx := cIdx + 1;
      }
      ghost var done := |msg| - old(cIdx);
      msg := msg + part;
      assert msg[..done] == old(msg)[..done];
      assert msg[done..] == old(msg)[done..] + part;
    }

    method Flush()
      requires Buffered() && cIdx == 16
      modifies this`h, this`cIdx
      ensures Valid() && msg == old(msg) && cIdx == 0
    {
      hide ModP, Value, Value4, Num, Absorbed, Accumulated, ClampedBytes;
      ghost var m := msg[..|msg| - 16];
      PolyBlocks(c[..], 1, 1);
      cIdx := 0;
      AbsorbedFull(old(Value(h)), m, c[..], 1, Value4(r));
      assert m + c[..][..16] == msg == msg[..|msg|];
    }

    method Bulk(rest: seq<byte>, nb: nat)
      requires Valid() && cIdx == 0 && 16 * nb <= |rest|
      modifies this`h, this`msg
      ensures Valid() && msg == old(msg) + rest[..16 * nb] && cIdx == 0
    {
      hide ModP, Value, Value4, Num, Absorbed, Accumulated, ClampedBytes;
      assert msg[..|msg|] == msg;
      AbsorbedFull(Value(h), msg, rest, nb, Value4(r));
      PolyBlocks(rest, nb, 1);
      msg := msg + rest[..16 * nb];
      assert msg[..|msg|] == msg;
    }

    /** Pads the last block if there is one, reduces fully and adds the pad. */
    method Final() returns (mac: seq<byte>)
      requires Valid()
      modifies this, c
      ensures |mac| == 16 && Num(mac) == Tag(key, msg) && msg == old(msg)
    {
      hide ModP, Value, Value4, Num, Absorbed, Accumulated, ClampedBytes;
      ghost var m, part := msg[..|msg| - cIdx], msg[|msg| - cIdx..];
      assert m + part == msg;
      if cIdx != 0 {
        PadBlock(part);
        AccumulatedReduced(m, Value4(r));
        Blockwise(Value(h), Accumulated(m, Value4(r)), c[..], 1, 0, Value4(r));
        ShortBlock(m, part, Value4(r));
        PolyBlocks(c[..], 1, 0);
      } else {
        assert m == msg;
      }
      mac := Emit(h, pad);
    }

    method PadBlock(ghost part: seq<byte>)
      requires c.Length == 16 && 0 < cIdx < 16 && c[..cIdx] == part
      modifies c
      ensures c[..] == part + [1] + Zeros(15 - |part|)
    {
      hide Num;
      for i := cIdx to 16
        invariant c[..cIdx] == part
        invariant forall k :: cIdx <= k < i ==> c[k] == 0
      {
        c[i] := 0;
      }
      c[cIdx] := 1;
      ZerosAt(15 - |part|);
    }
  }

  function Limb(h: Limbs, i: nat): (r: u32)
    requires i < 4
  {
    if i == 0 then h.h0 else if i == 1 then h.h1 else if i == 2 then h.h2 else h.h3
  }

  function Word(w: Four, i: nat): (r: u32)
    requires i < 4
  {
    if i == 0 then w.w0 else if i == 1 then w.w1 else if i == 2 then w.w2 else w.w3
  }

  /** The carry out of the first i limbs when five is added. */
  function Probe(h: Limbs, i: nat): (r: nat)
    requires i <= 4
  {
    if i == 0 then 5 else (Probe(h, i - 1) + Limb(h, i - 1) as int) / 0x1_0000_0000
  }

  /** The carry into limb i when the pad and c are added. */
  function CarryIn(h: Limbs, pad: Four, c: nat, i: nat): (r: nat)
    requires i <= 4
  {
    if i == 0 then c
    else (CarryIn(h, pad, c, i - 1) + Limb(h, i - 1) as int + Word(pad, i - 1) as int) / 0x1_0000_0000
  }

  function SumWord(h: Limbs, pad: Four, c: nat, i: nat): (r: u32)
    requires i < 4
  {
    ((CarryIn(h, pad, c, i) + Limb(h, i) as int + Word(pad, i) as int) % 0x1_0000_0000) as u32
  }

  /** Adding five carries past 2^130 exactly when there is a modulus to subtract. */
  lemma {:induction false} ProbeDecides(h: Limbs)
    requires Bounded(h)
    ensures Probe(h, 4) <= 1
    ensures (Probe(h, 4) + h.h4 as int) / 4 <= 1
    ensures Value(h) == ModP(Value(h)) + TimesP((Probe(h, 4) + h.h4 as int) / 4)
  {
    var a := Probe(h, 1);
    var b := Probe(h, 2);
    var c := Probe(h, 3);
    var d := Probe(h, 4);
    ProbeValue(h);
    var t := (d + h.h4 as int) / 4;
    ProbeResidue(Value(h), t);
  }

  lemma {:induction false} ProbeValue(h: Limbs)
    requires Bounded(h)
    ensures Probe(h, 4) <= 1
    ensures (Probe(h, 4) + h.h4 as int) / 4 == (Value(h) + 5) / 0x4_0000_0000_0000_0000_0000_0000_0000_0000
  {
    assert Probe(h, 1) == (5 + h.h0 as int) / 0x1_0000_0000;
    assert Probe(h, 2) == (Probe(h, 1) + h.h1 as int) / 0x1_0000_0000;
    assert Probe(h, 3) == (Probe(h, 2) + h.h2 as int) / 0x1_0000_0000;
    assert Probe(h, 4) == (Probe(h, 3) + h.h3 as int) / 0x1_0000_0000;
  }

  lemma {:induction false} ProbeResidue(v: int, t: int)
    requires 0 <= v < 0x5_0000_0000_0000_0000_0000_0000_0000_0000
    requires t == (v + 5) / 0x4_0000_0000_0000_0000_0000_0000_0000_0000
    ensures 0 <= t <= 1 && v == ModP(v) + TimesP(t)
  {
  }

  /** The words written are the low 128 bits of the sum. */
  lemma {:induction false} SumWordsValue(h: Limbs, pad: Four, c: nat)
    requires c <= 5
    ensures Value4(Four(SumWord(h, pad, c, 0), SumWord(h, pad, c, 1), SumWord(h, pad, c, 2), SumWord(h, pad, c, 3)))
      == (Value(h) + Value4(pad) + c) % 0x1_0000_0000_0000_0000_0000_0000_0000_0000
  {
    var v0 := c + h.h0 as int + pad.w0 as int;
    var c1 := v0 / 0x1_0000_0000;
    var v1 := c1 + h.h1 as int + pad.w1 as int;
    var c2 := v1 / 0x1_0000_0000;
    var v2 := c2 + h.h2 as int + pad.w2 as int;
    var c3 := v2 / 0x1_0000_0000;
    var v3 := c3 + h.h3 as int + pad.w3 as int;
    assert CarryIn(h, pad, c, 0) == c && CarryIn(h, pad, c, 1) == c1;
    assert CarryIn(h, pad, c, 2) == c2;
    assert CarryIn(h, pad, c, 3) == c3;
    var low := v0 % 0x1_0000_0000 + v1 % 0x1_0000_0000 * 0x1_0000_0000 + v2 % 0x1_0000_0000 * 0x1_0000_0000_0000_0000
      + v3 % 0x1_0000_0000 * 0x1_0000_0000_0000_0000_0000_0000;
    LowBits(low, Value(h) + Value4(pad) + c, v3 / 0x1_0000_0000 + h.h4 as int);
  }

  lemma {:induction false} LowBits(low: int, v: int, q: int)
    requires 0 <= low < 0x1_0000_0000_0000_0000_0000_0000_0000_0000
    requires v == low + q * 0x1_0000_0000_0000_0000_0000_0000_0000_0000
    ensures v % 0x1_0000_0000_0000_0000_0000_0000_0000_0000 == low
  {
  }

  /** Subtracting the modulus is adding five, as far as 128 bits can tell. */
  lemma {:induction false} FinalSum(v: int, t: int, pad: int)
    requires 0 <= t <= 1 && v == ModP(v) + TimesP(t)
    ensures (v + pad + t * 5) % 0x1_0000_0000_0000_0000_0000_0000_0000_0000
      == (ModP(v) + pad) % 0x1_0000_0000_0000_0000_0000_0000_0000_0000
  {
  }

  /** The last reduction, the pad, and the tag's bytes. */
  method Emit(h: Limbs, pad: Four) returns (mac: seq<byte>)
    requires Bounded(h)
    ensures |mac| == 16
    ensures Num(mac) == (ModP(Value(h)) + Value4(pad)) % 0x1_0000_0000_0000_0000_0000_0000_0000_0000
  {
    hide ModP, TimesP, Num, Value, Value4, Probe, CarryIn, SumWord, Load32;
    var c: u64 := 5;
    StartProbe(h);
    for i := 0 to 4
      invariant c as int == Probe(h, i) <= 5
    {
      ProbeStep(h, i);
      c := c + Limb(h, i) as u64;
      c := c / 0x1_0000_0000;
    }
    ProbeDecides(h);
    c := c + h.h4 as u64;
    c := c / 4 * 5;
    ghost var t := c as int / 5;
    ghost var start := c as int;
    StartCarry(h, pad, start);
    mac := [];
    for i := 0 to 4
      invariant |mac| == 4 * i && c as int == CarryIn(h, pad, start, i) <= 5
      invariant forall k: nat :: k < i ==> Load32(mac, 4 * k) == SumWord(h, pad, start, k)
    {
      CarryStep(h, pad, start, i);
      c := c + Limb(h, i) as u64 + Word(pad, i) as u64;
      ghost var was := mac;
      mac := mac + Store32((c % 0x1_0000_0000) as u32);
      Appended(was, (c % 0x1_0000_0000) as u32, i);
      c := c / 0x1_0000_0000;
    }
    SumWordsValue(h, pad, start);
    NumWords(mac);
    FinalSum(Value(h), t, Value4(pad));
  }

  lemma {:induction false} StartProbe(h: Limbs)
    ensures Probe(h, 0) == 5
  {
  }

  lemma {:induction false} ProbeStep(h: Limbs, i: nat)
    requires i < 4 && Probe(h, i) <= 5
    ensures Probe(h, i + 1) == (Probe(h, i) + Limb(h, i) as int) / 0x1_0000_0000 <= 5
  {
  }

  lemma {:induction false} StartCarry(h: Limbs, pad: Four, c: nat)
    ensures CarryIn(h, pad, c, 0) == c
  {
  }

  lemma {:induction false} CarryStep(h: Limbs, pad: Four, c: nat, i: nat)
    requires i < 4 && CarryIn(h, pad, c, i) <= 5
    ensures var v := CarryIn(h, pad, c, i) + Limb(h, i) as int + Word(pad, i) as int;
      && CarryIn(h, pad, c, i + 1) == v / 0x1_0000_0000 <= 5
      && SumWord(h, pad, c, i) as int == v % 0x1_0000_0000
  {
  }

  lemma {:induction false} Appended(mac: seq<byte>, w: u32, i: nat)
    requires |mac| == 4 * i
    ensures Load32(mac + Store32(w), 4 * i) == w
    ensures forall k: nat :: k < i ==> Load32(mac + Store32(w), 4 * k) == Load32(mac, 4 * k)
  {
    hide Num;
    var b := Store32(w);
    assert Load32(b, 0) == w;
  }

  lemma {:induction false} Reduced(v: int, h: int, j: int, k: int)
    requires v == h + TimesP(k) + TimesP(j)
    ensures ModP(h) == ModP(v)
  {
    ModShift(h, k);
    ModShift(h + TimesP(k), j);
  }

  /** Only the residue of the starting accumulator matters. */
  lemma {:induction false} Blockwise(h: nat, acc: nat, input: seq<byte>, nb: nat, end: nat, r: nat)
    requires 16 * nb <= |input| && ModP(h) == ModP(acc)
    ensures Absorbed(h, input, nb, end, r) == Absorbed(acc, input, nb, end, r)
  {
    if nb > 0 {
      Blockwise(h, acc, input, nb - 1, end, r);
    }
  }

  function Joined(pieces: seq<seq<byte>>): (r: seq<byte>) {
    if pieces == [] then [] else Joined(pieces[..|pieces| - 1]) + pieces[|pieces| - 1]
  }

  /** The tag of a message given in pieces: how it is cut makes no difference. */
  method AuthenticatePieces(key: seq<byte>, pieces: seq<seq<byte>>) returns (mac: seq<byte>)
    requires |key| == 32
    ensures |mac| == 16 && Num(mac) == Tag(key, Joined(pieces))
  {
    hide Num, Tag;
    var ctx := new Context(key);
    for i := 0 to |pieces|
      invariant ctx.Valid() && ctx.key == key && fresh(ctx) && fresh(ctx.c)
      invariant ctx.msg == Joined(pieces[..i])
    {
      assert pieces[..i + 1][..i] == pieces[..i];
      ctx.Update(pieces[i]);
    }
    assert pieces[..|pieces|] == pieces;
    mac := ctx.Final();
  }

  method Authenticate(key: seq<byte>, message: seq<byte>) returns (mac: seq<byte>)
    requires |key| == 32
    ensures |mac| == 16 && Num(mac) == Tag(key, message)
  {
    hide Num, Tag;
    var ctx := new Context(key);
    ctx.Update(message);
    assert [] + message == message;
    mac := ctx.Final();
  }
}
