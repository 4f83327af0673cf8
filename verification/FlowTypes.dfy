/** Flow vocabulary shared by both halves of an association: modes, windows,
    acknowledgement ranges and the arithmetic of indexing a ring by
    `seq & (window - 1)`, written `%` because every window is a power of two. */
module FlowTypes {

  type Body = seq<bv8>

  datatype FlowMode = ReliableOrdered | ReliableUnordered | Unreliable | ReliableOrderedBulk

  datatype Lifecycle = Open | Closing | Closed | Failed

  const FLOW_WINDOW: nat := 256
  const FLOW_WINDOW_BULK: nat := 1024
  const FLOW_ACK_RANGE_COUNT: nat := 16

  /** Sequences are compared as plain unsigned values on the receiving side, so
      every run below stays under the first sequence a window could wrap from. */
  const SEQ_LIMIT: nat := 0x1_0000_0000 - 1024

  predicate IsOrdered(mode: FlowMode) {
    mode == ReliableOrdered || mode == ReliableOrderedBulk
  }

  function WindowFor(mode: FlowMode): (r: nat) {
    if mode == ReliableOrderedBulk then FLOW_WINDOW_BULK else FLOW_WINDOW
  }

  function ReorderCapFor(mode: FlowMode): (r: nat) {
    if IsOrdered(mode) then WindowFor(mode) else 0
  }

  datatype AckRange = AckRange(first: nat, last: nat)

  predicate SeqInRanges(n: nat, ranges: seq<AckRange>) {
    exists i :: 0 <= i < |ranges| && ranges[i].first <= n <= ranges[i].last
  }

  /** The ring is indexed by masking; on a power of two that is the remainder. */
  lemma MaskIsMod(x: bv32)
    ensures x & 0xFF == x % 0x100
    ensures x & 0x3FF == x % 0x400
  {
  }

  lemma ScaledGap(w: int, q: int)
    requires w > 0
    ensures q >= 1 ==> w * q >= w
    ensures q <= -1 ==> w * q <= -w
  {
    if q >= 1 {
      assert w * (q - 1) >= 0;
    } else if q <= -1 {
      assert w * (-1 - q) >= 0;
    }
  }

  /** Two sequences less than a window apart that share a ring slot are equal. */
  lemma SameSlot(a: int, b: int, w: int)
    requires w > 0
    requires a % w == b % w
    requires -w < a - b < w
    ensures a == b
  {
    assert a == w * (a / w) + a % w;
    assert b == w * (b / w) + b % w;
    var q := a / w - b / w;
    assert a - b == w * q;
    ScaledGap(w, q);
  }

  /** The one sequence of (hi - w, hi] that ring slot i stands for. */
  function SeqAt(i: int, hi: int, w: int): (s: int)
    requires w > 0
    ensures hi - w < s <= hi
  {
    hi - (hi - i) % w
  }

  lemma SeqAtSlot(i: int, hi: int, w: int)
    requires 0 <= i < w
    ensures SeqAt(i, hi, w) % w == i
  {
    var q := (hi - i) / w;
    Euclid(hi - i, w);
    assert SeqAt(i, hi, w) == i + w * q;
    ShiftMod(i, q, w);
    SmallMod(i, w);
  }

  lemma Euclid(x: int, w: int)
    requires w > 0
    ensures x == w * (x / w) + x % w
  {
  }

  lemma SmallMod(i: int, w: int)
    requires 0 <= i < w
    ensures i % w == i
  {
  }

  lemma ShiftMod(a: int, q: int, w: int)
    requires w > 0
    ensures (a + w * q) % w == a % w
  {
    var b := a + w * q;
    assert b == w * (b / w) + b % w;
    assert a == w * (a / w) + a % w;
    var d := b / w - a / w - q;
    assert w * d == a % w - b % w;
    ScaledGap(w, d);
  }

  lemma SeqAtUnique(s: int, hi: int, w: int)
    requires w > 0
    requires hi - w < s <= hi
    ensures 0 <= s % w < w
    ensures SeqAt(s % w, hi, w) == s
  {
    SeqAtSlot(s % w, hi, w);
    SameSlot(SeqAt(s % w, hi, w), s, w);
  }
}
