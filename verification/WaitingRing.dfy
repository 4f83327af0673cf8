/** The waiting FIFO of an association: a ring of entries between a head that only
    advances and a count. */
module WaitingRings {
  import opened FlowTypes
  import opened Sender

  function Place(cap: nat, n: nat): (i: nat)
    requires cap > 0
    ensures i < cap
  {
    n % cap
  }

  function WaitingAt(w: seq<WaitingEntry>, k: nat): (r: WaitingEntry) {
    if |w| == 0 then FREE_WAITING else w[Place(|w|, k)]
  }

  /** Places less than a lap apart differ. */
  lemma {:induction false} PlacesDiffer(cap: nat, a: nat, b: nat)
    requires a < b < a + cap
    ensures Place(cap, a) != Place(cap, b)
  {
    if a % cap == b % cap {
      SameSlot(a, b, cap);
    }
  }

  lemma {:induction false} WrittenAt(w: seq<WaitingEntry>, head: nat, count: nat, at: nat, e: WaitingEntry)
    requires |w| > 0 && head <= at < head + |w| && count <= |w|
    ensures forall k :: head <= k < head + count && k != at ==>
      WaitingAt(w[Place(|w|, at) := e], k) == WaitingAt(w, k)
    ensures WaitingAt(w[Place(|w|, at) := e], at) == e
  {
    forall k | head <= k < head + count && k != at
      ensures WaitingAt(w[Place(|w|, at) := e], k) == WaitingAt(w, k)
    {
      if k < at {
        PlacesDiffer(|w|, k, at);
      } else {
        PlacesDiffer(|w|, at, k);
      }
    }
  }

  class WaitingRing {
    const slots: array<WaitingEntry>
    var head: nat
    var count: nat

    ghost predicate Valid()
      reads this
    {
      count <= slots.Length
    }

    /** The ring read as a FIFO, oldest first. */
    ghost function Contents(): (w: seq<WaitingEntry>)
      requires Valid()
      reads this, slots
      ensures |w| == count
    {
      seq(count, k requires 0 <= k < count reads this, slots => WaitingAt(slots[..], head + k))
    }

    constructor (cap: nat)
      ensures Valid() && Contents() == [] && slots.Length == cap && fresh(slots)
    {
      slots := new WaitingEntry[cap](i => FREE_WAITING);
      head, count := 0, 0;
    }

    method Peek() returns (first: WaitingEntry)
      requires Valid() && count > 0
      ensures first == Contents()[0]
    {
      first := slots[Place(slots.Length, head)];
      assert Contents()[0] == WaitingAt(slots[..], head + 0);
    }

    method Enqueue(slot: nat, wireSize: nat)
      requires Valid() && count < slots.Length
      modifies this`count, slots
      ensures Valid()
      ensures Contents() == old(Contents()) + [WaitingEntry(slot, wireSize)]
    {
      var tail := head + count;
      WrittenAt(slots[..], head, count, tail, WaitingEntry(slot, wireSize));
      ghost var was := slots[..];
      slots[Place(slots.Length, tail)] := WaitingEntry(slot, wireSize);
      assert slots[..] == was[Place(|was|, tail) := WaitingEntry(slot, wireSize)];
      count := count + 1;
    }

    method Dequeue() returns (first: WaitingEntry)
      requires Valid() && count > 0
      modifies this, slots
      ensures Valid()
      ensures [first] + Contents() == old(Contents())
    {
      WrittenAt(slots[..], head, count, head, FREE_WAITING);
      ghost var was := slots[..];
      var i := Place(slots.Length, head);
      first := slots[i];
      slots[i] := FREE_WAITING;
      assert slots[..] == was[i := FREE_WAITING];
      head := head + 1;
      count := count - 1;
      assert old(Contents())[0] == WaitingAt(was, old(head) + 0) == first;
      forall k | 0 <= k < count
        ensures Contents()[k] == old(Contents())[k + 1]
      {
        assert Contents()[k] == WaitingAt(slots[..], old(head) + (k + 1));
      }
    }
  }
}
