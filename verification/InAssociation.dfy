/** The receiving half of an association, updated in place: bitmap and hold-back
    ring are arrays, and each method is proved equal to the function of the same
    name in Receiver. Pushing onto the ready lane always succeeds, because a lane
    is sized for the whole receive pool. */
module InAssociations {
  import opened Options
  import opened FlowTypes
  import opened Receiver

  /** What every method below needs of the state it finds. */
  ghost predicate Consistent(s: InState) {
    && Shape(s)
    && NoGhostBits(s.seen, s.recvHighest)
    && (IsOrdered(s.mode) ==> OrderedInv(s))
  }

  lemma {:induction false} CommitNoGhost(s: InState, n: nat)
    requires Shape(s) && NoGhostBits(s.seen, s.recvHighest)
    requires s.recvHighest - |s.seen| < n && 1 <= n
    ensures NoGhostBits(Commit(s, n).seen, Commit(s, n).recvHighest)
  {
    CommitBitsLaw(s.seen, s.recvHighest, n);
  }

  lemma {:induction false} OrderedNoGhost(s: InState)
    requires OrderedInv(s)
    ensures Consistent(s)
  {
  }

  lemma {:induction false} FreshConsistent(mode: FlowMode)
    ensures Consistent(Fresh(mode))
  {
    if IsOrdered(mode) {
      FreshOrdered(mode);
    }
  }

  /** Every arrival leaves a consistent state, on every mode. */
  lemma {:induction false} DeliverConsistent(s: InState, n: nat, body: Body, room: bool)
    requires Consistent(s)
    ensures Consistent(Deliver(s, n, body, room).st)
  {
    if IsOrdered(s.mode) {
      DeliverOrderedKeeps(s, n, body, room);
      OrderedNoGhost(Deliver(s, n, body, room).st);
    } else if !AlreadySeen(s.seen, s.recvHighest, n) {
      CommitNoGhost(s, n);
    }
  }

  // --- The bitmap loop ---

  /** Clearing sequence s touches the one slot that stands for it. */
  lemma {:induction false} SlotCleared(s: int, hi: int, bits: nat)
    requires bits > 0 && hi - bits < s <= hi
    ensures forall i :: 0 <= i < bits ==> (i == s % bits <==> SeqAt(i, hi, bits) == s)
  {
    forall i | 0 <= i < bits
      ensures i == s % bits <==> SeqAt(i, hi, bits) == s
    {
      SeqAtUnique(s, hi, bits);
      SeqAtSlot(i, hi, bits);
    }
  }

  /** What one slot must hold after the commit, in terms of the sequence it stood
      for before. */
  lemma {:induction false} CommitSlot(was: seq<bool>, hi: nat, n: nat, i: int)
    requires |was| > 0 && hi - |was| < n
    requires NoGhostBits(was, hi)
    requires 0 <= i < |was|
    ensures CommitBits(was, hi, n)[i] <==>
      i == n % |was| || (was[i] && (n > hi ==>
        n - hi < |was| && !(Floor(hi, |was|) <= SeqAt(i, hi, |was|) < Floor(n, |was|))))
  {
    var bits := |was|;
    var top := Max(hi, n);
    var m := SeqAt(i, top, bits);
    SeqAtSlot(i, top, bits);
    SeqAtSlot(i, hi, bits);
    SeqAtUnique(n, top, bits);
    assert m == n <==> i == n % bits;
    var t := SeqAt(i, hi, bits);
    if m <= hi {
      SameSlot(m, t, bits);
    } else if n - hi < bits {
      ShiftMod(t, 1, bits);
      SameSlot(m, t + bits, bits);
      if t <= 0 {
        assert !BitOf(was, t);
      }
    }
  }

  // --- The range loop ---

  /** ranges lists every committed sequence above s, as maximal runs, newest
      first, and the last run listed reaches down to s. */
  ghost predicate ListedAbove(seen: seq<bool>, hi: nat, ranges: seq<AckRange>, s: int)
    requires |seen| > 0
  {
    && (forall i :: 0 <= i < |ranges| ==> IsMaximalRun(seen, hi, ranges[i]) && s < ranges[i].first)
    && (forall i, j :: 0 <= i < j < |ranges| ==> ranges[j].last + 1 < ranges[i].first)
    && (forall n :: SeenAt(seen, hi, n) && s < n ==> SeqInRanges(n, ranges))
  }

  lemma {:induction false} NothingListed(seen: seq<bool>, hi: nat)
    requires |seen| > 0
    ensures ListedAbove(seen, hi, [], hi)
  {
  }

  lemma {:induction false} NothingToList(seen: seq<bool>, hi: nat, maxRanges: nat)
    requires |seen| > 0 && (hi == 0 || maxRanges == 0)
    ensures IsAckRanges(seen, hi, [], maxRanges)
  {
  }

  lemma {:induction false} PassUnseen(seen: seq<bool>, hi: nat, ranges: seq<AckRange>, s: int)
    requires |seen| > 0 && ListedAbove(seen, hi, ranges, s) && !SeenAt(seen, hi, s)
    ensures ListedAbove(seen, hi, ranges, s - 1)
  {
  }

  lemma {:induction false} AppendRun(seen: seq<bool>, hi: nat, ranges: seq<AckRange>, s: nat, last: nat)
    requires |seen| > 0 && s < last
    requires ListedAbove(seen, hi, ranges, last)
    requires forall n :: s < n <= last ==> SeenAt(seen, hi, n)
    requires !SeenAt(seen, hi, s) && !SeenAt(seen, hi, last + 1)
    ensures ListedAbove(seen, hi, ranges + [AckRange(s + 1, last)], s)
  {
    var run := AckRange(s + 1, last);
    var out := ranges + [run];
    forall i | 0 <= i < |ranges|
      ensures last + 1 < ranges[i].first
    {
      assert IsMaximalRun(seen, hi, ranges[i]);
      assert SeenAt(seen, hi, ranges[i].first);
    }
    forall n | SeenAt(seen, hi, n) && s < n
      ensures SeqInRanges(n, out)
    {
      if n <= last {
        assert out[|ranges|] == run;
      } else {
        var i :| 0 <= i < |ranges| && ranges[i].first <= n <= ranges[i].last;
        assert out[i] == ranges[i];
      }
    }
  }

  lemma {:induction false} FinishRanges(seen: seq<bool>, hi: nat, ranges: seq<AckRange>, s: int, maxRanges: nat)
    requires |seen| > 0
    requires ListedAbove(seen, hi, ranges, s)
    requires |ranges| <= maxRanges
    requires s < Floor(hi, |seen|) || |ranges| == maxRanges
    ensures IsAckRanges(seen, hi, ranges, maxRanges)
  {
  }

  // --- The reclaim loop ---

  predicate HeldBitTo(hold: seq<HoldbackEntry>, k: int, bits: nat, n: nat)
    requires bits > 0 && n <= |hold|
  {
    exists i :: 0 <= i < n && hold[i].packet.Some? && hold[i].num % bits == k
  }

  lemma {:induction false} CountHeldMonotone(hold: seq<HoldbackEntry>, i: nat, n: nat)
    requires i <= n <= |hold|
    ensures CountHeldTo(hold, i) <= CountHeldTo(hold, n)
    decreases n
  {
    if i < n {
      CountHeldMonotone(hold, i, n - 1);
    }
  }

  class InAssociation {
    const mode: FlowMode
    const seen: array<bool>
    const hold: array<HoldbackEntry>
    var recvNext: nat
    var recvHighest: nat
    var heldCount: nat
    var newSinceFlush: nat
    var ackImmediate: bool
    /** The bodies pushed onto the peer's ready lane, oldest first. */
    var ready: seq<Body>

    ghost predicate Sized()
      reads this
    {
      && seen.Length == WindowFor(mode)
      && hold.Length == ReorderCapFor(mode)
      && recvNext >= 1
    }

    ghost predicate Valid()
      reads this, seen, hold
    {
      Sized() && Consistent(Model())
    }

    ghost function Model(): (r: InState)
      reads this, seen, hold
    {
      InState(mode, recvNext, recvHighest, seen[..], hold[..], heldCount, newSinceFlush, ackImmediate)
    }

    constructor (mode: FlowMode)
      ensures Valid() && Model() == Fresh(mode) && ready == []
      ensures fresh(seen) && fresh(hold)
    {
      this.mode := mode;
      seen := new bool[WindowFor(mode)](i => false);
      hold := new HoldbackEntry[ReorderCapFor(mode)](i => FREE_HOLD);
      recvNext, recvHighest, heldCount, newSinceFlush := 1, 0, 0, 0;
      ackImmediate, ready := false, [];
      new;
      assert Model() == Fresh(mode);
      FreshConsistent(mode);
    }

    /** Slides the window to cover n, clearing what falls out, then marks n. */
    method CommitSeen(n: nat)
      requires Sized() && NoGhostBits(seen[..], recvHighest)
      requires recvHighest - seen.Length < n
      modifies this`recvHighest, seen
      ensures Model() == Commit(old(Model()), n)
    {
      var bits := seen.Length;
      ghost var was := seen[..];
      ghost var high := recvHighest;
      if n > recvHighest {
        if n - recvHighest >= bits {
          for k := 0 to bits
            invariant forall i :: 0 <= i < k ==> !seen[i]
          {
            seen[k] := false;
          }
        } else {
          var oldFloor := if recvHighest >= bits then recvHighest - bits + 1 else 1;
          var newFloor := if n >= bits then n - bits + 1 else 1;
          var s := oldFloor;
          while s < newFloor
            invariant oldFloor <= s <= Max(oldFloor, newFloor)
            invariant forall i :: 0 <= i < bits ==>
              (seen[i] <==> was[i] && !(oldFloor <= SeqAt(i, high, bits) < s))
          {
            SlotCleared(s, high, bits);
            seen[s % bits] := false;
            s := s + 1;
          }
        }
        recvHighest := n;
      }
      seen[n % bits] := true;
      forall i | 0 <= i < bits
        ensures seen[i] <==> CommitBits(was, high, n)[i]
      {
        CommitSlot(was, high, n, i);
      }
    }

    /** Lists the maximal runs of committed sequences, newest first. */
    method BuildAckRanges(maxRanges: nat) returns (ranges: seq<AckRange>)
      requires seen.Length > 0 && NoGhostBits(seen[..], recvHighest)
      ensures IsAckRanges(seen[..], recvHighest, ranges, maxRanges)
    {
      hide ListedAbove, IsAckRanges, SeqInRanges;
      ranges := [];
      var bits, hi := seen.Length, recvHighest;
      NothingListed(seen[..], hi);
      if hi == 0 || maxRanges == 0 {
        NothingToList(seen[..], hi, maxRanges);
        return;
      }
      var floor := if hi >= bits then hi - bits + 1 else 1;
      var s := hi;
      while true
        invariant floor - 1 <= s <= hi
        invariant ListedAbove(seen[..], hi, ranges, s)
        invariant |ranges| < maxRanges
        invariant if ranges == [] then s == hi else !SeenAt(seen[..], hi, s)
        decreases s
      {
        var top := s;
        while s >= floor && !seen[s % bits]
          invariant floor - 1 <= s <= top
          invariant ListedAbove(seen[..], hi, ranges, s)
          invariant s < top ==> !SeenAt(seen[..], hi, s + 1)
        {
          PassUnseen(seen[..], hi, ranges, s);
          s := s - 1;
        }
        if s < floor {
          break;
        }
        var last := s;
        while s >= floor && seen[s % bits]
          invariant floor - 1 <= s <= last
          invariant forall n :: s < n <= last ==> SeenAt(seen[..], hi, n)
        {
          s := s - 1;
        }
        assert !SeenAt(seen[..], hi, s);
        AppendRun(seen[..], hi, ranges, s, last);
        ranges := ranges + [AckRange(s + 1, last)];
        if |ranges| == maxRanges {
          break;
        }
        if s < floor {
          break;
        }
      }
      FinishRanges(seen[..], hi, ranges, s, maxRanges);
    }

    method ArmAckForArrival()
      modifies this`newSinceFlush
      ensures newSinceFlush == if old(newSinceFlush) < UINT32_MAX then old(newSinceFlush) + 1 else old(newSinceFlush)
    {
      if newSinceFlush < UINT32_MAX {
        newSinceFlush := newSinceFlush + 1;
      }
    }

    method DrainHoldbackRun() returns (produced: nat)
      requires Sized()
      modifies this`recvNext, this`heldCount, this`ready, hold
      ensures Model() == DrainRun(old(Model())).st
      ensures ready == old(ready) + DrainRun(old(Model())).out
      ensures produced == |DrainRun(old(Model())).out|
    {
      hide DrainRun;
      produced := 0;
      ghost var goal := DrainRun(Model());
      ghost var done: seq<Body> := [];
      while hold.Length > 0
        invariant recvNext >= 1
        invariant Shape(Model())
        invariant goal.st == DrainRun(Model()).st
        invariant goal.out == done + DrainRun(Model()).out
        invariant ready == old(ready) + done && produced == |done|
        decreases HeldSlots(hold[..])
      {
        var i := recvNext % hold.Length;
        var held := hold[i];
        DrainRunUnfold(Model());
        if held.packet.None? || held.num != recvNext {
          break;
        }
        ghost var before := Model();
        ready := ready + [held.packet.value];
        hold[i] := FREE_HOLD;
        if heldCount > 0 {
          heldCount := heldCount - 1;
        }
        produced := produced + 1;
        recvNext := recvNext + 1;
        done := done + [held.packet.value];
        assert Model() == AfterDrainStep(before);
      }
      DrainRunEmpty(Model());
    }

    /** The cursor packet enters when it frees a run or there is room. */
    method DeliverCursor(body: Body, room: bool) returns (produced: nat)
      requires Sized() && NoGhostBits(seen[..], recvHighest)
      requires recvHighest - seen.Length < recvNext < SEQ_LIMIT
      modifies this, seen, hold
      ensures Model() == Receiver.DeliverOrdered(old(Model()), old(recvNext), body, room).st
      ensures ready == old(ready) + Receiver.DeliverOrdered(old(Model()), old(recvNext), body, room).out
      ensures produced == |Receiver.DeliverOrdered(old(Model()), old(recvNext), body, room).out|
    {
      hide DrainRun, CommitBits, NoGhostBits;
      if heldCount == 0 && !room {
        ArmAckForArrival();
        return 0;
      }
      var n := recvNext;
      ready := ready + [body];
      CommitSeen(n);
      ArmAckForArrival();
      recvNext := n + 1;
      assert Model() == ArmAck(Commit(old(Model()), n)).(recvNext := n + 1);
      var run := DrainHoldbackRun();
      return 1 + run;
    }

    /** Ahead of the cursor: held in its slot, or ejected and answered at once. */
    method HoldAhead(n: nat, body: Body, room: bool)
      requires Sized() && NoGhostBits(seen[..], recvHighest)
      requires recvHighest - seen.Length < recvNext < n
      modifies this, seen, hold
      ensures Model() == Receiver.DeliverOrdered(old(Model()), n, body, room).st
      ensures ready == old(ready)
    {
      var holdable := hold.Length > 0 && room && n < recvNext + hold.Length;
      if !holdable {
        ackImmediate := true;
        ArmAckForArrival();
        return;
      }
      var i := n % hold.Length;
      if hold[i].packet.None? {
        hold[i] := HoldbackEntry(n, Some(body));
        heldCount := heldCount + 1;
        ghost var held := Model();
        assert held.hold == old(hold[..])[i := HoldbackEntry(n, Some(body))];
        CommitSeen(n);
        ackImmediate := true;
        ArmAckForArrival();
        assert Model() == Urgent(Commit(held, n));
      }
    }

    method DeliverOrdered(n: nat, body: Body, room: bool) returns (produced: nat)
      requires Sized() && NoGhostBits(seen[..], recvHighest)
      requires recvHighest - seen.Length < recvNext < SEQ_LIMIT
      modifies this, seen, hold
      ensures Model() == Receiver.DeliverOrdered(old(Model()), n, body, room).st
      ensures ready == old(ready) + Receiver.DeliverOrdered(old(Model()), n, body, room).out
      ensures produced == |Receiver.DeliverOrdered(old(Model()), n, body, room).out|
    {
      if n < recvNext {
        ackImmediate := true;
        ArmAckForArrival();
        return 0;
      }
      if n == recvNext {
        produced := DeliverCursor(body, room);
      } else {
        HoldAhead(n, body, room);
        produced := 0;
      }
    }

    method DeliverUnordered(n: nat, body: Body, room: bool) returns (produced: nat)
      requires Sized() && NoGhostBits(seen[..], recvHighest)
      modifies this, seen
      ensures Model() == Receiver.DeliverUnordered(old(Model()), n, body, room).st
      ensures ready == old(ready) + Receiver.DeliverUnordered(old(Model()), n, body, room).out
      ensures produced == |Receiver.DeliverUnordered(old(Model()), n, body, room).out|
    {
      if AlreadySeen(seen[..], recvHighest, n) {
        ArmAckForArrival();
        return 0;
      }
      if mode == Unreliable && n <= recvHighest {
        CommitSeen(n);
        ArmAckForArrival();
        return 0;
      }
      if !room {
        ArmAckForArrival();
        return 0;
      }
      ready := ready + [body];
      CommitSeen(n);
      ArmAckForArrival();
      return 1;
    }

    /** One arrival: the state and what reached the application are those of
        Receiver.Deliver, and the state stays consistent. */
    method DeliverIn(n: nat, body: Body, room: bool) returns (produced: nat)
      requires Valid()
      requires recvNext < SEQ_LIMIT
      modifies this, seen, hold
      ensures Valid()
      ensures Model() == Deliver(old(Model()), n, body, room).st
      ensures ready == old(ready) + Deliver(old(Model()), n, body, room).out
      ensures produced == |Deliver(old(Model()), n, body, room).out|
    {
      DeliverConsistent(Model(), n, body, room);
      if IsOrdered(mode) {
        produced := DeliverOrdered(n, body, room);
      } else {
        produced := DeliverUnordered(n, body, room);
      }
    }

    /** The jam reclaim: frees every held packet and clears its bit. */
    method DropInHoldback() returns (dropped: nat)
      requires Valid()
      modifies this`heldCount, seen, hold
      ensures Valid()
      ensures Model() == DropHoldback(old(Model()))
      ensures dropped == CountHeld(old(hold[..]))
    {
      ghost var before := Model();
      if hold.Length == 0 {
        dropped := 0;
        assert seen[..] == DropHoldback(before).seen;
      } else {
        DropHoldbackOrdered(before);
        OrderedNoGhost(DropHoldback(before));
        dropped := DropHeld();
      }
    }

    method DropHeld() returns (dropped: nat)
      requires Sized() && hold.Length > 0
      requires heldCount == CountHeld(hold[..])
      modifies this`heldCount, seen, hold
      ensures Model() == DropHoldback(old(Model()))
      ensures dropped == CountHeld(old(hold[..]))
    {
      dropped := 0;
      ghost var before := Model();
      var bits := seen.Length;
      for i := 0 to hold.Length
        invariant forall k :: 0 <= k < i ==>
          hold[k] == if before.hold[k].packet.Some? then FREE_HOLD else before.hold[k]
        invariant forall k :: i <= k < hold.Length ==> hold[k] == before.hold[k]
        invariant forall k :: 0 <= k < bits ==>
          (seen[k] <==> before.seen[k] && !HeldBitTo(before.hold, k, bits, i))
        invariant dropped == CountHeldTo(before.hold, i)
        invariant heldCount == before.heldCount - dropped
      {
        if hold[i].packet.None? {
          continue;
        }
        CountHeldMonotone(before.hold, i + 1, |before.hold|);
        if heldCount > 0 {
          heldCount := heldCount - 1;
        }
        seen[hold[i].num % bits] := false;
        hold[i] := FREE_HOLD;
        dropped := dropped + 1;
      }
      assert hold[..] == DropHoldback(before).hold;
      assert seen[..] == DropHoldback(before).seen;
    }
  }
}
