/** Reliable unordered flows, both ends: each stamped sequence is delivered at
    most once, and whatever the receiver discards as a duplicate or as below its
    window was delivered already. */
module UnorderedFlow {
  import opened FlowTypes
  import opened Sender
  import opened FlowProtocol
  import opened SenderFacts
  import R = Receiver

  // --- The sender's half ---

  /** delivered holds the sequences the application has received. */
  ghost predicate SenderInv(o: OutState, stream: seq<Body>, delivered: set<nat>) {
    && Shape(o) && o.mode == ReliableUnordered
    && o.nextSeq == |stream| + 1 && o.ackBase == 1
    && CopiesKept(o, stream)
    && SlotsDistinct(o)
    && Placed(o.ring, o.nextSeq)
    && (o.life == Open ==> StillOwed(o.ring, o.nextSeq, delivered))
    && (o.life != Open ==> o.waiting == [])
    && LaggardsDelivered(o.nextSeq, |o.ring|, delivered)
  }

  /** An entry sits in its sequence's place, and none outlives its acknowledgement. */
  ghost predicate Placed(ring: seq<InFlightEntry>, nextSeq: nat) {
    forall i :: 0 <= i < |ring| && ring[i].num != 0 ==>
      1 <= ring[i].num < nextSeq && ring[i].num % |ring| == i && !ring[i].acked
  }

  /** A stamped sequence keeps its entry until it is delivered. */
  ghost predicate StillOwed(ring: seq<InFlightEntry>, nextSeq: nat, delivered: set<nat>)
    requires |ring| > 0
  {
    forall n: nat :: 1 <= n < nextSeq ==> n in delivered || EntryOf(ring, n).num == n
  }

  /** Sequence n + window is not stamped before n is delivered. */
  ghost predicate LaggardsDelivered(nextSeq: nat, window: nat, delivered: set<nat>) {
    forall n: nat :: 1 <= n && n + window < nextSeq ==> n in delivered
  }

  lemma {:induction false} StampOwes(o: OutState, r: OutState, stream: seq<Body>, delivered: set<nat>,
                                     now: nat, flying: bool, slot: nat, wireSize: nat, epoch: nat)
    requires SenderInv(o, stream, delivered) && o.life == Open
    requires o.ring[o.nextSeq % |o.ring|].num == 0
    requires r == Stamp(o, now, flying, slot, wireSize, epoch)
    ensures Placed(r.ring, r.nextSeq)
    ensures StillOwed(r.ring, r.nextSeq, delivered)
    ensures LaggardsDelivered(r.nextSeq, |r.ring|, delivered)
  {
    var w := |o.ring|;
    forall n: nat | 1 <= n < r.nextSeq
      ensures n in delivered || EntryOf(r.ring, n).num == n
    {
      if n < o.nextSeq {
        assert n in delivered || EntryOf(o.ring, n).num == n;
      }
    }
    forall n: nat | 1 <= n && n + w < r.nextSeq
      ensures n in delivered
    {
      if n + w == o.nextSeq {
        ShiftMod(n, 1, w);
        assert EntryOf(o.ring, n).num == n || n in delivered;
      }
    }
  }

  lemma {:induction false} StampKeeps(o: OutState, r: OutState, stream: seq<Body>, body: Body, delivered: set<nat>,
                                      now: nat, flying: bool, slot: nat, wireSize: nat, epoch: nat)
    requires SenderInv(o, stream, delivered) && o.life == Open
    requires o.ring[o.nextSeq % |o.ring|].num == 0
    requires slot in o.staging && o.staging[slot].body == body
    requires forall i :: 0 <= i < |o.ring| && o.ring[i].num != 0 ==> o.ring[i].slot != slot
    requires forall k :: 0 <= k < |o.waiting| ==> o.waiting[k].slot != slot
    requires r == Stamp(o, now, flying, slot, wireSize, epoch)
    ensures SenderInv(r, stream + [body], delivered)
    ensures r.waiting == o.waiting && r.life == o.life
    ensures forall k :: 0 <= k < |o.waiting| ==>
      o.waiting[k].slot in r.staging && r.staging[o.waiting[k].slot] == o.staging[o.waiting[k].slot]
  {
    StampOwes(o, r, stream, delivered, now, flying, slot, wireSize, epoch);
    StampCopies(o, r, stream, body, now, flying, slot, wireSize, epoch);
  }

  /** The ranges name only delivered sequences. */
  ghost predicate Truthful(ranges: seq<AckRange>, delivered: set<nat>) {
    forall n: nat :: SeqInRanges(n, ranges) ==> n in delivered
  }

  lemma {:induction false} AckedOwes(o: OutState, stream: seq<Body>, delivered: set<nat>, ranges: seq<AckRange>)
    requires SenderInv(o, stream, delivered)
    requires Truthful(ranges, delivered)
    ensures var ring := AckRing(false, o.ring, 1, ranges);
      && Placed(ring, o.nextSeq)
      && (o.life == Open ==> StillOwed(ring, o.nextSeq, delivered))
  {
    var ring := AckRing(false, o.ring, 1, ranges);
    if o.life == Open {
      forall n: nat | 1 <= n < o.nextSeq
        ensures n in delivered || EntryOf(ring, n).num == n
      {
        assert n in delivered || EntryOf(o.ring, n).num == n;
      }
    }
  }

  lemma {:induction false} AckedCopies(o: OutState, stream: seq<Body>, ranges: seq<AckRange>)
    requires Shape(o) && o.mode == ReliableUnordered
    requires CopiesKept(o, stream) && SlotsDistinct(o)
    ensures var r := Resolved(o, 1, ranges);
      && CopiesKept(r, stream) && SlotsDistinct(r)
      && WaitingBodies(r.waiting, r.staging) == WaitingBodies(o.waiting, o.staging)
  {
    var r := Resolved(o, 1, ranges);
    var freed := FreedSlots(false, o.ring, 1, ranges);
    forall i | 0 <= i < |r.ring| && r.ring[i].num != 0
      ensures r.ring[i].slot in r.staging && r.ring[i] == o.ring[i]
    {
      assert o.ring[i].slot !in freed;
    }
    forall k | 0 <= k < |o.waiting|
      ensures o.waiting[k].slot in r.staging
    {
      assert o.waiting[k].slot !in freed;
    }
  }

  /** An acknowledgement whose ranges are truthful never frees a copy the
      receiver might still need. */
  lemma {:induction false} ApplyAckKeeps(o: OutState, stream: seq<Body>, delivered: set<nat>, ranges: seq<AckRange>,
                                         now: nat, lossDelay: nat)
    requires SenderInv(o, stream, delivered)
    requires Truthful(ranges, delivered)
    ensures var r := ApplyAck(o, 1, ranges, now, lossDelay);
      && SenderInv(r, stream, delivered)
      && r.waiting == o.waiting && r.life == o.life
      && WaitingBodies(r.waiting, r.staging) == WaitingBodies(o.waiting, o.staging)
  {
    AckedOwes(o, stream, delivered, ranges);
    AckedCopies(o, stream, ranges);
    var a := Resolved(o, 1, ranges);
    var r := AckPasses(o, 1, ranges, now, lossDelay);
    assert SameNaming(a.ring, r.ring);
    RenamingKeeps(a, r, stream, delivered);
  }

  lemma {:induction false} RenamingKeeps(o: OutState, r: OutState, stream: seq<Body>, delivered: set<nat>)
    requires SenderInv(o, stream, delivered)
    requires SameNaming(o.ring, r.ring)
    requires forall i :: 0 <= i < |o.ring| && o.ring[i].num != 0 ==> r.ring[i].acked == o.ring[i].acked
    requires r == o.(ring := r.ring, unresolved := r.unresolved)
    ensures SenderInv(r, stream, delivered)
  {
    RenamingCopies(o, r, stream);
    if o.life == Open {
      forall n: nat | 1 <= n < r.nextSeq
        ensures n in delivered || EntryOf(r.ring, n).num == n
      {
        assert n in delivered || EntryOf(o.ring, n).num == n;
      }
    }
  }

  // --- The receiver's half ---

  /** Everything at or below the newest commit is delivered exactly when its bit
      says so or it has slid out of the window; nothing above is delivered. */
  ghost predicate ReceiverInv(r: R.InState, delivered: set<nat>) {
    && R.Shape(r) && r.mode == ReliableUnordered && r.recvNext == 1
    && R.NoGhostBits(r.seen, r.recvHighest)
    && (forall n: nat :: 1 <= n ==> (n in delivered <==> Discarded(r, n)))
    && 0 !in delivered
  }

  /** The receiver's test for a sequence it will not deliver again. */
  predicate Discarded(r: R.InState, n: nat)
    requires R.Shape(r)
  {
    R.AlreadySeen(r.seen, r.recvHighest, n)
  }

  /** Committing n moves the window; what slides out was delivered because the
      sender is never a window ahead of an undelivered sequence. */
  lemma {:induction false} CommitKeeps(r: R.InState, n: nat, delivered: set<nat>, nextSeq: nat)
    requires ReceiverInv(r, delivered)
    requires 1 <= n < nextSeq && !Discarded(r, n)
    requires r.recvHighest < nextSeq
    requires LaggardsDelivered(nextSeq, |r.seen|, delivered)
    ensures ReceiverInv(R.Commit(r, n), delivered + {n})
  {
    var c := R.Commit(r, n);
    var w := |r.seen|;
    R.CommitBitsLaw(r.seen, r.recvHighest, n);
    forall m: nat | 1 <= m
      ensures m in delivered + {n} <==> Discarded(c, m)
    {
      assert m in delivered <==> Discarded(r, m);
      if m <= c.recvHighest - w {
        assert m + w < nextSeq;
      } else if m <= c.recvHighest {
        assert R.BitOf(c.seen, m) <==> m == n || (m <= r.recvHighest && R.BitOf(r.seen, m));
      }
    }
  }

  // --- Both ends ---

  function Nums(delivered: seq<Packet>): (r: set<nat>) {
    set k | 0 <= k < |delivered| :: delivered[k].num
  }

  ghost predicate Inv(s: Sys) {
    && SenderInv(s.snd, s.stamped, Nums(s.delivered))
    && ReceiverInv(s.rcv, Nums(s.delivered))
    && s.rcv.recvHighest < s.snd.nextSeq
    && DataGenuine(s.data, s.stamped)
    && (forall a :: a in s.acks ==> a.recvNext == 1 && Truthful(a.ranges, Nums(s.delivered)))
    && AcceptOrder(s)
    && DeliveredGenuine(s.delivered, s.stamped)
    && DeliveredOnce(s.delivered)
  }

  ghost predicate DeliveredGenuine(delivered: seq<Packet>, stream: seq<Body>) {
    forall k :: 0 <= k < |delivered| ==>
      1 <= delivered[k].num <= |stream| && delivered[k].body == stream[delivered[k].num - 1]
  }

  ghost predicate DeliveredOnce(delivered: seq<Packet>) {
    forall j, k :: 0 <= j < k < |delivered| ==> delivered[j].num != delivered[k].num
  }

  lemma {:induction false} InitInv(cap: nat, pool: map<nat, StagedPacket>)
    requires INVALID !in pool
    ensures Inv(Init(ReliableUnordered, cap, pool))
  {
  }

  lemma {:induction false} SendKeeps(s: Sys, step: Step, t: Sys)
    requires Inv(s) && step.Send? && SendStep(s, step, t)
    ensures Inv(t)
  {
    var slot := step.slot;
    var o := s.snd.(staging := s.snd.staging[slot := StagedPacket(0, step.body)]);
    StagedCopies(s.snd, o, s.stamped, slot, StagedPacket(0, step.body));
    var a := Admit(o, step.gate, step.now, step.flying, slot, step.wireSize, step.epoch);
    if a.verdict == Sent {
      StampKeeps(o, a.st, s.stamped, step.body, Nums(s.delivered),
                 step.now, step.flying, slot, step.wireSize, step.epoch);
      assert t.snd.waiting == [];
    } else if a.verdict == Queued {
      QueueCopies(o, a.st, s.stamped, slot, step.wireSize);
    }
  }

  lemma {:induction false} DrainKeeps(s: Sys, step: Step, t: Sys)
    requires Inv(s) && step.Drain? && DrainStep(s, step, t)
    ensures Inv(t)
  {
    var head := s.snd.waiting[0];
    var o := s.snd.(waiting := s.snd.waiting[1..]);
    var body := s.snd.staging[head.slot].body;
    DequeueCopies(s.snd, o, s.stamped);
    StampKeeps(o, t.snd, s.stamped, body, Nums(s.delivered), step.now, true, head.slot, head.wireSize, step.epoch);
    SameWaiting(o.waiting, o.staging, t.snd.staging);
  }

  lemma {:induction false} ResendKeeps(s: Sys, step: Step, t: Sys)
    requires Inv(s) && (step.Collect? || step.Resend? || step.Refund?)
    requires Next(s, step, t)
    ensures Inv(t)
  {
    match step
    case Collect(i, now) =>
      RenamingKeeps(s.snd, t.snd, s.stamped, Nums(s.delivered));
    case Refund(num) =>
      RenamingKeeps(s.snd, t.snd, s.stamped, Nums(s.delivered));
    case Resend(num, slot) =>
      assert ResendStillValid(s.snd, num, slot) && num != 0 ==> num <= |s.stamped|;
  }

  lemma {:induction false} NumsAppend(delivered: seq<Packet>, p: Packet)
    ensures Nums(delivered + [p]) == Nums(delivered) + {p.num}
  {
    forall n | n in Nums(delivered) + {p.num}
      ensures n in Nums(delivered + [p])
    {
      if n in Nums(delivered) {
        var k :| 0 <= k < |delivered| && delivered[k].num == n;
        assert (delivered + [p])[k].num == n;
      } else {
        assert (delivered + [p])[|delivered|].num == n;
      }
    }
  }

  /** A first arrival is delivered and remembered. */
  lemma {:induction false} FirstArrival(s: Sys, p: Packet, t: Sys)
    requires Inv(s) && p in s.data && !Discarded(s.rcv, p.num)
    requires t == s.(rcv := R.ArmAck(R.Commit(s.rcv, p.num)), delivered := s.delivered + [p])
    ensures Inv(t)
  {
    NumsAppend(s.delivered, p);
    CommitKeeps(s.rcv, p.num, Nums(s.delivered), s.snd.nextSeq);
    assert ReceiverInv(t.rcv, Nums(t.delivered)) by {
      assert forall n: nat :: Discarded(t.rcv, n) <==> Discarded(R.Commit(s.rcv, p.num), n);
    }
    forall k | 0 <= k < |s.delivered|
      ensures s.delivered[k].num != p.num
    {
      assert s.delivered[k].num in Nums(s.delivered);
    }
    SenderHears(s.snd, s.stamped, Nums(s.delivered), Nums(t.delivered));
  }

  /** More deliveries only relax what the sender owes. */
  lemma {:induction false} SenderHears(o: OutState, stream: seq<Body>, before: set<nat>, after: set<nat>)
    requires SenderInv(o, stream, before) && before <= after
    ensures SenderInv(o, stream, after)
  {
  }

  lemma {:induction false} ArriveKeeps(s: Sys, step: Step, t: Sys)
    requires Inv(s) && step.Arrive? && Next(s, step, t)
    ensures Inv(t)
  {
    var p := step.packet;
    var d := R.DeliverUnordered(s.rcv, p.num, p.body, step.room);
    if !Discarded(s.rcv, p.num) && step.room {
      assert Numbered(p, d.out) == [p];
      FirstArrival(s, p, t);
    } else {
      assert Numbered(p, d.out) == [];
      assert t.delivered == s.delivered;
      assert forall n: nat :: Discarded(t.rcv, n) <==> Discarded(s.rcv, n);
    }
  }

  /** The ranges built from the bitmap name only committed sequences. */
  lemma {:induction false} AckTruthful(s: Sys, a: AckPacket)
    requires Inv(s)
    requires R.IsAckRanges(s.rcv.seen, s.rcv.recvHighest, a.ranges, FLOW_ACK_RANGE_COUNT)
    ensures Truthful(a.ranges, Nums(s.delivered))
  {
    forall n: nat | SeqInRanges(n, a.ranges)
      ensures n in Nums(s.delivered)
    {
      var i :| 0 <= i < |a.ranges| && a.ranges[i].first <= n <= a.ranges[i].last;
      assert R.IsMaximalRun(s.rcv.seen, s.rcv.recvHighest, a.ranges[i]);
      assert R.SeenAt(s.rcv.seen, s.rcv.recvHighest, n);
      assert Discarded(s.rcv, n);
    }
  }

  lemma {:induction false} BookkeepingKeeps(s: Sys, step: Step, t: Sys)
    requires Inv(s) && (step.BuildAck? || step.Reclaim?) && Next(s, step, t)
    ensures Inv(t)
  {
    if step.BuildAck? {
      AckTruthful(s, step.ack);
    } else {
      assert R.DropHoldback(s.rcv).seen == s.rcv.seen;
    }
    assert forall n: nat :: Discarded(t.rcv, n) <==> Discarded(s.rcv, n);
  }

  /** Every step of the protocol keeps the invariant. */
  lemma {:induction false} NextKeeps(s: Sys, step: Step, t: Sys)
    requires Inv(s) && Next(s, step, t)
    ensures Inv(t)
  {
    hide Inv;
    match step
    case Send(_, _, _, _, _, _, _) => SendKeeps(s, step, t);
    case Drain(_, _, _) => DrainKeeps(s, step, t);
    case Collect(_, _) => ResendKeeps(s, step, t);
    case Resend(_, _) => ResendKeeps(s, step, t);
    case Refund(_) => ResendKeeps(s, step, t);
    case Arrive(_, _) => ArriveKeeps(s, step, t);
    case BuildAck(_) => BookkeepingKeeps(s, step, t);
    case Reclaim => BookkeepingKeeps(s, step, t);
    case ApplyAckStep(_, _, _) => AckStepKeeps(s, step, t);
    case FailAssoc => BreakKeeps(s, step, t);
    case Lose(_, _) => BreakKeeps(s, step, t);
  }

  lemma {:induction false} AckStepKeeps(s: Sys, step: Step, t: Sys)
    requires Inv(s) && Next(s, step, t) && step.ApplyAckStep?
    ensures Inv(t)
  {
    match step
    case ApplyAckStep(a, now, lossDelay) =>
      ApplyAckKeeps(s.snd, s.stamped, Nums(s.delivered), a.ranges, now, lossDelay);
  }

  /** Failing the association or losing packets. */
  lemma {:induction false} BreakKeeps(s: Sys, step: Step, t: Sys)
    requires Inv(s) && Next(s, step, t) && (step.FailAssoc? || step.Lose?)
    ensures Inv(t)
  {
  }

  /** Every state of every run satisfies the invariant. */
  lemma {:induction false} RunKeeps(states: seq<Sys>, steps: seq<Step>, k: nat)
    requires IsRun(ReliableUnordered, states, steps)
    requires k < |states|
    ensures Inv(states[k])
  {
    if k == 0 {
      var cap: nat, pool: map<nat, StagedPacket> :|
        INVALID !in pool && states[0] == Init(ReliableUnordered, cap, pool);
      InitInv(cap, pool);
    } else {
      RunKeeps(states, steps, k - 1);
      assert Linked(states[k - 1], steps[k - 1], states[k - 1 + 1]);
      NextKeeps(states[k - 1], steps[k - 1], states[k]);
    }
  }

  // --- The theorems ---

  /** Each stamped sequence reaches the application at most once, with the body
      it was stamped with. */
  lemma {:induction false} AtMostOnce(states: seq<Sys>, steps: seq<Step>, k: nat)
    requires IsRun(ReliableUnordered, states, steps)
    requires k < |states|
    ensures var s := states[k];
      && (forall i, j :: 0 <= i < j < |s.delivered| ==> s.delivered[i].num != s.delivered[j].num)
      && forall i :: 0 <= i < |s.delivered| ==>
           1 <= s.delivered[i].num <= |s.stamped| && s.delivered[i].body == s.stamped[s.delivered[i].num - 1]
  {
    RunKeeps(states, steps, k);
  }

  /** A packet the receiver discards, as seen or as below its floor, is one the
      application already has; one it does not discard is new. */
  lemma {:induction false} DiscardedMeansDelivered(states: seq<Sys>, steps: seq<Step>, k: nat, p: Packet)
    requires IsRun(ReliableUnordered, states, steps)
    requires k < |states|
    requires p in states[k].data
    ensures var s := states[k];
      R.Shape(s.rcv) && (R.AlreadySeen(s.rcv.seen, s.rcv.recvHighest, p.num) <==> p in s.delivered)
  {
    RunKeeps(states, steps, k);
    var s := states[k];
    assert Discarded(s.rcv, p.num) <==> p.num in Nums(s.delivered);
    if p.num in Nums(s.delivered) {
      var i :| 0 <= i < |s.delivered| && s.delivered[i].num == p.num;
      assert s.delivered[i] == p;
    }
  }

  /** While the association is open, a stamped sequence that was not delivered
      still has its entry and its copy. */
  lemma {:induction false} UndeliveredRetained(states: seq<Sys>, steps: seq<Step>, k: nat, n: nat)
    requires IsRun(ReliableUnordered, states, steps)
    requires k < |states|
    requires states[k].snd.life == Open
    requires 1 <= n < states[k].snd.nextSeq
    requires forall i :: 0 <= i < |states[k].delivered| ==> states[k].delivered[i].num != n
    ensures var s := states[k];
      && Shape(s.snd) && n <= |s.stamped|
      && var e := EntryOf(s.snd.ring, n);
         e.num == n && e.slot in s.snd.staging
         && s.snd.staging[e.slot] == StagedPacket(n, s.stamped[n - 1])
  {
    RunKeeps(states, steps, k);
    var s := states[k];
    assert n in Nums(s.delivered) || EntryOf(s.snd.ring, n).num == n;
  }
  /** An acknowledgement of a window with no more runs than it can name, applied as it
      is built, leaves no entry for any sequence the window shows delivered: what
      arrived is never resent again. */
  lemma {:induction false} AckClears(states: seq<Sys>, steps: seq<Step>, k: nat, i: nat)
    requires IsRun(ReliableUnordered, states, steps)
    requires k + 1 < |steps| && steps[k].BuildAck? && steps[k + 1].ApplyAckStep? && steps[k + 1].ack == steps[k].ack
    requires R.Shape(states[k].rcv)
    requires R.FewRuns(states[k].rcv.seen, states[k].rcv.recvHighest, FLOW_ACK_RANGE_COUNT)
    requires i < |states[k + 2].snd.ring|
    ensures var t := states[k + 2];
      var num := t.snd.ring[i].num;
      num == 0 || num <= t.rcv.recvHighest - |t.rcv.seen| || num !in Nums(t.delivered)
  {
    RunKeeps(states, steps, k);
    RunKeeps(states, steps, k + 1);
    assert Linked(states[k], steps[k], states[k + 1]);
    assert Linked(states[k + 1], steps[k + 1], states[k + 1 + 1]);
    AckedOnce(states[k], states[k + 1], steps[k + 1], states[k + 2], i);
  }

  lemma {:induction false} AckedOnce(s: Sys, u: Sys, step: Step, t: Sys, i: nat)
    requires Inv(s) && Inv(u) && step.ApplyAckStep? && Next(s, BuildAck(step.ack), u) && Next(u, step, t)
    requires R.FewRuns(s.rcv.seen, s.rcv.recvHighest, FLOW_ACK_RANGE_COUNT)
    requires i < |t.snd.ring|
    ensures var num := t.snd.ring[i].num;
      num == 0 || num <= t.rcv.recvHighest - |t.rcv.seen| || num !in Nums(t.delivered)
  {
    hide ApplyAck, R.IsAckRanges, R.FewRuns;
    var a := step.ack;
    AckSettles(u.snd, a.recvNext, a.ranges, step.now, step.lossDelay, i);
    var num := t.snd.ring[i].num;
    if R.SeenAt(s.rcv.seen, s.rcv.recvHighest, num) {
      R.FewRunsNamed(s.rcv.seen, s.rcv.recvHighest, a.ranges, FLOW_ACK_RANGE_COUNT, num);
    }
    assert num != 0 && num in Nums(t.delivered) ==> Discarded(s.rcv, num);
  }

  // --- Progress ---

  /** A packet the application does not have, arriving with room, reaches it. */
  lemma {:induction false} NewArrivalDelivers(states: seq<Sys>, steps: seq<Step>, k: nat)
    requires IsRun(ReliableUnordered, states, steps)
    requires k < |steps| && steps[k].Arrive? && steps[k].room
    ensures var p, s, t := steps[k].packet, states[k], states[k + 1];
      t.delivered == if p in s.delivered then s.delivered else s.delivered + [p]
  {
    RunKeeps(states, steps, k);
    var p, s := steps[k].packet, states[k];
    assert Linked(s, steps[k], states[k + 1]);
    DiscardedMeansDelivered(states, steps, k, p);
    ArrivalExact(s, p);
  }

  lemma {:induction false} ArrivalExact(s: Sys, p: Packet)
    requires Inv(s) && p in s.data
    ensures var d := R.Deliver(s.rcv, p.num, p.body, true);
      Numbered(p, d.out) == if R.AlreadySeen(s.rcv.seen, s.rcv.recvHighest, p.num) then [] else [p]
  {
    R.DeliverUnorderedExact(s.rcv, p.num, p.body, true);
    hide R.Deliver;
  }

  /** An open flow is never stuck: any stamped packet the application does not have is
      three steps of its own away from it, in every state of every run. */
  lemma {:induction false} NeverStuck(states: seq<Sys>, steps: seq<Step>, k: nat, n: nat, now: nat)
    returns (a: Sys, b: Sys, c: Sys)
    requires IsRun(ReliableUnordered, states, steps)
    requires k < |states| && states[k].snd.life == Open
    requires 1 <= n < states[k].snd.nextSeq && n !in Nums(states[k].delivered)
    ensures var s := states[k];
      && Shape(s.snd) && R.Shape(s.rcv) && n <= |s.stamped|
      && var e := EntryOf(s.snd.ring, n);
         && Next(s, Collect(n % |s.snd.ring|, now), a)
         && Shape(a.snd) && R.Shape(a.rcv) && Next(a, Resend(n, e.slot), b)
         && Shape(b.snd) && R.Shape(b.rcv) && Next(b, Arrive(Packet(n, s.stamped[n - 1]), true), c)
         && c.delivered == s.delivered + [Packet(n, s.stamped[n - 1])]
  {
    RunKeeps(states, steps, k);
    var s := states[k];
    forall j | 0 <= j < |s.delivered|
      ensures s.delivered[j].num != n
    {
      assert s.delivered[j].num in Nums(s.delivered);
    }
    UndeliveredRetained(states, steps, k, n);
    var i := n % |s.snd.ring|;
    var e := s.snd.ring[i];
    var p := Packet(n, s.stamped[n - 1]);
    a := s.(snd := s.snd.(ring := s.snd.ring[i := ResendEntry(e, now)]), resends := s.resends + {(n, e.slot)});
    b := a.(resends := a.resends - {(n, e.slot)}, data := a.data + {p});
    var d := R.Deliver(b.rcv, p.num, p.body, true);
    c := b.(rcv := d.st, delivered := b.delivered + Numbered(p, d.out));
    assert !Discarded(s.rcv, n);
    R.DeliverUnorderedExact(s.rcv, n, p.body, true);
    assert Numbered(p, [p.body]) == [p];
  }
}
