/** Ordered flows, both ends: delivery is the stamped stream in order, a copy is
    freed only once the receiver can no longer ask for it, and neither ring ever
    aliases two live sequences. */
module OrderedFlow {
  import opened Options
  import opened FlowTypes
  import opened Sender
  import opened FlowProtocol
  import opened SenderFacts
  import R = Receiver

  // --- The sender's half ---

  /** The ring holds exactly the sequences [ackBase, nextSeq), each in its slot. */
  ghost predicate RingExact(o: OutState)
    requires Shape(o)
  {
    && (forall i :: 0 <= i < |o.ring| && o.ring[i].num != 0 ==>
          o.ackBase <= o.ring[i].num < o.nextSeq && o.ring[i].num % |o.ring| == i)
    && (forall n: nat :: o.ackBase <= n < o.nextSeq ==> EntryOf(o.ring, n).num == n)
  }

  ghost predicate SenderInv(o: OutState, stream: seq<Body>) {
    && Shape(o) && IsOrdered(o.mode)
    && 1 <= o.ackBase <= o.nextSeq <= o.ackBase + |o.ring|
    && o.nextSeq == |stream| + 1
    && (o.life == Open ==> RingExact(o))
    && (o.life != Open ==> (forall i :: 0 <= i < |o.ring| ==> o.ring[i].num == 0) && o.waiting == [])
    && CopiesKept(o, stream)
    && SlotsDistinct(o)
    && o.unresolved == CountLive(o.ring)
  }

  /** The gate leaves room: the ring slot being free means the window has not
      caught up with the lowest retained sequence. */
  lemma {:induction false} GateLeavesRoom(o: OutState, stream: seq<Body>)
    requires SenderInv(o, stream) && o.life == Open
    requires o.ring[o.nextSeq % |o.ring|].num == 0
    ensures o.nextSeq < o.ackBase + |o.ring|
    ensures forall i :: 0 <= i < |o.ring| && o.ring[i].num != 0 ==> i != o.nextSeq % |o.ring|
  {
    assert o.ackBase < o.nextSeq ==> EntryOf(o.ring, o.ackBase).num == o.ackBase;
    if o.nextSeq == o.ackBase + |o.ring| {
      ShiftMod(o.ackBase, 1, |o.ring|);
    }
  }

  lemma {:induction false} StampRing(o: OutState, r: OutState, stream: seq<Body>, body: Body,
                                     now: nat, flying: bool, slot: nat, wireSize: nat, epoch: nat)
    requires SenderInv(o, stream) && o.life == Open
    requires o.ring[o.nextSeq % |o.ring|].num == 0
    requires r == Stamp(o, now, flying, slot, wireSize, epoch)
    ensures 1 <= r.ackBase <= r.nextSeq <= r.ackBase + |r.ring|
    ensures RingExact(r)
    ensures r.unresolved == CountLive(r.ring)
  {
    var w := |o.ring|;
    var j := o.nextSeq % w;
    GateLeavesRoom(o, stream);
    LiveUpdate(o.ring, j, r.ring[j]);
    forall n: nat | r.ackBase <= n < r.nextSeq
      ensures EntryOf(r.ring, n).num == n
    {
      if n < o.nextSeq {
        assert EntryOf(o.ring, n).num == n;
      }
    }
  }

  lemma {:induction false} StampKeeps(o: OutState, r: OutState, stream: seq<Body>, body: Body,
                                      now: nat, flying: bool, slot: nat, wireSize: nat, epoch: nat)
    requires SenderInv(o, stream) && o.life == Open
    requires o.ring[o.nextSeq % |o.ring|].num == 0
    requires slot in o.staging && o.staging[slot].body == body
    requires forall i :: 0 <= i < |o.ring| && o.ring[i].num != 0 ==> o.ring[i].slot != slot
    requires forall k :: 0 <= k < |o.waiting| ==> o.waiting[k].slot != slot
    requires r == Stamp(o, now, flying, slot, wireSize, epoch)
    ensures SenderInv(r, stream + [body])
    ensures r.waiting == o.waiting && r.life == o.life && r.ackBase == o.ackBase
    ensures forall k :: 0 <= k < |o.waiting| ==>
      o.waiting[k].slot in r.staging && r.staging[o.waiting[k].slot] == o.staging[o.waiting[k].slot]
  {
    StampRing(o, r, stream, body, now, flying, slot, wireSize, epoch);
    StampCopies(o, r, stream, body, now, flying, slot, wireSize, epoch);
  }

  lemma {:induction false} RenamingKeeps(o: OutState, r: OutState, stream: seq<Body>)
    requires SenderInv(o, stream)
    requires SameNaming(o.ring, r.ring)
    requires r == o.(ring := r.ring, unresolved := CountLive(r.ring))
    ensures SenderInv(r, stream)
  {
    if o.life == Open {
      forall n: nat | r.ackBase <= n < r.nextSeq
        ensures EntryOf(r.ring, n).num == n
      {
        assert EntryOf(o.ring, n).num == n;
      }
      assert RingExact(r);
    }
    RenamingCopies(o, r, stream);
  }

  /** Resolving and declaring losses touch neither sequences nor copies, and
      acknowledge everything below the reported cursor. */
  lemma {:induction false} PassesKeep(o: OutState, stream: seq<Body>, recvNext: nat, ranges: seq<AckRange>,
                                      now: nat, lossDelay: nat)
    requires SenderInv(o, stream)
    ensures var r := AckPasses(o, recvNext, ranges, now, lossDelay);
      && SenderInv(r, stream) && AckedBelow(r, recvNext)
      && r == o.(ring := r.ring, unresolved := r.unresolved)
  {
    var r := Resolved(o, recvNext, ranges);
    AckRingFewer(true, o.ring, recvNext, ranges);
    assert FreedSlots(true, o.ring, recvNext, ranges) == {};
    assert r.staging == o.staging;
    RenamingKeeps(o, r, stream);
    var l := AckPasses(o, recvNext, ranges, now, lossDelay);
    LiveSame(r.ring, l.ring);
    RenamingKeeps(r, l, stream);
  }

  function Min(a: int, b: int): (r: int) {
    if a < b then a else b
  }

  ghost predicate AckedBelow(o: OutState, n: nat) {
    forall i :: 0 <= i < |o.ring| && o.ring[i].num != 0 && o.ring[i].num < n ==> o.ring[i].acked
  }

  ghost predicate IsReleaseOne(o: OutState, r: OutState)
    requires Shape(o)
  {
    var i := o.ackBase % |o.ring|;
    && o.ring[i].acked
    && r == o.(ring := o.ring[i := ReleasedEntry(o.ring[i])],
               staging := o.staging - {o.ring[i].slot}, ackBase := o.ackBase + 1)
  }

  lemma {:induction false} ReleasedIsFree(e: InFlightEntry)
    ensures ReleasedEntry(e).num == 0 && !Live(ReleasedEntry(e))
  {
  }

  lemma {:induction false} ReleaseOneCount(o: OutState, r: OutState)
    requires Shape(o) && IsReleaseOne(o, r)
    ensures CountLive(r.ring) == CountLive(o.ring)
  {
    var i := o.ackBase % |o.ring|;
    LiveUpdate(o.ring, i, ReleasedEntry(o.ring[i]));
  }

  lemma {:induction false} ReleaseOneRing(o: OutState, r: OutState)
    requires Shape(o) && RingExact(o)
    requires 1 <= o.ackBase < o.nextSeq <= o.ackBase + |o.ring|
    requires IsReleaseOne(o, r)
    ensures RingExact(r)
  {
    var w := |o.ring|;
    var i := o.ackBase % w;
    hide ReleasedEntry;
    assert r.ring[i].num == 0 by {
      ReleasedIsFree(o.ring[i]);
    }
    forall k | 0 <= k < w && r.ring[k].num != 0
      ensures r.ackBase <= r.ring[k].num < r.nextSeq && r.ring[k].num % w == k
    {
      assert k != i && EntryOf(o.ring, o.ackBase).num == o.ackBase;
    }
    forall n: nat | r.ackBase <= n < r.nextSeq
      ensures EntryOf(r.ring, n).num == n
    {
      assert EntryOf(o.ring, n).num == n;
      if n % w == i {
        SameSlot(n, o.ackBase, w);
      }
    }
  }

  lemma {:induction false} ReleaseOneCopies(o: OutState, r: OutState, stream: seq<Body>)
    requires Shape(o)
    requires CopiesKept(o, stream) && SlotsDistinct(o)
    requires EntryOf(o.ring, o.ackBase).num != 0
    requires IsReleaseOne(o, r)
    ensures CopiesKept(r, stream) && SlotsDistinct(r)
    ensures forall k :: 0 <= k < |o.waiting| ==>
      o.waiting[k].slot in r.staging && r.staging[o.waiting[k].slot] == o.staging[o.waiting[k].slot]
  {
  }

  /** Freeing the lowest retained copy moves the base up by one. */
  lemma {:induction false} ReleaseOne(o: OutState, r: OutState, stream: seq<Body>)
    requires SenderInv(o, stream) && o.life == Open
    requires o.ackBase < o.nextSeq
    requires IsReleaseOne(o, r)
    ensures SenderInv(r, stream)
    ensures forall k :: 0 <= k < |o.waiting| ==>
      o.waiting[k].slot in r.staging && r.staging[o.waiting[k].slot] == o.staging[o.waiting[k].slot]
  {
    assert EntryOf(o.ring, o.ackBase).num == o.ackBase;
    ReleaseOneRing(o, r);
    ReleaseOneCount(o, r);
    ReleaseOneCopies(o, r, stream);
  }

  /** What releasing up to a reported cursor must come to. */
  ghost predicate ReleasedTo(o: OutState, r: OutState, recvNext: nat, stream: seq<Body>) {
    && SenderInv(r, stream)
    && r.ackBase == R.Max(o.ackBase, Min(o.nextSeq, recvNext))
    && r.waiting == o.waiting && r.life == o.life && r.nextSeq == o.nextSeq && r.mode == o.mode
    && forall k :: 0 <= k < |o.waiting| && o.waiting[k].slot in o.staging ==>
         o.waiting[k].slot in r.staging && r.staging[o.waiting[k].slot] == o.staging[o.waiting[k].slot]
  }

  lemma {:induction false} ReleaseOpen(o: OutState, recvNext: nat, steps: nat, stream: seq<Body>)
    requires SenderInv(o, stream) && o.life == Open
    requires AckedBelow(o, recvNext)
    requires Min(o.nextSeq, recvNext) - o.ackBase <= steps
    ensures ReleasedTo(o, ReleaseRun(o, recvNext, steps), recvNext, stream)
    decreases steps
  {
    if o.ackBase != o.nextSeq && o.ackBase < recvNext {
      assert EntryOf(o.ring, o.ackBase).num == o.ackBase;
      ReleaseUnfold(o, recvNext, steps);
      ReleaseOne(o, AfterRelease(o), stream);
      ReleaseOpen(AfterRelease(o), recvNext, steps - 1, stream);
    }
  }

  lemma {:induction false} ReleaseDrained(o: OutState, recvNext: nat, steps: nat, stream: seq<Body>)
    requires SenderInv(o, stream) && o.life != Open
    requires Min(o.nextSeq, recvNext) - o.ackBase <= steps
    ensures ReleasedTo(o, ReleaseRun(o, recvNext, steps), recvNext, stream)
    decreases steps
  {
    if o.ackBase != o.nextSeq && o.ackBase < recvNext {
      ReleaseUnfold(o, recvNext, steps);
      ReleaseDrained(o.(ackBase := o.ackBase + 1), recvNext, steps - 1, stream);
    }
  }

  /** One acknowledgement frees exactly the copies below the cursor it reports,
      whatever its ranges say. */
  lemma {:induction false} ApplyAckOrdered(o: OutState, stream: seq<Body>, recvNext: nat, ranges: seq<AckRange>,
                                           now: nat, lossDelay: nat)
    requires SenderInv(o, stream)
    ensures ReleasedTo(o, ApplyAck(o, recvNext, ranges, now, lossDelay), recvNext, stream)
  {
    PassesKeep(o, stream, recvNext, ranges, now, lossDelay);
    var r := AckPasses(o, recvNext, ranges, now, lossDelay);
    if o.life == Open {
      ReleaseOpen(r, recvNext, |o.ring|, stream);
    } else {
      ReleaseDrained(r, recvNext, |o.ring|, stream);
    }
  }

  lemma {:induction false} FailKeeps(o: OutState, stream: seq<Body>)
    requires SenderInv(o, stream)
    ensures SenderInv(Fail(o), stream)
  {
    LiveNone(Fail(o).ring);
  }

  // --- Both ends ---

  /** No acknowledgement claims more than the receiver has delivered. */
  ghost predicate AcksHonest(acks: set<AckPacket>, recvNext: nat) {
    forall a :: a in acks ==> a.recvNext <= recvNext
  }

  function Firsts(stream: seq<Body>, n: nat): (r: seq<Packet>)
    requires n <= |stream|
  {
    seq(n, k requires 0 <= k < n => Packet(k + 1, stream[k]))
  }

  ghost predicate ReceiverInv(r: R.InState, stream: seq<Body>, delivered: seq<Packet>) {
    && R.OrderedInv(r)
    && R.HoldsFrom(r, stream)
    && r.recvNext <= |stream| + 1
    && delivered == Firsts(stream, r.recvNext - 1)
  }

  ghost predicate Inv(s: Sys) {
    && s.snd.mode == s.rcv.mode
    && SenderInv(s.snd, s.stamped)
    && ReceiverInv(s.rcv, s.stamped, s.delivered)
    && s.snd.ackBase <= s.rcv.recvNext
    && DataGenuine(s.data, s.stamped)
    && AcksHonest(s.acks, s.rcv.recvNext)
    && AcceptOrder(s)
  }

  lemma {:induction false} InitInv(mode: FlowMode, cap: nat, pool: map<nat, StagedPacket>)
    requires IsOrdered(mode) && INVALID !in pool
    ensures Inv(Init(mode, cap, pool))
  {
    R.FreshOrdered(mode);
    LiveNone(FreshOut(mode, cap, pool).ring);
  }

  /** One more body in the stream disturbs nothing about the earlier ones. */
  lemma {:induction false} StreamGrows(r: R.InState, stream: seq<Body>, delivered: seq<Packet>, data: set<Packet>, body: Body)
    requires ReceiverInv(r, stream, delivered) && DataGenuine(data, stream)
    ensures ReceiverInv(r, stream + [body], delivered)
    ensures DataGenuine(data + {Packet(|stream| + 1, body)}, stream + [body])
  {
    assert Firsts(stream, r.recvNext - 1) == Firsts(stream + [body], r.recvNext - 1);
  }

  /** The sender with the offered body staged. */
  function Staged(o: OutState, slot: nat, body: Body): (r: OutState) {
    o.(staging := o.staging[slot := StagedPacket(0, body)])
  }

  lemma {:induction false} SentKeeps(s: Sys, step: Step, t: Sys)
    requires Inv(s) && step.Send? && SendStep(s, step, t)
    requires var o := Staged(s.snd, step.slot, step.body);
      Admit(o, step.gate, step.now, step.flying, step.slot, step.wireSize, step.epoch).verdict == Sent
    ensures Inv(t)
  {
    hide ReceiverInv, AcksHonest;
    var slot := step.slot;
    var o := Staged(s.snd, slot, step.body);
    StagedCopies(s.snd, o, s.stamped, slot, StagedPacket(0, step.body));
    StampKeeps(o, t.snd, s.stamped, step.body, step.now, step.flying, slot, step.wireSize, step.epoch);
    StreamGrows(s.rcv, s.stamped, s.delivered, s.data, step.body);
    assert t.snd.waiting == [];
  }

  lemma {:induction false} QueuedKeeps(s: Sys, step: Step, t: Sys)
    requires Inv(s) && step.Send? && SendStep(s, step, t)
    requires var o := Staged(s.snd, step.slot, step.body);
      Admit(o, step.gate, step.now, step.flying, step.slot, step.wireSize, step.epoch).verdict == Queued
    ensures Inv(t)
  {
    hide ReceiverInv, AcksHonest, DataGenuine;
    var o := Staged(s.snd, step.slot, step.body);
    StagedCopies(s.snd, o, s.stamped, step.slot, StagedPacket(0, step.body));
    QueueCopies(o, t.snd, s.stamped, step.slot, step.wireSize);
  }

  lemma {:induction false} SendKeeps(s: Sys, step: Step, t: Sys)
    requires Inv(s) && step.Send? && SendStep(s, step, t)
    ensures Inv(t)
  {
    var o := Staged(s.snd, step.slot, step.body);
    var verdict := Admit(o, step.gate, step.now, step.flying, step.slot, step.wireSize, step.epoch).verdict;
    hide Inv, Admit;
    if verdict == Sent {
      SentKeeps(s, step, t);
    } else if verdict == Queued {
      QueuedKeeps(s, step, t);
    }
  }

  lemma {:induction false} DrainKeeps(s: Sys, step: Step, t: Sys)
    requires Inv(s) && step.Drain? && DrainStep(s, step, t)
    ensures Inv(t)
  {
    var head := s.snd.waiting[0];
    var o := s.snd.(waiting := s.snd.waiting[1..]);
    var body := s.snd.staging[head.slot].body;
    DequeueCopies(s.snd, o, s.stamped);
    StampKeeps(o, t.snd, s.stamped, body, step.now, true, head.slot, head.wireSize, step.epoch);
    StreamGrows(s.rcv, s.stamped, s.delivered, s.data, body);
    SameWaiting(o.waiting, o.staging, t.snd.staging);
  }

  lemma {:induction false} ResendKeeps(s: Sys, step: Step, t: Sys)
    requires Inv(s) && (step.Collect? || step.Resend? || step.Refund?)
    requires Next(s, step, t)
    ensures Inv(t)
  {
    match step
    case Collect(i, now) =>
      LiveSame(s.snd.ring, t.snd.ring);
      RenamingKeeps(s.snd, t.snd, s.stamped);
    case Refund(num) =>
      LiveSame(s.snd.ring, t.snd.ring);
      RenamingKeeps(s.snd, t.snd, s.stamped);
    case Resend(num, slot) =>
      assert ResendStillValid(s.snd, num, slot) && num != 0 ==> num <= |s.stamped|;
  }

  lemma {:induction false} ArriveKeeps(s: Sys, step: Step, t: Sys)
    requires Inv(s) && step.Arrive? && Next(s, step, t)
    ensures Inv(t)
  {
    hide SenderInv, R.DeliverOrdered;
    var p := step.packet;
    var d := R.Deliver(s.rcv, p.num, p.body, step.room);
    R.DeliverOrderedKeeps(s.rcv, p.num, p.body, step.room);
    R.DeliverOrderedStream(s.rcv, p.num, p.body, step.room, s.stamped);
    ArrivalNumbers(s.rcv, p, step.room, s.stamped);
  }

  /** What leaves the receiver carries the sequences from the cursor on. */
  lemma {:induction false} ArrivalNumbers(r: R.InState, p: Packet, room: bool, stream: seq<Body>)
    requires R.Shape(r) && IsOrdered(r.mode)
    requires 1 <= r.recvNext <= |stream| + 1
    requires R.HandsOver(r.recvNext, R.Deliver(r, p.num, p.body, room), stream)
    ensures var d := R.Deliver(r, p.num, p.body, room);
      Firsts(stream, r.recvNext - 1) + Numbered(p, d.out) == Firsts(stream, d.st.recvNext - 1)
  {
    if p.num != r.recvNext {
      R.OffCursorSilent(r, p.num, p.body, room);
    }
  }

  lemma {:induction false} AckKeeps(s: Sys, step: Step, t: Sys)
    requires Inv(s) && step.ApplyAckStep? && Next(s, step, t)
    ensures Inv(t)
  {
    ApplyAckOrdered(s.snd, s.stamped, step.ack.recvNext, step.ack.ranges, step.now, step.lossDelay);
    assert WaitingBodies(t.snd.waiting, t.snd.staging) == WaitingBodies(s.snd.waiting, s.snd.staging);
  }

  lemma {:induction false} ReceiverBookkeeping(s: Sys, step: Step, t: Sys)
    requires Inv(s) && (step.BuildAck? || step.Reclaim?) && Next(s, step, t)
    ensures Inv(t)
  {
    hide SenderInv, DataGenuine, R.IsAckRanges;
    if step.Reclaim? {
      R.DropHoldbackOrdered(s.rcv);
      assert R.OrderedInv(t.rcv);
    }
  }

  /** Every step of the protocol keeps the invariant. */
  lemma {:induction false} NextKeeps(s: Sys, step: Step, t: Sys)
    requires Inv(s) && Next(s, step, t)
    ensures Inv(t)
  {
    match step
    case Send(_, _, _, _, _, _, _) => SendKeeps(s, step, t);
    case Drain(_, _, _) => DrainKeeps(s, step, t);
    case Collect(_, _) => ResendKeeps(s, step, t);
    case Resend(_, _) => ResendKeeps(s, step, t);
    case Refund(_) => ResendKeeps(s, step, t);
    case Arrive(_, _) => ArriveKeeps(s, step, t);
    case BuildAck(_) => ReceiverBookkeeping(s, step, t);
    case Reclaim => ReceiverBookkeeping(s, step, t);
    case ApplyAckStep(_, _, _) => AckKeeps(s, step, t);
    case FailAssoc => FailKeeps(s.snd, s.stamped);
    case Lose(_, _) =>
  }

  /** Every state of every run satisfies the invariant. */
  lemma {:induction false} RunKeeps(mode: FlowMode, states: seq<Sys>, steps: seq<Step>, k: nat)
    requires IsOrdered(mode) && IsRun(mode, states, steps)
    requires k < |states|
    ensures Inv(states[k])
  {
    if k == 0 {
      var cap: nat, pool: map<nat, StagedPacket> :| INVALID !in pool && states[0] == Init(mode, cap, pool);
      InitInv(mode, cap, pool);
    } else {
      RunKeeps(mode, states, steps, k - 1);
      assert Linked(states[k - 1], steps[k - 1], states[k - 1 + 1]);
      NextKeeps(states[k - 1], steps[k - 1], states[k]);
    }
  }

  // --- The theorems ---

  /** In every state of every run the application has received exactly sequences
      1..recvNext-1 in order, and those bodies are a prefix of what the send gate
      accepted. */
  lemma {:induction false} InOrderPrefix(mode: FlowMode, states: seq<Sys>, steps: seq<Step>, k: nat)
    requires IsOrdered(mode) && IsRun(mode, states, steps)
    requires k < |states|
    ensures var s := states[k];
      && |s.delivered| == s.rcv.recvNext - 1 <= |s.accepted|
      && forall j :: 0 <= j < |s.delivered| ==> s.delivered[j] == Packet(j + 1, s.accepted[j])
    ensures states[k].snd.life == Open ==>
      && (forall j :: 0 <= j < |states[k].snd.waiting| ==>
            states[k].snd.waiting[j].slot in states[k].snd.staging)
      && states[k].accepted ==
           states[k].stamped + WaitingBodies(states[k].snd.waiting, states[k].snd.staging)
  {
    RunKeeps(mode, states, steps, k);
    var s := states[k];
    assert s.stamped == s.accepted[..|s.stamped|];
  }

  /** While the association is open, every stamped sequence the receiver has not
      delivered still has its ring entry and its copy, acknowledged or not,
      whatever the receiver has since dropped. */
  lemma {:induction false} CopyRetained(mode: FlowMode, states: seq<Sys>, steps: seq<Step>, k: nat, n: nat)
    requires IsOrdered(mode) && IsRun(mode, states, steps)
    requires k < |states|
    requires states[k].snd.life == Open
    requires states[k].rcv.recvNext <= n < states[k].snd.nextSeq
    ensures var s := states[k];
      && Shape(s.snd)
      && var e := EntryOf(s.snd.ring, n);
         && e.num == n && e.slot in s.snd.staging
         && 1 <= n <= |s.stamped|
         && s.snd.staging[e.slot] == StagedPacket(n, s.stamped[n - 1])
  {
    RunKeeps(mode, states, steps, k);
    var s := states[k];
    assert EntryOf(s.snd.ring, n).num == n;
  }

  /** The occupied entries are exactly [ackBase, nextSeq), the base never passes
      the receiver's cursor, and so every packet that can arrive lies inside the
      hold-back ring, where an occupied slot means the same sequence. */
  lemma {:induction false} RingsNeverAlias(mode: FlowMode, states: seq<Sys>, steps: seq<Step>, k: nat)
    requires IsOrdered(mode) && IsRun(mode, states, steps)
    requires k < |states|
    ensures var s := states[k];
      && Shape(s.snd) && R.Shape(s.rcv)
      && s.snd.ackBase <= s.rcv.recvNext
      && (s.snd.life == Open ==>
            forall n: nat :: n != 0 ==>
              (EntryOf(s.snd.ring, n).num == n <==> s.snd.ackBase <= n < s.snd.nextSeq))
      && (forall p :: p in s.data ==>
            && p.num < s.rcv.recvNext + |s.rcv.hold|
            && (s.rcv.recvNext < p.num && s.rcv.hold[p.num % |s.rcv.hold|].packet.Some? ==>
                  s.rcv.hold[p.num % |s.rcv.hold|] == R.HoldbackEntry(p.num, Some(p.body))))
  {
    RunKeeps(mode, states, steps, k);
    var s := states[k];
    forall p | p in s.data && s.rcv.recvNext < p.num && s.rcv.hold[p.num % |s.rcv.hold|].packet.Some?
      ensures s.rcv.hold[p.num % |s.rcv.hold|] == R.HoldbackEntry(p.num, Some(p.body))
    {
      var e := s.rcv.hold[p.num % |s.rcv.hold|];
      SameSlot(p.num, e.num, |s.rcv.hold|);
    }
  }

  /** The seen bitmap is exactly the delivered or held sequences of the window,
      through every jump and reclaim. */
  lemma {:induction false} SeenIsDeliveredOrHeld(mode: FlowMode, states: seq<Sys>, steps: seq<Step>, k: nat, n: int)
    requires IsOrdered(mode) && IsRun(mode, states, steps)
    requires k < |states|
    ensures var s := states[k];
      && R.Shape(s.rcv)
      && (s.rcv.recvHighest - |s.rcv.seen| < n <= s.rcv.recvHighest ==>
            (R.SeenAt(s.rcv.seen, s.rcv.recvHighest, n) <==>
              1 <= n <= |s.delivered| || R.Held(s.rcv, n)))
  {
    RunKeeps(mode, states, steps, k);
    var s := states[k];
    R.HeldWithin(s.rcv, s.rcv.recvNext + 1, n);
  }

  /** No two entries, and no entry and waiting packet, share a staging slot; each
      named slot is leased. So a release never hits a slot twice. */
  lemma {:induction false} OneOwnerPerCopy(mode: FlowMode, states: seq<Sys>, steps: seq<Step>, k: nat)
    requires IsOrdered(mode) && IsRun(mode, states, steps)
    requires k < |states|
    ensures SlotsDistinct(states[k].snd)
    ensures forall i :: 0 <= i < |states[k].snd.ring| && states[k].snd.ring[i].num != 0 ==>
      states[k].snd.ring[i].slot in states[k].snd.staging
  {
    RunKeeps(mode, states, steps, k);
  }
  /** An acknowledgement of a window with no more runs than it can name, applied as it
      is built, leaves nothing in flight that was delivered or is held. */
  lemma {:induction false} AckSettlesSeen(mode: FlowMode, states: seq<Sys>, steps: seq<Step>, k: nat, i: nat)
    requires IsOrdered(mode) && IsRun(mode, states, steps)
    requires k + 1 < |steps| && steps[k].BuildAck? && steps[k + 1].ApplyAckStep? && steps[k + 1].ack == steps[k].ack
    requires R.Shape(states[k].rcv)
    requires R.FewRuns(states[k].rcv.seen, states[k].rcv.recvHighest, FLOW_ACK_RANGE_COUNT)
    requires i < |states[k + 2].snd.ring| && Live(states[k + 2].snd.ring[i])
    ensures var t := states[k + 2];
      t.snd.ring[i].num > |t.delivered| && !R.Held(t.rcv, t.snd.ring[i].num)
  {
    RunKeeps(mode, states, steps, k);
    RunKeeps(mode, states, steps, k + 1);
    assert Linked(states[k], steps[k], states[k + 1]);
    assert Linked(states[k + 1], steps[k + 1], states[k + 1 + 1]);
    StillOut(states[k], states[k + 1], steps[k + 1], states[k + 2], i);
  }

  lemma {:induction false} StillOut(s: Sys, u: Sys, step: Step, t: Sys, i: nat)
    requires Inv(s) && Inv(u) && step.ApplyAckStep? && Next(s, BuildAck(step.ack), u) && Next(u, step, t)
    requires R.FewRuns(s.rcv.seen, s.rcv.recvHighest, FLOW_ACK_RANGE_COUNT)
    requires i < |t.snd.ring| && Live(t.snd.ring[i])
    ensures t.snd.ring[i].num > |t.delivered| && !R.Held(t.rcv, t.snd.ring[i].num)
  {
    hide ApplyAck, R.IsAckRanges, R.FewRuns, SenderInv;
    var a := step.ack;
    var num := t.snd.ring[i].num;
    R.HeldWithin(s.rcv, s.rcv.recvNext + 1, num);
    assert R.Held(s.rcv, num) ==> R.SeenAt(s.rcv.seen, s.rcv.recvHighest, num);
    SenderShape(u.snd, u.stamped);
    AckSettles(u.snd, a.recvNext, a.ranges, step.now, step.lossDelay, i);
    if R.SeenAt(s.rcv.seen, s.rcv.recvHighest, num) {
      R.FewRunsNamed(s.rcv.seen, s.rcv.recvHighest, a.ranges, FLOW_ACK_RANGE_COUNT, num);
    }
  }

  lemma {:induction false} SenderShape(o: OutState, stream: seq<Body>)
    requires SenderInv(o, stream)
    ensures Shape(o) && o.ackBase >= 1
  {
  }

  // --- Progress ---

  /** The packet at the cursor, arriving with room, reaches the application at once,
      in every state of every run. */
  lemma {:induction false} CursorArrivalDelivers(mode: FlowMode, states: seq<Sys>, steps: seq<Step>, k: nat)
    requires IsOrdered(mode) && IsRun(mode, states, steps)
    requires k < |steps| && steps[k].Arrive? && steps[k].room
    requires steps[k].packet.num == states[k].rcv.recvNext
    ensures states[k].delivered + [steps[k].packet] <= states[k + 1].delivered
  {
    RunKeeps(mode, states, steps, k);
    assert Linked(states[k], steps[k], states[k + 1]);
    ArrivalExact(states[k].rcv, states[k].delivered, steps[k].packet);
  }

  lemma {:induction false} ArrivalExact(r: R.InState, delivered: seq<Packet>, p: Packet)
    requires R.Shape(r) && IsOrdered(r.mode) && p.num == r.recvNext
    ensures delivered + [p] <= delivered + Numbered(p, R.Deliver(r, p.num, p.body, true).out)
  {
    hide R.DeliverOrdered;
    R.DeliverOrderedExact(r, p.num, p.body, true);
    var out := R.Deliver(r, p.num, p.body, true).out;
    assert Numbered(p, out)[0] == p;
    assert delivered + Numbered(p, out) == delivered + [p] + Numbered(p, out)[1..];
  }

  /** An open flow is never stuck: from every state of every run, whatever was lost,
      acknowledged, held and dropped, three steps of its own hand the application
      the next packet. */
  lemma {:induction false} NeverStuck(mode: FlowMode, states: seq<Sys>, steps: seq<Step>, k: nat, now: nat)
    returns (a: Sys, b: Sys, c: Sys)
    requires IsOrdered(mode) && IsRun(mode, states, steps)
    requires k < |states|
    requires states[k].snd.life == Open && states[k].rcv.recvNext < states[k].snd.nextSeq
    ensures var s := states[k];
      && Shape(s.snd) && R.Shape(s.rcv)
      && var n := s.rcv.recvNext;
         var e := EntryOf(s.snd.ring, n);
         && n <= |s.stamped|
         && Next(s, Collect(n % |s.snd.ring|, now), a)
         && Shape(a.snd) && R.Shape(a.rcv) && Next(a, Resend(n, e.slot), b)
         && Shape(b.snd) && R.Shape(b.rcv) && Next(b, Arrive(Packet(n, s.stamped[n - 1]), true), c)
         && s.delivered + [Packet(n, s.stamped[n - 1])] <= c.delivered
  {
    RunKeeps(mode, states, steps, k);
    CopyRetained(mode, states, steps, k, states[k].rcv.recvNext);
    var s := states[k];
    var n := s.rcv.recvNext;
    var i := n % |s.snd.ring|;
    var e := s.snd.ring[i];
    var p := Packet(n, s.stamped[n - 1]);
    a := s.(snd := s.snd.(ring := s.snd.ring[i := ResendEntry(e, now)]), resends := s.resends + {(n, e.slot)});
    b := a.(resends := a.resends - {(n, e.slot)}, data := a.data + {p});
    var d := R.Deliver(b.rcv, p.num, p.body, true);
    c := b.(rcv := d.st, delivered := b.delivered + Numbered(p, d.out));
    ArrivalExact(s.rcv, s.delivered, p);
  }
}
