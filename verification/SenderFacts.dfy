/** What both reliable protocols need of the sender: copies match the stream, no
    staging slot is named twice, and the waiting ring continues the stream. */
module SenderFacts {
  import opened FlowTypes
  import opened Sender
  import opened FlowProtocol

  function EntryOf(ring: seq<InFlightEntry>, n: nat): (r: InFlightEntry)
    requires |ring| > 0
  {
    ring[n % |ring|]
  }

  /** Every occupied entry still has its copy, and the copy is the body sent. */
  ghost predicate CopiesKept(o: OutState, stream: seq<Body>) {
    forall i :: 0 <= i < |o.ring| && o.ring[i].num != 0 ==>
      && o.ring[i].slot != INVALID && o.ring[i].slot in o.staging
      && 1 <= o.ring[i].num <= |stream|
      && o.staging[o.ring[i].slot] == StagedPacket(o.ring[i].num, stream[o.ring[i].num - 1])
  }

  /** No staging slot is named twice, and a free entry names none. */
  ghost predicate SlotsDistinct(o: OutState) {
    && (forall i :: 0 <= i < |o.ring| && o.ring[i].num == 0 ==> o.ring[i].slot == INVALID)
    && (forall i, j :: 0 <= i < j < |o.ring| && o.ring[i].num != 0 && o.ring[j].num != 0 ==>
          o.ring[i].slot != o.ring[j].slot)
    && (forall i, k :: 0 <= i < |o.ring| && 0 <= k < |o.waiting| && o.ring[i].num != 0 ==>
          o.ring[i].slot != o.waiting[k].slot)
    && (forall k, l :: 0 <= k < l < |o.waiting| ==> o.waiting[k].slot != o.waiting[l].slot)
    && (forall k :: 0 <= k < |o.waiting| ==> o.waiting[k].slot in o.staging && o.waiting[k].slot != INVALID)
    && INVALID !in o.staging
  }

  function WaitingBodies(waiting: seq<WaitingEntry>, staging: map<nat, StagedPacket>): (r: seq<Body>)
    requires forall k :: 0 <= k < |waiting| ==> waiting[k].slot in staging
    ensures |r| == |waiting|
  {
    seq(|waiting|, k requires 0 <= k < |waiting| => staging[waiting[k].slot].body)
  }

  lemma {:induction false} StampCopies(o: OutState, r: OutState, stream: seq<Body>, body: Body,
                                       now: nat, flying: bool, slot: nat, wireSize: nat, epoch: nat)
    requires Shape(o) && o.mode != Unreliable && o.nextSeq == |stream| + 1
    requires CopiesKept(o, stream) && SlotsDistinct(o)
    requires o.ring[o.nextSeq % |o.ring|].num == 0
    requires slot in o.staging && o.staging[slot].body == body
    requires forall i :: 0 <= i < |o.ring| && o.ring[i].num != 0 ==> o.ring[i].slot != slot
    requires forall k :: 0 <= k < |o.waiting| ==> o.waiting[k].slot != slot
    requires r == Stamp(o, now, flying, slot, wireSize, epoch)
    ensures CopiesKept(r, stream + [body])
    ensures SlotsDistinct(r)
  {
    var j := o.nextSeq % |o.ring|;
    forall i | 0 <= i < |r.ring| && r.ring[i].num != 0
      ensures r.ring[i].slot != INVALID && r.ring[i].slot in r.staging
      ensures 1 <= r.ring[i].num <= |stream + [body]|
      ensures r.staging[r.ring[i].slot] == StagedPacket(r.ring[i].num, (stream + [body])[r.ring[i].num - 1])
    {
      if i != j {
        assert o.ring[i].slot in o.staging;
      }
    }
  }

  /** A pass that leaves every entry's sequence and copy alone. */
  ghost predicate SameNaming(a: seq<InFlightEntry>, b: seq<InFlightEntry>) {
    |a| == |b| && forall i :: 0 <= i < |a| ==> a[i].num == b[i].num && a[i].slot == b[i].slot
  }

  lemma {:induction false} AckRingFewerTo(ordered: bool, ring: seq<InFlightEntry>, recvNext: nat, ranges: seq<AckRange>, n: nat)
    requires n <= |ring|
    ensures CountTo(AckRing(ordered, ring, recvNext, ranges), n) <= CountTo(ring, n)
  {
    if n > 0 {
      AckRingFewerTo(ordered, ring, recvNext, ranges, n - 1);
    }
  }

  lemma {:induction false} AckRingFewer(ordered: bool, ring: seq<InFlightEntry>, recvNext: nat, ranges: seq<AckRange>)
    ensures CountLive(AckRing(ordered, ring, recvNext, ranges)) <= CountLive(ring)
  {
    AckRingFewerTo(ordered, ring, recvNext, ranges, |ring|);
  }

  /** Every packet in the network is genuine. */
  ghost predicate DataGenuine(data: set<Packet>, stream: seq<Body>) {
    forall p :: p in data ==> 1 <= p.num <= |stream| && p.body == stream[p.num - 1]
  }

  /** The stamped stream followed by the waiting ring is what the gate accepted. */
  ghost predicate AcceptOrder(s: Sys) {
    && (forall k :: 0 <= k < |s.snd.waiting| ==> s.snd.waiting[k].slot in s.snd.staging)
    && s.stamped + WaitingBodies(s.snd.waiting, s.snd.staging) <= s.accepted
    && (s.snd.life == Open ==> s.accepted == s.stamped + WaitingBodies(s.snd.waiting, s.snd.staging))
  }

  lemma {:induction false} RenamingCopies(o: OutState, r: OutState, stream: seq<Body>)
    requires CopiesKept(o, stream) && SlotsDistinct(o)
    requires SameNaming(o.ring, r.ring)
    requires r == o.(ring := r.ring, unresolved := r.unresolved)
    ensures CopiesKept(r, stream) && SlotsDistinct(r)
  {
  }

  /** Staging a new body in a fresh slot disturbs nothing. */
  lemma {:induction false} StagedCopies(o: OutState, r: OutState, stream: seq<Body>, slot: nat, p: StagedPacket)
    requires CopiesKept(o, stream) && SlotsDistinct(o)
    requires slot != INVALID && slot !in o.staging && r == o.(staging := o.staging[slot := p])
    ensures CopiesKept(r, stream) && SlotsDistinct(r)
    ensures WaitingBodies(r.waiting, r.staging) == WaitingBodies(o.waiting, o.staging)
    ensures forall i :: 0 <= i < |o.ring| && o.ring[i].num != 0 ==> o.ring[i].slot != slot
    ensures forall k :: 0 <= k < |o.waiting| ==> o.waiting[k].slot != slot
  {
  }

  lemma {:induction false} QueueCopies(o: OutState, r: OutState, stream: seq<Body>, slot: nat, wireSize: nat)
    requires CopiesKept(o, stream) && SlotsDistinct(o)
    requires slot in o.staging && slot != INVALID
    requires forall i :: 0 <= i < |o.ring| && o.ring[i].num != 0 ==> o.ring[i].slot != slot
    requires forall k :: 0 <= k < |o.waiting| ==> o.waiting[k].slot != slot
    requires r == o.(waiting := o.waiting + [WaitingEntry(slot, wireSize)])
    ensures CopiesKept(r, stream) && SlotsDistinct(r)
    ensures WaitingBodies(r.waiting, r.staging) == WaitingBodies(o.waiting, o.staging) + [o.staging[slot].body]
  {
  }

  lemma {:induction false} DequeueCopies(o: OutState, r: OutState, stream: seq<Body>)
    requires CopiesKept(o, stream) && SlotsDistinct(o) && |o.waiting| > 0
    requires r == o.(waiting := o.waiting[1..])
    ensures CopiesKept(r, stream) && SlotsDistinct(r)
    ensures forall k :: 0 <= k < |r.waiting| ==> r.waiting[k].slot != o.waiting[0].slot
    ensures forall i :: 0 <= i < |o.ring| && o.ring[i].num != 0 ==> o.ring[i].slot != o.waiting[0].slot
    ensures WaitingBodies(o.waiting, o.staging) ==
      [o.staging[o.waiting[0].slot].body] + WaitingBodies(r.waiting, r.staging)
  {
  }

  /** A staging pool that left the waiting slots alone yields the same bodies. */
  lemma {:induction false} SameWaiting(waiting: seq<WaitingEntry>, a: map<nat, StagedPacket>, b: map<nat, StagedPacket>)
    requires forall k :: 0 <= k < |waiting| ==>
      waiting[k].slot in a && waiting[k].slot in b && a[waiting[k].slot].body == b[waiting[k].slot].body
    ensures WaitingBodies(waiting, a) == WaitingBodies(waiting, b)
  {
  }
  // --- What an acknowledgement settles ---

  lemma {:induction false} ReleaseKeepsLive(o: OutState, recvNext: nat, steps: nat)
    requires Shape(o) && o.ackBase >= 1
    ensures var r := ReleaseRun(o, recvNext, steps);
      forall i :: 0 <= i < |o.ring| ==>
        r.ring[i] == o.ring[i] || (o.ring[i].num != 0 && o.ring[i].acked && r.ring[i].num == 0)
    decreases steps
  {
    if o.ackBase != o.nextSeq && o.ackBase < recvNext && steps > 0 {
      var e := o.ring[o.ackBase % |o.ring|];
      ReleaseUnfold(o, recvNext, steps);
      if e.num == o.ackBase && e.acked {
        ReleaseKeepsLive(AfterRelease(o), recvNext, steps - 1);
      } else if e.num != o.ackBase {
        ReleaseKeepsLive(o.(ackBase := o.ackBase + 1), recvNext, steps - 1);
      }
    }
  }

  /** The entry in place i once the acknowledgement is resolved and losses are
      declared: settled exactly when the acknowledgement takes its sequence in. */
  lemma {:induction false} PassSettles(o: OutState, recvNext: nat, ranges: seq<AckRange>, now: nat, lossDelay: nat, i: nat)
    requires Shape(o) && i < |o.ring|
    ensures var e, r := o.ring[i], AckPasses(o, recvNext, ranges, now, lossDelay).ring[i];
      && (r.num != 0 && !r.acked <==> e.num != 0 && !e.acked && Outside(e.num, recvNext, ranges))
      && (r.num != 0 ==> r.num == e.num)
      && (r.num != 0 && r.acked ==> IsOrdered(o.mode) || e.acked)
  {
    hide LargestCovered, FreedSlots, CountLive;
  }

  /** Not below the cursor, and in no range. */
  predicate Outside(num: nat, recvNext: nat, ranges: seq<AckRange>) {
    num >= recvNext && forall k :: 0 <= k < |ranges| ==> num < ranges[k].first || ranges[k].last < num
  }

  /** After an acknowledgement an entry is in flight if and only if it was, its
      sequence is not below the reported cursor and no range takes it in. */
  lemma {:induction false} AckSettles(o: OutState, recvNext: nat, ranges: seq<AckRange>, now: nat, lossDelay: nat, i: nat)
    requires Shape(o) && i < |o.ring| && o.ackBase >= 1
    ensures var e, r := o.ring[i], ApplyAck(o, recvNext, ranges, now, lossDelay).ring[i];
      && (r.num != 0 && !r.acked <==> e.num != 0 && !e.acked && Outside(e.num, recvNext, ranges))
      && (r.num != 0 ==> r.num == e.num)
      && (r.num != 0 && r.acked ==> IsOrdered(o.mode) || e.acked)
  {
    var p := AckPasses(o, recvNext, ranges, now, lossDelay);
    PassSettles(o, recvNext, ranges, now, lossDelay, i);
    PassBase(o, recvNext, ranges, now, lossDelay);
    hide ReleaseRun, AckPasses, Outside;
    ReleaseKeepsLive(p, recvNext, |o.ring|);
  }

  lemma {:induction false} PassBase(o: OutState, recvNext: nat, ranges: seq<AckRange>, now: nat, lossDelay: nat)
    requires Shape(o)
    ensures var p := AckPasses(o, recvNext, ranges, now, lossDelay);
      p.ackBase == o.ackBase && p.mode == o.mode
  {
  }
}
