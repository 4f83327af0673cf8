/** The sending half of an association, updated in place: the in-flight and
    waiting rings are arrays, and each method is proved equal to the function of
    Sender it stands for. A copy goes back to the pool only while the pool still
    has it leased, so no method releases a slot twice. */
module OutAssociations {
  import opened Options
  import opened FlowTypes
  import opened Sender
  import opened Peers
  import opened WaitingRings
  import Pacing
  import Rtt

  const RESENDS_PER_PASS: nat := 16

  /** The staging pool, as the packets its leased slots hold. */
  class StagingPool {
    var packets: map<nat, StagedPacket>

    method Release(slot: nat)
      requires slot in packets
      modifies this
      ensures packets == old(packets) - {slot}
    {
      packets := packets - {slot};
    }
  }

  /** Each copy a ring entry names is leased, and named once. */
  ghost predicate Leased(ring: seq<InFlightEntry>, packets: map<nat, StagedPacket>) {
    && INVALID !in packets
    && (forall i :: 0 <= i < |ring| && ring[i].slot != INVALID ==> ring[i].slot in packets)
    && (forall i, j :: 0 <= i < j < |ring| && ring[i].slot != INVALID ==> ring[i].slot != ring[j].slot)
  }

  class OutAssociation {
    const mode: FlowMode
    const ring: array<InFlightEntry>
    const waiting: WaitingRing
    const pool: StagingPool
    var life: Lifecycle
    var nextSeq: nat
    var unresolved: nat
    var ackBase: nat
    var lastResolved: nat

    ghost predicate Valid()
      reads this, ring, pool, waiting
    {
      && ring.Length == WindowFor(mode)
      && waiting.Valid()
      && nextSeq >= 1 && ackBase >= 1
      && Leased(ring[..], pool.packets)
      && unresolved == CountLive(ring[..])
    }

    ghost function Model(): (o: OutState)
      requires ring.Length == WindowFor(mode) && waiting.Valid()
      reads this, ring, pool, waiting, waiting.slots
      ensures Shape(o)
    {
      OutState(mode, life, ring[..], nextSeq, unresolved, ackBase, waiting.Contents(), waiting.slots.Length, pool.packets)
    }

    constructor (mode: FlowMode, waitingCap: nat, pool: StagingPool, now: nat)
      requires INVALID !in pool.packets
      ensures Valid() && this.pool == pool && fresh(ring) && fresh(waiting) && fresh(waiting.slots)
      ensures Model() == FreshOut(mode, waitingCap, pool.packets)
    {
      this.mode, this.pool := mode, pool;
      ring := new InFlightEntry[WindowFor(mode)](i => FREE_ENTRY);
      waiting := new WaitingRing(waitingCap);
      life, nextSeq, unresolved, ackBase, lastResolved := Open, 1, 0, 1, now;
      new;
      LiveNone(ring[..]);
    }

    // --- The send gate ---

    /** Room in the ring, in the path's budget and in the peer's grant. */
    predicate CanSend(peer: Peer, wireSize: nat)
      requires ring.Length > 0
      reads this, ring, peer
    {
      && (mode != Unreliable ==> unresolved < ring.Length)
      && peer.HasRoom(wireSize)
      && ring[nextSeq % ring.Length].num == 0
    }

    method StampFlowPacket(peer: Peer, slot: nat, wireSize: nat, flying: bool, now: nat)
      requires Valid()
      requires nextSeq < SEQ_LIMIT && ring[nextSeq % ring.Length].num == 0
      requires mode != Unreliable ==> slot in pool.packets && forall i :: 0 <= i < ring.Length ==> ring[i].slot != slot
      modifies this`nextSeq, this`unresolved, ring, pool, peer`bytesInFlight, peer`outstandingToPeer, peer`pacingTokens
      ensures Valid()
      ensures Model() == Stamp(old(Model()), now, flying, slot, wireSize, peer.congestionEpoch)
      ensures var e := ring[old(nextSeq) % ring.Length];
        && e.num == old(nextSeq) && e.wireSize == wireSize && e.epoch == peer.congestionEpoch
        && e.sentAt == (if flying then now else 0) && e.retries == 0 && !e.acked && !e.lostByAck && !e.freeResend
        && e.slot == (if mode == Unreliable then INVALID else slot)
      ensures peer.bytesInFlight == old(peer.bytesInFlight) + wireSize
      ensures peer.outstandingToPeer == old(peer.outstandingToPeer) + 1
      ensures peer.Pace() == Pacing.Spend(old(peer.Pace()), wireSize)
      ensures LiveBytes(ring[..]) == old(LiveBytes(ring[..])) + wireSize
      ensures CountLive(ring[..]) == old(CountLive(ring[..])) + 1
    {
      ghost var before := ring[..];
      var i := nextSeq % ring.Length;
      var kept := if mode == Unreliable then INVALID else slot;
      LiveUpdate(ring[..], i, StampEntry(nextSeq, now, flying, kept, wireSize, peer.congestionEpoch));
      ring[i] := StampEntry(nextSeq, now, flying, kept, wireSize, peer.congestionEpoch);
      if kept in pool.packets {
        pool.packets := pool.packets[kept := StagedPacket(nextSeq, pool.packets[kept].body)];
      }
      unresolved := unresolved + 1;
      peer.bytesInFlight := peer.bytesInFlight + wireSize;
      peer.SpendPacing(wireSize);
      peer.outstandingToPeer := peer.outstandingToPeer + 1;
      nextSeq := nextSeq + 1;
      assert ring[..] == before[i := ring[i]];
    }

    method Wait(slot: nat, wireSize: nat) returns (verdict: Admission)
      requires Valid()
      modifies waiting, waiting.slots
      ensures Valid()
      ensures Admitted(Model(), verdict) == Waits(old(Model()), slot, wireSize)
    {
      if waiting.count < waiting.slots.Length {
        waiting.Enqueue(slot, wireSize);
        return Queued;
      }
      if mode != Unreliable {
        return Rejected;
      }
      if waiting.slots.Length > 0 {
        var evicted := waiting.Dequeue();
        waiting.Enqueue(slot, wireSize);
        return Queued;
      }
      return Dropped;
    }

    /** Stamp on a pass, wait on a refusal, behind anything already waiting. */
    method AdmitOut(peer: Peer, slot: nat, wireSize: nat, flying: bool, now: nat) returns (verdict: Admission)
      requires Valid()
      requires nextSeq < SEQ_LIMIT
      requires mode != Unreliable ==> slot in pool.packets && forall i :: 0 <= i < ring.Length ==> ring[i].slot != slot
      modifies this, ring, waiting, waiting.slots, pool, peer
      ensures Valid()
      ensures verdict ==
        Admit(old(Model()), old(peer.Admits(wireSize, now)), now, flying, slot, wireSize, old(peer.congestionEpoch)).verdict
      ensures Model() ==
        Admit(old(Model()), old(peer.Admits(wireSize, now)), now, flying, slot, wireSize, old(peer.congestionEpoch)).st
      ensures old(life) == Open && old(waiting.count) == 0 && RingAdmits(old(Model())) ==>
        (verdict == Sent <==>
           && old(peer.bytesInFlight) + wireSize <= old(peer.congestionBudget)
           && (old(peer.theirGrant) == 0 || old(peer.outstandingToPeer) < old(peer.theirGrant))
           && (old(peer.rtt.srtt) == 0 || old(peer.Refilled(now)).tokens >= wireSize))
      ensures verdict == Sent && old(peer.theirGrant) != 0 ==> peer.outstandingToPeer <= old(peer.theirGrant)
      ensures peer.bytesInFlight == old(peer.bytesInFlight) + (if verdict == Sent then wireSize else 0)
      ensures peer.outstandingToPeer == old(peer.outstandingToPeer) + (if verdict == Sent then 1 else 0)
      ensures LiveBytes(ring[..]) == old(LiveBytes(ring[..])) + (if verdict == Sent then wireSize else 0)
    {
      hide Leased, CountLive, LiveBytes, Pacing.Refill;
      if life != Open {
        return Dead;
      }
      if waiting.count == 0 && CanSend(peer, wireSize) {
        var onTime := peer.PacingAllows(now, wireSize);
        if onTime {
          StampFlowPacket(peer, slot, wireSize, flying, now);
          return Sent;
        }
      }
      verdict := Wait(slot, wireSize);
    }

    /** The drain's second step: the head, still the packet peeked, takes the
        next sequence. */
    method ClaimWaiting(peer: Peer, candidate: nat, now: nat) returns (claimed: bool)
      requires Valid()
      requires nextSeq < SEQ_LIMIT
      requires mode != Unreliable && waiting.count > 0 ==>
        waiting.Contents()[0].slot in pool.packets
        && forall i :: 0 <= i < ring.Length ==> ring[i].slot != waiting.Contents()[0].slot
      modifies this, ring, waiting, waiting.slots, pool, peer
      ensures Valid()
      ensures claimed <==>
        && old(life) == Open && old(waiting.count) > 0 && old(waiting.Contents())[0].slot == candidate
        && RingAdmits(old(Model())) && old(peer.Admits(waiting.Contents()[0].wireSize, now))
      ensures claimed ==> Model() == Claim(old(Model()), now, old(peer.congestionEpoch))
      ensures claimed && old(peer.theirGrant) != 0 ==> peer.outstandingToPeer <= old(peer.theirGrant)
      ensures claimed ==>
        peer.bytesInFlight == old(peer.bytesInFlight) + old(waiting.Contents())[0].wireSize <= old(peer.congestionBudget)
      ensures !claimed ==> Model() == old(Model()) && peer.bytesInFlight == old(peer.bytesInFlight)
    {
      hide CountLive, LiveBytes, Pacing.Refill, Leased;
      if life != Open || waiting.count == 0 {
        return false;
      }
      var head := waiting.Peek();
      if head.slot != candidate || !CanSend(peer, head.wireSize) {
        return false;
      }
      var onTime := peer.PacingAllows(now, head.wireSize);
      if !onTime {
        return false;
      }
      ghost var was := waiting.Contents();
      var taken := waiting.Dequeue();
      assert waiting.Contents() == was[1..];
      StampFlowPacket(peer, taken.slot, taken.wireSize, true, now);
      return true;
    }
  
    // --- Acknowledgement ---

    /** Resolves one entry: idempotent, and the copy is kept exactly when an
        ordered flow's packet was acknowledged. */
    method ResolveOutEntry(i: nat, acked: bool, delta: Delta) returns (d: Delta)
      requires Valid() && i < ring.Length
      modifies this`unresolved, ring, pool
      ensures Valid()
      ensures ring[..] == old(ring[..])[i := ResolveEntry(IsOrdered(mode), old(ring[i]), acked)]
      ensures d == ResolveDelta(delta, old(ring[i]), acked)
      ensures pool.packets == if Live(old(ring[i])) && !(acked && IsOrdered(mode)) && old(ring[i]).slot != INVALID
                              then old(pool.packets) - {old(ring[i]).slot} else old(pool.packets)
    {
      var e := ring[i];
      LiveUpdate(ring[..], i, ResolveEntry(IsOrdered(mode), e, acked));
      if e.num == 0 || e.acked {
        assert ring[..] == old(ring[..])[i := e];
        return delta;
      }
      d := delta.(resolvedBytes := delta.resolvedBytes + e.wireSize,
                  resolvedPackets := delta.resolvedPackets + 1);
      if acked {
        d := d.(ackedBytes := d.ackedBytes + e.wireSize);
      } else {
        d := NoteLoss(d, e.epoch);
      }
      if unresolved > 0 {
        unresolved := unresolved - 1;
      }
      if acked && IsOrdered(mode) {
        ring[i] := e.(acked := true);
        assert ring[..] == old(ring[..])[i := ResolveEntry(IsOrdered(mode), e, acked)];
        return;
      }
      if e.slot != INVALID {
        pool.Release(e.slot);
      }
      ring[i] := e.(num := 0, slot := INVALID, wireSize := 0, acked := false);
      assert ring[..] == old(ring[..])[i := ResolveEntry(IsOrdered(mode), e, acked)];
    }

    method AckOne(i: nat, recvNext: nat, ranges: seq<AckRange>, delta: Delta) returns (d: Delta)
      requires Valid() && i < ring.Length
      modifies this`unresolved, ring, pool
      ensures Valid()
      ensures ring[..] == old(ring[..])[i := AckEntry(IsOrdered(mode), old(ring[i]), recvNext, ranges)]
      ensures pool.packets == old(pool.packets)
        - (if FreesCopy(IsOrdered(mode), old(ring[i]), recvNext, ranges) then {old(ring[i]).slot} else {})
      ensures Conserves(delta, old(ring[..]), d, ring[..])
    {
      var e := ring[i];
      LiveUpdate(ring[..], i, AckEntry(IsOrdered(mode), e, recvNext, ranges));
      if e.num != 0 && (e.num < recvNext || SeqInRanges(e.num, ranges)) {
        d := ResolveOutEntry(i, true, delta);
      } else {
        assert ring[..] == old(ring[..])[i := e];
        d := delta;
      }
    }

    /** Resolves everything the acknowledgement covers. Bytes leave the ring only
        into the feedback. */
    method ResolveCovered(recvNext: nat, ranges: seq<AckRange>, delta: Delta)
      returns (d: Delta, largest: nat, newest: Option<InFlightEntry>)
      requires Valid()
      modifies this`unresolved, ring, pool
      ensures Valid()
      ensures Model() == Resolved(old(Model()), recvNext, ranges)
      ensures largest == LargestCovered(old(ring[..]), recvNext, ranges)
      ensures newest == NewestResolved(old(ring[..]), recvNext, ranges)
      ensures Conserves(delta, old(ring[..]), d, ring[..])
    {
      d, largest, newest := AckScan(recvNext, ranges, delta);
    }

    method AckScan(recvNext: nat, ranges: seq<AckRange>, delta: Delta)
      returns (d: Delta, largest: nat, newest: Option<InFlightEntry>)
      requires Valid()
      modifies this`unresolved, ring, pool
      ensures Valid()
      ensures ring[..] == AckRing(IsOrdered(mode), old(ring[..]), recvNext, ranges)
      ensures pool.packets == old(pool.packets) - FreedSlots(IsOrdered(mode), old(ring[..]), recvNext, ranges)
      ensures largest == LargestCovered(old(ring[..]), recvNext, ranges)
      ensures newest == NewestResolved(old(ring[..]), recvNext, ranges)
      ensures Conserves(delta, old(ring[..]), d, ring[..])
    {
      hide AckEntry, Leased, CountLive, LiveBytes, SeqInRanges;
      ghost var before := ring[..];
      ghost var packets := pool.packets;
      ghost var ordered := IsOrdered(mode);
      d, largest, newest := delta, 0, None;
      for i := 0 to ring.Length
        invariant Valid()
        invariant forall k :: 0 <= k < i ==> ring[k] == AckEntry(ordered, before[k], recvNext, ranges)
        invariant forall k :: i <= k < ring.Length ==> ring[k] == before[k]
        invariant pool.packets == packets - FreedTo(ordered, before, recvNext, ranges, i)
        invariant largest == LargestTo(before, recvNext, ranges, i)
        invariant newest == NewestTo(before, recvNext, ranges, i)
        invariant Conserves(delta, before, d, ring[..])
      {
        FreedStep(ordered, before, recvNext, ranges, i);
        var e := ring[i];
        largest, newest := Note(e, Covered(e, recvNext, ranges), largest, newest);
        d := AckOne(i, recvNext, ranges, d);
      }
    }

    /** Marks as lost what the acknowledgement proves overtaken or overdue. */
    method DeclareLostBelow(largest: nat, now: nat, lossDelay: nat, delta: Delta) returns (d: Delta)
      requires Valid()
      modifies ring
      ensures Valid() && LiveBytes(ring[..]) == old(LiveBytes(ring[..]))
      ensures ring[..] == if mode == Unreliable then old(ring[..]) else LoseRing(old(ring[..]), largest, now, lossDelay)
      ensures d == if mode == Unreliable then delta else LoseDelta(delta, old(ring[..]), largest, now, lossDelay)
      ensures d.lostDeclaredBytes + MarkedBytes(old(ring[..])) == delta.lostDeclaredBytes + MarkedBytes(ring[..])
    {
      d := delta;
      if mode == Unreliable {
        return;
      }
      ghost var before := ring[..];
      for i := 0 to ring.Length
        invariant forall k :: 0 <= k < i ==> ring[k] == LoseEntry(before[k], largest, now, lossDelay)
        invariant forall k :: i <= k < ring.Length ==> ring[k] == before[k]
        invariant d == LoseDeltaTo(delta, before, largest, now, lossDelay, i)
      {
        var e := ring[i];
        if e.num == 0 || e.acked || e.lostByAck || largest <= e.num {
          continue;
        }
        var farBehind := largest - e.num >= LOSS_PACKET_THRESHOLD;
        var longOverdue := e.sentAt != 0 && Elapsed(now, e.sentAt) > lossDelay;
        if !farBehind && !longOverdue {
          continue;
        }
        ring[i] := e.(lostByAck := true, freeResend := true, sentAt := 0);
        d := NoteLoss(d.(lostDeclaredBytes := d.lostDeclaredBytes + e.wireSize), e.epoch);
      }
      LiveSame(before, ring[..]);
      assert ring[..] == LoseRing(before, largest, now, lossDelay);
      LossReported(delta, before, largest, now, lossDelay, |before|);
    }

    method ReleaseLowest()
      requires Valid()
      requires var e := ring[ackBase % ring.Length]; e.num == ackBase && e.acked
      modifies this`ackBase, ring, pool
      ensures Valid()
      ensures Model() == AfterRelease(old(Model()))
      ensures LiveBytes(ring[..]) == old(LiveBytes(ring[..]))
    {
      ghost var o := Model();
      var i := ackBase % ring.Length;
      var e := ring[i];
      LiveUpdate(ring[..], i, ReleasedEntry(e));
      if e.slot != INVALID {
        pool.Release(e.slot);
      }
      assert pool.packets == o.staging - {e.slot};
      ring[i] := ReleasedEntry(e);
      assert ring[..] == o.ring[i := ReleasedEntry(e)];
      ackBase := ackBase + 1;
    }

    /** Frees the copies the receiver's cursor has passed. */
    method ReleaseAckedRun(remoteRecvNext: nat)
      requires Valid()
      modifies this`ackBase, ring, pool
      ensures Valid()
      ensures Model() == ReleaseRun(old(Model()), remoteRecvNext, ring.Length)
      ensures LiveBytes(ring[..]) == old(LiveBytes(ring[..]))
    {
      hide ReleaseRun, LiveBytes, CountLive, Leased;
      var steps := ring.Length;
      ghost var goal := ReleaseRun(Model(), remoteRecvNext, steps);
      while ackBase != nextSeq && ackBase < remoteRecvNext && steps > 0
        invariant Valid() && 0 <= steps
        invariant goal == ReleaseRun(Model(), remoteRecvNext, steps)
        invariant LiveBytes(ring[..]) == old(LiveBytes(ring[..]))
        decreases steps
      {
        ReleaseUnfold(Model(), remoteRecvNext, steps);
        var e := ring[ackBase % ring.Length];
        if e.num == ackBase {
          if !e.acked {
            break;
          }
          ReleaseLowest();
        } else {
          ghost var o := Model();
          ackBase := ackBase + 1;
          assert Model() == o.(ackBase := o.ackBase + 1);
        }
        steps := steps - 1;
      }
      ReleaseStops(Model(), remoteRecvNext, steps);
    }

    /** One acknowledgement entry, start to finish. */
    method ApplyAckRanges(peer: Peer, recvNext: nat, ackDelay: nat, ranges: seq<AckRange>, now: nat, retryInterval: nat,
                          delta: Delta) returns (d: Delta)
      requires Valid()
      modifies this`unresolved, this`ackBase, this`lastResolved, ring, pool
      ensures Valid()
      ensures var lossDelay := Rtt.LossDelay(peer.rtt.Model(), retryInterval);
        && Model() == ApplyAck(old(Model()), recvNext, ranges, now, lossDelay)
        && Told(mode, delta, old(ring[..]), d, ring[..], recvNext, ranges, now, ackDelay, lossDelay)
      ensures lastResolved == if LargestCovered(old(ring[..]), recvNext, ranges) != 0 then now else old(lastResolved)
    {
      hide LargestCovered, NewestResolved, Sampled, LoseDelta, Conserves;
      var lossDelay := peer.rtt.LossDelayMicros(retryInterval);
      ghost var before := ring[..];
      var resolved, largest, newest := ResolveCovered(recvNext, ranges, delta);
      ghost var mid := Model();
      d := Sampled(resolved, newest, now, ackDelay);
      if largest != 0 {
        lastResolved := now;
        d := DeclareLostBelow(largest, now, lossDelay, d);
      }
      assert Model() == AckPasses(old(Model()), recvNext, ranges, now, lossDelay);
      ReleaseAckedRun(recvNext);
      Tell(mode, delta, before, resolved, mid.ring, d, ring[..], recvNext, ranges, now, ackDelay, lossDelay);
    }

    // --- Retransmission ---

    /** One entry of the scan: skipped, taken for a resend, or given up. */
    method ScanEntry(i: nat, peer: Peer, now: nat, rto: nat, stall: nat, delta: Delta, taken: seq<(nat, nat)>)
      returns (d: Delta, resends: seq<(nat, nat)>)
      requires Valid() && i < ring.Length && |taken| <= RESENDS_PER_PASS
      modifies this`unresolved, ring, pool, peer`pacingTokens, peer`pacingRefilledAt
      ensures Valid()
      ensures ring[..] == old(ring[..])[i := ring[i]]
      ensures ScanStep(mode, old(ring[i]), ring[i], taken, resends, old(peer.Pace()), peer.Pace(),
                       peer.congestionBudget, peer.rtt.srtt, now, rto, stall)
      ensures d.sawProbe == (delta.sawProbe || (resends != taken && !old(ring[i]).acked))
      ensures d.resolvedBytes + LiveBytes(ring[..]) == delta.resolvedBytes + old(LiveBytes(ring[..]))
      ensures d.resolvedPackets + CountLive(ring[..]) == delta.resolvedPackets + old(CountLive(ring[..]))
      ensures mode != Unreliable ==> pool.packets == old(pool.packets) && d == delta.(sawProbe := d.sawProbe)
    {
      d, resends := delta, taken;
      var e := ring[i];
      assert ring[..] == old(ring[..])[i := ring[i]];
      if !Due(e, now, rto, stall) {
        return;
      }
      if mode == Unreliable && !e.acked {
        LiveUpdate(ring[..], i, ResolveEntry(false, e, false));
        d := ResolveOutEntry(i, false, delta);
        return;
      }
      if e.slot != INVALID && |taken| < RESENDS_PER_PASS {
        var onTime := peer.PacingAllows(now, e.wireSize);
        if onTime {
          peer.SpendPacing(e.wireSize);
          LiveUpdate(ring[..], i, ResendEntry(e, now));
          ring[i] := ResendEntry(e, now);
          assert ring[..] == old(ring[..])[i := ring[i]];
          resends := taken + [(e.num, e.slot)];
          if !e.acked {
            d := d.(sawProbe := true);
          }
        }
      }
    }

    /** The retransmit scan. Death is judged first. Otherwise every entry that is due
        is collected once and stamped as resent, or on an unreliable flow resolved
        as lost, unless it has no copy, the batch is full or the clock refuses it. */
    method RetransmitInflight(peer: Peer, retryInterval: nat, cadence: nat, stall: nat, now: nat, delta: Delta)
      returns (d: Delta, resends: seq<(nat, nat)>, dead: bool, ghost rto: nat)
      requires Valid()
      modifies this`unresolved, ring, pool, peer`pacingTokens, peer`pacingRefilledAt
      ensures Valid()
      ensures var base := Rtt.RetransmitTimeout(peer.rtt.Model(), retryInterval, cadence, peer.rtt.SilentFor(0));
        && dead == (old(unresolved) > 0 && Elapsed(now, lastResolved) > Rtt.DeathBound(base, retryInterval))
        && rto == Rtt.ProbeInterval(
             Rtt.RetransmitTimeout(peer.rtt.Model(), retryInterval, cadence, peer.rtt.SilentFor(now)), base, retryInterval)
      ensures dead ==> ring[..] == old(ring[..]) && resends == [] && d == delta
      ensures !dead ==> ScannedTo(mode, old(ring[..]), ring[..], resends, peer.Pace(),
                                  peer.congestionBudget, peer.rtt.srtt, now, rto, stall, ring.Length)
      ensures |resends| <= 16
      ensures !dead && stall > 0 ==> forall k :: 0 <= k < ring.Length ==>
        ByAge(mode, old(ring[k]), ring[k], (old(ring[k]).num, old(ring[k]).slot) in resends,
              PassedOver(old(ring[k]), resends, peer.Pace(), peer.congestionBudget, peer.rtt.srtt, now), now, rto, stall)
      ensures d.resolvedBytes + LiveBytes(ring[..]) == delta.resolvedBytes + old(LiveBytes(ring[..]))
      ensures d.resolvedPackets + CountLive(ring[..]) == delta.resolvedPackets + old(CountLive(ring[..]))
      ensures d.sawProbe <==> delta.sawProbe || ProbedTo(old(ring[..]), ring.Length, resends)
      ensures mode != Unreliable ==> pool.packets == old(pool.packets) && SameLosses(d, delta)
    {
      hide Leased, CountLive, LiveBytes, ScannedTo, ScanStep, ProbedTo, ByAge, PassedOver;
      var base := peer.rtt.RetransmitTimeoutAt(retryInterval, cadence, 0);
      var bound := Rtt.DeathBound(base, retryInterval);
      var grown := peer.rtt.RetransmitTimeoutAt(retryInterval, cadence, now);
      var interval := Rtt.ProbeInterval(grown, base, retryInterval);
      rto := interval;
      ghost var before := ring[..];
      NothingScanned(mode, before, peer.Pace(), peer.congestionBudget, peer.rtt.srtt, now, rto, stall);
      d, resends := delta, [];
      dead := unresolved > 0 && Elapsed(now, lastResolved) > bound;
      if dead {
        return;
      }
      for i := 0 to ring.Length
        invariant Valid()
        invariant ScannedTo(mode, before, ring[..], resends, peer.Pace(),
                            peer.congestionBudget, peer.rtt.srtt, now, rto, stall, i)
        invariant |resends| <= RESENDS_PER_PASS
        invariant d.resolvedBytes + LiveBytes(ring[..]) == delta.resolvedBytes + LiveBytes(before)
        invariant d.resolvedPackets + CountLive(ring[..]) == delta.resolvedPackets + CountLive(before)
        invariant d.sawProbe <==> delta.sawProbe || ProbedTo(before, i, resends)
        invariant mode != Unreliable ==> pool.packets == old(pool.packets) && SameLosses(d, delta)
      {
        ghost var was, taken, pace := ring[..], resends, peer.Pace();
        NotYet(mode, before, was, taken, pace, peer.congestionBudget, peer.rtt.srtt, now, rto, stall, i);
        d, resends := ScanEntry(i, peer, now, interval, stall, d, resends);
        ScanNext(mode, before, old(pool.packets), was, ring[..], taken, resends, pace, peer.Pace(),
                 peer.congestionBudget, peer.rtt.srtt, now, rto, stall, i);
        ProbeNext(mode, before, old(pool.packets), was, ring[..], taken, resends, pace, peer.Pace(),
                  peer.congestionBudget, peer.rtt.srtt, now, rto, stall, i);
      }
      if stall > 0 {
        forall k | 0 <= k < ring.Length
          ensures ByAge(mode, before[k], ring[k], (before[k].num, before[k].slot) in resends,
                        PassedOver(before[k], resends, peer.Pace(), peer.congestionBudget, peer.rtt.srtt, now), now, rto, stall)
        {
          ScanByAge(mode, before, old(pool.packets), ring[..], resends, peer.Pace(),
                    peer.congestionBudget, peer.rtt.srtt, now, rto, stall, k);
        }
      }
    }

    /** Takes back the charge for resends that never left: once for every mention of
        an entry still in flight in its own place, and no other entry changes. */
    method RefundResendAttempts(seqs: seq<nat>)
      requires Valid()
      modifies ring
      ensures Valid()
      ensures forall k :: 0 <= k < ring.Length ==>
        ring[k] == RefundedBy(old(ring[k]), if old(ring[k]).num % ring.Length == k then multiset(seqs)[old(ring[k]).num] else 0)
      ensures LiveBytes(ring[..]) == old(LiveBytes(ring[..]))
    {
      ghost var before := ring[..];
      for j := 0 to |seqs|
        invariant forall k :: 0 <= k < ring.Length ==> ring[k] == RefundedBy(before[k], Mentions(seqs, j, before[k].num, k, ring.Length))
      {
        var i := seqs[j] % ring.Length;
        ghost var was := ring[..];
        ring[i] := RefundEntry(ring[i], seqs[j]);
        RefundStep(before, was, ring[..], seqs, j);
      }
      assert seqs[..|seqs|] == seqs;
      LiveSame(before, ring[..]);
    }

    // --- Teardown ---

    method DrainOutInflight() returns (bytes: nat, packets: nat)
      requires Valid()
      modifies this`unresolved, ring, pool
      ensures Valid()
      ensures ring[..] == DrainedRing(old(ring[..])) && unresolved == 0
      ensures pool.packets == old(pool.packets) - RingSlots(old(ring[..]))
      ensures bytes == old(LiveBytes(ring[..])) && packets == old(CountLive(ring[..]))
    {
      ghost var before := ring[..];
      ghost var leased := pool.packets;
      bytes, packets := 0, 0;
      for i := 0 to ring.Length
        invariant Leased(ring[..], pool.packets)
        invariant forall k :: 0 <= k < i ==> ring[k] == Drained(before[k])
        invariant forall k :: i <= k < ring.Length ==> ring[k] == before[k]
        invariant bytes == BytesTo(before, i) && packets == CountTo(before, i)
        invariant pool.packets == leased - SlotsTo(before, i)
      {
        if ring[i].num != 0 && !ring[i].acked {
          bytes := bytes + ring[i].wireSize;
          packets := packets + 1;
        }
        DrainEntry(i);
      }
      unresolved := 0;
      LiveNone(ring[..]);
    }

    method DrainEntry(i: nat)
      requires Leased(ring[..], pool.packets) && i < ring.Length
      modifies ring, pool
      ensures Leased(ring[..], pool.packets)
      ensures ring[..] == old(ring[..])[i := Drained(old(ring[i]))]
      ensures pool.packets == old(pool.packets)
        - (if old(ring[i]).slot != INVALID then {old(ring[i]).slot} else {})
    {
      var e := ring[i];
      if e.slot != INVALID {
        pool.Release(e.slot);
      }
      ring[i] := Drained(e);
      assert ring[..] == old(ring[..])[i := Drained(e)];
    }

    /** The association fails: what its packets spent goes back to the peer. */
    method FailAssoc(peer: Peer) returns (failed: bool)
      requires Valid()
      requires mode != Unreliable ==>
        (forall k :: 0 <= k < waiting.count ==> waiting.Contents()[k].slot in pool.packets)
        && (forall k, l :: 0 <= k < l < waiting.count ==> waiting.Contents()[k].slot != waiting.Contents()[l].slot)
        && (forall i, k :: 0 <= i < ring.Length && 0 <= k < waiting.count ==> ring[i].slot != waiting.Contents()[k].slot)
      modifies this`life, this`unresolved, ring, pool, waiting, waiting.slots, peer`bytesInFlight, peer`outstandingToPeer
      ensures Valid()
      ensures failed == (old(life) != Closed && old(life) != Failed)
      ensures failed ==> Model() == Fail(old(Model()))
      ensures !failed ==> Model() == old(Model())
      ensures peer.bytesInFlight ==
        if failed then Refunded(old(peer.bytesInFlight), old(LiveBytes(ring[..]))) else old(peer.bytesInFlight)
      ensures peer.outstandingToPeer ==
        if failed && old(LiveBytes(ring[..])) != 0 then Refunded(old(peer.outstandingToPeer), old(CountLive(ring[..])))
        else old(peer.outstandingToPeer)
    {
      if life == Closed || life == Failed {
        return false;
      }
      ghost var owned := RingSlots(ring[..]);
      var bytes, packets := DrainOutInflight();
      DrainOutWaiting();
      life := Failed;
      if bytes != 0 {
        peer.bytesInFlight := Refunded(peer.bytesInFlight, bytes);
        peer.outstandingToPeer := Refunded(peer.outstandingToPeer, packets);
      }
      failed := true;
    }

    method DrainOutWaiting()
      requires Valid()
      requires mode != Unreliable ==>
        (forall k :: 0 <= k < waiting.count ==> waiting.Contents()[k].slot in pool.packets)
        && (forall k, l :: 0 <= k < l < waiting.count ==> waiting.Contents()[k].slot != waiting.Contents()[l].slot)
        && (forall i, k :: 0 <= i < ring.Length && 0 <= k < waiting.count ==> ring[i].slot != waiting.Contents()[k].slot)
      modifies pool, waiting, waiting.slots
      ensures Valid() && waiting.Contents() == []
      ensures pool.packets == old(pool.packets)
        - (if mode == Unreliable then {} else WaitingSlots(old(waiting.Contents())))
    {
      ghost var queued := waiting.Contents();
      ghost var leased := pool.packets;
      ghost var n := 0;
      while waiting.count > 0
        invariant waiting.Valid() && n + waiting.count == |queued|
        invariant waiting.Contents() == queued[n..]
        invariant Leased(ring[..], pool.packets)
        invariant pool.packets == leased - (if mode == Unreliable then {} else WaitingTo(queued, n))
        decreases waiting.count
      {
        var oldest := waiting.Dequeue();
        assert oldest == queued[n];
        if mode != Unreliable {
          pool.Release(oldest.slot);
        }
        n := n + 1;
      }
    }
  }

  function SlotsTo(ring: seq<InFlightEntry>, n: nat): (r: set<nat>)
    requires n <= |ring|
  {
    set i | 0 <= i < n && ring[i].slot != INVALID :: ring[i].slot
  }

  function WaitingTo(waiting: seq<WaitingEntry>, n: nat): (r: set<nat>)
    requires n <= |waiting|
  {
    set i | 0 <= i < n :: waiting[i].slot
  }

  /** Overdue for a resend, or, once acknowledged, old enough to be offered again. */
  predicate Due(e: InFlightEntry, now: nat, rto: nat, stall: nat) {
    && e.num != 0
    && (if e.acked then e.sentAt != 0 && Elapsed(now, e.sentAt) >= stall else Elapsed(now, e.sentAt) >= rto)
  }

  /** An entry the scan would collect. */
  predicate Offered(mode: FlowMode, e: InFlightEntry, now: nat, rto: nat, stall: nat) {
    Due(e, now, rto, stall) && e.slot != INVALID && !(mode == Unreliable && !e.acked)
  }

  /** Exactly what the scan does with one entry. */
  ghost predicate ScanStep(mode: FlowMode, e: InFlightEntry, e': InFlightEntry,
                           taken: seq<(nat, nat)>, resends: seq<(nat, nat)>, pace: Pacing.Allowance, pace': Pacing.Allowance,
                           budget: nat, srtt: nat, now: nat, rto: nat, stall: nat) {
    var topped := Pacing.Refill(pace, budget, srtt, now);
    if Due(e, now, rto, stall) && mode == Unreliable && !e.acked then
      e' == ResolveEntry(false, e, false) && resends == taken && pace' == pace
    else if !Offered(mode, e, now, rto, stall) || |taken| >= RESENDS_PER_PASS then
      e' == e && resends == taken && pace' == pace
    else if Pacing.Allows(topped, srtt, e.wireSize) then
      e' == ResendEntry(e, now) && resends == taken + [(e.num, e.slot)] && pace' == Pacing.Spend(topped, e.wireSize)
    else
      e' == e && resends == taken && pace' == topped
  }

  /** Why an entry on offer was passed over, judged at the end of the pass. */
  ghost predicate PassedOver(e: InFlightEntry, resends: seq<(nat, nat)>, pace: Pacing.Allowance, budget: nat, srtt: nat, now: nat) {
    |resends| == RESENDS_PER_PASS || !Pacing.Allows(Pacing.Refill(pace, budget, srtt, now), srtt, e.wireSize)
  }

  ghost predicate Handled(mode: FlowMode, e: InFlightEntry, e': InFlightEntry, resends: seq<(nat, nat)>, pace: Pacing.Allowance,
                          budget: nat, srtt: nat, now: nat, rto: nat, stall: nat) {
    if Due(e, now, rto, stall) && mode == Unreliable && !e.acked then e' == ResolveEntry(false, e, false)
    else if !Offered(mode, e, now, rto, stall) then e' == e
    else
      || ((e.num, e.slot) in resends && e' == ResendEntry(e, now))
      || (e' == e && (e.num, e.slot) !in resends && PassedOver(e, resends, pace, budget, srtt, now))
  }

  /** The pair names an entry that was on offer. */
  ghost predicate FromRing(mode: FlowMode, ring: seq<InFlightEntry>, n: nat, pair: (nat, nat), now: nat, rto: nat, stall: nat)
    requires n <= |ring|
  {
    exists k :: 0 <= k < n && Offered(mode, ring[k], now, rto, stall) && (ring[k].num, ring[k].slot) == pair
  }

  /** The first n entries are scanned, the rest as they were, and every pair
      collected comes from an entry that was on offer. */
  ghost predicate ScannedTo(mode: FlowMode, before: seq<InFlightEntry>, after: seq<InFlightEntry>,
                            resends: seq<(nat, nat)>, pace: Pacing.Allowance,
                            budget: nat, srtt: nat, now: nat, rto: nat, stall: nat, n: nat) {
    && n <= |before| == |after| && |resends| <= RESENDS_PER_PASS
    && (forall k :: 0 <= k < n ==> Handled(mode, before[k], after[k], resends, pace, budget, srtt, now, rto, stall))
    && (forall k :: n <= k < |before| ==> after[k] == before[k])
    && (forall j :: 0 <= j < |resends| ==> FromRing(mode, before, n, resends[j], now, rto, stall))
  }

  /** What a pass does with one entry, told by its age alone. In flight on a reliable
      flow, it is resent from the probe interval on, and left alone before; on an
      unreliable flow it is given up then. Acknowledged, it is offered again only
      once its send time is known and the stall timeout old. Refused means the batch
      is full or the clock says no. */
  predicate ByAge(mode: FlowMode, e: InFlightEntry, e': InFlightEntry, collected: bool, refused: bool,
                  now: nat, rto: nat, stall: nat) {
    && (e.num == 0 ==> !collected && e' == e)
    && (e.num != 0 && !e.acked && mode != Unreliable ==>
          && (now < e.sentAt + rto ==> !collected && e' == e)
          && (now >= e.sentAt + rto && e.slot != INVALID && !refused ==> collected)
          && (collected ==> e'.sentAt == now && !e'.freeResend)
          && (!collected ==> e' == e))
    && (e.num != 0 && !e.acked && mode == Unreliable ==>
          !collected && if now < e.sentAt + rto then e' == e else e'.num == 0)
    && (e.num != 0 && e.acked ==>
          && (collected ==> e.sentAt != 0 && now >= e.sentAt + stall && e' == e.(sentAt := now))
          && (e.sentAt != 0 && now >= e.sentAt + stall && e.slot != INVALID && !refused ==> collected)
          && (!collected ==> e' == e))
  }

  /** A collected pair is its own entry's: slots tell entries apart. */
  lemma {:induction false} CollectedOffered(mode: FlowMode, before: seq<InFlightEntry>, packets: map<nat, StagedPacket>,
                                            after: seq<InFlightEntry>, resends: seq<(nat, nat)>, pace: Pacing.Allowance,
                                            budget: nat, srtt: nat, now: nat, rto: nat, stall: nat, k: nat)
    requires Leased(before, packets) && k < |before|
    requires ScannedTo(mode, before, after, resends, pace, budget, srtt, now, rto, stall, |before|)
    requires (before[k].num, before[k].slot) in resends
    ensures Offered(mode, before[k], now, rto, stall)
  {
    hide Handled, Offered;
    var j :| 0 <= j < |resends| && resends[j] == (before[k].num, before[k].slot);
    assert FromRing(mode, before, |before|, resends[j], now, rto, stall);
    var m :| 0 <= m < |before| && Offered(mode, before[m], now, rto, stall) && (before[m].num, before[m].slot) == resends[j];
    assert before[m].slot != INVALID by {
      OfferedHasCopy(mode, before[m], now, rto, stall);
    }
  }

  lemma {:induction false} OfferedHasCopy(mode: FlowMode, e: InFlightEntry, now: nat, rto: nat, stall: nat)
    requires Offered(mode, e, now, rto, stall)
    ensures e.slot != INVALID
  {
  }

  lemma {:induction false} ScanByAge(mode: FlowMode, before: seq<InFlightEntry>, packets: map<nat, StagedPacket>,
                                     after: seq<InFlightEntry>, resends: seq<(nat, nat)>, pace: Pacing.Allowance,
                                     budget: nat, srtt: nat, now: nat, rto: nat, stall: nat, k: nat)
    requires Leased(before, packets) && k < |before| && rto > 0 && stall > 0
    requires ScannedTo(mode, before, after, resends, pace, budget, srtt, now, rto, stall, |before|)
    ensures |after| == |before|
    ensures ByAge(mode, before[k], after[k], (before[k].num, before[k].slot) in resends,
                  PassedOver(before[k], resends, pace, budget, srtt, now), now, rto, stall)
  {
    assert Handled(mode, before[k], after[k], resends, pace, budget, srtt, now, rto, stall);
    if (before[k].num, before[k].slot) in resends {
      CollectedOffered(mode, before, packets, after, resends, pace, budget, srtt, now, rto, stall, k);
    }
    hide ScannedTo, Leased, PassedOver;
  }

  /** A resend went out of an entry not acknowledged. */
  ghost predicate ProbedTo(ring: seq<InFlightEntry>, n: nat, resends: seq<(nat, nat)>)
    requires n <= |ring|
  {
    exists k :: 0 <= k < n && !ring[k].acked && ring[k].slot != INVALID && (ring[k].num, ring[k].slot) in resends
  }

  lemma {:induction false} NothingScanned(mode: FlowMode, ring: seq<InFlightEntry>, pace: Pacing.Allowance,
                                          budget: nat, srtt: nat, now: nat, rto: nat, stall: nat)
    ensures ScannedTo(mode, ring, ring, [], pace, budget, srtt, now, rto, stall, 0)
    ensures forall n :: 0 <= n <= |ring| ==> !ProbedTo(ring, n, [])
  {
  }

  /** What was passed over stays so for the rest of the pass. */
  lemma {:induction false} StillHandled(mode: FlowMode, e: InFlightEntry, e': InFlightEntry, f: InFlightEntry, f': InFlightEntry,
                                        taken: seq<(nat, nat)>, resends: seq<(nat, nat)>, pace: Pacing.Allowance, pace': Pacing.Allowance,
                                        budget: nat, srtt: nat, now: nat, rto: nat, stall: nat)
    requires e.slot != INVALID ==> e.slot != f.slot
    requires Handled(mode, e, e', taken, pace, budget, srtt, now, rto, stall)
    requires ScanStep(mode, f, f', taken, resends, pace, pace', budget, srtt, now, rto, stall)
    ensures Handled(mode, e, e', resends, pace', budget, srtt, now, rto, stall)
  {
    hide Due, ResendEntry, ResolveEntry, Pacing.Refill;
    if !Pacing.Allows(Pacing.Refill(pace, budget, srtt, now), srtt, e.wireSize) {
      Pacing.StaysRefused(pace, budget, srtt, now, e.wireSize, f.wireSize);
    }
  }

  lemma {:induction false} StepHandled(mode: FlowMode, e: InFlightEntry, e': InFlightEntry,
                                       taken: seq<(nat, nat)>, resends: seq<(nat, nat)>, pace: Pacing.Allowance, pace': Pacing.Allowance,
                                       budget: nat, srtt: nat, now: nat, rto: nat, stall: nat)
    requires ScanStep(mode, e, e', taken, resends, pace, pace', budget, srtt, now, rto, stall)
    requires |taken| <= RESENDS_PER_PASS && (e.num, e.slot) !in taken
    ensures Handled(mode, e, e', resends, pace', budget, srtt, now, rto, stall)
    ensures |resends| <= RESENDS_PER_PASS
    ensures resends == taken || (resends == taken + [(e.num, e.slot)] && Offered(mode, e, now, rto, stall))
  {
    hide Due, ResendEntry, ResolveEntry, Pacing.Refill;
    if !Pacing.Allows(Pacing.Refill(pace, budget, srtt, now), srtt, e.wireSize) {
      Pacing.StaysRefused(pace, budget, srtt, now, e.wireSize, 0);
    }
  }

  lemma {:induction false} NotTaken(mode: FlowMode, before: seq<InFlightEntry>, packets: map<nat, StagedPacket>,
                                    was: seq<InFlightEntry>, taken: seq<(nat, nat)>, pace: Pacing.Allowance,
                                    budget: nat, srtt: nat, now: nat, rto: nat, stall: nat, i: nat)
    requires Leased(before, packets)
    requires i < |before| && ScannedTo(mode, before, was, taken, pace, budget, srtt, now, rto, stall, i)
    ensures (before[i].num, before[i].slot) !in taken
  {
    hide Handled, Due;
    forall j | 0 <= j < |taken|
      ensures taken[j].1 != before[i].slot
    {
      assert FromRing(mode, before, i, taken[j], now, rto, stall);
    }
  }

  lemma {:induction false} ScanNext(mode: FlowMode, before: seq<InFlightEntry>, packets: map<nat, StagedPacket>,
                                    was: seq<InFlightEntry>, after: seq<InFlightEntry>, taken: seq<(nat, nat)>, resends: seq<(nat, nat)>,
                                    pace: Pacing.Allowance, pace': Pacing.Allowance,
                                    budget: nat, srtt: nat, now: nat, rto: nat, stall: nat, i: nat)
    requires Leased(before, packets)
    requires i < |before| && ScannedTo(mode, before, was, taken, pace, budget, srtt, now, rto, stall, i)
    requires |after| == |was| && after == was[i := after[i]]
    requires ScanStep(mode, before[i], after[i], taken, resends, pace, pace', budget, srtt, now, rto, stall)
    ensures ScannedTo(mode, before, after, resends, pace', budget, srtt, now, rto, stall, i + 1)
  {
    hide Handled, ScanStep, Offered;
    NotTaken(mode, before, packets, was, taken, pace, budget, srtt, now, rto, stall, i);
    StepHandled(mode, before[i], after[i], taken, resends, pace, pace', budget, srtt, now, rto, stall);
    forall k | 0 <= k < i
      ensures Handled(mode, before[k], after[k], resends, pace', budget, srtt, now, rto, stall)
    {
      StillHandled(mode, before[k], was[k], before[i], after[i], taken, resends, pace, pace', budget, srtt, now, rto, stall);
    }
    forall j | 0 <= j < |resends|
      ensures FromRing(mode, before, i + 1, resends[j], now, rto, stall)
    {
      if j < |taken| {
        assert FromRing(mode, before, i, taken[j], now, rto, stall);
      }
    }
  }

  lemma {:induction false} NotYet(mode: FlowMode, before: seq<InFlightEntry>, was: seq<InFlightEntry>,
                                  taken: seq<(nat, nat)>, pace: Pacing.Allowance,
                                  budget: nat, srtt: nat, now: nat, rto: nat, stall: nat, i: nat)
    requires i < |before| && ScannedTo(mode, before, was, taken, pace, budget, srtt, now, rto, stall, i)
    ensures |was| == |before| && was[i] == before[i]
  {
  }

  /** Slots tell entries apart, so a new pair is a probe exactly when its own entry is
      not acknowledged. */
  lemma {:induction false} ProbeNext(mode: FlowMode, before: seq<InFlightEntry>, packets: map<nat, StagedPacket>,
                                     was: seq<InFlightEntry>, after: seq<InFlightEntry>,
                                     taken: seq<(nat, nat)>, resends: seq<(nat, nat)>,
                                     pace: Pacing.Allowance, pace': Pacing.Allowance,
                                     budget: nat, srtt: nat, now: nat, rto: nat, stall: nat, i: nat)
    requires Leased(before, packets) && i < |before| == |after|
    requires ScannedTo(mode, before, was, taken, pace, budget, srtt, now, rto, stall, i)
    requires ScanStep(mode, before[i], after[i], taken, resends, pace, pace', budget, srtt, now, rto, stall)
    ensures ProbedTo(before, i + 1, resends) <==>
      ProbedTo(before, i, taken) || (resends != taken && !before[i].acked)
  {
    NotTaken(mode, before, packets, was, taken, pace, budget, srtt, now, rto, stall, i);
    StepHandled(mode, before[i], after[i], taken, resends, pace, pace', budget, srtt, now, rto, stall);
    hide Handled, ScanStep, Pacing.Refill, Due;
    if ProbedTo(before, i + 1, resends) {
      var k :| 0 <= k < i + 1 && !before[k].acked && before[k].slot != INVALID && (before[k].num, before[k].slot) in resends;
      if (before[k].num, before[k].slot) in taken {
        var j :| 0 <= j < |taken| && taken[j] == (before[k].num, before[k].slot);
        assert FromRing(mode, before, i, taken[j], now, rto, stall);
      }
    }
    if resends != taken && !before[i].acked {
      assert (before[i].num, before[i].slot) in resends;
    }
    if ProbedTo(before, i, taken) {
      var k :| 0 <= k < i && !before[k].acked && before[k].slot != INVALID && (before[k].num, before[k].slot) in taken;
      assert (before[k].num, before[k].slot) in resends;
    }
  }

  /** Every packet weighs something, so a failed ring gives back exactly what it
      still charged, packets included. */
  lemma {:induction false} FailRefunds(ring: seq<InFlightEntry>, bytesInFlight: nat, outstanding: nat)
    requires forall i :: 0 <= i < |ring| && Live(ring[i]) ==> ring[i].wireSize > 0
    requires LiveBytes(ring) <= bytesInFlight && CountLive(ring) <= outstanding
    ensures Refunded(bytesInFlight, LiveBytes(ring)) == bytesInFlight - LiveBytes(ring)
    ensures (if LiveBytes(ring) != 0 then Refunded(outstanding, CountLive(ring)) else outstanding) ==
      outstanding - CountLive(ring)
  {
    LiveBothOrNeither(ring, |ring|);
  }

  /** An entry after so many refunds. */
  function RefundedBy(e: InFlightEntry, times: nat): (r: InFlightEntry) {
    if times == 0 || e.acked then e
    else e.(retries := if e.retries > times then e.retries - times else 0, sentAt := 0)
  }

  /** How often the first j sequences name the entry in place k. */
  function Mentions(seqs: seq<nat>, j: nat, num: nat, k: int, size: nat): (r: nat)
    requires j <= |seqs| && size > 0
  {
    if num % size == k then multiset(seqs[..j])[num] else 0
  }

  lemma {:induction false} RefundStep(before: seq<InFlightEntry>, was: seq<InFlightEntry>, now: seq<InFlightEntry>, seqs: seq<nat>, j: nat)
    requires |before| == |was| > 0 && j < |seqs|
    requires forall k :: 0 <= k < |was| ==> was[k] == RefundedBy(before[k], Mentions(seqs, j, before[k].num, k, |was|))
    requires now == was[seqs[j] % |was| := RefundEntry(was[seqs[j] % |was|], seqs[j])]
    ensures forall k :: 0 <= k < |was| ==> now[k] == RefundedBy(before[k], Mentions(seqs, j + 1, before[k].num, k, |was|))
  {
    assert seqs[..j + 1] == seqs[..j] + [seqs[j]];
  }

  /** The bytes and packets that stopped being live are the ones reported. */
  ghost predicate Conserves(before: Delta, ring: seq<InFlightEntry>, after: Delta, ring': seq<InFlightEntry>) {
    && after.resolvedBytes + LiveBytes(ring') == before.resolvedBytes + LiveBytes(ring)
    && after.resolvedPackets + CountLive(ring') == before.resolvedPackets + CountLive(ring)
    && before.resolvedPackets <= after.resolvedPackets
    && after.ackedBytes + before.resolvedBytes == before.ackedBytes + after.resolvedBytes
    && after == before.(resolvedBytes := after.resolvedBytes, resolvedPackets := after.resolvedPackets,
                        ackedBytes := after.ackedBytes)
  }

  /** Tracks the highest sequence proved and the newest one resolved. */
  method Note(e: InFlightEntry, covered: bool, largest: nat, newest: Option<InFlightEntry>)
    returns (largest': nat, newest': Option<InFlightEntry>)
    ensures largest' == if covered && e.num > largest then e.num else largest
    ensures newest' == if covered && !e.acked && (newest.None? || e.num > newest.value.num) then Some(e) else newest
  {
    largest', newest' := largest, newest;
    if covered {
      if e.num > largest {
        largest' := e.num;
      }
      if !e.acked && (newest.None? || e.num > newest.value.num) {
        newest' := Some(e);
      }
    }
  }

  /** What one acknowledgement tells the peer: every byte that stopped being in
      flight, as acknowledged; the sample of the newest entry it resolved; and the
      losses it proves among what it left. */
  ghost predicate Told(mode: FlowMode, before: Delta, ring: seq<InFlightEntry>, after: Delta, ring': seq<InFlightEntry>,
                       recvNext: nat, ranges: seq<AckRange>, now: nat, ackDelay: nat, lossDelay: nat) {
    var sampled := Sampled(before, NewestResolved(ring, recvNext, ranges), now, ackDelay);
    var largest := LargestCovered(ring, recvNext, ranges);
    var left := AckRing(IsOrdered(mode), ring, recvNext, ranges);
    && after.resolvedBytes + LiveBytes(ring') == before.resolvedBytes + LiveBytes(ring)
    && after.resolvedPackets + CountLive(left) == before.resolvedPackets + CountLive(ring)
    && after.ackedBytes + before.resolvedBytes == before.ackedBytes + after.resolvedBytes
    && after.rttSample == sampled.rttSample && after.ackDelay == sampled.ackDelay
    && after.sawProbe == before.sawProbe
    && SameLosses(after, if largest == 0 || mode == Unreliable then before
                         else LoseDelta(before, left, largest, now, lossDelay))
  }

  lemma {:induction false} Tell(mode: FlowMode, delta: Delta, ring: seq<InFlightEntry>, resolved: Delta, left: seq<InFlightEntry>,
                                d: Delta, ring': seq<InFlightEntry>,
                                recvNext: nat, ranges: seq<AckRange>, now: nat, ackDelay: nat, lossDelay: nat)
    requires left == AckRing(IsOrdered(mode), ring, recvNext, ranges) && Conserves(delta, ring, resolved, left)
    requires LiveBytes(ring') == LiveBytes(left)
    requires var s := Sampled(resolved, NewestResolved(ring, recvNext, ranges), now, ackDelay);
      var largest := LargestCovered(ring, recvNext, ranges);
      d == if largest == 0 || mode == Unreliable then s else LoseDelta(s, left, largest, now, lossDelay)
    ensures Told(mode, delta, ring, d, ring', recvNext, ranges, now, ackDelay, lossDelay)
  {
    hide LargestCovered, NewestResolved, LiveBytes, CountLive, AckRing;
    var s := Sampled(resolved, NewestResolved(ring, recvNext, ranges), now, ackDelay);
    var largest := LargestCovered(ring, recvNext, ranges);
    LossReported(s, left, largest, now, lossDelay, |left|);
    LossesAlike(s, delta, left, largest, now, lossDelay, |left|);
  }
}
