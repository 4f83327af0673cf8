/** Karn's rule (section 3 of RFC 6298): no round-trip sample is taken from a
    packet that was put on the wire more than once, whatever mix of first sends,
    declared losses with their free resend, charged resends, saturated retry
    counts and refunds the packet went through. */
module Karn {
  import opened Options
  import opened FlowTypes
  import opened Sender

  /** A ring and what has happened on the wire: how often each sequence left, which
      were ever collected for a resend, and which still owe their first send. */
  datatype Flight = Flight(
    ordered: bool,
    ring: seq<InFlightEntry>,
    nextSeq: nat,
    wire: map<nat, nat>,
    collected: set<nat>,
    owed: set<nat>)

  function TimesSent(f: Flight, n: nat): (r: nat) {
    if n in f.wire then f.wire[n] else 0
  }

  datatype Event =
    | Stamps(index: nat, now: nat, flying: bool, slot: nat, wireSize: nat, epoch: nat)
    | FirstLeaves(num: nat)
    | Collects(index: nat, now: nat)
    | ResendLeaves(num: nat)
    | Refunds(index: nat, num: nat)
    | Acks(recvNext: nat, ranges: seq<AckRange>)
    | Declares(largest: nat, now: nat, lossDelay: nat)
    | Frees(index: nat)

  /** One event. Resends leave only after a collection; nothing limits how many
      are collected, left or refunded, nor in which order. */
  ghost predicate Happens(f: Flight, e: Event, g: Flight) {
    match e
    case Stamps(i, now, flying, slot, wireSize, epoch) =>
      && i < |f.ring| && f.ring[i].num == 0
      && g == f.(ring := f.ring[i := StampEntry(f.nextSeq, now, flying, slot, wireSize, epoch)],
                 nextSeq := f.nextSeq + 1,
                 owed := if flying then f.owed + {f.nextSeq} else f.owed)
    case FirstLeaves(n) =>
      && n in f.owed
      && g == f.(owed := f.owed - {n}, wire := f.wire[n := TimesSent(f, n) + 1])
    case Collects(i, now) =>
      && i < |f.ring| && f.ring[i].num != 0
      && g == f.(ring := f.ring[i := ResendEntry(f.ring[i], now)],
                 collected := f.collected + {f.ring[i].num})
    case ResendLeaves(n) =>
      && n in f.collected
      && g == f.(wire := f.wire[n := TimesSent(f, n) + 1])
    case Refunds(i, n) =>
      && i < |f.ring| && n in f.collected
      && g == f.(ring := f.ring[i := RefundEntry(f.ring[i], n)])
    case Acks(recvNext, ranges) =>
      g == f.(ring := AckRing(f.ordered, f.ring, recvNext, ranges))
    case Declares(largest, now, lossDelay) =>
      g == f.(ring := LoseRing(f.ring, largest, now, lossDelay))
    case Frees(i) =>
      && i < |f.ring|
      && g == f.(ring := f.ring[i := Drained(f.ring[i])])
  }

  /** An entry that could still be measured was never collected. */
  predicate Clean(e: InFlightEntry, collected: set<nat>) {
    Live(e) && e.num in collected ==> e.lostByAck || e.sentAt == 0 || e.retries > 0
  }

  ghost predicate RingInv(ring: seq<InFlightEntry>, nextSeq: nat, collected: set<nat>) {
    && (forall i :: 0 <= i < |ring| ==> Clean(ring[i], collected) && ring[i].num < nextSeq)
    && (forall i :: 0 <= i < |ring| && Live(ring[i]) && ring[i].freeResend ==> ring[i].lostByAck)
    && (forall i, j :: 0 <= i < j < |ring| && ring[i].num != 0 ==> ring[i].num != ring[j].num)
  }

  ghost predicate WireInv(f: Flight) {
    && (forall n :: n in f.collected || n in f.owed || n in f.wire ==> n < f.nextSeq)
    && (forall n: nat :: n !in f.collected ==> TimesSent(f, n) + (if n in f.owed then 1 else 0) <= 1)
  }

  ghost predicate Inv(f: Flight) {
    f.nextSeq >= 1 && RingInv(f.ring, f.nextSeq, f.collected) && WireInv(f)
  }

  /** Entry by entry, a pass that at most resolves, frees or declares lost. */
  lemma {:induction false} PassKeeps(ring: seq<InFlightEntry>, ring': seq<InFlightEntry>, nextSeq: nat, collected: set<nat>)
    requires RingInv(ring, nextSeq, collected) && nextSeq >= 1
    requires |ring'| == |ring|
    requires forall i :: 0 <= i < |ring| ==>
      || ring'[i].num == 0
      || (ring'[i].num == ring[i].num && (ring[i].acked ==> ring'[i].acked)
          && (ring'[i].lostByAck || ring'[i].acked
              || (ring'[i].sentAt == 0 && ring'[i].freeResend == ring[i].freeResend && ring'[i].lostByAck == ring[i].lostByAck)
              || ring'[i] == ring[i]))
    ensures RingInv(ring', nextSeq, collected)
  {
    forall i | 0 <= i < |ring|
      ensures Clean(ring'[i], collected)
    {
      assert Clean(ring[i], collected);
    }
  }

  lemma {:induction false} RingEvents(f: Flight, e: Event, g: Flight)
    requires Inv(f) && Happens(f, e, g)
    requires e.Refunds? || e.Acks? || e.Declares? || e.Frees?
    ensures Inv(g)
  {
    PassKeeps(f.ring, g.ring, f.nextSeq, f.collected);
    assert forall n: nat :: TimesSent(g, n) == TimesSent(f, n);
  }

  lemma {:induction false} WireEvents(f: Flight, e: Event, g: Flight)
    requires Inv(f) && Happens(f, e, g)
    requires e.FirstLeaves? || e.ResendLeaves?
    ensures Inv(g)
  {
    assert forall m: nat :: m != e.num ==> TimesSent(g, m) == TimesSent(f, m);
  }

  lemma {:induction false} StampEvent(f: Flight, e: Event, g: Flight)
    requires Inv(f) && Happens(f, e, g) && e.Stamps?
    ensures Inv(g)
  {
    assert forall n: nat :: TimesSent(g, n) == TimesSent(f, n);
    assert f.nextSeq !in f.collected;
  }

  lemma {:induction false} CollectEvent(f: Flight, e: Event, g: Flight)
    requires Inv(f) && Happens(f, e, g) && e.Collects?
    ensures Inv(g)
  {
    assert forall n: nat :: TimesSent(g, n) == TimesSent(f, n);
    forall j | 0 <= j < |g.ring|
      ensures Clean(g.ring[j], g.collected)
    {
      assert Clean(f.ring[j], f.collected);
    }
  }

  lemma {:induction false} HappensKeeps(f: Flight, e: Event, g: Flight)
    requires Inv(f) && Happens(f, e, g)
    ensures Inv(g)
  {
    match e
    case Stamps(_, _, _, _, _, _) => StampEvent(f, e, g);
    case Collects(_, _) => CollectEvent(f, e, g);
    case FirstLeaves(_) => WireEvents(f, e, g);
    case ResendLeaves(_) => WireEvents(f, e, g);
    case _ => RingEvents(f, e, g);
  }

  /** A run from an empty ring. */
  ghost predicate IsFlight(states: seq<Flight>, events: seq<Event>) {
    && |states| == |events| + 1
    && (forall i :: 0 <= i < |states[0].ring| ==> states[0].ring[i] == FREE_ENTRY)
    && states[0].nextSeq == 1 && states[0].wire == map[] && states[0].collected == {} && states[0].owed == {}
    && forall k :: 0 <= k < |events| ==> Happens(states[k], events[k], states[k + 1])
  }

  lemma {:induction false} FlightKeeps(states: seq<Flight>, events: seq<Event>, k: nat)
    requires IsFlight(states, events) && k < |states|
    ensures Inv(states[k])
  {
    if k > 0 {
      FlightKeeps(states, events, k - 1);
      assert Happens(states[k - 1], events[k - 1], states[k - 1 + 1]);
      HappensKeeps(states[k - 1], events[k - 1], states[k]);
    }
  }

  /** The entry a sample comes from is the newest one this acknowledgement
      resolves for the first time. */
  lemma {:induction false} NewestIsNewest(ring: seq<InFlightEntry>, recvNext: nat, ranges: seq<AckRange>, n: nat)
    requires n <= |ring|
    ensures var newest := NewestTo(ring, recvNext, ranges, n);
      && (newest.Some? ==>
            exists i :: 0 <= i < n && ring[i] == newest.value && Live(ring[i]) && Covered(ring[i], recvNext, ranges))
      && (forall i :: 0 <= i < n && Live(ring[i]) && Covered(ring[i], recvNext, ranges) ==>
            newest.Some? && ring[i].num <= newest.value.num)
  {
    if n > 0 {
      NewestIsNewest(ring, recvNext, ranges, n - 1);
      var newest := NewestTo(ring, recvNext, ranges, n);
      if newest.Some? && newest != NewestTo(ring, recvNext, ranges, n - 1) {
        assert ring[n - 1] == newest.value;
      }
    }
  }

  /** Every sample any acknowledgement yields, in any reachable state, comes from a
      packet that left at most once and was never even collected for a resend. */
  lemma {:induction false} NoAmbiguousSample(states: seq<Flight>, events: seq<Event>, k: nat,
                                             recvNext: nat, ranges: seq<AckRange>, now: nat, ackDelay: nat, d: Delta)
    requires IsFlight(states, events) && k < |states|
    requires Sampled(d, NewestResolved(states[k].ring, recvNext, ranges), now, ackDelay) != d
    ensures var newest := NewestResolved(states[k].ring, recvNext, ranges);
      newest.Some? && newest.value.num !in states[k].collected && TimesSent(states[k], newest.value.num) <= 1
  {
    FlightKeeps(states, events, k);
    var f := states[k];
    NewestIsNewest(f.ring, recvNext, ranges, |f.ring|);
    var e := NewestResolved(f.ring, recvNext, ranges).value;
    var i :| 0 <= i < |f.ring| && f.ring[i] == e && Live(f.ring[i]) && Covered(f.ring[i], recvNext, ranges);
    assert Clean(f.ring[i], f.collected);
  }
}
