/** The sending half of an association, on values: the in-flight ring indexed by
    sequence, the waiting FIFO, and the staging pool that keeps sent bodies. The
    class in OutAssociation.dfy updates the same state in place. */
module Sender {
  import opened Options
  import opened FlowTypes

  const INVALID: nat := 0xFFFF_FFFF
  const UINT8_MAX: nat := 255
  const LOSS_PACKET_THRESHOLD: nat := 3

  /** num == 0 marks the entry free. slot names the retained copy. */
  datatype InFlightEntry = InFlightEntry(
    sentAt: nat,
    num: nat,
    slot: nat,
    wireSize: nat,
    retries: nat,
    epoch: nat,
    acked: bool,
    lostByAck: bool,
    freeResend: bool)

  const FREE_ENTRY := InFlightEntry(0, 0, INVALID, 0, 0, 0, false, false, false)

  datatype WaitingEntry = WaitingEntry(slot: nat, wireSize: nat)

  const FREE_WAITING := WaitingEntry(INVALID, 0)

  /** A body kept in the staging pool; num is the sequence written into its
      header, zero until it is stamped. */
  datatype StagedPacket = StagedPacket(num: nat, body: Body)

  datatype OutState = OutState(
    mode: FlowMode,
    life: Lifecycle,
    ring: seq<InFlightEntry>,
    nextSeq: nat,
    unresolved: nat,
    ackBase: nat,
    waiting: seq<WaitingEntry>,
    waitingCap: nat,
    staging: map<nat, StagedPacket>)

  predicate Shape(o: OutState) {
    |o.ring| == WindowFor(o.mode)
  }

  function FreshOut(mode: FlowMode, waitingCap: nat, staging: map<nat, StagedPacket>): (r: OutState) {
    OutState(mode, Open, seq(WindowFor(mode), i => FREE_ENTRY), 1, 0, 1, [], waitingCap, staging)
  }

  // --- One entry ---

  /** Sent and not resolved: what the window, the budget and the grant count. */
  predicate Live(e: InFlightEntry) {
    e.num != 0 && !e.acked
  }

  function StampEntry(num: nat, now: nat, flying: bool, slot: nat, wireSize: nat, epoch: nat): (r: InFlightEntry) {
    InFlightEntry(if flying then now else 0, num, slot, wireSize, 0, epoch, false, false, false)
  }

  predicate Covered(e: InFlightEntry, recvNext: nat, ranges: seq<AckRange>) {
    e.num != 0 && (e.num < recvNext || SeqInRanges(e.num, ranges))
  }

  /** Resolves an entry: an acknowledged entry of an ordered flow keeps its
      sequence and copy, everything else frees. */
  function ResolveEntry(ordered: bool, e: InFlightEntry, acked: bool): (r: InFlightEntry) {
    if !Live(e) then e
    else if acked && ordered then e.(acked := true)
    else e.(num := 0, slot := INVALID, wireSize := 0, acked := false)
  }

  function AckEntry(ordered: bool, e: InFlightEntry, recvNext: nat, ranges: seq<AckRange>): (r: InFlightEntry) {
    if Covered(e, recvNext, ranges) then ResolveEntry(ordered, e, true) else e
  }

  function Elapsed(now: nat, then_: nat): (r: nat) {
    if now > then_ then now - then_ else 0
  }

  predicate DeclaredLost(e: InFlightEntry, largestAcked: nat, now: nat, lossDelay: nat) {
    && Live(e) && !e.lostByAck
    && largestAcked > e.num
    && (largestAcked - e.num >= LOSS_PACKET_THRESHOLD
        || (e.sentAt != 0 && Elapsed(now, e.sentAt) > lossDelay))
  }

  function LoseEntry(e: InFlightEntry, largestAcked: nat, now: nat, lossDelay: nat): (r: InFlightEntry) {
    if DeclaredLost(e, largestAcked, now, lossDelay)
    then e.(lostByAck := true, freeResend := true, sentAt := 0)
    else e
  }

  /** The entry after the retransmit scan took it: a re-offer of an acknowledged
      copy costs nothing, a declared loss owes one free resend, anything else is
      charged, saturating. */
  function ResendEntry(e: InFlightEntry, now: nat): (r: InFlightEntry) {
    if e.acked then e.(sentAt := now)
    else if e.freeResend then e.(sentAt := now, freeResend := false)
    else e.(sentAt := now, retries := if e.retries < UINT8_MAX then e.retries + 1 else e.retries)
  }

  /** A collected resend that never left. */
  function RefundEntry(e: InFlightEntry, num: nat): (r: InFlightEntry) {
    if e.num != num || e.acked then e
    else e.(retries := if e.retries > 0 then e.retries - 1 else 0, sentAt := 0)
  }

  // --- The whole ring ---

  function AckRing(ordered: bool, ring: seq<InFlightEntry>, recvNext: nat, ranges: seq<AckRange>): (r: seq<InFlightEntry>)
    ensures |r| == |ring|
  {
    seq(|ring|, i requires 0 <= i < |ring| => AckEntry(ordered, ring[i], recvNext, ranges))
  }

  function LoseRing(ring: seq<InFlightEntry>, largestAcked: nat, now: nat, lossDelay: nat): (r: seq<InFlightEntry>)
    ensures |r| == |ring|
  {
    seq(|ring|, i requires 0 <= i < |ring| => LoseEntry(ring[i], largestAcked, now, lossDelay))
  }

  function CountTo(ring: seq<InFlightEntry>, n: nat): (r: nat)
    requires n <= |ring|
  {
    if n == 0 then 0 else CountTo(ring, n - 1) + if Live(ring[n - 1]) then 1 else 0
  }

  function BytesTo(ring: seq<InFlightEntry>, n: nat): (r: nat)
    requires n <= |ring|
  {
    if n == 0 then 0 else BytesTo(ring, n - 1) + if Live(ring[n - 1]) then ring[n - 1].wireSize else 0
  }

  /** How many packets, and how many bytes, the ring still has in flight. */
  function CountLive(ring: seq<InFlightEntry>): (r: nat) {
    CountTo(ring, |ring|)
  }

  function LiveBytes(ring: seq<InFlightEntry>): (r: nat) {
    BytesTo(ring, |ring|)
  }

  lemma {:induction false} LiveUpdateTo(ring: seq<InFlightEntry>, i: int, e: InFlightEntry, n: nat)
    requires 0 <= i < |ring| && n <= |ring|
    ensures CountTo(ring[i := e], n) == CountTo(ring, n)
      + if i < n then (if Live(e) then 1 else 0) - (if Live(ring[i]) then 1 else 0) else 0
    ensures BytesTo(ring[i := e], n) == BytesTo(ring, n)
      + if i < n then (if Live(e) then e.wireSize else 0) - (if Live(ring[i]) then ring[i].wireSize else 0) else 0
  {
    if n > 0 {
      LiveUpdateTo(ring, i, e, n - 1);
    }
  }

  lemma {:induction false} LiveUpdate(ring: seq<InFlightEntry>, i: int, e: InFlightEntry)
    requires 0 <= i < |ring|
    ensures CountLive(ring[i := e]) == CountLive(ring)
      - (if Live(ring[i]) then 1 else 0) + (if Live(e) then 1 else 0)
    ensures LiveBytes(ring[i := e]) == LiveBytes(ring)
      - (if Live(ring[i]) then ring[i].wireSize else 0) + (if Live(e) then e.wireSize else 0)
  {
    LiveUpdateTo(ring, i, e, |ring|);
  }

  lemma {:induction false} LiveSameTo(a: seq<InFlightEntry>, b: seq<InFlightEntry>, n: nat)
    requires n <= |a| == |b|
    requires forall i :: 0 <= i < |a| ==> (Live(a[i]) <==> Live(b[i])) && a[i].wireSize == b[i].wireSize
    ensures CountTo(a, n) == CountTo(b, n) && BytesTo(a, n) == BytesTo(b, n)
  {
    if n > 0 {
      LiveSameTo(a, b, n - 1);
    }
  }

  lemma {:induction false} LiveSame(a: seq<InFlightEntry>, b: seq<InFlightEntry>)
    requires |a| == |b|
    requires forall i :: 0 <= i < |a| ==> (Live(a[i]) <==> Live(b[i])) && a[i].wireSize == b[i].wireSize
    ensures CountLive(a) == CountLive(b) && LiveBytes(a) == LiveBytes(b)
  {
    LiveSameTo(a, b, |a|);
  }

  lemma {:induction false} LiveNoneTo(ring: seq<InFlightEntry>, n: nat)
    requires n <= |ring|
    requires forall i :: 0 <= i < |ring| ==> !Live(ring[i])
    ensures CountTo(ring, n) == 0 && BytesTo(ring, n) == 0
  {
    if n > 0 {
      LiveNoneTo(ring, n - 1);
    }
  }

  lemma {:induction false} LiveNone(ring: seq<InFlightEntry>)
    requires forall i :: 0 <= i < |ring| ==> !Live(ring[i])
    ensures CountLive(ring) == 0 && LiveBytes(ring) == 0
  {
    LiveNoneTo(ring, |ring|);
  }

  /** The highest sequence the acknowledgement proves arrived, from our own ring. */
  function LargestTo(ring: seq<InFlightEntry>, recvNext: nat, ranges: seq<AckRange>, n: nat): (r: nat)
    requires n <= |ring|
  {
    if n == 0 then 0
    else
      var best := LargestTo(ring, recvNext, ranges, n - 1);
      if Covered(ring[n - 1], recvNext, ranges) && ring[n - 1].num > best then ring[n - 1].num else best
  }

  function LargestCovered(ring: seq<InFlightEntry>, recvNext: nat, ranges: seq<AckRange>): (r: nat) {
    LargestTo(ring, recvNext, ranges, |ring|)
  }

  /** It is the highest sequence in the ring below the reported cursor or in a range, and
      zero when there is none. */
  lemma {:induction false} LargestExact(ring: seq<InFlightEntry>, recvNext: nat, ranges: seq<AckRange>, n: nat)
    requires n <= |ring|
    ensures var largest := LargestTo(ring, recvNext, ranges, n);
      && (forall i :: 0 <= i < n && (ring[i].num < recvNext || SeqInRanges(ring[i].num, ranges)) ==> ring[i].num <= largest)
      && (largest != 0 ==>
            exists i :: 0 <= i < n && ring[i].num == largest && (ring[i].num < recvNext || SeqInRanges(ring[i].num, ranges)))
  {
    if n > 0 {
      LargestExact(ring, recvNext, ranges, n - 1);
      hide SeqInRanges;
      var before, largest := LargestTo(ring, recvNext, ranges, n - 1), LargestTo(ring, recvNext, ranges, n);
      if largest == before {
        if before != 0 {
          var i :| 0 <= i < n - 1 && ring[i].num == before && (ring[i].num < recvNext || SeqInRanges(ring[i].num, ranges));
        }
      } else {
        assert ring[n - 1].num == largest;
      }
    }
  }

  /** The newest entry the acknowledgement resolves for the first time. */
  function NewestTo(ring: seq<InFlightEntry>, recvNext: nat, ranges: seq<AckRange>, n: nat): (r: Option<InFlightEntry>)
    requires n <= |ring|
  {
    if n == 0 then None
    else
      var best := NewestTo(ring, recvNext, ranges, n - 1);
      var e := ring[n - 1];
      if Covered(e, recvNext, ranges) && !e.acked && (best.None? || e.num > best.value.num) then Some(e) else best
  }

  function NewestResolved(ring: seq<InFlightEntry>, recvNext: nat, ranges: seq<AckRange>): (r: Option<InFlightEntry>) {
    NewestTo(ring, recvNext, ranges, |ring|)
  }

  /** The slots whose copies an acknowledgement gives back at once. */
  function FreedTo(ordered: bool, ring: seq<InFlightEntry>, recvNext: nat, ranges: seq<AckRange>, n: nat): (r: set<nat>)
    requires n <= |ring|
  {
    set i | 0 <= i < n && FreesCopy(ordered, ring[i], recvNext, ranges) :: ring[i].slot
  }

  predicate FreesCopy(ordered: bool, e: InFlightEntry, recvNext: nat, ranges: seq<AckRange>) {
    !ordered && Covered(e, recvNext, ranges) && !e.acked && e.slot != INVALID
  }

  function FreedSlots(ordered: bool, ring: seq<InFlightEntry>, recvNext: nat, ranges: seq<AckRange>): (r: set<nat>) {
    FreedTo(ordered, ring, recvNext, ranges, |ring|)
  }

  lemma {:induction false} FreedStep(ordered: bool, ring: seq<InFlightEntry>, recvNext: nat, ranges: seq<AckRange>, i: nat)
    requires i < |ring|
    ensures FreedTo(ordered, ring, recvNext, ranges, i + 1) ==
      FreedTo(ordered, ring, recvNext, ranges, i)
      + (if FreesCopy(ordered, ring[i], recvNext, ranges) then {ring[i].slot} else {})
  {
  }

  /** What a guarded subtraction leaves: drift can never wrap a counter. */
  function Refunded(total: nat, amount: nat): (r: nat) {
    total - (if amount <= total then amount else total)
  }

  /** Every packet has bytes, so no bytes means no packets. */
  lemma {:induction false} LiveBothOrNeither(ring: seq<InFlightEntry>, n: nat)
    requires n <= |ring|
    requires forall i :: 0 <= i < |ring| && Live(ring[i]) ==> ring[i].wireSize > 0
    ensures BytesTo(ring, n) == 0 <==> CountTo(ring, n) == 0
  {
    if n > 0 {
      LiveBothOrNeither(ring, n - 1);
    }
  }

  // --- Feedback for the peer ---

  /** Gathered under the flow lock, applied to the peer under the peer lock. */
  datatype Delta = Delta(
    resolvedBytes: nat,
    resolvedPackets: nat,
    ackedBytes: nat,
    rttSample: nat,
    ackDelay: nat,
    sawLoss: bool,
    lostDeclaredBytes: nat,
    lostEpoch: nat,
    sawProbe: bool)

  const NO_FEEDBACK := Delta(0, 0, 0, 0, 0, false, 0, 0, false)
  const UINT32_MAX: nat := 0xFFFF_FFFF

  /** The signed reading of an eight-bit difference. */
  function Signed8(x: int): (r: int) {
    if x % 256 < 128 then x % 256 else x % 256 - 256
  }

  /** The newest epoch among the losses reported travels with the verdict. */
  function NoteLoss(d: Delta, epoch: nat): (r: Delta) {
    d.(sawLoss := true,
       lostEpoch := if !d.sawLoss || Signed8(epoch - d.lostEpoch) > 0 then epoch else d.lostEpoch)
  }

  function ResolveDelta(d: Delta, e: InFlightEntry, acked: bool): (r: Delta) {
    if !Live(e) then d
    else
      var r := d.(resolvedBytes := d.resolvedBytes + e.wireSize, resolvedPackets := d.resolvedPackets + 1);
      if acked then r.(ackedBytes := r.ackedBytes + e.wireSize) else NoteLoss(r, e.epoch)
  }

  function LoseDeltaTo(d: Delta, ring: seq<InFlightEntry>, largestAcked: nat, now: nat, lossDelay: nat, n: nat): (r: Delta)
    requires n <= |ring|
  {
    if n == 0 then d
    else
      var p := LoseDeltaTo(d, ring, largestAcked, now, lossDelay, n - 1);
      var e := ring[n - 1];
      if DeclaredLost(e, largestAcked, now, lossDelay)
      then NoteLoss(p.(lostDeclaredBytes := p.lostDeclaredBytes + e.wireSize), e.epoch)
      else p
  }

  function LoseDelta(d: Delta, ring: seq<InFlightEntry>, largestAcked: nat, now: nat, lossDelay: nat): (r: Delta) {
    LoseDeltaTo(d, ring, largestAcked, now, lossDelay, |ring|)
  }

  /** The bytes in flight that are marked lost. */
  function MarkedTo(ring: seq<InFlightEntry>, n: nat): (r: nat)
    requires n <= |ring|
  {
    if n == 0 then 0
    else MarkedTo(ring, n - 1) + if Live(ring[n - 1]) && ring[n - 1].lostByAck then ring[n - 1].wireSize else 0
  }

  function MarkedBytes(ring: seq<InFlightEntry>): (r: nat) {
    MarkedTo(ring, |ring|)
  }

  predicate AnyLostTo(ring: seq<InFlightEntry>, largestAcked: nat, now: nat, lossDelay: nat, n: nat)
    requires n <= |ring|
  {
    exists k :: 0 <= k < n && DeclaredLost(ring[k], largestAcked, now, lossDelay)
  }

  /** A declaration reports the bytes it newly marks, sees a loss exactly when it
      marks one, and leaves the rest of the feedback alone. */
  lemma {:induction false} LossReported(d: Delta, ring: seq<InFlightEntry>, largestAcked: nat, now: nat, lossDelay: nat, n: nat)
    requires n <= |ring|
    ensures var r := LoseDeltaTo(d, ring, largestAcked, now, lossDelay, n);
      && r.lostDeclaredBytes + MarkedTo(ring, n) ==
           d.lostDeclaredBytes + MarkedTo(LoseRing(ring, largestAcked, now, lossDelay), n)
      && (r.sawLoss <==> d.sawLoss || AnyLostTo(ring, largestAcked, now, lossDelay, n))
      && r == d.(sawLoss := r.sawLoss, lostDeclaredBytes := r.lostDeclaredBytes, lostEpoch := r.lostEpoch)
  {
    if n > 0 {
      LossReported(d, ring, largestAcked, now, lossDelay, n - 1);
      assert AnyLostTo(ring, largestAcked, now, lossDelay, n) <==>
        AnyLostTo(ring, largestAcked, now, lossDelay, n - 1) || DeclaredLost(ring[n - 1], largestAcked, now, lossDelay);
    }
  }

  /** The parts of the feedback that tell of losses. */
  predicate SameLosses(d: Delta, was: Delta) {
    d.sawLoss == was.sawLoss && d.lostDeclaredBytes == was.lostDeclaredBytes && d.lostEpoch == was.lostEpoch
  }

  lemma {:induction false} LossesAlike(d: Delta, d': Delta, ring: seq<InFlightEntry>, largestAcked: nat, now: nat, lossDelay: nat, n: nat)
    requires n <= |ring| && SameLosses(d, d')
    ensures SameLosses(LoseDeltaTo(d, ring, largestAcked, now, lossDelay, n),
                       LoseDeltaTo(d', ring, largestAcked, now, lossDelay, n))
  {
    if n > 0 {
      LossesAlike(d, d', ring, largestAcked, now, lossDelay, n - 1);
    }
  }

  /** A round trip is measured only from a packet sent exactly once, at a known
      time. */
  predicate Measurable(e: InFlightEntry, now: nat) {
    e.retries == 0 && !e.lostByAck && e.sentAt != 0 && now >= e.sentAt
  }

  function SampleOf(e: InFlightEntry, now: nat, ackDelay: nat): (r: nat)
    requires now >= e.sentAt
  {
    var raw := now - e.sentAt;
    var net := if ackDelay < raw then raw - ackDelay else raw;
    if net > UINT32_MAX then UINT32_MAX else net
  }

  function Sampled(d: Delta, newest: Option<InFlightEntry>, now: nat, ackDelay: nat): (r: Delta) {
    if newest.Some? && Measurable(newest.value, now)
    then d.(rttSample := SampleOf(newest.value, now, ackDelay), ackDelay := ackDelay)
    else d
  }

  /** A sample is taken exactly from an entry sent once at a known time, and is the time
      it was out less the hold, when that leaves anything; it never exceeds a word. */
  lemma {:induction false} SampleExact(d: Delta, newest: Option<InFlightEntry>, now: nat, hold: nat)
    ensures var r := Sampled(d, newest, now, hold);
      && r == d.(rttSample := r.rttSample, ackDelay := r.ackDelay)
      && if newest.Some? && newest.value.retries == 0 && !newest.value.lostByAck && 0 < newest.value.sentAt <= now then
           var out := now - newest.value.sentAt;
           && r.ackDelay == hold
           && (out <= 0xFFFF_FFFF && hold < out ==> r.rttSample + hold == out)
           && (out <= 0xFFFF_FFFF && hold >= out ==> r.rttSample == out)
           && (hold < out && out - hold > 0xFFFF_FFFF ==> r.rttSample == 0xFFFF_FFFF)
           && r.rttSample <= 0xFFFF_FFFF
         else r == d
  {
  }

  /** The two rules of loss (section 6.1 of RFC 9002): an entry in flight is marked, once,
      when a sequence three or more past it is proved to have arrived, or any later one
      while it has been out longer than the loss delay. A marked entry is due at once. */
  lemma {:induction false} LossExact(e: InFlightEntry, largestAcked: nat, now: nat, lossDelay: nat)
    ensures var r := LoseEntry(e, largestAcked, now, lossDelay);
      var lost := e.num != 0 && !e.acked && !e.lostByAck
        && (largestAcked >= e.num + 3
            || (largestAcked > e.num && e.sentAt != 0 && now > e.sentAt + lossDelay));
      r == if lost then e.(lostByAck := true, freeResend := true, sentAt := 0) else e
  {
  }

  // --- The send gate ---

  predicate RingAdmits(o: OutState)
    requires Shape(o)
  {
    && (o.mode != Unreliable ==> o.unresolved < |o.ring|)
    && o.ring[o.nextSeq % |o.ring|].num == 0
  }

  /** Takes the next sequence for the packet in slot. */
  function Stamp(o: OutState, now: nat, flying: bool, slot: nat, wireSize: nat, epoch: nat): (r: OutState)
    requires Shape(o)
    ensures Shape(r)
  {
    var kept := if o.mode == Unreliable then INVALID else slot;
    o.(ring := o.ring[o.nextSeq % |o.ring| := StampEntry(o.nextSeq, now, flying, kept, wireSize, epoch)],
       unresolved := o.unresolved + 1,
       nextSeq := o.nextSeq + 1,
       staging := if kept in o.staging
                  then o.staging[kept := StagedPacket(o.nextSeq, o.staging[kept].body)]
                  else o.staging)
  }

  datatype Admission = Sent | Queued | Dropped | Rejected | Dead

  datatype Admitted = Admitted(st: OutState, verdict: Admission)

  /** A packet the gate refused: it waits, or a reliable flow rejects it, or an
      unreliable one gives up its oldest for it. */
  function Waits(o: OutState, slot: nat, wireSize: nat): (r: Admitted) {
    if |o.waiting| < o.waitingCap then
      Admitted(o.(waiting := o.waiting + [WaitingEntry(slot, wireSize)]), Queued)
    else if o.mode != Unreliable then Admitted(o, Rejected)
    else if o.waitingCap > 0 && |o.waiting| > 0 then
      Admitted(o.(waiting := o.waiting[1..] + [WaitingEntry(slot, wireSize)]), Queued)
    else Admitted(o, Dropped)
  }

  /** gate is the peer's side of the decision: budget, grant and pacing. */
  function Admit(o: OutState, gate: bool, now: nat, flying: bool, slot: nat, wireSize: nat, epoch: nat): (r: Admitted)
    requires Shape(o)
  {
    if o.life != Open then Admitted(o, Dead)
    else if |o.waiting| == 0 && RingAdmits(o) && gate then
      Admitted(Stamp(o, now, flying, slot, wireSize, epoch), Sent)
    else Waits(o, slot, wireSize)
  }

  /** What the gate answers, exactly. Nothing overtakes what waits; only a reliable flow
      rejects; only an unreliable one drops, and then its oldest. */
  lemma {:induction false} AdmitExact(o: OutState, gate: bool, now: nat, flying: bool, slot: nat, wireSize: nat, epoch: nat)
    requires Shape(o) && |o.waiting| <= o.waitingCap
    ensures var a := Admit(o, gate, now, flying, slot, wireSize, epoch);
      var entry := WaitingEntry(slot, wireSize);
      && (a.verdict == Dead <==> o.life != Open)
      && (a.verdict == Sent <==>
            && o.life == Open && gate && o.waiting == [] && o.ring[o.nextSeq % |o.ring|].num == 0
            && (o.mode == Unreliable || o.unresolved < |o.ring|))
      && (a.verdict == Rejected ==> o.mode != Unreliable && |o.waiting| == o.waitingCap)
      && (a.verdict == Dropped ==> o.mode == Unreliable && o.waitingCap == 0)
      && (a.verdict == Queued ==>
            a.st.waiting == (if |o.waiting| < o.waitingCap then o.waiting else o.waiting[1..]) + [entry]
            && (o.mode != Unreliable ==> |o.waiting| < o.waitingCap))
      && (a.verdict != Sent && a.verdict != Queued ==> a.st == o)
      && (a.verdict == Queued ==> a.st == o.(waiting := a.st.waiting))
  {
    hide Stamp;
  }

  /** The drain: the head of the waiting FIFO takes the next sequence. */
  function Claim(o: OutState, now: nat, epoch: nat): (r: OutState)
    requires Shape(o) && |o.waiting| > 0
  {
    Stamp(o.(waiting := o.waiting[1..]), now, true, o.waiting[0].slot, o.waiting[0].wireSize, epoch)
  }

  // --- Acknowledgement ---

  /** Frees the copies the receiver's cursor has passed, lowest first. */
  function ReleaseRun(o: OutState, remoteRecvNext: nat, steps: nat): (r: OutState)
    requires Shape(o)
    ensures Shape(r) && r.mode == o.mode
    decreases steps
  {
    if o.ackBase == o.nextSeq || o.ackBase >= remoteRecvNext || steps == 0 then o
    else
      var i := o.ackBase % |o.ring|;
      var e := o.ring[i];
      if e.num == o.ackBase && !e.acked then o
      else
        var next := if e.num == o.ackBase
                    then o.(ring := o.ring[i := ReleasedEntry(e)], staging := o.staging - {e.slot},
                            ackBase := o.ackBase + 1)
                    else o.(ackBase := o.ackBase + 1);
        ReleaseRun(next, remoteRecvNext, steps - 1)
  }

  function ReleasedEntry(e: InFlightEntry): (r: InFlightEntry) {
    FREE_ENTRY.(epoch := e.epoch)
  }

  function AfterRelease(o: OutState): (r: OutState)
    requires Shape(o)
    ensures Shape(r)
  {
    var i := o.ackBase % |o.ring|;
    o.(ring := o.ring[i := ReleasedEntry(o.ring[i])], staging := o.staging - {o.ring[i].slot},
       ackBase := o.ackBase + 1)
  }

  lemma {:induction false} ReleaseUnfold(o: OutState, recvNext: nat, steps: nat)
    requires Shape(o) && steps > 0
    requires o.ackBase != o.nextSeq && o.ackBase < recvNext
    ensures var e := o.ring[o.ackBase % |o.ring|];
      && (e.num == o.ackBase && e.acked ==>
            ReleaseRun(o, recvNext, steps) == ReleaseRun(AfterRelease(o), recvNext, steps - 1))
      && (e.num != o.ackBase ==>
            ReleaseRun(o, recvNext, steps) == ReleaseRun(o.(ackBase := o.ackBase + 1), recvNext, steps - 1))
  {
  }

  lemma {:induction false} ReleaseStops(o: OutState, recvNext: nat, steps: nat)
    requires Shape(o)
    requires o.ackBase == o.nextSeq || o.ackBase >= recvNext || steps == 0
      || (o.ring[o.ackBase % |o.ring|].num == o.ackBase && !o.ring[o.ackBase % |o.ring|].acked)
    ensures ReleaseRun(o, recvNext, steps) == o
  {
  }

  /** The three passes of one acknowledgement: resolve what it covers, declare
      losses below the highest sequence it proves, release what the cursor has
      passed. */
  function Resolved(o: OutState, recvNext: nat, ranges: seq<AckRange>): (r: OutState)
    requires Shape(o)
    ensures Shape(r) && r.mode == o.mode
  {
    var ring := AckRing(IsOrdered(o.mode), o.ring, recvNext, ranges);
    o.(ring := ring,
       unresolved := if CountLive(o.ring) - CountLive(ring) <= o.unresolved
                     then o.unresolved - (CountLive(o.ring) - CountLive(ring)) else 0,
       staging := o.staging - FreedSlots(IsOrdered(o.mode), o.ring, recvNext, ranges))
  }

  function AckPasses(o: OutState, recvNext: nat, ranges: seq<AckRange>, now: nat, lossDelay: nat): (r: OutState)
    requires Shape(o)
    ensures Shape(r) && r.mode == o.mode
  {
    var largest := LargestCovered(o.ring, recvNext, ranges);
    var r := Resolved(o, recvNext, ranges);
    if largest == 0 || o.mode == Unreliable then r
    else r.(ring := LoseRing(r.ring, largest, now, lossDelay))
  }

  function ApplyAck(o: OutState, recvNext: nat, ranges: seq<AckRange>, now: nat, lossDelay: nat): (r: OutState)
    requires Shape(o)
    ensures Shape(r) && r.mode == o.mode
  {
    ReleaseRun(AckPasses(o, recvNext, ranges, now, lossDelay), recvNext, |o.ring|)
  }

  // --- Teardown ---

  function RingSlots(ring: seq<InFlightEntry>): (r: set<nat>) {
    set i | 0 <= i < |ring| && ring[i].slot != INVALID :: ring[i].slot
  }

  function WaitingSlots(waiting: seq<WaitingEntry>): (r: set<nat>) {
    set i | 0 <= i < |waiting| :: waiting[i].slot
  }

  function Drained(e: InFlightEntry): (r: InFlightEntry) {
    e.(slot := INVALID, num := 0, wireSize := 0, acked := false)
  }

  function DrainedRing(ring: seq<InFlightEntry>): (r: seq<InFlightEntry>)
    ensures |r| == |ring|
  {
    seq(|ring|, i requires 0 <= i < |ring| => Drained(ring[i]))
  }

  /** FAILED: both rings drained and every lease returned. */
  function Fail(o: OutState): (r: OutState)
    requires Shape(o)
  {
    o.(ring := DrainedRing(o.ring), unresolved := 0, waiting := [], life := Failed,
       staging := o.staging - RingSlots(o.ring)
                  - (if o.mode == Unreliable then {} else WaitingSlots(o.waiting)))
  }
}
