/** One peer's books across all its associations: the in-flight bytes and packets
    charged to the peer always equal what its rings still have in flight plus the
    feedback gathered and not yet applied, and every staging slot has one owner. */
module Accounting {
  import opened FlowTypes
  import opened Sender

  /** An association as its ring; a closed one keeps a drained ring. */
  datatype Assoc = Assoc(ordered: bool, ring: seq<InFlightEntry>)

  datatype Books = Books(
    bytesInFlight: nat,
    outstanding: nat,
    assocs: seq<Assoc>,
    pending: seq<Delta>,
    leased: set<nat>)

  datatype Entry =
    | Opens(assoc: Assoc)
    | Leases(slot: nat)
    | Returns(slot: nat)
    | Stamps(a: nat, i: nat, num: nat, now: nat, flying: bool, slot: nat, wireSize: nat, epoch: nat)
    | GathersAck(a: nat, recvNext: nat, ranges: seq<AckRange>)
    | GathersLoss(a: nat, i: nat)
    | Remarks(a: nat, ring: seq<InFlightEntry>)
    | Releases(a: nat, i: nat)
    | Applies(j: nat)
    | Drains(a: nat, onlyIfBytes: bool)

  // --- The feedback of one acknowledgement ---

  function GatherTo(ring: seq<InFlightEntry>, recvNext: nat, ranges: seq<AckRange>, n: nat): (r: Delta)
    requires n <= |ring|
  {
    if n == 0 then NO_FEEDBACK
    else
      var d := GatherTo(ring, recvNext, ranges, n - 1);
      if Covered(ring[n - 1], recvNext, ranges) then ResolveDelta(d, ring[n - 1], true) else d
  }

  function Gather(ring: seq<InFlightEntry>, recvNext: nat, ranges: seq<AckRange>): (r: Delta) {
    GatherTo(ring, recvNext, ranges, |ring|)
  }

  /** What stops being in flight is exactly what is reported. */
  lemma {:induction false} GatherConserves(ordered: bool, ring: seq<InFlightEntry>, recvNext: nat, ranges: seq<AckRange>, n: nat)
    requires n <= |ring|
    ensures var acked := AckRing(ordered, ring, recvNext, ranges);
      && GatherTo(ring, recvNext, ranges, n).resolvedBytes + BytesTo(acked, n) == BytesTo(ring, n)
      && GatherTo(ring, recvNext, ranges, n).resolvedPackets + CountTo(acked, n) == CountTo(ring, n)
  {
    if n > 0 {
      GatherConserves(ordered, ring, recvNext, ranges, n - 1);
    }
  }

  // --- The steps ---

  ghost predicate Posts(b: Books, e: Entry, c: Books) {
    match e
    case Opens(a) =>
      && (forall i :: 0 <= i < |a.ring| ==> a.ring[i] == FREE_ENTRY)
      && c == b.(assocs := b.assocs + [a])
    case Leases(slot) =>
      slot != INVALID && slot !in b.leased && c == b.(leased := b.leased + {slot})
    case Returns(slot) =>
      slot in b.leased && Unnamed(b, slot) && c == b.(leased := b.leased - {slot})
    case Stamps(a, i, num, now, flying, slot, wireSize, epoch) =>
      && a < |b.assocs| && i < |b.assocs[a].ring| && b.assocs[a].ring[i].num == 0
      && num != 0 && wireSize > 0
      && (slot == INVALID || (slot in b.leased && Unnamed(b, slot)))
      && c == b.(assocs := WithEntry(b.assocs, a, i, StampEntry(num, now, flying, slot, wireSize, epoch)),
                 bytesInFlight := b.bytesInFlight + wireSize, outstanding := b.outstanding + 1)
    case GathersAck(a, recvNext, ranges) =>
      && a < |b.assocs|
      && var s := b.assocs[a];
         c == b.(assocs := b.assocs[a := s.(ring := AckRing(s.ordered, s.ring, recvNext, ranges))],
                 pending := b.pending + [Gather(s.ring, recvNext, ranges)],
                 leased := b.leased - FreedSlots(s.ordered, s.ring, recvNext, ranges))
    case GathersLoss(a, i) =>
      && a < |b.assocs| && i < |b.assocs[a].ring| && !b.assocs[a].ordered
      && var r := b.assocs[a].ring[i];
         c == b.(assocs := WithEntry(b.assocs, a, i, ResolveEntry(false, r, false)),
                 pending := b.pending + [ResolveDelta(NO_FEEDBACK, r, false)],
                 leased := if Live(r) then b.leased - {r.slot} else b.leased)
    case Remarks(a, ring) =>
      && a < |b.assocs| && |ring| == |b.assocs[a].ring|
      && (forall i :: 0 <= i < |ring| ==> SameLedger(ring[i], b.assocs[a].ring[i]))
      && c == b.(assocs := b.assocs[a := b.assocs[a].(ring := ring)])
    case Releases(a, i) =>
      && a < |b.assocs| && i < |b.assocs[a].ring| && b.assocs[a].ring[i].num != 0 && b.assocs[a].ring[i].acked
      && c == b.(assocs := WithEntry(b.assocs, a, i, ReleasedEntry(b.assocs[a].ring[i])),
                 leased := b.leased - {b.assocs[a].ring[i].slot})
    case Applies(j) =>
      && j < |b.pending|
      && c == b.(pending := b.pending[..j] + b.pending[j + 1..],
                 bytesInFlight := Refunded(b.bytesInFlight, b.pending[j].resolvedBytes),
                 outstanding := Refunded(b.outstanding, b.pending[j].resolvedPackets))
    case Drains(a, onlyIfBytes) =>
      && a < |b.assocs|
      && var s := b.assocs[a];
         var skip := onlyIfBytes && LiveBytes(s.ring) == 0;
         c == b.(assocs := b.assocs[a := s.(ring := DrainedRing(s.ring))],
                 leased := b.leased - RingSlots(s.ring),
                 bytesInFlight := if skip then b.bytesInFlight else Refunded(b.bytesInFlight, LiveBytes(s.ring)),
                 outstanding := if skip then b.outstanding else Refunded(b.outstanding, CountLive(s.ring)))
  }

  function WithEntry(assocs: seq<Assoc>, a: nat, i: nat, e: InFlightEntry): (r: seq<Assoc>)
    requires a < |assocs| && i < |assocs[a].ring|
  {
    assocs[a := assocs[a].(ring := assocs[a].ring[i := e])]
  }

  /** Resends, refunds and declared losses: nothing the books read changes. */
  predicate SameLedger(e: InFlightEntry, was: InFlightEntry) {
    e.num == was.num && e.slot == was.slot && e.wireSize == was.wireSize && e.acked == was.acked
  }

  ghost predicate Unnamed(b: Books, slot: nat) {
    forall a, i :: 0 <= a < |b.assocs| && 0 <= i < |b.assocs[a].ring| ==> b.assocs[a].ring[i].slot != slot
  }

  // --- The sums ---

  function AssocBytes(assocs: seq<Assoc>, n: nat): (r: nat)
    requires n <= |assocs|
  {
    if n == 0 then 0 else AssocBytes(assocs, n - 1) + LiveBytes(assocs[n - 1].ring)
  }

  function AssocCount(assocs: seq<Assoc>, n: nat): (r: nat)
    requires n <= |assocs|
  {
    if n == 0 then 0 else AssocCount(assocs, n - 1) + CountLive(assocs[n - 1].ring)
  }

  function PendingBytes(pending: seq<Delta>): (r: nat) {
    if pending == [] then 0 else pending[0].resolvedBytes + PendingBytes(pending[1..])
  }

  function PendingCount(pending: seq<Delta>): (r: nat) {
    if pending == [] then 0 else pending[0].resolvedPackets + PendingCount(pending[1..])
  }

  lemma {:induction false} SumUpdate(assocs: seq<Assoc>, a: nat, s: Assoc, n: nat)
    requires a < |assocs| && n <= |assocs|
    ensures AssocBytes(assocs[a := s], n) == AssocBytes(assocs, n)
      + if a < n then LiveBytes(s.ring) - LiveBytes(assocs[a].ring) else 0
    ensures AssocCount(assocs[a := s], n) == AssocCount(assocs, n)
      + if a < n then CountLive(s.ring) - CountLive(assocs[a].ring) else 0
  {
    if n > 0 {
      SumUpdate(assocs, a, s, n - 1);
    }
  }

  lemma {:induction false} SumExtend(assocs: seq<Assoc>, s: Assoc, n: nat)
    requires n <= |assocs|
    ensures AssocBytes(assocs + [s], n) == AssocBytes(assocs, n)
    ensures AssocCount(assocs + [s], n) == AssocCount(assocs, n)
  {
    if n > 0 {
      SumExtend(assocs, s, n - 1);
    }
  }

  lemma {:induction false} PendingAppend(pending: seq<Delta>, d: Delta)
    ensures PendingBytes(pending + [d]) == PendingBytes(pending) + d.resolvedBytes
    ensures PendingCount(pending + [d]) == PendingCount(pending) + d.resolvedPackets
  {
    if pending == [] {
      assert pending + [d] == [d];
    } else {
      assert (pending + [d])[1..] == pending[1..] + [d];
      PendingAppend(pending[1..], d);
    }
  }

  lemma {:induction false} PendingRemove(pending: seq<Delta>, j: nat)
    requires j < |pending|
    ensures PendingBytes(pending[..j] + pending[j + 1..]) + pending[j].resolvedBytes == PendingBytes(pending)
    ensures PendingCount(pending[..j] + pending[j + 1..]) + pending[j].resolvedPackets == PendingCount(pending)
  {
    if j == 0 {
      assert pending[..0] + pending[1..] == pending[1..];
    } else {
      var rest := pending[..j] + pending[j + 1..];
      assert rest[1..] == pending[1..][..j - 1] + pending[1..][j..];
      PendingRemove(pending[1..], j - 1);
    }
  }

  // --- The invariant ---

  ghost predicate Balanced(b: Books) {
    && b.bytesInFlight == AssocBytes(b.assocs, |b.assocs|) + PendingBytes(b.pending)
    && b.outstanding == AssocCount(b.assocs, |b.assocs|) + PendingCount(b.pending)
  }

  /** Every live entry weighs something, so a drain without bytes is one without
      packets. */
  ghost predicate Weighty(b: Books) {
    forall a, i :: 0 <= a < |b.assocs| && 0 <= i < |b.assocs[a].ring| && Live(b.assocs[a].ring[i]) ==>
      b.assocs[a].ring[i].wireSize > 0
  }

  ghost predicate Named(b: Books, a: int, i: int) {
    0 <= a < |b.assocs| && 0 <= i < |b.assocs[a].ring| && b.assocs[a].ring[i].slot != INVALID
  }

  /** A named slot is leased, occupied, and named by that entry alone. */
  ghost predicate OneOwner(b: Books) {
    && INVALID !in b.leased
    && (forall a, i :: Named(b, a, i) ==> b.assocs[a].ring[i].slot in b.leased && b.assocs[a].ring[i].num != 0)
    && (forall a, i, a', i' :: Named(b, a, i) && Named(b, a', i') && (a != a' || i != i') ==>
          b.assocs[a].ring[i].slot != b.assocs[a'].ring[i'].slot)
  }

  ghost predicate Inv(b: Books) {
    Balanced(b) && Weighty(b) && OneOwner(b)
  }

  lemma {:induction false} BytesWithin(assocs: seq<Assoc>, a: nat, n: nat)
    requires a < n <= |assocs|
    ensures LiveBytes(assocs[a].ring) <= AssocBytes(assocs, n)
    ensures CountLive(assocs[a].ring) <= AssocCount(assocs, n)
  {
    if a < n - 1 {
      BytesWithin(assocs, a, n - 1);
    }
  }

  lemma {:induction false} PendingWithin(pending: seq<Delta>, j: nat)
    requires j < |pending|
    ensures pending[j].resolvedBytes <= PendingBytes(pending)
    ensures pending[j].resolvedPackets <= PendingCount(pending)
  {
    PendingRemove(pending, j);
  }

  /** The guards never fire: whatever is refunded was charged. */
  lemma {:induction false} GuardsNeverFire(b: Books)
    requires Inv(b)
    ensures forall j :: 0 <= j < |b.pending| ==>
      b.pending[j].resolvedBytes <= b.bytesInFlight && b.pending[j].resolvedPackets <= b.outstanding
    ensures forall a :: 0 <= a < |b.assocs| ==>
      LiveBytes(b.assocs[a].ring) <= b.bytesInFlight && CountLive(b.assocs[a].ring) <= b.outstanding
  {
    forall j | 0 <= j < |b.pending|
      ensures b.pending[j].resolvedBytes <= b.bytesInFlight && b.pending[j].resolvedPackets <= b.outstanding
    {
      PendingWithin(b.pending, j);
    }
    forall a | 0 <= a < |b.assocs|
      ensures LiveBytes(b.assocs[a].ring) <= b.bytesInFlight && CountLive(b.assocs[a].ring) <= b.outstanding
    {
      BytesWithin(b.assocs, a, |b.assocs|);
    }
  }

  // --- Every step keeps the books ---

  lemma {:induction false} EntryBalance(b: Books, a: nat, i: nat, e: InFlightEntry)
    requires a < |b.assocs| && i < |b.assocs[a].ring|
    ensures var assocs := WithEntry(b.assocs, a, i, e);
      var was := b.assocs[a].ring[i];
      && AssocBytes(assocs, |assocs|) == AssocBytes(b.assocs, |b.assocs|)
           - (if Live(was) then was.wireSize else 0) + (if Live(e) then e.wireSize else 0)
      && AssocCount(assocs, |assocs|) == AssocCount(b.assocs, |b.assocs|)
           - (if Live(was) then 1 else 0) + (if Live(e) then 1 else 0)
  {
    LiveUpdate(b.assocs[a].ring, i, e);
    SumUpdate(b.assocs, a, b.assocs[a].(ring := b.assocs[a].ring[i := e]), |b.assocs|);
  }

  lemma {:induction false} RingBalance(b: Books, a: nat, s: Assoc)
    requires a < |b.assocs|
    ensures var assocs := b.assocs[a := s];
      && AssocBytes(assocs, |assocs|) ==
           AssocBytes(b.assocs, |b.assocs|) - LiveBytes(b.assocs[a].ring) + LiveBytes(s.ring)
      && AssocCount(assocs, |assocs|) ==
           AssocCount(b.assocs, |b.assocs|) - CountLive(b.assocs[a].ring) + CountLive(s.ring)
  {
    SumUpdate(b.assocs, a, s, |b.assocs|);
  }

  lemma {:induction false} OpenBalance(b: Books, e: Entry, c: Books)
    requires Balanced(b) && Posts(b, e, c) && e.Opens?
    ensures Balanced(c)
  {
    SumExtend(b.assocs, e.assoc, |b.assocs|);
    LiveNone(e.assoc.ring);
  }

  lemma {:induction false} LeaseBalance(b: Books, e: Entry, c: Books)
    requires Balanced(b) && Posts(b, e, c) && (e.Leases? || e.Returns?)
    ensures Balanced(c)
  {
  }

  lemma {:induction false} StampBalance(b: Books, e: Entry, c: Books)
    requires Balanced(b) && Posts(b, e, c) && e.Stamps?
    ensures Balanced(c)
  {
    hide AssocBytes, AssocCount;
    EntryBalance(b, e.a, e.i, StampEntry(e.num, e.now, e.flying, e.slot, e.wireSize, e.epoch));
  }

  lemma {:induction false} AckBalance(b: Books, e: Entry, c: Books)
    requires Balanced(b) && Posts(b, e, c) && e.GathersAck?
    ensures Balanced(c)
  {
    hide AssocBytes, AssocCount, GatherTo, AckRing, FreedSlots, PendingBytes, PendingCount;
    var s := b.assocs[e.a];
    GatherConserves(s.ordered, s.ring, e.recvNext, e.ranges, |s.ring|);
    RingBalance(b, e.a, s.(ring := AckRing(s.ordered, s.ring, e.recvNext, e.ranges)));
    PendingAppend(b.pending, Gather(s.ring, e.recvNext, e.ranges));
  }

  lemma {:induction false} LossBalance(b: Books, e: Entry, c: Books)
    requires Balanced(b) && Posts(b, e, c) && e.GathersLoss?
    ensures Balanced(c)
  {
    hide AssocBytes, AssocCount, PendingBytes, PendingCount;
    var r := b.assocs[e.a].ring[e.i];
    EntryBalance(b, e.a, e.i, ResolveEntry(false, r, false));
    PendingAppend(b.pending, ResolveDelta(NO_FEEDBACK, r, false));
  }

  lemma {:induction false} RemarkBalance(b: Books, e: Entry, c: Books)
    requires Balanced(b) && Posts(b, e, c) && e.Remarks?
    ensures Balanced(c)
  {
    hide AssocBytes, AssocCount;
    LiveSame(e.ring, b.assocs[e.a].ring);
    RingBalance(b, e.a, b.assocs[e.a].(ring := e.ring));
  }

  lemma {:induction false} ReleaseBalance(b: Books, e: Entry, c: Books)
    requires Balanced(b) && Posts(b, e, c) && e.Releases?
    ensures Balanced(c)
  {
    hide AssocBytes, AssocCount;
    EntryBalance(b, e.a, e.i, ReleasedEntry(b.assocs[e.a].ring[e.i]));
  }

  lemma {:induction false} ApplyBalance(b: Books, e: Entry, c: Books)
    requires Balanced(b) && Posts(b, e, c) && e.Applies?
    ensures Balanced(c)
  {
    hide AssocBytes, AssocCount, PendingBytes, PendingCount;
    PendingWithin(b.pending, e.j);
    PendingRemove(b.pending, e.j);
  }

  lemma {:induction false} DrainBalance(b: Books, e: Entry, c: Books)
    requires Balanced(b) && Weighty(b) && Posts(b, e, c) && e.Drains?
    ensures Balanced(c)
  {
    hide AssocBytes, AssocCount, RingSlots;
    var s := b.assocs[e.a];
    BytesWithin(b.assocs, e.a, |b.assocs|);
    LiveNone(DrainedRing(s.ring));
    LiveBothOrNeither(s.ring, |s.ring|);
    RingBalance(b, e.a, s.(ring := DrainedRing(s.ring)));
  }

  lemma {:induction false} PostsBalance(b: Books, e: Entry, c: Books)
    requires Inv(b) && Posts(b, e, c)
    ensures Balanced(c)
  {
    hide Posts, Balanced, Weighty, OneOwner;
    match e
    case Opens(_) => OpenBalance(b, e, c);
    case Leases(_) => LeaseBalance(b, e, c);
    case Returns(_) => LeaseBalance(b, e, c);
    case Stamps(_, _, _, _, _, _, _, _) => StampBalance(b, e, c);
    case GathersAck(_, _, _) => AckBalance(b, e, c);
    case GathersLoss(_, _) => LossBalance(b, e, c);
    case Remarks(_, _) => RemarkBalance(b, e, c);
    case Releases(_, _) => ReleaseBalance(b, e, c);
    case Applies(_) => ApplyBalance(b, e, c);
    case Drains(_, _) => DrainBalance(b, e, c);
  }

  lemma {:induction false} PostsWeighty(b: Books, e: Entry, c: Books)
    requires Weighty(b) && Posts(b, e, c)
    ensures Weighty(c)
  {
  }

  /** A step that may give back copies a ring names. */
  predicate OfRing(b: Books, e: Entry) {
    && (e.GathersAck? || e.GathersLoss? || e.Releases? || e.Drains?) && e.a < |b.assocs|
    && (e.GathersLoss? || e.Releases? ==> e.i < |b.assocs[e.a].ring|)
  }

  /** The leases a step ends: copies a ring named, or a slot no ring names, as after
      a rejected send or a drained waiting ring. */
  ghost function ReleasedBy(b: Books, e: Entry): (r: set<nat>)
    requires e.Returns? || OfRing(b, e)
  {
    if e.Returns? then {e.slot}
    else
      var s := b.assocs[e.a];
      match e
      case GathersAck(a, recvNext, ranges) => FreedSlots(s.ordered, s.ring, recvNext, ranges)
      case GathersLoss(a, i) => if Live(s.ring[i]) && s.ring[i].slot != INVALID then {s.ring[i].slot} else {}
      case Releases(a, i) => if s.ring[i].slot != INVALID then {s.ring[i].slot} else {}
      case Drains(a, onlyIfBytes) => RingSlots(s.ring)
  }

  ghost predicate ReleasedAt(b: Books, e: Entry, k: int)
    requires OfRing(b, e) && 0 <= k < |b.assocs[e.a].ring|
  {
    var s := b.assocs[e.a];
    match e
    case GathersAck(a, recvNext, ranges) => FreesCopy(s.ordered, s.ring[k], recvNext, ranges)
    case GathersLoss(a, i) => k == i && Live(s.ring[k])
    case Releases(a, i) => k == i
    case Drains(a, onlyIfBytes) => true
  }

  lemma {:induction false} ReleasedFrom(b: Books, e: Entry, x: nat)
    requires OfRing(b, e) && x in ReleasedBy(b, e)
    ensures exists k :: 0 <= k < |b.assocs[e.a].ring| && b.assocs[e.a].ring[k].slot == x != INVALID && ReleasedAt(b, e, k)
  {
  }

  lemma {:induction false} KeptApart(b: Books, e: Entry, c: Books, k: int, a: int, i: int)
    requires OneOwner(b) && Posts(b, e, c) && OfRing(b, e)
    requires 0 <= k < |b.assocs[e.a].ring| && b.assocs[e.a].ring[k].slot != INVALID && ReleasedAt(b, e, k)
    requires Named(c, a, i)
    ensures Named(b, a, i) && c.assocs[a].ring[i].slot == b.assocs[a].ring[i].slot
    ensures c.assocs[a].ring[i].slot != b.assocs[e.a].ring[k].slot
  {
    assert Named(b, e.a, k);
  }

  lemma {:induction false} ReleasedByRing(b: Books, e: Entry, c: Books)
    requires Inv(b) && Posts(b, e, c) && OfRing(b, e)
    ensures ReleasedBy(b, e) <= b.leased
    ensures c.leased == b.leased - ReleasedBy(b, e)
    ensures forall a, i :: Named(c, a, i) ==> c.assocs[a].ring[i].slot !in ReleasedBy(b, e)
  {
    LeaseEnds(b, e, c);
    hide Posts, ReleasedBy, ReleasedAt, Balanced, Weighty;
    forall x | x in ReleasedBy(b, e)
      ensures x in b.leased && forall a, i :: Named(c, a, i) ==> c.assocs[a].ring[i].slot != x
    {
      ReleasedFrom(b, e, x);
      var k :| 0 <= k < |b.assocs[e.a].ring| && b.assocs[e.a].ring[k].slot == x != INVALID && ReleasedAt(b, e, k);
      assert Named(b, e.a, k);
      forall a, i | Named(c, a, i)
        ensures c.assocs[a].ring[i].slot != x
      {
        KeptApart(b, e, c, k, a, i);
      }
    }
  }

  lemma {:induction false} LeaseEnds(b: Books, e: Entry, c: Books)
    requires INVALID !in b.leased && Posts(b, e, c) && OfRing(b, e)
    ensures c.leased == b.leased - ReleasedBy(b, e)
  {
  }

  /** A slot is released only while leased, and never one an entry still names: each
      lease ends exactly once. */
  lemma {:induction false} ReleasedOnce(b: Books, e: Entry, c: Books)
    requires Inv(b) && Posts(b, e, c) && (e.Returns? || OfRing(b, e))
    ensures ReleasedBy(b, e) <= b.leased
    ensures c.leased == b.leased - ReleasedBy(b, e)
    ensures forall a, i :: Named(c, a, i) ==> c.assocs[a].ring[i].slot !in ReleasedBy(b, e)
  {
    if OfRing(b, e) {
      hide Inv, Posts;
      ReleasedByRing(b, e, c);
    }
  }

  /** Nothing but a release ends a lease, and only a lease begins one. */
  lemma {:induction false} LeasesStand(b: Books, e: Entry, c: Books)
    requires Posts(b, e, c) && !e.Returns? && !OfRing(b, e)
    ensures c.leased == if e.Leases? then b.leased + {e.slot} else b.leased
  {
  }

  lemma {:induction false} ReleaseOwner(b: Books, e: Entry, c: Books)
    requires Inv(b) && Posts(b, e, c) && OfRing(b, e)
    ensures OneOwner(c)
  {
    ReleasedByRing(b, e, c);
    forall a, i | Named(c, a, i)
      ensures Named(b, a, i) && c.assocs[a].ring[i].slot == b.assocs[a].ring[i].slot
    {
    }
  }

  lemma {:induction false} IdleOwner(b: Books, e: Entry, c: Books)
    requires Inv(b) && Posts(b, e, c) && (e.Opens? || e.Leases? || e.Returns? || e.Applies? || e.Remarks?)
    ensures OneOwner(c)
  {
    forall a, i | Named(c, a, i)
      ensures Named(b, a, i) && SameLedger(c.assocs[a].ring[i], b.assocs[a].ring[i])
    {
    }
  }

  lemma {:induction false} StampOwner(b: Books, e: Entry, c: Books)
    requires Inv(b) && Posts(b, e, c) && e.Stamps?
    ensures OneOwner(c)
  {
    forall a, i | Named(c, a, i) && (a != e.a || i != e.i)
      ensures Named(b, a, i) && c.assocs[a].ring[i] == b.assocs[a].ring[i]
    {
    }
  }

  lemma {:induction false} RingStep(b: Books, e: Entry, c: Books)
    requires Posts(b, e, c) && (e.GathersAck? || e.GathersLoss? || e.Releases? || e.Drains?)
    ensures OfRing(b, e)
  {
  }

  lemma {:induction false} PostsOwner(b: Books, e: Entry, c: Books)
    requires Inv(b) && Posts(b, e, c)
    ensures OneOwner(c)
  {
    hide Inv, Posts, OneOwner;
    if e.Stamps? {
      StampOwner(b, e, c);
    } else if e.Opens? || e.Leases? || e.Returns? || e.Applies? || e.Remarks? {
      IdleOwner(b, e, c);
    } else {
      assert OfRing(b, e) by {
        RingStep(b, e, c);
      }
      ReleaseOwner(b, e, c);
    }
  }

  ghost predicate IsHistory(states: seq<Books>, entries: seq<Entry>) {
    && |states| == |entries| + 1
    && states[0] == Books(0, 0, [], [], {})
    && forall k :: 0 <= k < |entries| ==> Posts(states[k], entries[k], states[k + 1])
  }

  /** In every state of every history the peer's counters equal the live bytes and
      packets of its rings plus the feedback not applied yet, no guard ever
      fires, and every named slot is leased and named once. */
  lemma {:induction false} BooksBalance(states: seq<Books>, entries: seq<Entry>, k: nat)
    requires IsHistory(states, entries) && k < |states|
    ensures Inv(states[k])
    ensures states[k].bytesInFlight ==
      AssocBytes(states[k].assocs, |states[k].assocs|) + PendingBytes(states[k].pending)
    ensures states[k].outstanding ==
      AssocCount(states[k].assocs, |states[k].assocs|) + PendingCount(states[k].pending)
  {
    if k > 0 {
      BooksBalance(states, entries, k - 1);
      assert Posts(states[k - 1], entries[k - 1], states[k - 1 + 1]);
      PostsBalance(states[k - 1], entries[k - 1], states[k]);
      PostsWeighty(states[k - 1], entries[k - 1], states[k]);
      PostsOwner(states[k - 1], entries[k - 1], states[k]);
    }
  }
}
