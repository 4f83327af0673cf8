/** The round-trip estimate of one peer: smoothing as in section 2 of RFC 6298, a
    windowed minimum kept in rotating buckets, and the deadlines built from them. */
module Rtt {

  const RTT_SAMPLE_MAX: nat := 10_000_000
  const RTO_MAX: nat := 60_000_000
  const RTO_MIN: nat := 1000
  const RTO_VARIANCE_MIN: nat := 1000
  const RTO_MAX_BACKOFF_SHIFT: nat := 3
  const MIN_RTT_BUCKETS: nat := 3
  const UINT32_MAX: nat := 0xFFFF_FFFF
  const UINT16_MAX: nat := 0xFFFF

  /** buckets[0] is the newest; zero reads as empty. */
  datatype Estimate = Estimate(
    srtt: nat,
    rttvar: nat,
    peerAckDelay: nat,
    latest: nat,
    buckets: seq<nat>,
    rotatedAt: nat)

  const EMPTY := Estimate(0, 0, 0, 0, [0, 0, 0], 0)

  /** Four-second buckets: the length of k of them, and how many fit in t. */
  function Span(k: nat): (r: nat) {
    4_000_000 * k
  }

  function Turns(t: nat): (r: nat) {
    t / 4_000_000
  }

  function Since(now: nat, then_: nat): (r: nat) {
    if now > then_ then now - then_ else 0
  }

  predicate InBand(micros: nat) {
    1 <= micros <= RTT_SAMPLE_MAX
  }

  // --- Folding one sample ---

  function Rotated(buckets: seq<nat>, k: nat): (r: seq<nat>)
    ensures |r| == |buckets|
  {
    seq(|buckets|, j requires 0 <= j < |buckets| => if j >= k then buckets[j - k] else 0)
  }

  lemma {:induction false} RotatedOnce(buckets: seq<nat>, k: nat)
    ensures Rotated(Rotated(buckets, k), 1) == Rotated(buckets, k + 1)
  {
  }

  lemma {:induction false} RotatedWithin(buckets: seq<nat>, k: nat)
    requires forall j :: 0 <= j < |buckets| ==> buckets[j] <= RTT_SAMPLE_MAX
    ensures forall j :: 0 <= j < |buckets| ==> Rotated(buckets, k)[j] <= RTT_SAMPLE_MAX
  {
  }

  lemma {:induction false} TurnsExact(t: nat, k: nat)
    requires Span(k) <= t < Span(k) + Span(1)
    ensures Turns(t) == k
  {
  }

  function Lower(a: nat, b: nat): (r: nat) {
    if a == 0 || (b != 0 && b < a) then b else a
  }

  function Fold(e: Estimate, micros: nat, held: nat, now: nat): (r: Estimate)
    requires |e.buckets| == MIN_RTT_BUCKETS
    ensures |r.buckets| == MIN_RTT_BUCKETS
  {
    if !InBand(micros) then e
    else
      var anchor := if e.rotatedAt == 0 then now else e.rotatedAt;
      var turns := Turns(Since(now, anchor));
      var rotated := Rotated(e.buckets, turns);
      Estimate(
        if e.srtt == 0 then micros else (e.srtt * 7 + micros) / 8,
        if e.srtt == 0 then micros / 2
        else (e.rttvar * 3 + if e.srtt > micros then e.srtt - micros else micros - e.srtt) / 4,
        if held > e.peerAckDelay then held else (e.peerAckDelay * 7 + held) / 8,
        micros,
        rotated[0 := Lower(rotated[0], micros)],
        anchor + Span(turns))
  }

  /** Each accepted sample moves the smoothed round trip an eighth of the way, the
      variance a quarter of the way to its distance, and the hold at once up but an
      eighth of the way down (section 2 of RFC 6298). */
  lemma {:induction false} FoldExact(e: Estimate, micros: nat, held: nat, now: nat)
    requires |e.buckets| == MIN_RTT_BUCKETS && 1 <= micros <= 10_000_000
    ensures var f := Fold(e, micros, held, now);
      var off := if micros > e.srtt then micros - e.srtt else e.srtt - micros;
      && f.latest == micros
      && (e.srtt == 0 ==> f.srtt == micros && 2 * f.rttvar <= micros < 2 * f.rttvar + 2)
      && (e.srtt != 0 ==>
            && 8 * f.srtt <= 7 * e.srtt + micros < 8 * f.srtt + 8
            && 4 * f.rttvar <= 3 * e.rttvar + off < 4 * f.rttvar + 4)
      && (held > e.peerAckDelay ==> f.peerAckDelay == held)
      && (held <= e.peerAckDelay ==> 8 * f.peerAckDelay <= 7 * e.peerAckDelay + held < 8 * f.peerAckDelay + 8)
  {
    hide Rotated, Turns;
  }

  /** The least of the first i buckets; zero when none holds a sample. */
  function MinPrefix(buckets: seq<nat>, i: nat): (r: nat)
    requires i <= |buckets|
  {
    if i == 0 then 0 else Lower(MinPrefix(buckets, i - 1), buckets[i - 1])
  }

  function MinOf(buckets: seq<nat>): (r: nat) {
    MinPrefix(buckets, |buckets|)
  }

  /** How much of the smoothed round trip is queue rather than path. */
  function QueueOf(e: Estimate): (r: nat) {
    if MinOf(e.buckets) == 0 || e.srtt <= MinOf(e.buckets) then 0 else e.srtt - MinOf(e.buckets)
  }

  /** The queue the newest sample saw. */
  function LatestQueueOf(e: Estimate): (r: nat) {
    if MinOf(e.buckets) == 0 || e.latest <= MinOf(e.buckets) then 0 else e.latest - MinOf(e.buckets)
  }

  // --- Runs of samples ---

  datatype Reading = Reading(micros: nat, held: nat, at: nat)

  /** A nonzero clock that never goes back. */
  ghost predicate Clocked(h: seq<Reading>) {
    && (forall i :: 0 <= i < |h| ==> h[i].at > 0)
    && (forall i, j :: 0 <= i < j < |h| ==> h[i].at <= h[j].at)
  }

  ghost predicate AllInBand(h: seq<Reading>) {
    forall i :: 0 <= i < |h| ==> InBand(h[i].micros)
  }

  /** The readings the estimate does not refuse, in order. */
  function Accepted(h: seq<Reading>): (a: seq<Reading>) {
    if h == [] then []
    else if InBand(h[|h| - 1].micros) then Accepted(h[..|h| - 1]) + [h[|h| - 1]]
    else Accepted(h[..|h| - 1])
  }

  lemma {:induction false} AcceptedAre(h: seq<Reading>, x: Reading)
    ensures x in Accepted(h) <==> x in h && InBand(x.micros)
  {
    if h != [] {
      AcceptedAre(h[..|h| - 1], x);
      assert h == h[..|h| - 1] + [h[|h| - 1]];
    }
  }

  lemma {:induction false} AcceptedClocked(h: seq<Reading>)
    requires Clocked(h)
    ensures Clocked(Accepted(h)) && AllInBand(Accepted(h))
  {
    if h != [] {
      var p, last := h[..|h| - 1], h[|h| - 1];
      AcceptedClocked(p);
      forall i | 0 <= i < |Accepted(p)|
        ensures Accepted(p)[i].at <= last.at
      {
        AcceptedAre(p, Accepted(p)[i]);
        var k :| 0 <= k < |p| && p[k] == Accepted(p)[i];
        assert h[k] == p[k];
      }
    }
  }

  function After(h: seq<Reading>): (e: Estimate)
    ensures |e.buckets| == MIN_RTT_BUCKETS
  {
    if h == [] then EMPTY
    else
      var last := h[|h| - 1];
      Fold(After(h[..|h| - 1]), last.micros, last.held, last.at)
  }

  /** Refused readings leave no trace. */
  lemma {:induction false} AfterAccepted(h: seq<Reading>)
    ensures After(h) == After(Accepted(h))
  {
    if h != [] {
      var p, last := h[..|h| - 1], h[|h| - 1];
      AfterAccepted(p);
      if InBand(last.micros) {
        assert Accepted(h)[..|Accepted(p)|] == Accepted(p);
      }
    }
  }

  /** Which four-second bucket a time falls in, counted from the first sample. */
  function BucketOf(h: seq<Reading>, at: nat): (r: nat)
    requires |h| > 0
  {
    Turns(Since(at, h[0].at))
  }

  /** v is the least sample of h in bucket b, or zero when there is none. */
  ghost predicate IsLeastIn(h: seq<Reading>, b: int, v: nat)
    requires |h| > 0
  {
    && (forall i :: 0 <= i < |h| && BucketOf(h, h[i].at) == b ==> 0 < v <= h[i].micros)
    && (v != 0 ==> exists i :: 0 <= i < |h| && BucketOf(h, h[i].at) == b && h[i].micros == v)
  }

  lemma {:induction false} TurnsAdd(t0: nat, b: nat, now: nat)
    requires t0 + Span(b) <= now
    ensures Turns(now - (t0 + Span(b))) + b == Turns(now - t0)
  {
  }

  /** A bucket seen through one more turn: its place moves, its least does not,
      and spans nothing was measured in read zero. */
  lemma {:induction false} TurnedBucket(p: seq<Reading>, buckets: seq<nat>, j: nat, b0: nat, b: nat)
    requires Clocked(p) && AllInBand(p) && |p| > 0 && |buckets| == MIN_RTT_BUCKETS && j < MIN_RTT_BUCKETS
    requires b0 == BucketOf(p, p[|p| - 1].at) && b0 <= b
    requires forall i :: 0 <= i < MIN_RTT_BUCKETS ==> IsLeastIn(p, b0 - i, buckets[i])
    ensures IsLeastIn(p, b - j, Rotated(buckets, b - b0)[j])
  {
    var turns := b - b0;
    if j >= turns {
      assert IsLeastIn(p, b0 - (j - turns), buckets[j - turns]);
      assert b0 - (j - turns) == b - j;
    } else {
      forall i | 0 <= i < |p|
        ensures BucketOf(p, p[i].at) != b - j
      {
        assert p[i].at <= p[|p| - 1].at;
      }
    }
  }

  lemma {:induction false} OneMore(h: seq<Reading>, p: seq<Reading>, b: int, v: nat)
    requires Clocked(h) && AllInBand(h) && |h| > 1 && p == h[..|h| - 1]
    requires IsLeastIn(p, b, v)
    ensures BucketOf(h, h[|h| - 1].at) != b ==> IsLeastIn(h, b, v)
    ensures BucketOf(h, h[|h| - 1].at) == b ==> IsLeastIn(h, b, Lower(v, h[|h| - 1].micros))
  {
    var k := |h| - 1;
    assert forall i :: 0 <= i < k ==> h[i] == p[i] && BucketOf(h, h[i].at) == BucketOf(p, p[i].at);
    if v != 0 {
      var i :| 0 <= i < |p| && BucketOf(p, p[i].at) == b && p[i].micros == v;
      assert BucketOf(h, h[i].at) == b && h[i].micros == v;
    }
    assert BucketOf(h, h[k].at) == b ==> h[k].micros == h[k].micros;
  }

  lemma {:induction false} NextBucket(h: seq<Reading>, p: seq<Reading>, j: nat, b0: nat, b: nat)
    requires Clocked(h) && AllInBand(h) && |h| > 1 && p == h[..|h| - 1] && j < MIN_RTT_BUCKETS
    requires b0 == BucketOf(p, p[|p| - 1].at) && b == BucketOf(h, h[|h| - 1].at) && b0 <= b
    requires forall i :: 0 <= i < MIN_RTT_BUCKETS ==> IsLeastIn(p, b0 - i, After(p).buckets[i])
    requires After(p).rotatedAt == h[0].at + Span(b0)
    requires Turns(Since(h[|h| - 1].at, After(p).rotatedAt)) == b - b0
    ensures IsLeastIn(h, b - j, After(h).buckets[j])
  {
    assert Clocked(p) && AllInBand(p);
    hide IsLeastIn, Rotated, Turns, Clocked, AllInBand;
    var rotated := Rotated(After(p).buckets, b - b0);
    TurnedBucket(p, After(p).buckets, j, b0, b);
    OneMore(h, p, b - j, rotated[j]);
    assert After(h) == Fold(After(p), h[|h| - 1].micros, h[|h| - 1].held, h[|h| - 1].at);
  }

  /** The buckets hold the least sample of the last three spans, newest first. */
  ghost predicate Minima(h: seq<Reading>)
    requires |h| > 0
  {
    var b := BucketOf(h, h[|h| - 1].at);
    && After(h).rotatedAt == h[0].at + Span(b)
    && forall j :: 0 <= j < MIN_RTT_BUCKETS ==> IsLeastIn(h, b - j, After(h).buckets[j])
  }

  lemma {:induction false} FirstMinima(h: seq<Reading>)
    requires Clocked(h) && AllInBand(h) && |h| == 1
    ensures Minima(h)
  {
    assert h[..0] == [];
    assert After(h[..0]) == EMPTY;
    assert IsLeastIn(h, 0, h[0].micros);
  }

  lemma {:induction false} NextTurns(h: seq<Reading>, p: seq<Reading>)
    requires Clocked(h) && |h| > 1 && p == h[..|h| - 1]
    requires After(p).rotatedAt == h[0].at + Span(BucketOf(p, p[|p| - 1].at))
    ensures var b0, b := BucketOf(p, p[|p| - 1].at), BucketOf(h, h[|h| - 1].at);
      b0 <= b && Turns(Since(h[|h| - 1].at, After(p).rotatedAt)) == b - b0
    ensures AllInBand(h) ==> After(h).rotatedAt == h[0].at + Span(BucketOf(h, h[|h| - 1].at))
  {
    assert p[|p| - 1] == h[|h| - 2];
    TurnsAdd(h[0].at, BucketOf(p, p[|p| - 1].at), h[|h| - 1].at);
  }

  lemma {:induction false} PrefixClean(h: seq<Reading>, p: seq<Reading>)
    requires Clocked(h) && AllInBand(h) && p <= h
    ensures Clocked(p) && AllInBand(p)
  {
  }

  lemma {:induction false} CleanMinima(h: seq<Reading>)
    requires Clocked(h) && AllInBand(h) && |h| > 0
    ensures Minima(h)
  {
    hide IsLeastIn, BucketOf, After, Turns, Clocked, AllInBand, Span;
    if |h| == 1 {
      FirstMinima(h);
    } else {
      var p := h[..|h| - 1];
      PrefixClean(h, p);
      CleanMinima(p);
      NextTurns(h, p);
      var b0, b := BucketOf(p, p[|p| - 1].at), BucketOf(h, h[|h| - 1].at);
      forall j | 0 <= j < MIN_RTT_BUCKETS
        ensures IsLeastIn(h, b - j, After(h).buckets[j])
      {
        NextBucket(h, p, j, b0, b);
      }
    }
  }

  /** After every run, whatever it measured, the buckets hold the least accepted
      sample of the last three four-second spans, newest first. */
  lemma {:induction false} BucketsAreMinima(h: seq<Reading>)
    requires Clocked(h) && Accepted(h) != []
    ensures var a := Accepted(h);
      var b := BucketOf(a, a[|a| - 1].at);
      && After(h).rotatedAt == a[0].at + Span(b)
      && forall j :: 0 <= j < MIN_RTT_BUCKETS ==> IsLeastIn(a, b - j, After(h).buckets[j])
  {
    hide IsLeastIn, BucketOf, After, Accepted, Clocked, Span;
    AfterAccepted(h);
    AcceptedClocked(h);
    CleanMinima(Accepted(h));
  }

  /** The remembered minimum is the least accepted sample of the last three
      four-second buckets, and there always is one. */
  lemma {:induction false} WindowedMinimum(h: seq<Reading>)
    requires Clocked(h) && Accepted(h) != []
    ensures var m := MinOf(After(h).buckets);
      var a := Accepted(h);
      var b := BucketOf(a, a[|a| - 1].at);
      && (forall i :: 0 <= i < |a| && BucketOf(a, a[i].at) + MIN_RTT_BUCKETS > b ==> m <= a[i].micros)
      && exists i :: 0 <= i < |a| && BucketOf(a, a[i].at) + MIN_RTT_BUCKETS > b && a[i].micros == m
  {
    hide IsLeastIn, BucketOf, After, Accepted, Clocked;
    BucketsAreMinima(h);
    AcceptedClocked(h);
    LeastOfThree(Accepted(h), After(h).buckets);
  }

  lemma {:induction false} LeastOfThree(a: seq<Reading>, bs: seq<nat>)
    requires Clocked(a) && AllInBand(a) && |a| > 0 && |bs| == MIN_RTT_BUCKETS
    requires var b := BucketOf(a, a[|a| - 1].at);
      forall j :: 0 <= j < MIN_RTT_BUCKETS ==> IsLeastIn(a, b - j, bs[j])
    ensures var b := BucketOf(a, a[|a| - 1].at);
      && (forall i :: 0 <= i < |a| && BucketOf(a, a[i].at) + MIN_RTT_BUCKETS > b ==> MinOf(bs) <= a[i].micros)
      && exists i :: 0 <= i < |a| && BucketOf(a, a[i].at) + MIN_RTT_BUCKETS > b && a[i].micros == MinOf(bs)
  {
    var b: int := BucketOf(a, a[|a| - 1].at);
    assert MinPrefix(bs, 1) == Lower(MinPrefix(bs, 0), bs[0]);
    assert MinPrefix(bs, 2) == Lower(MinPrefix(bs, 1), bs[1]);
    assert IsLeastIn(a, b - 0, bs[0]) && IsLeastIn(a, b - 1, bs[1]) && IsLeastIn(a, b - 2, bs[2]);
    forall i | 0 <= i < |a| && BucketOf(a, a[i].at) + MIN_RTT_BUCKETS > b
      ensures MinOf(bs) <= a[i].micros
    {
      assert a[i].at <= a[|a| - 1].at;
    }
  }

  /** The smoothed value never leaves the range of the accepted samples, and zero
      means nothing was accepted yet. */
  lemma {:induction false} SmoothedInRange(h: seq<Reading>, lo: nat, hi: nat)
    requires forall x :: x in h && InBand(x.micros) ==> lo <= x.micros <= hi
    ensures Accepted(h) != [] ==> 0 < After(h).srtt && lo <= After(h).srtt <= hi
    ensures Accepted(h) == [] ==> After(h).srtt == 0
  {
    if h != [] {
      SmoothedInRange(h[..|h| - 1], lo, hi);
      assert h == h[..|h| - 1] + [h[|h| - 1]];
    }
  }

  // --- Deadlines ---

  function RoundTripOr(e: Estimate, fallback: nat): (r: nat) {
    if e.srtt != 0 then e.srtt else fallback
  }

  function Higher(a: nat, b: nat): (r: nat) {
    if a < b then b else a
  }

  /** Path, margin and hold, before any backoff. */
  function RawTimeout(e: Estimate, fallback: nat, cadence: nat): (r: nat) {
    RoundTripOr(e, fallback)
    + Higher(Higher(4 * e.rttvar, RTO_VARIANCE_MIN), RoundTripOr(e, fallback) / 8)
    + Higher(cadence, e.peerAckDelay)
  }

  function Doubled(rto: nat, silent: nat, shifts: nat): (r: nat)
    decreases shifts
  {
    if shifts == 0 || silent <= rto then rto else Doubled(rto * 2, silent, shifts - 1)
  }

  function Clamped(rto: nat): (r: nat) {
    if rto < RTO_MIN then RTO_MIN else if rto > RTO_MAX then RTO_MAX else rto
  }

  /** silent is how long the peer has said nothing; zero for the base timeout. */
  function RetransmitTimeout(e: Estimate, fallback: nat, cadence: nat, silent: nat): (r: nat) {
    Clamped(Doubled(RawTimeout(e, fallback, cadence), silent, RTO_MAX_BACKOFF_SHIFT))
  }

  function LossDelay(e: Estimate, fallback: nat): (r: nat) {
    var peak := Higher(e.srtt, e.latest);
    var floor := if peak == 0 then fallback else peak;
    Higher(floor + floor / 8, RTO_VARIANCE_MIN)
  }

  lemma {:induction false} DoubledWithin(rto: nat, silent: nat, shifts: nat)
    requires shifts <= 3
    ensures rto <= Doubled(rto, silent, shifts) <= 8 * rto
    ensures Doubled(rto, silent, shifts) <= rto || Doubled(rto, silent, shifts) <= 2 * silent
    decreases shifts
  {
    if shifts == 3 && silent > rto {
      DoubledWithin(rto * 2, silent, 2);
      if silent > 2 * rto {
        DoubledWithin(rto * 4, silent, 1);
      }
    } else if shifts == 2 && silent > rto {
      DoubledWithin(rto * 2, silent, 1);
    } else if shifts == 1 && silent > rto {
      assert Doubled(rto * 2, silent, 0) == rto * 2;
    }
  }

  /** With no silence the timeout is the round trip, the hold the peer or the cadence
      adds, and the largest of three margins (section 2 of RFC 6298): four variances,
      a millisecond, an eighth of the round trip; unless the ceiling cuts it. */
  lemma {:induction false} TimeoutMargin(e: Estimate, fallback: nat, cadence: nat)
    ensures var trip := if e.srtt != 0 then e.srtt else fallback;
      var path := trip + if cadence > e.peerAckDelay then cadence else e.peerAckDelay;
      var rto := RetransmitTimeout(e, fallback, cadence, 0);
      if rto == 60_000_000 then
        path + 4 * e.rttvar >= rto || path + 1000 >= rto || path + trip / 8 >= rto
      else
        && rto >= path + 4 * e.rttvar && rto >= path + 1000 && rto >= path + trip / 8
        && (rto == path + 4 * e.rttvar || rto == path + 1000 || rto == path + trip / 8)
  {
    hide Doubled;
    DoubledExact(RawTimeout(e, fallback, cadence), 0);
  }

  lemma {:induction false} DoubledExact(rto: nat, silent: nat)
    ensures Doubled(rto, silent, 3) ==
      if silent <= rto then rto else if silent <= 2 * rto then 2 * rto else if silent <= 4 * rto then 4 * rto else 8 * rto
  {
    assert Doubled(rto, silent, 3) == if silent <= rto then rto else Doubled(2 * rto, silent, 2);
    assert Doubled(2 * rto, silent, 2) == if silent <= 2 * rto then 2 * rto else Doubled(4 * rto, silent, 1);
    assert Doubled(4 * rto, silent, 1) == if silent <= 4 * rto then 4 * rto else Doubled(8 * rto, silent, 0);
  }

  /** Silence doubles the timeout each time it outlasts it, three times at most, and
      never shortens it. */
  lemma {:induction false} BackoffExact(e: Estimate, fallback: nat, cadence: nat, silent: nat, longer: nat)
    requires silent <= longer
    ensures var base := RetransmitTimeout(e, fallback, cadence, 0);
      var rto := RetransmitTimeout(e, fallback, cadence, silent);
      && base <= rto <= RetransmitTimeout(e, fallback, cadence, longer) && rto <= 8 * base
      && (base < 60_000_000 ==>
            && (silent <= base ==> rto == base)
            && (base < silent <= 2 * base ==> rto == Least(2 * base, 60_000_000))
            && (2 * base < silent <= 4 * base ==> rto == Least(4 * base, 60_000_000))
            && (4 * base < silent ==> rto == Least(8 * base, 60_000_000)))
  {
    hide Doubled;
    var raw := RawTimeout(e, fallback, cadence);
    DoubledExact(raw, 0);
    DoubledExact(raw, silent);
    DoubledExact(raw, longer);
  }

  function Least(a: nat, b: nat): (r: nat) {
    if a < b then a else b
  }

  /** The verdict's deadline, sixteen timeouts, and the probe interval, capped at
      an eighth of it. */
  function DeathBound(base: nat, retryInterval: nat): (r: nat) {
    Higher(16 * base, retryInterval)
  }

  function ProbeInterval(rto: nat, base: nat, retryInterval: nat): (r: nat) {
    var cap := Higher(DeathBound(base, retryInterval) / 8, base);
    if rto > cap then cap else rto
  }

  /** Whatever the path and however long the silence, eight probes fit inside the
      bound a flow dies by, and backing off never asks sooner than the timeout
      the path has earned. */
  lemma {:induction false} ProbesFitBound(e: Estimate, fallback: nat, cadence: nat, silent: nat)
    ensures var base := RetransmitTimeout(e, fallback, cadence, 0);
      var probe := ProbeInterval(RetransmitTimeout(e, fallback, cadence, silent), base, fallback);
      var rto := RetransmitTimeout(e, fallback, cadence, silent);
      && 8 * probe <= DeathBound(base, fallback) && base <= probe <= rto
      && (probe < rto ==> 8 * probe + 8 > DeathBound(base, fallback))
      && DeathBound(base, fallback) >= 16 * base && DeathBound(base, fallback) >= fallback
      && (DeathBound(base, fallback) == 16 * base || DeathBound(base, fallback) == fallback)
  {
    DoubledWithin(RawTimeout(e, fallback, cadence), silent, RTO_MAX_BACKOFF_SHIFT);
    DoubledWithin(RawTimeout(e, fallback, cadence), 0, RTO_MAX_BACKOFF_SHIFT);
  }

  // --- The struct, updated in place ---

  class RttEstimate {
    var srtt: nat
    var rttvar: nat
    var peerAckDelay: nat
    var latest: nat
    const minBuckets: array<nat>
    var minRotatedAt: nat
    var lastAckedAt: nat

    ghost function Model(): (r: Estimate)
      reads this, minBuckets
    {
      Estimate(srtt, rttvar, peerAckDelay, latest, minBuckets[..], minRotatedAt)
    }

    ghost predicate Valid()
      reads this, minBuckets
    {
      && minBuckets.Length == MIN_RTT_BUCKETS
      && srtt <= RTT_SAMPLE_MAX && rttvar <= RTT_SAMPLE_MAX && latest <= RTT_SAMPLE_MAX
      && peerAckDelay <= UINT16_MAX
      && forall j :: 0 <= j < MIN_RTT_BUCKETS ==> minBuckets[j] <= RTT_SAMPLE_MAX
    }

    constructor ()
      ensures Valid() && Model() == EMPTY && lastAckedAt == 0 && fresh(minBuckets)
    {
      srtt, rttvar, peerAckDelay, latest, minRotatedAt, lastAckedAt := 0, 0, 0, 0, 0, 0;
      minBuckets := new nat[MIN_RTT_BUCKETS](i => 0);
    }

    method MinRttMicros() returns (lowest: nat)
      requires minBuckets.Length == MIN_RTT_BUCKETS
      ensures lowest == MinOf(minBuckets[..])
    {
      lowest := 0;
      for i := 0 to MIN_RTT_BUCKETS
        invariant lowest == MinPrefix(minBuckets[..], i)
      {
        var bucket := minBuckets[i];
        if bucket != 0 && (lowest == 0 || bucket < lowest) {
          lowest := bucket;
        }
      }
    }

    method QueueMicros() returns (queue: nat)
      requires minBuckets.Length == MIN_RTT_BUCKETS
      ensures queue == QueueOf(Model())
    {
      var lowest := MinRttMicros();
      if lowest == 0 || srtt <= lowest {
        return 0;
      }
      return srtt - lowest;
    }

    method LatestQueueMicros() returns (queue: nat)
      requires minBuckets.Length == MIN_RTT_BUCKETS
      ensures queue == LatestQueueOf(Model())
    {
      var lowest := MinRttMicros();
      if lowest == 0 || latest <= lowest {
        return 0;
      }
      return latest - lowest;
    }

    method ShiftBuckets()
      requires minBuckets.Length == MIN_RTT_BUCKETS
      modifies minBuckets
      ensures minBuckets[..] == Rotated(old(minBuckets[..]), 1)
    {
      var i := MIN_RTT_BUCKETS - 1;
      while i > 0
        invariant 0 <= i < MIN_RTT_BUCKETS
        invariant forall j :: 0 <= j <= i ==> minBuckets[j] == old(minBuckets[j])
        invariant forall j :: i < j < MIN_RTT_BUCKETS ==> minBuckets[j] == old(minBuckets[j - 1])
      {
        minBuckets[i] := minBuckets[i - 1];
        i := i - 1;
      }
      minBuckets[0] := 0;
    }

    /** Rotates the buckets once per whole span that has passed. */
    method Rotate(now: nat)
      requires minBuckets.Length == MIN_RTT_BUCKETS
      modifies this`minRotatedAt, minBuckets
      ensures var anchor := if old(minRotatedAt) == 0 then now else old(minRotatedAt);
        var turns := Turns(Since(now, anchor));
        && minBuckets[..] == Rotated(old(minBuckets[..]), turns)
        && minRotatedAt == anchor + Span(turns)
    {
      if minRotatedAt == 0 {
        minRotatedAt := now;
      }
      ghost var anchor := minRotatedAt;
      var elapsed := if now > minRotatedAt then now - minRotatedAt else 0;
      ghost var turns := 0;
      assert minBuckets[..] == Rotated(minBuckets[..], 0);
      while elapsed >= Span(1)
        invariant 0 <= elapsed == Since(now, anchor) - Span(turns)
        invariant minRotatedAt == anchor + Span(turns)
        invariant minBuckets[..] == Rotated(old(minBuckets[..]), turns)
        decreases elapsed
      {
        ShiftBuckets();
        RotatedOnce(old(minBuckets[..]), turns);
        minRotatedAt := minRotatedAt + Span(1);
        elapsed := elapsed - Span(1);
        turns := turns + 1;
      }
      TurnsExact(Since(now, anchor), turns);
    }

    /** Folds one measurement in; out of band changes nothing. Every figure fits
        32 bits throughout. */
    method Sample(roundTrip: nat, held: nat, now: nat) returns (usable: bool)
      requires Valid()
      requires held <= UINT16_MAX
      modifies this, minBuckets
      ensures Valid() && lastAckedAt == old(lastAckedAt)
      ensures usable == InBand(roundTrip)
      ensures Model() == Fold(old(Model()), roundTrip, held, now)
    {
      hide Rotated, Turns, Span;
      if roundTrip == 0 || roundTrip > RTT_SAMPLE_MAX {
        return false;
      }
      latest := roundTrip;
      Rotate(now);
      ghost var rotated := minBuckets[..];
      RotatedWithin(old(minBuckets[..]), Turns(Since(now, if old(minRotatedAt) == 0 then now else old(minRotatedAt))));
      if minBuckets[0] == 0 || roundTrip < minBuckets[0] {
        minBuckets[0] := roundTrip;
      }
      assert minBuckets[..] == rotated[0 := Lower(rotated[0], roundTrip)];
      Smooth(roundTrip, held);
      return true;
    }

    method Smooth(roundTrip: nat, held: nat)
      requires srtt <= RTT_SAMPLE_MAX && rttvar <= RTT_SAMPLE_MAX && InBand(roundTrip)
      requires peerAckDelay <= UINT16_MAX && held <= UINT16_MAX
      modifies this`srtt, this`rttvar, this`peerAckDelay
      ensures srtt == if old(srtt) == 0 then roundTrip else (old(srtt) * 7 + roundTrip) / 8
      ensures rttvar == if old(srtt) == 0 then roundTrip / 2 else
        (old(rttvar) * 3 + if old(srtt) > roundTrip then old(srtt) - roundTrip else roundTrip - old(srtt)) / 4
      ensures peerAckDelay == if held > old(peerAckDelay) then held else (old(peerAckDelay) * 7 + held) / 8
      ensures srtt <= RTT_SAMPLE_MAX && rttvar <= RTT_SAMPLE_MAX && peerAckDelay <= UINT16_MAX
    {
      if srtt == 0 {
        srtt := roundTrip;
        rttvar := roundTrip / 2;
      } else {
        var diff := if srtt > roundTrip then srtt - roundTrip else roundTrip - srtt;
        assert rttvar * 3 + diff <= UINT32_MAX && srtt * 7 + roundTrip <= UINT32_MAX;
        rttvar := (rttvar * 3 + diff) / 4;
        srtt := (srtt * 7 + roundTrip) / 8;
      }
      peerAckDelay := if held > peerAckDelay then held else (peerAckDelay * 7 + held) / 8;
    }

    method MarkAcked(now: nat)
      modifies this`lastAckedAt
      ensures lastAckedAt == now
    {
      lastAckedAt := now;
    }

    function SilentFor(now: nat): (r: nat)
      reads this
    {
      if lastAckedAt == 0 || now <= lastAckedAt then 0 else now - lastAckedAt
    }

    method RetransmitTimeoutAt(fallback: nat, cadence: nat, now: nat) returns (rto: nat)
      ensures rto == RetransmitTimeout(Model(), fallback, cadence, SilentFor(now))
      ensures RTO_MIN <= rto <= RTO_MAX
    {
      var start := Raw(fallback, cadence);
      rto := BackOff(start, SilentFor(now));
      if rto < RTO_MIN {
        rto := RTO_MIN;
      } else if rto > RTO_MAX {
        rto := RTO_MAX;
      }
    }

    method LossDelayMicros(fallback: nat) returns (delay: nat)
      ensures delay == LossDelay(Model(), fallback)
      ensures RTO_VARIANCE_MIN <= delay && srtt <= delay && latest <= delay
      ensures var peak := if srtt == 0 && latest == 0 then fallback else if srtt > latest then srtt else latest;
        delay == 1000 || 9 * peak - 8 < 8 * delay <= 9 * peak
    {
      var peak := if srtt > latest then srtt else latest;
      if peak == 0 {
        peak := fallback;
      }
      delay := peak + peak / 8;
      if delay < RTO_VARIANCE_MIN {
        delay := RTO_VARIANCE_MIN;
      }
    }

    method Raw(fallback: nat, cadence: nat) returns (rto: nat)
      ensures rto == RawTimeout(Model(), fallback, cadence)
    {
      var variance := 4 * rttvar;
      if variance < RTO_VARIANCE_MIN {
        variance := RTO_VARIANCE_MIN;
      }
      var trip := if srtt != 0 then srtt else fallback;
      if variance < trip / 8 {
        variance := trip / 8;
      }
      var hold := cadence;
      if peerAckDelay > hold {
        hold := peerAckDelay;
      }
      rto := trip + variance + hold;
    }
  }

  /** One doubling per whole timeout elapsed in silence, three at most. */
  method BackOff(start: nat, silent: nat) returns (rto: nat)
    ensures rto == Doubled(start, silent, RTO_MAX_BACKOFF_SHIFT)
  {
    rto := start;
    var shift := 0;
    while shift < RTO_MAX_BACKOFF_SHIFT && silent > rto
      invariant shift <= RTO_MAX_BACKOFF_SHIFT
      invariant Doubled(rto, silent, RTO_MAX_BACKOFF_SHIFT - shift) ==
        Doubled(start, silent, RTO_MAX_BACKOFF_SHIFT)
    {
      rto := rto * 2;
      shift := shift + 1;
    }
  }
}
