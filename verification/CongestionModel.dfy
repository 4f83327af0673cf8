/** The congestion controller on values: what one round of feedback makes of a
    peer's budget, its epochs and its starvation verdict. */
module CongestionModel {
  import opened CongestionCurve
  import opened Rtt
  import Sender

  const MAX_WIRE_PACKET: nat := 1200
  const INITIAL_WINDOW: nat := 12000
  const REENTRY_WINDOW: nat := 30_000_000

  /** The fields of a peer the controller moves. A zero time means never. */
  datatype Control = Control(
    budget: nat,
    threshold: nat,
    queueSince: nat,
    wMax: nat,
    epochAt: nat,
    epoch: nat,
    candidateSince: nat,
    starvedSince: nat,
    clearSince: nat,
    exitedAt: nat,
    queueCap: nat,
    minRtt: nat,
    episodes: nat)

  /** A peer as it is registered. */
  const START := Control(INITIAL_WINDOW, 0xFFFF_FFFF, 0, 0, 0, 0, 0, 0, 0, 0, 0, 0, 0)

  datatype Limits = Limits(minBudget: nat, maxBudget: nat, retryInterval: nat, ackDelay: nat)

  /** One call: the estimate after its sample, the silence after its acknowledgement,
      the feedback itself and what the delivery record says. */
  datatype Feedback = Feedback(
    e: Estimate,
    silent: nat,
    delta: Sender.Delta,
    couldOverflow: bool,
    lossAboveTolerance: bool,
    now: nat)

  // --- Readings ---

  predicate OverTarget(e: Estimate) {
    MinOf(e.buckets) != 0 && QueueOf(e) > QueueTarget(MinOf(e.buckets))
  }

  function Above(a: nat, b: nat): (r: nat) {
    if a > b then a - b else 0
  }

  /** The queue against the minimum frozen at the verdict. */
  function StarvedQueue(c: Control, e: Estimate): (r: nat) {
    Above(e.srtt, c.minRtt)
  }

  function StarvedWorstQueue(c: Control, e: Estimate): (r: nat) {
    Higher(Above(e.latest, c.minRtt), StarvedQueue(c, e))
  }

  function ConfirmWindow(trip: nat, rounds: nat, floor: nat): (r: nat) {
    if rounds * trip > floor then rounds * trip else floor
  }

  /** 32-bit addition that saturates, then the ceiling. */
  function Grown(budget: nat, step: nat, ceiling: nat): (r: nat) {
    var sum := (budget + step) % 0x1_0000_0000;
    var grown := if sum < budget then 0xFFFF_FFFF else sum;
    if grown > ceiling then ceiling else grown
  }

  function Ramp(budget: nat, acked: nat, ceiling: nat): (r: nat) {
    Grown(budget, if acked == 0 then 1 else acked, ceiling)
  }

  // --- The starvation verdict ---

  function Expired(c: Control, now: nat): (r: Control) {
    if c.exitedAt != 0 && now > c.exitedAt + REENTRY_WINDOW
    then c.(exitedAt := 0, queueCap := 0, minRtt := 0) else c
  }

  predicate StarvedNow(c: Control, e: Estimate) {
    OverTarget(e) && c.budget <= INITIAL_WINDOW
  }

  function Relapsed(c: Control, now: nat): (r: Control) {
    c.(starvedSince := now, exitedAt := 0, clearSince := 0, candidateSince := 0, episodes := c.episodes + 1)
  }

  function Convicted(c: Control, e: Estimate, now: nat): (r: Control) {
    c.(starvedSince := now,
       queueCap := QueueOf(e) + QueueTarget(MinOf(e.buckets)) / 2,
       minRtt := MinOf(e.buckets),
       clearSince := 0, candidateSince := 0, episodes := c.episodes + 1)
  }

  predicate Confirmed(since: nat, now: nat, e: Estimate, l: Limits, rounds: nat, floor: nat) {
    Since(now, since) >= ConfirmWindow(RoundTripOr(e, l.retryInterval), rounds, floor)
  }

  function Judged(start: Control, e: Estimate, acked: bool, now: nat, l: Limits): (r: Control) {
    if start.starvedSince != 0 then start
    else
      var c := Expired(start, now);
      if !StarvedNow(c, e) then c.(candidateSince := 0)
      else if acked && c.exitedAt != 0 then Relapsed(c, now)
      else if c.candidateSince == 0 then c.(candidateSince := now)
      else if acked && Confirmed(c.candidateSince, now, e, l, 16, 250000) then Convicted(c, e, now)
      else c
  }

  // --- Reductions ---

  /** A silence of more than three base timeouts, with a probe unanswered. */
  predicate PathDead(f: Feedback, l: Limits) {
    && f.delta.sawProbe && f.delta.ackedBytes == 0
    && f.silent > RetransmitTimeout(f.e, l.retryInterval, l.ackDelay, 0) * 3
  }

  function NextEpoch(epoch: nat): (r: nat) {
    (epoch + 1) % 256
  }

  function ToFloor(c: Control, now: nat, l: Limits): (r: Control) {
    if c.budget == l.minBudget then c
    else c.(budget := l.minBudget, wMax := l.minBudget, epochAt := now, queueSince := 0, epoch := NextEpoch(c.epoch))
  }

  function Forgotten(c: Control): (r: Control) {
    c.(candidateSince := 0, starvedSince := 0, clearSince := 0, exitedAt := 0, queueCap := 0, minRtt := 0)
  }

  function Collapsed(c: Control, f: Feedback, l: Limits): (r: Control) {
    if PathDead(f, l) then Forgotten(ToFloor(c, f.now, l)) else c
  }

  /** The loss is news: its packet was stamped in an epoch not before ours. */
  predicate IsNews(c: Control, d: Sender.Delta) {
    d.sawLoss && Sender.Signed8(d.lostEpoch - c.epoch) >= 0
  }

  predicate BigBite(f: Feedback) {
    && f.delta.lostDeclaredBytes * 2 >= f.delta.lostDeclaredBytes + f.delta.ackedBytes
    && f.delta.lostDeclaredBytes >= 3 * MAX_WIRE_PACKET && f.couldOverflow
  }

  predicate QueueStanding(c: Control, e: Estimate) {
    if c.starvedSince != 0 then StarvedWorstQueue(c, e) > c.queueCap else OverTarget(e)
  }

  predicate Congested(c: Control, f: Feedback) {
    MinOf(f.e.buckets) == 0 || QueueStanding(c, f.e) || (BigBite(f) && f.lossAboveTolerance)
  }

  function Cut(budget: nat, retain: nat, floor: nat): (r: nat) {
    Higher(budget * retain / 100, floor)
  }

  function Trimmed(c: Control, congested: bool, now: nat, l: Limits): (r: Control) {
    var left := Cut(c.budget, if congested then 70 else 95, l.minBudget);
    var t := c.(budget := left, queueSince := 0, epoch := NextEpoch(c.epoch));
    if congested then t.(wMax := c.budget, threshold := left, epochAt := now) else t
  }

  // --- Growth ---

  /** The exit watches the frozen minimum; until it is confirmed the budget climbs
      at ramp speed under the frozen level. */
  function Clearing(c: Control, e: Estimate, now: nat): (r: Control) {
    if StarvedQueue(c, e) > QueueTarget(c.minRtt) then c.(clearSince := 0)
    else if c.clearSince == 0 then c.(clearSince := now)
    else c
  }

  predicate Exits(c: Control, e: Estimate, now: nat, l: Limits) {
    && StarvedQueue(c, e) <= QueueTarget(c.minRtt) && c.clearSince != 0
    && Confirmed(c.clearSince, now, e, l, 8, 500000)
  }

  function Anchored(c: Control, now: nat): (r: Control) {
    c.(threshold := c.budget, wMax := c.budget, epochAt := now, queueSince := 0)
  }

  /** The references are kept, for a relapse. */
  function Exited(c: Control, now: nat): (r: Control) {
    Anchored(c.(starvedSince := 0, exitedAt := now, clearSince := 0), now)
  }

  function Recovered(c: Control, e: Estimate, acked: nat, now: nat, l: Limits): (r: Control) {
    if Exits(c, e, now, l) then Exited(c, now)
    else
      var k := Clearing(c, e, now);
      if StarvedWorstQueue(c, e) > c.queueCap then k else k.(budget := Ramp(k.budget, acked, l.maxBudget))
  }

  /** Below the opening window the queue is not this sender's to answer for. */
  predicate Standing(c: Control, queue: nat, e: Estimate) {
    MinOf(e.buckets) != 0 && c.budget >= INITIAL_WINDOW && queue > QueueTarget(MinOf(e.buckets))
  }

  function SlowStarted(c: Control, e: Estimate, acked: nat, now: nat, l: Limits): (r: Control) {
    var latest, smoothed := Standing(c, LatestQueueOf(e), e), Standing(c, QueueOf(e), e);
    var ramped := c.(budget := Ramp(c.budget, acked, l.maxBudget));
    if c.queueSince == 0 then (if latest then c.(queueSince := now) else ramped)
    else if !latest && !smoothed then ramped.(queueSince := 0)
    else if Since(now, c.queueSince) >= 2 * RoundTripOr(e, l.retryInterval) then Anchored(c, now)
    else c
  }

  function Started(c: Control, now: nat): (r: Control) {
    if c.epochAt == 0 then c.(epochAt := now, wMax := if c.wMax == 0 then c.budget else c.wMax) else c
  }

  function Step(want: nat, budget: nat): (r: nat) {
    if want <= budget then 0 else if want - budget > MAX_WIRE_PACKET then MAX_WIRE_PACKET else want - budget
  }

  function Avoided(start: Control, e: Estimate, now: nat, l: Limits): (r: Control) {
    if Standing(start, QueueOf(e), e) then start
    else
      var c := Started(start, now);
      var want := Target(c.wMax, Since(now, c.epochAt), e.srtt);
      if want > c.budget then c.(budget := Grown(c.budget, Step(want, c.budget), l.maxBudget)) else c
  }

  function Grows(c: Control, f: Feedback, l: Limits): (r: Control) {
    if f.delta.ackedBytes == 0 then c
    else if c.starvedSince != 0 then Recovered(c, f.e, f.delta.ackedBytes, f.now, l)
    else if c.budget < c.threshold then SlowStarted(c, f.e, f.delta.ackedBytes, f.now, l)
    else Avoided(c, f.e, f.now, l)
  }

  /** The state a loss is judged against. */
  function BeforeLoss(c: Control, f: Feedback, l: Limits): (r: Control) {
    Collapsed(Judged(c, f.e, f.delta.ackedBytes != 0, f.now, l), f, l)
  }

  function Applied(c: Control, f: Feedback, l: Limits): (r: Control) {
    var w := BeforeLoss(c, f, l);
    if IsNews(w, f.delta) then Trimmed(w, Congested(w, f), f.now, l) else Grows(w, f, l)
  }

  // --- What one call keeps ---

  predicate InRange(c: Control, l: Limits) {
    l.minBudget <= c.budget <= l.maxBudget
  }

  predicate Sane(l: Limits) {
    l.minBudget <= l.maxBudget <= 0xFFFF_FFFF
  }

  lemma {:induction false} GrownWithin(budget: nat, step: nat, ceiling: nat)
    requires budget <= ceiling <= 0xFFFF_FFFF && step <= 0xFFFF_FFFF
    ensures Grown(budget, step, ceiling) == if budget + step > ceiling then ceiling else budget + step
  {
  }

  /** A verdict or a recent exit carries both frozen references, nothing else does,
      and the two never hold at once. The clocks belong to the state they time. */
  predicate Consistent(c: Control) {
    && !(c.starvedSince != 0 && c.exitedAt != 0)
    && (c.starvedSince != 0 || c.exitedAt != 0 <==> c.queueCap != 0)
    && (c.queueCap != 0 <==> c.minRtt != 0)
    && (c.clearSince != 0 ==> c.starvedSince != 0)
    && (c.candidateSince != 0 ==> c.starvedSince == 0)
  }

  lemma {:induction false} JudgedKeeps(c: Control, f: Feedback, l: Limits)
    requires f.now != 0 && Consistent(c)
    ensures Consistent(Judged(c, f.e, f.delta.ackedBytes != 0, f.now, l))
  {
    hide MinOf, ConfirmWindow;
  }

  lemma {:induction false} JudgedBudget(c: Control, f: Feedback, l: Limits)
    ensures var j := Judged(c, f.e, f.delta.ackedBytes != 0, f.now, l);
      j.budget == c.budget && j.epoch == c.epoch
  {
    hide MinOf, ConfirmWindow;
  }

  /** Growth never reduces the budget nor moves the epoch. */
  lemma {:induction false} GrowsKeeps(c: Control, f: Feedback, l: Limits)
    requires Sane(l) && InRange(c, l) && f.delta.ackedBytes <= 0xFFFF_FFFF
    ensures var g := Grows(c, f, l);
      c.budget <= g.budget <= l.maxBudget && g.epoch == c.epoch
  {
    hide MinOf, ConfirmWindow, Target, Grown;
    var acked := f.delta.ackedBytes;
    GrownWithin(c.budget, if acked == 0 then 1 else acked, l.maxBudget);
    var s := Started(c, f.now);
    GrownWithin(c.budget, Step(Target(s.wMax, Since(f.now, s.epochAt), f.e.srtt), c.budget), l.maxBudget);
  }

  lemma {:induction false} GrowsConsistent(c: Control, f: Feedback, l: Limits)
    requires f.now != 0 && Consistent(c)
    ensures Consistent(Grows(c, f, l))
  {
    hide MinOf, ConfirmWindow, Target, Grown, QueueTarget;
  }

  lemma {:induction false} AppliedKeeps(c: Control, f: Feedback, l: Limits)
    requires Sane(l) && InRange(c, l) && f.delta.ackedBytes <= 0xFFFF_FFFF
    ensures InRange(Applied(c, f, l), l)
  {
    hide Judged, Grows, Congested, PathDead;
    JudgedBudget(c, f, l);
    var w := BeforeLoss(c, f, l);
    GrowsKeeps(w, f, l);
  }

  lemma {:induction false} AppliedConsistent(c: Control, f: Feedback, l: Limits)
    requires f.now != 0 && Consistent(c)
    ensures Consistent(Applied(c, f, l))
  {
    hide Judged, Grows, Congested, PathDead;
    JudgedKeeps(c, f, l);
    GrowsConsistent(BeforeLoss(c, f, l), f, l);
  }

  /** A call reduces the budget at most once: the result is never below a single cut
      of thirty percent, floored, unless the path was found dead; and a smaller
      budget always means the epoch moved. */
  lemma {:induction false} AtMostOneReduction(c: Control, f: Feedback, l: Limits)
    requires Sane(l) && InRange(c, l) && c.epoch < 256 && f.delta.ackedBytes <= 0xFFFF_FFFF
    ensures var a := Applied(c, f, l);
      a.budget < c.budget ==>
        && a.epoch != c.epoch
        && (if PathDead(f, l) then a.budget == l.minBudget
            else IsNews(c, f.delta) && (a.budget == Cut(c.budget, 70, l.minBudget) || a.budget == Cut(c.budget, 95, l.minBudget)))
    ensures !PathDead(f, l) ==> Applied(c, f, l).budget >= Cut(c.budget, 70, l.minBudget)
  {
    hide Judged, Congested, RetransmitTimeout, Recovered, SlowStarted, Avoided;
    JudgedBudget(c, f, l);
    GrowsKeeps(BeforeLoss(c, f, l), f, l);
  }

  // --- Epochs ---

  /** With epochs counted without bound, a stamp e read at epoch E is news exactly
      when the eight-bit gap is zero or more than 128. */
  lemma {:induction false} NewsByGap(c: Control, d: Sender.Delta, e: nat, current: nat)
    requires e <= current && c.epoch == current % 256 && d.lostEpoch == e % 256 && d.sawLoss
    ensures IsNews(c, d) <==> (current - e) % 256 == 0 || (current - e) % 256 > 128
    ensures current - e <= 128 ==> (IsNews(c, d) <==> e == current)
  {
    GapModulo(e, current);
  }

  lemma {:induction false} GapModulo(e: nat, current: nat)
    requires e <= current
    ensures (e % 256 - current % 256) % 256 == if (current - e) % 256 == 0 then 0 else 256 - (current - e) % 256
  {
    var q, r := current / 256 - e / 256, current % 256 - e % 256;
    assert current - e == 256 * q + r;
    if r >= 0 {
      assert (current - e) % 256 == r;
    } else {
      assert current - e == 256 * (q - 1) + (r + 256);
      assert (current - e) % 256 == r + 256;
    }
  }

  /** The path was found dead with the budget above its floor. */
  predicate Floors(c: Control, f: Feedback, l: Limits) {
    PathDead(f, l) && c.budget != l.minBudget
  }

  /** The call cuts the budget for a loss. */
  predicate Trims(c: Control, f: Feedback, l: Limits) {
    IsNews(BeforeLoss(c, f, l), f.delta)
  }

  /** How many reactions a call makes. */
  function Reactions(c: Control, f: Feedback, l: Limits): (r: nat) {
    (if Floors(c, f, l) then 1 else 0) + (if Trims(c, f, l) then 1 else 0)
  }

  lemma {:induction false} GrowsEpoch(c: Control, f: Feedback, l: Limits)
    ensures Grows(c, f, l).epoch == c.epoch
  {
    hide MinOf, ConfirmWindow, Target, Grown, QueueTarget;
  }

  /** What a loss is compared against: the epoch, one further on a dead path. */
  lemma {:induction false} EpochBeforeLoss(c: Control, f: Feedback, l: Limits)
    requires c.epoch < 256
    ensures BeforeLoss(c, f, l).epoch == (c.epoch + if Floors(c, f, l) then 1 else 0) % 256
  {
    hide Judged, PathDead;
    JudgedBudget(c, f, l);
  }

  /** Every call moves the epoch by the reactions it makes, modulo 256. */
  lemma {:induction false} EpochCountsReactions(c: Control, f: Feedback, l: Limits)
    requires c.epoch < 256
    ensures Applied(c, f, l).epoch == (c.epoch + Reactions(c, f, l)) % 256
  {
    hide BeforeLoss, Grows, Congested, Floors, IsNews, Cut;
    EpochBeforeLoss(c, f, l);
    GrowsEpoch(BeforeLoss(c, f, l), f, l);
  }

  // --- Every run of feedback ---

  function After(c: Control, fs: seq<Feedback>, l: Limits): (r: Control) {
    if fs == [] then c else Applied(After(c, fs[..|fs| - 1], l), fs[|fs| - 1], l)
  }

  ghost predicate Clocked(fs: seq<Feedback>) {
    forall i :: 0 <= i < |fs| ==> fs[i].now != 0 && fs[i].delta.ackedBytes <= 0xFFFF_FFFF
  }

  lemma {:induction false} RunInRange(fs: seq<Feedback>, l: Limits)
    requires Sane(l) && InRange(START, l) && Clocked(fs)
    ensures InRange(After(START, fs, l), l)
  {
    hide Applied;
    if fs != [] {
      RunInRange(fs[..|fs| - 1], l);
      AppliedKeeps(After(START, fs[..|fs| - 1], l), fs[|fs| - 1], l);
    }
  }

  /** Over every sequence of feedback the starvation fields stay consistent. */
  lemma {:induction false} RunConsistent(fs: seq<Feedback>, l: Limits)
    requires Clocked(fs)
    ensures Consistent(After(START, fs, l))
  {
    hide Applied;
    if fs != [] {
      RunConsistent(fs[..|fs| - 1], l);
      AppliedConsistent(After(START, fs[..|fs| - 1], l), fs[|fs| - 1], l);
    }
  }

  /** The reactions of a whole run. */
  function ReactionsIn(fs: seq<Feedback>, l: Limits): (r: nat) {
    if fs == [] then 0
    else
      var before := fs[..|fs| - 1];
      ReactionsIn(before, l) + Reactions(After(START, before, l), fs[|fs| - 1], l)
  }

  /** From registration on the epoch is the number of reactions so far, modulo 256. */
  lemma {:induction false} RunEpoch(fs: seq<Feedback>, l: Limits)
    ensures After(START, fs, l).epoch == ReactionsIn(fs, l) % 256
  {
    hide Applied, Reactions;
    if fs != [] {
      var before := fs[..|fs| - 1];
      RunEpoch(before, l);
      EpochCountsReactions(After(START, before, l), fs[|fs| - 1], l);
    }
  }

  // --- The configured bounds ---

  /** The floor a configuration gives: never under one wire packet. */
  function FloorFor(configured: nat): (r: nat) {
    Higher(if configured != 0 then configured else 2400, MAX_WIRE_PACKET)
  }

  /** The ceiling: every flow window on the peer full at once, in 32 bits. */
  function CeilingFor(maxOutPerPeer: nat): (r: nat) {
    var ceiling := maxOutPerPeer * 1228800;
    if ceiling == 0 then INITIAL_WINDOW else if ceiling > 0xFFFF_FFFF then 0xFFFF_FFFF else ceiling
  }

  function LimitsFor(configured: nat, maxOutPerPeer: nat, retryInterval: nat, ackDelay: nat): (r: Limits) {
    Limits(FloorFor(configured), CeilingFor(maxOutPerPeer), retryInterval, ackDelay)
  }

  /** A floor the configuration names is kept, down to one packet, and two packets are
      the default; the ceiling is one packet in every place of every bulk window, in 32
      bits, and the opening window when no flow is allowed. */
  lemma {:induction false} LimitsExact(configured: nat, maxOutPerPeer: nat)
    ensures configured >= 1200 ==> FloorFor(configured) == configured
    ensures 0 < configured < 1200 ==> FloorFor(configured) == 1200
    ensures FloorFor(0) == 2 * 1200
    ensures maxOutPerPeer == 0 ==> CeilingFor(maxOutPerPeer) == 12000
    ensures 0 < maxOutPerPeer && 1024 * 1200 * maxOutPerPeer <= 0xFFFF_FFFF ==> CeilingFor(maxOutPerPeer) == 1024 * 1200 * maxOutPerPeer
    ensures 1024 * 1200 * maxOutPerPeer > 0xFFFF_FFFF ==> CeilingFor(maxOutPerPeer) == 0xFFFF_FFFF
  {
  }

  /** A call with nothing measured, acknowledged or lost. */
  const IDLE := Feedback(EMPTY, 0, Sender.NO_FEEDBACK, false, false, 1)

  lemma {:induction false} IdleKeeps(c: Control, l: Limits)
    ensures Applied(c, IDLE, l).budget == c.budget
  {
    hide Judged;
    JudgedBudget(c, IDLE, l);
  }

  /** A configuration keeps the budget within its floor and ceiling through every run
      of feedback exactly when it asks for a floor of at most the opening window. */
  lemma {:induction false} BudgetInRange(configured: nat, maxOutPerPeer: nat, retryInterval: nat, ackDelay: nat)
    ensures var l := LimitsFor(configured, maxOutPerPeer, retryInterval, ackDelay);
      (forall fs :: Clocked(fs) ==> InRange(After(START, fs, l), l)) <==> configured <= INITIAL_WINDOW
    ensures var l := LimitsFor(configured, maxOutPerPeer, retryInterval, ackDelay);
      configured > INITIAL_WINDOW ==> Clocked([IDLE]) && !InRange(After(START, [IDLE], l), l)
  {
    var l := LimitsFor(configured, maxOutPerPeer, retryInterval, ackDelay);
    if configured <= INITIAL_WINDOW {
      forall fs | Clocked(fs)
        ensures InRange(After(START, fs, l), l)
      {
        RunInRange(fs, l);
      }
    } else {
      assert [IDLE][..0] == [];
      IdleKeeps(START, l);
      assert Clocked([IDLE]) && !InRange(After(START, [IDLE], l), l);
    }
  }
}
