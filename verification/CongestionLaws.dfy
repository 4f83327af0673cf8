/** What one round of feedback does to the budget, told from the peer's fields and the
    feedback alone, and what a clean run of it comes to. */
module CongestionLaws {
  import opened CongestionModel
  import opened CongestionCurve
  import opened Rtt
  import Sender

  // --- Readings ---

  /** How far above the path's minimum a round trip may read before it is a queue. */
  function Slack(e: Estimate): (r: nat) {
    var min := MinOf(e.buckets);
    min + if min / 8 < 1000 then 1000 else min / 8
  }

  /** The smoothed round trip shows a queue. */
  predicate Queued(e: Estimate) {
    MinOf(e.buckets) != 0 && e.srtt > Slack(e)
  }

  /** The newest sample shows one. */
  predicate JustQueued(e: Estimate) {
    MinOf(e.buckets) != 0 && e.latest > Slack(e)
  }

  /** No loss is reported that was stamped since the last reaction. */
  predicate NoNews(c: Control, f: Feedback) {
    !f.delta.sawLoss || Sender.Signed8(f.delta.lostEpoch - c.epoch) < 0
  }

  /** No verdict stands and none is in reach: the path is not queued, or the budget is
      past the opening window. */
  predicate Unstarved(c: Control, e: Estimate) {
    c.starvedSince == 0 && (!Queued(e) || c.budget > 12000)
  }

  predicate Plausible(c: Control, f: Feedback, l: Limits) {
    Sane(l) && InRange(c, l) && 0 < f.delta.ackedBytes <= 0xFFFF_FFFF
  }

  lemma {:induction false} QueuedIs(c: Control, e: Estimate)
    ensures OverTarget(e) <==> Queued(e)
    ensures Standing(c, QueueOf(e), e) <==> c.budget >= 12000 && Queued(e)
    ensures Standing(c, LatestQueueOf(e), e) <==> c.budget >= 12000 && JustQueued(e)
  {
    hide MinOf;
  }

  /** Nothing judged before growth moves what growth reads. */
  lemma {:induction false} Undisturbed(c: Control, f: Feedback, l: Limits)
    requires Unstarved(c, f.e) && f.delta.ackedBytes > 0
    ensures var w := BeforeLoss(c, f, l);
      && w.starvedSince == 0
      && w == c.(candidateSince := w.candidateSince, exitedAt := w.exitedAt, queueCap := w.queueCap, minRtt := w.minRtt)
  {
    hide MinOf, ConfirmWindow, Queued, OverTarget, RetransmitTimeout;
    QueuedIs(c, f.e);
  }

  // --- Growth ---

  /** Below the threshold: the whole of what was acknowledged is added while no queue
      shows and none is under watch. The first sighting stops growth and starts the
      watch; a sighting that outlasts two round trips ends slow start where it is. */
  lemma {:induction false} SlowStartExact(c: Control, f: Feedback, l: Limits)
    requires Plausible(c, f, l) && Unstarved(c, f.e) && NoNews(c, f) && c.budget < c.threshold
    ensures var a := Applied(c, f, l);
      var ramped := Least(c.budget + f.delta.ackedBytes, l.maxBudget);
      var watched := c.budget >= 12000 && (JustQueued(f.e) || (c.queueSince != 0 && Queued(f.e)));
      var trip := if f.e.srtt != 0 then f.e.srtt else l.retryInterval;
      && a.epoch == c.epoch && a.starvedSince == 0
      && (!watched ==> a.budget == ramped && a.queueSince == 0 && a.threshold == c.threshold)
      && (watched ==> a.budget == c.budget)
      && (watched && c.queueSince == 0 ==> a.queueSince == f.now && a.threshold == c.threshold)
      && (watched && c.queueSince != 0 ==>
            if Above(f.now, c.queueSince) >= 2 * trip then a.threshold == a.wMax == c.budget && a.epochAt == f.now && a.queueSince == 0
            else a.threshold == c.threshold && a.queueSince == c.queueSince)
  {
    hide MinOf, Queued, JustQueued, Judged, PathDead, Standing, Grown, OverTarget, QueueOf, LatestQueueOf;
    Undisturbed(c, f, l);
    var w := BeforeLoss(c, f, l);
    QueuedIs(w, f.e);
    GrownWithin(c.budget, f.delta.ackedBytes, l.maxBudget);
    hide BeforeLoss;
  }

  /** At or past the threshold: a call adds what the curve is ahead by, no more than a
      packet, and nothing while a queue stands. */
  lemma {:induction false} AvoidExact(c: Control, f: Feedback, l: Limits)
    requires Plausible(c, f, l) && Unstarved(c, f.e) && NoNews(c, f) && c.budget >= c.threshold
    ensures var a := Applied(c, f, l);
      var wMax := if c.epochAt == 0 && c.wMax == 0 then c.budget else c.wMax;
      var elapsed := if c.epochAt == 0 || f.now <= c.epochAt then 0 else f.now - c.epochAt;
      var want := Target(wMax, elapsed, f.e.srtt);
      && a.epoch == c.epoch && a.threshold == c.threshold
      && c.budget <= a.budget <= c.budget + 1200
      && (c.budget >= 12000 && Queued(f.e) ==> a.budget == c.budget)
      && (c.budget < 12000 || !Queued(f.e) ==>
            && a.wMax == wMax
            && a.budget == (if want <= c.budget then c.budget else Least(Least(want, c.budget + 1200), l.maxBudget)))
  {
    hide MinOf, Queued, JustQueued, Judged, PathDead, Standing, Grown, OverTarget, QueueOf, LatestQueueOf, Target;
    Undisturbed(c, f, l);
    var w := BeforeLoss(c, f, l);
    QueuedIs(w, f.e);
    var s := Started(w, f.now);
    var want := Target(s.wMax, Since(f.now, s.epochAt), f.e.srtt);
    GrownWithin(c.budget, Step(want, c.budget), l.maxBudget);
    hide BeforeLoss;
  }

  /** Under a verdict: the budget ramps while neither the smoothed nor the newest round
      trip exceeds the frozen minimum by more than the frozen level, holds otherwise,
      and the verdict ends once the frozen queue has read clear for eight round
      trips and half a second. */
  lemma {:induction false} StarvedExact(c: Control, f: Feedback, l: Limits)
    requires Plausible(c, f, l) && NoNews(c, f) && c.starvedSince != 0 && f.now != 0
    ensures var a := Applied(c, f, l);
      var trip := if f.e.srtt != 0 then f.e.srtt else l.retryInterval;
      var clear := f.e.srtt <= c.minRtt + if c.minRtt / 8 < 1000 then 1000 else c.minRtt / 8;
      var within := f.e.srtt <= c.minRtt + c.queueCap && f.e.latest <= c.minRtt + c.queueCap;
      var since := Above(f.now, c.clearSince);
      var leaves := clear && c.clearSince != 0 && since >= 8 * trip && since >= 500000;
      && (a.starvedSince == 0 <==> leaves)
      && (leaves ==> a.budget == a.threshold == a.wMax == c.budget && a.exitedAt == f.now)
      && (!leaves ==> a.budget == if within then Least(c.budget + f.delta.ackedBytes, l.maxBudget) else c.budget)
      && (!leaves ==> a.clearSince == if !clear then 0 else if c.clearSince == 0 then f.now else c.clearSince)
  {
    hide MinOf, Grown, RetransmitTimeout;
    GrownWithin(c.budget, f.delta.ackedBytes, l.maxBudget);
    assert BeforeLoss(c, f, l) == c;
  }

  // --- The verdict ---

  /** A peer is judged starved exactly when an acknowledgement finds its path queued, its
      budget no larger than the opening window, and both true for sixteen round trips
      and a quarter of a second; the queue and the minimum of that moment are kept. */
  lemma {:induction false} VerdictExact(c: Control, f: Feedback, l: Limits)
    requires c.starvedSince == 0 && c.exitedAt == 0 && f.now != 0
    ensures var a := Applied(c, f, l);
      var trip := if f.e.srtt != 0 then f.e.srtt else l.retryInterval;
      var since := Above(f.now, c.candidateSince);
      var starved := f.delta.ackedBytes > 0 && Queued(f.e) && c.budget <= 12000
        && c.candidateSince != 0 && since >= 16 * trip && since >= 250000;
      && (a.starvedSince != 0 <==> starved)
      && (starved ==>
            && a.starvedSince == f.now && a.minRtt == MinOf(f.e.buckets)
            && a.queueCap == (f.e.srtt - a.minRtt) + QueueTarget(a.minRtt) / 2)
  {
    hide MinOf, Grown, RetransmitTimeout, Target, SlowStarted, Avoided, Congested;
    QueuedIs(c, f.e);
    GrowthUnjudged(BeforeLoss(c, f, l), f, l);
  }

  /** Within thirty seconds of leaving a verdict the next acknowledgement that finds the
      path queued and the budget small brings it back, with the references it had. */
  lemma {:induction false} RelapseExact(c: Control, f: Feedback, l: Limits)
    requires c.starvedSince == 0 && 0 < c.exitedAt && f.now <= c.exitedAt + 30_000_000 && f.now != 0
    ensures var a := Applied(c, f, l);
      var relapses := f.delta.ackedBytes > 0 && Queued(f.e) && c.budget <= 12000;
      && (a.starvedSince != 0 <==> relapses)
      && (relapses ==> a.starvedSince == f.now && a.minRtt == c.minRtt && a.queueCap == c.queueCap)
  {
    hide MinOf, Grown, RetransmitTimeout, Target, SlowStarted, Avoided, Congested, ConfirmWindow;
    QueuedIs(c, f.e);
    GrowthUnjudged(BeforeLoss(c, f, l), f, l);
  }

  lemma {:induction false} GrowthUnjudged(c: Control, f: Feedback, l: Limits)
    ensures c.starvedSince == 0 ==> Grows(c, f, l).starvedSince == 0
    ensures c.clearSince == 0 ==> Grows(c, f, l).starvedSince == c.starvedSince
    ensures Grows(c, f, l).minRtt == c.minRtt && Grows(c, f, l).queueCap == c.queueCap
  {
    hide MinOf, ConfirmWindow, Target, Grown, QueueTarget;
  }

  // --- Reductions ---

  /** A reported loss stamped since the last reaction takes thirty percent when nothing is
      measured, a queue stands, or most of a large burst was lost on a path that could
      overflow and loses too much; otherwise five percent. Only the larger cut ends
      slow start and restarts the curve from the budget it cut. */
  lemma {:induction false} TrimExact(c: Control, f: Feedback, l: Limits)
    requires Unstarved(c, f.e) && f.delta.sawLoss && Sender.Signed8(f.delta.lostEpoch - c.epoch) >= 0
    requires f.delta.ackedBytes > 0
    ensures var a := Applied(c, f, l);
      var lost := f.delta.lostDeclaredBytes;
      var congested := MinOf(f.e.buckets) == 0 || Queued(f.e)
        || (lost >= f.delta.ackedBytes && lost >= 3600 && f.couldOverflow && f.lossAboveTolerance);
      var left := c.budget * (if congested then 70 else 95) / 100;
      && a.budget == (if left < l.minBudget then l.minBudget else left)
      && a.queueSince == 0 && a.epoch == (c.epoch + 1) % 256
      && (congested ==> a.wMax == c.budget && a.threshold == a.budget && a.epochAt == f.now)
      && (!congested ==> a.wMax == c.wMax && a.threshold == c.threshold && a.epochAt == c.epochAt)
  {
    hide MinOf, Queued, Judged, PathDead, OverTarget, Grows;
    Undisturbed(c, f, l);
    QueuedIs(c, f.e);
    hide BeforeLoss;
  }

  /** A probe unanswered for more than three base timeouts sends the budget to its floor
      and forgets every verdict; before that, with no news, the budget stands. */
  lemma {:induction false} FloorExact(c: Control, f: Feedback, l: Limits)
    requires f.delta.ackedBytes == 0
    ensures var a := Applied(c, f, l);
      var dead := f.delta.sawProbe && f.silent > 3 * RetransmitTimeout(f.e, l.retryInterval, l.ackDelay, 0);
      && (dead ==> a.budget == l.minBudget && a.starvedSince == 0 && a.exitedAt == 0 && a.candidateSince == 0)
      && (!dead && NoNews(c, f) ==> a.budget == c.budget && a.epoch == c.epoch)
  {
    hide Judged, RetransmitTimeout, Congested;
    JudgedBudget(c, f, l);
  }

  // --- A clean run ---

  /** Nothing lost, nothing queued, and no probe left unanswered. */
  predicate Clean(f: Feedback) {
    && !f.delta.sawLoss && !Queued(f.e) && !JustQueued(f.e)
    && (f.delta.sawProbe ==> f.delta.ackedBytes > 0) && f.delta.ackedBytes <= 0xFFFF_FFFF
  }

  function AckedIn(fs: seq<Feedback>): (r: nat) {
    if fs == [] then 0 else AckedIn(fs[..|fs| - 1]) + fs[|fs| - 1].delta.ackedBytes
  }

  /** What a clean run keeps of a new peer. */
  predicate Opening(c: Control) {
    c.threshold == 0xFFFF_FFFF && c.queueSince == 0 && c.starvedSince == 0
  }

  lemma {:induction false} CleanStep(c: Control, f: Feedback, l: Limits)
    requires Sane(l) && InRange(c, l) && Opening(c) && Clean(f)
    ensures var a := Applied(c, f, l);
      Opening(a) && InRange(a, l) && a.budget == Least(c.budget + f.delta.ackedBytes, l.maxBudget)
  {
    hide Applied, Queued, JustQueued, Target;
    if f.delta.ackedBytes == 0 {
      IdleStep(c, f, l);
    } else if c.budget < c.threshold {
      SlowStartExact(c, f, l);
    } else {
      AvoidExact(c, f, l);
      AvoidOpening(c, f, l);
    }
  }

  lemma {:induction false} IdleStep(c: Control, f: Feedback, l: Limits)
    requires Opening(c) && Clean(f) && f.delta.ackedBytes == 0
    ensures var a := Applied(c, f, l);
      Opening(a) && a.budget == c.budget
  {
    hide MinOf, ConfirmWindow, RetransmitTimeout, Queued, OverTarget;
    QueuedIs(c, f.e);
  }

  lemma {:induction false} AvoidOpening(c: Control, f: Feedback, l: Limits)
    requires Opening(c) && Clean(f) && f.delta.ackedBytes > 0 && c.budget >= c.threshold
    ensures Opening(Applied(c, f, l))
  {
    Undisturbed(c, f, l);
    hide MinOf, Queued, JustQueued, BeforeLoss, Target, Grown, Standing;
  }

  /** From registration on, as long as nothing is lost and no queue shows, the budget is
      the opening window and every byte acknowledged since, up to the ceiling. */
  lemma {:induction false} OpeningRamp(fs: seq<Feedback>, l: Limits)
    requires Sane(l) && l.minBudget <= 12000 <= l.maxBudget
    requires forall i :: 0 <= i < |fs| ==> Clean(fs[i])
    ensures var a := CongestionModel.After(START, fs, l);
      Opening(a) && a.budget == Least(12000 + AckedIn(fs), l.maxBudget)
  {
    hide Applied, Clean;
    if fs != [] {
      OpeningRamp(fs[..|fs| - 1], l);
      CleanStep(CongestionModel.After(START, fs[..|fs| - 1], l), fs[|fs| - 1], l);
    }
  }
}
