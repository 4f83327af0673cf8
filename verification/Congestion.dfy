/** The controller as the socket runs it: a peer's fields rewritten branch by
    branch, each step proved to be the one on values. */
module Congestion {
  import opened CongestionModel
  import opened CongestionCurve
  import opened Rtt
  import opened Peers
  import Sender

  ghost function ControlOf(p: Peer): (r: Control)
    reads p
  {
    Control(p.congestionBudget, p.slowStartThreshold, p.slowStartQueueSince, p.wMaxBytes, p.congestionEpochAt,
            p.congestionEpoch, p.starvedCandidateSince, p.starvedSince, p.starvedClearSince, p.starvedExitedAt,
            p.starvedQueueCap, p.starvedMinRtt, p.starvedEpisodes)
  }

  /** The fields the controller leaves alone, once the resolved bytes are freed. */
  datatype Rest = Rest(inFlight: nat, outstanding: nat, grant: nat, tokens: nat, refilledAt: nat)

  ghost function RestOf(p: Peer): (r: Rest)
    reads p
  {
    Rest(p.bytesInFlight, p.outstandingToPeer, p.theirGrant, p.pacingTokens, p.pacingRefilledAt)
  }

  class Socket {
    const minBudget: nat
    const maxBudget: nat
    const retryInterval: nat
    const ackDelay: nat

    ghost function Bounds(): (r: Limits) {
      Limits(minBudget, maxBudget, retryInterval, ackDelay)
    }

    constructor (configuredFloor: nat, maxOutPerPeer: nat, retryInterval: nat, ackDelay: nat)
      ensures Bounds() == LimitsFor(configuredFloor, maxOutPerPeer, retryInterval, ackDelay)
    {
      var floor := if configuredFloor != 0 then configuredFloor else 2400;
      minBudget := if floor < MAX_WIRE_PACKET then MAX_WIRE_PACKET else floor;
      var ceiling := maxOutPerPeer * 1228800;
      maxBudget := if ceiling == 0 then INITIAL_WINDOW else if ceiling > 0xFFFF_FFFF then 0xFFFF_FFFF else ceiling;
      this.retryInterval := retryInterval;
      this.ackDelay := ackDelay;
    }

    /** Frees what resolved and folds the measurement in. */
    method Measure(peer: Peer, delta: Sender.Delta, now: nat)
      requires peer.rtt.Valid() && delta.ackDelay <= UINT16_MAX
      modifies peer`bytesInFlight, peer`outstandingToPeer, peer.rtt, peer.rtt.minBuckets
      ensures peer.rtt.Valid()
      ensures peer.bytesInFlight == Sender.Refunded(old(peer.bytesInFlight), delta.resolvedBytes)
      ensures peer.outstandingToPeer == Sender.Refunded(old(peer.outstandingToPeer), delta.resolvedPackets)
      ensures peer.rtt.Model() == Fold(old(peer.rtt.Model()), delta.rttSample, delta.ackDelay, now)
      ensures peer.rtt.lastAckedAt == if delta.ackedBytes != 0 then now else old(peer.rtt.lastAckedAt)
    {
      peer.bytesInFlight := if delta.resolvedBytes <= peer.bytesInFlight then peer.bytesInFlight - delta.resolvedBytes else 0;
      peer.outstandingToPeer :=
        if delta.resolvedPackets <= peer.outstandingToPeer then peer.outstandingToPeer - delta.resolvedPackets else 0;
      if delta.rttSample != 0 {
        var usable := peer.rtt.Sample(delta.rttSample, delta.ackDelay, now);
      }
      if delta.ackedBytes != 0 {
        peer.rtt.MarkAcked(now);
      }
    }

    method ConfirmWindowMicros(trip: nat, rounds: nat, floor: nat) returns (window: nat)
      ensures window == ConfirmWindow(trip, rounds, floor)
    {
      var spanned := rounds * trip;
      window := if spanned > floor then spanned else floor;
    }

    /** Drops the references of an exit too old to relapse from. */
    method ExpireExit(peer: Peer, now: nat)
      modifies peer
      ensures ControlOf(peer) == Expired(old(ControlOf(peer)), now)
      ensures RestOf(peer) == old(RestOf(peer))
    {
      if peer.starvedExitedAt != 0 && now > peer.starvedExitedAt + REENTRY_WINDOW {
        peer.starvedExitedAt, peer.starvedQueueCap, peer.starvedMinRtt := 0, 0, 0;
      }
    }

    method Relapse(peer: Peer, now: nat)
      modifies peer
      ensures ControlOf(peer) == Relapsed(old(ControlOf(peer)), now)
      ensures RestOf(peer) == old(RestOf(peer))
    {
      peer.starvedSince, peer.starvedExitedAt := now, 0;
      peer.starvedClearSince, peer.starvedCandidateSince := 0, 0;
      peer.starvedEpisodes := peer.starvedEpisodes + 1;
    }

    /** Freezes the level and the minimum the verdict was reached at. */
    method Convict(peer: Peer, queueNow: nat, pathMinRtt: nat, now: nat)
      requires queueNow == QueueOf(peer.rtt.Model()) && pathMinRtt == MinOf(peer.rtt.Model().buckets)
      modifies peer
      ensures ControlOf(peer) == Convicted(old(ControlOf(peer)), peer.rtt.Model(), now)
      ensures RestOf(peer) == old(RestOf(peer))
    {
      hide MinOf, QueueOf;
      peer.starvedSince := now;
      peer.starvedQueueCap := queueNow + QueueTarget(pathMinRtt) / 2;
      peer.starvedMinRtt := pathMinRtt;
      peer.starvedClearSince, peer.starvedCandidateSince := 0, 0;
      peer.starvedEpisodes := peer.starvedEpisodes + 1;
    }

    method DropToFloor(peer: Peer, now: nat)
      modifies peer
      ensures ControlOf(peer) == ToFloor(old(ControlOf(peer)), now, Bounds())
      ensures RestOf(peer) == old(RestOf(peer))
    {
      if peer.congestionBudget != minBudget {
        peer.congestionBudget, peer.wMaxBytes := minBudget, minBudget;
        peer.congestionEpochAt, peer.slowStartQueueSince := now, 0;
        peer.congestionEpoch := (peer.congestionEpoch + 1) % 256;
      }
    }

    method ForgetStarvation(peer: Peer)
      modifies peer
      ensures ControlOf(peer) == Forgotten(old(ControlOf(peer)))
      ensures RestOf(peer) == old(RestOf(peer))
    {
      peer.starvedCandidateSince, peer.starvedSince, peer.starvedClearSince := 0, 0, 0;
      peer.starvedExitedAt, peer.starvedQueueCap, peer.starvedMinRtt := 0, 0, 0;
    }

    method Exit(peer: Peer, now: nat)
      modifies peer
      ensures ControlOf(peer) == Exited(old(ControlOf(peer)), now)
      ensures RestOf(peer) == old(RestOf(peer))
    {
      peer.starvedSince, peer.starvedExitedAt, peer.starvedClearSince := 0, now, 0;
      peer.slowStartThreshold, peer.wMaxBytes := peer.congestionBudget, peer.congestionBudget;
      peer.congestionEpochAt, peer.slowStartQueueSince := now, 0;
    }

    method JudgeStarvation(peer: Peer, acked: bool, now: nat)
      requires peer.rtt.Valid()
      modifies peer
      ensures ControlOf(peer) == Judged(old(ControlOf(peer)), peer.rtt.Model(), acked, now, Bounds())
      ensures RestOf(peer) == old(RestOf(peer))
    {
      hide MinOf, QueueOf, QueueTarget, Relapsed, Convicted, ConfirmWindow;
      var pathMinRtt := peer.rtt.MinRttMicros();
      var queueNow := peer.rtt.QueueMicros();
      var overTarget := pathMinRtt != 0 && queueNow > QueueTarget(pathMinRtt);
      if peer.starvedSince == 0 {
        ExpireExit(peer, now);
        var starvedNow := overTarget && peer.congestionBudget <= INITIAL_WINDOW;
        if !starvedNow {
          peer.starvedCandidateSince := 0;
        } else if acked && peer.starvedExitedAt != 0 {
          Relapse(peer, now);
        } else if peer.starvedCandidateSince == 0 {
          peer.starvedCandidateSince := now;
        } else if acked {
          var held := if now > peer.starvedCandidateSince then now - peer.starvedCandidateSince else 0;
          var confirm := ConfirmWindowMicros(if peer.rtt.srtt != 0 then peer.rtt.srtt else retryInterval, 16, 250000);
          if held >= confirm {
            Convict(peer, queueNow, pathMinRtt, now);
          }
        }
      }
    }

    /** Past enough silence the budget goes to the floor and the verdict is dropped. */
    method CollapseIfDead(peer: Peer, delta: Sender.Delta, now: nat, ghost f: Feedback)
      requires peer.rtt.Valid() && f.e == peer.rtt.Model() && f.delta == delta && f.now == now
      requires f.silent == peer.rtt.SilentFor(now)
      modifies peer
      ensures ControlOf(peer) == Collapsed(old(ControlOf(peer)), f, Bounds())
      ensures RestOf(peer) == old(RestOf(peer))
    {
      hide RetransmitTimeout, ToFloor, Forgotten, MinOf;
      if delta.sawProbe && delta.ackedBytes == 0 {
        var base := peer.rtt.RetransmitTimeoutAt(retryInterval, ackDelay, 0);
        if peer.rtt.SilentFor(now) > base * 3 {
          DropToFloor(peer, now);
          ForgetStarvation(peer);
        }
      }
    }

    method StarvedQueues(peer: Peer) returns (smoothed: nat, worst: nat)
      ensures smoothed == StarvedQueue(ControlOf(peer), peer.rtt.Model())
      ensures worst == StarvedWorstQueue(ControlOf(peer), peer.rtt.Model())
    {
      smoothed := if peer.rtt.srtt > peer.starvedMinRtt then peer.rtt.srtt - peer.starvedMinRtt else 0;
      var latest := if peer.rtt.latest > peer.starvedMinRtt then peer.rtt.latest - peer.starvedMinRtt else 0;
      worst := if latest > smoothed then latest else smoothed;
    }

    /** Whether a loss is congestion or noise. */
    method JudgeLoss(peer: Peer, delta: Sender.Delta, couldOverflow: bool, lossAboveTolerance: bool, ghost f: Feedback)
      returns (congested: bool)
      requires peer.rtt.Valid() && f.e == peer.rtt.Model() && f.delta == delta
      requires f.couldOverflow == couldOverflow && f.lossAboveTolerance == lossAboveTolerance
      ensures congested == Congested(ControlOf(peer), f)
    {
      hide MinOf;
      var minRtt := peer.rtt.MinRttMicros();
      var lost := delta.lostDeclaredBytes;
      var bigBite := lost * 2 >= lost + delta.ackedBytes && lost >= 3 * MAX_WIRE_PACKET && couldOverflow;
      var queue := peer.rtt.QueueMicros();
      var smoothed, worst := StarvedQueues(peer);
      var standing :=
        if peer.starvedSince != 0 then worst > peer.starvedQueueCap else minRtt != 0 && queue > QueueTarget(minRtt);
      congested := minRtt == 0 || standing || (bigBite && lossAboveTolerance);
    }

    method Trim(peer: Peer, congested: bool, now: nat)
      modifies peer
      ensures ControlOf(peer) == Trimmed(old(ControlOf(peer)), congested, now, Bounds())
      ensures RestOf(peer) == old(RestOf(peer))
    {
      var retain := if congested then 70 else 95;
      var budgetAtLoss := peer.congestionBudget;
      var trimmed := peer.congestionBudget * retain / 100;
      if trimmed < minBudget {
        trimmed := minBudget;
      }
      peer.congestionBudget := trimmed;
      peer.slowStartQueueSince := 0;
      if congested {
        peer.wMaxBytes := budgetAtLoss;
        peer.slowStartThreshold := trimmed;
        peer.congestionEpochAt := now;
      }
      peer.congestionEpoch := (peer.congestionEpoch + 1) % 256;
    }

    method Recover(peer: Peer, acked: nat, now: nat)
      requires peer.rtt.Valid()
      modifies peer
      ensures ControlOf(peer) == Recovered(old(ControlOf(peer)), peer.rtt.Model(), acked, now, Bounds())
      ensures RestOf(peer) == old(RestOf(peer))
    {
      hide MinOf, QueueTarget, Exited, ConfirmWindow, Grown, StarvedQueue, StarvedWorstQueue;
      var queue, worst := StarvedQueues(peer);
      if queue <= QueueTarget(peer.starvedMinRtt) {
        if peer.starvedClearSince == 0 {
          peer.starvedClearSince := now;
        } else {
          var held := if now > peer.starvedClearSince then now - peer.starvedClearSince else 0;
          var confirm := ConfirmWindowMicros(if peer.rtt.srtt != 0 then peer.rtt.srtt else retryInterval, 8, 500000);
          if held >= confirm {
            Exit(peer, now);
            return;
          }
        }
      } else {
        peer.starvedClearSince := 0;
      }
      if worst > peer.starvedQueueCap {
        return;
      }
      peer.congestionBudget := Ramp(peer.congestionBudget, acked, maxBudget);
    }

    /** Doubles while the path reads clean, holds while a sighting is confirmed. */
    method SlowStart(peer: Peer, acked: nat, now: nat)
      requires peer.rtt.Valid()
      modifies peer
      ensures ControlOf(peer) == SlowStarted(old(ControlOf(peer)), peer.rtt.Model(), acked, now, Bounds())
      ensures RestOf(peer) == old(RestOf(peer))
    {
      hide MinOf;
      var smoothed, latest := Sightings(peer);
      if peer.slowStartQueueSince == 0 {
        if latest {
          peer.slowStartQueueSince := now;
          return;
        }
      } else if !latest && !smoothed {
        peer.slowStartQueueSince := 0;
      } else {
        var held := if now > peer.slowStartQueueSince then now - peer.slowStartQueueSince else 0;
        var confirm := 2 * (if peer.rtt.srtt != 0 then peer.rtt.srtt else retryInterval);
        if held >= confirm {
          peer.slowStartThreshold, peer.wMaxBytes := peer.congestionBudget, peer.congestionBudget;
          peer.congestionEpochAt, peer.slowStartQueueSince := now, 0;
        }
        return;
      }
      peer.congestionBudget := Ramp(peer.congestionBudget, acked, maxBudget);
    }

    method Sightings(peer: Peer) returns (smoothed: bool, latest: bool)
      requires peer.rtt.Valid()
      ensures smoothed == Standing(ControlOf(peer), QueueOf(peer.rtt.Model()), peer.rtt.Model())
      ensures latest == Standing(ControlOf(peer), LatestQueueOf(peer.rtt.Model()), peer.rtt.Model())
    {
      hide MinOf;
      var minRtt := peer.rtt.MinRttMicros();
      var live := minRtt != 0 && peer.congestionBudget >= INITIAL_WINDOW;
      var target := if live then QueueTarget(minRtt) else 0;
      var queue := peer.rtt.QueueMicros();
      var newest := peer.rtt.LatestQueueMicros();
      smoothed := live && queue > target;
      latest := live && newest > target;
    }

    /** Follows the curve a packet at a time, and not into a standing queue. */
    method Avoid(peer: Peer, now: nat)
      requires peer.rtt.Valid()
      modifies peer
      ensures ControlOf(peer) == Avoided(old(ControlOf(peer)), peer.rtt.Model(), now, Bounds())
      ensures RestOf(peer) == old(RestOf(peer))
    {
      hide MinOf, CubicWindow, RenoWindow, Grown;
      var standing, latest := Sightings(peer);
      if standing {
        return;
      }
      if peer.congestionEpochAt == 0 {
        peer.congestionEpochAt := now;
        if peer.wMaxBytes == 0 {
          peer.wMaxBytes := peer.congestionBudget;
        }
      }
      var elapsed := if now > peer.congestionEpochAt then now - peer.congestionEpochAt else 0;
      var cubic := CubicWindow(peer.wMaxBytes, elapsed);
      var reno := RenoWindow(peer.wMaxBytes, elapsed, peer.rtt.srtt);
      var want := if cubic > reno then cubic else reno;
      if want > peer.congestionBudget {
        var step := want - peer.congestionBudget;
        var capped := if step > MAX_WIRE_PACKET then MAX_WIRE_PACKET else step;
        peer.congestionBudget := Grown(peer.congestionBudget, capped, maxBudget);
      }
    }

    /** One round of feedback, in the order the source takes it. */
    method ApplyCongestion(peer: Peer, delta: Sender.Delta, couldOverflow: bool, lossAboveTolerance: bool, now: nat)
      requires peer.rtt.Valid() && delta.ackDelay <= UINT16_MAX
      modifies peer, peer.rtt, peer.rtt.minBuckets
      ensures peer.rtt.Valid()
      ensures peer.rtt.Model() == Fold(old(peer.rtt.Model()), delta.rttSample, delta.ackDelay, now)
      ensures peer.rtt.lastAckedAt == if delta.ackedBytes != 0 then now else old(peer.rtt.lastAckedAt)
      ensures RestOf(peer) == old(RestOf(peer)).(
        inFlight := Sender.Refunded(old(peer.bytesInFlight), delta.resolvedBytes),
        outstanding := Sender.Refunded(old(peer.outstandingToPeer), delta.resolvedPackets))
      ensures ControlOf(peer) == Applied(old(ControlOf(peer)),
        Feedback(peer.rtt.Model(), peer.rtt.SilentFor(now), delta, couldOverflow, lossAboveTolerance, now), Bounds())
    {
      hide MinOf, Fold, Judged, Collapsed, Trimmed, Recovered, SlowStarted, Avoided, Congested;
      Measure(peer, delta, now);
      ghost var f := Feedback(peer.rtt.Model(), peer.rtt.SilentFor(now), delta, couldOverflow, lossAboveTolerance, now);
      JudgeStarvation(peer, delta.ackedBytes != 0, now);
      CollapseIfDead(peer, delta, now, f);
      if delta.sawLoss && Sender.Signed8(delta.lostEpoch - peer.congestionEpoch) >= 0 {
        var congested := JudgeLoss(peer, delta, couldOverflow, lossAboveTolerance, f);
        Trim(peer, congested, now);
        return;
      }
      if delta.ackedBytes == 0 {
        return;
      }
      if peer.starvedSince != 0 {
        Recover(peer, delta.ackedBytes, now);
      } else if peer.congestionBudget < peer.slowStartThreshold {
        SlowStart(peer, delta.ackedBytes, now);
      } else {
        Avoid(peer, now);
      }
    }
  }
}
