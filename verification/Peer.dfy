/** What the socket keeps about one remote: the counters the send gate reads and
    the state the congestion controller moves. */
module Peers {
  import opened Pacing
  import opened Rtt

  class Peer {
    const rtt: RttEstimate
    var congestionBudget: nat
    var bytesInFlight: nat
    var theirGrant: nat
    var outstandingToPeer: nat
    var congestionEpoch: nat
    var pacingTokens: nat
    var pacingRefilledAt: nat
    var slowStartThreshold: nat
    var slowStartQueueSince: nat
    var wMaxBytes: nat
    var congestionEpochAt: nat
    var starvedCandidateSince: nat
    var starvedSince: nat
    var starvedClearSince: nat
    var starvedExitedAt: nat
    var starvedQueueCap: nat
    var starvedMinRtt: nat
    var starvedEpisodes: nat

    constructor ()
      ensures rtt.Valid() && rtt.Model() == EMPTY && fresh(rtt) && fresh(rtt.minBuckets)
      ensures congestionBudget == 12000 && bytesInFlight == 0 && outstandingToPeer == 0
      ensures theirGrant == 0 && congestionEpoch == 0 && pacingTokens == 0 && pacingRefilledAt == 0
      ensures slowStartThreshold == 0xFFFF_FFFF && slowStartQueueSince == 0
      ensures wMaxBytes == 0 && congestionEpochAt == 0
      ensures starvedCandidateSince == 0 && starvedSince == 0 && starvedClearSince == 0
      ensures starvedExitedAt == 0 && starvedQueueCap == 0 && starvedMinRtt == 0 && starvedEpisodes == 0
    {
      rtt := new RttEstimate();
      congestionBudget, bytesInFlight, theirGrant, outstandingToPeer := 12000, 0, 0, 0;
      congestionEpoch, pacingTokens, pacingRefilledAt := 0, 0, 0;
      slowStartThreshold, slowStartQueueSince, wMaxBytes, congestionEpochAt := 0xFFFF_FFFF, 0, 0, 0;
      starvedCandidateSince, starvedSince, starvedClearSince, starvedExitedAt := 0, 0, 0, 0;
      starvedQueueCap, starvedMinRtt, starvedEpisodes := 0, 0, 0;
    }

    ghost function Pace(): (r: Allowance)
      reads this
    {
      Allowance(pacingTokens, pacingRefilledAt)
    }

    method RefillPacing(now: nat)
      modifies this`pacingTokens, this`pacingRefilledAt
      ensures Pace() == Refill(old(Pace()), congestionBudget, rtt.srtt, now)
    {
      if rtt.srtt == 0 {
        return;
      }
      if pacingRefilledAt == 0 || now < pacingRefilledAt {
        pacingRefilledAt := now;
        return;
      }
      var elapsed := now - pacingRefilledAt;
      if elapsed == 0 {
        return;
      }
      var gained := Gained(congestionBudget, rtt.srtt, elapsed);
      if gained == 0 {
        return;
      }
      var topped := pacingTokens + gained;
      pacingTokens := if topped > BURST then BURST else topped;
      pacingRefilledAt := now;
    }

    method PacingAllows(now: nat, wireSize: nat) returns (allowed: bool)
      modifies this`pacingTokens, this`pacingRefilledAt
      ensures Pace() == Refill(old(Pace()), congestionBudget, rtt.srtt, now)
      ensures allowed == Allows(Pace(), rtt.srtt, wireSize)
    {
      if rtt.srtt == 0 {
        return true;
      }
      RefillPacing(now);
      allowed := pacingTokens >= wireSize;
    }

    method SpendPacing(wireSize: nat)
      modifies this`pacingTokens
      ensures Pace() == Spend(old(Pace()), wireSize)
    {
      pacingTokens := if pacingTokens > wireSize then pacingTokens - wireSize else 0;
    }

    /** The budget bounds bytes, the grant bounds packets. */
    predicate HasRoom(wireSize: nat)
      reads this
    {
      && bytesInFlight + wireSize <= congestionBudget
      && (theirGrant == 0 || outstandingToPeer < theirGrant)
    }

    /** The allowance once it is topped up to now. */
    ghost function Refilled(now: nat): (r: Allowance)
      reads this, rtt
    {
      Refill(Pace(), congestionBudget, rtt.srtt, now)
    }

    /** The peer's side of the send gate: budget, grant and clock. */
    ghost predicate Admits(wireSize: nat, now: nat)
      reads this, rtt
    {
      HasRoom(wireSize) && Allows(Refilled(now), rtt.srtt, wireSize)
    }
  }
}
