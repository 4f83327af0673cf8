# Flux, modelled and verified

Flux is a UDP transport. This project models the parts of it that are hardest to get right by reading and proves what they promise:

- **Flows.** A sender's in-flight and waiting rings, a receiver's seen bitmap and hold-back ring, and the acknowledgements between them. `Sender` and `Receiver` define each operation on values. `OutAssociations`, `InAssociations` and `WaitingRings` run the same operations in place, on arrays and fields, and prove them equal. `FlowProtocol` joins one sender and one receiver through a network that loses, duplicates, reorders and delays data and acknowledgements, with jam reclaims as steps. `OrderedFlow` and `UnorderedFlow` prove what holds in every state of every run. `FlowData` is the header byte of a flow packet.
- **Round trips and the peer's books.** `Rtt`, `Karn`, `Pacing`, `Probing` and `Accounting`: the estimate, what may be sampled, how fast bytes leave, how often a silent peer is asked, and where every in-flight byte is counted.
- **The peer table.** `RobinHood` and `RobinHoodIndex` are the open-addressed index, `MapIndexes` reads it as a map and as a bag, `PeerTables` keeps three of them and the peer records in step. `Seqlock` is the reader protocol as a state machine, `SeqlockSafety` its proof. `CertStores` is the insert-only sibling.
- **Poly1305.** Limb arithmetic against section 2.5 of RFC 8439.
- **Congestion control.** `CongestionModel` on values, `CongestionLaws` what a call does told from its fields, `Congestion` in place, `CongestionCurve` for the CUBIC curve of section 4.2 of RFC 9438, `IntegerMath` for the integer cube root. `Epochs` follows every stamp from the ring through the loss reports to the controller's reaction, over whole histories.
- **The replay window.** `ReplayWindows`, a shifting bitmap against the set of accepted counters.

Where a promise of the code or its comments turned out not to hold on every input, the code is kept as it is and the project states exactly when the promise does hold:

- `CubeRoot` is exact below 11 * 2^60 and too large from there on (`IntegerMath.CubeRoot`).
- The clamp in `CubicWindow` does not keep its product in 64 bits. For a nonzero window the products fit exactly up to 267844 ms past K (`CongestionCurve.CubicOverflow`, `CongestionCurve.OverflowExample`).
- The congestion budget stays in its configured range in every run exactly when the configured floor is at most the opening window (`CongestionModel.BudgetInRange`).
- A loss report is reacted to exactly when the eight-bit gap between its stamp and the reactions made since is zero or more than 128. Within 127 reactions that means stamped since the last one; a packet outstanding through 129 draws a second cut (`Epochs.TrimsByGap`, `Epochs.OneReactionPerEvent`, `Epochs.StaleLossTrims`).
- A looked-up handle names a slot the index maps the key to, except while that slot is being moved to the key from a colliding one (`SeqlockSafety.HandleIsMapped`, `SeqlockSafety.CollidingMoveFindsEarly`).

## Model

| member | source | states |
|---|---|---|
| OrderedFlow.InOrderPrefix | flux/src/flux/flow/flow_table.cpp:2326-2428 | in every state of every run over the lossy network the application has received exactly sequences 1..recvNext-1, in order, and their bodies are a prefix of what the send gate accepted; while the association is open, stamped stream then waiting ring is the accept order |
| OrderedFlow.CopyRetained | flux/src/flux/flow/flow_table.cpp:1929-1965 | while open, every stamped sequence at or above the receiver's cursor still has its ring entry and its copy with the stamped body, even if it was acknowledged while held and then dropped by the receiver |
| OrderedFlow.RingsNeverAlias | flux/src/flux/flow/flow_table.cpp:351-366 | occupied entries are exactly [ackBase, nextSeq), ackBase never passes the cursor, every packet that can arrive lies below recvNext + reorderCap, and an occupied hold-back slot means the same sequence and body |
| OrderedFlow.SeenIsDeliveredOrHeld | flux/src/flux/flow/flow_table.cpp:115-181 | inside the window the seen bitmap is exactly the delivered or currently held sequences, through every jump and reclaim |
| OrderedFlow.OneOwnerPerCopy | flux/src/flux/flow/flow_table.cpp:1796-1844 | no two owners share a staging slot and every named slot is leased |
| OrderedFlow.ApplyAckOrdered | flux/src/flux/flow/flow_table.cpp:1080-1208 | an acknowledgement the receiver truly sent keeps the sender's half of the invariant |
| OrderedFlow.NextKeeps | flux/src/flux/flow/flow_table.cpp:1348-1422 | every step of the protocol, sends, drains, resends, refunds, arrivals, acknowledgements, reclaims, failures and losses, keeps the joint invariant |
| OrderedFlow.RunKeeps | flux/src/flux/flow/flow_table.cpp:1741-1764 | every state of every run satisfies the joint invariant |
| OrderedFlow.CursorArrivalDelivers | flux/src/flux/flow/flow_table.cpp:2326-2368 | in every state of every run the cursor packet arriving with room reaches the application at once |
| OrderedFlow.NeverStuck | flux/src/flux/flow/flow_table.cpp:1967-2099 | from every state of every run an open flow with something undelivered can, by one collect, one resend and one arrival of its own, hand over the next packet |
| OrderedFlow.AckSettlesSeen | flux/src/flux/flow/flow_table.cpp:1080-1208 | an acknowledgement of a window with no more runs than it can name, applied as it is built, leaves nothing in flight that was delivered or is held |
| UnorderedFlow.AtMostOnce | flux/src/flux/flow/flow_table.cpp:2287-2324 | on a reliable unordered flow each stamped sequence is delivered at most once, with the body it was stamped with |
| UnorderedFlow.DiscardedMeansDelivered | flux/src/flux/flow/flow_table.cpp:166-181 | a packet is discarded, as seen or below the floor, if and only if the application already has it |
| UnorderedFlow.UndeliveredRetained | flux/src/flux/flow/flow_table.cpp:364-365 | while open, an undelivered stamped sequence still has its entry and its copy |
| UnorderedFlow.NextKeeps | flux/src/flux/flow/flow_table.cpp:2287-2324 | every step keeps the unordered invariant |
| UnorderedFlow.AckClears | flux/src/flux/flow/flow_table.cpp:1107-1160 | such an acknowledgement leaves no ring entry for a sequence inside the window that was delivered |
| UnorderedFlow.NewArrivalDelivers | flux/src/flux/flow/flow_table.cpp:2287-2324 | in every run an arrival with room is delivered exactly when the application does not have it |
| UnorderedFlow.NeverStuck | flux/src/flux/flow/flow_table.cpp:1967-2099 | any stamped packet the application lacks is three steps of an open flow away from it, in every state of every run |
| FlowTypes.SameSlot | flux/include/flux/flow/flow.h:66-80 | two sequences less than a window apart that share a ring slot are equal |
| FlowTypes.MaskIsMod | flux/include/flux/flow/flow.h:66-70 | masking by a window less one is the remainder, for both window sizes |
| FlowData.DecodeEncode | flux/include/flux/flow/flow.h:158-214 | a flow data byte decodes to the mode, epoch and part it was made from |
| FlowData.EncodeDecode | flux/include/flux/flow/flow.h:158-214 | a byte is accepted exactly when some header encodes to it, and re-encodes to itself |
| FlowData.CompareEpochExact | flux/include/flux/flow/flow.h:228-236 | exactly which generation gaps the wrapping comparison reads right, among them every gap from four back to three ahead |
| Receiver.CommitBitsLaw | flux/src/flux/flow/flow_table.cpp:139-164 | committing a sequence adds it to the window's set and forgets exactly what slid out, however far the window jumps |
| Receiver.DeliverOrderedKeeps | flux/src/flux/flow/flow_table.cpp:2326-2398 | any arrival, genuine or not, leaves cursor, hold-back ring and bitmap consistent |
| Receiver.DeliverOrderedStream | flux/src/flux/flow/flow_table.cpp:2326-2428 | any packet of a stream, in any order and any number of times, makes the receiver hand over exactly the next stretch of the stream |
| Receiver.DeliverOrderedExact | flux/src/flux/flow/flow_table.cpp:2326-2428 | an arrival hands over something exactly when it is the cursor packet and there is room or a held run; then it is the packet and every held one up to the first gap, and the cursor moves by as many |
| Receiver.AckOwed | flux/src/flux/flow/flow_table.cpp:2326-2398 | every arrival counts towards the next acknowledgement, and one off the cursor asks for it at once, except a packet already held |
| Receiver.DeliverUnorderedExact | flux/src/flux/flow/flow_table.cpp:2287-2324 | without order: a reliable flow hands over what it has not seen, an unreliable one only what is newer than everything before, both only with room |
| Receiver.NewestWins | flux/src/flux/flow/flow_table.cpp:2287-2324 | over any arrivals the sequences an unreliable flow hands over strictly increase |
| Receiver.FewRunsNamed | flux/src/flux/flow/flow_table.cpp:216-237 | a list of ranges names everything the window has seen when the window has no more runs than the list may hold |
| Receiver.DeliverAhead | flux/src/flux/flow/flow_table.cpp:2369-2388 | ahead of the cursor, an occupied slot inside the window already holds this very sequence, and with room the packet ends up held |
| Receiver.DrainRunInv | flux/src/flux/flow/flow_table.cpp:2400-2428 | however much is held, a drain ends with nothing held at the cursor and with ring, count and bitmap consistent again |
| Receiver.DrainRunExact | flux/src/flux/flow/flow_table.cpp:2400-2428 | a drain takes every held packet from the cursor on and stops at the first sequence not held |
| Receiver.DrainRunStream | flux/src/flux/flow/flow_table.cpp:2400-2428 | what a drain hands over is exactly the stretch of the stream its cursor moved over |
| Receiver.DropHoldbackOrdered | flux/src/flux/flow/flow_table.cpp:1741-1764 | after a reclaim the sequences still marked seen are exactly the delivered ones |
| InAssociations.InAssociation.constructor | flux/src/flux/flow/flow_table.cpp:82-113 | a fresh receiving half |
| InAssociations.InAssociation.CommitSeen | flux/src/flux/flow/flow_table.cpp:139-164 | the in-place bitmap slide equals the commit on values |
| InAssociations.InAssociation.BuildAckRanges | flux/src/flux/flow/flow_table.cpp:216-237 | the ranges are maximal runs of the seen set, newest first, all of them or the newest ones when capped |
| InAssociations.InAssociation.DrainHoldbackRun | flux/src/flux/flow/flow_table.cpp:2400-2428 | the loop delivers and frees exactly the held run at the cursor |
| InAssociations.InAssociation.DeliverCursor | flux/src/flux/flow/flow_table.cpp:2326-2368 | the cursor packet enters when it frees a run or there is room, and its run follows it |
| InAssociations.InAssociation.HoldAhead | flux/src/flux/flow/flow_table.cpp:2369-2398 | a packet ahead is held in its own slot or refused |
| InAssociations.InAssociation.DeliverOrdered | flux/src/flux/flow/flow_table.cpp:2326-2398 | state, output and count equal ordered delivery on values |
| InAssociations.InAssociation.DeliverUnordered | flux/src/flux/flow/flow_table.cpp:2287-2324 | state and output equal unordered delivery on values |
| InAssociations.InAssociation.DeliverIn | flux/src/flux/flow/flow_table.cpp:2251-2275 | dispatch by mode, equal to delivery on values |
| InAssociations.InAssociation.DropInHoldback | flux/src/flux/flow/flow_table.cpp:1741-1764 | drops every held packet and exactly their bits, and reports how many |
| InAssociations.DeliverConsistent | flux/src/flux/flow/flow_table.cpp:2251-2275 | what the in-place methods require survives every delivery |
| OutAssociations.OutAssociation.constructor | flux/src/flux/flow/flow_table.cpp:37-80 | a fresh sending half |
| OutAssociations.OutAssociation.StampFlowPacket | flux/src/flux/flow/flow_table.cpp:372-396 | takes the next sequence; the entry carries it with the packet's size, epoch, copy and send time; ring, pool and the peer's counters move together |
| OutAssociations.OutAssociation.AdmitOut | flux/src/flux/flow/flow_table.cpp:1348-1422 | sends exactly when the flow is open, nothing waits, the ring has room, the bytes fit the budget, the packet fits the grant and the topped-up allowance covers it; otherwise queues, rejects, drops or evicts as on values; only a sent packet is charged, and the grant is never passed |
| OutAssociations.OutAssociation.ClaimWaiting | flux/src/flux/flow/flow_table.cpp:2195-2233 | claims if and only if the flow is open, the head is still the peeked packet, the ring has room and the peer admits it; otherwise nothing changes |
| OutAssociations.OutAssociation.ResolveOutEntry | flux/src/flux/flow/flow_table.cpp:1796-1844 | resolving is idempotent; the copy is kept exactly when an ordered flow's packet was acknowledged, else released |
| OutAssociations.OutAssociation.ResolveCovered | flux/src/flux/flow/flow_table.cpp:1107-1160 | everything covered resolves; bytes and packets leave the ring only into the feedback, every one of those bytes as acknowledged; the newest resolved entry and the largest covered sequence are found |
| OutAssociations.OutAssociation.DeclareLostBelow | flux/src/flux/flow/flow_table.cpp:1868-1927 | marks exactly the overtaken or overdue entries lost, with a free resend, and reports exactly the bytes it newly marks |
| OutAssociations.OutAssociation.ReleaseAckedRun | flux/src/flux/flow/flow_table.cpp:1929-1965 | frees exactly the acknowledged copies below the receiver's cursor |
| OutAssociations.OutAssociation.ApplyAckRanges | flux/src/flux/flow/flow_table.cpp:1080-1208 | one acknowledgement end to end with the loss delay of the peer's estimate: state as on values, bytes conserved into the feedback as acknowledged, the sample of the newest entry resolved, the losses proved among the rest, and the resolution time moved exactly when something was covered |
| OutAssociations.OutAssociation.RetransmitInflight | flux/src/flux/flow/flow_table.cpp:1967-2099 | dead exactly past the death bound; otherwise, by age alone, a packet in flight is resent from the probe interval on and left alone before it, given up then on an unreliable flow, and an acknowledged one is offered again only from the stall timeout on, unless it has no copy, the batch of sixteen is full or the clock refuses it; a probe is claimed exactly for an unacknowledged resend; bytes and packets conserved |
| Probing.AskedBeforeDeath | flux/src/flux/flow/flow_table.cpp:1967-2021 | a packet in flight when the peer last answered is sent again, before the flow can be declared dead, as many times as eighths of the deadline and scan gaps fit into it |
| Probing.EightProbes | flux/src/flux/flow/flow_table.cpp:1967-2021 | eight times, if the scan never tarries |
| OutAssociations.OutAssociation.RefundResendAttempts | flux/src/flux/flow/flow_table.cpp:1846-1866 | every entry in its own place is refunded once per mention of its sequence, floored at zero and due again, unless acknowledged; nothing else changes |
| OutAssociations.OutAssociation.DrainOutInflight | flux/src/flux/flow/flow_table.cpp:1698-1721 | empties the ring, releases exactly its copies, returns the live bytes and packets |
| OutAssociations.OutAssociation.DrainOutWaiting | flux/src/flux/flow/flow_table.cpp:1723-1739 | empties the waiting ring and releases exactly its copies |
| OutAssociations.OutAssociation.FailAssoc | flux/src/flux/flow/flow_table.cpp:1616-1651 | fails at most once, drains both rings and refunds what the ring still charged, saturating, packets only when bytes were |
| OutAssociations.FailRefunds | flux/src/flux/flow/flow_table.cpp:1642-1650 | as every packet has bytes, that refund is exactly the bytes and packets the ring charged |
| Sender.LossReported | flux/src/flux/flow/flow_table.cpp:1894-1926 | a declaration reports the bytes it newly marks, sees a loss exactly when it marks one, and leaves the rest of the feedback alone |
| Sender.LossExact | flux/src/flux/flow/flow_table.cpp:1894-1918 | an entry in flight is marked lost, once, exactly when a sequence three past it arrived, or any later one while it has been out longer than the loss delay |
| Sender.SampleExact | flux/src/flux/flow/flow_table.cpp:1161-1197 | a sample is taken exactly from an entry sent once at a known time, and is the time it was out less the hold |
| Sender.LargestExact | flux/src/flux/flow/flow_table.cpp:1107-1135 | the largest covered sequence is the highest in the ring below the cursor or in a range |
| Sender.AdmitExact | flux/src/flux/flow/flow_table.cpp:1348-1422 | when each verdict of the gate falls: nothing overtakes what waits, only a reliable flow rejects, only an unreliable one drops, and then its oldest |
| SenderFacts.AckSettles | flux/src/flux/flow/flow_table.cpp:1107-1160 | after an acknowledgement an entry is in flight if and only if it was, its sequence is at or above the reported cursor and in no range |
| Pacing.StaysRefused | flux/src/flux/flow/flow_table.cpp:284-341 | at one instant a packet the clock refuses stays refused through any refills and spends |
| WaitingRings.WaitingRing.Enqueue | flux/src/flux/flow/flow_table.cpp:420-432 | the ring buffer appends at the tail of a FIFO sequence |
| WaitingRings.WaitingRing.Dequeue | flux/src/flux/flow/flow_table.cpp:2195-2233 | the ring buffer takes from the head |
| Karn.NoAmbiguousSample | flux/src/flux/flow/flow_table.cpp:1107-1197 | any sample, in any reachable state, comes from a packet that left at most once and was never collected for a resend |
| Karn.NewestIsNewest | flux/src/flux/flow/flow_table.cpp:1107-1160 | the sampled entry is the newest one this acknowledgement resolves for the first time |
| Karn.FlightKeeps | flux/src/flux/flow/flow_table.cpp:1846-1927 | across stamping, declared loss, free and timed resends, saturating retries and refunds, an entry that looks clean was sent once |
| Accounting.BooksBalance | flux/src/flux/flow/flow_table.cpp:372-396 | in every history bytesInFlight and outstandingToPeer equal the live ring entries plus feedback not yet applied |
| Accounting.GuardsNeverFire | flux/src/flux/peer/congestion.cpp:119-126 | whatever is refunded was charged, so no saturating guard ever saturates |
| Accounting.ReleasedOnce | flux/src/flux/flow/flow_table.cpp:1567-1651 | a release, of copies a ring named or of a slot no ring names, takes only leased slots, and no ring entry names a released slot afterwards |
| Accounting.LeasesStand | flux/src/flux/flow/flow_table.cpp:1567-1844 | no other step ends a lease |
| Accounting.GatherConserves | flux/src/flux/flow/flow_table.cpp:1107-1160 | what stops being in flight is exactly what the feedback reports |
| Rtt.BucketsAreMinima | flux/include/flux/internal/rtt.h:137-190 | after every run of readings, refused ones included, the buckets hold the least accepted sample of each of the last three four-second spans |
| Rtt.WindowedMinimum | flux/include/flux/internal/rtt.h:82-91 | over every run of readings the remembered minimum is attained and is the minimum accepted sample of the last three spans |
| Rtt.SmoothedInRange | flux/include/flux/internal/rtt.h:163-183 | over every run of readings the smoothed value stays inside the range of accepted samples, and is zero exactly when there is none |
| Rtt.AfterAccepted | flux/include/flux/internal/rtt.h:137-190 | refused readings leave no trace in the estimate |
| Rtt.FoldExact | flux/include/flux/internal/rtt.h:163-190 | each accepted sample moves the smoothed value an eighth of the way, the variance a quarter, the hold at once up and an eighth down |
| Rtt.TimeoutMargin | flux/include/flux/internal/rtt.h:212-247 | without silence the timeout exceeds round trip and hold by the largest of four variances, a millisecond and an eighth of the round trip, and by no more, unless the ceiling cuts it |
| Rtt.BackoffExact | flux/include/flux/internal/rtt.h:233-247 | silence doubles the timeout each time it outlasts it, three times at most, never shortens it, and stops at the ceiling |
| Rtt.ProbesFitBound | flux/src/flux/flow/flow_table.cpp:1990-2000 | whatever the path and silence, eight probe intervals fit in the death bound of sixteen timeouts or the retry interval; the interval is at least the base timeout and is the backed-off timeout unless an eighth of the bound is less |
| Rtt.RttEstimate.MinRttMicros | flux/include/flux/internal/rtt.h:82-91 | the loop computes the least nonzero bucket |
| Rtt.RttEstimate.QueueMicros | flux/include/flux/internal/rtt.h:98-103 | smoothed round trip less the minimum, floored at zero |
| Rtt.RttEstimate.LatestQueueMicros | flux/include/flux/internal/rtt.h:110-115 | newest round trip less the minimum, floored at zero |
| Rtt.RttEstimate.Rotate | flux/include/flux/internal/rtt.h:149-160 | rotates once per whole span passed, however many |
| Rtt.RttEstimate.Sample | flux/include/flux/internal/rtt.h:137-190 | folds one measurement as the pure fold does, refuses out of band, and keeps every field in its bound |
| Rtt.RttEstimate.RetransmitTimeoutAt | flux/include/flux/internal/rtt.h:212-247 | the timeout `TimeoutMargin` and `BackoffExact` describe |
| Rtt.RttEstimate.LossDelayMicros | flux/include/flux/internal/rtt.h:256-269 | nine eighths of the larger of newest and smoothed round trip, or of the fallback, floored at a millisecond |
| Rtt.BackOff | flux/include/flux/internal/rtt.h:240-244 | one doubling per whole timeout of silence, three at most |
| Pacing.PacedRate | flux/src/flux/flow/flow_table.cpp:284-341 | from any refill, on a clock that never goes back, the bytes spent are at most the burst plus 1.25 times the budget bound times elapsed time over the smallest round trip |
| Pacing.GainedExact | flux/src/flux/flow/flow_table.cpp:284-310 | while the product fits its word a refill is worth 1.25 times the budget per round trip, to the byte |
| Pacing.AdmittedSoon | flux/src/flux/flow/flow_table.cpp:284-335 | no packet of a burst or less waits longer than its own bytes take at the paced rate |
| Peers.Peer.constructor | flux/src/flux/peer/peer_table.cpp:450-480 | a peer as it is registered |
| Peers.Peer.RefillPacing | flux/src/flux/flow/flow_table.cpp:284-325 | the refill on values, wrapping product included |
| Peers.Peer.PacingAllows | flux/src/flux/flow/flow_table.cpp:327-335 | true exactly when the allowance covers the packet or nothing is measured yet |
| Peers.Peer.SpendPacing | flux/src/flux/flow/flow_table.cpp:337-341 | spends, floored at zero |
| RobinHood.DistIsMasked | flux/src/flux/peer/peer_table.cpp:23-26 | the masked unsigned difference is the forward distance from the ideal bucket |
| RobinHood.ProbePath | flux/src/flux/peer/peer_table.cpp:33-47 | between its ideal bucket and its own, every entry is at least as displaced as a probe passing it |
| RobinHood.DispBelowGap | flux/src/flux/peer/peer_table.cpp:56-93 | displacement never outgrows the distance to an empty bucket |
| RobinHoodIndex.EarlyStop | flux/src/flux/peer/peer_table.cpp:33-47 | where the probe gives up, no match lies ahead |
| RobinHoodIndex.Index.FindPos | flux/src/flux/peer/peer_table.cpp:33-47 | terminates, and finds a match exactly when there is one |
| RobinHoodIndex.Index.Insert | flux/src/flux/peer/peer_table.cpp:56-93 | terminates, keeps the displacement order, adds exactly one entry |
| RobinHoodIndex.Index.RemoveAt | flux/src/flux/peer/peer_table.cpp:101-118 | backward shift keeps the order, removes exactly one entry, moves only the run behind it |
| MapIndexes.MapIndex.Find | flux/src/flux/peer/peer_table.cpp:33-47 | the index read as a finite map: finds a key exactly when it is mapped |
| MapIndexes.MapIndex.Insert | flux/src/flux/peer/peer_table.cpp:56-93 | adds one mapping |
| MapIndexes.MapIndex.RemoveAt | flux/src/flux/peer/peer_table.cpp:101-118 | removes one mapping |
| MapIndexes.TagIndex.Find | flux/src/flux/peer/peer_table.cpp:131-145 | finds a (tag, slot) pair exactly when the bag has it |
| MapIndexes.TagIndex.Insert | flux/src/flux/peer/peer_table.cpp:148-180 | adds one pair to the bag |
| MapIndexes.TagIndex.RemoveAt | flux/src/flux/peer/peer_table.cpp:183-199 | removes one pair from the bag |
| MapIndexes.TagIndex.ClearTags | flux/src/flux/peer/peer_table.cpp:968-987 | removes every entry of one slot and no other pair, even when the shifted run wraps round the array's end |
| MapIndexes.TagIndex.PeersByTag | flux/src/flux/peer/peer_table.cpp:794-888 | counts exactly the tag's buckets and lists the holders of distinct ones, as many as max allows; nothing for a zero tag or no room |
| PeerTables.LoadLeavesVacancy | flux/src/flux/peer/peer_table.cpp:316-338 | the load cap always leaves an empty bucket |
| PeerTables.PeerTable.constructor | flux/src/flux/peer/peer_table.cpp:316-361 | an empty table whose three indexes agree |
| PeerTables.PeerTable.IsLive | flux/src/flux/peer/peer_table.cpp:513-524 | a slot is live exactly when its recorded address maps back to it |
| PeerTables.PeerTable.RegisterPeer | flux/src/flux/peer/peer_table.cpp:380-500 | adds exactly one peer in a free slot, or fails for the stated reason and changes nothing |
| PeerTables.PeerTable.BindId | flux/src/flux/peer/peer_table.cpp:502-553 | gives a live peer an id it is then found by; every error exactly when its cause holds |
| PeerTables.PeerTable.RemovePeer | flux/src/flux/peer/peer_table.cpp:555-602 | exactly this peer and its tags are gone; the id's position is always found |
| PeerTables.PeerTable.RemovePeerById | flux/src/flux/peer/peer_table.cpp:604-644 | the same, by id; the address's position is always found |
| PeerTables.PeerTable.DrainAndFree | flux/src/flux/peer/peer_table.cpp:989-1005 | returning a removed slot leaves every peer and index as it was; with an event unread the lease stays |
| PeerTables.PeerTable.ClearEmitting | flux/src/flux/peer/peer_table.cpp:1007-1020 | delivering the event ends a lease held only for it, and no other |
| PeerTables.PeerTable.UpdateAddress | flux/src/flux/peer/peer_table.cpp:646-702 | re-files a live peer, never displaces another; every error exactly when its cause holds |
| PeerTables.PeerTable.BindTag | flux/src/flux/peer/peer_table.cpp:704-748 | adds one pair for a live peer; every error exactly when its cause holds |
| PeerTables.PeerTable.UnbindTag | flux/src/flux/peer/peer_table.cpp:750-777 | removes one pair; a peer sharing the tag keeps its own |
| PeerTables.PeerTable.UnbindTags | flux/src/flux/peer/peer_table.cpp:779-792 | removes every tag of one slot and no other pair |
| PeerTables.TakenIsIndexed | flux/src/flux/peer/peer_table.cpp:398-415 | a live peer answers to an address or id exactly when an index has it |
| PeerTableModel.RegisteredAgrees | flux/src/flux/peer/peer_table.cpp:380-500 | registering keeps indexes, tags and records in agreement and adds one peer |
| PeerTableModel.BoundAgrees | flux/src/flux/peer/peer_table.cpp:541-548 | binding an id keeps agreement |
| PeerTableModel.RemovedAgrees | flux/src/flux/peer/peer_table.cpp:588-597 | removal keeps agreement |
| PeerTableModel.MovedAgrees | flux/src/flux/peer/peer_table.cpp:686-698 | a move keeps agreement |
| PeerTableModel.TaggedAgrees | flux/src/flux/peer/peer_table.cpp:704-792 | tags change freely as long as they belong to live peers |
| PeerTableModel.DrainedAgrees | flux/src/flux/peer/peer_table.cpp:989-1005 | freeing a dead slot keeps agreement |
| PeerTableModel.IdsWithin | flux/src/flux/peer/peer_table.cpp:487-495 | ids never outnumber addresses, so the id index is no fuller than the address index |
| SeqlockSafety.IndexStands | flux/src/flux/peer/peer_table.cpp:487-493 | the condition the writer closes the version on is what the in-place index keeps |
| SeqlockSafety.NextInv | flux/src/flux/peer/peer_table.cpp:213-308 | every step of the writer, the drains and the readers keeps the invariant |
| SeqlockSafety.RunInv | flux/src/flux/peer/peer_table.cpp:213-308 | every state of every interleaving satisfies it |
| SeqlockSafety.HandleIsMapped | flux/src/flux/peer/peer_table.cpp:237-252 | a returned handle comes from an index unchanged since the lookup began; its slot is live, its record carries the key, and the key is mapped to it if and only if the slot is not mid-move to that key |
| SeqlockSafety.HandleIsMappedWithoutCollision | flux/src/flux/peer/peer_table.cpp:237-252 | where no other key shares the hash, a handle always names the mapped slot |
| SeqlockSafety.HeldSlotStays | flux/src/flux/peer/peer_table.cpp:989-1005 | while a handle is held its slot is not released and its record keeps the key |
| SeqlockSafety.MissIsAbsence | flux/src/flux/peer/peer_table.cpp:266-308 | NotFound means the key was not mapped at the re-check, unless its slot was being moved off the key; under the writer lock there is no exception |
| SeqlockSafety.StoppedProbe | flux/src/flux/peer/peer_table.cpp:228-262 | a probe that stops has passed the key's bucket or the key has none |
| SeqlockSafety.FailedVerify | flux/src/flux/peer/peer_table.cpp:686-691 | a record failing the key check under the key's own entry is mid-move |
| SeqlockSafety.CollidingMoveFindsEarly | flux/src/flux/peer/peer_table.cpp:686-698 | a concrete run in which a lookup of the new, colliding address returns a handle before the index maps it |
| CertStores.CertStore.constructor | flux/src/flux/crypto/cert_store.cpp:33-63 | an empty store |
| CertStores.CertStore.Add | flux/src/flux/crypto/cert_store.cpp:77-180 | stores or replaces in place; refused exactly when the tag is new and the store full |
| CertStores.CertStore.Check | flux/src/flux/crypto/cert_store.cpp:182-274 | Trusted, Mismatch or NotFound exactly by what was last added for the tag |
| CertStores.CertStore.ResolveSlot | flux/src/flux/crypto/cert_store.cpp:276-294 | a hit exactly when the slot's certificate carries the tag |
| CertStores.ReplacedStores | flux/src/flux/crypto/cert_store.cpp:95-107 | replacing in place changes the answer for that tag only |
| CertStores.AddedStores | flux/src/flux/crypto/cert_store.cpp:129-170 | a new slot adds the answer for that tag only |
| Poly1305.Multiply | external/monocypher/monocypher.c:319-343 | no product or sum leaves its word, and the limbs are (h + c) * r modulo 2^130 - 5 |
| Poly1305.Carry | external/monocypher/monocypher.c:345-358 | the carry pass keeps the residue and brings h back under the stated bound |
| Poly1305.Context.constructor | external/monocypher/monocypher.c:367-376 | r clamped as the standard requires of its bytes, pad loaded, nothing absorbed |
| Poly1305.Context.PolyBlocks | external/monocypher/monocypher.c:311-365 | every block multiplies the accumulator as the standard says, and the bound on h is kept |
| Poly1305.Context.Update | external/monocypher/monocypher.c:378-412 | absorbs the bytes onto the message so far, wherever the cut falls |
| Poly1305.Context.Final | external/monocypher/monocypher.c:414-441 | the tag of section 2.5 of RFC 8439 for the whole message |
| Poly1305.Emit | external/monocypher/monocypher.c:425-440 | the final subtraction happens exactly when needed, and the bytes are the low 128 bits of accumulator plus pad |
| Poly1305.AuthenticatePieces | external/monocypher/monocypher.c:378-441 | for every message, key and way of cutting it into updates, the tag is the standard's |
| Poly1305.Authenticate | external/monocypher/monocypher.c:443-450 | the one-shot form computes the same tag |
| Poly1305.ClampIsClamp | external/monocypher/monocypher.c:374-375 | the limb masks clear exactly the bits the standard names in the bytes |
| Poly1305.MasksAreRemainders | external/monocypher/monocypher.c:319-323 | the masks and shifts are the remainders and quotients used here |
| Poly1305.FullBlocks | external/monocypher/monocypher.c:402-403 | whole blocks absorbed are whole blocks accumulated |
| Poly1305.ShortBlock | external/monocypher/monocypher.c:419-423 | the padded last block without the extra bit is the standard's short block |
| Poly1305.ProbeDecides | external/monocypher/monocypher.c:425-434 | adding five carries past 2^130 exactly when the modulus must be subtracted |
| Congestion.Socket.constructor | flux/src/flux/socket/socket.cpp:323-336 | the floor is never under one packet and the ceiling is every window full, in 32 bits |
| Congestion.Socket.Measure | flux/src/flux/peer/congestion.cpp:119-141 | frees what resolved and folds the sample |
| Congestion.Socket.JudgeStarvation | flux/src/flux/peer/congestion.cpp:157-215 | expiry, candidacy, relapse and verdict as on values |
| Congestion.Socket.CollapseIfDead | flux/src/flux/peer/congestion.cpp:221-261 | past three base timeouts of silence the budget goes to the floor and the verdict is forgotten |
| Congestion.Socket.JudgeLoss | flux/src/flux/peer/congestion.cpp:278-343 | congestion or noise, by the queue, the bite and the frozen level |
| Congestion.Socket.Trim | flux/src/flux/peer/congestion.cpp:343-377 | one cut, the epoch advanced, the curve re-anchored only for congestion |
| Congestion.Socket.Recover | flux/src/flux/peer/congestion.cpp:388-441 | exit, hold or ramp under the frozen level |
| Congestion.Socket.SlowStart | flux/src/flux/peer/congestion.cpp:448-514 | doubles while clean, holds a sighting, ends when it is confirmed |
| Congestion.Socket.Avoid | flux/src/flux/peer/congestion.cpp:522-553 | follows the curve a packet at a time, never into a standing queue |
| Congestion.Socket.ApplyCongestion | flux/src/flux/peer/congestion.cpp:113-554 | one round of feedback in place equals the one on values |
| CongestionLaws.SlowStartExact | flux/src/flux/peer/congestion.cpp:448-514 | below the threshold all that was acknowledged is added, up to the ceiling, while no queue shows; a sighting stops growth and, after two round trips, ends slow start |
| CongestionLaws.AvoidExact | flux/src/flux/peer/congestion.cpp:522-553 | at or past the threshold a call adds what the target is ahead by, at most a packet, and nothing while a queue stands |
| CongestionLaws.StarvedExact | flux/src/flux/peer/congestion.cpp:388-441 | under a verdict the budget ramps below the frozen level and holds above it, and the verdict ends exactly after eight clear round trips and half a second |
| CongestionLaws.VerdictExact | flux/src/flux/peer/congestion.cpp:157-215 | a peer is judged starved exactly when an acknowledgement finds path queued and budget small, both for sixteen round trips and a quarter second |
| CongestionLaws.RelapseExact | flux/src/flux/peer/congestion.cpp:160-190 | within thirty seconds of an exit one such acknowledgement brings the verdict back with its references |
| CongestionLaws.TrimExact | flux/src/flux/peer/congestion.cpp:278-377 | thirty percent or five, by what was measured, queued and lost; only the larger cut ends slow start and restarts the curve |
| CongestionLaws.FloorExact | flux/src/flux/peer/congestion.cpp:221-261 | a probe unanswered past three base timeouts sends the budget to the floor and forgets the verdict; before that the budget stands |
| CongestionLaws.OpeningRamp | flux/src/flux/peer/congestion.cpp:448-514 | over every run from registration without loss or queue the budget is the opening window and every byte acknowledged, up to the ceiling |
| CongestionModel.BudgetInRange | flux/src/flux/socket/socket.cpp:323-336 | a configuration keeps the budget within floor and ceiling over every run of feedback if and only if it asks for a floor of at most the opening window; otherwise one idle call already ends out of range |
| CongestionModel.LimitsExact | flux/src/flux/socket/socket.cpp:323-336 | the floor and ceiling a configuration gives, in packets and windows |
| CongestionModel.RunConsistent | flux/src/flux/peer/congestion.cpp:157-441 | over every run a verdict or a recent exit carries both nonzero frozen references, nothing else does, and the two never hold at once |
| CongestionModel.AppliedKeeps | flux/src/flux/peer/congestion.cpp:113-554 | one round keeps the budget in range |
| CongestionModel.AppliedConsistent | flux/src/flux/peer/congestion.cpp:113-554 | one round keeps the starvation fields consistent |
| CongestionModel.AtMostOneReduction | flux/src/flux/peer/congestion.cpp:221-378 | a call reduces the budget by at most one cut, or to the floor on a dead path, and never without moving the epoch |
| CongestionModel.EpochCountsReactions | flux/src/flux/peer/congestion.cpp:221-378 | every call moves the epoch by the number of reactions it makes, modulo 256 |
| CongestionModel.RunEpoch | flux/src/flux/peer/congestion.cpp:221-378 | over every run of feedback from registration the epoch is the number of reactions so far modulo 256 |
| Epochs.RunInv | flux/src/flux/flow/flow_table.cpp:372-396 | in every history of stamps, losses and feedback over any number of flows, the epoch counts reactions, every entry carries the epoch of its stamping and every report the epoch of one of its losses |
| Epochs.DeclareCarries | flux/src/flux/flow/flow_table.cpp:1920-1925 | the fold over declared losses reports the newest stamp when no two lie 128 reactions apart, and some loss's own stamp always |
| Epochs.NewerKept | flux/src/flux/flow/flow_table.cpp:1922-1924 | the wrapping comparison keeps the newer of two stamps if and only if they are fewer than 128 apart modulo 256 |
| Epochs.TrimsByGap | flux/src/flux/peer/congestion.cpp:268-269 | in every history, whether a report trims is decided by the gap of one of its losses, the newest when they are close: it trims exactly when that gap is zero or above 128 modulo 256 |
| Epochs.OneReactionPerEvent | flux/src/flux/peer/congestion.cpp:221-378 | in every history, while all its losses were stamped within the last 127 reactions, a report trims if and only if one of them was stamped since the last reaction, and the call reacts at most once |
| Epochs.StaleLossTrims | flux/src/flux/peer/congestion.cpp:268-269 | a history from registration in which the first packet, lost 129 reactions later, cuts the budget again |
| CongestionModel.GrowsKeeps | flux/src/flux/peer/congestion.cpp:380-553 | growth never reduces the budget, never passes the ceiling, never moves the epoch |
| CongestionModel.GrownWithin | flux/src/flux/peer/congestion.cpp:54-63 | the wrapping 32-bit sum with its check is addition capped at the ceiling |
| CongestionCurve.CubicMonotone | flux/include/flux/internal/congestion_curve.h:41-79 | the window never decreases with elapsed time |
| CongestionCurve.CubicNeverBelowRetained | flux/include/flux/internal/congestion_curve.h:49-79 | at every instant the window is at least wMax less its thirty percent |
| CongestionCurve.CubicMeetsWMax | flux/include/flux/internal/congestion_curve.h:52-79 | it equals wMax at K milliseconds and lies on the right side of it before and after |
| CongestionCurve.CubicAtSeconds | flux/include/flux/internal/congestion_curve.h:41-79 | at every whole second from K the window is wMax plus or minus 480 times the cube of the seconds |
| CongestionCurve.KTight | flux/include/flux/internal/congestion_curve.h:49-56 | K is the last millisecond that does not overshoot what the loss took |
| CongestionCurve.TargetExact | flux/include/flux/internal/congestion_curve.h:82-98 | the target is the larger of the curve and the line of 635 bytes a round trip |
| CongestionCurve.CubicOverflow | flux/include/flux/internal/congestion_curve.h:61-75 | every product formed fits a signed 64-bit word if and only if the window is zero, which forms none, or at most 267844 ms have passed since K |
| CongestionCurve.OverflowExample | flux/include/flux/internal/congestion_curve.h:61-75 | an elapsed time past which the clamp does not help |
| CongestionCurve.RootArgumentFits | flux/include/flux/internal/congestion_curve.h:49-56 | the root's argument does not wrap and lies where the root is exact |
| CongestionCurve.TargetMonotone | flux/include/flux/internal/congestion_curve.h:82-98 | the larger of the curve and the Reno line starts at what the loss left and never turns back |
| CongestionCurve.QueueTarget | flux/include/flux/internal/congestion_curve.h:23-27 | an eighth of the minimum round trip, floored at a millisecond |
| IntegerMath.CubeRoot | external/common/include/common/math.h:24-32 | the exact integer cube root if and only if n is below 11 * 2^60, and too large otherwise |
| IntegerMath.NextPowerOfTwo | external/common/include/common/math.h:6-15 | the least power of two at or above n up to 2^31, one for zero, and zero above |
| ReplayWindows.ReplayWindow.Reset | flux/src/flux/internal/replay_window.cpp:5-9 | nothing accepted |
| ReplayWindows.ReplayWindow.Slide | flux/src/flux/internal/replay_window.cpp:34-47 | the descending in-place loop moves every word from its old source |
| ReplayWindows.ReplayWindow.Advance | flux/src/flux/internal/replay_window.cpp:20-52 | a new highest counter joins the represented set |
| ReplayWindows.ReplayWindow.Accept | flux/src/flux/internal/replay_window.cpp:11-64 | true exactly when the counter is nonzero, not older than the window and never accepted, over every history since the reset |
| ReplayWindows.Screen | flux/src/flux/internal/replay_window.cpp:5-64 | over any run of arrivals from a fresh window, each answer is yes exactly for a counter fresh against everything before it, and no counter is answered yes twice |
| ReplayWindows.AcceptedAtMostOnce | flux/src/flux/internal/replay_window.cpp:11-64 | no history accepts one counter twice |
| ReplayWindows.MovedBit | flux/src/flux/internal/replay_window.cpp:34-47 | word by word shifting moves the whole map by diff bits |
| ReplayWindows.WindowDecides | flux/src/flux/internal/replay_window.cpp:55-64 | the high-water mark and one bit decide freshness against the whole history |

## Left out

- Socket orchestration, handshake, address migration, grants, transfers, events, flow batching and packet byte layouts other than the flow data byte.
- Encryption, hashing and key derivation other than Poly1305, and the wiping of buffers after use.
- C++ memory orders and the 32-bit wrap of the version: readers and writers interleave under sequential consistency with an unbounded version.
- Sequence wrap: runs stay below 2^32 - 1024 sequences, since the receiver compares sequences as plain unsigned values.
- Reopening a flow: the end-to-end theorems cover one generation of one association each way.
- Eventual delivery under a fair network and scheduler: what is proved is that copies are retained, that an open flow can always take the next packet over in three steps, and how often a scan resends.
- Ready lanes are taken never to fill; room for a packet is an input.
- The word packing of the flow's seen bitmap, which is a sequence of bits here.
- Wall-clock bookkeeping of associations other than send times (waiting stamps, acknowledgement deadlines, jam detection); a reclaim may happen at any step.
- The delivery-rate record: whether the path could overflow and whether loss is above tolerance are inputs of one round of feedback.
- The slot pools' own free lists; a pool is the set of its leased slots with a reader/writer lock per slot.
- MapIndexes.TagIndex.PeersByTag: does not model concurrent writers; the tag index is read whole.
- CertStores.CertStore.Check: does not model an Add racing it; `SeqlockSafety` covers the readers of the peer indexes only.
- PeerTables.PeerTable.DrainAndFree: whether an event is unread is an input, and so is the flag `ClearEmitting` reads back.
- Epochs.RunInv: what acknowledgements, resends and drains do to a ring is any change that stamps nothing, and which sequence proves a loss is an input.
- CollectAddresses, Shutdown, allocation failure and the not-initialised errors.
- Congestion.Socket.Avoid: past the range of `CongestionCurve.CubicOverflow` the source's arithmetic is undefined, and the model follows the unbounded curve.
- CongestionCurve.TargetMonotone: does not model the 64-bit wrap of the Reno line, which needs centuries of elapsed time.
- SeqlockSafety.NextInv: the writer's stores between the two version bumps are arbitrary bucket stores that end in an ordered index with the operation's mapping; that the real stores end there is what `MapIndexes.MapIndex.Insert` and `MapIndexes.MapIndex.RemoveAt` prove.
- Acknowledged entries with a cleared send time are skipped by the re-offer, as in the source.
