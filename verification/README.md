# EIGRP daemon: verified model

A Dafny model of the parts of an EIGRP daemon (RFC 7868) whose correctness depends on several functions at
once, with proofs of what they keep. `dafny verify dfyconfig.toml` checks the whole project.

- **DUAL** (`Metric`, `Topology`, `TopologyTable`, `Dual`, `Fsm`, `DualRuns`, `DualPassive`, `DualRules`,
  `DualLimits`, `DualWitness`).
  `TopologyTable` and `Fsm` are the prefix descriptor and the event handlers, overwritten in place;
  `Dual` is one flat transition table, with the nested dispatch of the DINC handler resolved.
  `Fsm.HandleEvent` proves that the handlers compute the table, and the other files prove what the table
  keeps over every run of messages, added descriptors and packetizer steps. `DualRules` restates the table as
  rules over fields. `DualWitness` holds concrete runs.
- **Pending work** (`Bookkeeping`, `NoLostWork`, `FreedWork`). The change list with its duplicates, the two loops
  that drain it while unlinking from it, and the list together with the topology table and the packetizer's
  queue over every run, freed prefixes included.
- **Reliable transport** (`PacketQueue`, `Transport`, `Delivery`, `SequenceNumbers`). The doubly linked queue
  against a sequence, one adjacency as a state machine, and the functions that work on the linked queue.
- **TLVs** (`Wire`, `Stream`, `Tlv2`, `Tlv1`, `TlvLayout`, `Codec`, `Codec1`, `Encoder`, `Receive`,
  `Framing`). Both codecs over plain bytes and on the cursor stream, the receive loops, and the framing check of a
  packet.
- **Interfaces** (`EncoderCache`, `EotPacking`, `EotSizes`, `FullUpdate`). The cached aggregate encoder, and the
  full-table update from the sender's table to the receiver's.

## What does not hold

Where the code does less than one would expect, the model follows the code, and a lemma gives the exact
condition or a concrete case:

- The update loop stops after its first route, so of a full table a wide peer learns one route per packet
  (`Receive.UpdateTakesFirst`, `FullUpdate.FullTableArrives`, `FullUpdate.OnlyOneRouteArrives`),
  and a QUERY from a mixed interface is lost on wide peers (`Receive.MixedQueryIsEmpty`).
- The classic decoder does not move past the next hop, so it reads the reliability as a prefix length
  (`Tlv1.ClassicMisreads`) and rejects every TLV with the default reliability
  (`Tlv1.DefaultReliabilityRejected`, `Receive.ClassicPeerGetsNothing`).
- The query and reply loops stop at an authentication TLV, which is always first (`Receive.QueryDelivers`).
- Freeing one unreachable descriptor withdraws all installed paths (`DualPassive.InstalledPaths`,
  `DualWitness.PathsVanish`).
- A prefix that is freed while listed more than once stays on the change list (`NoLostWork.FreesOnlyUnlisted`,
  `FreedWork.FreedEntryRemains`), and a REPLY can wait for a prefix that the same call has freed
  (`FreedWork.WorkLivesExactly`, `FreedWork.FreedReplyRemains`).
- The successor assertion can fail (`DualLimits.AbortsByEntry`, `DualWitness.AssertionFails`), and a computation
  can end before anybody was asked (`DualLimits.UnaskedReplyEnds`, `DualWitness.NobodyAsked`).
- The room reserved for a route is too small for wide and for external routes
  (`EotPacking.ReserveCoversExactly`, `EotSizes.OverrunsExactly`).
- An INIT packet with sequence number zero is never acknowledged (`Transport.ZeroInitStalls`), and a full-table
  update can leave the counter at zero (`EotPacking.ZeroLeftExactly`).
- A neighbour that changes its TLV version while UP leaves the encoder cache wrong
  (`EncoderCache.RebindAgrees`).
- Distances are cut to 32 bits, so a route with the infinite delay looks near (`Metric.PoisonedNearerExactly`,
  `Metric.PoisonedFarExactly`), a filtered one included (`Dual.FilteredFarExactly`).

## Model

| member | source | states |
|---|---|---|
| `Metric.CompositeExact` | eigrpd/eigrp_metric.c:55-86 | for 32-bit components and any K values, and for 48-bit components with K4 = K5 = 0, the 64-bit composite is the integer formula: no intermediate wraps |
| `Metric.CompositeWithoutWrap` | eigrpd/eigrp_metric.c:55-86 | the composite equals the formula for any metrics whose sum and product fit in 64 bits |
| `Metric.CompositeMonotone` | eigrpd/eigrp_metric.c:55-86 | on the same metrics the composite never decreases when bandwidth or delay grows |
| `Metric.StoredExactly` | eigrpd/eigrp_metric.c:88-108 | the 32-bit distance of the topology table is the formula if and only if the formula fits in 32 bits |
| `Metric.PoisonedStored` | eigrpd/eigrp_metric.c:88-108 | under the default K values and for 32-bit components, the infinite delay is stored as the scaled bandwidth less one, and as infinitely far if and only if there is no bandwidth component |
| `Metric.PoisonedNearerExactly` | eigrpd/eigrp_const.h:85 | poisoning a route with the infinite delay brings it nearer in the topology table if and only if it has a bandwidth component and was within reach; the 64-bit composite never gets smaller |
| `Metric.PoisonedFarExactly` | eigrpd/eigrp_metric.c:88-108 | priced over any link, a poisoned route looks infinitely far if and only if the total's bandwidth component and the link's scaled delay add up to zero in 32 bits |
| `Metric.PoisonedNeverFarByDefault` | eigrpd/eigrp_const.h:92-93 | over an interface with the default bandwidth and delay it never does |
| `Metric.PoisonedRouteLooksNear` | eigrpd/eigrp_const.h:85 | concrete metrics, as a corollary: poisoned, a route with a delay of 256 is stored nearer |
| `Dual.FilteredFarExactly` | eigrpd/eigrp_update.c:311-320 | a prefix that a filter rejects is recorded as infinitely far under the same condition, and only then |
| `Metric.DelayScalingRoundTrip` | eigrpd/eigrp_metric.c:41-53 | scaling a delay and back is the identity if and only if it is a non-zero 24-bit value |
| `Metric.FasterScalesSmaller` | eigrpd/eigrp_metric.c:11-24 | a faster interface never scales to a larger component, and none scales to zero |
| `Metric.TotalNoNearerExactly` | eigrpd/eigrp_metric.c:88-108 | under the default K values and for components of up to 48 bits, the total metric is no nearer than the reported one if and only if the reported scaled bandwidth is at most the link's scaled bandwidth plus delay |
| `Metric.WeightedSum` | eigrpd/eigrp_metric.c:55-86 | with K4 = K5 = 0 the composite is K1 * bandwidth + K2 * bandwidth / (256 - load) + K3 * delay |
| `Metric.ReliabilityScales` | eigrpd/eigrp_metric.c:75-81 | with K4 or K5 set it is the composite without them times K4 + K5 / reliability |
| `Metric.BandwidthScaled` | eigrpd/eigrp_metric.c:11-24 | a configured bandwidth scales to 2560000000 divided by it, rounded down but never to zero |
| `Metric.TotalAdds` | eigrpd/eigrp_metric.c:88-108 | a link adds its scaled delay and bounds the bandwidth component; every other field arrives as reported |
| `Metric.TotalOrderIrrelevant` | eigrpd/eigrp_metric.c:88-108 | two links cost the same in either order, wrap-around included |
| `Metric.MetricsSameFields` | eigrpd/eigrp_metric.c:110-124 | two metrics count as the same if and only if all fields but tag and flags are equal |
| `Topology.UpdateDistanceKeeps` | eigrpd/eigrp_topology.c:368-444 | on every path, early returns included, recording a metric keeps the list sorted, without duplicates and correctly priced, and carries every successor flag over |
| `Topology.MetricsRecorded` | eigrpd/eigrp_topology.c:393-431 | internal and external data of any prefix type: afterwards the descriptor carries the metrics of the message; if they are news, its reported distance is their composite, its distance that of the total over its link, it stands in the list in place of its predecessor, and the change is an increase if and only if the old reported distance was smaller; otherwise nothing changes |
| `Topology.ConnectedRecorded` | eigrpd/eigrp_topology.c:387-392 | connected data changes no descriptor and reports a decrease, or nothing for a connected prefix |
| `Topology.LookupFirst` | eigrpd/eigrp_topology.c:168-180 | the descriptor found for a neighbour is its first one |
| `Topology.UpdateDistanceIdempotent` | eigrpd/eigrp_topology.c:368-444 | recording the same metrics again changes neither list nor descriptor; the change reported the second time is "same" for internal data, for external data on an external prefix and for connected data on a connected prefix, and "decrease" otherwise |
| `Topology.SuccessorsMembers` | eigrpd/eigrp_topology.c:297-318 | the successor list holds exactly the flagged descriptors |
| `Topology.SuccessorsSorted` | eigrpd/eigrp_topology.c:297-318 | the successor list is sorted by distance and without duplicates |
| `TopologyTable.Prefix.Learn` | eigrpd/eigrp_update.c:291-335 | a prefix created by an UPDATE, filtered or not, starts as the `Learned` destination the run theorems start from |
| `TopologyTable.Prefix.UpdateDistance` | eigrpd/eigrp_topology.c:368-444 | the in-place update computes `Topology.UpdateDistance`: list, descriptor and kind of change, as `Topology.MetricsRecorded` and `Topology.ConnectedRecorded` describe them |
| `TopologyTable.Prefix.UpdateNodeFlags` | eigrpd/eigrp_topology.c:464-494 | the loop sets the two flags of every descriptor, and only those |
| `TopologyTable.Prefix.GetSuccessor` | eigrpd/eigrp_topology.c:297-318 | the loop returns the flagged descriptors in order, or no list when there is none |
| `TopologyTable.Prefix.GetSuccessorMax` | eigrpd/eigrp_topology.c:320-336 | dropping the tail one node at a time leaves the first `maxPaths` successors |
| `TopologyTable.Prefix.UpdateRoutingTable` | eigrpd/eigrp_topology.c:496-517 | zebra is handed the path set |
| `TopologyTable.Prefix.Unlink` | eigrpd/eigrp_topology.c:553-560 | the deletion loop over the list it shrinks removes exactly the unreachable descriptors |
| `TopologyTable.Prefix.UpdateTopologyTablePrefix` | eigrpd/eigrp_topology.c:553-569 | freeing any descriptor withdraws the installed paths; a prefix with infinite distance that is not connected is deleted |
| `DualPassive.PathSetCheapest` | eigrpd/eigrp_topology.c:297-336 | the installed paths are min(maxPaths, successors) distinct flagged successors, none dearer than a successor left out |
| `DualPassive.InstalledPaths` | eigrpd/eigrp_topology.c:496-569 | after a message that ends Passive zebra holds exactly the path set, if and only if the message freed no unreachable descriptor or the path set is empty |
| `DualWitness.PathsVanish` | eigrpd/eigrp_topology.c:222-232 | the last step of a run from a learned prefix, within the hypotheses of `InstalledPaths`, after which the prefix has a successor and zebra no path |
| `DualPassive.InstalledAreBest` | eigrpd/eigrp_topology.c:297-336 | unless the message freed a descriptor, the installed paths are feasible, within variance, at most maxPaths, and none is dearer than such a route left out |
| `Fsm.SelectorMatchesTable` | eigrpd/eigrp_fsm.c:83-141 | the selector never raises an event the table ignores in that state, and DINC only where its handler expects it |
| `Fsm.Instance.NbrCountGet` | eigrpd/eigrp_neighbor.c:305-321 | the nested loops count the UP neighbours |
| `Fsm.AnybodyUp` | eigrpd/eigrp_neighbor.c:305-321 | the count is positive if and only if some interface has a neighbour that is UP |
| `Fsm.GetFsmEvent` | eigrpd/eigrp_fsm.c:230-377 | the selector records the distance, takes the replier off the list, and names the event |
| `Fsm.EventNqFcn` | eigrpd/eigrp_fsm.c:402-425 | the handler carries out the flat verdict: go Active and ask, or settle at once when there is no neighbour |
| `Fsm.EventQFcn` | eigrpd/eigrp_fsm.c:427-447 | the same for a QUERY from the successor |
| `Fsm.EventKeepState` | eigrpd/eigrp_fsm.c:449-475 | in Passive it re-advertises exactly when the head is no longer what was advertised, with FD, RD and D the head's distance (`DualRules.FeasibleStaysPassive`), and answers a QUERY |
| `Fsm.EventLr` | eigrpd/eigrp_fsm.c:477-506 | it adopts the head, owes the old successor a REPLY in ACTIVE_3, and closes the prefix; it fails exactly when that successor is missing |
| `Fsm.EventDinc` | eigrpd/eigrp_fsm.c:508-523 | with its nested dispatch it does what one row of the flat table says |
| `Fsm.EventLrFcs` | eigrpd/eigrp_fsm.c:525-555 | it adopts the head, with FD the smaller of old FD and new distance |
| `Fsm.EventLrFcn` | eigrpd/eigrp_fsm.c:557-580 | it restarts the computation with FD, RD and distance untouched |
| `Fsm.EventQact` | eigrpd/eigrp_fsm.c:582-592 | only the origin flag changes |
| `Fsm.SelectJudges` | eigrpd/eigrp_fsm.c:230-377 | selector and dispatch table together decide what the flat table decides |
| `Fsm.RecordedReplays` | eigrpd/eigrp_fsm.c:508-523 | the message a nested dispatch sees again changes nothing when recorded again |
| `Fsm.Dispatch` | eigrpd/eigrp_fsm.c:383-396 | dispatch, nested dispatch included, terminates and carries out the verdict of the event |
| `Fsm.HandleEvent` | eigrpd/eigrp_fsm.c:383-396 | the handlers on the mutable prefix refine the flat transition table: new state, change list, queued replies |
| `DualRules.FeasibleStaysPassive` | eigrpd/eigrp_fsm.c:449-475 | Passive, and the head of the list as the message leaves it meets the feasibility condition: it stays Passive; FD, RD, D and the advertised metric stay too, or, if and only if the head's metric is no longer the advertised one, become the head's; a QUERY is answered to its sender, twice if there was something new |
| `DualRules.InfeasibleGoesActive` | eigrpd/eigrp_fsm.c:402-447 | Passive, the condition is not met and a neighbour is UP: ACTIVE_3 on a QUERY and ACTIVE_1 otherwise, with a QUERY due and nothing else changed |
| `DualRules.InfeasibleAloneSettles` | eigrpd/eigrp_fsm.c:402-447 | Passive, the condition is not met and nobody is UP: FD, RD and D become the head's distance at once |
| `DualRules.ActiveQuery` | eigrpd/eigrp_fsm.c:256-377 | Active, QUERY: a successor's turns ACTIVE_0 and ACTIVE_1 into ACTIVE_2 and is not answered yet; any other is answered to its sender and changes nothing |
| `DualRules.ActiveWaits` | eigrpd/eigrp_fsm.c:256-377 | Active, UPDATE, or REPLY with others still waited for: ACTIVE_1 becomes ACTIVE_0 and ACTIVE_3 becomes ACTIVE_2 if and only if the successor reports a larger distance; a SIA message changes nothing |
| `DualRules.LastReplyFeasible` | eigrpd/eigrp_fsm.c:525-555 | the last REPLY, the successor having got worse but the head meeting the condition: Passive with FD the smaller of old FD and new distance |
| `DualRules.LastReplyRestarts` | eigrpd/eigrp_fsm.c:557-580 | the condition not being met and a neighbour UP: the computation starts over with the same origin and FD, RD and D untouched |
| `DualRules.LastReplySettles` | eigrpd/eigrp_fsm.c:477-506 | in every other case the last REPLY makes FD, RD and D the head's distance, and a QUERY-originated computation owes the successor a REPLY |
| `DualRules.ReachableRemain` | eigrpd/eigrp_topology.c:553-560 | a message that ends a computation leaves exactly the descriptors within reach, in order, with recomputed flags |
| `DualRules.PassiveToPassive` | eigrpd/eigrp_fsm.c:449-475 | from Passive to Passive a message leaves FD, RD, D and the advertised metric as they were or makes the first three the distance of the head |
| `DualRules.FdNeverAbove` | eigrpd/eigrp_fsm.c:449-580 | for a prefix learned by UPDATE, FD never exceeds D, after any run |
| `DualRules.ReturnBounds` | eigrpd/eigrp_fsm.c:477-555 | a computation that ends never leaves FD above D, and raises FD only if it did not end by the feasibility condition |
| `DualRules.SuccessorsAreNearer` | eigrpd/eigrp_topology.c:464-494 | source-node condition: after any run from a learned prefix ending with a message and Passive, a flagged successor has reported less than FD, which is at most the distance the daemon advertises |
| `DualRules.LearnedSettled` | eigrpd/eigrp_update.c:291-335 | a learned prefix has one descriptor, its sender's, and FD, RD and D are its distance |
| `DualRules.IncomingCarries` | eigrpd/eigrp_reply.c:78-107 | a message built from a packet carries its metrics and kind, and is about a descriptor the sender has advertised, or a new one of its own |
| `DualRuns.ActiveStep` | eigrpd/eigrp_fsm.c:256-377 | one step loses nobody from the reply list but the neighbour that replied; only a REPLY leaving it empty ends Active |
| `DualRuns.ReplyBalance` | eigrpd/eigrp_fsm.c:256-377 | while Active, listed and asked neighbours are, as a multiset, still listed or have replied |
| `DualRuns.DiffusingComputationSafe` | eigrpd/eigrp_fsm.c:256-377 | over every run from any Active state the first return to Passive is a REPLY that empties the reply list, and everybody listed or asked meanwhile has replied as often as listed |
| `TopologyTable.Prefix.DescriptorLookup` | eigrpd/eigrp_topology.c:168-180 | the loop finds the first descriptor of a neighbour, or none if it has none |
| `Fsm.MessageFrom` | eigrpd/eigrp_reply.c:78-107 | the message of a received route is about the sender's descriptor, or about a new one that becomes the sender's |
| `DualRuns.ReplierIsSender` | eigrpd/eigrp_reply.c:78-107 | for messages built this way the neighbour taken off the reply list is the one that sent the REPLY |
| `DualRuns.EveryNeighbourReplied` | eigrpd/eigrp_fsm.c:256-377 | diffusing-computation safety over senders: by the first return to Passive every neighbour listed or asked meanwhile has sent a REPLY as often as it was listed |
| `DualRuns.ActiveFreezes` | eigrpd/eigrp_fsm.c:402-592 | a step that leaves the prefix Active, entering it included, changes neither FD, RD, D, the advertised metric nor any successor flag |
| `DualRuns.ActiveWindowFrozen` | eigrpd/eigrp_fsm.c:402-592 | these stay constant over any Active stretch, from the state before the step that entered it |
| `DualRuns.ReturnUsesEntryFd` | eigrpd/eigrp_fsm.c:477-555 | the FD a computation ends with is the new distance or the FD held on entry, if that is smaller |
| `DualRuns.StepFollowsArrow` | eigrpd/eigrp_fsm.c:15-51 | every step follows the state diagram, extended by the shortcuts an instance without neighbours takes |
| `DualRuns.OriginSticks` | eigrpd/eigrp_fsm.c:508-592 | from ACTIVE_2 or ACTIVE_3 no run reaches ACTIVE_0 or ACTIVE_1 without passing through Passive |
| `DualRuns.RecordedKeeps` | eigrpd/eigrp_fsm.c:246-250 | what the selector records before it decides keeps the list in order and the flags |
| `DualPassive.PassiveCoherence` | eigrpd/eigrp_fsm.c:449-555 | a message that ends Passive leaves D, RD and the head at the minimum distance, the advertised metric equal to the head's, and the cached flags equal to their definition |
| `DualPassive.StepKeepsInv` | eigrpd/eigrp_fsm.c:230-592 | every step keeps the invariant the coherence theorem needs |
| `DualPassive.LearnedStaysCoherent` | eigrpd/eigrp_update.c:291-335 | for a prefix learned by UPDATE this holds after any run |
| `DualPassive.FlagAllExact` | eigrpd/eigrp_topology.c:464-494 | recomputed flags: successor if and only if RD < FD, distance within variance and finite; feasible successor if and only if feasible and not successor |
| `DualLimits.AbortsByEntry` | eigrpd/eigrp_fsm.c:484-491 | in an Active stretch that no flagged descriptor joins, the last reply of a QUERY-originated computation fails the assertion if and only if no descriptor was flagged before the step that entered Active |
| `DualLimits.WindowNeverAborts` | eigrpd/eigrp_fsm.c:487-491 | it never fails in an Active stretch entered with a flagged successor |
| `DualLimits.FeasibleHasSuccessor` | eigrpd/eigrp_topology.c:464-494 | a destination whose head is feasible and within reach has a flagged successor after recomputation |
| `DualLimits.UnaskedReplyEnds` | eigrpd/eigrp_packetizer.c:225-228 | with an empty reply list a REPLY, whoever sent it, ends the computation if and only if the state is ACTIVE_1 or ACTIVE_3 and the successor has not got worse, or the head is feasible, or no neighbour is UP; otherwise the daemon asks anew |
| `DualLimits.NeedsAreListed` | eigrpd/eigrp_fsm.c:416-418 | a message adds needs only together with an entry of the change list, and reports a deleted prefix |
| `DualLimits.DroppedExactly` | eigrpd/eigrp_topology.c:565-568 | a message deletes the prefix if and only if it ends a computation, or settles one at once, with the recorded head infinitely far and the prefix not connected, all known before the handler runs; it has then listed the prefix, and queued one REPLY for it if and only if the computation was QUERY-originated |
| `DualWitness.ComputationEnds` | eigrpd/eigrp_fsm.c:477-506 | a run from a learned prefix whose Active part meets every hypothesis of the run theorems and ends, with both neighbours asked and both having replied |
| `DualWitness.NobodyAsked` | eigrpd/eigrp_packetizer.c:225-228 | the same prefix, reached by the same run, returns to Passive on a REPLY before anybody was asked |
| `DualWitness.AssertionFails` | eigrpd/eigrp_fsm.c:487-491 | two messages after a prefix was learned, a QUERY and a REPLY from its only neighbour, the assertion fails |
| `Bookkeeping.FirstsOnce` | eigrpd/eigrp_query.c:74-88 | the prefixes served by a walk are the listed ones that want service, each once |
| `Bookkeeping.FirstsAndRest` | eigrpd/eigrp_query.c:74-88 | what is unlinked and what stays add up to the list, as multisets |
| `Bookkeeping.WalkedShape` | eigrpd/eigrp_query.c:74-88 | after n visits exactly the first n places are dealt with, although nodes are unlinked during the walk |
| `Bookkeeping.QueryOne` | eigrpd/eigrp_query.c:74-88 | one visit queues one QUERY for a prefix that wants one and unlinks the node it visits |
| `Bookkeeping.QuerySendAll` | eigrpd/eigrp_query.c:64-91 | one QUERY per listed prefix wanting one, in list order, duplicates or not; none is left wanting one; those with nothing else to do are unlinked once |
| `Bookkeeping.DrainUpdates` | eigrpd/eigrp_update.c:674-680 | no listed prefix is left wanting an UPDATE; those with nothing else to do are unlinked once |
| `NoLostWork.BookStepKeeps` | eigrpd/eigrp_fsm.c:416-418 | every action keeps: a live prefix with pending work is on the change list |
| `NoLostWork.NoLostRequests` | eigrpd/eigrp_query.c:64-91 | this holds over every run of messages, drains, packetizer steps and deletions |
| `NoLostWork.ListStaysClean` | eigrpd/eigrp_topology.c:185-217 | over every run the list, and so every drain, meets live prefixes only, if and only if no message deletes a listed prefix, by the guard known before the message, and no other deletion meets one listed twice |
| `FreedWork.FreedEntryRemains` | eigrpd/eigrp_topology.c:204 | a two-step run, a prefix learned and withdrawn, after which the list refers to a freed prefix |
| `FreedWork.WorkLivesExactly` | eigrpd/eigrp_fsm.c:484-503 | for every action, exactly when it leaves a waiting QUERY or REPLY item pointing to a freed prefix in a queue that had none: it deletes a prefix an item points to, or ends a QUERY-originated computation by deleting the prefix the REPLY is for |
| `FreedWork.QueueStaysLive` | eigrpd/eigrp_packetizer.c:78-106 | over every run the packetizer meets live prefixes only, if and only if every action spares its queue |
| `FreedWork.FreedReplyRemains` | eigrpd/eigrp_fsm.c:484-503 | a three-step run, a prefix learned, withdrawn by a QUERY and then by the REPLY, after which the waiting REPLY points to a freed prefix |
| `FreedWork.NothingFreedTouched` | eigrpd/eigrp_packetizer.c:78-106 | until an action breaks one of the two conditions, no drain and no packetizer step reads a freed prefix |
| `NoLostWork.QueriesServedOnce` | eigrpd/eigrp_query.c:64-91 | after any run a drain queues exactly one QUERY for each prefix of the table that needs one and leaves none needing one |
| `NoLostWork.FreedStaysListed` | eigrpd/eigrp_topology.c:185-217 | a prefix freed by the handler that lists it is still referred to by the list if and only if it was listed before |
| `NoLostWork.RemovedStaysListed` | eigrpd/eigrp_topology.c:204 | deletion unlinks one occurrence: another remains if and only if there were two |
| `NoLostWork.FreesOnlyUnlisted` | eigrpd/eigrp_topology.c:185-217 | for every action, exactly when it leaves a freed prefix on a list that had none; the condition is on the state before the action |
| `PacketQueue.Queue.Enqueue` | eigrpd/eigrp_packet.c:790-805 | both pointer chains and the count stay consistent and the sequence grows by the packet |
| `PacketQueue.Queue.Dequeue` | eigrpd/eigrp_packet.c:1156-1174 | the oldest packet leaves, or nothing when there is none |
| `PacketQueue.Queue.Reset` | eigrpd/eigrp_packet.c:655-666 | every packet is freed, each after its link has been read, and the queue is empty |
| `PacketQueue.Queue.Next` | eigrpd/eigrp_packet.c:807-810 | the oldest packet |
| `PacketQueue.Queue.Appended` | eigrpd/eigrp_packet.c:790-805 | linking a packet behind the newest one keeps the two chains each other's reverse |
| `Transport.PlaceInOrder` | eigrpd/eigrp_update.c:409-437 | queueing a packet keeps delivery order and sends it only if it is alone |
| `Transport.AckKeeps` | eigrpd/eigrp_packet.c:121-153 | an acknowledgement keeps order and progress in both branches, the PENDING one included |
| `Transport.PeerStepKeeps` | eigrpd/eigrp_update.c:221-243 | every step of an adjacency keeps order and progress |
| `Transport.DeliveredInOrder` | eigrpd/eigrp_packet.c:121-153 | over every run accepted packets are the acknowledged ones followed by the queued ones, and exactly the acknowledged ones and the oldest waiting one were handed to output |
| `Transport.OldestWaitingWasSent` | eigrpd/eigrp_packet.c:710-730 | no stall: the oldest waiting packet has always been handed to output |
| `Transport.OnlyTailIsAcked` | eigrpd/eigrp_packet.c:121-141 | a packet leaves only as the oldest one, by an acknowledgement of its own non-zero sequence number |
| `Transport.MatchingAckRemoves` | eigrpd/eigrp_packet.c:121-153 | in any state, an acknowledgement of the oldest waiting packet by its non-zero number takes exactly that packet off the queue, and the one then oldest has been sent; a Pending peer comes UP and gets the full table |
| `Transport.OtherAckIgnored` | eigrpd/eigrp_packet.c:121-153 | any other acknowledgement changes nothing |
| `Transport.AcksCount` | eigrpd/eigrp_packet.c:121-153 | while a peer is neither lost nor restarted, one packet is acknowledged for each matching acknowledgement, and no accepted packet is forgotten |
| `Transport.QueueDrains` | eigrpd/eigrp_packet.c:121-153 | as many matching acknowledgements as packets were waiting get every one of them acknowledged, in order, and empty the queue if nothing was added |
| `Transport.AdjacencyBegins` | eigrpd/eigrp_update.c:221-243 | an UP peer that restarts, and a DOWN one whose Hello matches, is Pending with INIT alone waiting, and sent; a Pending one gets INIT only if none is awaited |
| `Transport.PendingCompletes` | eigrpd/eigrp_packet.c:131-139 | acknowledging its oldest packet brings a Pending peer UP if and only if that packet's sequence number is not zero |
| `Transport.ZeroInitStalls` | eigrpd/eigrp_packet.c:131-139 | with sequence number zero no run without losing the peer leaves Pending; `EotPacking.ZeroLeftExactly` says when the next INIT packet gets that number |
| `Delivery.SendReliably` | eigrpd/eigrp_packet.c:710-730 | the oldest packet is handed to the output queue |
| `Delivery.PlaceOnNbrQueue` | eigrpd/eigrp_update.c:409-437 | on the linked queue this is the `Place` step |
| `Delivery.PacketAck` | eigrpd/eigrp_packet.c:121-153 | on the linked queue this is the `Ack` step, with the acknowledged packet freed; `Transport.MatchingAckRemoves` and `Transport.OtherAckIgnored` say what the step does |
| `Delivery.AskAll` | eigrpd/eigrp_packetizer.c:225-228 | every UP neighbour of the interface goes on the reply list |
| `Delivery.UpIdsConcat` | eigrpd/eigrp_packetizer.c:225-228 | the neighbours asked for two lists are those of the first and then those of the second; with `UpIdsOne`, the UP ones in list order |
| `Delivery.DuplicateToAll` | eigrpd/eigrp_packetizer.c:240-264 | every UP neighbour gets its own duplicate, the others nothing, and one multicast is due if and only if some UP neighbour was idle |
| `Delivery.BuildQuery` | eigrpd/eigrp_packetizer.c:188-218 | a QUERY is built if and only if a neighbour is UP, the prefix has a successor and the encoder can encode its route; the number is taken before the encoder is asked |
| `Delivery.MulticastQuery` | eigrpd/eigrp_packetizer.c:220-264 | reply list, duplicates and output of a built QUERY |
| `Delivery.QueryInterfaceSend` | eigrpd/eigrp_packetizer.c:173-269 | both together: if no QUERY is built, neither reply list nor queues nor output change |
| `Delivery.Neighbor.Reset` | eigrpd/eigrp_neighbor.c:225-252 | going DOWN replaces the queue by a new empty one |
| `SequenceNumbers.Counter.Reserve` | eigrpd/eigrp_packet.c:744-759 | a reservation returns the next number and advances the counter past zero |
| `SequenceNumbers.ReservedAreFresh` | eigrpd/eigrp_packet.c:744-759 | no reserved number is zero and none repeats within 2^32 - 1 reservations |
| `Stream.Stream.GetL` | eigrpd/eigrp_tlv2.c:155-169 | a 32-bit read is the big-endian value of the next four bytes, inside the stream |
| `Stream.Stream.PutW` | eigrpd/eigrp_tlv2.c:379-431 | a 16-bit write appends two big-endian bytes and leaves what lies beyond alone |
| `Wire.NumBe` | eigrpd/eigrp_tlv2.c:74-88 | reading a big-endian field back gives the value cut to the field |
| `Wire.BeDigit` | eigrpd/eigrp_tlv2.c:84-88 | the most significant byte comes first |
| `Tlv2.RoundTrip` | eigrpd/eigrp_tlv2.c:257-431 | for every encodable route, whatever follows in the packet, the decoder moves past exactly the encoding and returns the normalised route |
| `Tlv2.LosslessExactly` | eigrpd/eigrp_tlv2.c:74-239 | the normalisation is the identity if and only if components are below 2^48 - 1, unsent address bytes are zero, and the fields the TLV does not carry have their defaults |
| `Tlv2.NormalisedOnce` | eigrpd/eigrp_tlv2.c:74-239 | a second round trip loses nothing more |
| `Tlv2.MetricRoundTrip` | eigrpd/eigrp_tlv2.c:90-153 | the metric section, with the 32-bit and 48-bit infinities exchanged |
| `Tlv2.AttributesSkipped` | eigrpd/eigrp_tlv2.c:122-127 | for every count n and every 2n bytes of attributes, the metric is read as without them, and what follows them is read next |
| `Tlv2.AttributesIgnored` | eigrpd/eigrp_tlv2.c:257-377 | a wide TLV with attributes gives the same route as the one without |
| `Tlv2.FilteredArrives` | eigrpd/eigrp_tlv2.c:394-399 | a route that the outbound filter rejects arrives with the infinite delay and otherwise as it would have |
| `Tlv2.ExternalRoundTrip` | eigrpd/eigrp_tlv2.c:155-185 | the exterior section, with originator 0 replaced by the router id and the tag dropped |
| `Tlv2.AddrRoundTrip` | eigrpd/eigrp_tlv2.c:187-239 | the destination, with unsent address bytes zero |
| `Tlv2.Decode` | eigrpd/eigrp_tlv2.c:257-377 | the decoder stays inside the packet, moves on whenever bytes remain, and stops at the end of the packet or where the TLV says it ends, always the latter when it returns a route |
| `TlvLayout.WideLayout` | eigrpd/eigrp_tlv2.c:379-431 | the offset of every section of a wide encoding |
| `TlvLayout.MetricLayout` | eigrpd/eigrp_tlv2.c:132-153 | the offset of every field of the wide metric section |
| `TlvLayout.ExternalLayout` | eigrpd/eigrp_tlv2.c:171-185 | the offset of every field of the wide exterior section |
| `TlvLayout.WideAcceptsExactly` | eigrpd/eigrp_tlv2.c:257-377 | for any bytes: which ones the wide decoder takes for a route, and where it stops |
| `TlvLayout.AddrLenLeast` | eigrpd/eigrp_tlv2.c:53-60 | a prefix length takes the least number of bytes that holds it |
| `Tlv1.Decode1` | eigrpd/eigrp_tlv1.c:313-444 | the same for the classic decoder |
| `TlvLayout.ClassicLayout` | eigrpd/eigrp_tlv1.c:446-516 | the offset of every section of a classic encoding |
| `TlvLayout.Metric1Layout` | eigrpd/eigrp_tlv1.c:197-216 | the offset of every field of the classic metric section |
| `TlvLayout.External1Layout` | eigrpd/eigrp_tlv1.c:159-171 | the offset of every field of the classic exterior section |
| `TlvLayout.Metric1RoundTrip` | eigrpd/eigrp_tlv1.c:173-216 | read from its own place, the classic metric section comes back with the delay as scaling leaves it and the bandwidth cut to 32 bits |
| `TlvLayout.External1RoundTrip` | eigrpd/eigrp_tlv1.c:143-171 | read from its own place, the classic exterior section comes back |
| `TlvLayout.ClassicAcceptsExactly` | eigrpd/eigrp_tlv1.c:313-444 | for any bytes: which ones the classic decoder takes for a route, and where it stops |
| `Tlv1.ClassicMisreads` | eigrpd/eigrp_tlv1.c:272-286 | for every encodable route, internal or external, the classic decoder returns a route if and only if the reliability is at most 32 and, taken for a prefix length, needs no more address bytes than the real one; every field of the route, the exterior ones included, is then the four-bytes-early one, and otherwise the rest of the packet is given up |
| `Tlv1.DefaultReliabilityRejected` | eigrpd/eigrp_const.h:94 | with reliability 255, the default, the packet is given up |
| `Tlv1.VectorArrivesExactly` | eigrpd/eigrp_tlv1.c:272-286 | delay and bandwidth of a route, internal or external, arrive if and only if the TLV is accepted, the delay is what the four bytes before the metric spell, and the bandwidth is the scaled delay |
| `Tlv1.DestArrivesExactly` | eigrpd/eigrp_tlv1.c:272-286 | the destination arrives if and only if the reliability equals the prefix length and the address repeats the bytes before it |
| `Tlv1.WithoutNextHop` | eigrpd/eigrp_tlv1.c:272-286 | of the internal routes without a next hop that leaves a delay of 1 with a bandwidth of 256 |
| `Tlv1.WideSkipsClassic` | eigrpd/eigrp_tlv2.c:294-300 | the wide decoder steps over a classic TLV and returns no route |
| `Tlv1.ClassicSkipsWide` | eigrpd/eigrp_tlv1.c:337-351 | the classic decoder steps over a wide TLV and returns no route |
| `Tlv1.BothDecodes` | eigrpd/eigrp_packet.c:87-110 | on the output of a mixed interface a wide decoder's second call returns the round-tripped route |
| `Codec.Get48` | eigrpd/eigrp_tlv2.c:74-82 | the byte loop reads the 48-bit big-endian value |
| `Codec.MetricDecode2` | eigrpd/eigrp_tlv2.c:90-130 | the metric section, with two bytes skipped for each attribute word (`Tlv2.AttributesSkipped`), read inside the TLV |
| `Codec.ExternalDecode2` | eigrpd/eigrp_tlv2.c:155-169 | the exterior section, read inside the TLV |
| `Codec.AddrDecode4` | eigrpd/eigrp_tlv2.c:187-216 | the destination, read inside the TLV |
| `Codec.Decoder2` | eigrpd/eigrp_tlv2.c:257-377 | the wide decoder restores the end of the stream on every path and computes `Tlv2.Decode` |
| `Codec1.Decoder1` | eigrpd/eigrp_tlv1.c:313-444 | the classic decoder restores the end of the stream on every path and computes `Tlv1.Decode1` |
| `Encoder.Put48` | eigrpd/eigrp_tlv2.c:84-88 | the byte loop appends the six low bytes, most significant first |
| `Encoder.PatchLength` | eigrpd/eigrp_tlv2.c:422-430 | patching the length changes the two length bytes and nothing else |
| `Encoder.Encoder2` | eigrpd/eigrp_tlv2.c:379-431 | given room for what it writes, the wide encoder appends the encoding and returns its length, or leaves the stream as it was; a filtered route becomes unreachable |
| `Encoder.Encoder1` | eigrpd/eigrp_tlv1.c:446-516 | the same for the classic encoder |
| `Encoder.EncoderBoth` | eigrpd/eigrp_packet.c:87-110 | both encodings or neither |
| `Encoder.Cut32` | eigrpd/eigrp_tlv1.c:197-216 | the classic encoder sends the low 32 bits of the bandwidth |
| `Receive.QueryReceive` | eigrpd/eigrp_query.c:109-155 | the loop ends on every packet and takes the routes before the first TLV without one |
| `Receive.UpdateReceive` | eigrpd/eigrp_update.c:246-338 | the loop ends on every packet, continuing past TLVs without a route |
| `Receive.UpdateTakesFirst` | eigrpd/eigrp_update.c:336 | an UPDATE yields its first route: all of its routes if and only if it has at most one |
| `Receive.QueryTakesPrefix` | eigrpd/eigrp_query.c:109-114 | a QUERY yields a prefix of its routes: all of them if and only if no TLV without a route precedes one |
| `Receive.QueryDelivers` | eigrpd/eigrp_packetizer.c:206-222 | a wide peer gets the routes of a QUERY or REPLY made of wide encodings, all, in order and normalised, if and only if the packet has no authentication TLV in front; of an authenticated one it gets nothing |
| `Receive.AuthStopsQuery` | eigrpd/eigrp_query.c:109-114 | whatever the version and whatever follows, nothing is taken out of a QUERY or REPLY with an authentication TLV in front |
| `Receive.AuthPassedByUpdate` | eigrpd/eigrp_update.c:246-252 | an UPDATE is read past its authentication TLV |
| `Receive.ClassicPeerGetsNothing` | eigrpd/eigrp_tlv1.c:423-444 | of a packet whose first route is a classic encoding with the default reliability a classic peer gets nothing |
| `Receive.UpdateDeliversFirst` | eigrpd/eigrp_update.c:246-338 | of an UPDATE made of wide encodings it gets the first only |
| `Receive.UpdatesDeliver` | eigrpd/eigrp_update.c:246-338 | a series of UPDATE packets made of wide encodings arrives complete if and only if no packet carries two routes |
| `FullUpdate.FullTableArrives` | eigrpd/eigrp_update.c:473-537 | the full-table update, packed as the daemon packs it, authenticated or not, reaches a wide peer complete if and only if the packing puts no two routes into one packet |
| `FullUpdate.OnlyOneRouteArrives` | eigrpd/eigrp_update.c:473-537 | with an MTU of at least header, authentication, 57 and 29 bytes, that is if and only if at most one route is sent |
| `Receive.MixedQueryIsEmpty` | eigrpd/eigrp_packet.c:87-110 | of a QUERY sent on a mixed interface a wide peer gets nothing, of an UPDATE the first route |
| `Framing.AuthTlvFind` | eigrpd/eigrp_packet.c:833-871 | the check succeeds if and only if the bytes after the header are a sequence of TLVs, and reports the last authentication TLV and whether it is the first TLV |
| `Framing.PartitionUnique` | eigrpd/eigrp_packet.c:833-871 | bytes are a sequence of TLVs in at most one way |
| `Framing.HelloWalk` | eigrpd/eigrp_hello.c:311-361 | on a checked packet longer than its header the walk reads inside the packet, visits the TLVs of the partition in order, and ends at size 0 unless a handler ends it |
| `Framing.FirstHelloRead` | eigrpd/eigrp_hello.c:311-314 | the first read is inside a checked packet if and only if the packet is longer than its header |
| `Framing.BareHeaderIsFramed` | eigrpd/eigrp_packet.c:843-848 | a packet that is only a header passes the check |
| `EncoderCache.CacheStepExact` | eigrpd/eigrp_interface.c:33-104 | each step keeps counters and encoder equal to a recount if and only if it binds no further neighbour to a full counter, rebinds no UP neighbour, and clears only without bound UP neighbours |
| `EncoderCache.CacheAgrees` | eigrpd/eigrp_neighbor.c:207-223 | over every run of such steps the counters equal a recount of the UP neighbours and the encoder is theirs |
| `EncoderCache.RebindAgrees` | eigrpd/eigrp_hello.c:182-205 | binding a version keeps the cache right if and only if the neighbour is not UP or has that version |
| `EncoderCache.EncoderServesPeers` | eigrpd/eigrp_interface.c:43-64 | the encoder speaks a version if and only if an UP neighbour of the interface needs it |
| `EncoderCache.Interface.EncoderSelect` | eigrpd/eigrp_interface.c:43-64 | the selected vector speaks a version if and only if that version's counter is not zero |
| `EncoderCache.UnbindUndoesBind` | eigrpd/eigrp_interface.c:66-104 | a departure undoes an arrival, counters and vector, if and only if the arrival did not wrap the 16-bit counter |
| `EncoderCache.Interface.NbrStateSet` | eigrpd/eigrp_neighbor.c:207-223 | unbind before, bind after the change of state |
| `EncoderCache.Interface.NbrDelete` | eigrpd/eigrp_neighbor.c:171-190 | a neighbour is counted out before it is removed |
| `EncoderCache.Interface.IntfDown` | eigrpd/eigrp_interface.c:411-433 | every neighbour is deleted before the counters are cleared, which then changes nothing |
| `EncoderCache.Interface.NbrCreate` | eigrpd/eigrp_neighbor.c:73-92 | a new neighbour is DOWN and unbound and changes no counter |
| `EncoderCache.Interface.SwVersionDecode` | eigrpd/eigrp_hello.c:182-205 | the neighbour is rebound, the counters are not touched |
| `EncoderCache.Interface.EncoderClear` | eigrpd/eigrp_interface.c:33-41 | counters and encoder are reset |
| `EotPacking.EveryRouteOnce` | eigrpd/eigrp_update.c:473-537 | what passes split horizon and filter is sent once, in table order, in consecutively numbered packets no longer than MTU - 29 + the largest encoding |
| `EotPacking.SentExactly` | eigrpd/eigrp_neighbor.c:358-365 | the packets hold each descriptor of the table as often as the table does if it is not denied and was learned on another interface or is infinitely far, and not at all otherwise |
| `EotPacking.SentInOrder` | eigrpd/eigrp_update.c:494-530 | wherever the table is divided, what is sent for it is what is sent for the first part and then for the rest |
| `EotPacking.LargerOverruns` | eigrpd/eigrp_update.c:502 | any encoding above the reserve overruns some MTU |
| `EotSizes.OverrunsExactly` | eigrpd/eigrp_update.c:499-530 | at any MTU, when every route encodes to the same number of bytes, a packet overruns if and only if whole routes leave at least the reserve of the room and more routes are sent than fit into it |
| `EotSizes.OnEthernet` | eigrpd/eigrp_update.c:483-502 | at 1480 bytes the longest wide internal routes never overrun, and the longest wide external ones do from the 26th on |
| `EotPacking.ZeroLeftExactly` | eigrpd/eigrp_update.c:509-536 | the counter, which the next INIT packet takes its number from, is left at zero if and only if the packets before the last one use up the numbers from the first one to 2^32 |
| `EotPacking.ReserveCoversExactly` | eigrpd/eigrp_const.h:303-307 | the reserve of 29 bytes covers classic internal routes and no others |
| `EotPacking.PackOne` | eigrpd/eigrp_update.c:499-530 | room is made before the filter is asked |
| `EotPacking.UpdateSendEot` | eigrpd/eigrp_update.c:473-537 | the nested loops compute the packing, whose contents `EotPacking.SentExactly` gives, and the counter is left at the last number used, the first one plus the number of further packets, cut to 32 bits |

## Left out

- Route descriptors are values with an identity inside the list of their prefix; that two pointers alias one
  descriptor is expressed by equal identities. Their `metric`, `type`, `nexthop` and `extdata` fields, which
  DUAL does not read, belong to the codec model only.
- K values, variance and interface parameters are fixed during a run. A composite with K5 set and
  reliability 0 divides by zero in the source; `Metric.Quot` gives that case an arbitrary value.
- Neighbour deletion does not edit reply lists in the source, so nothing is claimed about a computation ever
  ending; the run theorems are about safety.
- The start state of a prefix for a connected interface, where only FD is set; connected descriptors do
  appear, as added descriptors.
- Zebra is a list of paths last installed; the redistribution flags and the multipath limit of the route
  message are not modelled.
- Transport: graceful-restart sending, the multicast queue, which nothing fills, and the limit on
  retransmissions, whose handler does nothing.
- An acknowledgement is a step of its own. The source looks at the acknowledgement field of a packet only
  after Hello packets have been handled and dismissed (eigrpd/eigrp_packet.c:476-500).
- Delivery.QueryInterfaceSend: the encoder enters as the number of bytes it appends for a route; the excepted
  interface, which no QUERY sets, the statistics counters and the authentication digest are left out.
- The instance's sequence counter outside reservation: an unreserved packet advances it when first sent.
  `Transport` takes the numbers of packets as given.
- EotPacking: the packets' bytes beyond the encodings; `length` is unbounded, which is exact as long as
  MTU - 29 + the largest encoding stays below 65536.
- `eigrp_update_send`, which reuses a packet after splitting.
- Encoder.Encoder2: requires room for the bytes it writes; what the stream library does with a write that does
  not fit is not part of this model.
- Encoder.Encoder1: requires room for the bytes it writes, for the same reason.
- Encoder.EncoderBoth: requires room for the bytes both write, for the same reason.
- Tlv1.ClassicMisreads: a round trip of the classic TLV is not claimed, because the decoder does not invert the
  encoder; `TlvLayout.Metric1RoundTrip` and `TlvLayout.External1RoundTrip` are about the sections on their own.
- NoLostWork.NoLostRequests: what a drain does with an entry that refers to a freed prefix is undefined; the
  model passes over it, and `FreedWork.NothingFreedTouched` says when no step meets one.
- NoLostWork.QueriesServedOnce: the same holds for the drain it is about.
- Framing.HelloWalk: the handlers of the individual TLVs enter only as the set of those that end the walk.
- The access-list and prefix-list filters are parameters; so are random numbers, clocks and socket results.
- MD5 and SHA-256 digests, checksums, IPv6, VTY, northbound and SNMP code, and the FRR library, whose lists
  and streams enter by their contracts.
