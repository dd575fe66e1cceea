# Verified model of the payment-network route discovery and content dissemination

This project models, in Dafny, the AODV-style (RFC 3561) route discovery of the
off-chain payment network, the timed tables and queues under it, the byte layout of
its headers, and the content interest/data application above it, and proves
properties of all of them over every input, every run and every reachable state.

Run `dafny verify dfyconfig.toml` in this directory to check everything.

## How it is organised

| file | what it holds |
|---|---|
| `Types.dfy`, `SerialNumbers.dfy` | fixed-width integers; the wrapping comparison of sequence numbers and what it means for unbounded counters |
| `Vectors.dfy`, `Subsequences.dfy` | `std::vector` on an array with `remove_if` and `erase`; order-preserving selection |
| `IdCaches.dfy` | the request-id cache on such a vector, and its agreement with a full call history |
| `RequestQueues.dfy`, `QueueOperations.dfy` | the drop-front packet queue; conservation, age order, bound, first-in first-out; what each operation does to which packet, and who is evicted |
| `Tables.dfy`, `RoutingTables.dfy` | the routing table as a value, and as an object whose entries share `Ipv4Route` objects with looked-up copies |
| `Packets.dfy` | RREQ and RREP headers, flags, byte layout, serialisation through a buffer iterator |
| `Nodes.dfy`, `Protocol.dfy` | `SendRequest` and `RecvRReq` as functions of a node's state, and as methods of the protocol object proved equal to them |
| `Flood.dfy`, `FloodRuns.dfy`, `LineNetworks.dfy`, `LateCopies.dfy` | a network of nodes with copies in flight; reverse trees and termination of floods; a line in which the hop count wraps, and a late copy that makes a cycle |
| `NodeRuns.dfy`, `SequenceRuns.dfy` | one node's table over whole runs: round-trip lifetime, retention of invalid routes, sequence numbers as maxima |
| `ProtocolRuns.dfy`, `LiveRoutes.dfy`, `NetworkNumbers.dfy`, `DestinationNumbers.dfy`, `RequestFields.dfy` | the network with tables changed by the protocol and the table's own operations only: replies led back by the live tables, and sequence numbers derived from their originators, and what a request keeps of its originator's configuration |
| `Payments.dfy`, `PaymentNetworks.dfy` | the interest and data handlers as functions, and as methods over the pending vectors |
| `Dissemination.dfy`, `Deliveries.dfy`, `TieRouting.dfy`, `OwnInterests.dfy` | the payment network as a whole: causality, uniqueness, nothing held or delivered that was not addressed to the node, and relaying by payment tie and level, with its one exception and its exact condition |

Where the source updates an object in place there is a class whose methods are proved
to compute a function of the old state; the theorems are about those functions. In the
routing table the local copy returned by a lookup aliases the table through its route
pointer, and `RecvRReq` writes the next hop through that copy as the source does.

Time is an integer number of milliseconds passed to each operation (a lifetime given to a
reply header is in nanoseconds). What is sent,
scheduled or reported to an error callback is appended to a sequence of events. Every
node has one interface. `HandleRead` is not part of this model; an interest packet that
names a provider may go to either interest handler, and every other packet goes to the
handler of its kind. `ContentManager` and `InterestManager` are sets. `Relationship` is a
fixed ranking whose choices return one of their two arguments, ranked no lower than the
other.

## What was found on the way

- `RecvRReq` never sets the flag of an existing entry, so a reverse route that was
  INVALID or IN_SEARCH stays so although its sequence number, next hop and lifetime are
  refreshed. `Nodes.ReverseRouteValidExactly` gives the exact condition under which it
  is VALID; `NodeRuns.CrossingRequestsOccur` is an input for which it is not.
- `RequestQueue::Enqueue` evicts only when the size equals the maximum. Lowering the
  maximum below the current size lets the queue grow without limit
  (`RequestQueues.BoundKeptExactly`, `RequestQueues.LoweredMaximumOverruns`). With a
  maximum of zero it takes the front of an empty vector; the model requires at least one.
- `Purge` is idempotent exactly when the bad-link lifetime is not negative or nothing VALID
  has expired (`Tables.PurgeIdempotentExactly`); `Tables.NegativeLifetimePurgesTwice` is a
  table for which it is not.
- The 8-bit hop count is the distance to the originator in every run of every network of a
  given size if and only if that is at most 256 nodes
  (`LineNetworks.HopCountsExactIffSmall`); `LineNetworks.HopCountWraps` is a run in which
  it wraps.
- An accepted request with an older sequence number still redirects the reverse route
  (`SequenceRuns.OlderRequestRedirects`, with an input in `SequenceRuns.OlderRequestOccurs`),
  so trees are stated per flood.
- `StartApplication` does not record a node's own interest as seen, so it can come back and
  become pending twice, and then be relayed below an earlier relay
  (`OwnInterests.OwnInterestRelayedLower`). It happens exactly when the node met ranks below
  the last relay of some entry for the interest in the pending list
  (`OwnInterests.RelaysUpwardExactly`); for every other interest, and for all data, that
  cannot be (`TieRouting.RelaysOnlyUpward`).
- The tree of a flood needs its copies delivered within the id-cache lifetime: one that is a
  millisecond later can leave a cycle (`LateCopies.LateCopyMakesCycle`).
- No request ever carries a transaction amount: nothing in the repository sets the field before a
  request goes out, so an accepted request always stores zero (`RequestFields.RunKeepsFields`).
- A reply's lifetime loses any fraction of a millisecond (`Packets.LifeTimeSurvivesExactly`).
- Where code and comments differ the code is followed: `InvalidateRoutesWithDst` does not
  increment sequence numbers (model/rtable.h:205-206 says it does);
  `GetListOfDestinationWithNextHop` ignores precursors (model/rtable.h:197);
  only the owner of a content serves it, never a cache (model/payment-network.cc:865);
  packets for a known provider are labelled as unknown-provider interests
  (model/payment-network.cc:329); the constructor's delete period is 300 s while the
  attribute default says 15 s (model/offchain-routing.cc:100, 171-176).

## Model

| member | source | states |
|---|---|---|
| SerialNumbers.NewerExactly | model/offchain-routing.cc:478 | the wrapping comparison says newer exactly when the distance around the circle is in the first half; for counters less than 2^31 apart that is the ordinary order, for `>` and for `>=` |
| SerialNumbers.DifferenceIsExact | model/offchain-routing.cc:529 | for counters less than 2^31 apart the wrapped difference of their truncations is their true difference |
| Vectors.Vector.RemoveIf | model/offchain-id.cc:24-25 | in-place compaction leaves exactly the survivors, in order, before the returned end |
| Vectors.Vector.Erase | model/routemsg-queue.cc:71 | erasing a range closes the gap and changes nothing else |
| IdCaches.IdCache.IsDuplicate | model/offchain-id.cc:8-20 | answers whether a live record matches, and remembers the pair with the lifetime now in force if none does |
| IdCaches.IdCache.Purge | model/offchain-id.cc:21-26 | keeps exactly the records not expired, in order |
| IdCaches.IdCache.GetSize | model/offchain-id.cc:28-33 | purges and counts what is left |
| IdCaches.AnswersMatchHistory | model/offchain-id.cc:8-20 | over every run with a forward clock and changing lifetimes, a call answers true exactly when an earlier call for the pair answered false and its lifetime then in force has not run out |
| IdCaches.SizeCountsLivePairs | model/offchain-id.cc:28-33 | the size counts each pair the history still remembers exactly once; stored pairs are unique |
| RequestQueues.RequestQueue.Purge | model/routemsg-queue.cc:99-113 | each expired packet is reported once, in order, and removed; the rest stay in order |
| RequestQueues.RequestQueue.Enqueue | model/routemsg-queue.cc:23-43 | refuses a packet already waiting for the destination; otherwise stamps its expiry, evicts and reports the front if full, and appends it |
| RequestQueues.RequestQueue.Dequeue | model/routemsg-queue.cc:62-76 | takes out the first live packet for the destination, if any |
| RequestQueues.RequestQueue.DropPacketWithDst | model/routemsg-queue.cc:45-60 | reports and removes exactly the packets for the destination |
| RequestQueues.RequestQueue.Find | model/routemsg-queue.cc:78-88 | answers whether any waiting packet, expired or not, is for the destination |
| RequestQueues.PacketsConserved | model/routemsg-queue.cc:24-121 | over every run, accepted packets are, as multisets, exactly those waiting, dequeued or reported |
| RequestQueues.QueueDisciplined | model/routemsg-queue.cc:24-43 | with fixed parameters and a forward clock the queue is sorted by expiry, free of duplicates and within its maximum |
| RequestQueues.PurgeRemovesPrefix | model/routemsg-queue.cc:100-113 | of a sorted queue, purging reports exactly a prefix and keeps exactly the rest |
| RequestQueues.BoundKeptExactly | model/routemsg-queue.cc:36-41 | an accepted packet leaves the queue within its maximum exactly when the purged queue was within it before |
| RequestQueues.LoweredMaximumOverruns | model/routemsg-queue.h:81 | a run in which a lowered maximum is exceeded and the queue still grows |
| RequestQueues.DequeuedInArrivalOrder | model/routemsg-queue.cc:62-76 | over every run, per destination, what was dequeued followed by what waits is a subsequence of what was accepted |
| QueueOperations.PurgeExactly | model/routemsg-queue.cc:99-113 | a purge reports exactly the packets past their expiry, keeps exactly the others, and keeps both in order |
| QueueOperations.DropExactly | model/routemsg-queue.cc:45-60 | afterwards no packet for the destination waits; exactly those and the expired ones were reported, and the others stay in order |
| QueueOperations.RefusedExactly | model/routemsg-queue.cc:23-34 | a packet is refused if and only if the same packet, not past its expiry, waits for the same destination |
| QueueOperations.EnqueueExactly | model/routemsg-queue.cc:23-43 | an accepted packet is last; the oldest live packet, and only that, leaves and is reported, exactly if the live ones were as many as the maximum |
| QueueOperations.EvictionsOldestFirst | model/routemsg-queue.cc:36-41 | over every run, the packets evicted while still alive, followed by those waiting, are in order of acceptance: eviction takes the oldest |
| QueueOperations.EvictedAreOldest | model/routemsg-queue.cc:36-41 | over every run with fixed parameters and a forward clock, nothing evicted would have expired later than anything that waits |
| QueueOperations.DequeueFindsExactly | model/routemsg-queue.cc:62-76 | a packet is found if and only if one not past its expiry waits for the destination, and it is the first such; all others stay |
| Tables.PurgeIdempotentExactly | model/rtable.cc:325-356 | purging twice at one time equals purging once, if and only if the bad-link lifetime is non-negative or nothing VALID has expired |
| Tables.NegativeLifetimePurgesTwice | model/rtable.cc:325-356 | a one-entry table and a negative bad-link lifetime, where the first purge invalidates the entry and the second deletes it |
| Tables.PurgeLeavesNothingExpired | model/rtable.cc:325-356 | after a purge no VALID entry is past its expiry, nor any INVALID one for a non-negative lifetime |
| Tables.BreakLinkInvalidatesExactly | model/rtable.cc:268-303 | collecting and invalidating leaves no VALID entry through the next hop, changes exactly the VALID entries through it, and keeps every next hop and sequence number |
| Tables.PurgeExactly | model/rtable.cc:325-356 | entry by entry: deleted, given a deletion time, or left alone, each if and only if |
| Tables.InvalidatedThenDeleted | model/rtable.cc:325-356 | an entry that a purge invalidates is still there after a later purge if and only if that comes within the bad-link lifetime |
| Tables.AddRouteExactly | model/rtable.cc:219-229 | an entry is added only where the purge left none, and no other entry changes |
| Tables.DeleteRouteExactly | model/rtable.cc:205-217 | a deleted route is gone, also after every later purge, and no other |
| Tables.UnreachableExactly | model/rtable.cc:268-283 | a destination is collected with a number if and only if its entry in the purged table has that next hop and that number |
| Tables.InvalidateRoutesExactly | model/rtable.cc:285-303 | of the purged table exactly the listed VALID entries change, and get a deletion time one bad-link lifetime ahead |
| RoutingTables.RoutingTable.Purge | model/rtable.cc:325-356 | deletes expired INVALID entries, invalidates expired VALID ones with a new deletion time, keeps the rest |
| RoutingTables.RoutingTable.PurgedCopy | model/rtable.cc:358-389 | the printing purge of a copied table computes the same table and leaves the original alone |
| RoutingTables.RoutingTable.LookupRoute | model/rtable.cc:170-190 | purges, then returns the stored entry, sharing its route object, or nothing |
| RoutingTables.RoutingTable.LookupValidRoute | model/rtable.cc:192-203 | succeeds exactly for a VALID entry of the purged table, which has then not expired |
| RoutingTables.RoutingTable.AddRoute | model/rtable.cc:219-229 | after a purge, stores the entry under its destination unless there is one, and says whether it did |
| RoutingTables.RoutingTable.Update | model/rtable.cc:231-249 | replaces an existing entry only, without purging |
| RoutingTables.RoutingTable.DeleteRoute | model/rtable.cc:205-217 | purges, removes the entry, and says whether there was one |
| RoutingTables.RoutingTable.SetEntryState | model/rtable.cc:251-266 | sets the flag and clears the request count of an existing entry, without purging |
| RoutingTables.RoutingTable.MarkLinkAsUnidirectional | model/rtable.cc:391-407 | marks an existing entry, without purging |
| RoutingTables.RoutingTable.GetListOfDestinationWithNextHop | model/rtable.cc:268-283 | returns exactly the destinations of the purged table behind the next hop, with their sequence numbers |
| RoutingTables.RoutingTable.InvalidateRoutesWithDst | model/rtable.cc:285-303 | after a purge, invalidates exactly the listed VALID entries |
| RoutingTables.RoutesNotShared | model/rtable.cc:25-29 | two entries of a table share a route object only if they are the same entry |
| RoutingTables.NextHopOfCopy | model/rtable.h:82 | setting the next hop on a looked-up copy changes that destination's table entry at once, and no other |
| Packets.LastWriteWins | model/payroute-packet.cc:187-230 | after any sequence of flag writes each flag has its last written value, or its first if never written |
| Packets.WriteOneBit | model/payroute-packet.cc:187-230 | each setter sets or clears its own bit: 0x20 gratuitous, 0x10 destination only, 0x08 unknown number, 0x40 acknowledgement |
| Packets.RreqRoundTrip | model/payroute-packet.cc:136-167 | decoding an encoded RREQ followed by any bytes gives the header back |
| Packets.RreqBytesRoundTrip | model/payroute-packet.cc:136-167 | encoding what was decoded from 27 bytes gives those bytes back |
| Packets.RreqFlagsOnTheWire | model/payroute-packet.cc:187-230 | a flag has its last written value before and after the wire |
| Packets.RreqLayout | model/payroute-packet.cc:136-148 | the 27 bytes: bits 5, 4 and 3 of the first are the gratuitous, destination-only and unknown-number flags, then the reserved byte, the hop count, and six words at their offsets, most significant byte first |
| Packets.RrepRoundTrip | model/payroute-packet.cc:277-307 | decoding an encoded RREP followed by any bytes gives the header back |
| Packets.RrepBytesRoundTrip | model/payroute-packet.cc:277-307 | encoding what was decoded from 23 bytes gives those bytes back |
| Packets.RrepFlagsOnTheWire | model/payroute-packet.cc:334-347 | a flag has its last written value before and after the wire |
| Packets.RrepLayout | model/payroute-packet.cc:277-288 | the 23 bytes: bit 6 of the first is the acknowledgement flag, then the prefix size, the hop count, and five words at their offsets, most significant byte first |
| Packets.LifeTimeSurvivesExactly | model/payroute-packet.cc:321-332 | a lifetime survives the 32-bit millisecond field if and only if it is a whole number of milliseconds, non-negative and below 2^32 of them |
| Packets.MillisecondsTruncate | model/payroute-packet.cc:321-326 | the field holds the whole milliseconds of the lifetime, truncated toward zero, modulo 2^32 |
| Packets.RreqHeader.Serialize | model/payroute-packet.cc:136-148 | writes exactly the 27 encoded bytes at the iterator, moves past them, and touches no later byte |
| Packets.RreqHeader.Deserialize | model/payroute-packet.cc:150-167 | reads the header decoded from the bytes at the iterator and reports 27 |
| Packets.RreqHeader.WriteFlag | model/payroute-packet.cc:187-230 | sets or clears one flag bit and changes nothing else |
| Packets.RrepHeader.Serialize | model/payroute-packet.cc:277-288 | writes exactly the 23 encoded bytes at the iterator, moves past them, and touches no later byte |
| Packets.RrepHeader.Deserialize | model/payroute-packet.cc:290-307 | reads the header decoded from the bytes at the iterator and reports 23 |
| Packets.RrepHeader.SetAckRequired | model/payroute-packet.cc:334-341 | sets or clears the acknowledgement bit |
| Protocol.RoutingProtocol.SendRequest | model/offchain-routing.cc:330-407 | the object's new state and events are those of the originating step |
| Protocol.RoutingProtocol.RecvRReq | model/offchain-routing.cc:419-563 | with entries aliased and written through copies, the object's new state and events are those of the receiving step |
| Protocol.RoutingProtocol.ApplySetters | model/offchain-routing.cc:476-490 | the setters yield the refreshed entry, while the table sees only the next hop change before `Update` |
| Nodes.RequestOriginated | model/offchain-routing.cc:343-388 | a request starts with the next sequence number, the next request id, hop zero, the originator's address and configured flags; a retry is scheduled for the destination and the request count goes up; its destination is IN_SEARCH and every other entry as purged; the originator remembers the pair for exactly the path discovery time |
| Nodes.RequestDeferred | model/offchain-routing.cc:332-341 | a request is put off, and nothing changes, if and only if the number sent this second is the limit |
| Nodes.AcceptedTable | model/offchain-routing.cc:466-492 | an accepted request changes one entry of the purged table, whatever the response |
| Nodes.ReverseRouteRecorded | model/offchain-routing.cc:466-502 | whatever entry was there before, the reverse route is afterwards in the table with the sender as next hop, the incremented hop count, the amount, a valid number and at least the minimal and the existing lifetime |
| Nodes.ReverseRouteExactly | model/offchain-routing.cc:469-490 | the lifetime of the reverse route is the later of the minimal and the existing one; flag, request count and black-list mark in each case, for a new and an existing entry |
| Nodes.RepliesUseReverseRoute | model/offchain-routing.cc:500-536 | the lookup before a reply finds that entry, so the reply goes to the sender |
| Nodes.ReverseRouteValidExactly | model/offchain-routing.cc:466-492 | the reverse route is VALID afterwards if and only if the purged entry was, or there was none and the lifetime is non-negative |
| NodeRuns.CrossingRequestsStayInSearch | model/offchain-routing.cc:476-492 | a node that searches for another and then accepts that node's request has the reverse route, with the sender as next hop, but still IN_SEARCH |
| NodeRuns.CrossingRequestsOccur | model/offchain-routing.cc:476-492 | two requests that cross, as a concrete input |
| Nodes.ResponseExactly | model/offchain-routing.cc:428-563 | when a request is ignored, replied to, replied to by an intermediate node, dropped for a loop (always, when an originator looks for itself elsewhere), or rebroadcast, each if and only if |
| Nodes.IgnoresExactly | model/offchain-routing.cc:428-437 | a sender is ignored if and only if its entry is black-listed and not due for deletion |
| Nodes.RejectedOnlyPurges | model/offchain-routing.cc:428-448 | a request that is not accepted sends nothing and does no more than the purges it came through |
| Nodes.AnswerContents | model/offchain-routing.cc:500-563 | what each answer hands on: a reply gets the request as it arrived, one hop on; an intermediate reply is gratuitous if and only if the request asks for it; a request sent on keeps everything but the hop count, the destination number and its flag |
| Flood.StepKeepsInv | model/offchain-routing.cc:330-563 | origination, delivery, loss, duplication, time and foreign table changes keep the flood invariant |
| FloodRuns.ReversePathsFormTree | model/offchain-routing.cc:444-492 | in every reachable state the recorded next hops from any accepting node lead to the originator without revisiting a node; the recorded hop count is the path length modulo 256, hence equal to it exactly below 256 |
| FloodRuns.HopCountIsDistance | model/offchain-routing.cc:450-452 | with at most 256 nodes the originator is reached in exactly the recorded hop count |
| LateCopies.LateCopyMakesCycle | model/offchain-id.cc:8-26 | a run of three nodes in which one copy delivered a millisecond after the id-cache lifetime leaves recorded next hops that never lead to the originator |
| LineNetworks.HopCountWraps | model/offchain-routing.cc:450-452 | in a line of 257 nodes or more a reachable state has the 257th record zero hops, which is not its distance |
| LineNetworks.HopCountsExactIffSmall | model/offchain-routing.cc:450-452 | for every network size: all recorded hop counts are distances in every reachable state, if and only if there are at most 256 nodes |
| FloodRuns.ConsumingStepDecreases | model/offchain-routing.cc:444-448 | each delivery or loss makes (unseen nodes, copies in flight) lexicographically smaller |
| FloodRuns.FloodTerminates | model/offchain-routing.cc:444-563 | in every run the deliveries and losses of a flood number at most the potential spent plus the duplications |
| FloodRuns.RebroadcastAtMostOnce | model/offchain-routing.cc:543-563 | in every run a node sends a flood on at most once, and only if it was unseen |
| NodeRuns.DefaultIsDerived | model/offchain-routing.cc:88-126 | the constructor's values; its times are derived from one another, and cover the round trip over m hops if and only if m is at most twice the network diameter |
| NodeRuns.LifetimeCoversRoundTrip | model/offchain-routing.cc:469-489 | the lifetime given to a reverse route i hops out covers the rest of the trip over m hops and back, if and only if one way fits the net traversal time |
| NodeRuns.DerivedCovers | model/offchain-routing.cc:93-96 | with times derived as in the constructor, that is if and only if m is at most twice the network diameter |
| NodeRuns.RunKeepsUnexpired | model/rtable.cc:325-356 | until its expiry an entry neither replaced by a newer request nor deleted keeps its next hop and hop count through every run, even if it is invalidated, as long as the bad-link lifetime lasts |
| NodeRuns.ReverseRouteOutlivesRoundTrip | model/offchain-routing.cc:463-491 | a node i hops out on a path of m hops still routes to the originator through the sender 2(m-i) hop times later, absent a newer request or explicit deletion |
| NodeRuns.ReplyFindsItsWayBack | model/offchain-routing.cc:93-96 | a reply as fast as the request, sent on by each relay's own table, passes the linked relays in reverse order and ends at the originator |
| NodeRuns.ReplyOverTwoHops | model/offchain-routing.cc:93-96 | such a reply over two hops, as a concrete input |
| NodeRuns.StepAndFlags | model/rtable.cc:119-128 | what one operation can do to an entry that is VALID, INVALID or IN_SEARCH |
| NodeRuns.InvalidRouteKept | model/rtable.cc:325-356 | over every run a route that went from VALID to INVALID is deleted by a purge, also one inside the search that adds it again, only strictly later than the bad-link lifetime after that |
| NodeRuns.ValidNeverJustVanishes | model/rtable.cc:325-356 | over every run only an INVALID entry can leave the table |
| SequenceRuns.StoredNumbersAreMaxima | model/offchain-routing.cc:476-483 | over every run within the window, each valid stored number is the truncated maximum received since the entry became valid |
| SequenceRuns.AcceptedSeqNo | model/offchain-routing.cc:476-483 | an accepted request stores its own number, or keeps a valid stored one that is not older |
| SequenceRuns.OlderRequestRedirects | model/offchain-routing.cc:476-487 | a request that is not newer leaves the stored number and changes the next hop, if and only if it is accepted and its sender is another node than the next hop so far |
| SequenceRuns.OlderRequestOccurs | model/offchain-routing.cc:476-487 | an accepted older request that moves the next hop, as a concrete input |
| SequenceRuns.OriginatorCarries | model/offchain-routing.cc:347-372 | an originated request carries the number the originator holds for the destination, or says it knows none |
| SequenceRuns.ForwardTakesMaximum | model/offchain-routing.cc:523-541 | a forwarded request carries the maximum of what it brought and what the node holds |
| SequenceRuns.CarriedNumberIsRunningMaximum | model/offchain-routing.cc:513-541 | along every forwarding path the carried number is the running maximum of everything held on the way, and unknown exactly while nothing is |
| SequenceRuns.IntermediateReplyIsFresh | model/offchain-routing.cc:529-537 | an intermediate reply comes from an unexpired VALID entry at least as fresh as everything the request has seen, not leading back to the sender, and never if only the destination may reply |
| SequenceRuns.ForwarderKeepsOwnNumber | model/offchain-routing.cc:523-528 | a forwarder leaves its own entry for the destination as the purge left it |
| ProtocolRuns.RunsAgree | model/offchain-routing.cc:330-563 | a run of protocol steps and table operations is a run of the network, so the flood theorems hold of it |
| ProtocolRuns.ActionAtNode | model/offchain-routing.cc:330-563 | each action changes each node exactly as that node's own operation does |
| LiveRoutes.RunKeepsLive | model/offchain-routing.cc:466-492 | in every reachable state of an undisturbed flood the live table of each accepting node holds the recorded next hop and hop count until the deadline of its acceptance |
| LiveRoutes.LiveTablesLeadBack | model/offchain-routing.cc:466-536 | while the network runs on, a timely reply sent on at each node by the table it has at that moment follows the recorded path and ends at the originator, if that has no second accepted flood |
| LineNetworks.ThereAndBack | model/offchain-routing.cc:466-536 | such a trip, as a concrete run of two nodes |
| NetworkNumbers.RunNumbered | model/offchain-routing.cc:374-375 | in every reachable state each node stands at its counter truncated, and every copy in flight carries a number its originator has issued |
| NetworkNumbers.NodeRunsAlone | model/offchain-routing.cc:330-563 | what a run of the network does to a node is the run of what arrives at it |
| NetworkNumbers.NetworkNumbersAreMaxima | model/offchain-routing.cc:374-375 | with nothing assumed of what is delivered, while no originator has issued 2^31 numbers: each valid stored number is the truncated maximum received since the entry became valid, all of them issued |
| NetworkNumbers.NoNumberFromTheFuture | model/offchain-routing.cc:476-483 | no node holds a number for another that is newer than that node's own |
| DestinationNumbers.RunIssued | model/offchain-routing.cc:347-372 | in every reachable state every valid number in a table and every known destination number in flight was issued by the destination |
| DestinationNumbers.NoDestinationFromTheFuture | model/offchain-routing.cc:513-541 | no request in flight, and no intermediate reply, gives a destination number newer than the destination's own |
| DestinationNumbers.NetworkOriginatorCarries | model/offchain-routing.cc:347-372 | in every reachable state an originated request carries, as a counter of the destination, what its originator holds |
| DestinationNumbers.NetworkCarriesMaximum | model/offchain-routing.cc:513-541 | in every reachable state, with nothing assumed of what is delivered, a request sent on carries the larger, as counters of the destination, of what it brought and what the node holds |
| DestinationNumbers.NetworkReplyIsFresh | model/offchain-routing.cc:529-537 | in every reachable state an intermediate reply gives a counter the destination has issued, at least what the request carries, from an unexpired VALID entry |
| RequestFields.RunKeepsFields | model/offchain-routing.cc:347-388 | in every reachable state every request in flight carries the flags its originator is configured with, and no transaction amount |
| RequestFields.AnswersAsConfigured | model/offchain-routing.cc:500-536 | in every reachable state an intermediate reply is gratuitous if and only if the originator is configured so, and never happens if that wants the destination alone to reply; a reply answers the request as it arrived, one hop on |
| PaymentNetworks.PaymentNetwork.constructor | model/payment-network.cc:33-50 | nothing requested, known, seen or pending |
| PaymentNetworks.PaymentNetwork.StartApplication | model/payment-network.cc:110-142 | owns its content, and puts its own interest in the unknown-provider list under a fresh broadcast id |
| PaymentNetworks.PaymentNetwork.HandleData | model/payment-network.cc:406-488 | the new state is that of the data step |
| PaymentNetworks.PaymentNetwork.HandleInterestKnownContentProvider | model/payment-network.cc:846-943 | the new state and packets are those of the known-provider step |
| PaymentNetworks.PaymentNetwork.HandleInterestUnknownContentProvider | model/payment-network.cc:946-1055 | the new state and packets are those of the unknown-provider step |
| PaymentNetworks.PaymentNetwork.HandleHello | model/payment-network.cc:526-564 | digest, data, known-provider and unknown-provider interests are sent in that order, and the relays brought up to date |
| PaymentNetworks.PaymentNetwork.ProcessPendingData | model/payment-network.cc:754-843 | the loop meets every pending entry once, in order, and sends what each meeting sends |
| PaymentNetworks.PaymentNetwork.ProcessPendingInterestKnownContentProvider | model/payment-network.cc:590-678 | likewise for interests with a known provider |
| PaymentNetworks.PaymentNetwork.ProcessPendingInterestUnknownContentProvider | model/payment-network.cc:681-751 | likewise for interests with an unknown provider |
| Payments.DataKeptOrSatisfies | model/payment-network.cc:453-487 | for every data packet: one addressed to another node changes nothing; one addressed to the node satisfies its own request, or is pending there afterwards, added only if none was for that requester and broadcast id |
| Payments.InterestServedOnce | model/payment-network.cc:899-1055 | for every interest packet: one addressed to another node, or a known one, changes nothing; a new one is recorded and leads to exactly one of data sent, data pending, known-provider or unknown-provider interest pending |
| Dissemination.StepKeepsInv | model/payment-network.cc:406-1055 | every step of the network keeps causality, uniqueness and authenticity |
| Dissemination.DataIsCaused | model/payment-network.cc:899-924 | in every reachable state, data in flight or pending was requested by its requester and recorded by the content's owner |
| Dissemination.PendingDataUnique | model/payment-network.cc:469-485 | in every reachable state no node holds two pending data entries for one requester and broadcast id, and the asserted equality of content and provider never fails |
| Deliveries.HeldWasAddressed | model/payment-network.cc:406-1055 | in every reachable state, whoever overhears what: each pending data entry of a node is for its own content and an interest it recorded, or was sent to that node as data; interests and contents likewise were sent to the node or are its own |
| Deliveries.SuccessWasAskedFor | model/payment-network.cc:439-467 | in every reachable state a node that has succeeded was sent data for a content it had been told to ask for |
| TieRouting.BetterNodeGetsIt | model/payment-network.cc:590-843 | in an encounter every pending data or interest entry is sent to its target, and to any node ranked above the sender and every relay so far |
| TieRouting.EncounterExactly | model/payment-network.cc:590-843 | for each kind: an entry is sent if and only if it is wanted (the target is met, or the node met is chosen over the sender and over the last relay), to the node met; the last relay moves exactly then and short of the target, and no entry goes or changes place |
| TieRouting.DigestExactly | model/payment-network.cc:526-564 | the digest of all contents is sent if and only if the node met is chosen as more central, before everything else; then data, known-provider and unknown-provider interests |
| TieRouting.RelaysOnlyUpward | model/payment-network.cc:590-843 | in every reachable state data, known-provider and unknown-provider interests go to their target or to a node ranked at least as high as the sender, and as every earlier relay of the same request unless it is the sender's own unknown-provider interest |
| TieRouting.RankNeverDrops | model/payment-network.cc:590-843 | the rank never drops along a path before its final hop: toward the requester for data, toward the provider for known-provider interests, by level for unknown-provider ones |
| OwnInterests.RelaysUpwardExactly | model/payment-network.cc:590-843 | in every reachable state, for data and all interests including a node's own: a copy short of its target ranks at least as high as every earlier relay of the request, if and only if the node met ranks at least as high as the last relays in the pending list before the encounter |
| OwnInterests.OwnInterestRelayedLower | model/payment-network.cc:110-142 | a run in which a node's own interest comes back, is pending twice, and is relayed to a node below an earlier relay |

## Left out

- FloodRuns.ReversePathsFormTree: speaks of floods with no copy delivered later than the id-cache lifetime after their start and no reuse of their request id, which is the assumption the id cache makes; all other floods and table changes go on unrestricted meanwhile. The next hops are those recorded on acceptance, since later floods may redirect the live table; for floods that no later one redirects, `LiveRoutes.LiveTablesLeadBack` speaks of the live tables.
- LiveRoutes.LiveTablesLeadBack: all nodes have the same timing constants, and RREP handling, which is not defined in the repository, does no more to a table than the table's own operations.
- NetworkNumbers.NetworkNumbersAreMaxima: the network starts without valid stored numbers, and no originator issues 2^31 numbers, the assumption on which the wrapping comparison rests; likewise for the theorems of `DestinationNumbers.dfy`.
- NodeRuns.InvalidRouteKept: assumes a non-negative bad-link lifetime, as the delete period is.
- RREP, RERR and HELLO handling, retry backoff and timer expiry: declared but not defined in the repository. In the network of `Flood.dfy` they appear as arbitrary changes of routing tables, in `ProtocolRuns.dfy` as operations on them.
- `Neighbors` deposits and the HELLO exchange: no initial deposits are defined and acknowledged hellos answer each other forever.
- HELLO encoding and `TypeHeader`: the flags byte is not written, and type 3 is marked invalid on reading, so there is no round trip.
- `DuplicatePacketDetection`: passes its arguments to the id cache.
- Precursor lists: no modelled operation reads them.
- Interfaces, masks, sockets, output devices and `DeleteAllRoutesFromInterface`: one interface per node.
- Random jitter and hello timers; the per-second reset of the request count is an arbitrary change of that counter.
- Precise default addresses of ns-3: an address constructed without a value is the null address here.
- Lists kept in the pending vectors are never removed from, so nothing is proved about their size.
