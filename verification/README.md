# A verification model of the anonymous-communication enclaves

The repository implements a client enclave that takes part in an anonymous communication network, and
a login server that starts it. Time is cut into rounds. In every round a client gives each
neighbour one padded, encrypted packet; messages are announced to a quorum, agreed on, injected,
routed over a hypercube of quorums by fixing bits, predelivered and delivered.

This project models that behaviour in Dafny and proves properties of it. All sizes - dimension,
k_send, k_recv, A_max, Delta, m_corrupt, numbers of clients and quorums - are parameters.

## How it is organised

| module | models |
|---|---|
| Bits, Ordering, Sequences, Options | machine words bit by bit, the order laws a std::map relies on, filtering and mapping |
| Structures, Rounds | the exchanged values with their comparison operators; round arithmetic |
| OutgoingQueue, QueueCalls | the rate-limited queue of outgoing messages over whole runs; what each call does to it in plain numbers |
| Inboxes, AcceptedPackets | the two-slot inboxes over every interleaving of packets and rounds; which packets are accepted, which messages handed over |
| Agreement, AgreementTable | the agreement scheme, the tuple table and the deque of participants; what the table holds |
| QuorumVote | the vote on what a quorum sent |
| Hypercube, Overlay, OverlayRuns | neighbourhoods, the next-hop rule, the overlay tables and their update; what runs of updates bring into use and send |
| RoutingScheme, SurvivingBuckets, BitFixing | the cancel scan and one call of `route`, what they leave of any list, and 2d calls |
| Outbound, RoundWork, RoundSections | the outgoing maps, dummies and packets; everything a round makes of its input; what its packets hold, section by section |
| ClientRun, ClientEnclave | the three state machines moving together; the client class with its fields and calls |
| Serialization, WireFormat, CryptFrame, ByteLayout | numbers and vectors as bytes, all records, the encrypted frame, whole packets; where every field stands |
| ServerEnclave, InitMessage, Bootstrap | the initial assignment, the message that carries it, and what the client gets from it |

Where the source changes fields step by step the model is a class (the client, the overlay scheme,
the agreement scheme, the server, the byte vector and the cursor) or a method with the source's
loop, and each method is proved against a specification function or relation; the theorems are
lemmas about those. What such a function says of an operation as a whole is stated once more without
it, in terms of what goes in and comes out - members of lists, bits, offsets, intervals of time - in
the modules QueueCalls, AcceptedPackets, AgreementTable, OverlayRuns, RoundSections and ByteLayout.
The client class keeps, beside its fields, ghost states of the three state machines with their
histories, tied to the fields by `Valid()`. A call that fails an assert or throws is modelled as
aborted; nothing is said about a client after that.

Sequences stand for vectors, maps for std::map and std::set - read in the order of the given
`operator<` - and a multiset with extraction of a least element for the priority queue. Unsigned
arithmetic wraps, and int conversions truncate, where the source's do.

## Where the code and its intent differ

The model follows the code. Where that makes a property fail, a lemma states it with the exact
condition under which it holds, in most cases with a concrete failing input.

- The lateness check subtracts without regard to the sign: a t_dst below the lead time is always accepted,
  and then blocks the queue for ever (`LateMessageBlocksQueue`). Releases are on time iff nothing of
  the kind was accepted (`ReleasedOnTimeIff`).
- The readers of pseudonyms and messages (client/trusted/structures.h:75-79 and 187-191) do not advance the
  cursor. As coded a packet is read back iff its six sections are empty (`PacketAsCodedIff`); with
  advancing readers it is read back iff its numbers survive (`PacketRoundTripIff`). The state
  machines of the client work on parsed packets; `TrafficInFrame` takes either kind of reader.
- `deserialize_number` shifts 32-bit ints: a 64-bit number survives iff it is below 2^31 or all ones
  (`NumberRoundTripIff`). C++ leaves shifts by 32 and more undefined; the model takes the count
  modulo 32, as x86 processors do.
- `route` uses bit positions 1..d, and in its second half position i instead of i - d: a tuple arrives
  only in the cases of `ArrivesIff`; the corrected positions always arrive (`FromZeroArrives`).
- Both callers pass `route` address rounds outside its asserts, so that a round aborts unless the scan
  empties every bucket of what is passed (`RouteAssertsIff`, on the input). Only dummies are therefore
  ever sent in routing sections (`NothingIsRouted`), and these count as overdue tuples: from round 1
  on the padding of m_corrupt + 1 neighbours aborts its receiver (`PaddingAborts`, `NeighborsAbort`).
- The cancel scan overwrites element 0, never flushes the last run and charges a cancel marker to the
  bucket of the tuple before it; the bound on survivors holds iff the greatest bucket of the input is
  marked or small enough (`SurvivorsPerBucket`).
- The replay check forgets the senders of a round with every batch, so that a packet can be accepted
  again (`AcceptedTwiceOnlyApart`, `Replayed`).
- Collected messages are handed over again whenever another m_corrupt + 1 packets have come, although
  the comment at client/trusted/client_enclave.cpp:567 says it happens once (`DeliveredOncePerQuorum`,
  `HandedOverTwice`).
- A packet sent in one round is consumed two rounds later, so the counters of an agreement are not
  aligned: a node that joins runs one round behind the one it heard from (`HeardOneRoundLater`).
- Messages are ordered by delivery time alone (`MessageOrder`), so maps and sets merge different messages
  with equal times. A vote may therefore return an entry that no honest sender has sent
  (`FaultyReturned`) and lose one that m_corrupt + 1 have sent (`MajorityLost`): it returns an element
  iff that is the first of a large enough class (`ReturnedIff`, `ReturnedHonestIff`). A batch hands
  over everything iff no two different messages in it share a delivery time (`BatchLosesNothingIff`,
  `DeliveryLost`).
- An announcement starts an agreement even when one about the same message is under way; only reports are
  looked up (`TableOfRound`, `TwiceOnlyIfAnnounced`).
- The check on k_send is skipped while a round has no counter, so that k_send = 0 admits one message
  (`ZeroLimitExceeded`); `RateLimit` and `AnnounceAssertIff` hold for every k_send.
- The frame of a pseudonym is one byte too long and is cut, so that no generated pseudonym can be
  decrypted (`PseudonymIsCut`). Decryption of pseudonyms is therefore an arbitrary function here.
- The predeliver step means to use the previous onid but has an alias of the current one
  (client/trusted/client_enclave.cpp:229-230); the model uses the current one.
- Step (4) of the overlay update compares gamma_receive_ with the new list instead of assigning it
  (client/trusted/overlay_structure_scheme.cpp:96), self-introductions are built with the type of a
  hand-over (client/trusted/overlay_structure_scheme.h:52-56), and the phase of the hand-over comes iff
  d <= 1, that of the introductions never (`HandOverPhases`). So round 1 rotates in tables
  nobody has filled (`SecondUpdateIsolates`).
- The overlay scheme keeps the identity the client had before the server assigned its id
  (client/trusted/client_enclave.cpp:55-71); the model lets the two identities differ.
- `assert(myptr2 = ...)` at the end of `InitMessage::serialize` assigns; that the two are equal is
  `ImageFits`.

## Model

| member | source | states |
|---|---|---|
| ClientRun.RunKeepsInvariant | client/trusted/client_enclave.cpp:189-470 | Over every interleaving of generate_pseudonym, send_message, traffic_in and traffic_out with a clock that does not go back, the invariants of queue, inboxes and agreement table hold together and all three are in the same round. |
| ClientRun.AnnouncedIsFinalized | client/trusted/client_enclave.cpp:244-321 | Every message announced in a packet accepted under tag r is finalized in round r + L_agree - 1, whatever else the client received or did. |
| ClientRun.HeardIsFinalized | client/trusted/client_enclave.cpp:250-321 | Every message reported with a counter below L_agree - 1 in a packet accepted under tag r is finalized in one of the rounds r to r + L_agree. |
| ClientRun.RunOfParts | client/trusted/client_enclave.cpp:94-572 | Every run of the client contains a run of the queue, one of the inboxes and one of the agreement table that end in its state; what is proved of every run of a part holds of it. |
| RoundSections.FinalizedIsInjected | client/trusted/client_enclave.cpp:292-313 | A peer gets, in its inject section and in order, exactly the finalized messages whose source - decrypt(n_src) - belongs to an onid that lists it; every such message has a packet to carry it, and every source's onid is in the table. |
| ClientRun.AnnounceAssertIff | client/trusted/client_enclave.cpp:385-386 | In every run, with a gamma_send that repeats no peer, the assert on the size of the announce sections holds iff k_send is positive or there is nothing, or nobody, to announce to. |
| OutgoingQueue.ReleasedOnTimeIff | client/trusted/client_enclave.cpp:137-158 | In every run, each round has released exactly the messages addressed to round floor(t_dst/4Delta) - (L_agree+L_route+3) and the queue holds exactly those of later rounds, if and only if every accepted message had t_dst of at least the lead time (or, before the first round, belongs to a round from 0 on). |
| OutgoingQueue.LateMessageBlocksQueue | client/trusted/client_enclave.cpp:235-241 | A message accepted with a smaller t_dst stays in the queue for ever and no later round releases anything. |
| OutgoingQueue.LatenessCheck | client/trusted/client_enclave.cpp:137-142 | The unsigned lateness check rejects exactly the messages handed in less than the lead time ahead when t_dst is at least the lead, and accepts every smaller t_dst; what it rightly accepts belongs to a later round. |
| OutgoingQueue.LateMessageAccepted | client/trusted/client_enclave.cpp:137-142 | A concrete run in which the check fails: a message with t_dst = 2 sent at time 0 in the default configuration is accepted. |
| OutgoingQueue.RateLimit | client/trusted/client_enclave.cpp:144-158 | In every run, the counter of a pseudonym and round equals the number of messages ever queued under it and stays at most k_send (1 when k_send is 0, since the check needs an existing counter), there are at most A_max pseudonyms, and no round releases more than that number times A_max; counters are keyed by the round number cut to a 32-bit int. |
| OutgoingQueue.AnnounceWithinBoundIff | client/trusted/client_enclave.cpp:384-390 | What a round releases is within the bound k_send * A_max, in whatever order it is popped, iff k_send is positive or it is nothing. |
| OutgoingQueue.ZeroLimitExceeded | client/trusted/client_enclave.cpp:144-158 | A concrete run in which the limit k_send = 0 is exceeded by the first message. |
| OutgoingQueue.PopDue | client/trusted/client_enclave.cpp:235-241 | Popping while the head is due takes out nothing when some message is overdue, and otherwise exactly the messages due in this round, the least delivery time first. |
| QueueCalls.SentIff | client/trusted/client_enclave.cpp:126-158 | In every run, for any next message: it is queued and logged iff its source is an own pseudonym, t_dst is below the lead (3d + 8) 4 Delta or at least that far ahead, and the pseudonym has queued fewer than its quota for rounds with the same number modulo 2^32; otherwise nothing changes. |
| QueueCalls.RoundIff | client/trusted/client_enclave.cpp:204-241 | In every run, for any next call of traffic_out at time t: skipped iff t is not in the first quarter of a round or that round is done, failing iff a round was missed; otherwise it releases nothing if some message is addressed to before round n + 3d + 7, and else exactly the messages addressed to before round n + 3d + 8. |
| QueueCalls.GeneratedIff | client/trusted/client_enclave.cpp:94-114 | In every run one more pseudonym, numbered by its place modulo 2^8, iff there are fewer than A_max. |
| QueueCalls.TargetOfLogged | client/trusted/structures.h:237-241 | In every run the round a logged message is addressed to is floor(t_dst/4Delta) - (3d + 7). |
| Inboxes.InboxesRefineTagMap | client/trusted/client_enclave.cpp:455-470 | For every interleaving of packets and rounds, slot 0 holds exactly the contributions accepted for the current round and slot 1 those for the next, and what round r consumes is what is ever accepted under tag r - 1. |
| Inboxes.CollectedSections | client/trusted/client_enclave.cpp:535-558 | A slot holds, section by section, the concatenation of the accepted packets' sections in order of arrival, empty routing vectors left out. |
| AcceptedPackets.AcceptedIff | client/trusted/client_enclave.cpp:516-535 | In every run, for any next packet: accepted iff it is addressed to the client, tagged with the current or the next round, and its sender is none of the last |ps| mod (m_corrupt + 1) of the |ps| packets accepted under its tag; aborts iff addressed to the client and tagged with a later round; otherwise nothing changes. |
| AcceptedPackets.OnlyOwnPackets | client/trusted/client_enclave.cpp:516-519 | In every run every accepted packet is addressed to the client. |
| Inboxes.SendersBounded | client/trusted/client_enclave.cpp:529-535 | Between calls a slot records at most m_corrupt distinct senders, those of the packets since the last batch, each accepted once; the messages it keeps are the first for each delivery time since then. |
| Inboxes.AcceptedTwiceOnlyApart | client/trusted/client_enclave.cpp:529-535 | In every run two packets accepted for one round from one sender never lie in the same group of m_corrupt + 1 packets. |
| Inboxes.Replayed | client/trusted/client_enclave.cpp:529-570 | A concrete run in which they lie in different ones: with m_corrupt = 0 the same packet is accepted twice. |
| Inboxes.DeliveredOncePerQuorum | client/trusted/client_enclave.cpp:560-570 | Messages accepted for a round are handed over exactly once for every m_corrupt + 1 packets, so more than once when twice as many arrive, contrary to the comment in the code. |
| Inboxes.HandedOverTwice | client/trusted/client_enclave.cpp:560-570 | A concrete run that hands messages over twice: 2 (m_corrupt + 1) senders in one round. |
| Inboxes.BatchLosesNothingIff | client/trusted/client_enclave.cpp:549-570 | In every run, the n-th batch of a round comes from the n-th m_corrupt + 1 packets accepted for it, and hands over every message they deliver iff no two different ones share a delivery time. |
| Inboxes.DeliveryLost | client/trusted/client_enclave.cpp:549-570 | A concrete run in which a batch loses a message. |
| AcceptedPackets.BatchKeepsFirst | client/trusted/client_enclave.cpp:549-570 | In every run the n-th batch of a round hands over exactly the messages that come first for their delivery time among those its m_corrupt + 1 packets deliver. |
| Agreement.TupleLifecycle | client/trusted/client_enclave.cpp:250-321 | In every run each tuple is finalized in exactly one round, L_agree - 1 rounds after the one its counter started from, is removed in the next, and stays in the table in between. |
| Agreement.Participants | client/trusted/client_enclave.cpp:223-263 | In every run the deque has min(cur_round + 1, L_agree) entries, entry k being gamma_agree of round cur_round - k, and a tuple with counter l runs among the gamma_agree of round cur_round - l. |
| Agreement.HeardOneRoundLater | client/trusted/client_enclave.cpp:250-290 | When what a node sends in round R makes another node join in round R + 2, the joined tuple's birth - the round its counter starts from, whose participants it runs among and L_agree - 1 rounds after which it is finalized - is one round after that of the sender's tuple. |
| Agreement.SpeaksOnce | client/trusted/client_enclave.cpp:264-290 | All agreement messages of a round come from the tuples taken up in that round. |
| Agreement.FreshSpeaks | client/trusted/distributed_agreement_scheme.cpp:18-38 | A tuple taken up announces its own node once to every participant. |
| Agreement.SilentAfterwards | client/trusted/distributed_agreement_scheme.cpp:18-38 | A tuple that has spoken sends nothing any more. |
| AgreementTable.TableOfRound | client/trusted/client_enclave.cpp:243-265 | The table of a round: the tuples it had, one aware tuple for each announcement, then one for each message reported with a counter below L_agree - 1 that no earlier tuple is about, however often it is reported. |
| AgreementTable.TwiceOnlyIfAnnounced | client/trusted/client_enclave.cpp:253-263 | In every run two tuples of the table are about one message only if it was announced to the client. |
| AgreementTable.KnownAfterUpdate | client/trusted/distributed_agreement_scheme.cpp:13-38 | Whom a tuple knows after the update of a round, in terms of the reports about its message. |
| AgreementTable.RoundThrowsIff | client/trusted/client_enclave.cpp:247-262 | A round throws iff something is announced in round 0 or the first report about a message without a tuple has a counter that reaches back behind round 0. |
| Agreement.DistributedAgreementScheme.Update | client/trusted/distributed_agreement_scheme.cpp:13-38 | After one update a node is known iff it was, or is the own node and the client starts or had known nobody, or was reported and the client starts or had known somebody; the own node is announced to every participant iff the client starts or had known nobody. |
| Agreement.DistributedAgreementScheme.Finalize | client/trusted/distributed_agreement_scheme.cpp:40-46 | The outcome is positive iff more than t nodes are known; with t = 0 always. |
| Agreement.CarryOut | client/trusted/client_enclave.cpp:223-321 | The nested loops of a round - start, look up, join, update, finalize, remove - compute the round step whose runs the theorems are about, the table among them (AgreementTable.TableOfRound); they throw exactly where the step is undefined. |
| QuorumVote.ElementsThatExceed | client/trusted/client_enclave.cpp:594-613 | The vote returns, in increasing order, the first occurrence of exactly the equivalence classes with more than m_corrupt members. |
| QuorumVote.VoteIsUnique | client/trusted/client_enclave.cpp:594-613 | That determines the outcome. |
| QuorumVote.VoteGuarantee | client/trusted/client_enclave.cpp:594-613 | With at most m_corrupt faulty entries every elected class has an honest member; a class with more than m_corrupt honest entries is elected at every receiver, whatever the others send. About classes; which entry stands for its class is in the rows below. |
| QuorumVote.ReturnedIff | client/trusted/client_enclave.cpp:594-613 | An element is returned iff it is the first entry of its class and the class has more than m_corrupt members. |
| QuorumVote.ReturnedHonestIff | client/trusted/client_enclave.cpp:594-613 | Every returned element equals an honest entry iff the first entry of each class with more than m_corrupt members does. |
| QuorumVote.ReturnedHonestIfAlike | client/trusted/client_enclave.cpp:594-613 | With at most m_corrupt faulty entries that is so when no class has two different entries. |
| QuorumVote.FaultyReturned | client/trusted/structures.h:210-212 | A concrete vote that returns a faulty entry no honest sender has sent: f, h, h with equal delivery time and m_corrupt = 1. |
| QuorumVote.MajorityLost | client/trusted/structures.h:210-212 | A concrete vote without faulty entries that loses a message sent m_corrupt + 1 times, to another one for the same delivery time. |
| RoundSections.Elected | client/trusted/client_enclave.cpp:325-377 | In a round the three votes return exactly the first entries of the classes with more than m_corrupt entries of the inject, routing and predeliver inputs, messages in the order of their delivery times. |
| Structures.RoutingOrder | client/trusted/structures.h:334-337 | operator< on routing tuples is a strict weak order; equivalent are tuples with equal bucket key and equal delivery time. |
| Structures.RoutingVecOrder | client/trusted/structures.h:334-337 | The order of vectors of routing tuples is a strict weak order. |
| Structures.RoutingVecEquiv | client/trusted/structures.h:334-337 | Vectors a map cannot tell apart are equally long, with tuples of equal key and delivery time. |
| Ordering.LexIff | client/trusted/structures.h:334-337 | Lexicographic comparison, of bytes and of vectors: one list comes before another iff at some place, all before being equivalent, it has the lesser entry or ends. |
| Structures.RoutingLessIff | client/trusted/structures.h:334-337 | The order written out: destination, bucket, address round, current onid, delivery time. |
| Structures.MessageOrder | client/trusted/structures.h:210-212 | operator< on messages is a strict weak order that tells messages apart by delivery time alone. |
| Structures.PeerOrder | include/shared_structs.h:43-96 | operator< on peers is a strict total order. |
| Structures.PeerLessIff | include/shared_structs.h:43-96 | The order written out: id, address bytes, port. |
| Hypercube.WalkReachesTarget | client/trusted/overlay_structure_scheme.cpp:174-185 | The next-hop rule reaches every onid in exactly Hamming-distance many hops, at most d, each to another member of the closed neighbourhood, and stays there. |
| Hypercube.NoShorterPath | client/trusted/overlay_structure_scheme.cpp:174-185 | No path over hypercube edges is shorter. |
| Hypercube.NeighborInOneHop | client/trusted/overlay_structure_scheme.cpp:174-185 | A neighbour is reached in one hop. |
| Hypercube.DetermineNextHop | client/trusted/overlay_structure_scheme.cpp:175-185 | The loop with its bit trick computes the next hop. |
| Hypercube.NextHopBits | client/trusted/overlay_structure_scheme.cpp:175-185 | The next hop takes the lowest bit in which the two onids differ from the target and every other bit from the own one. |
| Hypercube.NeighborIff | include/shared_functions.h:15-21 | The closed neighbourhood is the node and the numbers that differ from it in exactly one bit below d. |
| Hypercube.NeighborsSymmetric | include/shared_functions.h:15-21 | The closed neighbourhood is symmetric. |
| Hypercube.ForAllNeighbors | include/shared_functions.h:15-21 | The callback is called on the node and its d neighbours, in order. |
| Overlay.RunsKeepDistinct | client/trusted/overlay_structure_scheme.cpp:49-92 | Over every sequence of updates from duplicate-free tables every list of gamma_route_, gamma_route_new_, gamma_receive_new_ and of the returned table stays duplicate-free, and the returned lists extend the current ones. |
| Overlay.ResultExtends | client/trusted/overlay_structure_scheme.cpp:193-212 | Each returned list has the current list as prefix and is, as a set, its union with both previous lists. |
| Overlay.OverlayStructureScheme.Update | client/trusted/overlay_structure_scheme.cpp:31-213 | One update, step by step, leaves what the functions of the ten steps say and returns, each under its own name, the tables it leaves; what that is in plain terms is in the rows of OverlayRuns and Bootstrap.FirstResult. |
| Overlay.ForwardedTo | client/trusted/overlay_structure_scheme.cpp:174-191 | A queued message is sent to a peer iff the peer is in the quorum next on the greedy way to the message's onid. |
| Overlay.RequestForwarding | client/trusted/overlay_structure_scheme.cpp:112-127 | An emulate request is passed on, one bit closer, at every quorum but its own, where forwarding ends; every neighbour is told of it in one hop. |
| Overlay.HopHasEntry | client/trusted/overlay_structure_scheme.cpp:186-191 | With a table for the whole neighbourhood the lookup of the next hop finds an entry and creates none. |
| Overlay.HandOverPhases | client/trusted/overlay_structure_scheme.cpp:158-171 | The phase of step (7) comes iff d <= 1, and the phase of steps (5) and (8) for no d. |
| OverlayRuns.Reconfigured | client/trusted/overlay_structure_scheme.cpp:49-155 | A reconfiguration after any run of updates since the one before: the client emulates the quorum drawn then, announces to whoever introduced itself since, lists exactly the peers handed over since and agrees with those under its onid, and keeps the successors heard of for its old quorum; gamma_receive is as before. |
| OverlayRuns.StepKeepsUse | client/trusted/overlay_structure_scheme.cpp:49-155 | No other update changes the quorum, the lists in use or, with any update, gamma_receive. |
| OverlayRuns.PreviousLists | client/trusted/overlay_structure_scheme.cpp:95-101 | The update after a reconfiguration adds the own list to those kept for previous quorums; no other one changes these before the next reconfiguration. |
| OverlayRuns.SentIff | client/trusted/overlay_structure_scheme.cpp:88-191 | Exactly which overlay messages an update sends to a peer: the successor table in the hand-over phase, and to the quorum next on the way a request for the quorum just drawn, requests passed on, and word of every request to the whole neighbourhood. |
| OverlayRuns.KnownOnids | client/trusted/overlay_structure_scheme.cpp:49-212 | Which onids have an entry in the table after an update and in the one it returns, empty entries included. |
| RoutingScheme.Route | client/trusted/routing_scheme.cpp:10-39 | One call: sorts, cancels, fixes one bit of each surviving tuple; its asserts hold iff every survivor's step index is in range. |
| RoutingScheme.DetermineElementsToBeCancelled | client/trusted/routing_scheme.cpp:41-71 | The scan reports exactly the buckets other than the greatest with more than k_recv tuples and the buckets of the tuples before cancel markers, and replaces element 0 by the first tuple of the greatest bucket. |
| SurvivingBuckets.MarkedIff | client/trusted/routing_scheme.cpp:53-56 | Which buckets cancel markers are charged to, in terms of the unsorted list: a bucket with a marker that is not the first of its bucket or is in the least one, and the bucket before one that begins with a marker. |
| SurvivingBuckets.SurvivorsOfBucket | client/trusted/routing_scheme.cpp:14-20 | For any unsorted list, how many tuples of each bucket reach the bit-fixing step. |
| SurvivingBuckets.SurvivingTuples | client/trusted/routing_scheme.cpp:14-20 | Which tuples those are: every copy of every tuple of a bucket that is not cancelled, save that one of the least is replaced by one of the greatest bucket. |
| SurvivingBuckets.AssertsHoldIff | client/trusted/routing_scheme.cpp:17-25 | The asserts of route hold for a list iff every tuple of it has its address round in range or lies in a bucket the scan empties - one that is marked, or is not the greatest and has more than k_recv tuples or, being the least, just one. |
| SurvivingBuckets.SurvivorsPerBucket | client/trusted/routing_scheme.cpp:14-20 | Every bucket but the greatest keeps at most k_recv tuples, and the greatest keeps all of its own, plus one if there is another bucket, unless it is marked. So the bound holds for all buckets iff the greatest is marked or small enough. |
| SurvivingBuckets.FirstIsLeast | client/trusted/routing_scheme.cpp:48-67 | The bucket that is overwritten is the least one and the bucket that is never flushed the greatest. |
| SurvivingBuckets.SingleBucketOverflows | client/trusted/routing_scheme.cpp:60-66 | A concrete family on which the bound fails: k_recv + 1 copies of one tuple all survive. |
| BitFixing.TwoPhaseRouting | client/trusted/routing_scheme.cpp:22-35 | The calls in rounds l_dst - 2d to l_dst - 1 leave bits 1..d of the intermediate target, in bits d+1..2d bits 1..d of the destination, and every other bit and field unchanged; each flips at most one bit. |
| BitFixing.AdvancedTuple | client/trusted/routing_scheme.cpp:22-36 | One call: the k-th survivor comes out k-th with every field but the current onid, and of that every bit but the n-th, unchanged; which bit of which number that one becomes. |
| BitFixing.ArrivesIff | client/trusted/routing_scheme.cpp:26-31 | For onids of the overlay the tuple arrives at its destination if and only if destination and intermediate target are 0 or 1 and the start has the destination's lowest bit. |
| BitFixing.DoesNotArrive | client/trusted/routing_scheme.cpp:26-31 | A concrete tuple that does not arrive. |
| BitFixing.FromZeroArrives | client/trusted/routing_scheme.cpp:26-31 | With positions counted from 0 in both halves every tuple passes its intermediate target and arrives. |
| BitFixing.BucketsMerge | client/trusted/routing_scheme.cpp:17-35 | Tuples for one bucket that agree on bit 0 and above bit d have the same key after the first d calls and ever after. |
| RoundWork.RouteAssertsIff | client/trusted/client_enclave.cpp:327-356 | No tuple traffic_out passes to route is in the range of its asserts; they hold in a round iff the scan empties every bucket of what is passed. |
| RoundSections.RoutedTuples | client/trusted/client_enclave.cpp:327-356 | What is sorted and scanned: for every elected message that is no dummy a tuple from the onid of decrypt(n_src) to that of decrypt(n_dst), 2d + 2 rounds ahead, and the elected tuples whose address round is past. |
| RoundWork.PaddingAborts | client/trusted/client_enclave.cpp:341-356 | A round, not the first, is never carried out when nothing has come but padding, equally long from more than m_corrupt neighbours: dummies are overdue tuples and are routed. |
| RoundWork.NeighborsAbort | client/trusted/client_enclave.cpp:341-356 | Concretely: an input collected from more than m_corrupt packets that carried-out rounds send, with nothing to inject, aborts the receiver. |
| RoundWork.NothingIsRouted | client/trusted/client_enclave.cpp:341-365 | A round is carried out to the end only when no tuple survives the cancel scan; every entry of every routing section it sends is a dummy, and every neighbour gets exactly max_routing_msg_out of them. |
| RoundWork.SameOverlaySameShape | client/trusted/client_enclave.cpp:357-417 | Any two rounds with the same overlay result give a recipient packets with the same numbers of announce, routing and predeliver entries, and of deliver entries if it is in gamma_receive, whatever was queued and received. |
| RoundWork.TrafficShapeOfRound | client/trusted/client_enclave.cpp:384-417 | These numbers as a function of the overlay result. |
| RoundWork.EveryoneGetsPacket | client/trusted/client_enclave.cpp:384-449 | Every member of gamma_send, gamma_receive or a routing list gets a packet in every round. |
| RoundSections.Header | client/trusted/client_enclave.cpp:442-449 | Every packet names the client as sender, the next round and the overlay messages for its recipient; no two have one recipient. |
| RoundSections.AnnounceSections | client/trusted/client_enclave.cpp:234-241 | Each member of gamma_send gets all popped messages in order and dummies up to k_send A_max; nobody else gets any. |
| RoundSections.AgreementSections | client/trusted/client_enclave.cpp:284-289 | Each recipient gets exactly the agreement messages sent to it, in order. |
| RoundSections.PredeliverSections | client/trusted/client_enclave.cpp:367-373 | The members of the own quorum get the messages of the elected tuples addressed to this round, in order, and dummies up to k_recv A_max |gamma_receive|; nobody else gets any. |
| RoundSections.DeliverSections | client/trusted/client_enclave.cpp:375-382 | Each peer gets exactly the elected messages that are no dummies and whose decrypt(n_dst) names it, in order, with dummies up to k_recv A_max if it is in gamma_receive. |
| RoundSections.AbortedForReason | client/trusted/client_enclave.cpp:292-417 | A round aborted in its work has one of these reasons: an unknown source onid, a surviving tuple, a peer listed twice, too many messages to announce, to predeliver or to deliver to a member of gamma_receive. |
| RoundSections.NotCarriedOut | client/trusted/client_enclave.cpp:292-417 | And with any of these reasons no round is carried out. |
| RoundWork.FinishRound | client/trusted/client_enclave.cpp:292-452 | Votes, injection, routing, predelivery, delivery, padding and packets as the loops build them, all related to the round's input; aborted iff a finalized message has an unknown source quorum, a surviving tuple is out of range, a peer stands twice in the routing table or a section is too long. |
| Outbound.BuildPackets | client/trusted/client_enclave.cpp:420-449 | The loops yield exactly one packet for each key of the seven maps, with the entries of that key, naming the client as its sender and tagged with the next round. |
| Outbound.OutboundConservation | client/trusted/client_enclave.cpp:420-449 | For each of the seven sections, collecting the packets gives back exactly the multiset of recipients and entries put into its map. |
| Outbound.BroadcastMap | client/trusted/client_enclave.cpp:237-239 | A broadcast to distinct peers gives each of them all items in order, and nobody else any. |
| Outbound.RouteToNeighbors | client/trusted/client_enclave.cpp:357-365 | A tuple is in the section of a neighbour iff it is among the routed ones and the onid it is at lists that neighbour; the assert on single entries holds iff every peer stands once, under one onid. |
| Outbound.TrafficShape | client/trusted/client_enclave.cpp:384-417 | After padding the sizes of four sections are determined by the overlay result. |
| Outbound.AddDummies | client/trusted/client_enclave.cpp:384-417 | The padding loops fill up every listed peer and fail exactly when a section is too long already. |
| Outbound.AddIfNotPresent | client/trusted/client_enclave.cpp:615-626 | The recipient list stays duplicate-free and becomes the union of what it was and the keys of the map. |
| ClientEnclave.ClientEnclave.GeneratePseudonym | client/trusted/client_enclave.cpp:94-114 | Changes the fields as the queue's state machine says - a pseudonym more unless there are A_max - and returns the first 64 bytes of the encrypted record, or zeros; no such bytes can be decrypted. |
| CryptFrame.PseudonymIsCut | client/trusted/client_enclave.cpp:100-109 | The frame of a pseudonym has 65 bytes; cut to 64 it fails the size assert of decryption. |
| ByteLayout.PseudonymBytes | client/trusted/client_enclave.cpp:94-109 | The bytes of a generated pseudonym by offset: lengths 29 and 0, iv, mac, and the encrypted record of onid, peer and number without its last byte. |
| ClientEnclave.ClientEnclave.SendMessage | client/trusted/client_enclave.cpp:116-159 | Accepts or rejects as the state machine says, counting under the round of t_dst. |
| ClientEnclave.ClientEnclave.TrafficIn | client/trusted/client_enclave.cpp:516-572 | Ignores, aborts on or accepts a packet as the inbox state machine says - in plain terms AcceptedPackets.AcceptedIff; a completed batch is pushed to the queues of its pseudonyms and nothing else is. |
| ClientEnclave.ClientEnclave.TrafficInFrame | client/trusted/client_enclave.cpp:489-514 | Bytes are decrypted and parsed before the packet is taken in as above; refused and empty ones change nothing. |
| ClientEnclave.EncryptAll | client/trusted/client_enclave.cpp:430-449 | Every packet is serialized and encrypted for its own recipient. |
| ClientEnclave.ClientEnclave.TrafficOut | client/trusted/client_enclave.cpp:189-470 | Skipped iff not in the first subround of a new round, aborted when a round was missed; otherwise a round that takes all three state machines one step and sends the packets the round relation describes, or is aborted for one of the stated reasons. |
| ClientEnclave.ClientEnclave.RoundIsStep | client/trusted/client_enclave.cpp:189-470 | A carried-out call of traffic_out is a step of the runs that ClientRun is about. |
| ClientEnclave.AdmissionInWords | client/trusted/client_enclave.cpp:205-213 | The admission test on 64-bit words, with the round starting at -1, admits exactly round cur_round + 1. |
| ClientEnclave.DeliverAll | client/trusted/client_enclave.cpp:562-566 | Each non-dummy message of the batch is pushed once, to the queue of its own pseudonym. |
| Rounds.RoundOfSubround | client/trusted/helpers.h:32-43 | A subround number divided by four is the round number. |
| Serialization.NumberRoundTripIff | include/serialization.h:24-47 | An eight-byte number is read back as written if and only if it is below 2^31 or all ones; the cursor is exact in any case. |
| Serialization.SmallNumberRoundTrip | include/serialization.h:24-47 | One- and four-byte numbers are read back as written. |
| Serialization.VecRead | include/serialization.h:55-82 | A vector whose items are readable is read item by item, at any offset and before any suffix, to its exact end. |
| Serialization.WorkingVec.PushNumber | include/serialization.h:24-29 | The loop of shifts and masks appends the big-endian bytes. |
| Serialization.WorkingVec.PushVec | include/serialization.h:55-62 | Appends length and items. |
| Serialization.Cursor.ReadNumber | include/serialization.h:38-47 | The accumulation loop, with bytes shifted as 32-bit ints, reads the number and advances the cursor. |
| Serialization.Cursor.ReadVec | include/serialization.h:71-82 | Reads length and items; fails exactly where some item is out of bounds. |
| WireFormat.RecordImagesIff | client/trusted/structures.h:251-365 | With advancing readers messages, agreement tuples and routing tuples come back iff their 64-bit numbers do. |
| WireFormat.MessageReads | client/trusted/structures.h:251-264 | With advancing readers a message is read at any offset, with its exact end. |
| WireFormat.AgreementReads | client/trusted/structures.h:302-313 | The same for agreement tuples. |
| WireFormat.RoutingReads | client/trusted/structures.h:349-364 | The same for routing tuples. |
| WireFormat.MessageAsCodedIff | client/trusted/structures.h:75-79 | As coded, a message advances the cursor by 8 bytes only and comes back iff it repeats itself: same pseudonyms, the text starting with them, the time in their first bytes. |
| WireFormat.ReadAsDummy | client/trusted/structures.h:187-191 | As coded, a message whose source pseudonym begins with eight zero bytes is read as a dummy. |
| WireFormat.MessageLost | client/trusted/structures.h:258-264 | A concrete message lost in this way. |
| WireFormat.PeerReads | include/shared_structs.h:101-111 | A peer is read at any offset, with its exact end. |
| WireFormat.PeerImageIff | include/shared_structs.h:57-111 | A peer comes back iff its id and port are faithful. |
| WireFormat.TableImageIff | client/trusted/overlay_structure_scheme.cpp:219-237 | A table of lists of peers comes back iff every onid, id and port in it is faithful. |
| WireFormat.FromRowsOfRows | client/trusted/overlay_structure_scheme.cpp:219-237 | Writing a table row by row and assigning the rows in turn gives the table back. |
| WireFormat.OverlayReads | client/trusted/overlay_structure_scheme.cpp:215-241 | An overlay message with its nested map is read at any offset, with its exact end. |
| WireFormat.OverlayImageIff | client/trusted/overlay_structure_scheme.cpp:215-241 | It comes back iff all its 64-bit numbers are faithful. |
| WireFormat.AadRead | client/trusted/structures/aad_tuple.h:31-46 | Additional data is read at any offset, with its exact end. |
| WireFormat.AadImageIff | client/trusted/structures/aad_tuple.h:31-46 | It comes back iff all its 64-bit numbers are faithful. |
| WireFormat.SectionsRead | client/trusted/client_enclave.cpp:433-440 | With advancing readers the six sections are read to their exact end, at any offset and before any suffix. |
| WireFormat.SectionsImageIff | client/trusted/client_enclave.cpp:506-514 | They come back iff all their 64-bit numbers are faithful. |
| WireFormat.SectionsAsCodedIff | client/trusted/client_enclave.cpp:506-514 | As coded, six sections come back with the cursor at their end if and only if all six are empty. |
| WireFormat.SectionsLength | client/trusted/structures.h:251-256 | How many bytes the sections take is determined by their numbers of entries. |
| WireFormat.SerializeTable | client/trusted/overlay_structure_scheme.cpp:219-223 | The loop over the map writes its rows in the order of the keys. |
| WireFormat.SerializeOverlay | client/trusted/overlay_structure_scheme.cpp:215-225 | Appends an overlay message field by field. |
| WireFormat.SerializeAad | client/trusted/structures/aad_tuple.h:31-37 | Appends additional data with all its overlay messages. |
| WireFormat.SerializeSections | client/trusted/client_enclave.cpp:433-440 | Appends the six sections in order. |
| WireFormat.DeserializeTable | client/trusted/overlay_structure_scheme.cpp:233-237 | The loop reads rows and assigns them one after another; it fails exactly where a row is out of bounds. |
| WireFormat.DeserializeSections | client/trusted/client_enclave.cpp:506-514 | The six vectors are read one after another from one cursor. |
| WireFormat.DecryptedRoundTrip | client/trusted/structures.h:142-154 | A decrypted pseudonym takes 29 bytes and comes back iff its numbers are faithful. |
| WireFormat.ParcelsRead | include/shared_structs.h:132-150 | The output of a round, recipients and frames, is read back with every frame unchanged. |
| ByteLayout.NumberBytes | include/serialization.h:24-29 | Byte i of a number is its i-th most significant one. |
| ByteLayout.VecLayout | include/serialization.h:55-62 | A vector of items of one length: the count, then item k at offset 8 + k times that length. |
| ByteLayout.PeerLayout | include/shared_structs.h:57-105 | The bytes of a peer by offset. |
| ByteLayout.MessageLayout | client/trusted/structures.h:251-256 | The bytes of a message by offset. |
| ByteLayout.AgreementLayout | client/trusted/structures.h:302-306 | The same for agreement tuples. |
| ByteLayout.RoutingLayout | client/trusted/structures.h:349-355 | The same for routing tuples. |
| ByteLayout.PseudonymLayout | client/trusted/structures.h:142-146 | The same for decrypted pseudonyms. |
| ByteLayout.OverlayLayout | client/trusted/overlay_structure_scheme.cpp:215-225 | The same for overlay messages, up to table and list. |
| ByteLayout.RowsOf | client/trusted/overlay_structure_scheme.cpp:219-223 | The rows of a table: one for each onid, ascending, with its list. |
| ByteLayout.RowLayout | client/trusted/overlay_structure_scheme.cpp:219-223 | Onid, then list. |
| ByteLayout.ParcelLayout | include/shared_structs.h:132-150 | Receiver, length, frame. |
| ByteLayout.AdditionalDataLayout | client/trusted/structures/aad_tuple.h:31-37 | The additional data of a packet by offset: sender, receiver, round, overlay messages. |
| ByteLayout.SectionsLayout | client/trusted/client_enclave.cpp:435-440 | The six sections of a packet by offset, each a vector of its own records. |
| ByteLayout.FrameLayout | include/cryptlib.cpp:17-57 | The frame of a packet by offset: both lengths, iv, additional data, then mac and ciphertext of the sections under all that comes before. |
| CryptFrame.FrameRoundTripIff | include/cryptlib.cpp:17-89 | Decryption gives plaintext and additional data back if and only if both are shorter than 2^32 bytes. |
| CryptFrame.FrameOpens | include/cryptlib.cpp:59-89 | What it gives otherwise: a failing assert, or a cut plaintext. |
| CryptFrame.EmptyIff | client/trusted/client_enclave.cpp:497-501 | A frame counts as empty iff both parts in it are. |
| CryptFrame.Encrypt | include/cryptlib.cpp:17-57 | The frame is built by appending lengths, iv, additional data, mac and ciphertext. |
| CryptFrame.EncryptPacket | client/trusted/client_enclave.cpp:431-449 | Both parts of a packet are serialized by the loops and encrypted. |
| CryptFrame.PacketRoundTripIff | client/trusted/client_enclave.cpp:495-514 | With advancing readers every packet of the outgoing side is parsed to the end of both parts, and comes back iff all its 64-bit numbers are faithful. |
| CryptFrame.PacketAsCodedIff | client/trusted/client_enclave.cpp:495-514 | As coded, a packet comes back with both cursors at the end if and only if its six sections are empty and the numbers of its additional data are faithful. |
| CryptFrame.PacketLength | client/trusted/client_enclave.cpp:431-449 | The length of a framed packet is determined by its numbers of entries and its additional data. |
| Bootstrap.SameSectionBytes | client/trusted/client_enclave.cpp:357-449 | Two rounds with the same overlay result give a recipient sections of the same length in bytes. |
| ServerEnclave.AssociatedPartition | server/trusted/server_enclave.cpp:71-79 | The associated quorums in order are the list of clients, and all but the last have the same size. |
| ServerEnclave.AssociatedIff | server/trusted/server_enclave.cpp:71-79 | A client is in an associated quorum iff that quorum is recorded for it. |
| ServerEnclave.AssociatedRange | server/trusted/server_enclave.cpp:71-79 | Client j is associated with quorum q iff q n <= j and j < (q + 1) n or q is the last, n clients per quorum. |
| ServerEnclave.InitialLists | server/trusted/server_enclave.cpp:99-118 | What the server tells client i, in terms of draws and associated quorums: j is in gamma_send iff i is associated with the quorum j has drawn; gamma_receive is the clients associated with the quorum i has drawn; j is in the table under o iff it has drawn o and o is i's quorum or differs from it in one bit; the quorums named are the one drawn and the one associated. |
| ServerEnclave.InitializedIff | server/trusted/server_enclave.cpp:60-98 | Initialization succeeds iff the clients suffice for all quorums and every quorum is drawn; draws are taken modulo the number of quorums, ids are places in the list. |
| ServerEnclave.SendReceiveDual | server/trusted/server_enclave.cpp:101-104 | j is in gamma_send of i iff i is in gamma_receive of j. |
| ServerEnclave.RouteSymmetric | server/trusted/server_enclave.cpp:107-111 | j is in a routing list of i iff i is in one of j. |
| ServerEnclave.InitialTables | server/trusted/server_enclave.cpp:99-111 | For any draw that passes the assert: no peer twice or under two onids, entries for exactly the closed neighbourhood, no list empty. |
| ServerEnclave.ServerEnclave.ReceivedJoin | server/trusted/server_enclave.cpp:14-31 | Clients are collected until the required number; the one completing it starts the initialization; later ones are ignored. |
| ServerEnclave.ServerEnclave.InitializeSystem | server/trusted/server_enclave.cpp:50-124 | The loops compute the assignment the theorems are about - in plain terms InitialLists and InitializedIff - and fail iff it is not valid. |
| Bootstrap.InitialTablesServe | server/trusted/server_enclave.cpp:107-111 | A client starting from the server's tables: every run of updates keeps its lists, and the lists of the returned tables, duplicate-free; whatever the first update receives and draws, the table it returns has every peer under one onid, so the client's assert holds in round 0; every greedy hop finds a non-empty entry. |
| Bootstrap.FirstResult | client/trusted/overlay_structure_scheme.cpp:193-212 | What the first update of client i returns, whatever it receives and draws: j is in gamma_agree iff it has drawn i's quorum, in gamma_send iff i is associated with the quorum j has drawn, under o iff it has drawn o and o is i's quorum or one bit away; gamma_receive is the clients associated with i's quorum. |
| Bootstrap.SecondUpdateIsolates | client/trusted/overlay_structure_scheme.cpp:49-92 | Unless tables were handed over in round 0, round 1 leaves gamma_send, gamma_agree and every list of gamma_route_ empty; the returned table lists only the successors known for the old quorum, each peer under one onid. |
| Bootstrap.RelayChain | client/trusted/overlay_structure_scheme.cpp:173-191 | From any client's quorum to any onid, every hop of the greedy way leads from a client emulating one quorum to a client in its table emulating the next. |
| InitMessage.ImageFits | include/shared_structs.h:354-383 | Exactly as many bytes are written as are allocated. |
| ByteLayout.InitLayout | include/shared_structs.h:354-412 | The bytes of the message by offset: nine words in their order, three keys, both vectors, the rows. |
| ByteLayout.InitRowLayout | include/shared_structs.h:395-408 | Onid, count, peers. |
| ByteLayout.WordBytes | include/shared_structs.h:354-412 | Byte i of a word is its i-th least significant one. |
| InitMessage.Serialize | include/shared_structs.h:354-412 | The buffer has the computed size, no write leaves it, and it holds the whole message. |
| InitMessage.InitRoundTrip | include/shared_structs.h:316-348 | The parsing constructor reads back the same header, keys, vectors and map and stops at the end, whatever follows. |
| InitMessage.ParseRoute | include/shared_structs.h:338-346 | The loop over the map assigns the rows read. |

## Left out

- Sockets, main loops, launch tokens, enclave call glue, printing, the console client: input and output only.
- AES-GCM, CMAC and random numbers: an abstract cipher whose decryption undoes encryption (sections 7.1 and 7.2 of NIST SP 800-38D), an arbitrary function for the intermediate target, arbitrary random numbers.
- Trusted time and its nonce: every call gets the time as an argument; theorems about runs assume that it does not go back and stays a message lead below 2^64.
- What decrypting a pseudonym gives: as coded it always fails, so an arbitrary function from pseudonyms to records stands for it.
- `receive_message`: it copies the head of a queue out.
- `initialized_` and `received_msg_from_server`: the model starts with an initialized client, whose sizes m_corrupt and max_routing_msg_out are parameters instead of being computed in floating point.
- A client after an abort: a failing assert ends the process.
- Uninitialized memory: dummy messages are modelled with zero bytes, and the first value of onid_emul_new_ is arbitrary.
- The order of equal delivery times in the priority queue: any message with the least time may be the head.
- Liveness of the reconfiguration of the overlay: its hand-over rounds do not occur for d >= 2.
- Sequences of more than 2^31 - 1 elements on the wire, and InitMessage sizes beyond the range of int.
- Bytes of a peer object that are not members (virtual table pointer, padding) in `InitMessage`: a layout says how the members are put and got.
- Conversions to strings and comparison operators other than equality and less-than.
