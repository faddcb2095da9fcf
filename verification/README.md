# MoonState: a verified model

MoonState runs per-connection state machines over batches of packets. This project models
its packet array, its state machine framework, and the protocols built on them, and proves
what they guarantee over whole batches and whole runs.

| file | what it models |
|---|---|
| `Words.dfy` | 8-, 16-, 32- and 64-bit words and their wrap-around |
| `Checksum.dfy` | the IPv4 header checksum loop |
| `BufArray.dfy` | the growing packet array with its send/free marks |
| `ConCtl.dfy` | the duplicate-acknowledgement counter |
| `TcpQueues.dfy` | segmentation, pruning, requeueing and the send loop, on values |
| `TcpSteps.dfy` | what one packet does to one TCP connection, on values |
| `TcpServer.dfy`, `FunIface.dfy` | the same in place: `Connection`, `TcpIface`, the three state functions |
| `TcpRuns.dfy` | conservation and sequence numbers over whole runs |
| `TcpAcks.dfy` | what acknowledgements release, what resets send again, and the 32-bit wrap |
| `TcpWire.dfy` | which of the segments counted as sent are on an outgoing packet |
| `TcpDelivery.dfy` | Go-Back-N delivery, cumulative acknowledgement, the echo protocol |
| `TcpReplies.dfy` | what is answered in every state, when the server closes, what the protocol gets enqueued |
| `TcpClose.dfy` | where our FIN stands, what an orderly close guarantees, and which connections reach it |
| `TcpWitness.dfy` | concrete runs on which the source falls short, and one that closes in order |
| `StateMachine.dfy` | lookup, adoption, creation, dispatch, removal and batches, on values |
| `Machine.dfy` | the same in place: connection pool, state machine object, batch loop |
| `Handoff.dfy` | several cores sharing one connection pool, in every interleaving |
| `HelloBye.dfy` | the HelloBye3 handlers, on values and in place |
| `Agreement.dfy` | HelloBye3 client and server over a lossy, duplicating, reordering network |
| `FourRounds.dfy` | a batch of N connections through the whole exchange |
| `MemPool.dfy` | the HelloBye3 server with records borrowed from a fixed pool |
| `FlowIdentity.dfy` | the five-tuple identity and the server's address swap |

How it fits together: the objects that the source updates in place (`BufArray`,
`TcpConCtlSimple`, `Connection`, `StateMachine`, `ConnectionPool`, the HelloBye sessions, the
record pool) are classes whose methods keep the source's loops. Each method is proved to
compute a function on values, and the theorems are about those functions: a TCP run is a fold
of `TcpSteps.EstStep` and its siblings, a batch a fold of `StateMachines.RunPkt`.

What stands for the outside world: a TCP protocol object is an arbitrary function supplied
with each packet, so protocols with state of their own are covered; `rand()` is an arbitrary
function of the number of sessions created; the record pool may hand out any free record; the
network may deliver any packet ever sent, any number of times, in any order.

Where the code departs from its evident intent the model follows the code, and exactly when
the intended property holds, and that it can fail, is proved:

- A segment that the window cuts loses its data, because the length already taken is
  subtracted on both halves a second time. Bytes are conserved over a run exactly when no
  window ends inside a segment (`TcpRuns.RunConservesBytesIff`); two bytes echoed into a
  window of one are gone (`TcpWitness.CutLosesBytes`).
- Header length is counted from the received data offset, but the data handed to the protocol
  starts 20 bytes behind the TCP header. The two agree exactly for segments without options
  (`TcpDelivery.CountedIsDeliveredIff`, `TcpDelivery.OptionsAreDeliveredAsData`).
- `firstPacket` is never cleared, so one call writes all its segments into one packet, which
  carries only the last (`TcpWire.ReplyCarriesLastWritten`). A call's packet carries all it
  moves to the sent queue exactly when the call is offered one segment at most or its first
  segment takes the whole window (`TcpWire.AllWrittenAreCarriedIff`,
  `TcpWire.CarriedIsWrittenIff`); otherwise a segment may count as sent and be on no outgoing
  packet (`TcpWitness.EchoIsOnNoPacket`).
- When data was delivered and nothing can be sent in answer, the packet is sent back with the
  peer's own payload under the server's sequence number (`TcpWire.UnansweredPayloadGoesBack`).
  The replies of the closing state keep the peer's payload as well. Besides these, only the
  last segment of a call gets on the wire (`TcpWire.OnWireIff`).
- The pruning test compares 32-bit numbers as they stand. A step releases only acknowledged
  segments exactly when the acknowledgement is not ahead of `seqLocal`, or every sent segment
  ends ahead of it too (`TcpAcks.ReleaseIsSoundIff`); otherwise a late acknowledgement from
  before the wrap, or one for data never sent, releases what the peer does not have
  (`TcpAcks.LateAckReleasesUnacked`, `TcpWitness.AckAheadReleases`).
- A reset goes back to the acknowledgement that triggers it, and requeues only what starts
  beyond that number: the segment the peer asks for stays on the sent queue and is never sent
  again (`TcpAcks.RequeuedIff`, `TcpAcks.MissingSegmentIsNeverResent`).
- FIN is set on whatever packet is at hand, so it leaves behind that packet's payload. It
  stands at its own number exactly when what was sent last ends at `seqLocal`, or nothing was
  sent and the packet came without payload (`TcpClose.FinIsNumberedIff`). It does not behind a
  payload sent back unanswered, where a peer that acknowledges it is reset
  (`TcpWitness.BouncedFinIsReset`).
- `runAckFin` ends in order only on a second FIN, numbered one behind the first. A connection
  whose peer closes first, and so every connection of the echo protocol, never gets there
  (`TcpClose.PeerClosingFirstIsNeverClosed`, `TcpClose.EchoIsNeverClosed`); one that the
  protocol closes does (`TcpWitness.ServerClosesFirst`), on exactly one packet, whose data is
  dropped (`TcpClose.ClosesIff`).
- The duplicate counter wraps after 2^32 duplicates in a row; otherwise the trigger is exact
  (`ConCtls.ResetFiresIff`, `ConCtls.ResetMissesAfterWrap`).
- The checksum loop covers twice the header. The header alone verifies exactly when the
  half-words behind it cancel (`Checksum.HeaderVerifiesIffTrailerCancels`).

A step of `Handoff` is one whole packet. This loses no interleaving of the shared pool:
`findAndErase` is atomic, and besides it a packet touches only its own core's table.

## Model

| member | source | states |
|---|---|---|
| TcpDelivery.GoBackNDelivers | src/tcp.cpp:214-279 | For every run of packets of one peer, with any loss, duplication and reordering, the bytes handed to the protocol are a prefix of the peer's stream, each byte once and in order, and the expected sequence number is ISN + 1 + their number, plus one once the FIN is in |
| TcpDelivery.ExpectedIsDelivered | src/tcp.cpp:220-279 | In order, a packet is accepted exactly when it starts at the first undelivered offset; then exactly its bytes are added; every other packet delivers nothing |
| TcpDelivery.RemoteCountsDelivered | src/tcp.cpp:69-74 | For arbitrary peers sending no options, the next expected number counts SYN, every delivered byte and every accepted FIN, modulo 2^32 |
| TcpDelivery.RepliesAcknowledgeDelivered | src/tcp.cpp:227-265 | Every reply that is not a reset acknowledges exactly the bytes and FINs received in order so far |
| TcpReplies.WireAcknowledgesReceived | src/tcp.cpp:29-455 | Every packet that leaves and is no reset, from the SYN-ACK to the last reply, acknowledges SYN, every byte delivered and every FIN taken by then, the closing one included |
| TcpReplies.RepliesGoBack | src/tcp.cpp:48-56 | Every packet that leaves goes back to its sender's address and port, with a fresh TTL and no IP checksum |
| TcpReplies.ResetIff | src/tcp.cpp:58-65 | In every state exactly the packets with wrong flags, and in the closing state those out of place, are reset; a reset ends the connection and leaves it untouched |
| TcpReplies.HandshakeReply | src/tcp.cpp:69-86 | An opening packet is answered by a SYN-ACK numbered 0 that acknowledges one past the client's number |
| TcpReplies.ClosingReply | src/tcp.cpp:434-454 | In the closing state the peer's FIN gets a bare ACK of it, numbered behind our FIN, and ends the connection; anything else in place is freed and changes nothing |
| TcpReplies.EstReply | src/tcp.cpp:218-378 | In the established state, which packets are answered, that the answer acknowledges the expected number, carries FIN exactly on closing, and when the state is left |
| TcpReplies.EstReplyNumber | src/tcp.cpp:220-356 | The number, payload, window and IP id of the answer, for unexpected packets, for packets with something written, and for the others |
| TcpReplies.IdsCountWritten | src/tcp.cpp:346 | Over every run the IP id counts the segments ever written |
| TcpReplies.ClosingIff | src/tcp.cpp:237-371 | Over every run, the server means to close if and only if a FIN was accepted or the protocol asked, and then stays established only while data is queued |
| TcpReplies.FinIsSent | src/tcp.cpp:365-371 | A step enters the closing state if and only if it sends a packet with FIN |
| TcpReplies.RunEnqueuesRequested | src/tcp.cpp:268-279 | Under any protocol, the data of all segments ever enqueued is what the protocol asked to send on each delivery, in order |
| TcpReplies.EnqueuedCount | include/tcp.hpp:84-134 | Requests to send yield max(1, ceil(len / 1460)) segments each |
| TcpReplies.RunCountsDuplicates | src/tcp.cpp:182-185 | Over every run the duplicate counter is that of the acknowledgements processed, so the trigger lemmas apply to runs |
| TcpReplies.ResetReversesOrder | src/tcp.cpp:163-205 | With sent segments in the order of their numbers, pruning and reset keep that order, and what is queued again stands in falling order before what was queued |
| TcpDelivery.CountedIsDeliveredIff | src/tcp.cpp:214-278 | Bytes counted and bytes delivered agree if and only if the header length is 20 |
| TcpDelivery.OptionsAreDeliveredAsData | src/tcp.cpp:265-278 | A concrete segment with four option bytes: one byte counted, five delivered |
| TcpDelivery.EchoEnqueuesDelivered | include/tcpProtoJoke.hpp:7-18 | Under the echo protocol the data of all segments ever enqueued is exactly what was delivered, in order |
| TcpDelivery.EchoKeepsNumbersInStep | src/tcp.cpp:247-279 | Before a FIN is accepted, seqLocal - 1 equals seqRemote - (ISN + 1) modulo 2^32 |
| TcpRuns.RunConservesBytesIff | src/tcp.cpp:298-342 | Over every run, queued, sent and released bytes never exceed those enqueued, and are equal to them if and only if no window ever ended inside a segment |
| TcpRuns.RunAccountsForSegments | src/tcp.cpp:163-205 | Without a cut, every enqueued segment is queued, sent or released, as often as it was enqueued |
| TcpAcks.NothingUnackedIsLost | src/tcp.cpp:163-205 | Without a cut and before the numbers wrap, a segment whose end in the stream no acknowledgement has passed while it was sent is still on the send queue or the sent queue |
| TcpAcks.ReleasedIffPassed | src/tcp.cpp:163-180 | Before the numbers wrap, a segment is released if and only if, while it was sent, an acknowledgement beyond its last byte in the stream came in |
| TcpAcks.ReleasedIffPruned | src/tcp.cpp:163-180 | On every run a segment has been released if and only if, while it was sent, an acknowledgement made the 32-bit test true |
| TcpAcks.PrunedIffPassed | src/tcp.cpp:163-180 | Before the numbers wrap, some acknowledgement made the pruning test true for the i-th segment while it was sent, if and only if one lay beyond the first i + 1 segments' bytes |
| TcpAcks.NothingUnackedIsLostWhenSafe | src/tcp.cpp:163-205 | On runs of any length with only wrap-safe steps and no cut, each copy of a segment ever enqueued is on a queue, or was on the sent queue when an acknowledgement covered it modulo 2^32 |
| TcpAcks.ReleasedWereAckedCopies | src/tcp.cpp:163-180 | On such runs each release of a segment is matched by its own step in which the segment was sent and acknowledged |
| TcpAcks.AcknowledgesIffCovered | src/tcp.cpp:163-180 | With less than 2^32 bytes outstanding, acknowledged modulo 2^32 means that the acknowledged part of the stream covers the segment |
| TcpAcks.PruningIsExactIff | src/tcp.cpp:163-180 | The pruning test says acknowledged modulo 2^32 if and only if acknowledgement and segment end differ and lie on the same side of seqLocal |
| TcpAcks.ReleaseIsSoundIff | src/tcp.cpp:163-180 | A step releases only acknowledged segments if and only if its acknowledgement is not ahead of seqLocal, or all sent segments end ahead of it |
| TcpAcks.LateAckReleasesUnacked | src/tcp.cpp:163-180 | Behind the wrap, a concrete late acknowledgement releases a segment 27 bytes beyond it |
| TcpAcks.StaysSentIff | src/tcp.cpp:163-207 | Which segments stay on the sent queue: exactly those the acknowledgement does not pass and, on a reset, numbered at most the acknowledgement |
| TcpAcks.RequeuedIff | src/tcp.cpp:184-205 | A sent segment is queued again if and only if a reset fires and the segment starts beyond this packet's acknowledgement |
| TcpAcks.MissingSegmentStaysSent | src/tcp.cpp:194-201 | As long as the peer acknowledges up to the first byte of a sent segment, however often, that segment stays on the sent queue, unless its own numbers wrap |
| TcpAcks.MissingSegmentIsNeverResent | src/tcp.cpp:194-201 | Without a cut and before the numbers wrap, such a segment is never written into a packet again |
| TcpRuns.RunIsNumbered | src/tcp.cpp:365-371 | Everything ever enqueued tiles the numbers from 1 to seqLocal without gap or overlap; a FIN takes one more and is set only on an empty queue |
| TcpClose.GracefulCloseMeansAllAcknowledged | src/tcp.cpp:416-454 | Closing through the regular path means the peer acknowledged 2 plus all bytes ever enqueued and the queue is empty; without a cut every segment was moved to the sent queue and, if besides no call wrote two, every segment left on the wire |
| TcpClose.FinIsNumberedIff | src/tcp.cpp:365-371 | The FIN leaves under the number it is counted as if and only if what is sent last ends at seqLocal, or nothing is sent and the packet came without payload |
| TcpClose.FinLeavesInPlaceIff | src/tcp.cpp:298-371 | On runs without a cut and without requeueing, that holds if and only if the FIN leaves with data or on a packet that came without payload |
| TcpClose.CloseCoversFinIff | src/tcp.cpp:365-454 | A connection closed through the regular path has acknowledged the number its FIN left under if and only if the FIN stood in place |
| TcpClose.ClosesIff | src/tcp.cpp:416-454 | While our FIN waits, a packet of the peer closes the connection in order if and only if it is the peer's first FIN, starts at the first undelivered offset and acknowledges our FIN; its data is not delivered |
| TcpClose.PeerClosingFirstIsNeverClosed | src/tcp.cpp:408-454 | Once the peer's FIN has been accepted in the established state, the connection is never closed through the regular path |
| TcpClose.EchoIsNeverClosed | src/tcp.cpp:365-371 | Under the echo protocol no connection is ever closed through the regular path |
| TcpRuns.StepCutsIff | src/tcp.cpp:313-342 | A step cuts a segment if and only if its packet is accepted and the window ends inside the queue it is offered |
| TcpWire.ReplyCarriesLastWritten | src/tcp.cpp:294-356 | Of the segments written in a call the packet carries exactly the last one, and the bytes written fit the peer's window |
| TcpWire.AllWrittenAreCarriedIff | src/tcp.cpp:294-356 | A call's packet carries everything the call moves to the sent queue if and only if it is offered one segment at most or its first segment takes the whole window; otherwise fewer |
| TcpWire.CarriedIsWrittenIff | src/tcp.cpp:294-356 | Over every run, each move to the sent queue is carried by its own call's packet if and only if that holds of every call |
| TcpWire.WrittenLeaves | src/tcp.cpp:294-356 | On such runs every segment moved to the sent queue is on an outgoing packet, with its number and its data |
| TcpWire.OnWireIff | src/tcp.cpp:98-455 | Over every run, a segment with data is on some outgoing packet of the connection if and only if some call wrote it last, or sent the same bytes of the peer back in its place |
| TcpWire.UnansweredPayloadGoesBack | src/tcp.cpp:268-363 | After a delivery nothing is written exactly when nothing is queued or the window is closed, and then the peer's payload is sent back to it |
| TcpRuns.Phases | src/tcpJoke.cpp:20-26 | A connection is only ever in a registered state or at the end: the declared state fin is never entered |
| TcpQueues.SendAllRespectsWindow | src/tcp.cpp:281-360 | Counted and written bytes never exceed the window; the loop ends with an empty queue or the window used exactly |
| TcpQueues.CutIffWindowEndsInside | src/tcp.cpp:313-342 | The loop cuts a segment if and only if the window lies inside the queue and on no segment boundary |
| TcpQueues.SendAllMovesPrefix | src/tcp.cpp:317-322 | Without a cut the loop moves a prefix of the queue, in order, to the end of the sent queue |
| TcpQueues.BytesSurviveIffNoCut | src/tcp.cpp:323-342 | The loop keeps all bytes if and only if it cuts nothing |
| TcpQueues.WritesAtMostOneIff | src/tcp.cpp:298-322 | The loop turns at most once if and only if the queue holds one segment at most or the first one takes the whole window |
| TcpQueues.CutHalves | src/tcp.cpp:323-342 | What any cut leaves: whole segments before it, an empty half with the segment's number on the sent queue, an empty half numbered behind the window's end in front of the send queue |
| TcpQueues.CutLosesData | src/tcp.cpp:323-342 | A concrete cut: both halves of the segment come out empty |
| TcpWitness.CutLosesBytes | src/tcp.cpp:323-342 | A SYN and two bytes with a window of one, under the echo protocol: a run with a cut, on which both bytes are missing |
| TcpWitness.EchoIsOnNoPacket | src/tcp.cpp:294-356 | Three echoed bytes under a window that opens by and by: all are moved to the sent queue, four packets leave, and none holds the second byte |
| TcpWitness.AckAheadReleases | src/tcp.cpp:163-180 | A few packets into a connection, an acknowledgement of data never sent releases an unacknowledged byte |
| TcpWitness.ServerClosesFirst | src/tcp.cpp:365-454 | A run of one peer's packets on which the protocol answers and closes, the FIN leaves behind the answer, and the peer's acknowledgement of it ends the connection through the regular path |
| TcpWitness.BouncedFinIsReset | src/tcp.cpp:365-371 | A protocol that closes without an answer: the FIN leaves behind the peer's own byte, and a peer that acknowledges it is reset |
| TcpQueues.SegmentizeRoundTrip | include/tcp.hpp:84-134 | The segments' data concatenates to the buffer |
| TcpQueues.SegmentizeTiles | include/tcp.hpp:93-131 | Their numbers tile the range seqLocal advances over, modulo 2^32 |
| TcpQueues.TilesAt | include/tcp.hpp:93-131 | What tiling means: the i-th segment starts where the first i segments end |
| TcpQueues.SegmentizeFills | include/tcp.hpp:93-131 | Every segment of a buffer but the last holds 1460 bytes |
| TcpQueues.SegmentizeCount | include/tcp.hpp:90-132 | One segment for an empty buffer, else as many as full segments are needed |
| TcpQueues.SelectPartitions | src/tcp.cpp:163-205 | The pruning and requeueing filters share out the queue, no segment lost or doubled |
| TcpQueues.ReverseAt | src/tcp.cpp:194-201 | Requeued segments stand in the opposite order |
| TcpServer.Connection.SendData | include/tcp.hpp:84-134 | In place: appends the segmentation of the buffer and advances seqLocal by its length |
| TcpServer.Connection.EraseAcknowledged | src/tcp.cpp:162-180 | In place: keeps the unacknowledged segments in order and gives back exactly the others |
| TcpServer.Connection.Requeue | src/tcp.cpp:194-205 | In place: moves the segments beyond the reset point, reversed, to the front of the send queue |
| TcpServer.Connection.SendQueued | src/tcp.cpp:298-360 | In place: terminates and leaves queues, packet and ipID as the send loop function says |
| TcpServer.Connection.RunSynAck | src/tcp.cpp:29-95 | In place: the handshake step, packet and connection |
| TcpServer.Connection.RunEst | src/tcp.cpp:98-379 | In place: the established step, packet, connection, state and send/free decision |
| TcpServer.Connection.RunAckFin | src/tcp.cpp:382-455 | In place: the closing step |
| ConCtls.ResetFiresIff | include/tcpConCtlSimple.hpp:16-34 | reset answers exactly on the third duplicate in a row and later ones, unless the 32-bit counter has just wrapped, and then only |
| ConCtls.ResetFiresOnThirdDuplicate | include/tcpConCtlSimple.hpp:27-34 | With fewer than 2^32 calls, reset gives the last acknowledgement exactly when the last three calls were duplicates (section 3.2 of RFC 5681) |
| ConCtls.ResetMissesAfterWrap | include/tcpConCtlSimple.hpp:16-25 | 2^32 duplicates in a row leave reset silent |
| ConCtls.TcpConCtlSimple.HandlePacket | include/tcpConCtlSimple.hpp:16-25 | In place: the counter after one call |
| StateMachines.FindStateRefines | include/stateMachine.hpp:430-499 | Lookup acts on one map, table over pool: a known connection keeps its state, an unknown one is added in the start state exactly when listening |
| StateMachines.FindStateTwice | include/stateMachine.hpp:433-493 | A repeated lookup changes nothing, so the retry happens at most once; lookup fails exactly for unknown connections of a machine that does not listen |
| StateMachines.RunBatchCounts | include/stateMachine.hpp:457-568 | The table always holds as many connections as were added minus closed |
| StateMachines.BatchStaysRegistered | include/stateMachine.hpp:542-544 | If the handlers only move to registered states or the end state, the assertion on the function table never fails in a batch |
| StateMachines.BatchActsPointwise | include/stateMachine.hpp:828-830 | In a batch of distinct connections each packet fares as if it were alone, and its connection ends as that run leaves it |
| StateMachines.BatchFrame | include/stateMachine.hpp:828-830 | Connections that no packet of the batch names keep their entries in table and pool |
| StateMachines.FreedIff | include/stateMachine.hpp:506-581 | An original packet is freed exactly when it is unidentified, has no connection, or its handler freed it |
| StateMachines.HandlerDecides | include/stateMachine.hpp:501-581 | Message, mark, extra packets, next state and removal are exactly what the registered function says of the state the connection is in; where no function runs, the packet is freed and nothing changes |
| StateMachines.ExtrasAreAsked | include/stateMachine.hpp:194-199 | The extra packets of a batch are those its functions asked for, in packet order |
| StateMachines.OpeningParks | include/stateMachine.hpp:692-727 | Opening parks the connection as its function leaves it, unless it ended or the pool has one of that name, which it keeps |
| Machines.OnlyOriginalsAreFreed | include/stateMachine.hpp:194-199 | Extra packets are sent behind the originals; what is freed are originals |
| Machines.StateMachine.FindState | include/stateMachine.hpp:430-499 | In place: terminates after at most one retry and leaves table, pool and counters as specified |
| Machines.StateMachine.RunPkt | include/stateMachine.hpp:501-581 | In place: one packet's effect on tables, its own buffer, its mark and the extra packets |
| Machines.StateMachine.RunPktBatch | include/stateMachine.hpp:765-834 | In place: the batch; the packets added are those the functions asked for, in order, and sent and freed packets together are the originals and the added ones, as multisets |
| Machines.StateMachine.GetStateTableSize | include/stateMachine.hpp:609 | The table size reported is the number of connections added minus closed |
| Machines.StateMachine.AddState | include/stateMachine.hpp:692-727 | In place: opening a connection parks it in the pool unless it ended |
| Machines.ConnectionPool.FindAndErase | include/stateMachine.hpp:296-316 | In place: takes out the parked state, if any |
| BufArrays.PickPartitions | include/bufArray.hpp:157-215 | Sent and freed packets partition the array, duplicates included |
| BufArrays.PickMembers | include/bufArray.hpp:181-215 | A packet is extracted exactly when some slot holds it with that mark |
| BufArrays.BufArray.AddPkt | include/bufArray.hpp:117-155 | Growth keeps packets and marks; the new packet is marked for sending; an array owned by Lua is never written |
| BufArrays.BufArray.MarkDropPktPtr | include/bufArray.hpp:99-106 | In place: frees every slot that holds the given packet, and no other |
| BufArrays.BufArray.GetSendCount | include/bufArray.hpp:161-170 | Counting over the whole mask, unused slots included, is exact |
| BufArrays.BufArray.GetFreeCount | include/bufArray.hpp:176-179 | The rest are the packets to be freed |
| BufArrays.BufArray.GetSendBufs | include/bufArray.hpp:185-197 | Terminates in bounds and writes the packets to be sent, in order, touching nothing behind them |
| BufArrays.BufArray.GetFreeBufs | include/bufArray.hpp:203-215 | The same for the packets to be freed |
| Handoff.RunsAreExclusive | include/stateMachine.hpp:296-316 | In every interleaving that opens only connections no core serves, no connection is in two places |
| Handoff.OpenedIsInOnePlace | include/stateMachine.hpp:430-499 | From its opening until a packet ends it, a connection is in exactly one place: the pool or one core's table |
| Handoff.AdoptedStays | include/stateMachine.hpp:448-460 | Once adopted, a connection stays with that core until it is gone for good |
| Handoff.ConnectKeepsExclusiveIff | include/stateMachine.hpp:692-727 | Opening keeps exclusiveness if and only if no core has the connection already |
| Handoff.OnlyTheEndRemoves | include/stateMachine.hpp:558-569 | A connection disappears only through its own packet whose handler reaches the end state |
| Handoff.WrongCoreDrops | include/stateMachine.hpp:516-524 | A packet that reaches another core than the one serving it is dropped and changes nothing |
| Agreement.SuccessMeansAgreement | src/helloBye3.cpp:28-142 | A client that ends in success was served by one session, which took its HELLO with its cookie and answered its BYE with the very cookie it had echoed |
| Agreement.SessionsAreApart | src/helloBye3.cpp:28-142 | No two sessions that heard a HELLO share a number, so the session of the agreement is one and the same |
| Agreement.WrongCookieIsUnreachable | src/helloBye3.cpp:204-292 | Every SERVER BYE carries its client's cookie, so the wrong-cookie branch is never taken; a client waiting for the SERVER HELLO gets nothing else |
| Agreement.SessionsRememberTheirClient | src/helloBye3.cpp:63-70 | Every live server session holds the cookie of the client it serves, even when several sessions come and go |
| Agreement.PacketsAreAddressed | src/helloBye3.cpp:72-88 | Every packet on the wire runs between the two addresses and ports its client was opened with, in its own direction |
| Agreement.DeliveredExchangeSucceeds | src/helloBye3.cpp:162-292 | After any run, a fresh connection whose packets get through in order succeeds |
| HelloBye.ConfigsCover | src/helloBye3.cpp:308-359 | The registered functions cover every state the handlers reach |
| HelloBye.ServerHelloAnswersIff | src/helloBye3.cpp:44-89 | The server answers exactly a client's HELLO, back to its sender with its own cookie, and keeps the client's; otherwise the session ends |
| HelloBye.ServerByeAnswersIff | src/helloBye3.cpp:101-141 | The server answers exactly a client's BYE with the session's cookie, with the client's; the session ends in any case |
| HelloBye.ClientByeAnswersIff | src/helloBye3.cpp:214-254 | The client echoes exactly a SERVER HELLO's cookie, and waits; otherwise it ends |
| HelloBye.ClientEndsIff | src/helloBye3.cpp:256-292 | The client succeeds exactly on a SERVER BYE with its own cookie, and ends in any case |
| HelloBye.HelloIsAddressed | src/helloBye3.cpp:145-202 | The HELLO of a new client: from its end to the server's, with its number and cookie |
| HelloBye.IdentifiesIff | include/helloBye3.hpp:56-71 | Exactly UDP packets in IPv4 are identified, by the number in their message |
| HelloBye.Server.RunHello | src/helloBye3.cpp:28-89 | In place: the server's HELLO handler; the session is deleted once, exactly when it terminates |
| HelloBye.Server.RunBye | src/helloBye3.cpp:91-141 | In place: the server's BYE handler |
| HelloBye.Client.RunHello | src/helloBye3.cpp:162-202 | In place: the client's HELLO packet |
| HelloBye.Client.RunBye | src/helloBye3.cpp:204-254 | In place: the client's echo of the server's cookie |
| HelloBye.Client.RunRecvBye | src/helloBye3.cpp:256-292 | In place: the client's three endings |
| FourRounds.FourRoundsComplete | tests/helloBye2Synth.cpp:83-120 | For any N distinct connections and any cookies the table sizes are (0,N), (N,N), (N,0), (0,0); the first three batches send all packets, the last frees all |
| FourRounds.EchoRound | include/stateMachine.hpp:448-460 | In its batch, a client adopts its connection from the pool and echoes the server's cookie |
| MemPools.RecordsAreConserved | src/helloBye3MemPool.cpp:27-154 | Over all runs, free records plus live connections equal the capacity, and no record is ever returned while free |
| MemPools.RunIsOwned | src/helloBye3MemPool.cpp:27-154 | Over all runs, every record is either free or lent to exactly one connection |
| MemPools.ReturnedWhenRemoved | src/helloBye3MemPool.cpp:54-153 | A record comes back in the very step that takes its connection out of the table, and not before |
| MemPools.PoolRefinesHeap | src/helloBye3MemPool.cpp:38-154 | Unless exhausted, the pooled server answers as the heap server does and holds the same sessions |
| MemPools.PooledRunIsHeapRun | src/helloBye3MemPool.cpp:38-154 | Over every run in which the pool is never exhausted, the pooled server treats every packet as the heap server does and holds the same sessions |
| MemPools.PutFaultsIff | src/helloBye3MemPool.cpp:27-154 | A record given back becomes free, and counts as a fault exactly if it was free already |
| MemPools.ExhaustedIff | src/helloBye3MemPool.cpp:27-36 | A new connection is refused exactly when all records are lent, and nothing changes then |
| MemPools.PooledServer.RunPkt | include/stateMachine.hpp:501-581 | In place: one packet through the pooled server, never returning a free record |
| Checksum.FoldIsOnesComplementSum | include/headers.hpp:174-188 | The accumulator equals the plain sum reduced to one's-complement form (section 3.1 of RFC 791) |
| Checksum.FoldRange | include/headers.hpp:179-185 | Congruent to the sum modulo 0xffff, and zero only for all-zero words |
| Checksum.FoldIsOrderIndependent | include/headers.hpp:179-185 | The order of the words does not matter |
| Checksum.CoveredWordsVerify | include/headers.hpp:178-187 | With the checksum stored, the covered words fold to 0xffff |
| Checksum.HeaderVerifiesIffTrailerCancels | include/headers.hpp:179-187 | The header alone folds to 0xffff if and only if the half-words the loop covers behind it cancel |
| Checksum.HeaderMayFailToVerify | include/headers.hpp:179-187 | A concrete header and trailer for which it does not |
| Checksum.OnlyChecksumChanges | include/headers.hpp:174-188 | Only the sixth half-word of the header changes |
| Checksum.IhlIsLowNibble | include/headers.hpp:74 | The header length is the low nibble of the first byte |
| Checksum.CalcChecksum | include/headers.hpp:174-188 | In place: stores that checksum and changes no other word |
| FlowIdentity.ReplyMeetsItsConnection | src/helloBye_C.cpp:97-102 | A turned-round hello is identified as exactly the connection its client registered and as no other; two turns restore the identity |
| FlowIdentity.IdentifiesByFiveFields | include/IPv4_5TupleL2Ident.hpp:112-141 | Two UDP or TCP packets are of one flow if and only if addresses, ports and protocol agree; packets of other protocols are of none |
| FlowIdentity.SwappedIdentity | src/helloByeProto.cpp:59-73 | For either protocol the swap exchanges the ends of the flow, and twice restores it |
| FlowIdentity.Swap32Reverses | include/headers.hpp:134-149 | The conversion to network order reverses the bytes |
| FlowIdentity.HelloIsAddressed | src/helloByeProto.cpp:168-198 | The hello runs from the client's end to the server's, in network order |
| FlowIdentity.ReservedKeysAreNeverUsed | include/IPv4_5TupleL2Ident.hpp:112-161 | No identified packet collides with the hash table's own keys |
| FlowIdentity.HeaderBuf.WriteHello | src/helloByeProto.cpp:163-198 | In place: the client's header writes; a reply by swap is identified as the registered connection |
| FlowIdentity.HeaderBuf.SwapEnds | src/helloByeProto.cpp:59-73 | In place: the swap through temporaries is the exchange of both address pairs |

## Left out

- Timeouts and `setTimeout`: batches are modelled with an empty timeout queue.
- `transitionNow`: handlers use `transition`, `freePkt` and `getPkt` only.
- Registration methods: what is registered with a machine is one fixed configuration.
- Machines.StateMachine.RunPktBatch: requires distinct packet pointers, as a batch that holds one buffer twice would free it twice.
- Machines.StateMachine.RunPkt: the two keys the hash table reserves are treated as any other, because a map has none; `FlowIdentity` shows that five-tuples never collide with them.
- Machines.StateMachine.FindState: the counters of added and closed states are unbounded, not 64-bit; hashing, cycle counters and debug output are not modelled.
- BufArrays.BufArray.AddPkt: the doubling of the slot count does not overflow 32 bits, and buffers are never given back.
- TcpSteps: a frame is assumed to hold a 20-byte IP header and a full 20-byte TCP header, and its buffer to end where the IP length says; the content of the stored SYN-ACK frame is not modelled, only its length.
- TcpServer.Connection.RunEst: `getPkt` is never called there, as `firstPacket` stays true, so the model has no second buffer; congestion control is `TcpConCtlSimple`, whose unused `initSeq` is not modelled.
- The TCP client and `runFin`, which are declared but not defined.
- The memory-pool client, which borrows and returns its records as the server does.
- MemPools.PooledServer.RunPkt: the exception of an empty pool is modelled as a refusal that leaves everything unchanged.
- HelloBye v1 strings and cookies, HelloBye2, DTLS and Astraeus.
- Ethernet addresses, the pcap backend and the C wrappers.
