# RUDP agent stack: a verified model

This project models, in Dafny, the stateful cores of the RUDP agent stack and proves what they promise over
whole runs:

- the **RUDP protocol**: the sending engine (fragmentation, sliding window, cumulative acknowledgement, fast
  retransmit, timeouts, congestion control, adaptive timeout), the receiving engine (out-of-order buffer,
  drain, message assembly, window advertisement), and the two of them joined by a network that loses,
  duplicates, reorders and damages what it carries, in one direction and in both directions at once;
- the **packet codec** with its one's-complement checksum;
- the **server transport**, which keeps one connection per peer;
- the **upload session manager**, the **DHCP lease table** and the **request pipeline** with its idempotency
  cache and its dispatcher.

## Layout

| file | content |
|---|---|
| `Wire.dfy`, `WireProofs.dfy` | packet layout, checksum loops, pack and unpack; round trips and corruption |
| `Fragment.dfy` | messages as segments and back |
| `Congestion.dfy`, `Rtt.dfy` | the congestion window and the retransmission timer as state machines |
| `Sender.dfy`, `SenderProofs.dfy`, `SenderWindow.dfy` | the sending engine; what holds in every run of it, whatever acknowledgements arrive |
| `SenderGrowth.dfy`, `SenderHistory.dfy`, `SenderExact.dfy` | the same runs in numbers: how the window grows, and exactly when the sender retransmits, samples and backs off, in terms of what was sent and received before |
| `Receiver.dfy`, `ReceiverProofs.dfy`, `FlowOrder.dfy` | the receiving engine; its refinement to a set of accepted segments; what of its state depends on the order of arrival |
| `Protocol.dfy`, `ProtocolTheorems.dfy`, `FlowRuns.dfy` | sender, receiver and unreliable network; safety, window, flow control, progress; two runs that differ in order only |
| `Connection.dfy`, `ConnectionProofs.dfy` | one endpoint driven by datagrams; when its handler raises |
| `Duplex.dfy`, `DuplexProgress.dfy` | two endpoints over a wire that also damages bytes; when everything can still be delivered |
| `Server.dfy`, `Star.dfy` | the server transport with one connection per peer; the server with any number of clients over unreliable wires |
| `Upload.dfy`, `UploadProofs.dfy`, `UploadAnswers.dfy` | chunked uploads, strict and buffering; what each answer says about the disk |
| `Dhcp.dfy`, `DhcpProofs.dfy`, `DhcpHistory.dfy` | address leases; every answer in terms of the answers before |
| `Idempotency.dfy`, `IdempotencyProofs.dfy`, `RequestHistory.dfy` | the request pipeline and its cache, for any handler; its refinement of a server that remembers everything |
| `Dispatch.dfy`, `DispatchProofs.dfy`, `DispatchAnswers.dfy` | the dispatcher and the APPEND handler; at-most-once execution of the whole; the answers byte by byte |
| `Ranges.dfy`, `Extrema.dfy`, `Runs.dfy` | intervals of numbers; minimum and maximum; folding a step function over events |

Where the program changes things in place, the model has a class with the same fields and methods, and each
method is proved to compute a function on the value of those fields; the properties are then proved about
those functions, over arbitrary sequences of calls.

## Modelling assumptions

- Each method call is one atomic step. (The client calls into its sender from two threads without a lock.)
- Times, `cwnd`, `ssthresh`, `srtt`, `rttvar` and the timeout are real numbers; floating-point rounding is not
  modelled. Clock readings are parameters. No safety result of the protocol assumes that the clock advances;
  the progress result uses a clock that never goes back, and so do the lease and cache results.
- Callbacks are outputs: what a method hands to the send, delivery or file-writer callback is returned in order.
  Callbacks do not throw.
- Sequence numbers do not wrap, as in the program, and a packet whose numbers do not fit the layout cannot be
  packed. The sender catches the exception and such a segment is not sent. The handler of a datagram does not
  catch it about a reply: the exception leaves the receive loop, which ends. The model keeps both
  (`Connection.Output.raised`, `Duplex.Link.downA`, `Server.Transport.running`). A side that is down takes no
  datagram and no tick any more; its application may still submit messages, and what the server then hands to its
  closed socket is one more loss.
- The checksum field of a packet object is a function of its other fields once it has been packed or unpacked,
  so it appears only on the wire (`Pack`, `Unpack`, `ChecksumField`).
- Where the code departs from the RFCs the model follows the code: `ssthresh` comes from half the congestion
  window rather than from the flight size, and the timeout floor is 0.1 s.
- Generated identifiers (upload ids), JSON parsing, path validation and all handlers except APPEND are
  parameters. A handler returns data or raises FileNotFoundError, ValueError or something else; the model's
  dispatcher turns that into the answer as the program does.

## Findings

- The reply to a segment never advertises a zero window: at most 63 segments can be buffered, because the
  expected one never is. The unit test that expects a zero window does not describe the code.
- Within the first window nothing about the receiver's data state or deliveries depends on the order of arrival
  (`OrderIrrelevant`), but the watermark state can: exactly for those sets of segments that leave more than 13
  and fewer than 52 of them buffered although they include at least 52 numbers other than zero
  (`FlowDependsOnOrderIff`). Two runs of the whole protocol with the same message, sender and network show it
  (`FlowRuns.FlowDependsOnOrder`).
- The reply to the last of 2^32 segments cannot be packed, and the exception ends the receive loop: on the server
  that stops the service for all peers. A side is down exactly if it has taken 2^32 segments (`DownIff`,
  `AloneSpent`), peers are isolated as long as that has not happened, and the loop has ended exactly if some peer
  would have ended it alone (`PeersAreIsolated`, `StopsIff`).
- An empty file never completes an upload: its chunk sequence is empty, so nothing ever triggers completion
  (`FinishedIffAllArrived`).
- Every answer of the dispatcher is a non-empty envelope, so that a repeat within 120 s is always answered from
  the cache, with one exception: if the text of an error does not fit an envelope of 1 MiB, building the error
  answer raises as well, the exception escapes the dispatcher, nothing is cached and the client gets no answer
  (`RaisesIff`, `RunsAgainIff`). APPEND to a missing file whose name nearly fills the payload is such a request
  (`LongNameRunsTwice`). It changes no file: an APPEND takes effect at most once in any case (`AppendsOnce`).
- An APPEND that would make the file too large is answered with status 400, not 413: the dispatcher looks for
  "exceeds" and the handler's text says "exceed" (`AppendTooLargeIsBadRequest`).
- A DISCOVER that only repeats the transaction of a lease which has been acknowledged does not restart the
  handshake: a REQUEST with another transaction is then refused although the address was just offered
  (`OfferCanBeTakenUp`).
- The checksum detects every change confined to one byte, hence every flipped bit
  (`OneByteCorruptionDetected`).

## Model

| member | source | states |
|---|---|---|
| `Wire.CalculateChecksum` | common/rudp_packet.py:43-90 | padding, summing, folding and complementing with the zero rule gives 0xFFFF minus the word sum modulo 0xFFFF; an unpackable field raises |
| `Wire.SumWords` | common/rudp_packet.py:75-79 | the summing loop adds up the big-endian 16-bit words |
| `Wire.FoldCarries` | common/rudp_packet.py:81-83 | carry folding ends within 16 bits on the same residue modulo 0xFFFF |
| `Wire.SummedBytes` | common/rudp_packet.py:50-73 | the summed bytes are the packet with a zero checksum, padded to even length without changing the sum |
| `Wire.Checksum` | common/rudp_packet.py:85-90 | the checksum lies in 1..0xFFFF and is never sent as zero |
| `Wire.Parse` | common/rudp_packet.py:156-179 | every parsed field fits its slot again |
| `WireProofs.UnpackPack` | common/rudp_packet.py:118-186 | unpacking a packed packet gives it back if and only if it has both reassembly fields, or neither and no payload |
| `WireProofs.PackUnpack` | common/rudp_packet.py:118-186 | packing what was unpacked gives the very same datagram |
| `WireProofs.AcceptedIff` | common/rudp_packet.py:181-184 | a datagram of acceptable length is accepted exactly when its checksum field equals the checksum with that field zeroed |
| `WireProofs.OneByteCorruptionDetected` | common/rudp_packet.py:147-184 | changing any one byte of an accepted datagram makes it rejected with a checksum error |
| `WireProofs.DatagramLayout` | common/rudp_packet.py:156-179 | the position of every field of an accepted datagram, byte by byte |
| `WireProofs.RejectionIs` | common/rudp_packet.py:147-184 | a datagram is too short below 13 bytes, truncated between 14 and 20, and otherwise rejected only for its checksum |
| `WireProofs.AcknowledgementBytes` | common/rudp_packet.py:118-145 | the bytes of an acknowledgement with small numbers, checksum included |
| `Fragment.ChunksBounded` | common/rudp_sender.py:81-83 | every chunk has at most MSS bytes, and all but the last exactly MSS |
| `Fragment.JoinChunks` | common/rudp_sender.py:81-83 | the chunks joined are the data, including empty data |
| `Fragment.SegmentsAt` | common/rudp_sender.py:86-101 | segment i carries number, offset, message id and chunk i; FIN is on the last one only |
| `Fragment.AssembleStream` | common/rudp_receiver.py:82-101 | assembling all segments of a message sequence gives exactly those messages and nothing left over |
| `Fragment.AssemblePrefix` | common/rudp_receiver.py:84-101 | cutting the segment stream anywhere gives the complete messages before the cut and a beginning of the next; the next segment's offset is the length of that beginning and it carries that message's id |
| `Fragment.StreamAt` | common/rudp_sender.py:86-101 | segment i of the stream has number i and at most MSS bytes and is a data packet, never an acknowledgement |
| `Congestion.Increment` | common/rudp_sender.py:197-198 | growth in avoidance times the window is MSS squared, hence at most MSS |
| `Congestion.NewAckKeepsValid` | common/rudp_sender.py:192-201 | a new acknowledgement keeps the invariant tying state, window, threshold and duplicate count |
| `Congestion.DupAckKeepsValid` | common/rudp_sender.py:206-228 | a duplicate acknowledgement keeps that invariant, entering or inflating fast recovery |
| `Congestion.TimeoutKeepsValid` | common/rudp_sender.py:250-253 | a timeout keeps that invariant |
| `Congestion.RecoveryHalvesWindow` | common/rudp_sender.py:199-228 | a whole fast recovery, with any number of duplicates, leaves half the window at the time of loss, at least two segments, in avoidance |
| `Congestion.OneSegmentPerWindow` | common/rudp_sender.py:197-198 | n new acknowledgements in avoidance with n·MSS at most the window add at most one MSS |
| `Rtt.SampleKeepsWithin` | common/rudp_sender.py:172-179 | a sample in [lo, hi] keeps srtt in [lo, hi] and rttvar at most max(hi/2, hi − lo) |
| `Rtt.BackoffDoubles` | common/rudp_sender.py:255-256 | one more timeout doubles the timeout up to the cap |
| `Rtt.EstimateIsWeighted` | common/rudp_sender.py:172-182 | the estimate after any samples is their exponentially weighted sum with gain 1/8, and its variance that of the deviations with gain 1/4 |
| `Sender.RudpSender.constructor` | common/rudp_sender.py:27-66 | the initial sender |
| `Sender.RudpSender.EnqueueData` | common/rudp_sender.py:68-103 | appends exactly the segments of the message to the queue, then sends what the window admits |
| `Sender.MakeChunks` | common/rudp_sender.py:83 | the slicing comprehension yields the chunks |
| `Sender.RudpSender.Pump` | common/rudp_sender.py:105-139 | the send loop as a function of the sender's value, with the packets in order |
| `Sender.RudpSender.LaunchFirst` | common/rudp_sender.py:123-131 | the head of the queue goes into flight with its bytes and send time |
| `Sender.WindowSegments` | common/rudp_sender.py:116-117 | the effective window is the smaller of the peer's window and the whole segments of the congestion window, at least one |
| `Sender.RudpSender.RemoveBelow` | common/rudp_sender.py:160-190 | forgets exactly the packets below the acknowledgement and their bytes |
| `Sender.RudpSender.TakeSample` | common/rudp_sender.py:161-185 | takes a sample from the newest acknowledged packet unless it was retransmitted |
| `Sender.RudpSender.UpdateTimer` | common/rudp_sender.py:172-185 | smoothed estimate and clamped timeout |
| `Sender.RudpSender.GrowWindow` | common/rudp_sender.py:192-201 | window growth by congestion state |
| `Sender.RudpSender.OnNewAck` | common/rudp_sender.py:154-204 | a cumulative acknowledgement, then sending |
| `Sender.RudpSender.OnDupAck` | common/rudp_sender.py:206-229 | duplicate counting, fast retransmit, inflation |
| `Sender.RudpSender.OnAckReceived` | common/rudp_sender.py:141-229 | the whole acknowledgement handler as a function of the sender's value |
| `Sender.RudpSender.CheckForTimeouts` | common/rudp_sender.py:231-266 | retransmits only the packet at the base, with backoff, when its timer has run out |
| `SenderProofs.StepControls` | common/rudp_sender.py:141-260 | base, congestion state and timer change only by the three congestion events and by samples |
| `SenderProofs.CongestionInEveryRun` | common/rudp_sender.py:192-253 | in every run: slow start has a whole number of segments below the threshold, avoidance is at or above it, fast recovery is threshold plus one segment per duplicate; window at least MSS, threshold at least 2·MSS, window at most MSS·(2 + acknowledgements) |
| `SenderProofs.AvoidanceIsLinear` | common/rudp_sender.py:197-198 | in every run, a window's worth of consecutive new acknowledgements in avoidance adds at most one segment |
| `SenderProofs.OneFastRetransmitPerBase` | common/rudp_sender.py:206-224 | two fast retransmits of a run happen at different, increasing bases |
| `SenderProofs.RtoInEveryRun` | common/rudp_sender.py:184-256 | the timeout always lies in [0.1, 4.0] |
| `SenderProofs.EstimateFollowsSamples` | common/rudp_sender.py:167-185 | if all samples of a run lie in [lo, hi], so does srtt, and rttvar is at most max(hi/2, hi − lo) |
| `SenderProofs.BackoffInEveryRun` | common/rudp_sender.py:255-260 | k timeouts without a new sample turn the timeout into min(rto·2^k, 4.0) |
| `SenderWindow.TrySendLaunches` | common/rudp_sender.py:110-131 | sending moves a prefix of the queue into flight under its own numbers and touches nothing else in flight |
| `SenderWindow.SegmentGuardSuffices` | common/rudp_sender.py:110-121 | the byte guard never blocks what the segment guard admits |
| `SenderWindow.TrySendFillsWindow` | common/rudp_sender.py:110-131 | one call sends exactly min(queue, window − in flight) packets, leaving bytes within the congestion window and count within the effective window |
| `SenderWindow.WindowAdmits` | common/rudp_sender.py:115-117 | the effective window is the greatest number of packets that the peer takes and that, beyond one, are full segments within the congestion window |
| `SenderWindow.SendGuardsInEveryRun` | common/rudp_sender.py:105-139 | in every run, an operation that transmits for the first time leaves bytes within the congestion window, no more packets than admitted and the greatest admitted number stored, and stops only when nothing is queued or one more is not admitted; no other operation transmits for the first time |
| `SenderWindow.StepNumbered` | common/rudp_sender.py:86-131 | every operation, with any acknowledgement, keeps the numbering of queue and window and the byte count |
| `SenderWindow.WindowInEveryRun` | common/rudp_sender.py:110-264 | in every run, with any acknowledgements, the byte counter is the sum of in-flight payloads and the retransmission mark says exactly which packets were sent more than once |
| `SenderWindow.SamplesAreUnambiguous` | common/rudp_sender.py:164-169 | every round-trip sample comes from a packet transmitted exactly once |
| `SenderGrowth.SlowStartIsExact` | common/rudp_sender.py:193-196 | in every run, n new acknowledgements in slow start raise the window by exactly n segments until it reaches the threshold, and avoidance begins with the one that reaches it |
| `SenderGrowth.SlowStartFromTheStart` | common/rudp_sender.py:193-196 | from the start the window is 1200 bytes times one more than the new acknowledgements, up to 64 segments |
| `SenderGrowth.AvoidanceIsAlmostExact` | common/rudp_sender.py:197-198 | in every run, n new acknowledgements in avoidance, at most a window's worth, add at most one MSS and at least n·MSS²/(window + MSS) |
| `SenderHistory.CountersInEveryRun` | common/rudp_sender.py:141-210 | in every run base, duplicate counter and peer window are the greatest acknowledgement, its repetitions and the last advertised window |
| `SenderHistory.TimesInEveryRun` | common/rudp_sender.py:125-131 | in every run a packet in flight carries the time of its last transmission |
| `SenderExact.TickIsExact` | common/rudp_sender.py:239-264 | in every run a tick transmits if and only if the timeout has passed since the last transmission of the packet at the base, then exactly that packet; any other tick changes nothing |
| `SenderExact.SampleIsMeasured` | common/rudp_sender.py:161-171 | a sample is the time since the only transmission of the newest acknowledged packet, if that is in flight and was transmitted once |
| `SenderExact.TimeoutIsExact` | common/rudp_sender.py:172-185 | in every run the timeout is the estimate plus four variances of all measurements, clamped to [0.1, 4], or 0.5 before any, doubled for every timeout since the last measurement up to 4 |
| `SenderExact.RetransmissionsAreSpaced` | common/rudp_sender.py:239-264 | a tick retransmits only after that timeout since the packet's last transmission |
| `SenderExact.FastRetransmitIsExact` | common/rudp_sender.py:206-224 | in every run an acknowledgement retransmits if and only if it repeats the greatest one for the third time, then exactly the packet at the base |
| `SenderExact.SendsAreNew` | common/rudp_sender.py:68-103 | submitting a message retransmits nothing |
| `SenderExact.WindowIsExact` | common/rudp_sender.py:192-253 | in every run the window moves by new acknowledgements, third and later repetitions and transmitting ticks only, and by exactly how much |
| `Receiver.RudpReceiver.constructor` | common/rudp_receiver.py:25-49 | the initial receiver |
| `Receiver.RudpReceiver.Append` | common/rudp_receiver.py:84-91 | appends a segment behind what the buffer holds and hands over the message on FIN |
| `Receiver.RudpReceiver.DrainBuffer` | common/rudp_receiver.py:93-102 | the drain loop as a function of the receiver's value, with its deliveries and its appends in order |
| `Receiver.RudpReceiver.ProcessSegment` | common/rudp_receiver.py:51-138 | the whole segment handler as a function of the receiver's value, with acknowledgement, window and deliveries |
| `ReceiverProofs.RunRefinesSet` | common/rudp_receiver.py:67-113 | after any arrivals the expected number is the least not accepted, the buffer is the accepted segments above it, and deliveries and partial message are the assembly of those below |
| `ReceiverProofs.RepliesAreLeast` | common/rudp_receiver.py:115-117 | every acknowledgement is the least number missing at that point |
| `ReceiverProofs.RepliesMonotone` | common/rudp_receiver.py:115-117 | acknowledgement numbers never decrease |
| `ReceiverProofs.ProcessKeepsValid` | common/rudp_receiver.py:119-138 | one segment keeps the buffer inside the window, the flow state within its hysteresis and the counters right, and the reply's window is the free space, never zero |
| `ReceiverProofs.RunValid` | common/rudp_receiver.py:67-138 | the same after any arrivals, and every advertised window is in 1..64 |
| `ReceiverProofs.RunAppendsAre` | common/rudp_receiver.py:82-102 | append number k of a run, in order or drained, is accepted segment k, and the buffer then holds what the segments below k leave unfinished |
| `ReceiverProofs.CountersCount` | common/rudp_receiver.py:41-49 | the counters are the numbers of late, too far and set-aside arrivals; every arrival is of one kind and the accepted ones are those awaited or set aside |
| `ReceiverProofs.OrderIrrelevant` | common/rudp_receiver.py:82-113 | within the first window, order and repetition of arrivals change neither data state nor deliveries, nor the flow state outside the watermarks |
| `FlowOrder.BufferIs` | common/rudp_receiver.py:93-110 | within the first window the buffer holds exactly the numbers that arrived above the least missing one |
| `FlowOrder.TooFewToThrottle` | common/rudp_receiver.py:123-126 | with fewer than 52 numbers other than zero no order of arrival throttles |
| `FlowOrder.FlowDependsOnOrderIff` | common/rudp_receiver.py:119-130 | two orders of the same segments end in different watermark states if and only if they leave 14 to 51 buffered and include at least 52 numbers other than zero |
| `Protocol.NextKeepsInv` | server/transport/rudp_server.py:140-187 | every event keeps the invariant of sender, network and receiver together |
| `Protocol.ReachableInv` | server/transport/rudp_server.py:140-187 | that invariant holds in every run |
| `Protocol.AckSound` | common/rudp_sender.py:141-229 | an acknowledgement of nothing unsent keeps the window contiguous, never stalls it, and sends only genuine segments |
| `ProtocolTheorems.DeliveredIsPrefix` | common/rudp_receiver.py:82-112 | in every run the delivered messages are a prefix of the messages sent, byte for byte, and the partial one a prefix of the next |
| `ProtocolTheorems.DeliveryGrows` | common/rudp_receiver.py:84-101 | deliveries are never taken back |
| `ProtocolTheorems.AppendsInPlace` | common/rudp_receiver.py:82-102 | in every run each appended segment, on arrival or drained, has the assembly buffer's length as its offset, and all segments of a message carry that message's id |
| `ProtocolTheorems.AppendsBelong` | common/rudp_receiver.py:82-102 | in every run there are as many appends as the expected number, and each belongs to a message sent |
| `ProtocolTheorems.WindowPartition` | common/rudp_sender.py:110-131 | in every run acknowledged, in-flight and queued are three consecutive parts of the stream, the byte counter is the length of the middle one, and it is empty only if nothing is queued |
| `ProtocolTheorems.ExpectedWithinWindow` | common/rudp_sender.py:154-204 | in every run the receiver's expected number lies between the sender's base and its first unsent number |
| `ProtocolTheorems.AcksNeverAhead` | common/rudp_receiver.py:115-117 | no acknowledgement in the network exceeds the receiver's expected number |
| `ProtocolTheorems.NothingBeyondWindow` | common/rudp_receiver.py:67-79 | no segment ever sent can fall beyond the receiver's window, however late, so the drop counter stays zero and windows stay in 1..64 |
| `ProtocolTheorems.RoundAdvances` | common/rudp_sender.py:239-264 | one timeout whose retransmission and reply are delivered strictly raises the base |
| `ProtocolTheorems.RoundsSuffice` | common/rudp_sender.py:239-264 | at most next_seq − base such rounds acknowledge everything |
| `ProtocolTheorems.EverythingCanBeDelivered` | common/rudp_sender.py:231-264 | from every reachable state a finite schedule with nothing new sent delivers every message sent so far |
| `ProtocolTheorems.SenderRun` | common/rudp_sender.py:68-266 | the sender inside every system run is a sender run, so all results about those apply |
| `FlowRuns.EverythingInFlight` | common/rudp_sender.py:206-228 | a run in which the acknowledgement of segment 0, repeated, opens the window until all 55 segments have been sent while only segment 0 has been delivered |
| `FlowRuns.FlowDependsOnOrder` | common/rudp_receiver.py:119-130 | two runs of the whole protocol with the same sender, network and delivered segments end throttled in one order of delivery and normal in the other |
| `Connection.RudpConnection.constructor` | server/transport/rudp_server.py:23-37 | a fresh connection |
| `Connection.RudpConnection.SendMessage` | client/transport/rudp_client.py:66-70 | sending as a function of the endpoint |
| `Connection.RudpConnection.TickSender` | server/transport/rudp_server.py:179-187 | the timeout tick of one connection |
| `Connection.RudpConnection.OnPacketReceived` | client/transport/rudp_client.py:170-189 | acknowledgements go to the sender, data to the receiver, and data is acknowledged at once; a reply that cannot be packed raises |
| `ConnectionProofs.RaisesAtLimit` | client/transport/rudp_client.py:178-189 | the handler raises exactly when the segment it handles is the last of 2^32 |
| `Duplex.DamageDetected` | client/transport/rudp_client.py:158-162 | a damaged datagram is unchanged or dropped |
| `Duplex.SegmentTaken` | server/transport/rudp_server.py:165-177 | a data datagram drives only the receiving direction |
| `Duplex.AckTaken` | server/transport/rudp_server.py:161-163 | an acknowledgement datagram drives only the sending direction |
| `Duplex.EveryRunSimulated` | server/transport/rudp_server.py:140-187 | every two-way run over bytes is, in each direction, a run of the one-way protocol |
| `Duplex.BothDirectionsDeliver` | server/transport/rudp_server.py:140-187 | over a wire that loses, repeats, reorders and damages datagrams, each side receives exactly a prefix of what the other sent |
| `Duplex.BothWindowsPartitioned` | common/rudp_sender.py:110-131 | the window partition holds of both senders in every run over bytes |
| `Duplex.NothingDropped` | common/rudp_receiver.py:76-79 | neither receiver ever drops a segment for being beyond its window |
| `Duplex.BothSendersRun` | common/rudp_sender.py:68-266 | both senders make runs of the sending engine, so its congestion and timing results apply over bytes |
| `DuplexProgress.DownIff` | server/transport/rudp_server.py:165-177 | in every run, an exception has left a side's receive loop if and only if that side has taken 2^32 segments |
| `DuplexProgress.ShortStreamsStayUp` | server/transport/rudp_server.py:165-177 | while both streams are shorter than 2^32 segments, no handler raises |
| `DuplexProgress.FitsIff` | common/rudp_packet.py:118-145 | all segments of a stream can be packed if and only if there are at most 2^32, every message id is below 2^32 and no message is longer than 4294968000 bytes |
| `DuplexProgress.EverythingArrives` | client/transport/rudp_client.py:170-189 | from every run over bytes with streams shorter than 2^32 segments whose messages fit, a finite continuation with nothing new sent delivers everything in both directions |
| `DuplexProgress.CompletionWasPackable` | common/rudp_packet.py:118-145 | if everything has been delivered in both directions, every message fitted |
| `DuplexProgress.CanFinishIff` | client/transport/rudp_client.py:170-189 | for streams shorter than 2^32 segments, such a continuation exists if and only if every message fits |
| `DuplexProgress.DirectionCanFinishIff` | common/rudp_sender.py:231-264 | one direction of any length, as long as its sender's side is up: everything can still be delivered if and only if the stream has at most 2^32 segments and every message fits |
| `Server.RudpServerTransport.constructor` | server/transport/rudp_server.py:47-53 | no connections, not running |
| `Server.RudpServerTransport.Open` | server/transport/rudp_server.py:150-156 | a new connection object whose engines no other connection shares |
| `Server.RudpServerTransport.SendTo` | server/transport/rudp_server.py:69-84 | sends through one peer's connection object, created if needed, and leaves all others as they are |
| `Server.RudpServerTransport.HandleDatagram` | server/transport/rudp_server.py:140-177 | drops what does not unpack, else drives the one peer's connection object, created if needed; an exception ends the loop |
| `Server.RudpServerTransport.TickConnections` | server/transport/rudp_server.py:179-187 | the loop ticks every connection object once |
| `Server.RudpServerTransport.Serve` | server/transport/rudp_server.py:86-138 | started on an empty table and driven by any events, the transport makes the run of the specification, and while it runs each connection object is in the state that it would be in alone |
| `Server.StepIsolated` | server/transport/rudp_server.py:150-187 | one event acts on a peer as on it alone, or not at all |
| `Server.PeersAreIsolated` | server/transport/rudp_server.py:74-187 | for every interleaving, as long as the loop runs, a peer's connection, datagrams and deliveries are those of a fresh connection seeing only that peer's events and the ticks |
| `Server.StopsIff` | server/transport/rudp_server.py:93-104 | the loop has ended if and only if some peer would, on its own, have ended it |
| `Server.AloneSpent` | server/transport/rudp_server.py:165-177 | a peer ends the loop exactly by completing 2^32 segments |
| `Star.EveryClientHasALink` | server/transport/rudp_server.py:140-187 | with any number of clients, each client and its connection on the server make a run of the two-way link |
| `Star.EveryClientIsServed` | server/transport/rudp_server.py:62-84 | what the server receives from each client is a prefix of what that client sent, and the other way round, whatever all other clients do |
| `Star.EveryWindowPartitioned` | common/rudp_sender.py:110-131 | the window partition holds of every client's and every connection's sender |
| `Star.ServerRun` | server/transport/rudp_server.py:106-138 | the server's part of every such run is a run of the server transport |
| `Upload.UploadSessionManager.constructor` | server/agent/upload_session.py:50-53 | a manager without sessions |
| `Upload.UploadSessionManager.CreateSession` | server/agent/upload_session.py:55-68 | a new session at offset zero |
| `Upload.UploadSessionManager.DrainBuffer` | server/agent/upload_session.py:147-151 | the buffer loop as a function of the session, with its writes in order |
| `Upload.UploadSessionManager.ApplyChunk` | server/agent/upload_session.py:77-156 | duplicate, overlap, sequential and out-of-order handling in both modes; the session ends on completion; other sessions are untouched |
| `Upload.GetChunks` | client/agent/upload_client.py:44-54 | the reading loop yields the pieces of the file |
| `UploadProofs.PiecesTile` | client/agent/upload_client.py:44-54 | the pieces are consecutive, non-empty slices that cover the file |
| `UploadProofs.PiecesSized` | client/agent/upload_client.py:44-54 | every piece has the requested size, the last one at most |
| `UploadProofs.UploadIsSafe` | server/agent/upload_session.py:100-151 | in either mode, for any slices in any order, writes are contiguous and the disk holds the source up to the expected offset; a finished upload is the source |
| `UploadProofs.CompleteMeansComplete` | server/agent/upload_session.py:107-138 | completion is reported only when the disk holds the source |
| `UploadProofs.FinishedIffAllArrived` | server/agent/upload_session.py:116-151 | buffering mode finishes exactly when the last missing piece has arrived, in any order with repetition, provided neither the file nor the chunk size is empty; the disk then holds the file |
| `UploadProofs.StrictFinishedIffInOrder` | server/agent/upload_session.py:116-138 | strict mode finishes exactly when the pieces stand in order, at increasing positions, among the arrivals, provided neither the file nor the chunk size is empty; the disk then holds the file |
| `UploadAnswers.AnswersAreExact` | server/agent/upload_session.py:94-140 | in every run and for any chunks, the answer and the effect follow from where the chunk starts and ends on the disk: duplicate, overlap, written, refused as out of order, or held back; completion is announced exactly at the declared size |
| `UploadAnswers.AnsweredMeansSafe` | server/agent/upload_session.py:100-140 | for slices of a file, an answer that is no error means that the chunk is on the disk, or held back in buffering mode |
| `Dhcp.IPManager.constructor` | server/dhcp/ip_manager.py:12-21 | an empty lease table |
| `Dhcp.IPManager.GetNextAvailableIp` | server/dhcp/ip_manager.py:30-39 | the search loop returns the first free address |
| `Dhcp.IPManager.CleanupExpiredLeases` | server/dhcp/ip_manager.py:112-129 | evicts exactly the expired leases and frees their addresses |
| `Dhcp.IPManager.HandleDiscover` | server/dhcp/ip_manager.py:41-77 | re-offer, restart or new allocation, or refusal with lease time zero |
| `Dhcp.IPManager.HandleRequest` | server/dhcp/ip_manager.py:79-110 | acknowledges only the offered address, when selecting or repeating |
| `DhcpProofs.FromToInt` | server/dhcp/ip_manager.py:23-28 | address to number and back is the identity |
| `DhcpProofs.ToFromInt` | server/dhcp/ip_manager.py:23-28 | number to address and back is the identity below 2^32 |
| `DhcpProofs.ToIntIs` | server/dhcp/ip_manager.py:23-25 | the first octet is the most significant |
| `DhcpProofs.FirstFreeSpec` | server/dhcp/ip_manager.py:30-39 | the search returns the lowest free address of the range, or every address of it is in use |
| `DhcpProofs.LeasesStayDistinct` | server/dhcp/ip_manager.py:41-129 | in every run from the empty table the set of addresses in use is that of the leases, which lie in the pool and are pairwise distinct |
| `DhcpProofs.Exclusive` | server/dhcp/ip_manager.py:86-110 | an address acknowledged at time t is neither offered nor acknowledged to another client until after t + 3600 |
| `DhcpProofs.RefusedIffExhausted` | server/dhcp/ip_manager.py:64-67 | a client without a live lease is refused exactly when the live leases are as many as the pool |
| `DhcpHistory.TableIsHistory` | server/dhcp/ip_manager.py:41-129 | in every run the table holds exactly what the positive answers so far say: address and transaction of the last one, its time plus 3600, and whether an acknowledgement still stands |
| `DhcpHistory.AcknowledgedIff` | server/dhcp/ip_manager.py:79-110 | in every run a REQUEST is acknowledged if and only if the client's last positive answer is at most an hour old and about that address, and no acknowledgement still stands or the transaction is repeated |
| `DhcpHistory.OfferCanBeTakenUp` | server/dhcp/ip_manager.py:104-108 | after an offer, and whatever others do, a REQUEST within the hour is acknowledged if its transaction is that of the DISCOVER, and with any transaction unless the DISCOVER only repeated an acknowledged one |
| `DhcpHistory.OfferIsExact` | server/dhcp/ip_manager.py:41-77 | in every run a DISCOVER offers the client's own live address, or else the lowest address no live client has, and refuses if and only if the live clients are as many as the pool |
| `Idempotency.IdempotencyCache.Get` | server/agent/idempotency.py:30-45 | returns a living entry's answer and deletes an expired entry |
| `Idempotency.IdempotencyCache.Put` | server/agent/idempotency.py:47-56 | stores the answer with its time |
| `Idempotency.IdempotencyCache.Sweep` | server/agent/idempotency.py:58-72 | the deletion loop removes exactly the expired entries |
| `Idempotency.AgentServer.ProcessRequest` | server/agent_server.py:46-96 | decode, look up, dispatch, store; malformed requests and exceptions answer nothing |
| `IdempotencyProofs.StoredAnswerRepeats` | server/agent_server.py:69-87 | for any handler: after an execution with a non-empty answer, every repeat within 120 s returns that answer and changes nothing |
| `IdempotencyProofs.ProtectionIsExact` | server/agent_server.py:70-84 | for any handler and in every run: the next request under the key within 120 s runs again if and only if the first raised or answered nothing |
| `IdempotencyProofs.SweepsAreInvisible` | server/agent/idempotency.py:58-72 | sweeping at any times changes no answer and no effect |
| `RequestHistory.PipelineRefinesMemory` | server/agent_server.py:46-96 | every answer and effect of the pipeline, in every run, are those of a server that remembers all executions by client, number and opcode and repeats a non-empty answer for 120 s |
| `RequestHistory.FoundIff` | server/agent/idempotency.py:30-45 | that server finds an answer if and only if such an execution exists |
| `RequestHistory.ClientsAreKeptApart` | server/agent_server.py:70-72 | in every run a request whose client has not used its number and opcode before runs the handler, whatever other clients did |
| `DispatchProofs.EncodedDecodes` | common/app_envelope.py:29-66 | an encoded message decodes to the same opcode, request number and payload |
| `DispatchProofs.AnswersAreEnvelopes` | server/agent/response_builder.py:45-82 | every answer of the dispatcher is a well-formed, non-empty envelope under the request's opcode and number |
| `DispatchProofs.RaisesIff` | server/agent/dispatcher.py:77-161 | an exception escapes the dispatcher if and only if the handler raised a not-found or value error whose text does not fit an envelope |
| `DispatchProofs.RepeatsAreAnsweredFromCache` | server/agent_server.py:69-87 | after an execution from which no exception escaped, every repeat within 120 s returns the same non-empty answer and changes nothing |
| `DispatchProofs.ExecutionsAreApart` | server/agent_server.py:69-87 | two executions of one request are at least 120 s apart if no exception escaped the first |
| `DispatchProofs.RunsAgainIff` | server/agent_server.py:69-96 | in every run, the next request under the key within 120 s runs again if and only if an exception escaped the first |
| `DispatchProofs.AppendEscapesIff` | server/agent/handlers/append.py:30-64 | for APPEND an exception escapes if and only if the payload is malformed with an oversized error text, or the file is missing and the error text with its name is oversized |
| `DispatchProofs.EffectMeansAnswered` | server/agent/handlers/append.py:30-110 | an APPEND event that changed a file was executed, and no exception escaped |
| `DispatchProofs.AppendsOnce` | server/agent/handlers/append.py:98-99 | in every run, two changes of the files by one client's APPEND of one number are at least 120 s apart, unconditionally |
| `DispatchProofs.AppendsAgainAfterLifetime` | server/agent/idempotency.py:37-45 | the bound is exact: the same APPEND 120 s after its answer takes effect again |
| `DispatchProofs.LongNameRunsTwice` | server/agent/handlers/append.py:56-57 | a concrete APPEND from which an exception escapes: it runs twice, gets no answer, is not cached and changes no file |
| `DispatchAnswers.EnvelopeLayout` | common/app_envelope.py:42-57 | exactly which requests are accepted, and where opcode, number and payload are in them |
| `DispatchAnswers.RoutingIs` | server/agent/dispatcher.py:42-94 | opcodes 1 to 5 and 16 to 18 run a handler, any other runs nothing and is answered with status 400 |
| `DispatchAnswers.DataAnswer` | server/agent/response_builder.py:45-64 | data is answered with status 200 and that data, byte by byte |
| `DispatchAnswers.BinaryAnswer` | common/mixed_mode_io.py:22-78 | with binary content the client's decoder gets back the JSON and the content |
| `DispatchAnswers.NotFoundAnswer` | server/agent/dispatcher.py:128-135 | a missing file is answered with status 404 and the error's text |
| `DispatchAnswers.InvalidAnswer` | server/agent/dispatcher.py:137-152 | a value error is answered with its status and text |
| `DispatchAnswers.StatusIs` | server/agent/dispatcher.py:139-144 | that status is 403, 413 or 400 by the words that the text mentions in any case |
| `DispatchAnswers.FailureAnswer` | server/agent/dispatcher.py:154-161 | any other failure is answered with status 500 |
| `DispatchAnswers.UnserialisableAnswer` | server/agent/response_builder.py:66-74 | data that cannot be serialised is answered with status 500 |
| `DispatchAnswers.TooLongAnswer` | server/agent/dispatcher.py:137-152 | data that does not fit an envelope is answered with status 413 and its length |
| `DispatchAnswers.AppendReportsSize` | server/agent/handlers/append.py:98-110 | a successful APPEND appends the data and reports the size that the file has afterwards |
| `DispatchAnswers.AppendTooLargeIsBadRequest` | server/agent/handlers/append.py:63-64 | an APPEND that would be too large is answered with status 400 |

## Left out

- Sockets, threads, receive loops, timers, logging and the failure engine: replaced by the unreliable network and atomic steps.
- Server.RudpServerTransport.HandleDatagram: the time a peer was last seen is not kept, as nothing reads it.
- Connection.RudpConnection.constructor: without the peer's address and the time it was last seen, which no modelled operation reads.
- Upload.UploadSessionManager.CreateSession: the generated id is a parameter, and the time stamps are left out together with the expiry of idle sessions.
- Upload.UploadSessionManager.ApplyChunk: does not update the time of last activity, which only the expiry of idle sessions reads.
- CanFinishIff: does not cover two directions at once when one has exactly 2^32 segments, as the outcome then depends on which side goes down first; `DirectionCanFinishIff` covers one direction of any length.
- EverythingCanBeDelivered: speaks of packets; `CanFinishIff` is the result over bytes.
- Damage beyond one byte per datagram: the checksum does not promise to detect it.
- Acknowledgements that no receiver sent: the sender accepts any number above its base; results that need genuine acknowledgements are in `Protocol`, the others in `SenderProofs` and `SenderWindow`.
- Dotted-decimal parsing and printing of addresses: an address is its four octets.
- The lease time that the DHCP server echoes to clients, and client retries.
- TASK requests in the pipeline: their handler also looks in the cache under a fixed client name; the model treats them like the other opcodes, without that second entry.
- AppendsOnce: decoding of the payload and validation of the path are a parameter, and directories and failing disks are not modelled.
- File paths, size limits and JSON metadata of uploads, two uploads to the same file name at once, the mixed-mode framing, planner, tool dispatcher, DNS, HTTP text, CLI and TCP transports: file I/O, libraries or easy framing.
- `common/congestion_control.py`: an unused stub.
