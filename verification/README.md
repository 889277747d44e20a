# A model of zetta-transport

zetta-transport is an encrypted transport over UDP with one actor per connection. This project models
the parts of it that carry its guarantees and proves those guarantees for every input, every schedule
or every reachable state.

The actor's state is kept in classes whose methods change it in place (receive buffer, stream state,
reader, bit masks, unacknowledged window, sending connection), each tied to functions on values. The laws
are proved about those functions, and over every run of machines that put two parties together:

- **Streams.** `ReceivedRanges` and `StreamBuffer` are the range list and the circular buffer,
  `StreamReceive` says what every frame and read report does to a stream, `StreamStates` does it in
  place, `StreamReader` is the application's end, `StreamSend` the sender's credit. `Delivery` joins a
  sender and a receiver through a network that loses, duplicates, delays and reorders, `StreamEnd`
  says how streams end there and `StreamProgress` that what was accepted is kept and credit comes back; `ReceiveConnection` sets many streams against an arbitrary peer. The
  receiver of `Delivery` is the one of `StreamReceive`. Its sender shares the credit functions with
  `Recovery` and otherwise keeps only what one stream needs of it: a queue, the frames in flight, and
  the choice between sending again and queueing again.
- **Acknowledgements.** `PacketMask` and `PacketWindow` hold the 2048-bit masks and the range extraction,
  `AckRanges` what a list of ranges means, `AckExchange` the two parties, and `Reliability` what becomes of
  every reliable payload between them.
- **Sending and recovery.** `Unacked` is the window of packets in flight, `Ledger` and `AckFate` the sums
  over them and what an ACK does to each, `Recovery` the connection (admission, pacing queue, ACK
  processing, loss, timeouts), and `Pmtud` the path-MTU search.
- **Wire format.** `Wire`, `Frames`, `FrameCodec`, `FrameBuffer`, `PacketNumber`, `PacketHeader`,
  `HeaderProtection`, and `Pipeline`, which composes them with an ideal AEAD; `NumberExchange` follows
  truncated packet numbers through runs of two parties.

Machine words are natural numbers and bit operations act on binary digits (`Bits`). A byte is an
integer from 0 to 255. Wrap-around, saturation and checked arithmetic are written out where the source
has them. Time is a natural number, and the network, the socket and the pacing decision are parameters.

Promises that fail, each with an input and the exact condition:

- A stream can be closed more than once: the first close declares its size and removes the sending half,
  and a close that finds none, such as the later drop of the handle, declares size 0
  (src/stream/stream.rs:291-320, src/transport/actor/event_loop.rs:102-106). On a stream the receiver
  opened there is more: any later frame of the receiver creates the sending half again, with offsets from
  0 and a second handle for the application (src/transport/actor/incoming_handler.rs:182-244), so a later
  life can send other bytes at the same offsets and declare other sizes.
  - The receiver closes the connection exactly when two of the things that reached it contradict each
    other, in either order (a size and data past it, or two sizes), or when buffer memory runs out
    (`RefusedExactly`; `RefusedRun` with size 0, `LaterLifeRefusedRun` without).
  - The application sees the end exactly when it has as many bytes as the first uncontradicted size says
    (`ClosedExactly`). If nothing was admitted after a re-creation, that is too early exactly when this
    size is 0 although data was admitted (`ClosedOnlyWhenComplete`, `EarlyEndRun`). A size that reaches a
    stream the peer opened before any of its data is ignored, because no receiving half exists yet.
  - The application reads a prefix of what was first admitted as long as every later life only repeats
    it (`DeliveredIsPrefix`); otherwise whichever life is heard first wins (`FirstPacketDecides`,
    `OverwrittenRun`). In every run each byte delivered was admitted at its offset in some life
    (`DeliveredWasAdmitted`).
  - On a stream the sender opened, data of the peer after its close fails the parity test instead and
    closes the connection (src/transport/actor/incoming_handler.rs:183-187).
- An ACK also retires packets more than 2047 below its largest number, processed or not
  (`HorizonRetiresUnprocessed`, `UnprocessedRetiredExactly`). That is the only way a reliable payload gets
  lost (`NothingElseIsLost`, `ShortRunsDropNothing`).
- A truncated packet number comes back exactly when it lies in the receiver's decoding window for the
  length chosen (`RoundTripExactly`). A timeout that empties the sender's window makes that length one
  byte, and the next packet is then lost exactly when the receiver misses too many numbers
  (`LostAfterTimeout`, `TimeoutRecovers`, `AllRecoveredExactly`); at a distance of 2^63 the length is
  computed from a wrapped product (`FarNumberIsLost`).
- The connection's buffer limit is kept exactly unless it is the largest 64-bit number, which a saturating
  sum never exceeds (`MemoryBoundExactly`, `UnlimitedRun`).
- A varint survives exactly when it is below 2^62 (`VarintRoundTrip`).

## Model

| member | source | states |
|---|---|---|
| `ReceivedRanges.AddRange` | src/transport/state/stream_buffer.rs:72-112 | The merged list is sorted, disjoint and non-adjacent, covers exactly the old offsets and the new interval, and the returned count is exactly the number of newly covered offsets |
| `ReceivedRanges.ScanTouching` | src/transport/state/stream_buffer.rs:77-100 | The scan splits the list into ranges before, touching and after the new interval, and returns the hull of the touching ones and their overlap with the interval |
| `ReceivedRanges.HullReplaces` | src/transport/state/stream_buffer.rs:72-112 | Replacing the touching ranges by one hull keeps the list separated, adds only the new interval to what is covered, and changes the covered length accordingly |
| `StreamBuffer.StreamReceiveBuffer.constructor` | src/transport/state/stream_buffer.rs:19-27 | A new buffer of any capacity is empty, unallocated and valid |
| `StreamBuffer.StreamReceiveBuffer.Write` | src/transport/state/stream_buffer.rs:33-68 | Writing is a map update on the offset-to-byte view; it is refused exactly when the data ends past the window or the 64-bit range, and then changes nothing |
| `StreamBuffer.StreamReceiveBuffer.CopyFrom` | src/transport/state/stream_buffer.rs:50-62 | The chunked copy changes exactly the slots of the write, wrapping at most once, and keeps every other slot |
| `StreamBuffer.StoreView` | src/transport/state/stream_buffer.rs:33-68 | Copying into the circle and covering the interval stores exactly those bytes in the view, for any overlap with earlier data |
| `StreamBuffer.StreamReceiveBuffer.ReadContiguous` | src/transport/state/stream_buffer.rs:114-161 | Returns the whole gap-free run at the read head, nothing exactly when that byte is missing; the view keeps what lies above |
| `StreamBuffer.RunIsMaximal` | src/transport/state/stream_buffer.rs:114-161 | The run is the longest sequence of received bytes that starts at the read head |
| `StreamBuffer.StreamReceiveBuffer.Resize` | src/transport/state/stream_buffer.rs:166-208 | Moving to another capacity that holds the unread span leaves the view unchanged |
| `StreamBuffer.ResizeView` | src/transport/state/stream_buffer.rs:166-208 | Unrolling one circle and laying it out in another shows the same bytes at the same offsets |
| `StreamStates.StreamState.constructor` | src/transport/state/stream_state.rs:68-95 | A new receiving half with any window satisfies the stream invariant |
| `StreamStates.StreamState.HandleStream` | src/transport/actor/incoming_handler.rs:258-330 | The object moves as OnStream says for every frame; VerdictExactly and AcceptedIsKept say what that is |
| `StreamStates.StreamState.HandleStreamClose` | src/transport/actor/incoming_handler.rs:389-405 | The object moves as OnStreamClose says: a final size is refused exactly when it contradicts what was received or declared |
| `StreamStates.StreamState.ForwardStreamData` | src/transport/actor/incoming_handler.rs:559-650 | Credit, forwarding, auto-tuning and the advertised limit as OnRead says; OnReadAdvertises and TunesExactly say what that is |
| `StreamStates.StreamState.Drain` | src/transport/actor/incoming_handler.rs:574-588 | The forwarding loop hands over one maximal run and closes the channel once the read head reached the final size |
| `StreamStates.StreamState.TuneWindow` | src/transport/actor/incoming_handler.rs:591-631 | The window grows only when half of it was read quickly and the connection's buffer limit allows it, and the buffer grows with it |
| `StreamReceive.OnStreamKeepsSound` | src/transport/actor/incoming_handler.rs:273-330 | A frame from any peer, accepted or refused for any reason, keeps the stream invariant: credit plus buffered bytes equals read head plus received bytes, bytes lie inside window and final size, delivered length equals the read head |
| `StreamReceive.VerdictExactly` | src/transport/actor/incoming_handler.rs:258-312 | Which frames are refused and for which cause, in the order of the checks: memory, 64-bit overflow, final size, credit, window |
| `StreamReceive.AcceptedIsKept` | src/transport/actor/incoming_handler.rs:302-330 | Each byte of an accepted frame at or above the read head is delivered or buffered at its offset afterwards, and so is every byte held before that the frame does not replace |
| `StreamReceive.RefusedChangesNothing` | src/transport/actor/incoming_handler.rs:258-312 | A refused frame changes nothing, except that one past the credit or the window raises the highest offset seen |
| `StreamReceive.ForwardsExactly` | src/transport/actor/incoming_handler.rs:574-588 | The whole gap-free run at the read head moves to the application as one chunk exactly when the channel is open, its reader there and one of 2048 slots free |
| `StreamReceive.OnStreamCloseKeepsSound` | src/transport/actor/incoming_handler.rs:389-405 | An accepted close keeps the stream invariant |
| `StreamReceive.OnReadKeepsSound` | src/transport/actor/incoming_handler.rs:559-650 | Any read report keeps the stream invariant, through growth of the window and of the buffer |
| `StreamReceive.OnReadAdvertises` | src/transport/actor/incoming_handler.rs:632-650 | A report credits exactly what was read and buffered; a limit of credit plus window is advertised exactly when that is worth a quarter of the window, so credit worth that much is never withheld |
| `StreamReceive.TunesExactly` | src/transport/actor/incoming_handler.rs:591-631 | The window doubles, up to its maximum, exactly when half of it was read quickly and the connection has room |
| `StreamReceive.BufferedFitsWindow` | src/transport/actor/incoming_handler.rs:295-328 | Buffered bytes never exceed the window |
| `StreamReader.ZtStream.Recv` | src/stream/stream.rs:253-282 | The next chunk is handed over once and in order and reported in full; end of stream, termination and nothing-yet are told apart, and only when nothing is left |
| `StreamReader.ZtStream.PollRead` | src/stream/stream.rs:324-391 | Bytes are handed over once and in order, as many as fit; reported plus pending credit grows by exactly their number, and nothing stays pending when the last report was accepted; end, termination and nothing-yet are told apart |
| `Delivery.EveryRunKeeps` | src/transport/actor/incoming_handler.rs:173-336 | The two-party invariant holds after every schedule of admissions, sends, losses, duplicates, reorderings, retransmissions, repeated closes, re-creations of the sending half, receipts, reads, limit updates and a dropped reader, for streams opened by either side, also after the receiver closed the connection |
| `Delivery.DeliveredWasAdmitted` | src/transport/actor/incoming_handler.rs:574-582 | In every run, each byte handed over was admitted at its offset in some life of the sending half; none is handed over twice or out of order |
| `Delivery.DeliveredIsPrefix` | src/transport/actor/packet_sender.rs:314-329 | In every run in which later lives of the sending half only repeat the first, in particular admit nothing, what the application reads is a prefix of what was admitted before the first close |
| `Delivery.NoFlowControlError` | src/transport/actor/incoming_handler.rs:295-301 | In every run and every life, what the sender admitted and may still admit ends within the largest limit it heard of, and a packet it ever sent is refused exactly for lack of connection memory or because an accepted final size lies below its end |
| `Delivery.AccountingHolds` | src/transport/actor/incoming_handler.rs:570-572 | In every run credit is at most the read head, credit plus buffered equals read head plus received, and buffered bytes fit the window |
| `StreamProgress.AcceptedBytesKept` | src/transport/actor/incoming_handler.rs:302-330 | In every run each byte of each accepted packet is delivered or buffered at its offset, as a byte some life admitted there, and as that very byte when later lives only repeat the first |
| `StreamProgress.CreditReturns` | src/transport/actor/incoming_handler.rs:632-650 | In every run a sender whose bytes were all read and credited gets going again: hearing the largest limit advertised leaves it at least three quarters of the receiver's window |
| `StreamProgress.EveryRunKept` | src/transport/actor/incoming_handler.rs:559-650 | In every run every offset of an accepted packet stays delivered or buffered, and the largest limit ever advertised is the last one, less than a quarter of a window behind what could be granted |
| `Delivery.ReceiveFinalKeeps` | src/transport/actor/incoming_handler.rs:389-405 | Any declared final size keeps the invariant; one that is past everything admitted is refused exactly after a different one was accepted |
| `Delivery.OnStreamFaithful` | src/transport/actor/incoming_handler.rs:273-330 | A frame that carries admitted bytes keeps buffered and delivered bytes equal to the admitted ones; its verdict is exactly the expected one and a refusal changes nothing |
| `StreamEnd.ClosedOnlyWhenComplete` | src/transport/actor/incoming_handler.rs:583-588 | In every run with nothing admitted after a re-creation, the application channel is closed only after everything admitted was delivered, exactly unless the receiver settled on size 0; then it is closed with nothing delivered |
| `StreamEnd.RefusedExactly` | src/transport/actor/incoming_handler.rs:389-405 | In every run the receiver closes the connection exactly when buffer memory ran out or two arrivals contradict each other: a size and data past it, or two sizes |
| `StreamEnd.ClosedExactly` | src/transport/actor/incoming_handler.rs:583-588 | In every run the application channel is closed exactly when as many bytes were delivered as the first uncontradicted size says |
| `StreamEnd.ClosedOnceIsSafe` | src/transport/actor/packet_sender.rs:722-732 | A sender that admits nothing after its first close and declares only the true size is never refused, memory apart, and its stream never ends early |
| `StreamEnd.EarlyEndRun` | src/transport/actor/event_loop.rs:102-106 | A run on a stream the receiver opened in which a closed and dropped stream ends empty although a byte was admitted |
| `StreamEnd.RefusedRun` | src/stream/stream.rs:291-320 | A run in which closing and dropping a stream makes the receiver close the connection |
| `StreamEnd.FirstPacketDecides` | src/transport/actor/incoming_handler.rs:182-244 | A receiver that has heard nothing delivers the first packet from offset 0 whichever life sent it, so the prefix property then holds exactly when that packet carries one |
| `StreamEnd.OverwrittenRun` | src/transport/actor/incoming_handler.rs:182-244 | A run in which the byte of a re-created sending half is delivered in place of the first |
| `StreamEnd.LaterLifeRefusedRun` | src/transport/actor/incoming_handler.rs:277-289 | A run in which data of a re-created sending half closes the connection although only the true size was declared |
| `ReceiveConnection.MemoryBound` | src/transport/actor/incoming_handler.rs:258-271 | For every event sequence from an arbitrary peer, also after the connection was closed, buffered bytes stay within the allocated receive buffers, and these within the connection's limit if it is below the largest 64-bit number |
| `ReceiveConnection.MemoryBoundExactly` | src/transport/actor/incoming_handler.rs:258-271 | Every run keeps the limit exactly when it is below the largest 64-bit number |
| `ReceiveConnection.UnlimitedRun` | src/transport/actor/incoming_handler.rs:258-271 | With that largest number as limit, two streams allocate twice as much |
| `ReceiveConnection.EveryRunKeeps` | src/transport/connection.rs:195-204 | After every event sequence every stream is sound, and the allocation sum is bounded if the limit can be exceeded at all; a frame whose end overflows is dropped and the connection goes on |
| `ReceiveConnection.OnReadAllocates` | src/transport/actor/incoming_handler.rs:611-631 | Auto-tuning enlarges a buffer only by as much as the saturating sum of all buffers allows |
| `ReceiveConnection.FinalSizeIsFinal` | src/transport/actor/incoming_handler.rs:277-289 | Once accepted, a final size never changes while the stream exists, on an open or a closed connection; no byte at or past it is buffered, and the channel is closed only when exactly that many bytes were delivered |
| `ReceiveConnection.ClosesExactly` | src/transport/actor/incoming_handler.rs:258-312 | In every run an open connection is closed by exactly the frames that exceed memory, final size, credit or window or contradict a size; an end past 64 bits is dropped, and a closed connection ignores frames |
| `PacketMask.MovedBit` | src/transport/state/replay_window.rs:67-95 | The word phase and the bit phase together are one plain shift of the 2048-bit mask |
| `PacketMask.ShiftLeft` | src/transport/state/ack_tracker.rs:44-72 | The in-place shift computes exactly that move |
| `PacketWindow.SlidingWindow.MarkProcessed` | src/transport/state/ack_tracker.rs:17-42 | On the mask, marking acts as on the set of recent numbers, in all four cases |
| `PacketWindow.SlidingWindow.CheckReplay` | src/transport/state/replay_window.rs:24-38 | The mask lookup decides exactly whether a number counts as a replay |
| `PacketWindow.MarkTracks` | src/transport/state/replay_window.rs:40-65 | Marking one more number keeps the window at the marked numbers within 2048 of the highest |
| `PacketWindow.MarkAllTracks` | src/transport/state/replay_window.rs:40-65 | For every mark sequence, repeats included, the window holds exactly the marked numbers within 2048 of the highest |
| `PacketWindow.ReplayExactly` | src/transport/state/replay_window.rs:24-38 | A number is refused exactly when it was marked before or lies 2048 or more below the highest |
| `PacketWindow.HandledOnce` | src/transport/actor/incoming_handler.rs:66-68 | For every sequence of arrivals no packet number is handled twice |
| `PacketWindow.ReceivedNumbers.Receive` | src/transport/congestion.rs:267-279 | Replay window and ACK tracker agree after every packet, and the handled numbers stay distinct |
| `PacketWindow.SlidingWindow.GetAckRanges` | src/transport/state/ack_tracker.rs:74-130 | Including the all-zero and all-one word skips, the result is the list of maximal runs, highest first, complete up to 128 and otherwise the top 128 |
| `AckRanges.RunsAreRuns` | src/transport/state/ack_tracker.rs:74-130 | Every listed range is a maximal run of processed numbers, and the runs descend with gaps |
| `AckRanges.RunsComplete` | src/transport/state/ack_tracker.rs:74-130 | Every processed number lies in a listed run |
| `AckRanges.TopRunsComplete` | src/transport/state/ack_tracker.rs:74-130 | An acknowledgement leaves a processed number out only when it lists 128 ranges, all above it |
| `Unacked.UnackedWindow.Insert` | src/transport/state/unacked_window.rs:21-36 | Inserting refines a map update for numbers at or above the base, and ignores smaller ones |
| `Unacked.UnackedWindow.Remove` | src/transport/state/unacked_window.rs:38-56 | Removing refines map removal, returns the packet, and leaves an occupied front slot |
| `Unacked.UnackedWindow.Clear` | src/transport/state/unacked_window.rs:58-62 | Nothing is tracked afterwards |
| `Unacked.UnackedWindow.Keys` | src/transport/state/unacked_window.rs:83-101 | Exactly the tracked numbers, in ascending order |
| `AckFate.SplitSums` | src/transport/congestion.rs:300-391 | Splitting the tracked packets splits the sum of sent bytes and the reliable payloads without remainder |
| `AckFate.FatesAddUp` | src/transport/congestion.rs:300-386 | Ranged, below-horizon, lost and kept packets together are all packets: sent bytes and payloads add up |
| `AckFate.AllKeptExactly` | src/transport/congestion.rs:350-386 | After an ACK exactly those packets are kept that no range covers, that are at most 2047 below the largest and, if below it, fewer than three and not older than the time threshold |
| `AckFate.FateExactly` | src/transport/congestion.rs:300-386 | The fate of a packet under an ACK, each by its own condition on number, age and ranges |
| `AckFate.ResendIsOutstanding` | src/transport/congestion.rs:370-386 | The payloads queued for retransmission are exactly the reliable payloads of the lost packets |
| `Recovery.ZtConnection.constructor` | src/transport/connection.rs:107-184 | A new connection satisfies the conservation invariant |
| `Recovery.ZtConnection.HandleAck` | src/transport/congestion.rs:288-421 | Each tracked packet meets exactly one fate: kept are exactly those in no range, within 2047 and, below the largest, fewer than three behind and young enough; the lost ones are counted and handed back once; bytes in flight equal the sum over what is kept; exactly the acknowledged and the lost probe sizes reach the MTU search |
| `Recovery.ZtConnection.AckOneRange` | src/transport/congestion.rs:301-325 | One range removes exactly the tracked packets inside it, however far it reaches beyond the window |
| `Recovery.ZtConnection.RetireBelow` | src/transport/congestion.rs:328-348 | Exactly the packets below the horizon are removed |
| `Recovery.ZtConnection.FindLost` | src/transport/congestion.rs:350-369 | Lists exactly the packets three or more below the largest number or, below it, older than the threshold, in order |
| `Recovery.ZtConnection.DeclareLost` | src/transport/congestion.rs:370-386 | The lost packets are removed, reliable ones handed back, probes recorded as lost |
| `Recovery.ZtConnection.OnAckFrame` | src/transport/actor/incoming_handler.rs:337-369 | An ACK is refused exactly when its largest number was never sent or a range is reversed or ends above it; that closes the connection and retires nothing. Otherwise exactly the acknowledged payloads are retired, every other tracked packet stays, lost payloads are sent again under fresh numbers or queued in front with their retries, and conservation holds |
| `Recovery.ZtConnection.GetNextPacketNumber` | src/transport/connection.rs:186-193 | Numbers are handed out in order, each once, and refused at the end of the 64-bit range |
| `Recovery.ZtConnection.SendPayloadWithRetries` | src/transport/actor/packet_sender.rs:571-720 | A packet that left is tracked once under a fresh number with its size counted in flight; a failed send tracks nothing |
| `Recovery.ZtConnection.RetransmitPayload` | src/transport/actor/packet_sender.rs:539-552 | The payload is in flight or back at the front of the queue, never both or neither |
| `Recovery.ZtConnection.SendPayload` | src/transport/actor/packet_sender.rs:554-560 | A control payload or datagram leaves under the next number or waits in front of the queue, and joins custody exactly once |
| `Recovery.ZtConnection.InitiateClose` | src/transport/actor/packet_sender.rs:734-737 | The close payload joins custody and the state is Closing |
| `Recovery.ZtConnection.ResendAll` | src/transport/actor/incoming_handler.rs:362-368 | Every handed-back payload is in custody again exactly once, sent now or in front of the queue, with its retries; no datagram is sent again |
| `Recovery.ZtConnection.FlushPacingQueue` | src/transport/actor/packet_sender.rs:333-446 | The first k queued payloads become packets under consecutive numbers with their retries, in queue order, and exactly they leave the queue; it stops early only when pacing forbids, the socket blocks, a send fails or the numbers run out; conservation holds however the loop ends |
| `Recovery.ZtConnection.SendFront` | src/transport/actor/packet_sender.rs:357-388 | What each outcome does to the front payload: sent, it is tracked and leaves; blocked, nothing changes; unsendable, the connection is closed; failed, one retry is counted and the eleventh closes the connection |
| `Recovery.ZtConnection.ProcessOutgoingData` | src/transport/actor/packet_sender.rs:278-331 | Data is admitted exactly when the stream may send and the data fits the connection window, the stream window and, with what is in flight and queued, the congestion window; each refusal has its cause in the order of the checks; the data joins the queue at the next offset, is counted as queued, and the end of the credit does not move |
| `Recovery.TxStream.HandleMaxStreamData` | src/transport/actor/incoming_handler.rs:406-415 | The end of the credit is the larger of what was sent and the limit |
| `Recovery.ZtConnection.SendMtuProbe` | src/transport/actor/packet_sender.rs:138-209 | A probe of the midpoint size is tracked exactly when the connection is active, the search is open and the packet leaves; it takes no part in payload conservation |
| `Recovery.ZtConnection.ExpireScan` | src/transport/actor/packet_sender.rs:448-501 | The scan gives up exactly when a packet is due for the eleventh time; otherwise it lists exactly the expired packets (ExpiredExactly), counts one more retry and the current time for the reliable ones only, and suspects a black hole exactly when one was due for the fourth time or later |
| `Recovery.ZtConnection.HandleRetransmits` | src/transport/actor/packet_sender.rs:448-537 | A packet stays in flight, untouched, exactly until its deadline; past it, it is sent again now with one more retry under a fresh number or queued in front; a reliable packet past its deadline after ten retries closes the connection instead and nothing leaves; after three retries the MTU search starts afresh; lost probes count; payloads and bytes in flight are conserved |
| `Recovery.ExpiredExactly` | src/transport/actor/packet_sender.rs:456-459 | A packet is due exactly when it is older than the base timeout doubled once per retry, six times at most, and capped at ten seconds |
| `Recovery.ExpiryBounds` | src/transport/actor/packet_sender.rs:456-459 | No packet younger than the base timeout is due, every one older than ten seconds or 64 base timeouts is, and a packet once due stays due |
| `Recovery.ProbesResolved` | src/transport/congestion.rs:300-386 | Acknowledged probes raise the size in use to the largest of them; lost ones put the upper bound just below the smallest of them |
| `Recovery.AckBalance` | src/transport/actor/incoming_handler.rs:354-368 | What queue and flight held before an ACK is what they hold after it, plus what is sent again, plus what was acknowledged |
| `AckExchange.ConfirmedWasProcessed` | src/transport/congestion.rs:300-326 | In every run over a lossy, reordering network, with numbers used by untracked packets and failed sends, each number confirmed by a range was processed by the peer, and every report passes the sender's validation |
| `AckExchange.TopRunsTruthful` | src/transport/state/ack_tracker.rs:74-130 | The ranges of an acknowledgement name processed numbers only, and none above its largest |
| `AckExchange.ReportsAccepted` | src/transport/actor/incoming_handler.rs:337-353 | In every run the sender accepts every report its peer made |
| `AckExchange.ReportSurvives` | src/protocol/frame.rs:386-421 | In every run the ACK frame of a report decodes to itself exactly when its delay is below 2^62 |
| `AckExchange.HorizonRetiresUnprocessed` | src/transport/congestion.rs:328-348 | A run of 3001 sends, one arrival and one report after which packet 0 is no longer tracked and was never processed |
| `AckExchange.UnprocessedRetiredExactly` | src/transport/congestion.rs:328-348 | An unprocessed packet is retired by the peer's ACK exactly when it is more than 2047 below the largest number |
| `Reliability.NothingElseIsLost` | src/transport/congestion.rs:288-421 | In every run of both endpoints, with timeouts, losses and bare acknowledgements, each admitted reliable payload waits, is in flight, was processed by the peer, or was on a packet retired below the 2047 horizon unprocessed |
| `Reliability.ShortRunsDropNothing` | src/transport/congestion.rs:328-348 | If no report arrives while a packet more than 2047 below its largest number is in flight, nothing is dropped |
| `Reliability.ReportHolds` | src/transport/congestion.rs:300-386 | A report takes a packet out of flight only if it was processed, goes back to the queue, or falls below the horizon |
| `Pmtud.SearchEncloses` | src/transport/connection.rs:206-220 | Under any number of outstanding faithful probes, the size in use is the lower bound, the path limit stays enclosed, and once probing stops it is at most 10 bytes away |
| `Pmtud.RoundHalves` | src/transport/actor/packet_sender.rs:143-148 | A midpoint probe resolved against its own bounds at least halves the gap, rounded up |
| `Pmtud.RoundExactly` | src/transport/actor/packet_sender.rs:143-148 | A probe asks for the midpoint rounded down; acknowledged it leaves the upper half, lost the lower half below it; probing stops at a gap of ten |
| `Pmtud.ConvergesWithin` | src/transport/connection.rs:206-220 | A gap of at most 10 * 2^n is closed in n rounds |
| `Pmtud.BlackHoleRestarts` | src/transport/connection.rs:222-236 | Above the floor recovery restarts at the floor and encloses exactly the limits below the failed size; at the floor nothing changes |
| `Pmtud.DefaultsConverge` | src/transport/connection.rs:206-220 | Bounds of 1200 and 9000 bytes are searched in ten rounds |
| `Wire.UintRoundTrip` | src/protocol/frame.rs:203-349 | Big-endian integers that fit their width read back as written |
| `Wire.VarintRoundTrip` | src/protocol/frame.rs:51-91 | A varint reads back exactly when it is below 2^62, and what follows is untouched |
| `Wire.VarintShortest` | src/protocol/frame.rs:51-61 | The encoding is the shortest of 1, 2, 4 and 8 bytes that holds the value |
| `Wire.VarintReads` | src/protocol/frame.rs:63-91 | On arbitrary bytes the two top bits announce the length, and reading succeeds exactly when that many bytes are there |
| `Frames.DecodeFrame` | src/protocol/frame.rs:351-625 | On arbitrary bytes decoding stays in bounds and, when it succeeds, consumes at least one byte and leaves a suffix |
| `FrameCodec.DecodedFits` | src/protocol/frame.rs:351-625 | Every frame that comes out of arbitrary bytes is one the encoder can carry |
| `FrameCodec.FrameRoundTrip` | src/protocol/frame.rs:203-349 | A frame followed by any bytes decodes to itself and those bytes exactly when it fits: varints below 2^62, lengths in their length fields, at most 128 ordered ranges |
| `FrameCodec.PayloadRoundTrip` | src/protocol/frame.rs:203-349 | A list of frames decodes to that list with adjacent padding fused and empty padding dropped exactly when every frame fits |
| `FrameCodec.PaddingFuses` | src/protocol/frame.rs:358-365 | Padding in front of any bytes fuses with the padding they start with |
| `FrameBuffer.EncodeAppends` | src/protocol/frame.rs:203-349 | Encoding one more frame behind a payload appends its bytes |
| `FrameBuffer.Encode` | src/protocol/frame.rs:203-349 | The padding and range loops write exactly the frame's bytes |
| `FrameBuffer.Decode` | src/protocol/frame.rs:351-625 | The padding and range loops read exactly the frame |
| `FrameBuffer.DecodeFrames` | src/transport/actor/incoming_handler.rs:157-164 | The loop terminates on every payload and yields its frames up to the first malformed one |
| `PacketNumber.ExpandExactly` | src/protocol/packet_number.rs:25-45 | Expansion gives the number back exactly when it lies in the half-window around the expected one or, near zero, in the first window; saturation at 64 bits included |
| `PacketNumber.LenCovers` | src/protocol/packet_number.rs:1-23 | Below a distance of 2^31 half a window of the chosen length holds the distance |
| `PacketNumber.LenShortest` | src/protocol/packet_number.rs:1-23 | And one byte less could not hold twice the distance |
| `PacketNumber.PacketNumberRoundTrip` | src/protocol/packet_number.rs:1-45 | With the base at most the receiver's highest number, less than 2^31 behind, and the receiver less than half a window ahead, the number survives |
| `PacketNumber.RoundTripExactly` | src/protocol/packet_number.rs:1-45 | For every number, base and highest number: truncating and expanding gives the number back exactly when it lies in the decoding window of the chosen length |
| `PacketNumber.NextNumberSurvives` | src/protocol/packet_number.rs:1-45 | A receiver that has the number before it recovers every number, however far the base |
| `PacketNumber.FarNumberIsLost` | src/protocol/packet_number.rs:1-23 | An input at distance 2^63: the doubling wraps, one byte is chosen and the number is lost |
| `PacketHeader.HeaderRoundTrip` | src/protocol/packet.rs:67-205 | A well-formed header comes back with its number truncated, and whole exactly when the number fits |
| `PacketHeader.DecodedWellFormed` | src/protocol/packet.rs:109-205 | Every header accepted from arbitrary bytes is well formed |
| `PacketHeader.ShortcutsAgree` | src/protocol/packet.rs:38-65 | Where the full decoder accepts, the packet-number offset and the router's connection id are the decoder's |
| `PacketHeader.LongAgree` | src/protocol/routing.rs:6-31 | The same for long headers |
| `HeaderProtection.Apply` | src/crypto/header_protection.rs:8-45 | In place, the packet becomes the protected one, or stays as it was when too short |
| `HeaderProtection.Remove` | src/crypto/header_protection.rs:48-85 | In place, the packet becomes the unprotected one, or stays as it was when too short |
| `HeaderProtection.ProtectionRoundTrip` | src/crypto/header_protection.rs:8-85 | Removing undoes applying for every keystream |
| `HeaderProtection.FirstMaskBits` | src/crypto/header_protection.rs:33-36 | Exactly the low four bits of a long first byte and the low five of a short one are masked |
| `HeaderProtection.ProtectedBytes` | src/crypto/header_protection.rs:8-45 | Byte by byte: the sample starts four bytes after the packet number begins; the first byte and as many packet-number bytes as it counts are masked, nothing else |
| `HeaderProtection.ProtectionKeepsRouting` | src/protocol/routing.rs:6-31 | Packet-number offset and connection id are the same on protected and plain bytes |
| `HeaderProtection.NeverLooksLikeRetry` | src/transport/actor/incoming_handler.rs:30-39 | No mask makes an Initial or Handshake packet look like a Retry |
| `Pipeline.PipelineRoundTrip` | src/transport/actor/packet_sender.rs:576-683 | With an ideal AEAD, building never fails and opening recovers header, full packet number and frame with at most three bytes of padding, when the number is in the receiver's decoding window |
| `Pipeline.AlwaysLongEnough` | src/transport/actor/packet_sender.rs:665-672 | Whatever the frame's length, padding packet number and payload to four bytes and no further makes the packet long enough for header protection |
| `Pipeline.PlainRoundTrip` | src/transport/actor/incoming_handler.rs:41-64 | After protection is removed, decoding, expansion and opening give header and frames back |
| `Pipeline.InDecodingRange` | src/transport/actor/packet_sender.rs:578-580 | The header of a sender whose base the receiver has reached, less than 2^31 behind, carries the shortest number length that covers the distance, and the number is in the decoding window |
| `NumberExchange.AllRecoveredExactly` | src/transport/actor/packet_sender.rs:578-580 | All packets a run sent are recoverable exactly when each is within half a window of its length ahead of or behind the receiver's highest number; the run contributes only that its numbers are 64-bit |
| `NumberExchange.TightRunsRecover` | src/transport/actor/packet_sender.rs:578-580 | In every run in which at most k numbers above the receiver's highest are untracked at each send, bare acknowledgements included, a newer packet is recovered if the numbers in flight and those k fit half a window; with k zero always, below 2^31 |
| `NumberExchange.CarefulRunsRecover` | src/transport/actor/packet_sender.rs:578-580 | The zero case: if everything is tracked and forgotten only once handled, a packet newer than the receiver's highest is recovered in every run, less than 2^31 numbers in flight; an older one exactly within half a window |
| `NumberExchange.TimeoutRecovers` | src/transport/actor/packet_sender.rs:502-537 | After a timeout of everything in flight the next packet gets one byte and is recovered exactly when the receiver misses at most 128 numbers or, with its highest below 127, the number is below 256 |
| `NumberExchange.LostAfterTimeout` | src/transport/actor/packet_sender.rs:502-537 | The run in which the receiver is at 99 and number 1000 is lost |

## Left out

- Sockets, tasks, timers, wakers and fault injection; channels are bounded queues and a step machine stands for scheduling.
- Congestion window, CUBIC, pacing tokens and round-trip estimation; the window, the pacing decision and the timeout are inputs.
- Cryptographic primitives; header protection takes any keystream and the AEAD is ideal. Key epochs and key rotation are not modelled.
- Handshake, Initial and Retry processing, path validation, peer identity and ALPN; Initial payloads are not among the tracked payloads.
- `poll_write`, `poll_flush` and the asynchronous send loops of a stream.
- The connection-level `remote_window`, which every ACK overwrites; it appears only as a guard of admission.
- Stream-count and stream-id parity checks, stream direction changes, handling of RESET_STREAM and STOP_SENDING (and so of a stream reset and then dropped), statistics and error texts; refusals keep their order but not their messages.
- A stream is followed for one lifetime of its receiving half, and any number of lives of its sending half; a frame that arrives after the receiving half was removed starts a fresh one.
- Eventual delivery; the theorems are about safety.
- Sums of `u64` and `usize` values are unbounded except where the source uses checked, saturating or wrapping arithmetic.
- `BTreeMap` and `HashMap` fields are ascending sequences or maps; the replay window and the ACK tracker, which have the same mask code, share one class.
- Buffers passed by mutable reference in the frame, header and pipeline code are sequence values; only header protection works on an array in place.
- Pmtud.SearchEncloses: probe outcomes are faithful to one path limit; a probe dropped by congestion is not.
- HeaderProtection.ProtectionRoundTrip: for packet-number offsets from 1 on; the offsets computed from headers start at 2.
- Pipeline.PipelineRoundTrip: packets with a short header; long-header packets use other keys and belong to the handshake.
