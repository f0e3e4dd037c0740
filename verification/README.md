# Verified model of the network stack's reliable core

A Dafny model of the implemented core of a user-space TCP/IP stack in C++: the
reliable sender (`SendBuffer` over `RingBuffer` over the transmission control block),
the alarm scheduler, the segment codec with its Internet checksum, and the Lehmer
random generator. `dafny verify dfyconfig.toml` checks everything.

## How it is built

**The sender.** `SenderModel` is a state machine over unbounded stream positions, one
function per entry point of `SendBuffer`. `sendSegment` may fail at any time: `budget`
is the number of packets the IP layer accepts during a call. `SenderInvariant` and
`SenderTheorems` prove what every run keeps, for streams of any length; `Handlers` says
what every entry point sends, and when. `SenderFields`
says which 32-bit and 64-bit field values represent a model state and what the code's
comparisons of such numbers decide; `SenderNumbers` says what runs mean for those
numbers. `SendBuffers` is the class with those fields; each
method is proved to take the fields of one model state to the fields of the next, and
the code's DCHECKs are its preconditions, asserts and postconditions, but for the one of
`src/tcp/send_buffer.cpp:84`, for which see below. `Completion`, `Delivery`, `Transfer`
and `Network` put the sender against a receiver that keeps only the new in-order part of
each segment, over a network that loses, duplicates, delays and reorders in both
directions. `TimedTransfer` and `TimedNetwork` add the clock: the retransmission alarm is
an entry of the alarm registry, among others. `SentBytes` takes the segments down to
bytes and back.

**The ring buffer.** `Rings` gives each operation as a value function, `RingBuffers` the
class over a byte array. `WriteGap`, `GapRuns` and `GapWitnesses` put the sender over the
write as written.

**The alarms.** `Alarms` is the registry as a value, with callbacks as arbitrary code
(`Delegates`: from the state a callback runs in to the operations it performs).
`AlarmFactories` is the class, with the loops of `runAlarmEvent` and `elapse`.

**Codec and generator.** `DataStreams`, `Checksums` and `Codec` cover the writer, the
reader, the checksum and the segment format; `Lehmer` covers `RandGenerator`.

Clock readings, the IP layer's answers and callbacks are parameters. A Debug build on a
little-endian machine is modelled where a DCHECK contains the side effect it checks
(`src/base/checksum.cpp:38`, `src/tcp/segment.cpp:57`).

## Where the code departs from its intent

- `RingBuffer::write` does not advance `end_` when `end_ >= size_`
  (`src/base/ring_buffer.cpp:44-45`) but returns the count. The sender is modelled over
  the write that advances in every branch. `Rings.RunRefinesIffNoGap` says exactly which
  runs of the code as written are the bounded queue, `Rings.GapReachableIffTwoBytes` for
  which sizes others exist, and `WriteGap.AsWrittenKeepsTcbIff` when `sendData` with the
  code as written keeps the TCB relation. `GapRuns.GapOrModel` follows the sender over the
  write as written: a run that does not meet the gap is the model's; one that does sends a
  stream with bytes missing of what the application was told is taken, and never sends a
  FIN, never closes and never stops its timer, as long as fewer than 2^32 - 262145 bytes
  are lost, so that `send.next` does not come around to the queue again.
  `GapWitnesses.GapIsMet` gives such runs, `GapWitnesses.FinTestIff` what the FIN tests
  decide for any number of lost bytes, and `GapWitnesses.ClosesWithoutThem` a run that loses
  2^32 bytes and closes as if nothing were missing.
- `send.next` counts queued bytes (`src/tcp/send_buffer.cpp:37`), so it is not SND.NXT of
  section 3.2 of RFC 793; `HighestSent` is. `SenderNumbers.NextAgainstSent` gives the
  difference, `SenderNumbers.NextIsNotSent` a run.
- `bytes_in_flight_ -= consumed` (`src/tcp/send_buffer.cpp:87`) goes below zero when an
  acknowledgement covers the FIN or more than was re-sent since the last timeout:
  `SenderNumbers.BelowZeroIff`, with the run of `SenderNumbers.BelowZero`. The wrap is kept,
  and needed: with a counter of zero a late acknowledgement would re-arm the timer of a
  closed connection (`SenderNumbers.WrapIsNeeded`, against `SenderTheorems.ClosedForever`).
- The order test of `src/tcp/send_buffer.cpp:84` is relative to the initial number:
  `SenderNumbers.AckOrderCheck` gives the exact condition under which a valid
  acknowledgement passes, `SenderNumbers.AckOrderFails` a run, on every connection, with
  one that does not. The model goes on where a Debug build would stop.
- After data that ends the stream, `transmit` sends the FIN a second time, bare
  (`src/tcp/send_buffer.cpp:126-143`): `SenderTheorems.FinTwiceIff` says exactly when,
  `SenderTheorems.FinTwice` gives a run.
- `update` on an alarm that is not set ignores a deadline below the granularity
  (`src/base/alarm.cpp:42-45`): `Alarms.UpdateSetsIff`, with `Alarms.UpdateLost`.
- `read_offset` computes its indices modulo 2^64 (`src/base/ring_buffer.cpp:60-65`): an
  offset just below 2^64 passes its check and reads what lies before the queue
  (`Rings.ReadAtMeaning`, with `Rings.ReadBeforeQueue`). The sender's counter takes such values, but never with the loop
  test of `transmit` true (`SenderNumbers.TwoZoneCounter`).
- The parser shifts the whole data-offset byte (`src/tcp/segment.cpp:55`), reserved bits
  included: `Codec.DataOffsetIff`, with `Codec.DataByteLost`.
- Three seeds are bad: 0 (`src/ip/ip_layer.cpp:228` uses it) and 2^31 - 1 are never left,
  and 3997164152 leads to 2^31 - 1, because the 32-bit `high` overflows from 2915598336 on:
  `Lehmer.GoodSeedIff`, `Lehmer.NoOverflowIff`.

## Model

| member | source | states |
|---|---|---|
| SenderInvariant.StepKeeps | src/tcp/send_buffer.cpp:20-164 | every step of the sender, with any send failures, keeps the whole invariant: positions, counter zones, truthful packets, timer |
| SenderInvariant.TurnKeeps | src/tcp/send_buffer.cpp:119-144 | one turn of the transmit loop, packet accepted or refused, keeps it |
| SenderInvariant.TransmitKeeps | src/tcp/send_buffer.cpp:110-157 | transmit keeps it, changes only counter and log, and the log only grows |
| SenderInvariant.SettleKeeps | src/tcp/send_buffer.cpp:77-102 | the bookkeeping of any acknowledgement of something sent keeps it |
| SenderInvariant.RetransmitKeeps | src/tcp/send_buffer.cpp:159-164 | a timeout keeps it and leaves the alarm set |
| SenderTheorems.RunKeeps | src/tcp/send_buffer.cpp:20-164 | every legal run keeps it |
| SenderTheorems.TruthfulSegments | src/tcp/send_buffer.cpp:118-144 | in every reachable state each data packet carries exactly the accepted stream's bytes at its position, at most 1460, less than window plus segment past the acknowledged position; FIN only at the end of the stream; no packet without data or FIN |
| SenderNumbers.TwoZoneCounter | src/tcp/send_buffer.cpp:85-123 | in every reachable state the 64-bit in-flight counter is at most the queued data or within 16060 of 2^64, and the unsigned loop test holds exactly inside the window, so no read passes the queue |
| SenderNumbers.BelowZeroIff | src/tcp/send_buffer.cpp:87 | an acknowledgement takes the 64-bit counter below zero exactly when it passes the counter's position |
| SenderNumbers.BelowZero | src/tcp/send_buffer.cpp:87 | a reachable state whose counter is 2^64 - 1 |
| SenderNumbers.WrapIsNeeded | src/tcp/send_buffer.cpp:87-93 | in every closed state a repeated acknowledgement leaves the timer off, and with a counter of zero it would arm it |
| SenderNumbers.NextAgainstSent | src/tcp/send_buffer.cpp:37 | next is past the number of the highest position sent by exactly what is queued and was never sent |
| SenderNumbers.NextIsNotSent | src/tcp/send_buffer.cpp:37 | a reachable state in which they differ |
| SenderTheorems.RetransmitRestoresFirstZone | src/tcp/send_buffer.cpp:159-161 | a timeout always brings the counter back to at most the queued data |
| SenderTheorems.TimerArmed | src/tcp/send_buffer.cpp:87-102 | between handlers the alarm is set exactly while the FIN is not acknowledged |
| SenderTheorems.ClosedForever | src/tcp/send_buffer.cpp:84-108 | once the FIN is acknowledged no run of further events sends anything or re-arms the timer |
| SenderTheorems.AcknowledgeMeaning | src/tcp/send_buffer.cpp:77-102 | afterwards the buffer is the stream's suffix from the acknowledged position; the FIN is acknowledged exactly by an acknowledgement of everything, and then nothing is sent; otherwise the timer restarts exactly when nothing is left in flight |
| Handlers.LoopSends | src/tcp/send_buffer.cpp:118-144 | the transmit loop tiles the stream from the counter's position to the end of window or queue unless a send is refused, ends with the FIN alone when there is room, and leaves the counter there, past the packet refused |
| Handlers.AcknowledgeSends | src/tcp/send_buffer.cpp:104-108 | an acknowledgement of something new sends on from the counter's position, unless it closes the connection or passed the counter; any other sends nothing |
| Handlers.SendDataSends | src/tcp/send_buffer.cpp:30-44 | sendData takes exactly what fits and, once the SYN is acknowledged, sends from the counter's position whatever is unacknowledged; not with a full buffer or a counter below zero |
| Handlers.SendFinSends | src/tcp/send_buffer.cpp:46-54 | sendFIN with an empty buffer sends exactly the FIN at once if the counter stands there, the SYN again before that is acknowledged, and nothing while data is queued |
| Handlers.SendSynSends | src/tcp/send_buffer.cpp:20-28 | sendSYN sends one SYN at once, acknowledging the peer's exactly if it has arrived |
| Handlers.RetransmitSends | src/tcp/send_buffer.cpp:159-164 | a timeout sends the SYN again until it is acknowledged, then a window from the first unacknowledged byte, and sets the alarm one second ahead |
| Handlers.WireMeaning | src/tcp/segment_factory.cpp:10-27 | addresses, sequence number, flag bits, window and data of the segment of every packet |
| Handlers.SynOnWire | src/tcp/send_buffer.cpp:147-157 | the SYN segment has the initial number and no data, and ACK with the peer's next number exactly if the peer's SYN has arrived |
| SenderTheorems.TilingCovers | src/tcp/send_buffer.cpp:118-144 | packets that tile carry exactly the stream between their ends |
| SenderTheorems.TransmitTiles | src/tcp/send_buffer.cpp:118-144 | one transmit emits a gap-free, overlap-free tiling, FIN exactly on packets that end the stream while it is pending, up to window or queue unless a send fails |
| SenderTheorems.TransmitWindow | src/tcp/send_buffer.cpp:118-144 | the same in every state a handler calls transmit in, with the bytes carried, and nothing outside the window or after the FIN is acknowledged |
| SenderTheorems.FinTwiceIff | src/tcp/send_buffer.cpp:126-143 | one transmit ends with data that carries the FIN and a bare FIN exactly when the stream ends inside the window and a send is left after the segments for the data |
| SenderTheorems.FinTwice | src/tcp/send_buffer.cpp:126-143 | a reachable state, given in full, whose log holds both |
| Completion.FullWindow | src/tcp/send_buffer.cpp:118-144 | an unhindered retransmission ends at the window's end, or past the FIN if the queue fits |
| Completion.RoundProgress | src/tcp/send_buffer.cpp:77-164 | a lossless round strictly shortens what is unacknowledged, by a whole window or to the end |
| Completion.RoundAvailable | src/tcp/send_buffer.cpp:159-164 | until the FIN is acknowledged a lossless round is possible |
| Completion.BoundedCompletion | src/tcp/send_buffer.cpp:77-164 | every sequence of lossless rounds has at most max(1, ceil(remaining / 14600)) of them, fewer while the FIN is out; once it is acknowledged the buffer is empty and the timer off |
| Completion.CompletesInTime | src/tcp/send_buffer.cpp:77-164 | from every such state there is a sequence of lossless rounds, within the bound, that gets there |
| Delivery.ReceiveMeaning | src/tcp/socket_session.cpp:103-108 | what keeping the new part of a segment does, from 32-bit numbers to stream positions |
| Delivery.PrefixDelivery | src/tcp/socket_session.cpp:103-108 | whatever subset of segments arrives, in any order and number, the receiver holds a prefix of the stream, and all of it once it accepts a FIN |
| Transfer.AckRoundTrip | src/tcp/send_buffer.cpp:84-86 | the sender reads the position the receiver's 32-bit number stands for |
| Transfer.ExchangeKeepsSynced | src/tcp/send_buffer.cpp:77-164 | one undisturbed timer period with stray old segments keeps both ends consistent and makes progress |
| Transfer.ReliableTransfer | src/tcp/send_buffer.h:64-70 | every sequence of undisturbed timer periods keeps to that bound, strictly while the FIN is out; once the sender sees it acknowledged the receiver holds the whole stream and its end |
| Transfer.TransferCompletes | src/tcp/send_buffer.h:64-70 | from every such state some sequence of undisturbed periods, within the bound, gets there |
| Network.MoveKeeps | src/tcp/send_buffer.cpp:77-164 | every step of either end or the network, acknowledgements late and twice included, keeps acknowledged <= received <= sent, all of the same stream, and likewise for the SYN |
| Network.RunKeepsInStep | src/tcp/send_buffer.h:16-24 | in every joint run the receiver holds a prefix, every acknowledgement that comes back and was not overtaken is one the sender may accept, and an acknowledged FIN means complete delivery |
| Network.OvertakenByNumber | src/tcp/control_block.h:14-23 | the code's comparison of sequence numbers tells an overtaken acknowledgement, for streams below 2^32 - 2 bytes |
| Network.EventualDelivery | src/tcp/send_buffer.h:64-70 | the same from the start through any lossy run: whatever undisturbed periods follow, they keep to the bound, and an acknowledged FIN means everything is delivered |
| Network.DeliveryIsPossible | src/tcp/send_buffer.h:64-70 | after any lossy run some undisturbed periods, within the bound, complete the delivery |
| TimedTransfer.RearmOwns | src/tcp/send_buffer.cpp:159-164 | the callback that sets the timer one second ahead meets what is asked of callbacks here |
| TimedTransfer.EventsAndTimer | src/base/epoll_server.cpp:98-105 | runAlarmEvent fires the retransmission alarm if and only if it is due and leaves it set one second ahead, whatever other alarms' callbacks do |
| TimedTransfer.AlarmAfterAck | src/tcp/send_buffer.cpp:89-101 | what acknowledge does to the registry leaves it consistent, with the deadline the sender model has |
| TimedTransfer.LapseMeaning | src/util/mock_alarm_factory.cpp:29-34 | a turn of elapse before the deadline changes nothing for the sender; one that reaches it retransmits then, and finishes or moves on by a window and a second |
| TimedTransfer.DoneByTheClock | src/util/mock_alarm_factory.cpp:27-36 | undisturbed, when the clock shows the deadline plus one second per further window, all is delivered, known to be, and the alarm is gone |
| TimedTransfer.FinishesByTheClock | src/util/mock_alarm_factory.cpp:27-36 | turns of elapse take the clock there |
| TimedNetwork.Lead | src/tcp/send_buffer.cpp:20-164 | in every run of both ends, network, clock and other alarms the registry's deadline is the sender's and acknowledged <= received <= sent |
| TimedNetwork.DoneInTime | src/tcp/send_buffer.h:64-70 | from the constructor through any such run to a requested FIN, then undisturbed: done by that clock reading |
| TimedNetwork.TimeComes | src/tcp/send_buffer.h:64-70 | and such a continuation exists |
| SenderFields.TcbBookkeeping | src/tcp/send_buffer.cpp:20-54 | next = unack + queued bytes + pending FIN modulo 2^32, and the queue is the stream's suffix |
| SenderFields.BuildsNextPacket | src/tcp/send_buffer.cpp:120-136 | the 32-bit sequence number and FIN test decide the true positions |
| SenderFields.AckNumbers | src/tcp/send_buffer.cpp:84-97 | the 32-bit distance and the test against next decide the true positions |
| SenderFields.SettledFlight | src/tcp/send_buffer.cpp:87 | the 64-bit subtraction is a signed one, also below zero |
| SenderFields.SettleRepresents | src/tcp/send_buffer.cpp:77-102 | the fields after an acknowledgement represent the model after it |
| SenderNumbers.AckOrderCheck | src/tcp/send_buffer.cpp:84 | a valid acknowledgement passes the order test exactly when no multiple of 2^32 lies on its way |
| SenderNumbers.AnyLength | src/tcp/send_buffer.cpp:20-108 | for every n some run has n bytes sent and acknowledged |
| SenderNumbers.AckOrderFails | src/tcp/send_buffer.cpp:84 | on every connection some run gets a valid acknowledgement that fails the order test, with 2^32 - 2 bytes acknowledged before |
| SendBuffers.SendBuffer.constructor | src/tcp/send_buffer.cpp:8-18 | the initial state, alarm set one second ahead |
| SendBuffers.SendBuffer.SendSYN | src/tcp/send_buffer.cpp:20-28 | refines the model's step, for which see SendSynSends, on the code's own fields |
| SendBuffers.SendBuffer.SendData | src/tcp/send_buffer.cpp:30-44 | appends exactly the bytes that fit, returns their number, refines the model's step, for which see SendDataSends |
| SendBuffers.SendBuffer.SendFIN | src/tcp/send_buffer.cpp:46-54 | refines the model's step, for which see SendFinSends |
| SendBuffers.SendBuffer.Acknowledge | src/tcp/send_buffer.cpp:77-108 | for every acknowledgement number of something sent, unack becomes that number and the model's step, for which see AcknowledgeMeaning and AcknowledgeSends, is refined |
| SendBuffers.SendBuffer.SendNext | src/tcp/send_buffer.cpp:119-143 | one turn of the loop appends exactly the model's next packet to the wire |
| SendBuffers.SendBuffer.Transmit | src/tcp/send_buffer.cpp:110-145 | terminates and sends what the model sends, segment by segment |
| SendBuffers.SendBuffer.TransmitSyn | src/tcp/send_buffer.cpp:147-157 | writes the segment of the model's SYN, for which see SynOnWire |
| SendBuffers.SendBuffer.OnAlarm | src/tcp/send_buffer.cpp:159-164 | the alarm's callback refines the model's timeout; set is called on an alarm that is not set |
| SentBytes.SentBytesAreSound | src/tcp/send_buffer.cpp:56-69 | every packet of every run fits 1480 bytes, verifies its checksum and parses back to the same segment |
| SentBytes.SentBytesMean | src/tcp/send_buffer.cpp:56-69 | in those bytes sequence number, acknowledgement number and flag bits stand, most significant byte first, where RFC 793 has them, and the stream's bytes behind |
| SequenceOrder.OrderIsStreamOrder | src/tcp/control_block.h:14-23 | below 2^32 the five comparisons are the order of positions |
| SequenceOrder.OrderWithinLap | src/tcp/control_block.h:14-23 | beyond, a later position compares as later exactly within one lap |
| SequenceOrder.InMiddleIsCircular | src/tcp/control_block.h:24-26 | inMiddle is the circular interval test of section 3.3 of RFC 793 for every x exactly when the interval does not pass initial |
| Rings.WriteIsFifo | src/base/ring_buffer.cpp:38-57 | the intended write appends what fits to the queue, around the corner too |
| Rings.ConsumeIsFifo | src/base/ring_buffer.cpp:83-94 | consume removes the oldest bytes |
| Rings.PieceIsSlice | src/base/ring_buffer.cpp:59-81 | the one or two pieces copied out are the slice of the queue |
| Rings.ReadAtMeaning | src/base/ring_buffer.cpp:59-81 | read_offset, for every 64-bit offset: the slice up to the queue's length, outside beyond it, and what lies before the queue once the index wraps |
| Rings.ReadBeforeQueue | src/base/ring_buffer.cpp:60-65 | an offset of 2^64 - 1 that reads a consumed byte |
| Rings.AsWrittenIffNoGap | src/base/ring_buffer.cpp:38-57 | the write as written is the intended one exactly when it does not meet the gap |
| Rings.StuckBytes | src/base/ring_buffer.cpp:44-45 | a write that meets the gap still copies its bytes to the free slots behind the queue, and changes no others |
| Rings.RunRefinesIffNoGap | src/base/ring_buffer.cpp:38-94 | a run of the code as written is the bounded FIFO queue after every operation exactly when it never meets the gap |
| Rings.GapReachableIffTwoBytes | src/base/ring_buffer.cpp:44-45 | a run that meets the gap exists exactly for sizes of at least two |
| WriteGap.AsWrittenKeepsTcbIff | src/tcp/send_buffer.cpp:36-37 | sendData with the write as written keeps the TCB relation exactly when it does not meet the gap |
| GapRuns.FinNumbers | src/tcp/send_buffer.cpp:95-127 | with bytes lost, no position from the queue compares equal to next, so both FIN tests fail; with none lost they are exact |
| GapRuns.StepAsWrittenKeeps | src/tcp/send_buffer.cpp:20-164 | every step over the write as written is the model's while no bytes are lost, and afterwards the model's with the FIN unseen |
| GapRuns.RunTakes | src/tcp/send_buffer.cpp:30-44 | over any run the stream is what sendData reported as taken with exactly the lost bytes missing, some if and only if the gap is met |
| GapRuns.GapOrModel | src/tcp/send_buffer.cpp:20-164 | a run over the write as written that does not meet the gap is the model's and its stream is what was taken; one that does misses bytes of that, and unless next comes around never sends a FIN, never closes and never stops its timer |
| GapRuns.PeerMissesBytes | src/tcp/socket_session.cpp:103-108 | whatever segments of such a run arrive, the peer holds a prefix of the thinned stream and does not learn of its end |
| GapWitnesses.GapIsMet | src/tcp/send_buffer.cpp:30-44 | on every connection and for every n > 0 some run meets the gap and loses n bytes |
| GapWitnesses.FinTestIff | src/tcp/send_buffer.cpp:95-127 | for any number of lost bytes the FIN tests hold exactly at distances that are multiples of 2^32 |
| GapWitnesses.ClosesWithoutThem | src/tcp/send_buffer.cpp:95-127 | some run loses 2^32 bytes, and its FIN is sent and acknowledged |
| RingBuffers.RingBuffer.WriteAsWritten | src/base/ring_buffer.cpp:38-57 | in place, the write with its missing update |
| RingBuffers.RingBuffer.Write | src/base/ring_buffer.cpp:38-57 | in place, takes exactly what fits and queues it last |
| RingBuffers.RingBuffer.ReadOffset | src/base/ring_buffer.cpp:59-81 | computes that for every offset: queued bytes inside the queue, a failed check beyond it |
| RingBuffers.RingBuffer.Read | src/base/ring_buffer.cpp:19-36 | returns and removes the oldest bytes |
| RingBuffers.RingBuffer.Consume | src/base/ring_buffer.cpp:83-94 | removes the oldest bytes and returns their number |
| Alarms.DoKeeps | src/base/alarm.cpp:11-61 | every set, update, cancel, creation and destruction keeps set alarms and map entries in one-to-one correspondence and erases only through live iterators |
| Alarms.DoMeaning | src/base/alarm.cpp:11-61 | what each operation leaves its own alarm with, a deadline within the granularity kept; other alarms, their entries and the time do not change |
| Alarms.UpdateDeadline | src/base/alarm.cpp:36-53 | the deadline after update, granularity included |
| Alarms.UpdateSetsIff | src/base/alarm.cpp:42-53 | update to a time other than zero sets an alarm that is not set exactly when the time is no less than the granularity |
| Alarms.UpdateLost | src/base/alarm.cpp:42-45 | an update with the default granularity that changes nothing |
| Alarms.Perform | src/base/alarm.cpp:28-34 | a whole callback keeps the correspondence while its own entry is still in the map |
| Alarms.RearmIsWellBehaved | src/tcp/send_buffer.cpp:162-163 | the retransmission alarm's callback, which sets itself one second ahead without a test, obeys the rules asked of callbacks in every state it can run in |
| Alarms.FireEntry | src/base/epoll_server.cpp:99-103 | firing and erasing one entry keeps it, whatever the callback does to its own alarm and others |
| Alarms.HappenAll | src/base/epoll_server.cpp:92-105 | over every sequence of operations, clock moves and firings each set alarm has exactly one entry, keyed by its deadline, others have none, and no arming fires twice |
| Alarms.RunEvents | src/base/epoll_server.cpp:98-105 | with callbacks that set only later deadlines runAlarmEvent ends, and every remaining deadline is after now |
| Alarms.RunEventsInOrder | src/base/epoll_server.cpp:98-105 | it fires only entries that were due, by increasing deadline and equal ones in the order they were set, each once |
| Alarms.RunEventsFires | src/base/epoll_server.cpp:98-105 | an entry that is due and left alone by other callbacks is fired |
| Alarms.JumpIsPunctual | src/util/mock_alarm_factory.cpp:29-34 | one turn of elapse fires each entry when the clock shows its deadline |
| AlarmFactories.AlarmFactory.Set | src/base/alarm.cpp:11-16 | refines the value operation on the fields |
| AlarmFactories.AlarmFactory.Cancel | src/base/alarm.cpp:18-24 | refines the value operation |
| AlarmFactories.AlarmFactory.Update | src/base/alarm.cpp:36-61 | refines the value operation, through updateImpl when the alarm is set |
| AlarmFactories.AlarmFactory.SetImpl | src/base/epoll_alarm.cpp:11 | registers the deadline and keeps the new iterator |
| AlarmFactories.AlarmFactory.Fire | src/base/alarm.cpp:28-34 | clears the deadline, then runs the callback's operations |
| AlarmFactories.AlarmFactory.RunAlarmEvent | src/util/mock_alarm_factory.cpp:38-46 | the loop computes RunEvents |
| AlarmFactories.AlarmFactory.Elapse | src/util/mock_alarm_factory.cpp:27-36 | with no deadline in the past and callbacks that set only later ones, it ends with the clock advanced by exactly delta and only later deadlines left; every firing at its deadline, in order of time, once per arming; no alarm left alone is passed over |
| Checksums.FoldIsResidue | src/base/checksum.cpp:20-21 | one fold keeps the sum in 16 bits and equal to the end-around-carry sum |
| Checksums.ResidueMeaning | src/base/checksum.cpp:20-21 | that sum is the residue modulo 0xffff, zero for zero alone |
| Checksums.WordSumIsWeighted | src/base/checksum.cpp:9-26 | bytes at even positions count 256-fold and the others once, an odd last byte included |
| Checksums.ComplementCompletes | src/base/checksum.cpp:43-47 | adding the complement of a non-zero sum gives all ones |
| Checksums.Checksum.constructor | src/base/checksum.cpp:9-26 | the loop computes the end-around-carry sum of all words, odd length included |
| Checksums.Checksum.AddHostUInt16 | src/base/checksum.cpp:28-33 | adds one word |
| Checksums.Checksum.AddIPAddress | src/base/checksum.cpp:35-41 | adds the two words of an address |
| Codec.ChecksumVerifies | src/tcp/segment.cpp:27-36 | pseudo header and written segment, checksum included, sum to 0xffff for every segment that fits |
| Codec.ChecksumOverBytes | src/tcp/segment.cpp:27-36 | the same over the twelve bytes of the pseudo header, addresses, zero, 6 and length, followed by the bytes written |
| Codec.HeaderNumbers | src/tcp/segment.cpp:11-25 | ports, numbers, offset, flags, window and urgent pointer of the bytes written, most significant byte first, at the offsets of RFC 793 |
| Codec.RoundTripIff | src/tcp/segment.cpp:11-62 | parsing the written bytes with the same addresses gives the same segment exactly when the writer had room |
| Codec.ParsedNumbers | src/tcp/segment.cpp:41-62 | of any bytes parse returns the numbers at those offsets |
| Codec.DataOffsetIff | src/tcp/segment.cpp:53-60 | the data parse returns starts at four times the offset field exactly when the two upper reserved bits are zero |
| Codec.DataByteLost | src/tcp/segment.cpp:53-60 | a packet of two data bytes of which parse returns one |
| Codec.WriteSegmentTo | src/tcp/segment.cpp:11-39 | fills the buffer with exactly the encoding of HeaderNumbers, checksum patched in place |
| Codec.ParseSegment | src/tcp/segment.cpp:41-62 | reads the fields of ParsedNumbers at their offsets; short or overlong headers are malformed |
| DataStreams.Bytes32 | src/base/data_writer.cpp:31-34 | the four bytes written, most significant first, are the number |
| DataStreams.Value32 | src/base/data_reader.cpp:32-40 | the number read from any four bytes |
| DataStreams.NetworkOrder | src/base/data_writer.cpp:26-34 | 1 is written 0, 0, 0, 1 |
| DataStreams.RoundTrip32 | src/base/data_writer.cpp:31-34 | 32-bit numbers survive writing and reading |
| DataStreams.DataWriter.WriteBytes | src/base/data_writer.cpp:12-20 | appends all or nothing |
| DataStreams.DataReader.ReadBytes | src/base/data_reader.cpp:60-69 | reads all or nothing |
| Lehmer.NextIsProduct | src/base/rand_generator.cpp:22-26 | no intermediate result of the split multiplication overflows, it is the product modulo 2^31 - 1, and stays in range |
| Lehmer.OnlyHighOverflows | src/base/rand_generator.cpp:22-26 | from any 32-bit state only high can overflow, and once at most |
| Lehmer.NoOverflowIff | src/base/rand_generator.cpp:22-26 | it does so exactly from 2915598336 on; below, the 32-bit computation is the unbounded one |
| Lehmer.StuckIff | src/base/rand_generator.cpp:22-26 | one step from any 32-bit state leads into the range exactly if it is not 0, 2^31 - 1 or 3997164152; the successors of those are never left |
| Lehmer.NextInjective | src/base/rand_generator.cpp:22-26 | different states have different successors |
| Lehmer.PurelyPeriodic | src/base/rand_generator.cpp:9-27 | every run from a seed in range stays there and comes back to the seed |
| Lehmer.GoodSeedIff | src/base/rand_generator.cpp:7-27 | from any 32-bit seed but those three all later states are in range and the first comes back; from those three none is and all are the same |
| Lehmer.RandGenerator.Rand | src/base/rand_generator.cpp:9-27 | replaces the state by its successor and returns it |
| Lehmer.RandGenerator.RandBetween | src/base/rand_generator.cpp:29-32 | the result lies in [lower, upper) |

## Left out

- `SocketSession`, `RoutingTable`, `IPLayer` and `Device` handlers: their bodies are empty in the repository; `SocketSession::open` and `close` are used only for what they demand of the sender.
- A second `sendSYN` on the same buffer, and acknowledgements of numbers never sent: the callers that would have to reject them are empty. So is the one that would drop overtaken acknowledgements; `Network` has it do so.
- `EpollServer::updateNow`, epoll reads and `incomingAlarm`: system calls and a read of the map's first entry; the clock is an input.
- `SegmentDispatcher`, `ListenDispatcher`, `ResetDispatcher`: they parse a packet and hand it to the session of its address pair, to a listener of its port while its backlog has room, or to a RST answer; the sessions that take it have no bodies.
- `ProtocolStack`: builds the layers and runs the event loop in a thread of its own.
- `DataWriter::writeRandomBytes`, the 64-bit writers and readers, `skip`, address text conversion and string output: not used by the codec.
- RingBuffers.RingBuffer.ReadOffset: returns the bytes instead of filling the caller's array.
- GapRuns.GapOrModel: of the FIN, the timer and closing it speaks only for fewer than 2^32 - 262145 lost bytes; with more the FIN tests can hold (`GapWitnesses.FinTestIff`), and whether they do depends on where packets end.
- TimedTransfer.DoneByTheClock: in an undisturbed period the acknowledgement comes back while the clock still shows the time of the timeout.
- RingBuffers.RingBuffer.Read: returns the bytes instead of filling the caller's array.
- AlarmFactories.AlarmFactory.Set: alarm objects are records in one field rather than objects of their own, and points in time are not negative; 64-bit overflow of time is not modelled.
- SendBuffers.SendBuffer.OnAlarm: the retransmission alarm is its deadline field; the registry behind it is joined to the sender in `TimedTransfer` and `TimedNetwork`, on values.
