# A verified model of a TCP stack

This project models the TCP stack of `libsponge`: the bounded byte stream, the
stream reassembler with its linked list, 32-bit sequence numbers, the sender
with its retransmission timer, the receiver, the connection that joins the two,
and the TCP segment format with the Internet checksum. Verify with
`dafny verify dfyconfig.toml`.

There are two layers. The *value* layer describes each component as a datatype
and each operation as a function from state to state; whole-run theorems are
about these functions. The *object* layer has the classes of the program
(`ByteStream`, `StreamReassembler`, `RetransmissionTimer`, `TCPSender`,
`TCPReceiver`, `TCPConnection`, `InternetChecksum`, `NetParser`, `TCPSegment`),
whose methods update their fields with the program's loops, recursion and
pointer splicing. Each method is proved to take the object's abstract value to
the value given by the corresponding function.

| file | contents |
|---|---|
| `Bytes.dfy`, `WrappingIntegers.dfy` | machine widths; `wrap` and `unwrap` |
| `ByteStreams.dfy` | the byte stream, as value and as object |
| `Reassembly.dfy`, `Insertion.dfy` | the reassembler as a value; exactly what its insertion stores |
| `ReassemblySafety.dfy`, `StreamEnds.dfy` | what runs of the reassembler keep; when the end of the stream is known |
| `StreamReassemblers.dfy` | the reassembler with linked nodes |
| `Segments.dfy`, `Senders.dfy`, `SenderSafety.dfy`, `SenderRuns.dfy` | segments, the sender as a value, its invariants and runs |
| `Receivers.dfy`, `Connections.dfy`, `StateSummary.dfy` | receiver and connection as values; state summaries |
| `Flow.dfy`, `Arrivals.dfy`, `Network.dfy` | one direction of a connection; what an arriving segment does; two endpoints and two channels |
| `Calls.dfy`, `Replies.dfy` | what each call does to a connection and sends; replies to segments |
| `Lingering.dfy`, `Lifetimes.dfy`, `Exchanges.dfy` | time before a clean close; exactly when a connection closes and gives up; a run in which both ends close |
| `TCPSenders.dfy`, `TCPReceivers.dfy`, `TCPConnections.dfy` | sender, receiver and connection as objects |
| `Checksums.dfy`, `Parsing.dfy`, `SegmentFormat.dfy`, `TCPSegments.dfy`, `Delivery.dfy` | checksum, integers on the wire, segment format, and the protocol on top of it |

## Main results

- **Delivery.** `Network.EndToEnd`: two endpoints, of any configuration, run over
  channels that drop, duplicate and reorder. In every run, what either side has
  received is a prefix of what the other side has written; `Calls.DeliversWrites`
  says the same of the data accepted, write by write.
- **Close.** `Network.SafeClose`: in every run, an endpoint that is inactive
  without error has all of the peer's bytes, and the peer has all of its bytes
  and knows that the stream has ended. `Lifetimes.ClosesExactly`: over every life
  of a connection, whatever its peer sends, exactly when it goes inactive, and
  `Lifetimes.GivesUpExactly`: exactly when it gives up. `Exchanges.BothClose`: two
  endpoints can exchange data and both close.
- **No broken list.** `Network.NeverBroken`: no run of two endpoints reaches the
  partial drain described below.
- **Insertion.** `StreamReassemblers.StreamReassembler.InsertToLinklist` splices
  nodes in place, recurses with data that need not shrink, terminates, and does
  what `Insert` does, on any list; on a sorted one `Insert` is exactly a walk over
  the offered indices one at a time (`Insertion.InsertIsUnion`).
- **End of stream.** `StreamEnds.PushKnows` and `RunKnows`: exactly when the
  reassembler knows where its stream ends, after a push and along a run.
- **Sender.** `SenderRuns.RunSound`: the outstanding segments tile the
  unacknowledged range and carry the stream, and the timer measures time and backs
  off as it should, in every run. `SenderRuns.RunRetransmits`: ticks that add up to
  the timeout retransmit the oldest segment.
- **Arrival.** `Arrivals.ReceiveLands`: exactly what a receiver holds, and whether it
  knows the end, after any segment. `Calls.PacketHeard`: exactly what becomes of the
  outstanding segments when an acknowledgment arrives.
- **Wire format.** `SegmentFormat.SerializedFields` and `ParsedInPlace`: each field is
  where section 3.1 of RFC 793 puts it. `SegmentFormat.RoundTrip` and
  `Delivery.PacketsThroughTheWire`:
  for every packet of every run, serializing and parsing is invisible to the
  endpoint it goes to. `SegmentFormat.CorruptionRefused`: one changed byte is not.

## Hypotheses of the run theorems

Nothing is accepted from an application after FIN has been sent, which is the
exact condition of `SenderSafety.FeedKeeps`, and fewer than 2^64 - 2^17 bytes are
accepted in all. A packet is delivered only if its sequence number and
its acknowledgment number lie in the range around the receiver's checkpoint in
which `unwrap` inverts `wrap`; `WrappingIntegers.UnwrapWrap` says exactly which
range that is. Nothing is assumed about receive capacity (the 16-bit window
field may cut the window), about the initial sequence numbers, or about the
order and number of deliveries. That the window is respected, that an
acknowledgment is never for a number not yet sent, and that every SYN of a peer
carries the same initial number are proved, not assumed.

## Where the code and its documentation differ

The model follows the code. Each difference has a lemma with a failing input and
one with the exact condition, in terms of the state before the call.

- `unwrap` is documented to return the number closest to the checkpoint. It does
  so exactly when the nearer candidate above the checkpoint is below 2^64
  (`WrappingIntegers.UnwrapPastTopExample`, `UnwrapClosest`).
- `push_substring` is documented to discard silently what exceeds the capacity.
  When a stored block lies across the edge of the window and the drain reaches it,
  the block is moved but keeps all its bytes, so that its bytes no longer sit at
  their indices (`ReassemblySafety.PartialDrainExample`, `PushValid`).
- The same sentence implies that what does not exceed the capacity is kept.
  Insertion measures the reach of an offer from where it last put a byte in, so a
  run of stored bytes as long as the capacity left stops it
  (`Insertion.ReachExample`, `InsertReaches`).
- `unassembled_bytes` is documented as the number of bytes not yet reassembled.
  Blocks already written can stay in the list while the output is full and are
  counted (`ReassemblySafety.StaleBlockExample`, `UnassembledExact`, `PushLags`).
- An eof push is documented to mark the end of the stream. The mark is forgotten
  unless the insertion puts in the last byte (`Insertion.InsertMarks`,
  `StreamEnds.ForgottenFin`), and a remembered mark is lost when its block is
  dropped unread (`StreamEnds.LostEnd`, `PushKnows`, `RunKnows`).
- `TCPSegment::parse` drops the result of `TCPHeader::parse`, so a data offset
  below five is accepted (`SegmentFormat.ShortOffsetExample`, `AcceptedSegment`).
- `ByteStream::write` does not look at the end of input. A write that is accepted
  after FIN was sent breaks the sender's invariant and moves its state summary
  back (`StateSummary.WriteAfterFin`, `SenderSafety.FeedKeeps`,
  `StateSummary.WriteForward`).
- `ack_received` stores an acknowledgment number before it rejects it as
  impossible. What is in flight does not change then, but any later `fill_window`
  can put more than any window in flight, at once or when the application writes
  more (`SenderRuns.RunawayExample`, `LateRunaway`). `SenderSafety.FillFlight` says
  what each fill leaves in flight, and `SenderRuns.RunBounded` which runs stay
  within a window and a segment.

## Model

| member | source | states |
|---|---|---|
| WrappingIntegers.WrapCounts | libsponge/wrapping_integers.cc:16-25 | wrapped numbers count up by one from the initial number, and from the last 32-bit number to zero |
| WrappingIntegers.UnwrapWraps | libsponge/wrapping_integers.cc:50-86 | the result is a 64-bit number that wraps to `n`, for every input, through the underflow fallback as well |
| WrappingIntegers.UnwrapClosest | libsponge/wrapping_integers.cc:50-86 | the result is at least as close to the checkpoint as every 64-bit number that wraps to `n`, if and only if the upper candidate is not past 2^64 |
| WrappingIntegers.UnwrapPastTopExample | libsponge/wrapping_integers.cc:65-67 | a concrete input for which the result is not the closest |
| WrappingIntegers.UnwrapWrap | libsponge/wrapping_integers.cc:16-86 | exactly when `unwrap` of `wrap` is the identity |
| ByteStreams.FirstInFirstOut | libsponge/byte_stream.cc:19-56 | over every sequence of operations, bytes buffered at first plus bytes accepted are bytes delivered plus bytes still buffered, in order, and the buffer never exceeds the capacity |
| ByteStreams.ByteStream.constructor | libsponge/byte_stream.cc:17 | the stream starts empty, open and with all its capacity |
| ByteStreams.ByteStream.Write | libsponge/byte_stream.cc:19-29 | appends the longest prefix that fits to the log of bytes written and returns its length |
| ByteStreams.ByteStream.PeekOutput | libsponge/byte_stream.cc:32-37 | returns the oldest unread bytes, at most `len` |
| ByteStreams.ByteStream.PopOutput | libsponge/byte_stream.cc:40-47 | advances the read position over at most `len` bytes and loses no byte from the log |
| ByteStreams.ByteStream.Read | libsponge/byte_stream.cc:52-56 | is peek and pop in one |
| ByteStreams.ByteStream.EndInput | libsponge/byte_stream.cc:58 | ends the input and changes nothing else |
| ByteStreams.ByteStream.SetError | libsponge/byte_stream.hh:48 | sets the error and changes nothing else |
| ByteStreams.ByteStream.Counters | libsponge/byte_stream.cc:62-73 | emptiness, end of file and free capacity, computed from counters, agree with the contents |
| Reassembly.InsertShape | libsponge/stream_reassembler.cc:89-219 | the list stays sorted and without overlap; bytes stored plus capacity left is constant |
| Insertion.InsertIsUnion | libsponge/stream_reassembler.cc:89-219 | at every index: a stored byte is untouched, a missing one is the byte offered if the walk over the offer gets to it and stays missing otherwise; the capacity left is that of the walk |
| Insertion.WalkSpends | libsponge/stream_reassembler.cc:113-212 | the walk spends one unit of capacity on each missing byte it passes |
| Insertion.WalkWhole | libsponge/stream_reassembler.cc:102 | an offer no longer than the capacity left gets to its end |
| Insertion.InsertReaches | libsponge/stream_reassembler.cc:102-202 | the insertion stores all of the offer or uses up the capacity, if and only if no run of stored bytes, as long as the capacity left there, stands before a missing one |
| Insertion.InsertLowest | libsponge/stream_reassembler.cc:100-217 | if a byte is newly stored, every offered byte before it is stored |
| Insertion.ReachExample | libsponge/stream_reassembler.cc:102-168 | a concrete insertion that leaves out a byte that would fit |
| Insertion.InsertMarks | libsponge/stream_reassembler.cc:115-214 | a block is marked afterwards if and only if one was before, or the offer is final, its last byte was missing, the walk gets to it, and no block lies behind it |
| Insertion.InsertSpans | libsponge/stream_reassembler.cc:128-216 | a block lies across an index afterwards if and only if one did before, or both bytes are put in and no block starts between them |
| Reassembly.InsertIn | libsponge/stream_reassembler.cc:89-219 | every block after an insertion was there before or is a piece of the offer, with an eof mark only at its end |
| Reassembly.StageValid | libsponge/stream_reassembler.cc:24-64 | the part of a push before the drain always keeps the reassembler well formed |
| ReassemblySafety.DrainValid | libsponge/stream_reassembler.cc:221-260 | the drain leaves a well-formed list if and only if no block reached by contiguous data crosses the window edge |
| ReassemblySafety.PushValid | libsponge/stream_reassembler.cc:24-67 | a push keeps the reassembler well formed if and only if it does not break it: by what is stored, the window and how far the substring gets, all before the push |
| ReassemblySafety.PartialDrainExample | libsponge/stream_reassembler.cc:239-247 | two pushes after which a block sits at the wrong index |
| ReassemblySafety.PushWithin | libsponge/stream_reassembler.cc:24-67 | pushes inside the window, or of one probe byte when it is shut, never reach the partial drain and keep all stored bytes inside the window |
| ReassemblySafety.PushOnward | libsponge/stream_reassembler.cc:24-67 | no push, on any list, takes back output, moves the read position or the window edge, or reopens an ended stream |
| ReassemblySafety.PushAgrees | libsponge/stream_reassembler.cc:24-67 | if pushes agree with a stream, so do the output and every stored block, and the output ends only at the end of that stream |
| ReassemblySafety.PushHolds | libsponge/stream_reassembler.cc:24-67 | a push loses no byte held, written or stored, and adds exactly those of the substring up to where it gets |
| ReassemblySafety.PushWhole | libsponge/stream_reassembler.cc:24-67 | a substring no longer than the capacity left gets to its end |
| ReassemblySafety.DrainHolds | libsponge/stream_reassembler.cc:221-260 | the drain changes where bytes are held, never which |
| ReassemblySafety.PushMaximal | libsponge/stream_reassembler.cc:30-67 | after a push that is not ignored the output is full or its next byte is not held |
| ReassemblySafety.UnassembledExact | libsponge/stream_reassembler.cc:69 | the count is the number of distinct stored indices, and that of unwritten ones if and only if no written one is stored |
| ReassemblySafety.PushUnassembled | libsponge/stream_reassembler.cc:37-71 | after a push that is not ignored and leaves room, the count is exactly that of the stored indices, all past what was written |
| ReassemblySafety.PushLags | libsponge/stream_reassembler.cc:46-67 | bytes already written are stored after a push if and only if they were and the push is ignored or finds no room, or it fills the output directly while bytes are stored in front of the edge of the window |
| ReassemblySafety.StaleBlockExample | libsponge/stream_reassembler.cc:222-234 | a run after which every byte is written and two are still counted |
| ReassemblySafety.RunSafe | libsponge/stream_reassembler.cc:24-260 | over every run of reads and of pushes that agree with a stream and meet the window, the list stays well formed, the output is a prefix of the stream, every block holds its piece, and the end comes only at the end |
| StreamEnds.DrainKnows | libsponge/stream_reassembler.cc:221-260 | the end is known after a drain if and only if the input had ended, or a mark lies past what was written, or there was no room to drain |
| StreamEnds.PushKnows | libsponge/stream_reassembler.cc:24-67 | exactly when the end is known after a push, by what was known before it |
| StreamEnds.StepKnows | libsponge/stream_reassembler.cc:24-67 | among pushes that agree with a stream, a known end is forgotten by exactly those that leave all of the stream written and room in the output without ending it |
| StreamEnds.RunKnows | libsponge/stream_reassembler.cc:24-260 | along every run inside the window a known end stays known if and only if no push forgets it |
| StreamEnds.LostEnd | libsponge/stream_reassembler.cc:228-234 | runs, of any capacity, that deliver every byte and lose the end |
| StreamEnds.ForgottenFin | libsponge/stream_reassembler.cc:60-63 | an empty substring ahead of missing bytes does nothing but drain, whether it is final or not |
| StreamReassemblers.StreamReassembler.constructor | libsponge/stream_reassembler.cc:16 | an empty list and output, all capacity free |
| StreamReassemblers.StreamReassembler.ScanLoop | libsponge/stream_reassembler.cc:149-169 | the loop over the nodes stops where the specification's scan stops, or finds everything covered |
| StreamReassemblers.StreamReassembler.InsertToLinklist | libsponge/stream_reassembler.cc:89-219 | the recursive insertion terminates, keeps the chain of nodes intact and ends with the list and capacity of the specification, on any list, sorted or not |
| StreamReassemblers.StreamReassembler.InsertBefore | libsponge/stream_reassembler.cc:128-146 | a new head and the rest behind it |
| StreamReassemblers.StreamReassembler.FillGap | libsponge/stream_reassembler.cc:172-202 | a node, possibly empty, spliced between two others and the rest inserted behind it |
| StreamReassemblers.StreamReassembler.AppendLast | libsponge/stream_reassembler.cc:203-216 | a node appended behind the last |
| StreamReassemblers.StreamReassembler.SplitFront | libsponge/stream_reassembler.cc:239-247 | the partial drain as the code does it |
| StreamReassemblers.StreamReassembler.FetchValidData | libsponge/stream_reassembler.cc:221-260 | the drain loop does what the specification's drain does, partial drain included |
| StreamReassemblers.StreamReassembler.PushSubstring | libsponge/stream_reassembler.cc:24-67 | a push does what the specification's push does, after a partial drain too; no read of a node is out of range |
| StreamReassemblers.StreamReassembler.UnassembledBytes | libsponge/stream_reassembler.cc:69 | returns the number of distinct stored indices until a partial drain, and an unsigned difference, which can wrap around, after one |
| Senders.NextSegment | libsponge/tcp_sender.cc:55-73 | a segment never takes more sequence space than is left of the window and carries at most 1000 bytes |
| SenderSafety.FillQueues | libsponge/tcp_sender.cc:35-92 | the segments queued continue the stream end to end from the next sequence number and none passes the limit of the window (one number if it is shut) |
| SenderSafety.FillExhausts | libsponge/tcp_sender.cc:35-92 | afterwards the window is full, or FIN is sent, or there is nothing to send yet |
| SenderSafety.FillExact | libsponge/tcp_sender.cc:35-92 | the next sequence number afterwards: SYN, what is buffered and FIN are sent exactly as far as the window goes |
| SenderSafety.FillSegments | libsponge/tcp_sender.cc:55-91 | every segment of a fill but the last carries 1000 bytes and no FIN, and FIN goes with data unless there was none |
| SenderSafety.FillKeeps | libsponge/tcp_sender.cc:35-92 | keeps the invariant: outstanding segments tile the unacknowledged range and carry the stream, the next number counts SYN, bytes and FIN, the timer runs iff something is outstanding |
| SenderSafety.FillInWindow | libsponge/tcp_sender.cc:35-92 | keeps the bound on what is in flight |
| SenderSafety.FlightBound | libsponge/tcp_sender.cc:31-33 | what is in flight stays below 65535 plus the longest segment |
| SenderSafety.AckKeeps | libsponge/tcp_sender.cc:96-181 | keeps the invariant for every acknowledgment number and window |
| SenderSafety.AckedIsCover | libsponge/tcp_sender.cc:120-157 | the loop, which recovers each segment's number by `unwrap`, removes as many as end at or before the acknowledgment |
| SenderSafety.CoverExact | libsponge/tcp_sender.cc:120-157 | those are exactly the wholly covered ones |
| SenderSafety.AckExact | libsponge/tcp_sender.cc:96-157 | what remains is a suffix whose first segment is not wholly covered; what left was covered |
| SenderSafety.AckTakesOver | libsponge/tcp_sender.cc:106-171 | the number is always taken over, the window only with a possible number; timer and retransmission count start over if and only if a segment left the queue (section 5 of RFC 6298) |
| SenderSafety.FillFlight | libsponge/tcp_sender.cc:35-92 | what is in flight after any fill: from the first outstanding number to the next one, or as far past it as the limit of the window and what there is to send allow |
| SenderSafety.AckFillBound | libsponge/tcp_sender.cc:35-117 | if the window is filled right after an acknowledgment, what is in flight stays below 65535 plus the longest segment if and only if the acknowledgment is possible, or the limit it leads to, cut by what there is to send, is within that of the first outstanding number |
| SenderRuns.RunawayExample | libsponge/tcp_sender.cc:106-115 | a run in which an impossible acknowledgment puts 80000 bytes in flight |
| SenderRuns.LateRunaway | libsponge/tcp_sender.cc:106-115 | a run in which the fill after an impossible acknowledgment sends nothing and a fill after a later write puts 80000 bytes in flight |
| SenderRuns.RunBounded | libsponge/tcp_sender.cc:35-205 | along every run, with any acknowledgments, what is in flight stays below 65535 plus the longest segment if and only if each fill starts from a state whose window limit, cut by what there is to send, is that close to the first outstanding number |
| SenderSafety.TickKeeps | libsponge/tcp_sender.cc:184-192 | keeps the invariant and the bound |
| SenderSafety.TickRetransmits | libsponge/tcp_sender.cc:184-192 | a tick queues one segment, the one at the oldest unacknowledged number, iff the timeout has elapsed with something outstanding, and touches nothing else |
| SenderRuns.TickTimely | libsponge/tcp_sender.hh:85-94 | in every sound state: a tick retransmits iff something is outstanding and all ticks since the timer was started add up, in 32 bits, to the initial timeout doubled for each retransmission |
| SenderRuns.RunRetransmits | libsponge/tcp_sender.cc:184-192 | in every run without a newly acknowledged segment, ticks that together reach the timeout, however divided, retransmit the oldest segment |
| SenderSafety.FeedKeeps | libsponge/byte_stream.cc:19-29 | a write keeps the sender's invariant if and only if FIN has not been sent, or there is nothing to write or no room for it |
| SenderRuns.TickBackoff | libsponge/tcp_sender.hh:82-106 | the timeout stays initial timeout times two to the number of retransmissions in 32 bits, without overflow up to the sixteenth, and is covered by the time waited; the timer shows the ticks since it was started |
| SenderRuns.AckBackoff | libsponge/tcp_sender.cc:159-171 | the same across acknowledgments, which start the time over only if they acknowledge a segment |
| SenderRuns.RunSound | libsponge/tcp_sender.cc:35-205 | invariant, backoff and the time the timer shows hold after every run |
| SenderRuns.RunInWindow | libsponge/tcp_sender.cc:35-205 | in every run whose acknowledgments are for numbers already used, what is in flight stays below 65535 plus the longest segment |
| SenderRuns.GiveUpTakesTime | libsponge/tcp_connection.cc:117-128 | more than 8 consecutive retransmissions take at least 511 initial timeouts of ticks without a newly acknowledged segment |
| StateSummary.FinStates | libsponge/tcp_helpers/tcp_state.cc:94-110 | without error, each state says exactly whether SYN has been sent and acknowledged, FIN sent, and everything acknowledged |
| StateSummary.WriteForward | libsponge/tcp_helpers/tcp_state.cc:94-110 | a write moves the summary back exactly when there is something to write and room for it after FIN was sent and the SYN acknowledged |
| StateSummary.WriteAfterFin | libsponge/byte_stream.cc:19-29 | a run to FIN_SENT and a write that takes the sender back to SYN_ACKED, out of its invariant |
| StateSummary.RunForward | libsponge/tcp_helpers/tcp_state.cc:94-110 | in every error-free run the sender's summary only moves forward |
| StateSummary.CloseBySummary | libsponge/tcp_connection.cc:200-207 | without errors, the closing condition is exactly FIN_ACKED with FIN_RECV and the lingering over |
| StateSummary.ReceiverForward | libsponge/tcp_helpers/tcp_state.cc:82-92 | in every run the receiver's summary only moves forward, whatever arrives |
| Receivers.WindowExact | libsponge/tcp_receiver.cc:85-88 | a payload that is next in order is accepted whole if and only if it is no longer than the window |
| Receivers.ReceiveAdvances | libsponge/tcp_receiver.cc:24-88 | an arriving segment never moves the acknowledgment number or the right window edge back |
| Receivers.RunAdvances | libsponge/tcp_receiver.cc:24-88 | nor does any run of arrivals and reads |
| Arrivals.SynLearned | libsponge/tcp_receiver.cc:31-83 | after a SYN the number acknowledged is known and counted from it; before any SYN nothing changes |
| Arrivals.ReceiveLands | libsponge/tcp_receiver.cc:24-63 | for a payload at any recoverable number: exactly which bytes are held afterwards, that the output is full or lacks its next byte, and exactly when the end is known |
| Arrivals.ReceiveStores | libsponge/tcp_receiver.cc:57-61 | a byte inside the window is held afterwards, in order or not, if the payload joins on or fits the capacity left |
| Arrivals.ReceiveEnds | libsponge/tcp_receiver.cc:36-61 | a FIN that joins on and fits the window ends the stream |
| Arrivals.SentStored | libsponge/tcp_receiver.cc:24-63 | the same of a segment the peer has sent, with the value of the byte |
| Arrivals.SentEnds | libsponge/tcp_receiver.cc:36-83 | and of its FIN: the number acknowledged afterwards is the one behind FIN |
| TCPSenders.RetransmissionTimer.constructor | libsponge/tcp_sender.hh:82 | stopped, with the initial timeout |
| TCPSenders.RetransmissionTimer.Tictoc | libsponge/tcp_sender.hh:85-94 | time passes, 32 bits wide; expiry counts and doubles iff the peer's window is open |
| TCPSenders.TCPSender.constructor | libsponge/tcp_sender.cc:25-29 | a new sender |
| TCPSenders.TCPSender.SendOne | libsponge/tcp_sender.cc:56-90 | one round of the loop |
| TCPSenders.TCPSender.FillRoom | libsponge/tcp_sender.cc:55-91 | the loop sends what the specification sends into the room given |
| TCPSenders.TCPSender.FillWindow | libsponge/tcp_sender.cc:35-92 | does what the specification does, the early returns included |
| TCPSenders.TCPSender.PopAcked | libsponge/tcp_sender.cc:120-157 | the loop removes the number of segments specified and keeps the in-flight count equal to what is queued |
| TCPSenders.TCPSender.AckReceived | libsponge/tcp_sender.cc:96-181 | does what the specification does, the impossible acknowledgment included |
| TCPSenders.TCPSender.Tick | libsponge/tcp_sender.cc:184-192 | does what the specification does |
| TCPSenders.TCPSender.SendEmptySegment | libsponge/tcp_sender.cc:198-205 | queues an empty segment that is not tracked |
| TCPReceivers.TCPReceiver.constructor | libsponge/tcp_receiver.hh:32 | a new receiver |
| TCPReceivers.TCPReceiver.SegmentReceived | libsponge/tcp_receiver.cc:24-63 | does what the specification does |
| TCPReceivers.TCPReceiver.Ackno | libsponge/tcp_receiver.cc:65-83 | the wrapped number of the first byte not received, counting SYN and FIN, once a SYN is known |
| TCPReceivers.TCPReceiver.WindowSize | libsponge/tcp_receiver.cc:85-88 | capacity less what is unread |
| Connections.StampAll | libsponge/tcp_connection.cc:183-198 | every segment is stamped, in order |
| TCPConnections.TCPConnection.constructor | libsponge/tcp_connection.hh:91 | a new connection |
| TCPConnections.TCPConnection.SegmentReceived | libsponge/tcp_connection.cc:41-89 | does what the specification does |
| TCPConnections.TCPConnection.Write | libsponge/tcp_connection.cc:95-103 | does what the specification does and returns how much was accepted |
| TCPConnections.TCPConnection.Tick | libsponge/tcp_connection.cc:106-153 | does what the specification does, giving up included |
| TCPConnections.TCPConnection.EndInputStream | libsponge/tcp_connection.cc:155-164 | does what the specification does |
| TCPConnections.TCPConnection.Connect | libsponge/tcp_connection.cc:166-181 | does what the specification does |
| TCPConnections.TCPConnection.SendSegments | libsponge/tcp_connection.cc:183-198 | the loop empties the sender's queue into the connection's, stamping each segment |
| TCPConnections.TCPConnection.TryCleanClose | libsponge/tcp_connection.cc:200-207 | goes inactive iff the closing condition holds |
| TCPConnections.TCPConnection.SendRst | libsponge/tcp_connection.cc:209-220 | queues a stamped reset |
| Flow.FillIntact | libsponge/tcp_sender.cc:35-92 | filling the window keeps sender and receiver consistent and everything sent before true |
| Flow.AckIntact | libsponge/tcp_sender.cc:96-181 | the sender recovers the number acknowledged, and stays consistent with the receiver |
| Flow.ReceiveIntact | libsponge/tcp_receiver.cc:24-63 | the receiver recovers the place of a segment sent at any time, accepts it consistently with the sender, and takes back no promise |
| Flow.PromiseMade | libsponge/tcp_connection.cc:188-193 | the acknowledgment and the window put on the wire are promises the receiver keeps, even where the 16-bit field cuts the window |
| Flow.RecentRecovered | libsponge/tcp_sender.cc:58 | the absolute number of a segment that leaves can be recovered from its header |
| Network.StepSafe | libsponge/tcp_connection.cc:41-220 | every operation of an endpoint keeps both directions safe |
| Network.RunSafe | libsponge/tcp_connection.cc:41-220 | so does every run |
| Network.NeverBroken | libsponge/stream_reassembler.cc:239-247 | in every run both reassemblers stay well formed: the partial drain is never reached |
| Network.EndToEnd | libsponge/tcp_connection.cc:41-220 | in every run, what one side received is a prefix of what the other wrote, both ways |
| Network.SafeClose | libsponge/tcp_connection.cc:200-207 | in every run, an endpoint that closed without error and its peer have all of each other's bytes and the ends of both streams |
| Network.MayCloseOnlyWhenSafe | libsponge/tcp_connection.cc:200-207 | the closing condition implies that both streams are complete at both sides |
| Calls.CallIsRun | libsponge/tcp_connection.cc:41-198 | a call takes the sender through exactly these events (write, end, acknowledgment, fill, tick, bare segment), and all that is queued leaves, stamped, in order |
| Calls.AckHeard | libsponge/tcp_connection.cc:61-68 | the number and window in a segment are taken over, exactly the outstanding segments it wholly covers leave, and as much is sent as the window then allows |
| Calls.PacketHeard | libsponge/tcp_connection.cc:61-68 | in every run of two endpoints, with the number that was acknowledged when the packet was sent |
| Calls.ReceiverAfter | libsponge/tcp_connection.cc:55-57 | a segment that is not a reset goes to the receiver |
| Calls.OutboundAfter | libsponge/tcp_connection.cc:95-164 | only a write appends to the outbound stream, exactly what fits; only the end of input ends it; only giving up and resets put it in error |
| Calls.InboundAfter | libsponge/tcp_connection.cc:95-181 | no call but a delivery touches what has been received, and a read takes out exactly what it asks for, as far as there is any |
| Calls.DeliversWrites | libsponge/tcp_connection.cc:95-103 | in every run, what one side received is a prefix of all that was accepted from the writes at the other |
| Calls.ResetArrives | libsponge/tcp_connection.cc:46-54 | a reset makes the connection inactive with both streams in error and is not answered |
| Calls.GivenUp | libsponge/tcp_connection.cc:119-128 | giving up does so too, and exactly one segment leaves: a reset at the next number, acknowledging if it can |
| Replies.StampExact | libsponge/tcp_connection.cc:187-195 | what leaves differs from what the sender queued only in the acknowledgment and window, which are those of this moment |
| Replies.ReplyCarriesAck | libsponge/tcp_connection.cc:55-77 | once a SYN is known, all that is queued carries the current acknowledgment and window, and a segment that occupies sequence space is answered |
| Replies.NoEmptyReply | libsponge/tcp_connection.cc:68-77 | a segment of length zero never causes a reply of length zero |
| Replies.RunNoEmptyReply | libsponge/tcp_connection.cc:68-77 | so it is at either endpoint after every run, whatever the segment |
| Replies.CallsSettle | libsponge/tcp_connection.cc:95-181 | no call of the application leaves anything unsent that the window has room for, nor anything in the sender's queue |
| Replies.ArrivalSettles | libsponge/tcp_connection.cc:55-77 | nor does an arriving segment, once a SYN is known |
| Lingering.CloseWaits | libsponge/tcp_connection.cc:200-207 | a connection that has to linger closes only after ten timeouts of ticks since the last segment |
| Lingering.BehaviorWaits | libsponge/tcp_connection.cc:41-130 | the time since the last segment is that of the ticks since, until the connection gives up |
| Lingering.ExcusedIfPassive | libsponge/tcp_connection.cc:80-83 | it is excused if and only if there was a delivery after which the peer's stream had ended and its own had not been fully sent |
| Lingering.StepCloses | libsponge/tcp_connection.cc:41-207 | a write, a tick that does not give up and any arrival but a reset leave an active connection inactive if and only if the closing condition holds; nothing else does but giving up and resets |
| Lingering.StaysClosed | libsponge/tcp_connection.cc:41-220 | over every run of one endpoint: closed, excused, ended and in error are never undone |
| Lifetimes.GivesUpExactly | libsponge/tcp_connection.cc:117-128 | over every life of a connection, it gives up at exactly those ticks that bring the consecutive retransmissions to nine or more, and 511 timeouts have passed by then |
| Lifetimes.ClosesExactly | libsponge/tcp_connection.cc:41-207 | over every life, an active connection goes inactive by giving up, by a reset, or exactly when it is FIN_ACKED and FIN_RECV and has heard nothing for ten timeouts or is excused |
| Exchanges.BothClose | libsponge/tcp_connection.cc:41-207 | for almost any configuration and up to 1000 bytes, there is a run in which the bytes are delivered and both ends close without error |
| Checksums.SumChunks | libsponge/util/util.cc:89-98 | adding in chunks, of odd length too, is adding at once |
| Checksums.FoldReduces | libsponge/util/util.cc:100-108 | folding is reduction modulo 65535 that keeps zero apart |
| Checksums.AcceptedSum | libsponge/util/util.cc:100-108 | a sum has checksum zero iff it is a positive multiple of 65535 |
| Checksums.ChecksumCompletes | libsponge/util/util.cc:77-83 | adding the checksum of a sum to it gives checksum zero |
| Checksums.ChecksumFits | libsponge/util/util.cc:89-108 | and never overflows 32 bits |
| Checksums.OneByteDetected | libsponge/util/util.cc:77-83 | changing one byte of an accepted message is always noticed, even where the 32-bit sum wraps around |
| Checksums.InternetChecksum.constructor | libsponge/util/util.cc:87 | starts from the initial sum |
| Checksums.InternetChecksum.Add | libsponge/util/util.cc:89-98 | the 32-bit accumulator and the parity stay those of all bytes added so far |
| Checksums.InternetChecksum.Value | libsponge/util/util.cc:100-108 | the loop returns the checksum of the 32-bit sum |
| Parsing.DigitsRead | libsponge/util/parser.cc:26-60 | reading back the digits of a number gives the number |
| Parsing.DigitsWritten | libsponge/util/parser.cc:26-60 | writing back the number read gives the bytes |
| Parsing.NetParser.Accumulate | libsponge/util/parser.cc:34-38 | the loop over the bytes builds the big-endian integer |
| Parsing.NetParser.ParseInt | libsponge/util/parser.cc:26-43 | returns the big-endian integer and consumes it, or zero after an error, which sticks |
| Parsing.NetParser.RemovePrefix | libsponge/util/parser.cc:45-51 | consumes the prefix or records the error |
| Parsing.UnparseInt | libsponge/util/parser.cc:53-60 | the shift-and-mask loop appends the big-endian digits |
| SegmentFormat.SerializedFields | libsponge/tcp_helpers/tcp_header.cc:51-78 | every field, flag bit and the data offset (in four bits) is at its place in the bytes, big-endian; the rest is zero, and the length is that of the data offset |
| SegmentFormat.ParsedInPlace | libsponge/tcp_helpers/tcp_header.cc:17-34 | the header parsed from a buffer with a good checksum has every field from its place |
| SegmentFormat.SampleSegment | libsponge/tcp_helpers/tcp_segment.cc:12-50 | twenty-one literal bytes with their checksum, serialized from and parsed to literal fields |
| SegmentFormat.LayoutDecoded | libsponge/tcp_helpers/tcp_header.cc:17-78 | decoding the twenty bytes written gives every field back, the data offset modulo 16 |
| SegmentFormat.ReadIsDecode | libsponge/tcp_helpers/tcp_header.cc:18-34 | reading field by field from a long enough buffer is decoding it |
| SegmentFormat.HeaderParsed | libsponge/tcp_helpers/tcp_header.cc:17-48 | exactly when a header is accepted, and which error is reported otherwise |
| SegmentFormat.AcceptedSegment | libsponge/tcp_helpers/tcp_segment.cc:12-23 | exactly which buffers are accepted as segments, and which error is reported otherwise |
| SegmentFormat.ShortOffsetAccepted | libsponge/tcp_helpers/tcp_segment.cc:20-22 | a data offset below five is refused by the header parser and accepted by the segment parser |
| SegmentFormat.ShortOffsetExample | libsponge/tcp_helpers/tcp_segment.cc:20-22 | twenty bytes with data offset zero that are accepted |
| SegmentFormat.SealHolds | libsponge/tcp_helpers/tcp_segment.cc:35-50 | every serialized segment has a good checksum, whatever its size and the pseudo-header's sum, even where the 32-bit sum wraps around |
| SegmentFormat.CorruptionRefused | libsponge/tcp_helpers/tcp_segment.cc:12-17 | a buffer with a good checksum in which any one byte is changed is refused and leaves the segment alone |
| SegmentFormat.RoundTrip | libsponge/tcp_helpers/tcp_segment.cc:12-50 | parsing a serialized segment gives it back with its checksum, if and only if its data offset fits in four bits |
| TCPSegments.WriteHeader | libsponge/tcp_helpers/tcp_header.cc:51-78 | the fields appended one by one are the layout, padded to the data offset; nothing where the code throws |
| TCPSegments.ReadHeaderFrom | libsponge/tcp_helpers/tcp_header.cc:17-48 | the fields consumed one by one are those of the specification |
| TCPSegments.TCPSegment.Parse | libsponge/tcp_helpers/tcp_segment.cc:12-23 | does what the specification does; a bad checksum leaves the segment alone |
| TCPSegments.TCPSegment.Serialize | libsponge/tcp_helpers/tcp_segment.cc:35-50 | does what the specification does |
| Delivery.ThroughTheWire | libsponge/tcp_helpers/tcp_segment.cc:12-50 | an endpoint ends up in the same state whether it is handed a segment or what serializing and parsing make of it |
| Delivery.PacketsThroughTheWire | libsponge/tcp_helpers/tcp_segment.cc:12-50 | so it is for every packet on its way at the end of every run, with any pseudo-header |

## Left out

- Counters and stream indices of 64 bits are natural numbers; run theorems keep streams below 2^64 - 2^17 bytes instead of modelling their wrap-around. The timer, the checksum and the sequence numbers do wrap, and so do the difference in `unassembled_bytes` and the one that bounds a gap in a list that is out of order.
- What bytes a reassembler delivers after a partial drain: pushes are modelled and never fail then, but nothing ties the output to the stream any more.
- Liveness: nothing says that bytes are eventually delivered; a channel may drop everything.
- The official state names (`TCPState` from a `State`, `name`) and comparison of summaries.
- The destructor of `TCPConnection`, which sends a reset when still active; copying and deleting nodes.
- Exceptions, other than that of serializing a header that is too short, which is `None`.
- Random choice of the initial sequence number: it is a parameter.
- IPv4, Ethernet and ARP formats: the same kind of parser and printer, without new difficulties. The pseudo-header is an arbitrary initial sum.
- Network interface and router, whose bodies are stubs.
- Event loop, sockets, file descriptors, adapters and the threaded socket.
- Reference counting in `Buffer` and `BufferList`: they are byte sequences.
- Logging and conversion to text.
