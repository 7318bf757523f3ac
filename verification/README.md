# Elastic Frame Protocol: a verified model

The Elastic Frame Protocol (EFP) carries superframes (a payload with time stamps, content type, code, stream
and flags) over packet links. A sender cuts each superframe into numbered packets of at most one MTU; a
receiver reassembles them from whatever order they arrive in and hands superframes to the host, optionally in
order (head-of-line mode), at the latest when they time out.

The project models the sender, the receiver, the hand-off between the receiver's two threads and the codec for
data embedded in front of a payload. It proves what the protocol is for:

- what a sender emits is an exact partition of the payload, and the zero-copy sender emits the same packets as
  the copying one while it overwrites the caller's memory;
- whatever the channel loses, repeats or reorders, a superframe delivered as intact is one that was sent, byte
  for byte and with all its metadata, a broken one holds fragments of one sent superframe at their true places,
  and none is delivered twice;
- the receiver's bucket array, sorted map and 64-bit unwrapping of the 16-bit superframe number stay consistent
  under any packets with in-range headers;
- delivery passes deliver exactly what they should, in order, and hold nothing for ever; and it is stated
  exactly when head-of-line mode keeps the order in which superframes were sent;
- which answer every packet and every send call gets, and how long a superframe is held, is stated from what was
  sent, what arrived before and the numbers of the format, apart from the functions that compute it;
- while the receiver runs, everything queued for the host is handed over, in a bounded number of steps;
- over a lossless, in-order channel every superframe comes out, in order, in the call that brings its last
  packet, for runs of any length.

## How it is organised

Values and their laws:

| module | about |
|---|---|
| `Wire` | integer widths, result codes, header records, memory cells, packets as they lie in memory |
| `Fragmenter` | what the packets of a superframe are: the specification of both send methods |
| `Sequencing` | unwrapping 16-bit superframe numbers into 64-bit delivery orders |
| `Buckets`, `Reassembly` | one bucket, filled by fragments in any order |
| `Receiving` | the receiver's state and one incoming packet |
| `Delivery` | the delivery pass |
| `Runs` | whole runs over arbitrary packets; head-of-line ordering |
| `Channel`, `AtMostOnce` | whole runs over an unreliable channel from one sender |
| `TooOld` | what the answer "too old" tells about delivery |
| `Answers` | which answer every packet gets, from what arrived before it and from its bytes |
| `TimeOuts`, `FirstPass` | how long a superframe is held, in numbers; when the first pass sets the head of the line |
| `Batch` | superframes that have all arrived, in any order, when the first pass comes |
| `StreamTable` | how a superframe is labelled whose closing packet is missing |
| `SentOrder`, `DeliveryOrder` | head-of-line mode in terms of what was sent: runs in which no order wraps, then all |
| `LateHead` | runs in which the sent order is broken |
| `Overrun` | when the copy a packet causes leaves its buffer |
| `Relay`, `Fifo` | whole runs over a lossless, in-order channel |
| `Handoff`, `Progress` | the queue between worker and delivery thread, as interleaved steps; that it is emptied |

Objects updated in place, as the program keeps them, proved to do what the functions above say:

| module | about |
|---|---|
| `Sending` | the sender with its send buffers; headers written into the caller's memory |
| `ReceiverObjects`, `ReceiverClass` | superframe buffers, buckets, and the receiver with its loops over the map |
| `ScanSteps` | what those loops have done so far, turn by turn |
| `Loopback` | a sender object connected to a receiver object |
| `Serving` | a receiver object fed by an unreliable channel, in both modes, down to the host's callback |
| `Embedded`, `HeaderWalk` | building and extracting embedded data; what extraction answers for any bytes |

The clock is an argument. A region under one lock is one step. The size of the type2 header, which depends on
struct packing, is a symbolic constant between 27 (its fields, packed) and 100 bytes. Products of fragment size
and fragment number are written `Strides(stride, count)` and floored quotients `Whole(n, stride)`;
`Wire.StridesIsProduct` and `Wire.WholeIsQuotient` say that they are the product and the quotient.

## What the channel has to promise

Some properties hold only under conditions on the channel. Each is stated as a predicate on single events and
no more is assumed:

- `Channel.Unambiguous`: a packet never meets a bucket in use for another superframe with the same 16-bit
  number, since the receiver cannot tell the two apart. Assumed by `EndToEnd` and by `CopiesAlwaysInBounds`:
  without it an accepted packet of a sender can be copied beyond the end of the buffer. `Overrun.CopyFitsOverRuns`
  says exactly when that happens, over any run, in terms of two superframes and the packet that opened the bucket;
  `Overrun.CopyLeavesBuffer` gives an input.
- `AtMostOnce.Orderly`: no fragment arrives after its bucket was opened for a later superframe, and a number
  that is unwrapped is within -32768..32767 of the one unwrapped before. Assumed by `DeliveredAtMostOnce`.
- `TooOld.Few` is about the sender: fewer than 2^64 - 65536 superframes are sent. Assumed by the theorems of
  `DeliveryOrder`, so that no two superframes have the same 64-bit order.
- `Runs.InTime`: no bucket is opened at order 2^64 - 1, and once the head of the line is set none is opened below
  it. Sufficient for `HeadOfLineOrdering`, which speaks of unwrapped orders, but not necessary. The exact
  conditions are in `Runs.OrdersRiseIff` for orders and in `DeliveryOrder.SentOrderIff` for what was sent.

## Where the code does not do what its documentation says

- `ElasticFrameProtocol.h:173` says that `tooOldFragment` means the superframe was delivered. `TooOld.TooOldIff`
  says exactly when the answer is given over an orderly, unambiguous channel: for the superframes delivered
  before, and for those mistaken for one they are not. With fewer than 2^64 - 65536 superframes the only one that
  can be mistaken is the one just before the 65536-block of the first one seen, while its bucket was never opened
  (`TooOld.MistakenIfFew`): its order wraps to 2^64 - 1, the value that a bucket never opened starts with.
  `TooOld.TooOldWithoutDelivery` gives a family of such runs. Over a channel that is orderly but ambiguous there is
  a second kind: superframes k and k + 65536 with different numbers of fragments are under way at once, the later
  one's fragment frees the bucket, and the earlier one is then too old without having been delivered
  (`TooOld.FreedWithoutDelivery`).
- Head-of-line mode is meant to deliver in order, moving the head forward after a time-out (line 66 of the
  repository's own README.md). Over an orderly, unambiguous channel and with fewer than 2^64 - 65536 superframes:
  once everything held has gone out, superframes were delivered in the order in which they were sent if and only if
  no bucket was opened for one sent before a superframe that had already been delivered, and none for one from
  before the 65536-block of the first one seen, whose order wraps to the top (`DeliveryOrder.SentOrderIff`). Pass by
  pass: if and only if no pass found the held superframe of the least order timed out and sent before the last one
  delivered, and none handed out one from before that block (`DeliveryOrder.SentOrderKeptIff`).
  `LateHead.SentOrderBroken` gives runs that fail the first condition and `LateHead.WrappedOrderBroken` runs that
  fail only the second. `Runs.HeadMovesBackIff` and `LateHead.HeadMovesBack` are about the head itself moving back.

## What the documentation does not say

- The C helper for embedded data cuts a block's size to 16 bits without a check, where the C++ method refuses
  the block; they agree exactly up to 65535 bytes (`Embedded.HelperAgrees`).
- Stopping the receiver can lose superframes. Once stopping has begun, the delivery thread passes on the one it has
  in hand and, if it is still to look at the queue, the one it finds there; the rest of the queue, and what the
  worker pushes too late, is lost (`Handoff.StopDelivers`, `Handoff.StopLeaves`). So nothing is lost if and only if
  nothing is pushed after that look, and what is queued by then is at most one superframe, or none if the thread
  will not look again (`Handoff.StopLosesNothingIff`). `Handoff.StopLeavesQueued` gives, for any superframes, a run
  that loses all of them.

## Model

| member | source | states |
|---|---|---|
| Wire.DecodeInvertsEncode | ElasticInternal.h:52-110 | a packet's cells read back as that packet, and no other cells do |
| Fragmenter.ExactPartition | ElasticFrameProtocol.cpp:982-1074 | payloads of the packets, joined, are the input; every packet fits the MTU; positions are 0..n with n at most 65534; all name the same superframe, last position, stream and flags |
| Fragmenter.Shape | ElasticFrameProtocol.cpp:985-998 | for every accepted size and MTU the last position fits the bitset, a type3 packet is sent exactly when the strides overshoot the payload, and the rest fits a type2 packet |
| Fragmenter.CountBound | ElasticFrameProtocol.cpp:954-998 | an accepted superframe has at most 65534 type1 packets, and no type3 packet at that bound: the 16-bit casts lose nothing |
| Fragmenter.FragmentLabels | ElasticInternal.h:52-110 | what each packet's header says about it: type number and flags, position, last position, sizes; a type1 packet is full |
| Fragmenter.TimeStampsSurvive | ElasticFrameProtocol.cpp:310-314 | the receiver recovers both time stamps, also when pts - dts wraps, and never takes the no-DTS branch |
| Fragmenter.AcceptedIff | ElasticFrameProtocol.cpp:928-957 | a call is accepted if and only if neither time stamp nor the code is reserved, stream 0 carries content 0x80 only, pts follows dts on the 64-bit circle by less than 2^32 - 1, and the payload fits 65534 type1 packets and one type2 packet |
| Fragmenter.RefusedFor | ElasticFrameProtocol.cpp:928-957 | each refusal code is given if and only if its own reason applies and none of the earlier ones does |
| Sending.Sender.Check | ElasticFrameProtocol.cpp:928-957 | the first check that fails decides the result code |
| Sending.Sender.FloorQuotient | ElasticFrameProtocol.cpp:989-990 | the quotient is the number of whole fragments in the payload and fits 16 bits |
| Sending.Sender.Cut | ElasticFrameProtocol.cpp:985-998 | how many type1 packets, whether a type3 packet follows, and what is left over |
| Sending.Sender.PackAndSendFromPtr | ElasticFrameProtocol.cpp:916-1076 | emits exactly the packets of the partition and counts one superframe, or reports the failed check, emits nothing and counts none |
| Sending.Sender.SendInPieces | ElasticFrameProtocol.cpp:982-1075 | the internal calculation checks never fire |
| Sending.Sender.SendType1Packets | ElasticFrameProtocol.cpp:1000-1015 | the loop that reuses one buffer sends each chunk behind its own fragment number |
| Sending.Sender.DestructivePackAndSendFromPtr | ElasticFrameProtocol.cpp:1079-1212 | the same, in the caller's memory, touching at most the 100 bytes before the payload and the payload; a refused call touches nothing |
| Sending.Sender.SendInPlace | ElasticFrameProtocol.cpp:1155-1164 | a header written in front of a chunk leaves all bytes not yet sent intact |
| Sending.Sender.SendType1PacketsInPlace | ElasticFrameProtocol.cpp:1155-1164 | the in-place loop sends the same packets as the copying loop and leaves the rest of the payload as it was |
| Sending.Sender.SendEndInPlace | ElasticFrameProtocol.cpp:1166-1211 | the packets after the loop, in place; the calculation checks never fire |
| Sending.SendBothWays | ElasticFrameProtocol.cpp:1078-1212 | both forms give the same packets, result code and counter |
| Sending.SentInPieces | ElasticFrameProtocol.cpp:1000-1073 | what the loops build piece by piece is the wire form of the specified packets |
| Sequencing.UnwrapConsistent | ElasticFrameProtocol.cpp:110-121 | the low 16 bits of the unwrapped value are the number just seen, for all inputs |
| Sequencing.StepReach | ElasticFrameProtocol.cpp:107-121 | one step unwraps the next true number correctly if and only if it is within -32768..32767 of the last |
| Sequencing.UnwrapIsFaithful | ElasticFrameProtocol.cpp:107-121 | for any true sequence with steps in reach, all values are the true ones shifted by one offset modulo 2^64 |
| Buckets.CompleteIffAll | ElasticFrameProtocol.cpp:460-466 | the fragment counter equals the last fragment number exactly when every fragment is there |
| Buckets.FilledCounted | ElasticFrameProtocol.cpp:203-211 | a new fragment keeps counter and received set in step, without the 16-bit counter wrapping |
| Buckets.OpenedCounted | ElasticFrameProtocol.cpp:151-158 | so does the fragment that opens the bucket |
| Reassembly.ReservedEnough | ElasticFrameProtocol.cpp:159-179 | whichever fragment opens the bucket, the allocation holds the whole payload and the first copy stays inside it |
| Reassembly.FillFits | ElasticFrameProtocol.cpp:219-221 | so does every later copy |
| Reassembly.OpenReassembles | ElasticFrameProtocol.cpp:366-393 | any fragment, of any type, opens a bucket that holds just that fragment at its true offset |
| Reassembly.FillReassembles | ElasticFrameProtocol.cpp:308-337 | any further fragment is added at its true offset and settles what its type settles |
| Reassembly.Confluence | ElasticFrameProtocol.cpp:125-439 | after two runs of arrivals with the same set of fragments, in any orders with any duplicates, counter, received set, bytes, time stamps and size are the same |
| Reassembly.AllArrived | ElasticFrameProtocol.cpp:203-222 | the bucket is complete exactly when all fragments arrived, and then starts with exactly the payload |
| Reassembly.CompleteIsSent | ElasticFrameProtocol.cpp:460-473 | a complete bucket has the sent size, bytes, time stamps, code, content type, stream and flags |
| Reassembly.BrokenContents | ElasticFrameProtocol.cpp:328-335 | in an incomplete bucket each received chunk lies at its true offset and nothing else is written; the size is the sent one exactly when the last data-carrying fragment arrived or the data ends on a fragment boundary |
| Receiving.OpeningIsFresh | ElasticFrameProtocol.cpp:133-143 | the order computed for a free bucket selects that bucket and is no key of the map: opening overwrites no entry |
| Receiving.UnpackKeepsInv | ElasticFrameProtocol.cpp:125-439 | any packet with in-range headers keeps map, bucket array and unwrapper consistent |
| Receiving.UnpackTouches | ElasticFrameProtocol.cpp:125-439 | a packet touches at most its own bucket, that bucket's map entry and its own stream's entry, never the head of the line |
| Receiving.AnswerIff | ElasticFrameProtocol.cpp:125-439 | for any packet with in-range headers, each answer if and only if its condition on the packet and its bucket holds |
| Receiving.AcceptedAdds | ElasticFrameProtocol.cpp:150-180 | an accepted packet adds exactly its position; time-out (1000 microseconds for a millisecond, modulo 2^32), order and source are set when the bucket is opened and never moved; a type2 packet declares the stream's content type and code, any other takes them from the table when it opens the bucket |
| Receiving.RefusedChanges | ElasticFrameProtocol.cpp:185-205 | which refusals leave the receiver untouched, that one refused as too old is still unwrapped, and that one out of bounds frees its bucket with its map entry |
| Receiving.KeysAreActiveOrders | ElasticFrameProtocol.h:619-621 | the map's keys are exactly the delivery orders of the buckets in use, which are pairwise different |
| Delivery.SortedIsAscending | ElasticFrameProtocol.cpp:448 | the map is iterated by ascending key, each key once |
| Delivery.PassContract | ElasticFrameProtocol.cpp:448-540 | a pass delivers held buckets in ascending order, each once; exactly those leave the map and are freed; all others are untouched |
| Delivery.FreePassContract | ElasticFrameProtocol.cpp:509-533 | without head-of-line blocking exactly the complete and the timed-out buckets are delivered and none of either kind remains |
| Delivery.HolPassContract | ElasticFrameProtocol.cpp:460-507 | with it, the longest prefix of unblocked buckets is delivered, the head follows the last of them, and the first one left is blocked |
| Delivery.ModesAgree | ElasticFrameProtocol.cpp:622-730 | the two passes as specified are the same once the head is set or without head-of-line blocking |
| Delivery.NoPermanentBlocking | ElasticFrameProtocol.cpp:622-721 | a pass at or past every held bucket's time-out plus the head-of-line time-out in microseconds empties the map, the first pass included |
| TimeOuts.HeldUntilDue | ElasticFrameProtocol.cpp:481 | over any run and in both modes, a superframe is delivered incomplete only when its time-out and the head-of-line time-out, each 1000 times its milliseconds modulo 2^32, have passed since its bucket was opened |
| TimeOuts.NotBefore | ElasticFrameProtocol.cpp:156 | below 4294968 milliseconds, where nothing wraps: no pass hands it out incomplete any earlier |
| TimeOuts.NotAfter | ElasticFrameProtocol.cpp:671 | and the next pass hands out every bucket that is due; in head-of-line mode every one that is due together with all lower orders |
| TimeOuts.GoesOutIff | ElasticFrameProtocol.cpp:509-533 | without head-of-line blocking, over any run, a pass hands out a bucket if and only if it has all fragments or is due |
| TimeOuts.HolGoesOutIff | ElasticFrameProtocol.cpp:460-507 | with it, once the head is set: a pass hands out a held superframe if and only if it and all held ones of lower orders are due, or have all fragments and follow the one of the order just below or, being the least, are the one expected |
| FirstPass.HeadUnsetIff | ElasticFrameProtocol.cpp:625-647 | the first head-of-line pass leaves the head unset, in the worker thread if and only if at most one bucket is in use and none has timed out, run to completion if and only if none is in use; then it does nothing |
| Batch.AllComeThenGo | ElasticFrameProtocol.cpp:622-730 | once all fragments of 2 to 8192 superframes in a row have arrived, in any order and with any duplicates, none from before the first-seen one's 65536-block, the first pass delivers all of them, in the sent order and intact, at any time and in every mode |
| Batch.OnlyDuplicates | ElasticFrameProtocol.cpp:204-205 | until then no fragment is refused but as a duplicate of one accepted before |
| StreamTable.RunDeclares | ElasticFrameProtocol.h:582-585 | over any run the stream table holds content type and code of the superframe whose closing fragment was accepted last on the stream, and unknown content with the reserved code before |
| StreamTable.DeliveredUnlabelled | ElasticFrameProtocol.cpp:148-149 | over any run, a superframe delivered without its closing fragment has the content type and code that were the latest on its stream when its bucket was opened |
| Runs.HolSummary | ElasticFrameProtocol.cpp:460-507 | what a head-of-line pass leaves behind lies above what it delivered |
| Runs.FirstPass | ElasticFrameProtocol.cpp:451-459 | the first pass either does nothing or sets the head to the least held order and goes on as if it had been set before |
| Runs.HeadOfLineOrdering | ElasticFrameProtocol.cpp:448-507 | over whole runs whose buckets are opened in time, delivered unwrapped orders strictly increase across all passes, and the head exceeds every delivered order |
| Runs.HeadNeverMovesBack | ElasticFrameProtocol.cpp:476-502 | over such runs the head never decreases |
| Runs.HeadMovesBackIff | ElasticFrameProtocol.cpp:502 | a pass moves the head back exactly when the held buckets it finds unblocked end before the superframe that precedes the head |
| Runs.PassBreaksOrderIff | ElasticFrameProtocol.cpp:460-502 | after rising orders, a pass hands out one that is not above the last if and only if the least held order is not above it and has timed out (or the orders have wrapped) |
| Runs.OrdersRiseIff | ElasticFrameProtocol.cpp:448-507 | for any packets at all, delivered orders strictly increase over a whole run if and only if no pass of it does that |
| LateHead.HeadMovesBack | ElasticFrameProtocol.cpp:481-502 | for every n, runs in which superframe n - 1 is delivered after superframe n and the head moves from n + 1 to n |
| LateHead.SentOrderBroken | ElasticFrameProtocol.cpp:481-502 | for every pair of superframes at most 32768 apart in different buckets, the later first (the earlier one not just before its 65536-block): an orderly, unambiguous run that delivers the earlier one after the later one, with the head below or the order wrapped |
| LateHead.WrappedOrderBroken | ElasticFrameProtocol.cpp:110-121 | for every pair of superframes at most 32768 apart in different buckets, the earlier one from before the later one's 65536-block and not just before it, the later first and no pass between: a run, orderly, unambiguous and opening each bucket above all delivered, that delivers the earlier one last, in either mode |
| SentOrder.InBlocksTickRisesIff | ElasticFrameProtocol.cpp:460-502 | while buckets are opened only for superframes within the 2^64 - 1 from the 65536-block of the first one seen on: a pass breaks the sent order if and only if the earliest-sent held superframe was sent before the one delivered last and has timed out |
| SentOrder.InBlocksOrderKeptIff | ElasticFrameProtocol.cpp:448-507 | over a whole orderly run of that kind, however many superframes are sent and ambiguous or not, superframes are delivered in the order in which they were sent if and only if no pass does that |
| SentOrder.InBlocksOrderIff | ElasticFrameProtocol.cpp:448-507 | once everything held has gone out in such a run, if it is unambiguous, they were if and only if each bucket was opened for a superframe sent after all those delivered by then |
| DeliveryOrder.LeastIsEarliest | ElasticFrameProtocol.cpp:448 | the least key of the map belongs to the earliest-sent of the held superframes from the block on, if any is held |
| DeliveryOrder.TickRisesIff | ElasticFrameProtocol.cpp:460-502 | with fewer than 2^64 - 65536 superframes, a pass breaks the sent order if and only if the held superframe of the least order was sent before the one delivered last and has timed out, or the pass hands out one from before the block |
| DeliveryOrder.SentOrderKeptIff | ElasticFrameProtocol.cpp:448-507 | over a whole orderly, unambiguous run superframes are delivered in the order in which they were sent if and only if no pass does that |
| DeliveryOrder.SentOrderIff | ElasticFrameProtocol.cpp:448-507 | once everything held has gone out, they were if and only if each bucket was opened for a superframe sent after all those delivered by then, and none for one from before the block |
| Channel.EndToEnd | ElasticFrameProtocol.cpp:125-540 | for every unambiguous run of arrivals built from the sent packets, each delivery is made of one sent superframe's fragments at their true places, and one delivered as intact equals it in bytes, size, time stamps, code, content type, stream and flags |
| Channel.DeliverySound | ElasticFrameProtocol.cpp:464-473 | every delivery holds exactly the received fragments of a sent superframe, is marked broken exactly when one is missing, and has the size and time stamps they tell |
| Channel.ArriveSound | ElasticFrameProtocol.cpp:183-211 | an arrival adds only fragments of the superframe its bucket belongs to; it is out of resources if and only if the bucket is in use for another number, a duplicate if and only if that is in use for its number and has the position, too old only if it is not in use, and accepted otherwise |
| Answers.AnswersOverRuns | ElasticFrameProtocol.cpp:183-211 | over any run, ambiguous or not: a fragment is out of resources if and only if its bucket is in use for another 16-bit number, out of bounds if and only if in use for that number with another last position, a duplicate if and only if in use for both and the position was accepted since the bucket was opened |
| Answers.AnswersInHistory | ElasticFrameProtocol.cpp:183-211 | over orderly, unambiguous runs, from what was accepted and delivered before: duplicate if and only if accepted before and not delivered, out of resources if and only if another superframe a multiple of 8192 away was accepted in part and not delivered, too old if and only if delivered or mistaken, and accepted otherwise |
| Answers.CallAnswerIff | ElasticFrameProtocol.cpp:792-829 | from the bytes of a call: not running, type 0, unknown type, short header and short type2 packet, each if and only if; the first four change nothing |
| Channel.CopiesAlwaysInBounds | ElasticFrameProtocol.cpp:219-221 | over whole unambiguous runs no copy of a sender-made fragment leaves its buffer |
| Overrun.Allocation | ElasticFrameProtocol.cpp:159-163 | what each packet type allocates when it opens a bucket |
| Overrun.RunKeepsRooms | ElasticFrameProtocol.cpp:159-179 | over any run, ambiguous or not, a bucket in use has the size that its opening packet gave it, and the number, last position and stride of the superframe it was opened for |
| Overrun.CopyFitsIff | ElasticFrameProtocol.cpp:328-335 | in such a state a copy leaves the buffer if and only if a bucket in use takes the fragment and its bytes end, in their own superframe, beyond the room that the opening packet made for the other one |
| Overrun.CopyFitsOverRuns | ElasticFrameProtocol.cpp:328-335 | the same for every arrival after any run, whatever the channel does |
| Overrun.CopyLeavesBuffer | ElasticFrameProtocol.cpp:328-335 | such an input: 487 bytes opened by their type3 packet, and the closing packet of 504 bytes sent 65536 later |
| AtMostOnce.DeliveredAtMostOnce | ElasticFrameProtocol.cpp:110-143 | over whole orderly runs no superframe is delivered twice |
| AtMostOnce.DeliveredIsTooOld | ElasticFrameProtocol.cpp:133-137 | a later fragment of a delivered superframe is refused as too old |
| AtMostOnce.RefusedIff | ElasticFrameProtocol.cpp:133-137 | a fragment for a free bucket is too old if and only if the bucket was last opened for its superframe or one a multiple of 2^64 away, or was never opened and the superframe is the last one before the first block of 65536 |
| TooOld.RunAccounts | ElasticFrameProtocol.cpp:535-540 | over orderly, unambiguous runs, a bucket that was opened and is not in use was last opened for a superframe that has been delivered |
| TooOld.TooOldIff | ElasticFrameProtocol.h:173 | a fragment is refused as too old if and only if its superframe has been delivered or is mistaken for one it is not, never both |
| TooOld.TooOldOverRuns | ElasticFrameProtocol.h:173 | the same for every arrival of every orderly, unambiguous run; with fewer than 2^64 - 65536 superframes the mistaken one is the one just before the block of the first one seen, while its bucket was never opened |
| TooOld.MistakenIfFew | ElasticFrameProtocol.cpp:133-137 | in every state of such a run with so few superframes, mistaken is exactly that one |
| TooOld.TooOldWithoutDelivery | ElasticFrameProtocol.h:173 | a family of such runs: any superframe first, anywhere in its block, then the one just before the block, in another bucket and at most 32768 earlier: the answer is given though nothing was delivered |
| TooOld.FreedWithoutDelivery | ElasticFrameProtocol.cpp:195-201 | runs, orderly but ambiguous, in which a bucket is freed as out of bounds and the next fragment of its superframe is too old though nothing was delivered |
| Fifo.LosslessFifo | ElasticFrameProtocol.cpp:778-830 | fed in order in time, exactly the sent superframes are delivered, in order and intact, in both modes, across every wrap and bucket reuse, and every packet is accepted |
| Fifo.FrameDelivered | ElasticFrameProtocol.cpp:778-830 | a superframe is delivered once, whole, within its own calls |
| Fifo.NothingEarly | ElasticFrameProtocol.cpp:460-533 | until its last fragment, nothing is delivered: it comes in the call that brings the last fragment |
| Handoff.NeverSleepsOnData | ElasticFrameProtocol.cpp:544-572 | in every reachable state a non-empty queue has the flag up, a sleeping consumer with data has a notification coming, and callbacks, frame in hand and queue are exactly what was pushed |
| Handoff.StepKeepsInv | ElasticFrameProtocol.cpp:649-668 | every interleaved step keeps that |
| Handoff.StopMakesProgress | ElasticFrameProtocol.cpp:745-756 | after the stop flag is raised the delivery thread cannot stay waiting |
| Handoff.StopsInFourSteps | ElasticFrameProtocol.cpp:544-572 | it ends within four of its own steps, whatever the other threads do |
| Handoff.CallbacksArePushes | ElasticFrameProtocol.cpp:544-572 | in every reachable state the callback has got a prefix of what the worker pushed, and the rest is in hand or queued |
| Handoff.PassQueues | ElasticFrameProtocol.cpp:649-669 | what the pushes of one worker pass do to queue and flag |
| Progress.HandsOver | ElasticFrameProtocol.cpp:555-570 | at the lock with something queued, the thread pops the first frame and calls back with it |
| Progress.PassesOn | ElasticFrameProtocol.cpp:544-572 | while the receiver runs, whatever the worker does meanwhile, everything pushed by now has been passed on, in order, once the delivery thread has taken three steps for each queued frame and one more |
| Progress.NextStep | ElasticFrameProtocol.cpp:544-572 | until then one of those steps, or the notification it waits for, is always possible and brings it closer |
| Progress.Drains | ElasticFrameProtocol.cpp:544-572 | from every state of a running receiver some such steps, at most three for each queued frame and one more, pass on everything pushed and leave queue empty and flag down |
| Progress.ThenSleeps | ElasticFrameProtocol.cpp:549-552 | and at most two more put the thread to sleep |
| Handoff.StopDelivers | ElasticFrameProtocol.cpp:544-572 | once stopping has begun, from any state, the callback gets the frame in hand and the one that the thread may still find in the queue, and no more |
| Handoff.StopLeaves | ElasticFrameProtocol.cpp:745-756 | what is lost is the queue and all later pushes but that one frame |
| Handoff.StopLosesNothingIff | ElasticFrameProtocol.cpp:745-756 | nothing is lost if and only if nothing is pushed after the thread's last look at the queue and at most one frame is there for it, or none if it will not look again |
| Handoff.StopLeavesQueued | ElasticFrameProtocol.cpp:544-572 | for any superframes, a run that stops with all of them queued and none delivered |
| Embedded.RoundTrip | ElasticFrameProtocol.cpp:832-856 | extraction returns the blocks and types in order and stops at the payload if and only if the types can be carried and the payload is not empty |
| Embedded.RoundTripAt | ElasticFrameProtocol.cpp:838-854 | the same from any position in a buffer |
| Embedded.ExtractEmbeddedData | ElasticFrameProtocol.cpp:832-856 | the loop ends and computes the extraction |
| Embedded.EfpAddEmbeddedData | ElasticFrameProtocol.cpp:1355-1375 | without a destination the size to reserve, else header, block and payload in place and nothing beyond |
| Embedded.HelperAgrees | ElasticFrameProtocol.cpp:1216-1233 | the C helper builds the bytes of the C++ method exactly when that accepts the block, up to 65535 bytes; for longer ones the method refuses and changes nothing, and the helper writes the low 16 bits of the size |
| Embedded.HostGetsPayload | ElasticFrameProtocol.cpp:65-105 | the C callbacks get each block and then exactly the payload |
| HeaderWalk.ExtractAlong | ElasticFrameProtocol.cpp:832-856 | blocks, types, position and answer of extraction, for any bytes, from the walk from header to header |
| HeaderWalk.ExtractIff | ElasticFrameProtocol.cpp:840-855 | each answer if and only if the walk ends at such a header: illegal type, no room for a payload, last block, outside the buffer |
| HeaderWalk.HostGets | ElasticFrameProtocol.cpp:65-105 | what the C callbacks get for any superframe: the blocks and the payload if the walk closes, nothing if it does not, the whole frame without embedded data |
| ReceiverObjects.SuperFrameObject.constructor | ElasticFrameProtocol.h:404-414 | a new buffer of the given size, announced with that size |
| ReceiverObjects.SuperFrameObject.CopyIn | ElasticFrameProtocol.cpp:178-179 | the bytes overlay the buffer where they are put and nowhere else |
| ReceiverObjects.BucketObject.PrepareType1 | ElasticFrameProtocol.cpp:140-163 | the bucket a type1 packet claims, with a fresh buffer |
| ReceiverObjects.BucketObject.PrepareType2 | ElasticFrameProtocol.cpp:247-276 | the bucket a type2 packet claims |
| ReceiverObjects.BucketObject.PrepareType3 | ElasticFrameProtocol.cpp:362-384 | the bucket a type3 packet claims |
| ReceiverObjects.BucketObject.Open | ElasticFrameProtocol.cpp:140-180 | opens for a packet of any type; a position past the last is refused |
| ReceiverObjects.BucketObject.FillType1 | ElasticFrameProtocol.cpp:203-222 | a further type1 packet, in place |
| ReceiverObjects.BucketObject.FillType2 | ElasticFrameProtocol.cpp:303-337 | a further type2 packet, in place |
| ReceiverObjects.BucketObject.FillType3 | ElasticFrameProtocol.cpp:415-438 | a further type3 packet, in place |
| ReceiverObjects.BucketObject.AssembleData | ElasticFrameProtocol.cpp:464-473 | metadata of the delivery; the buffer itself is untouched |
| ReceiverClass.Receiver.constructor | ElasticFrameProtocol.cpp:27-51 | a consistent receiver with all 8192 buckets free |
| ReceiverClass.Receiver.SuperFrameRecalculator | ElasticFrameProtocol.cpp:110-121 | one unwrapping step in place |
| ReceiverClass.Receiver.OpenBucket | ElasticFrameProtocol.cpp:133-181 | the half of the unpack methods for a free bucket does to the whole receiver what the specification says; no other bucket changes |
| ReceiverClass.Receiver.FillBucket | ElasticFrameProtocol.cpp:185-222 | so does the half for a bucket in use |
| ReceiverClass.Receiver.Unpack | ElasticFrameProtocol.cpp:125-439 | the three unpack methods, in place, keep the receiver consistent |
| ReceiverClass.Receiver.CallBackDue | ElasticFrameProtocol.cpp:448-533 | the loop of the run-to-completion pass, which sets the head in its first turn, hands to the callback exactly what the scan selects, in order |
| ReceiverClass.Receiver.RunToCompletionMethod | ElasticFrameProtocol.cpp:442-541 | the whole run-to-completion pass, in place, is the specified pass |
| ReceiverClass.Receiver.AnyTimedOut | ElasticFrameProtocol.cpp:631-639 | the inner loop finds whether a held bucket has timed out |
| ReceiverClass.Receiver.HeadIsDue | ElasticFrameProtocol.cpp:631-646 | the worker may set the head if and only if two buckets are in use or one has timed out |
| ReceiverClass.Receiver.Push | ElasticFrameProtocol.cpp:651-668 | a buffer leaves its bucket for the queue, with its metadata, and the flag is raised |
| ReceiverClass.Receiver.PushDue | ElasticFrameProtocol.cpp:622-723 | the worker's loop moves to the queue exactly what the scan selects, in order, or ends at once if the head may not be set yet |
| ReceiverClass.Receiver.ReceiverWorkerPass | ElasticFrameProtocol.cpp:611-734 | the worker's whole pass, in place, is the specified pass, and the queue grows by its deliveries |
| ReceiverClass.PassBothWays | ElasticFrameProtocol.cpp:442-541 | the two passes, run on two receivers alike, leave them alike; the worker queues what the other hands to the callback |
| ReceiverClass.Receiver.ReleaseAll | ElasticFrameProtocol.cpp:535-540 | the delete list is erased and its buckets freed, nothing else |
| ReceiverClass.Receiver.ReceiveFragmentFromPtr | ElasticFrameProtocol.cpp:778-830 | one call from the network: result code, new state and deliveries |
| Loopback.NextCopyFits | ElasticFrameProtocol.cpp:219-221 | the packet that comes next never makes the receiver copy out of bounds |
| Loopback.ReceiveFrame | ElasticFrameProtocol.cpp:778-830 | a receiver object fed one superframe's packets does what the lossless run says |
| Loopback.ReceivePacket | ElasticFrameProtocol.cpp:778-830 | one call of the object that runs to completion, with any packet of the link whose copy stays inside the buffer, does what the specification of a call says |
| Loopback.Transmit | ElasticFrameProtocol.cpp:916-1076 | a sender object, set to any number, and a receiver object connected: everything sent comes out, in order and intact, for runs of any length |
| Sending.Sender.SetSuperFrameNo | ElasticFrameProtocol.cpp:1244-1246 | sets the number the next superframe gets, and nothing else |
| Serving.Serve | ElasticFrameProtocol.cpp:778-830 | end-to-end soundness of the receiver object fed any unambiguous arrivals and passes at any times; in the threaded mode the worker's queue grows by the deliveries |
| Serving.ServeDirect | ElasticFrameProtocol.cpp:778-830 | the same for the object that runs to completion, call by call: each call unpacks a packet, makes a pass and delivers before it returns |
| Serving.CallbackSound | ElasticFrameProtocol.cpp:544-572 | however the threads interleave, the host's callback gets the first of these deliveries, in order |
| Serving.CallbackComplete | ElasticFrameProtocol.cpp:544-572 | and while the receiver runs it gets all of them, after three steps of the delivery thread for each and one more |

## Left out

- C API handle maps, function-pointer callbacks, the `std::any` context and the Go bindings.
- Real threads, sleeping and clock calibration in the worker loop: `now` is an argument and a locked region one
  step. The bounded wait of `stopReceiver` for the threads to end is left out with them.
- Allocation failure, also for the zero-byte buffer of an empty superframe; alignment.
- Byte order and struct padding of packet headers: a header is a record of fixed length in memory.
- Packets whose bytes are not a header record and payload, a sender MTU below 255, stream id 255, and a type3
  packet with last fragment number 0: excluded by the types and by `InRange`.
- Type0 packets are recognised and refused only, type4 packets are unknown, as in the program; the logger, the
  version functions and the performance tools are left out.
- Several senders sharing one receiver: the source is not part of a bucket's key, so one sender is modelled.
- The division of doubles at ElasticFrameProtocol.cpp:989 is integer division; the size bound keeps both exact.
- OpenBucket: one method for what the three unpack methods each write out; the dispatch by packet type is inside
  the bucket object. The same goes for FillBucket.
- ReceiverWorkerPass: the queue holds the superframes as values and the pass is one step for it; `Handoff`
  interleaves the single pushes with the delivery thread, whose loop is modelled there only.
- RunToCompletionMethod: the host's callback is the sequence of what it gets; it is not called back into.
- EndToEnd: assumes `Unambiguous`, since the 16-bit number is all the receiver can tell superframes apart by.
- DeliveredAtMostOnce: assumes `Orderly`; a fragment more than 8191 superframes late can reopen a reused bucket.
- HeadOfLineOrdering: assumes `InTime`, which is sufficient only; `OrdersRiseIff` and `SentOrderIff` are exact.
- DeliveryOrder.SentOrderIff: assumes fewer than 2^64 - 65536 superframes; with more, two of them can have the same
  order. `SentOrder.InBlocksOrderIff` is free of that bound.
- CopiesFit: the receiver's methods require that a copy a packet causes stays inside the buffer, which the
  program does not check. `CopiesAlwaysInBounds` proves it for the packets of a sender over an unambiguous channel;
  what the program does after a copy beyond the buffer is undefined and not modelled, so `CopyFitsOverRuns` speaks
  of a real run up to the first such copy.
- Extract: the program reads headers and blocks without checking that they lie inside the buffer; where they
  would not, the result is `Undefined` and nothing is claimed.
- Transmit: sends with the copying form; `SendBothWays` says that the zero-copy form emits the same packets.
