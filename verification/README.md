# L2TP data plane and object lifecycle

A Dafny model of the L2TP kernel module in `work_module/network_module/l2tp` and of
the token-bucket policer in `test_module/policing`, with proofs about whole runs.

| module | what it holds |
|---|---|
| `Common` | options, lists without repetition |
| `SequenceSpace` | sequence numbers on a circle, masking, the receive window |
| `Receive` | receive state of a session: window, reorder queue, resynchronisation counter, expiry, delivery |
| `ReceiveRuns` | what every run keeps: order of delivery, conservation of frames, and exactly when the queue stays ordered |
| `Reordering` | exactly which batches are sorted for every order of arrival |
| `Resync` | reordering switched off: counting and resynchronising |
| `Expiry` | frames held too long: recovery from a loss, when a skip is pending, and how long a frame waits |
| `Bytes`, `Header`, `RoundTrip` | header builders as printers, the two-stage parser, their round trip |
| `SessionState`, `Session` | a whole session as a value, and the session object with its in-place methods |
| `Datagrams` | which datagrams reach a session and what is passed up of them, told from the bytes |
| `Numbering` | frames with a wrong cookie or without a sequence number, and what sets the flags that demand numbers |
| `Isolation` | what the memory behind a received frame can do to a session |
| `Negotiation` | the numbers that a session sends, and LAC and LNS agreeing on sending them |
| `EndToEnd` | two endpoints and a network that loses, reorders and duplicates |
| `SessionIndex` | the two hash indexes, enumeration, the resumable dump |
| `Lifecycle`, `LifecycleRuns`, `LifecycleObjects` | reference counts of tunnels, sessions and PPP sockets: as values, over every run, and as in-place code |
| `Effects` | what single calls do to tunnels, sessions and sockets, and which call undoes which |
| `Teardown` | the delete work, the release of sockets, and the way of a deleted tunnel to its end |
| `Policing` | the token bucket in 32-bit and 64-bit arithmetic |

The receive path, a header build, a delete or a close is one atomic call that reads
one value of an unbounded clock. The identity of a buffer, the memory behind a frame,
the bytes left in header space and the stale number in a control block are arbitrary.
The history of events (`log`) and of freed sessions (`freeLog`) is part of the state.
A session object is proved to compute functions on its value; the theorems about runs
are about those functions.

Where the code does less than one might expect, the model follows the code and states
the exact condition:

- The comment at session creation says that the number of the first received frame is
  used. The window test comes first, so a first number in the upper half of the circle
  is refused (`FirstFrameTakenIff`).
- The comment on resynchronisation counts nr_oos_count_max = 4 frames in sequence. The
  counter must exceed 4, and it counts links between frames, so six frames are needed
  (`SixResynchronise`, `FiveAreFreed`).
- Queue insertion compares numbers as plain integers, so a batch that wraps past nr_max
  is not sorted (`SortsIffFits`).
- The parser reads four bytes of default sublayer whatever its configured length, and
  the builder writes four bytes or none (`RoundTripIff`).
- hdr_len has 16 bits, while the limits at creation allow a longer header
  (`HeaderLenExactIff`).
- The IP receive path finds every session of L2TPv3, also those of tunnels in UDP, and
  asks neither for a receive handler nor for the encapsulation. A PPP session that has
  no socket yet takes such frames without a reference of the socket. If one is still
  queued when the socket is connected, it returns a reference that it never took, and
  the socket can be destroyed under its owner (`ConnectRightIff`, `WaitingFrameFails`).
  Sessions of L2TPv2 are not in that index (`V2RunsAreSafe`).
- Switching reordering off while frames wait leaves the queue out of order
  (`QueueOrderedIff`, `SwitchingOffIff`, `SwitchingOffBlocks`).
- A frame that ends before its sublayer word is read together with what lies behind it,
  if the session allows a frame that short (`AcceptedFramesStandAlone`). Even where such
  a frame is refused, what lies behind it can decide a statistic or whether a LAC sends
  numbers (`IsolatedIff`).
- Numbers say nothing about whole circles: a receiver that misses nr_max + 1 frames in a
  row takes a later frame for the next one (`LostCircle`), and one that has passed up a
  whole circle takes an old copy for a new frame (`RepeatedFrame`).
- The policer multiplies in 64 bits and divides as signed, so long idle gaps can lose
  credit, but never exceed the rate (`UpdateExactIff`, `RateBound`).

## Model

| member | source | states |
|---|---|---|
| `SequenceSpace.SeqCheckRxWindow` | work_module/network_module/l2tp/l2tp_core.c:565-575 | the window test accepts exactly the numbers reached by fewer than `window` steps from nr, and its unsigned 32-bit subtractions never borrow |
| `SequenceSpace.AdvanceIsModular` | work_module/network_module/l2tp/l2tp_core.c:434-435 | incrementing nr and masking it, any number of times, is a walk around the circle and addition modulo nr_max + 1 |
| `SequenceSpace.MaskIsNext` | work_module/network_module/l2tp/l2tp_core.c:434-435 | the increment masked bit by bit with either value of nr_max is one step around the circle |
| `SequenceSpace.WindowAntisymmetric` | work_module/network_module/l2tp/l2tp_core.c:565-575 | two different numbers are never each in the other's window |
| `SequenceSpace.WindowInNumbers` | work_module/network_module/l2tp/l2tp_core.c:2006-2012 | the window starts at nr and has 0x7fff positions in L2TPv2 and 0x7fffff in L2TPv3 |
| `SequenceSpace.ReplayRefusedIff` | work_module/network_module/l2tp/l2tp_core.c:565-591 | a number p positions behind nr is refused if and only if p is at most nr_max + 1 - window |
| `Receive.InsertContents` | work_module/network_module/l2tp/l2tp_core.c:374-403 | ordered insertion adds exactly the new frame and loses none |
| `Receive.DrainEnds` | work_module/network_module/l2tp/l2tp_core.c:454-517 | draining removes a prefix of the queue and stops at an empty queue or a fresh, numbered head different from nr with no skip pending; draining again changes nothing |
| `Receive.StepWf` | work_module/network_module/l2tp/l2tp_core.c:580-645 | every call keeps nr, nr_oos and all queued numbers within nr_max |
| `ReceiveRuns.RunsDeliverInOrder` | work_module/network_module/l2tp/l2tp_core.c:432-439 | over every run, each numbered frame passed up carries the number expected at that moment, and nr is determined by the history |
| `ReceiveRuns.SegmentIsConsecutive` | work_module/network_module/l2tp/l2tp_core.c:454-517 | deliveries in a stretch of history without a skip are consecutive, and nr counts them |
| `ReceiveRuns.SuccessiveDeliveries` | work_module/network_module/l2tp/l2tp_core.c:432-439 | two successive numbered deliveries with no skip between them differ by one step, whatever else happened in between |
| `ReceiveRuns.ReplayIsRefused` | work_module/network_module/l2tp/l2tp_core.c:580-591 | over every run, a delivered number presented again is freed and changes nothing else, until nr is more than nr_max + 1 - window positions past it or a skip occurs |
| `ReceiveRuns.RunsAreBalanced` | work_module/network_module/l2tp/l2tp_core.c:707-899 | conservation: every frame is passed up, freed or still queued exactly as often as it entered; entered = rx_packets + rx_errors + queue length; rx_seq_discards counts exactly the frames freed for a missing, out-of-sequence or expired number, and rx_cookie_discards those with a wrong cookie; with the ref and deref callbacks set throughout, outstanding references equal the queue length |
| `ReceiveRuns.PurgeBalanced` | work_module/network_module/l2tp/l2tp_core.c:904-920 | purging frees exactly what was queued and, with the deref callback set, brings the references to zero with the queue |
| `ReceiveRuns.RunsCountLateArrivals` | work_module/network_module/l2tp/l2tp_core.c:374-403 | over every run, rx_oos_packets counts exactly the frames admitted for reordering after one with a larger number had been queued |
| `ReceiveRuns.QueueOrderedIff` | work_module/network_module/l2tp/l2tp_core.c:374-403 | with numbered and unnumbered frames interleaved in any way, after every call each numbered entry dominates everything ahead of it and the queue is empty while reordering is off, if and only if reordering was switched off only while the queue was empty |
| `ReceiveRuns.SwitchingOffIff` | work_module/network_module/l2tp/l2tp_core.c:593-607 | after any run, setting the timeout to 0 keeps the queue ordered in every continuation without a further change of the timeout, if and only if no frame waited |
| `ReceiveRuns.SwitchingOffBlocks` | work_module/network_module/l2tp/l2tp_core.c:593-607 | setting the timeout to 0 while a frame waits appends the missing frame behind it, so that it waits too and the queue is out of order |
| `ReceiveRuns.PlainFramesAreNotOvertaken` | work_module/network_module/l2tp/l2tp_core.c:871-880 | over every run, an unnumbered frame is passed up only after every frame that arrived before it has left the queue |
| `Reordering.SortsIffFits` | work_module/network_module/l2tp/l2tp_core.c:374-517 | a batch of consecutive frames is passed up whole, in sending order and with nothing left queued for every order of arrival, if and only if it fits the window and does not run past nr_max |
| `Reordering.FittingBatchIsSorted` | work_module/network_module/l2tp/l2tp_core.c:374-517 | the sorting direction for one given order of arrival |
| `Reordering.UnfittingBatchIsNotSorted` | work_module/network_module/l2tp/l2tp_core.c:382-384 | for every batch that wraps or exceeds the window, an order of arrival that is not sorted |
| `Resync.OffStep` | work_module/network_module/l2tp/l2tp_core.c:601-638 | with reordering off a numbered frame is passed up or freed at once, and which of the two |
| `Resync.RunsCountLinks` | work_module/network_module/l2tp/l2tp_core.c:608-617 | over every run with reordering off the queue is empty between calls and nr_oos_count is the number of links that end the history of out-of-sequence numbers |
| `Resync.SixResynchronise` | work_module/network_module/l2tp/l2tp_core.c:606-638 | from any state with reordering off, six consecutive frames in the window as they arrive leave the last one passed up and nr one past it |
| `Resync.SixAheadResynchronise` | work_module/network_module/l2tp/l2tp_core.c:606-638 | the same under a condition on the first frame alone |
| `Resync.FiveAreFreed` | work_module/network_module/l2tp/l2tp_core.c:618-636 | five are not enough: a family of states and frames where all five are freed |
| `Resync.FirstFrameTakenIff` | work_module/network_module/l2tp/l2tp_core.c:2006-2015 | the first frame of a session sets nr if and only if its number lies in the window that starts at 0 |
| `Expiry.LossRecovery` | work_module/network_module/l2tp/l2tp_core.c:454-517 | with reordering on and every queued frame numbered and past its deadline, a frame in the window with no smaller number than theirs frees them all, moves nr to its own number and is passed up, and leaves the queue empty with nr one past it |
| `Expiry.SkipPendingIff` | work_module/network_module/l2tp/l2tp_core.c:466-495 | over every run and whatever the timeouts, a skip is pending exactly if nothing was skipped yet or a frame has expired since the last skip |
| `Expiry.HeldAtMost` | work_module/network_module/l2tp/l2tp_core.c:860-868 | over every run, a frame at the head of the queue after a call that drained it entered at most the timeout in force at its entry, or one second with reordering off, before that call |
| `RoundTrip.Rfc2661Parses` | work_module/network_module/l2tp/l2tp_core.c:990-1008 | both parser stages invert the data header of section 3.1 of RFC 2661 for every combination of flag bits and any offset padding, skipping exactly the header |
| `RoundTrip.V2WireIsRfc2661` | work_module/network_module/l2tp/l2tp_core.c:1080-1106 | the L2TPv2 builder writes such a header without length and offset |
| `RoundTrip.V2RoundTrip` | work_module/network_module/l2tp/l2tp_core.c:1080-1106 | a built L2TPv2 frame gives back session id, sequence presence, number and exact payload |
| `RoundTrip.V3RoundTrip` | work_module/network_module/l2tp/l2tp_core.c:1108-1151 | a built L2TPv3 frame, over UDP or IP, gives back session id, sequence presence, number and exact payload |
| `RoundTrip.V3WireIsRfc3931` | work_module/network_module/l2tp/l2tp_core.c:1108-1151 | the L2TPv3 builder writes, byte by byte, the data header of section 4.1 of RFC 3931 and the default sublayer of section 4.6 |
| `RoundTrip.RoundTripIff` | work_module/network_module/l2tp/l2tp_core.c:764-781 | between mirrored sessions every built frame comes back, whatever header space and memory behind the frame hold, if and only if a default sublayer has a length and ends before the payload |
| `RoundTrip.ShortFramesPassUp` | work_module/network_module/l2tp/l2tp_core.c:946-952 | a built frame reaches the session lookup if and only if, in UDP, it has at least ten bytes; shorter ones go to user space |
| `RoundTrip.AcceptedFramesStandAlone` | work_module/network_module/l2tp/l2tp_core.c:764-765 | an accepted frame is always read from its own bytes alone, if and only if sublayer length, offset and the two bytes that the PPP hook demands cover the four bytes of the sublayer word |
| `Datagrams.UdpLookupIff` | work_module/network_module/l2tp/l2tp_core.c:946-1008 | a UDP datagram reaches the lookup if and only if it has ten bytes, a first byte below 0x80 and the version in the low four bits of the second byte; the id looked up and the end of the walk are given by the bytes; everything else goes to user space |
| `Datagrams.IpLookupIff` | work_module/network_module/l2tp/l2tp_ip.c:126-173 | an IP datagram reaches the lookup if and only if it has an id other than 0; it goes to user space if and only if it is a control message; the others are freed |
| `Datagrams.BodyPassedUp` | work_module/network_module/l2tp/l2tp_ppp.c:167-184 | behind every header: without PPP the body is passed up whole; with PPP a leading FF 03 is stripped, every other body of two bytes is passed up whole, and shorter ones are refused |
| `Datagrams.UncompressedBody` | work_module/network_module/l2tp/l2tp_ppp.c:167-184 | from the wire, for every header of section 3.1 of RFC 2661: a PPP body without FF 03 comes out unchanged |
| `Isolation.IsolatedIff` | work_module/network_module/l2tp/l2tp_core.c:724-820 | for every state and datagram on a receive path, the session becomes the same whatever lies behind the datagram, if and only if cookie and sequence flag lie in the shortest datagram that is found and the sublayer word in every accepted one |
| `SessionState.SessionRunsAreReceiveRuns` | work_module/network_module/l2tp/l2tp_core.c:707-899 | every run of a session that parses bytes from both receive paths is a run of the receive specification |
| `SessionState.ApplyOk` | work_module/network_module/l2tp/l2tp_core.c:783-831 | every call keeps the receive state well-formed, the send number in range and the header length current |
| `SessionState.HeaderLenExactIff` | work_module/network_module/l2tp/l2tp_core.c:1966-1978 | in every reachable state, with datagrams from both receive paths, hdr_len is the byte count of the builder if and only if that count fits 16 bits, and the send number fits its field |
| `Numbering.WrongCookieIff` | work_module/network_module/l2tp/l2tp_core.c:724-739 | a frame of the session long enough for the cookie is freed for it if and only if the bytes behind the session id differ from the expected ones; the call then counts one error and one cookie discard and changes nothing else |
| `Numbering.MissingNumberIff` | work_module/network_module/l2tp/l2tp_core.c:799-831 | a frame of the session whose cookie matches is freed for want of a number if and only if it has none and the session requires numbers or is an LNS that sends them; the call then counts one error and one discard and changes nothing else |
| `Numbering.OnlyNumberedDelivered` | work_module/network_module/l2tp/l2tp_core.c:799-808 | over every run that does not clear recv_seq, every frame passed up carries a number or was queued before |
| `Numbering.FirstFrame` | work_module/network_module/l2tp/l2tp_core.c:1981-2051 | what a new LNS and a new LAC do with their first frame: passed up without a number unless numbers are demanded, passed up with any number in the window, and whether numbers are sent from then on |
| `Numbering.FlagIsLastSetting` | work_module/network_module/l2tp/l2tp_core.c:783-831 | over every run, recv_seq and lns_mode are the last ones configured, and so is send_seq as long as frames arrive only at an LNS; an odd value switches a flag on |
| `Numbering.TimeoutIsLastSetting` | work_module/network_module/l2tp/l2tp_netlink.c:603-621 | over every run, the reorder timeout is the last one configured |
| `Negotiation.SuccessiveNumbers` | work_module/network_module/l2tp/l2tp_core.c:1080-1151 | the n-th frame that a session builds carries, as the peer reads it, its number plus n on the circle if numbers are sent and the header has a place for them, and ns moves exactly with the numbers written |
| `Negotiation.LacAgreesForever` | work_module/network_module/l2tp/l2tp_core.c:783-831 | after one frame of an LNS with a fixed setting, a LAC sends sequence numbers exactly if the LNS does and the header carries them, for the rest of the run |
| `Negotiation.AgreedFramesDiscardedIff` | work_module/network_module/l2tp/l2tp_core.c:799-830 | a frame of a LAC in agreement is discarded for a missing number if and only if the LNS demands numbers that it does not have sent |
| `Negotiation.NoFrameDiscardedAfterAgreement` | work_module/network_module/l2tp/l2tp_core.c:783-831 | no frame built by the LAC after agreement is discarded by an LNS that requires numbers only if it sends them |
| `EndToEnd.SegmentsWhileKeepingUp` | work_module/network_module/l2tp/l2tp_core.c:407-517 | with a network that loses, reorders and duplicates, and any number of frames sent: if at each hand-over the frame, the waiting frames and the one passed up last are among the last nr_max sent, the payloads passed up between two skips are a contiguous segment of the sent list in sending order |
| `EndToEnd.SegmentsOfWhatWasSent` | work_module/network_module/l2tp/l2tp_core.c:407-517 | the same with fewer than nr_max + 1 frames sent and nothing asked of the network |
| `EndToEnd.ContiguousIff` | work_module/network_module/l2tp/l2tp_core.c:565-591 | what is passed up between two skips is a contiguous segment of what was sent in every run with at most n frames sent, if and only if n is at most nr_max |
| `EndToEnd.RepeatedFrame` | work_module/network_module/l2tp/l2tp_core.c:565-591 | for all sessions and timeouts, a run with nr_max + 1 frames sent that passes up one frame more than was sent, without a skip |
| `EndToEnd.LostCircle` | work_module/network_module/l2tp/l2tp_core.c:565-575 | for all sessions and timeouts, a run that loses a whole circle of frames after one delivery and then passes up, without a skip, what was not sent in that order |
| `EndToEnd.DeliveredWasSent` | work_module/network_module/l2tp/l2tp_core.c:707-887 | over every run, with any number of frames, everything passed up was sent, under its own number and with its own payload |
| `Session.L2tpSession.constructor` | work_module/network_module/l2tp/l2tp_core.c:1981-2051 | a new session has the value of Create and is valid |
| `Session.L2tpSession.UpdateHeaderLen` | work_module/network_module/l2tp/l2tp_core.c:1966-1978 | 16-bit computation of hdr_len |
| `Session.L2tpSession.RecvQueueSkb` | work_module/network_module/l2tp/l2tp_core.c:374-403 | the walk inserts before the first larger number and counts it |
| `Session.L2tpSession.RecvDequeue` | work_module/network_module/l2tp/l2tp_core.c:454-517 | the goto loop computes Drain, which `DrainEnds`, `LossRecovery` and `SkipPendingIff` describe |
| `Session.L2tpSession.QueuePurge` | work_module/network_module/l2tp/l2tp_core.c:904-920 | the loop computes PurgeAll |
| `Session.L2tpSession.RecvDataSeq` | work_module/network_module/l2tp/l2tp_core.c:580-645 | in-place update computes DataSeq, with the discard decision |
| `Session.L2tpSession.RecvCommon` | work_module/network_module/l2tp/l2tp_core.c:707-899 | the pointer moves over sequence field, sublayer and offset as the second stage says, and the session becomes what the receive specification says |
| `Session.L2tpSession.ReadUdpHeader` | work_module/network_module/l2tp/l2tp_core.c:963-1008 | the pointer moves over flags, length and identifiers as the first stage says, and finds an id if and only if the bytes are a data message of the version |
| `Session.L2tpSession.ReadIpHeader` | work_module/network_module/l2tp/l2tp_ip.c:126-173 | the same for the header in IP, including the checks of control messages |
| `Session.L2tpSession.ReadSequence` | work_module/network_module/l2tp/l2tp_core.c:741-781 | the walk over sequence field and sublayer finds presence, number and end of the field, and leaves the stale number of an unnumbered frame |
| `Session.L2tpSession.SkipOffset` | work_module/network_module/l2tp/l2tp_core.c:838-845 | the walk over the offset ends at the payload |
| `Session.L2tpSession.PullHeader` | work_module/network_module/l2tp/l2tp_core.c:847-858 | length test, pull and payload hook cut exactly the payload or refuse the frame |
| `Session.L2tpSession.RecvDatagram` | work_module/network_module/l2tp/l2tp_core.c:929-1022 | on either receive path, the session takes the datagram if the lookup of that path finds it; otherwise nothing changes, and the datagram goes to user space, as every UDP datagram with a first byte of 0x80 or more does, or, in IP, is freed unless it is a control message |
| `Session.VerdictFromBytes` | work_module/network_module/l2tp/l2tp_core.c:929-1022 | from the bytes alone: over UDP a session takes exactly the data messages of its version with its id, and the rest goes to user space; over IP it takes exactly the datagrams with its id, and of the rest only control messages go to user space |
| `Session.L2tpSession.BuildV2Header` | work_module/network_module/l2tp/l2tp_core.c:1080-1106 | the buffer becomes the printed header, the result counts 16-bit words, the send number advances |
| `Session.L2tpSession.BuildV3Header` | work_module/network_module/l2tp/l2tp_core.c:1108-1151 | the buffer becomes the printed header, the result counts bytes, the send number advances |
| `Session.L2tpSession.ModifySession` | work_module/network_module/l2tp/l2tp_netlink.c:603-621 | 1 switches a flag on and 0 off, an absent attribute leaves it alone, and send_seq recomputes the header length |
| `Session.L2tpSession.SetSendSeqOption` | work_module/network_module/l2tp/l2tp_ppp.c:1344-1360 | 1 switches send_seq on and 0 off, and the header length is recomputed; every other value is refused without a change |
| `SessionIndex.FindNth` | work_module/network_module/l2tp/l2tp_core.c:280-299 | the nth entry of the listing, or none past its end |
| `SessionIndex.WellHashedListing` | work_module/network_module/l2tp/l2tp_core.c:280-299 | the listing contains every hashed session exactly once |
| `SessionIndex.SessionDump` | work_module/network_module/l2tp/l2tp_netlink.c:769-805 | one dump call outputs the listing from its cursor up to the buffer limit and saves the cursor behind it |
| `SessionIndex.WholeDump` | work_module/network_module/l2tp/l2tp_netlink.c:769-805 | a dump cut at any buffer-full points outputs exactly the one-shot listing |
| `SessionIndex.Net.SessionFind` | work_module/network_module/l2tp/l2tp_core.c:254-277 | lookup in a tunnel finds a session with the id, or there is none |
| `SessionIndex.Net.SessionFind2` | work_module/network_module/l2tp/l2tp_core.c:221-238 | lookup without a tunnel finds an L2TPv3 session with the id, the only one if ids are unique, or there is none |
| `SessionIndex.Net.SessionCreate` | work_module/network_module/l2tp/l2tp_core.c:2062-2076 | with the callers' duplicate check, creation adds the session to the set that both indexes represent, or is refused if and only if the tunnel has the id |
| `SessionIndex.Net.SessionUnhash` | work_module/network_module/l2tp/l2tp_core.c:1922-1942 | the session leaves both indexes; a second call does nothing |
| `SessionIndex.Net.CloseAll` | work_module/network_module/l2tp/l2tp_core.c:1412-1462 | every session of the tunnel is closed once in listing order, all its chains end empty, the other tunnels are untouched |
| `Lifecycle.FreeKeeps` | work_module/network_module/l2tp/l2tp_core.c:1895-1914 | freeing an unreferenced session restores the invariant, including a tunnel destroyed by the same call |
| `Lifecycle.DeleteKeeps` | work_module/network_module/l2tp/l2tp_core.c:1948-1960 | deleting a hashed session keeps the invariant and takes it off its chain |
| `Lifecycle.ReleaseKeeps` | work_module/network_module/l2tp/l2tp_ppp.c:488-533 | releasing a PPP socket keeps the invariant, whether or not that frees the session |
| `Lifecycle.FinalPut` | work_module/network_module/l2tp/l2tp_ppp.c:475-484 | dropping a reference of a connected socket keeps the invariant, and frees the session if and only if it was the last one |
| `Lifecycle.CloseAllEffect` | work_module/network_module/l2tp/l2tp_core.c:1412-1462 | closeall empties the chain and changes no other tunnel |
| `Lifecycle.DeleteTunnelKeeps` | work_module/network_module/l2tp/l2tp_core.c:1881-1890 | tunnel deletion keeps the invariant, empties the chain and leaves the delete work pending |
| `LifecycleRuns.StepKeeps` | work_module/network_module/l2tp/l2tp_core.c:1365-1526 | every call and event, with frames from both receive paths, keeps the invariant, if a session of L2TPv3 is connected only while its queue is empty |
| `LifecycleRuns.ReferenceCounts` | work_module/network_module/l2tp/l2tp_core.c:1485-1491 | over every such run, ref_count of a tunnel is its list reference plus live sessions plus pending work; live sessions imply that it is alive and has its socket; it is freed exactly when nothing of that is left; the session counter counts live sessions with an id |
| `LifecycleRuns.FreedOnceWithItsSocket` | work_module/network_module/l2tp/l2tp_ppp.c:455-533 | over every such run and order of delete, closeall, release and destruct, a connected session is freed exactly when its socket is destroyed, after its owner has let go of it, and at most once |
| `LifecycleRuns.ConnectRightIff` | work_module/network_module/l2tp/l2tp_ppp.c:744-760 | when a socket is connected after such a run, that holds in every continuation if and only if the session's queue was empty |
| `LifecycleRuns.WaitingFrameFails` | work_module/network_module/l2tp/l2tp_ip.c:144-163 | for tunnels in UDP and in IP, runs of eight calls after which the socket is destroyed under its owner and the session is freed while hashed; in UDP the last frame may come on either path |
| `LifecycleRuns.V2RunsAreSafe` | work_module/network_module/l2tp/l2tp_core.c:2068-2076 | in every run without L2TPv3 tunnels no session is connected with a frame in its queue |
| `LifecycleRuns.FreedForever` | work_module/network_module/l2tp/l2tp_core.c:1895-1914 | the record of freed sessions only grows along any run |
| `Teardown.WorkDone` | work_module/network_module/l2tp/l2tp_core.c:1494-1526 | the delete work is no longer pending, gives back its reference, frees the tunnel if and only if it is unlisted and has no live session, and changes nothing else |
| `Teardown.FreedWhenLetGo` | work_module/network_module/l2tp/l2tp_core.c:1494-1526 | after every such run in which the owners of the tunnel socket and the sessions have let go, the tunnel is freed once its delete work has run |
| `Teardown.TeardownFrees` | work_module/network_module/l2tp/l2tp_core.c:1365-1526 | after every such run, deleting a listed tunnel, releasing the sockets of its sessions, dropping the owner references of its socket and running the work leaves it freed |
| `Teardown.ReleaseIff` | work_module/network_module/l2tp/l2tp_ppp.c:488-533 | releasing a socket detaches it and destroys it if and only if nobody else holds it; its session leaves index and queue and is freed with it |
| `Effects.DeletedIff` | work_module/network_module/l2tp/l2tp_core.c:1948-1960 | deleting a session takes it out of index and queue, frees it if and only if it has no socket, and changes no other session |
| `Effects.TunnelClosed` | work_module/network_module/l2tp/l2tp_core.c:1412-1462 | closeall does that to every session in the chain, and no other session changes |
| `Effects.CreatedIff` | work_module/network_module/l2tp/l2tp_core.c:2053-2086 | a session is created, at the head of the chain, if and only if its tunnel is listed and no session in the chain has the id; otherwise nothing changes |
| `Effects.CreateThenDelete` | work_module/network_module/l2tp/l2tp_core.c:1895-1960 | a session created and deleted leaves tunnel, sockets and counter as they were |
| `Effects.IdsStayUnique` | work_module/network_module/l2tp/l2tp_netlink.c:451-456 | over every run, at most one session in a chain has a given id |
| `Effects.ConnectedIff` | work_module/network_module/l2tp/l2tp_ppp.c:718-760 | connecting ties session and socket to each other if and only if the session is in the chain without a socket and the socket has its owner and no session; otherwise nothing changes |
| `Effects.HoldThenDrop` | work_module/network_module/l2tp/l2tp_ppp.c:475-484 | dropping a reference of a PPP socket undoes taking it |
| `Effects.HoldThenDropOwner` | work_module/network_module/l2tp/l2tp_core.c:1365-1408 | the same for the tunnel socket |
| `Effects.NewTunnelDropped` | work_module/network_module/l2tp/l2tp_core.c:1698-1876 | a new tunnel is listed and has one owner; it is freed when that lets go |
| `Effects.QueueThenDequeue` | work_module/network_module/l2tp/l2tp_core.c:720-722 | a frame that leaves the queue gives back exactly what it took when it came in |
| `Effects.ReachesIffFound` | work_module/network_module/l2tp/l2tp_core.c:1010-1012 | a session is reached on a path if and only if there is a datagram whose bytes that path finds it by |
| `LifecycleObjects.Core.TunnelDecRefcount` | work_module/network_module/l2tp/l2tp_core.c:1485-1491 | the count drops by one, and where it reaches zero both BUG_ON checks hold |
| `LifecycleObjects.Core.TunnelDestruct` | work_module/network_module/l2tp/l2tp_core.c:1365-1408 | the tunnel loses its socket, its place in the list and that reference, with no session left for closeall |
| `LifecycleObjects.Core.SessionFree` | work_module/network_module/l2tp/l2tp_core.c:1895-1914 | called at count zero, it computes its specification; tunnel and tunnel socket are still there when it uses them |
| `LifecycleObjects.Core.SockPut` | work_module/network_module/l2tp/l2tp_ppp.c:475-484 | sock_put computes its specification, destroying socket and session at zero |
| `LifecycleObjects.Core.SessionDelete` | work_module/network_module/l2tp/l2tp_core.c:1948-1960 | the calls in their order compute SessionDelete without touching a destroyed socket |
| `LifecycleObjects.Core.TunnelCloseAll` | work_module/network_module/l2tp/l2tp_core.c:1424-1461 | the restarting loop terminates with an empty chain and computes CloseAll |
| `LifecycleObjects.Core.SockRelease` | work_module/network_module/l2tp/l2tp_ppp.c:488-533 | the calls in their order compute Release; a dead socket is refused |
| `LifecycleObjects.Core.TunnelDelete` | work_module/network_module/l2tp/l2tp_core.c:1881-1890 | the calls in their order compute TunnelDelete, whether or not the work is queued already |
| `LifecycleObjects.Core.DelWork` | work_module/network_module/l2tp/l2tp_core.c:1494-1526 | the tunnel is no longer pending, its count drops by one and it is freed at zero; nothing else changes, although the work holds the tunnel socket meanwhile if it is still there |
| `LifecycleObjects.Core.Execute` | work_module/network_module/l2tp/l2tp_core.c:1365-1526 | every call and event, executed in place under the invariant, meets the precondition of every call it makes, so that no BUG_ON check fails, and computes its step |
| `LifecycleObjects.ExecuteAll` | work_module/network_module/l2tp/l2tp_core.c:1365-1526 | the same for whole runs in which sessions of L2TPv3 are connected with an empty queue |
| `Policing.UpdateExactIff` | test_module/policing/policing.c:53-58 | the refill equals the ideal one if and only if the product stays in the signed 64-bit range or its wrapped value fills the bucket anyway |
| `Policing.UpdateAtMostIdeal` | test_module/policing/policing.c:44-61 | for every gap the refill exceeds neither the burst nor what the rate grants |
| `Policing.IdleGapLosesCredit` | test_module/policing/policing.c:53-58 | at the default settings an idle gap of 369 seconds credits nothing, so that a packet of 20 bytes is dropped |
| `Policing.CheckSpends` | test_module/policing/policing.c:63-75 | with a rate configured the subtraction never borrows, and tokens plus accepted bits are covered |
| `Policing.AcceptsIff` | test_module/policing/policing.c:63-75 | as long as rate times gap stays in the signed 64-bit range, a packet is accepted if and only if its bits fit the old tokens plus the credit, up to the burst |
| `Policing.AcceptsLikeIdeal` | test_module/policing/policing.c:44-75 | over every run in which the gaps stay in range, exactly the packets are accepted that fit what a bucket in unbounded arithmetic holds when they arrive |
| `Policing.RateBound` | test_module/policing/policing.c:44-75 | over every run on a monotone clock, the bits accepted by consecutive calls i..j are at most burst_in + rate_in * (t_j - t_i) / 10^9, and tokens_in never exceeds burst_in |
| `Policing.Policer.UpdateTokens` | test_module/policing/policing.c:44-61 | the globals become the specified bucket |
| `Policing.Policer.CheckingSess` | test_module/policing/policing.c:63-75 | the verdict and the globals are the specified ones; without a rate every packet is accepted; with one, tokens and accepted bits stay within the burst and within the old tokens plus the credit, and while the product is in range the packet is accepted if and only if it fits these |

## Left out

- SegmentsWhileKeepingUp: the sender's settings are fixed and it does not receive.
- RunsAreBalanced: references are counted as if the ref and deref callbacks were set throughout; what happens when they are set in between is in `LifecycleRuns`.
- RateBound: needs a configured rate; with rate_in = 0 every packet is accepted and the counter wraps.
- AcceptsLikeIdeal: asks that rate times gap stays in the signed 64-bit range; beyond it the refill follows `UpdateExactIff` and packets that fit can be dropped (`IdleGapLosesCredit`).
- CheckSpends: packet lengths are those of the 16-bit IP length field that the hook passes.
- Session.L2tpSession.RecvDatagram: a net with one session and an installed receive handler, and a socket for control messages; the lookup among many sessions is in `SessionIndex`, and sessions without a handler are in `LifecycleRuns`.
- SessionIndex.Net.CloseAll: closes against the index only; references and callbacks are in `Lifecycle`, where the order of hash buckets is a single chain.
- LifecycleRuns.FreedOnceWithItsSocket: a connect that fails after the session has its socket pointer is not modelled.
- LifecycleRuns.WaitingFrameFails: once a socket has been destroyed under its owner, the model does not follow the code any further, for instance into a tunnel destruct that finds the freed session.
- Concurrency inside a call: RCU, spinlocks and the queue lock dropped between unlinking a frame and advancing nr.
- The tunnel socket's own life (lookup by descriptor, shutdown, release in the delete work): an owner that takes and drops references at any time stands for it.
- Byte counters, tunnel statistics, counter wrap-around, and errors counted by the private receive handlers after a frame was passed up.
- Wrap-around of jiffies and of nr_oos_count, and failing memory allocations.
- L2TPv2 over IP encapsulation and protocol versions other than 2 and 3.
- UDP checksums, routing, IPv6 variants, the Ethernet pseudowire, debugfs, socket names, ioctl and netlink attribute encoding: plumbing around the code modelled here.
- The seq_file iterator and the tunnel dump: the session dump is the harder loop of the same kind.
- The older copy of the module under `l2tp-3.10.59` and the other examples of the repository: short demonstrations of single kernel interfaces.
