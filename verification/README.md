# A verified model of the lwIP core of the Wi-Fi/serial SDK

This project models the stateful core of the SDK's lwIP 1.4 stack and of the services around it,
and proves what each of them promises. Every component that changes state in place is a class whose
methods are proved against a specification and keep an invariant; the two concurrent protocols are
state machines of atomic steps with theorems over all interleavings.

| files | component |
|---|---|
| SeqNum, TcpWindow, TcpPcb | the TCP receive path: sequence numbers modulo 2^32, trimming, refused data, window announcement, closing |
| TcpTimers | the walks of the fast and the slow TCP timer over the active connections |
| Select, AcceptHandover | `lwip_select` and `event_callback`; the receive events counted before `lwip_accept` has a socket |
| Netconn | one application call becomes a message that is answered at once or by a later callback |
| MemHeap | the heap of mem.c, headers and user data in one array |
| DynMem | the circular next-fit pool of os_dmem.c |
| Pbufs, PbufData | reference-counted pbuf chains, and the octets they denote |
| Timers | the delta list of timeouts refines a queue of deadlines |
| DhcpServer | the eight-entry lease table |
| Recvfrom, NewPort | `lwip_recvfrom` over many calls; the choice of a local port |
| Seqs, Options | shared helpers |

`dafny verify dfyconfig.toml` checks everything. The configuration is the one that is built:
TCP_QUEUE_OOSEQ = 0, TCP_WND = 2 * TCP_MSS, NO_SYS = 0, no core locking, no send timeout, assertions
compiled out.

## What was found

Where the code does not do what is promised, the code was kept, and its exact condition is proved.

- A SYN|ACK that repeats the handshake and carries text reaches the text section while the connection
  is in SYN_RCVD: the SYN is counted as a position of the stream, and an octet is passed over
  (`SynTextExact`, `SynTextLosesOctet`).
- A segment of length one, exactly 2^31 before rcv_nxt, passes the front-trim test and its octet is
  taken as the next one; the trim is right exactly for all other segments (`FrontTrim`). Section 3.3 of
  RFC 793 rules such segments out.
- The announced window is right exactly while, modulo 2^32, the receiver is fewer than 2^31 positions
  past the announced edge (the first comparison looks a little further) and left of it by no more than
  its window (`AnnOnWireExact`).
- Refused data is thrown away when CLOSING or FIN_WAIT turns into TIME_WAIT and when LAST_ACK ends:
  nothing is lost exactly if nothing was lost before and nothing was refused (`EnterTimeWait`, `Free`,
  `Input`).
- tcp_fasttmr does not go on from a block that carries the current value of the 8-bit timer counter, as
  every block does that was served in this tick. It returns exactly if the walk comes to no such block
  (`FastReturns`); if one callback changes the list, exactly if all blocks served before are closed and
  no other carries the counter (`RestartReturns`). A block that becomes active 255 ticks after tcp_alloc
  stops it without any callback (`StaleStampSpins`); one allocated in this tick that a callback opens
  last always does (`OpeningSpins`), one allocated earlier need not (`OpeningReturns`).
- tcp_slowtmr always returns (`SlowReturns`), but leaves its predecessor pointer behind while it skips
  blocks that carry the counter: a removal drops exactly the blocks skipped since (`SlowStepExact`).
  Without changes by callbacks, nothing else is dropped exactly if no such block stands in front of one
  that is served next and removed (`SlowKeepsExact`); two inputs are `StaleBlocksDropped` and
  `SlowLosesBlocks`.
- The rounding of mem.c wraps for requests above 65532 bytes, that of os_dmem.c for requests above
  2^32 - 4 (`DemandHolds`, `DemandCovers`). Such a request to os_dmem.c gets what the search pointer is
  at, which was live already exactly if that is a block in use (`GetMem`, `WrapTakesLive`).
- A blocking write that fails after some of it was queued reports length 0 and leaves write_offset
  standing: the reported length is right exactly if nothing was queued before or the stack accepts the
  last round's octets, which it is not asked to for a full buffer that must not block (`AnswerCounts`,
  `Resume`).
- tcp_shutdown of the sending side never succeeds, however often it is retried and whatever segments
  arrive in between, exactly if the connection is not in SYN_SENT, SYN_RCVD, ESTABLISHED or CLOSE_WAIT at
  the first call; of the receiving side alone, exactly if it listens (`ShutNeverCompletes`). A netconn
  that waits for such a shutdown is answered only by a fatal error of the connection (`ShutdownRun`,
  `ErrTcp`); one that listens or connects is answered with an error at once (`DoClose`).
- In FIN_WAIT_1 an acknowledgement of everything sent is taken for one of our FIN, although tcp_output
  may not have been able to send that yet: when FIN_WAIT_1 is left for FIN_WAIT_2 or TIME_WAIT the FIN is
  acknowledged exactly if it was out (`LeaveFinWait1`); otherwise the peer's FIN can purge it, so that it
  is never sent (`FinNeverSent`).
- A connection ends without the error callback at the end of TIME_WAIT, and when our FIN is acknowledged
  in LAST_ACK exactly if the receive side was shut (`Input`, `Expire`, `QuietEnds`). A netconn that has
  shut its sending side, and only such a one, is then left with a pointer to freed memory (`Vanishes`,
  `Run`): its next call uses it (`PointerLeftBehind`), and a call that waits is never answered
  (`StrandedRun`).
- Text that is refused when TIME_WAIT is entered, and its end of file, reach nobody, as the fast timer
  does not walk that list; the text is not even freed (`NobodyIsTold`).
- Deleting a netconn during a blocking connect strands the connect message (`DoDelconn`).
- pbuf_cat updates totals only on the chain it walks: they are right afterwards exactly if no other
  chain continues into it, or nothing is appended, and the sum fits 16 bits (`CatTotalsExact`);
  pbuf_realloc and pbuf_dechain behave alike (`Realloc`, `Dechain`). Contents and reference counts are
  right in any case. The 8-bit count of pbuf_free makes pbuf_dechain return a freed pbuf when 256 (or a
  multiple) were deallocated (`Dechain`).
- lwip_recvfrom with MSG_PEEK returns window credit for octets that stay unread: credit is octets read
  plus octets peeked at (`Recvfrom`).
- The DHCP pool has eight different addresses exactly if it does not reach past the end of the subnet;
  the host numbers 0 and 1 both become 1 (`PoolDistinct`). The server's own address is outside of it
  exactly if the host mask is above 9, or is 9 and the server is neither host 1 nor host 8
  (`ServerOutside`).
- A DHCP request is acknowledged with the address it asks for exactly if that is one of the pool's; a
  client that holds an entry and asks for any other address is acknowledged with its own
  (`RequestGranted`).
- A bound client that restarts loses its history exactly if the address it asks for is that of an idle
  entry (`RestartKeepsHistory`, `RestartLosesHistory`): the test for BIND follows the reset of the state.

## Model

| member | source | states |
|---|---|---|
| SeqNum.DiffOfWrap | Source/LwIP/src/include/lwip/tcp_impl.h:93-101 | the signed 32-bit difference of two wrapped positions is their true distance if and only if the distance fits 32 bits |
| SeqNum.DiffOneLap | Source/LwIP/src/include/lwip/tcp_impl.h:93-101 | between half the space and one and a half the macros see the difference one lap less |
| TcpWindow.AdvanceIsLongestRun | Source/LwIP/src/core/tcp_in.c:1214-1290 | rcv_nxt moves over the longest gap-free run of positions that the segment carries and the window allows |
| TcpWindow.CutContinuesStream | Source/LwIP/src/core/tcp_in.c:1120-1322 | what is taken from any slice of the stream continues it exactly where the receiver stands, and the FIN is taken exactly when the end is passed |
| TcpWindow.SynTextExact | Source/LwIP/src/core/tcp_in.c:704-744 | a SYN segment in the text section, with or without FIN, keeps octets equal to positions exactly when the window test refuses it |
| TcpWindow.SynTextLosesOctet | Source/LwIP/src/core/tcp_in.c:704-744 | a concrete segment for which it does not |
| TcpWindow.NextAnnWithinWindow | Source/LwIP/src/core/tcp.c:578-601 | the announced edge never moves left and never passes the actual edge |
| TcpWindow.WithheldIsSmall | Source/LwIP/src/core/tcp.c:578-601 | less of the open window is withheld from the peer than would be worth announcing, and an edge ahead of the receiver moves by that much or stays |
| TcpWindow.AnnOnWireExact | Source/LwIP/src/core/tcp.c:578-601 | for any distance, the wrapped computation meets its 16-bit assertion and keeps the edges in order exactly within the stated range modulo 2^32, and is then the announcement due there |
| TcpPcb.Pcb.Passive | Source/LwIP/src/core/tcp_in.c:440-516 | a passive open starts with the invariant, the whole window and nothing received |
| TcpPcb.Pcb.Active | Source/LwIP/src/core/tcp.c:683-780 | so does an active open |
| TcpPcb.Pcb.InOrder | Source/LwIP/src/core/tcp_in.c:339-379 | in every state the application has a gap-free beginning of the stream, the refused octets come next, and the end of file came at most once, after the last octet |
| TcpPcb.Pcb.UpdateAnnWnd | Source/LwIP/src/core/tcp.c:578-601 | announced edge <= rcv_nxt + rcv_ann_wnd <= right edge; the assertion on 16 bits holds; the result is the gain over the announced edge, exactly when an update is due |
| TcpPcb.Pcb.Recved | Source/LwIP/src/core/tcp.c:610-638 | what is returned is added to the window up to TCP_WND, the right edge does not move left, the invariant is kept |
| TcpPcb.Pcb.Announce | Source/LwIP/src/core/tcp_out.c:112 | an announcement moves the announced edge right, not past the actual edge |
| TcpPcb.FrontTrimTest | Source/LwIP/src/core/tcp_in.c:1153 | the test holds exactly if rcv_nxt lies inside the segment, with one false positive half the space away |
| TcpPcb.FrontTrim | Source/LwIP/src/core/tcp_in.c:1153-1200 | the segment starts at rcv_nxt without the octets received before, or is untouched, exactly as its place asks, if and only if it is not the octet half the space away |
| TcpPcb.WindowTest | Source/LwIP/src/core/tcp_in.c:1214-1217 | window test and equality together accept exactly a segment at rcv_nxt with an open window |
| TcpPcb.TrimsAreCut | Source/LwIP/src/core/tcp_in.c:1221-1248 | front trim and window trim, FIN first, give the cut of the window specification |
| TcpPcb.Pcb.ReceiveText | Source/LwIP/src/core/tcp_in.c:1120-1322 | the whole text section computes the cut of any segment at its place, moves rcv_nxt and rcv_wnd by it and keeps the window invariant |
| TcpPcb.Pcb.Receive | Source/LwIP/src/core/tcp_in.c:847-1531 | as ReceiveText in the states that take text, nothing in others; the stream invariant with the text under way |
| TcpPcb.Pcb.EnterTimeWait | Source/LwIP/src/core/tcp.c:1469-1531 | the purge before TIME_WAIT loses data exactly if some was refused |
| TcpPcb.Pcb.Free | Source/LwIP/src/core/tcp.c:1469-1531 | the end of a connection loses nothing exactly if nothing was lost before, nothing was refused and no text is under way |
| TcpPcb.Pcb.ProcessSynchronized | Source/LwIP/src/core/tcp_in.c:732-788 | the transitions of section 3.9 of RFC 793 from ESTABLISHED on, with the text taken on the way, and what the end in LAST_ACK loses; the state stays true to what became of both FINs |
| TcpPcb.TransitionsTellTheTruth | Source/LwIP/src/core/tcp_in.c:626-790 | in every state it is right whether our SYN was acknowledged, our FIN queued, before or after the peer's was taken, and answered, and whether the peer's was taken; TIME_WAIT comes after both |
| TcpPcb.Pcb.Accept | Source/LwIP/src/core/tcp_in.c:683-731 | SYN_RCVD: the accept callback, then text of the same segment |
| TcpPcb.Pcb.Process | Source/LwIP/src/core/tcp_in.c:575-791 | every state: which segments end the connection, which are ignored, the next state, the text taken; the state stays true to what became of both FINs |
| TcpPcb.Pcb.ResetExact | Source/LwIP/src/core/tcp_in.c:584-601 | a reset ends a synchronized connection exactly if its place is at or inside the receive window |
| TcpPcb.Pcb.RefusedExact | Source/LwIP/src/core/tcp_in.c:584-601 | a reset refuses a connection that is being opened exactly if its acknowledgement number is that of our SYN |
| TcpPcb.Pcb.OpensExact | Source/LwIP/src/core/tcp_in.c:628-686 | a segment opens the connection exactly if it acknowledges our SYN, and such a one is ignored only if it is a reset |
| TcpPcb.Pcb.ProcessRefused | Source/LwIP/src/core/tcp.c:1083-1119 | refused data is accepted once, kept, or the connection ends; a FIN parked on it is signalled then |
| TcpPcb.Pcb.SignalFin | Source/LwIP/src/core/tcp_in.c:362-379 | the end of file is signalled once and the window corrected for its position |
| TcpPcb.Pcb.FastTimer | Source/LwIP/src/core/tcp.c:1045-1079 | the timer's offer of refused data keeps the order of delivery, and is not made in TIME_WAIT; when the connection survives, what is delivered, signalled, still refused and lost |
| TcpPcb.Pcb.Expire | Source/LwIP/src/core/tcp.c:1001-1035 | the end of TIME_WAIT loses, and leaks, refused data exactly if there is some |
| TcpPcb.NobodyIsTold | Source/LwIP/src/core/tcp.c:1047-1080 | over any segments, ticks and returned window a block in TIME_WAIT gives the application nothing more; what was refused is leaked |
| TcpPcb.Pcb.Deliver | Source/LwIP/src/core/tcp_in.c:316-379 | text goes to the application, or is refused and kept, or ends the connection; then the end of file; exactly when the connection survives |
| TcpPcb.Pcb.Input | Source/LwIP/src/core/tcp_in.c:262-402 | any segment in any state, with any answers of the application, keeps in-order delivery and both window edges; says exactly whether the connection lives on, what is received, delivered, signalled, still refused and lost, the window, the next state, also from SYN_SENT, and whether it ends without the error callback; the state stays true to what became of both FINs |
| TcpPcb.Pcb.InputRefused | Source/LwIP/src/core/tcp_in.c:293-302 | the same while older data is refused: a segment with text is dropped, or follows that data |
| TcpPcb.ComesNext | Source/LwIP/src/core/tcp_in.c:262-402 | the next segment in order is taken as far as the window reaches once nothing older is refused, and its text reaches an application that reads on at once |
| TcpPcb.LeaveFinWait1 | Source/LwIP/src/core/tcp_in.c:739-757 | on leaving FIN_WAIT_1 our FIN is acknowledged exactly if it had been sent, and TIME_WAIT means that the peer's was taken |
| TcpPcb.FinNeverSent | Source/LwIP/src/core/tcp_in.c:739-768 | a run into TIME_WAIT in which our FIN was queued and never sent |
| TcpPcb.QuietEnds | Source/LwIP/src/core/tcp_in.c:316-326 | an end without the error callback happens exactly in TIME_WAIT, and in LAST_ACK with the receive side shut |
| TcpPcb.Pcb.CloseShutdown | Source/LwIP/src/core/tcp.c:169-272 | what closing does in each state, when it fails, that it loses refused data only with a reset, and resets instead of sending a FIN exactly if something is unread; the state stays true to what became of both FINs |
| TcpPcb.Pcb.Close | Source/LwIP/src/core/tcp.c:284-298 | no more is received; unread data is answered with a reset; the same outcomes otherwise |
| TcpPcb.Pcb.Shutdown | Source/LwIP/src/core/tcp.c:312-345 | a listening block answers an error; closing the receive side throws refused data away, closing both is tcp_close, closing the sending side alone loses nothing and fails in exactly the stated states |
| TcpPcb.Pcb.Sent | Source/LwIP/src/core/tcp_out.c:993-996 | snd_nxt becomes the end of the segment unless that is a repetition, and never moves back; our FIN is out once it was in one |
| TcpTimers.FastReturns | Source/LwIP/src/core/tcp.c:1046-1081 | for every list and any callbacks the fast timer returns if and only if no pass comes to a block that carries the tick, and otherwise stays at such a block |
| TcpTimers.SpinsForever | Source/LwIP/src/core/tcp.c:1054-1080 | from such a block the loop never goes on |
| TcpTimers.UnchangedReturns | Source/LwIP/src/core/tcp.c:1046-1081 | without a change it returns exactly if no block carries the tick |
| TcpTimers.RestartReturns | Source/LwIP/src/core/tcp.c:1068-1076 | with one change it returns exactly if all blocks served are closed and none opened or not yet served carries the tick |
| TcpTimers.StaleStampSpins | Source/LwIP/src/core/tcp.c:1328 | a block active again 255 ticks after its allocation makes the next fast timer loop, with no callback |
| TcpTimers.OpeningSpins | Source/LwIP/src/core/tcp.c:1068-1076 | a callback that opens, last, a block allocated in this tick leaves the fast timer looping, whatever follows |
| TcpTimers.OpeningReturns | Source/LwIP/src/core/tcp.c:1068-1076 | one that closes its own connection and opens an older block does not |
| TcpTimers.SlowStepExact | Source/LwIP/src/core/tcp.c:806-990 | for every list a removal drops exactly the blocks skipped since prev; the list is right exactly if nothing is removed or the callback closes all of those |
| TcpTimers.SlowReturns | Source/LwIP/src/core/tcp.c:799-990 | for every list and any callbacks the slow timer returns; each active block was then served, or carried the tick when it was listed |
| TcpTimers.SlowKeeps | Source/LwIP/src/core/tcp.c:799-990 | for every list, without changes: the blocks that do not carry the tick are served, once and in order, and a block stays exactly if the next one served from it on is not removed |
| TcpTimers.SlowKeepsExact | Source/LwIP/src/core/tcp.c:806-960 | nothing else is dropped exactly if no block that carries the tick stands in front of a removed one |
| TcpTimers.StaleBlocksDropped | Source/LwIP/src/core/tcp.c:812-816 | two lists that lose such a block without any callback |
| TcpTimers.SlowLosesBlocks | Source/LwIP/src/core/tcp.c:812-816 | a concrete walk that drops two connections |
| TcpTimers.Active.FastTmr | Source/LwIP/src/core/tcp.c:1046-1081 | the loop with its restart refines the walk and says whether it returns |
| TcpTimers.Active.SlowTmr | Source/LwIP/src/core/tcp.c:789-990 | the loop with prev and its restart refines the walk and always returns |
| Select.StepInv | Source/LwIP/src/api/sockets.c:1087-1360 | every atomic step of any thread or callback keeps links, counters, semaphores and no-lost-event |
| Select.NoLostWakeup | Source/LwIP/src/api/sockets.c:1135-1181 | after any interleaving, a task that sleeps unsignalled while a socket it watches has a matching event is on the way of a running callback |
| Select.EventWakes | Source/LwIP/src/api/sockets.c:1286-1357 | when data, room or an error comes, every task that sleeps for it is signalled or on the way of a running callback |
| Select.FieldsCountEvents | Source/LwIP/src/api/sockets.c:1286-1306 | over every run rcvevent is what came less what was taken, sendevent what the last event about writing said, and an error stays |
| Select.SignalsForEvents | Source/LwIP/src/api/sockets.c:1321-1350 | a task is signalled only by a callback for a socket with an event that it watches |
| Select.FindsOnlyEvents | Source/LwIP/src/api/sockets.c:1041-1073 | a scan finds something only at a watched socket with an event or kept data |
| Select.LeavesFor | Source/LwIP/src/api/sockets.c:1164-1222 | over every run a task sleeps only if it found nothing, and has left the sleep with an event found, a signal or a timeout; after a timeout it does not scan again |
| Select.VisitsOnlyListed | Source/LwIP/src/api/sockets.c:1196-1211 | callbacks only visit listed entries with live semaphores, and signal each at most once |
| Select.NextEntry | Source/LwIP/src/api/sockets.c:1320-1357 | the restart on select_cb_ctr leaves no unvisited entry out |
| Select.Delivered | Source/LwIP/src/api/sockets.c:1320-1357 | a callback left alone signals the waiter within as many sections as there are entries |
| Select.Nearer | Source/LwIP/src/api/sockets.c:1320-1357 | each section signals the waiter or comes nearer to its entry |
| Select.WaitingNonNegative | Source/LwIP/src/api/sockets.c:1183-1194 | select_waiting is never negative and is positive while a thread waits |
| Select.PointersValid | Source/LwIP/src/api/sockets.c:1196-1211 | every pointer of the list that a step follows is an entry |
| AcceptHandover.NoEventLost | Source/LwIP/src/api/sockets.c:376-393 | after the hand-over the socket is the one allocated and its counter is the events counted less those taken, exactly while 16 bits hold it |
| AcceptHandover.StepInv | Source/LwIP/src/api/sockets.c:1255-1277 | each step keeps every counted event in the socket number or in the counter |
| Netconn.BlockingWrite | Source/LwIP/src/api/api_msg.c:1207-1333 | over any answers of the stack a blocking write ends ERR_OK exactly when all is queued; it ends within one useful round for each octet |
| Netconn.ChunkIsSmallest | Source/LwIP/src/api/api_msg.c:1243-1270 | a round queues nothing, or the smallest of what is left, the room in the send buffer and 16 bits |
| Netconn.RoundAnswers | Source/LwIP/src/api/api_msg.c:1252-1330 | a non-blocking round always answers, with what the stack took or the error; a blocking one waits exactly while something is left and the stack has not failed for good |
| Netconn.AnswerCounts | Source/LwIP/src/api/api_msg.c:1289-1320 | the reported length is the number queued exactly if nothing was queued before or the stack took the chunk it was given |
| Netconn.ShutNeverCompletes | Source/LwIP/src/core/tcp.c:312-345 | over every sequence of retries and transitions a shutdown fails for ever exactly if it is of the sending side alone and the connection can neither send nor is connecting at the call, or of the receiving side of a listening block |
| Netconn.ShutPcb | Source/LwIP/src/core/tcp.c:284-345 | the results used for the netconn are those of tcp_close and tcp_shutdown of the control block model |
| Netconn.Netconn.SendChunk | Source/LwIP/src/api/api_msg.c:1248-1285 | the chunk given to tcp_write continues the buffer, cut to 65535 and to the send buffer |
| Netconn.Netconn.DoWritemore | Source/LwIP/src/api/api_msg.c:1207-1333 | queued octets are the next ones of the buffer, their concatenation its beginning; the message waits or is answered once |
| Netconn.Netconn.DoWrite | Source/LwIP/src/api/api_msg.c:1342-1389 | every error path, also of the first round; otherwise the beginning of the buffer is queued, and a non-blocking write reports its length |
| Netconn.Netconn.DoConnect | Source/LwIP/src/api/api_msg.c:984-1031 | the message is kept exactly for a blocking connect that was started; each error |
| Netconn.Netconn.DoConnected | Source/LwIP/src/api/api_msg.c:936-974 | a blocking connect is answered once, a non-blocking one without a signal |
| Netconn.Netconn.DoListen | Source/LwIP/src/api/api_msg.c:1064-1110 | always answered at once, with each error; listening exactly if it succeeds |
| Netconn.Netconn.DoCloseInternal | Source/LwIP/src/api/api_msg.c:746-822 | completes, answers and drops the pcb exactly when the stack's call succeeds; otherwise all is as before |
| Netconn.Netconn.DoClose | Source/LwIP/src/api/api_msg.c:1450-1482 | each error, completion with the pcb dropped, or the message kept for a retry, exactly by state and side |
| Netconn.Netconn.DoDelconn | Source/LwIP/src/api/api_msg.c:831-888 | keeps the accounting of messages exactly if no blocking connect is in progress |
| Netconn.Netconn.Resume | Source/LwIP/src/api/api_msg.c:276-333 | sent_tcp and poll_tcp continue a write or a close; exactly when either ends; an ended write reports what it queued, with the exact exception |
| Netconn.Netconn.ErrTcp | Source/LwIP/src/api/api_msg.c:346-404 | a waiting message is answered once with the error, the pcb is dropped |
| Netconn.Serve | Source/LwIP/src/api/api_msg.c:346-404 | every event keeps each posted message stored and unsignalled, or signalled exactly once |
| Netconn.Run | Source/LwIP/src/api/api_msg.c:1207-1389 | the same over every run of calls, callbacks and failures; signals equal answered messages; a pointer is left behind only in the stated states |
| Netconn.ShutdownRun | Source/LwIP/src/api/api_msg.c:746-822 | a shutdown that cannot complete stays pending through every run without a failure of the connection; any other is answered at once when the stack can send the FIN |
| Netconn.Netconn.Vanishes | Source/LwIP/src/core/tcp.c:1016-1031 | the stack frees the block and the netconn keeps its pointer, only after a shutdown of the sending side |
| Netconn.PointerLeftBehind | Source/LwIP/src/api/api_msg.c:1450-1482 | a run after which closing the netconn uses a freed block |
| Netconn.StrandedRun | Source/LwIP/src/api/api_msg.c:746-822 | a call that waits when the block vanishes stays pending over every run |
| MemHeap.DemandHolds | Source/LwIP/src/core/mem.c:503-515 | the rounded size holds the request exactly up to 65532 bytes, by less than a word more or as the minimum |
| MemHeap.AllocsDisjoint | Source/LwIP/src/core/mem.c:492-632 | live allocations are disjoint, large enough and contain no header |
| MemHeap.NoneFitsFrom | Source/LwIP/src/core/mem.c:531-533 | stopping the scan at MEM_SIZE_ALIGNED - size misses nothing |
| MemHeap.Heap.constructor | Source/LwIP/src/core/mem.c:272-303 | mem_init makes one free block |
| MemHeap.Heap.PlugHoles | Source/LwIP/src/core/mem.c:234-267 | merging with both neighbours restores coalescing and touches no allocation |
| MemHeap.Heap.Free | Source/LwIP/src/core/mem.c:309-355 | exactly this allocation ends, the rest keeps its data, the heap stays well formed, lfree is lowest |
| MemHeap.Heap.Malloc | Source/LwIP/src/core/mem.c:492-632 | fails exactly for size 0 or when every free block is too small; otherwise the first fit from lfree, less than a header and a minimal block larger than asked for, with the rest of the block free; disjoint from all others, which keep their data |
| MemHeap.Heap.Trim | Source/LwIP/src/core/mem.c:367-481 | shrinks in place, with the same bound on what is kept; the rest becomes free or joins the free neighbour, the kept data is unchanged |
| MemHeap.Heap.Store | Source/LwIP/src/core/mem.c:492-632 | writing inside a live allocation harms no header and no other allocation |
| MemHeap.Heap.NothingLeaks | Source/LwIP/src/core/mem.c:234-267 | when everything is freed, in any order, one free block is left |
| DynMem.DemandCovers | Source/Ports/Cortex-M3/os_dmem.c:169-178 | the rounded size covers the request and the minimum, by less than a unit, exactly if the rounding does not wrap |
| DynMem.Pool.constructor | Source/Ports/Cortex-M3/os_dmem.c:27-91 | a well-formed ring of one free block and the trailer |
| DynMem.Pool.Search | Source/Ports/Cortex-M3/os_dmem.c:183-212 | one lap from the search pointer ends and finds the first block that fits, or none does |
| DynMem.Pool.GetMem | Source/Ports/Cortex-M3/os_dmem.c:147-264 | full exactly if every free block is too small; otherwise the only new allocation is the granted one, at least the request and the minimum, with bounded slack; a request that wraps takes what the search pointer is at |
| DynMem.WrapTakesLive | Source/Ports/Cortex-M3/os_dmem.c:186-255 | what a request that wraps gets was live already exactly if the search pointer is at a block in use |
| DynMem.AllocatedAllocs | Source/Ports/Cortex-M3/os_dmem.c:215-240 | an allocation was not live before and changes no other |
| DynMem.Pool.FreeMem | Source/Ports/Cortex-M3/os_dmem.c:273-345 | exactly this allocation ends; ring, coalescing, counter and search pointer stay right through both merges |
| DynMem.FreedCoalesced | Source/Ports/Cortex-M3/os_dmem.c:306-340 | merging with both neighbours leaves no two free ones side by side |
| DynMem.Pool.NothingLeaks | Source/Ports/Cortex-M3/os_dmem.c:297-340 | when everything is freed, in any order, one free block of pool size less two headers is left and counted |
| Pbufs.TotCounts | Source/LwIP/src/core/pbuf.c:429-487 | tot_len is the number of octets from the pbuf to the end of its chain |
| Pbufs.PbufHeap.Alloc | Source/LwIP/src/core/pbuf.c:287-345 | a new single pbuf with one reference, all others as before |
| Pbufs.PbufHeap.Ref | Source/LwIP/src/core/pbuf.c:721-732 | one more handle; counts stay right exactly below 65535 |
| Pbufs.PbufHeap.Free | Source/LwIP/src/core/pbuf.c:617-693 | deallocates exactly the leading pbufs that lose their last reference, counts them in 8 bits, and keeps every survivor's contents |
| Pbufs.PbufHeap.Release | Source/LwIP/src/core/pbuf.c:617-693 | the same for the holder of a handle; references stay equal to handles plus links |
| Pbufs.PbufHeap.Cat | Source/LwIP/src/core/pbuf.c:743-766 | every chain that ends with the last pbuf of the head is continued by the tail, all others read as before, and the handle on the tail becomes a link; when all totals are right afterwards |
| Pbufs.CatTotalsExact | Source/LwIP/src/core/pbuf.c:752-761 | all totals are right afterwards exactly if no other chain continues into the head or the tail is empty, and the sum fits 16 bits |
| Pbufs.PbufHeap.Chain | Source/LwIP/src/core/pbuf.c:784-791 | as Cat, the caller keeps its handle; counts stay right exactly below 65535 |
| Pbufs.PbufHeap.Dechain | Source/LwIP/src/core/pbuf.c:801-830 | the head stands alone, also when it is inside other chains, which end there; exactly what is deallocated, what is returned and when totals are right |
| Pbufs.PbufHeap.Realloc | Source/LwIP/src/core/pbuf.c:428-487 | the chain becomes a prefix of its contents, chains that share the cut pbuf lose the same octets, others none; exactly what is deallocated and when totals are right |
| PbufData.CopyPartial | Source/LwIP/src/core/pbuf.c:916-952 | returns the part of the contents from the offset on, for every segmentation |
| PbufData.Take | Source/LwIP/src/core/pbuf.c:964-994 | the first octets become the given ones, the rest stays; too much is refused without change |
| PbufData.RoundTrip | Source/LwIP/src/core/pbuf.c:916-994 | what was taken is read back from any offset |
| PbufData.Copy | Source/LwIP/src/core/pbuf.c:850-904 | terminates and changes only octets of the target; success means the source, if it shares no pbuf, is a prefix of the target, whose rest stays; chains without empty pbufs always succeed |
| PbufData.FrontTrim | Source/LwIP/src/core/tcp_in.c:1172-1199 | drops exactly the first octets of the chain; totals are right exactly if other chains continue into it behind them |
| Timers.InsertedOrdered | Source/LwIP/src/core/timers.c:286-307 | inserting keeps the queue ordered by deadline and then by age |
| Timers.InsertedBehindEqual | Source/LwIP/src/core/timers.c:286-307 | a new timeout goes behind exactly the deadlines that are not later than its own |
| Timers.Timeouts.SysTimeout | Source/LwIP/src/core/timers.c:265-308 | the delta list refines insertion behind equal deadlines; no other deadline moves, nothing underflows |
| Timers.Timeouts.SysUntimeout | Source/LwIP/src/core/timers.c:320-347 | the first match is cancelled, all other deadlines stay, nothing overflows |
| Timers.RemovedAt | Source/LwIP/src/core/timers.c:320-347 | of all timeouts with this handler and argument exactly the first goes |
| Timers.Timeouts.Handle | Source/LwIP/src/core/timers.c:430-459 | a handler may arm and cancel at will |
| Timers.Timeouts.Fire | Source/LwIP/src/core/timers.c:438-463 | the earliest handler runs, exactly when its waiting time has been accounted |
| Timers.Timeouts.MboxFetch | Source/LwIP/src/core/timers.c:422-476 | handlers run in order of deadline; each timeout armed is pending, has run or was cancelled, once; a handler runs exactly where no message came before its deadline, a message is got exactly where one came, and how far the accounted time has moved |
| DhcpServer.ServedInv | Source/App/DhcpServer/dhcp_server.c:204-437 | a message leaves a client at most one entry, no entry in SELECT, other clients' entries untouched |
| DhcpServer.NoDoubleLease | Source/App/DhcpServer/dhcp_server.c:594-649 | an address offered or acknowledged was idle or the client's own, and is the client's afterwards for the full timeout or lease |
| DhcpServer.RefusedWhenFull | Source/App/DhcpServer/dhcp_server.c:268-318 | a discover is refused exactly if all addresses are in other clients' hands |
| DhcpServer.RequestRefused | Source/App/DhcpServer/dhcp_server.c:330-396 | a request is refused exactly if it names another server, its address is in another client's hands, or no idle entry has it and the client holds none |
| DhcpServer.RequestGranted | Source/App/DhcpServer/dhcp_server.c:330-396 | any other is acknowledged with the address asked for if that is idle, else with the client's own; with the one asked for exactly if the table has it |
| DhcpServer.Renewal | Source/App/DhcpServer/dhcp_server.c:330-396 | a client that asks for the address it holds has its full lease afterwards |
| DhcpServer.Handshake | Source/App/DhcpServer/dhcp_server.c:669-724 | a discover and a request of the offered address end in its acknowledgement and lease, whatever others do in between within the timeout |
| DhcpServer.DiscoverPriority | Source/App/DhcpServer/dhcp_server.c:270-328 | a discover is offered the first entry of the highest priority there is |
| DhcpServer.GivesBack | Source/App/DhcpServer/dhcp_server.c:398-424 | a release or a decline makes the client's entry idle, with the client as its history exactly if it was leased, and nothing else changes |
| DhcpServer.HistoriesKept | Source/App/DhcpServer/dhcp_server.c:594-649 | a message leaves other idle entries alone, and after an acknowledgement the client is nobody's history |
| DhcpServer.RunInv | Source/App/DhcpServer/dhcp_server.c:743-779 | over every run of messages, ticks and deletions no two clients share an address and none has two |
| DhcpServer.LeaseHolds | Source/App/DhcpServer/dhcp_server.c:106-147 | a bound client keeps its address through any run of others' messages and deletions until its lease has run out in ticks; then the entry is idle and remembers the client |
| DhcpServer.LeaseEnds | Source/App/DhcpServer/dhcp_server.c:106-147 | a lease ends at once when the station has left or is deleted, and the entry remembers the client; other entries and negotiations are not deleted |
| DhcpServer.NegotiationEnds | Source/App/DhcpServer/dhcp_server.c:117-126 | an offer is kept for its client through any such run and is idle and nobody's after exactly its timeout of ticks |
| DhcpServer.RestartKeepsHistory | Source/App/DhcpServer/dhcp_server.c:268-290 | a bound client that restarts keeps its entry if and only if no idle entry has the address it asks for |
| DhcpServer.RestartLosesHistory | Source/App/DhcpServer/dhcp_server.c:268-290 | a concrete table and request for which it does not |
| DhcpServer.PoolDistinct | Source/App/DhcpServer/dhcp_server.c:809-844 | the eight addresses differ exactly if the pool does not wrap |
| DhcpServer.ServerOutside | Source/App/DhcpServer/dhcp_server.c:809-844 | the server's own address is not in the pool exactly if the subnet is large enough |
| DhcpServer.StartsDistinct | Source/App/DhcpServer/dhcp_server.c:809-844 | the table of a fresh server satisfies the invariants of the runs, with different addresses under the same condition |
| DhcpServer.Server.constructor | Source/App/DhcpServer/dhcp_server.c:796-845 | the initial table and its addresses |
| DhcpServer.Server.Stop | Source/App/DhcpServer/dhcp_server.c:881-892 | a stopped server is off and its table is cleared |
| DhcpServer.Server.Lookup | Source/App/DhcpServer/dhcp_server.c:204-437 | the scan and the four priorities give the specified entry and table |
| DhcpServer.Server.ClientSme | Source/App/DhcpServer/dhcp_server.c:610-649 | the fall-through state machine never leaves SELECT behind, and cleans the client's history on an ACK |
| DhcpServer.Server.RecvCb | Source/App/DhcpServer/dhcp_server.c:669-724 | answer and table of a whole message, other clients untouched |
| DhcpServer.Server.Tick | Source/App/DhcpServer/dhcp_server.c:106-147 | timeouts, leases and departed stations |
| DhcpServer.Server.ClientDelete | Source/App/DhcpServer/dhcp_server.c:743-779 | each result, also for a stopped server and a null address, and when it is given |
| Recvfrom.Socket.Recvfrom | Source/LwIP/src/api/sockets.c:556-737 | successive reads return consecutive pieces, nothing lost or repeated; credit is octets read plus octets peeked at; without octets 0 means that the peer closed, -1 an error or that nothing is pending; when a call ends early or waits on |
| Recvfrom.Socket.CopyOut | Source/LwIP/src/api/sockets.c:620-727 | lastdata from lastoffset on is exactly the unread rest |
| NewPort.Ports.NewPort | Source/LwIP/src/core/tcp.c:645-668 | terminates; the first unused port in cyclic order, 0 exactly if all 16384 are used |

## Left out

- Out-of-order queueing, options, congestion control, round-trip times, retransmission and everything else on the sending side of TCP: the receive side needs only snd_nxt and lastack.
- TcpPcb.Pcb.FromPeer: a peer's segments are slices of one stream less than 2^31 from rcv_nxt; a peer that contradicts itself is not covered.
- TcpPcb.Pcb.Input: callbacks may accept, refuse, abort and return window, but do not close the connection from inside; whether the sent callback aborts is a choice of the environment; delayed-ack flags are not modelled.
- TcpPcb.Pcb.FastTimer: one control block, without delayed acknowledgements, which do not touch the receive side; the walk over all of them is in TcpTimers, which leaves out what serving a block does.
- Select.StepInv: sections between SYS_ARCH_PROTECT and SYS_ARCH_UNPROTECT are atomic, although the port's lwipopts.h switches the protection off; sockets stay open during a select; counters are unbounded.
- Netconn.Netconn.Resume: the events raised to the socket layer, and with them the check-writespace flag, are not modelled.
- Netconn.Netconn.DoWritemore: send timeouts and core locking are compiled out.
- Netconn.Netconn.Moves: UDP and RAW netconns, binding, names and addresses are left out.
- Netconn.Run: nothing is said of a call that uses a block the stack has freed; a run goes on without it.
- Recvfrom.Socket.Recvfrom: UDP sockets and the sender's address are left out; netconn_set_noautorecved is on, as sockets set it.
- MemHeap.Heap.Malloc: the heap is in 4-byte words with MEM_ALIGNMENT 4; statistics, overflow checks and the mutex are left out; the field prev of the end sentinel is not maintained by the code and not specified.
- DynMem.Pool.GetMem: min_allocation is positive.
- Pbufs.PbufHeap.Alloc: PBUF_POOL chains, custom pbufs, header reservation and payload alignment are left out; the allocator's address is a parameter.
- Pbufs.PbufHeap.Realloc: the link is cleared before the rest is freed instead of after; pbuf_free does not look at it. The memory given back by mem_trim is in the heap model.
- PbufData.FrontTrim: pbuf_header with a negative argument only.
- TcpTimers.FastReturns: finitely many changes by callbacks; a block that was opened has no refused data to call back for.
- Timers.Timeouts.MboxFetch: the mailbox wait is an environment that reports how long it took; how the port measures that is not modelled, and sys_check_timeouts is compiled out.
- DhcpServer.Server.RecvCb: parsing and building packets and the socket; clients have non-zero hardware addresses.
- DhcpServer.Server.constructor: a host mask of 0, by which DHCPS_Start divides.
- Drivers, the operating system port, DNS, the DHCP client, netbufs, memory pools and the thin application wrappers.
