# A verified model of the gateway

The gateway ("wangzha") tunnels TCP and UDP streams over UDP and adds its own reliability, its own
hand-off between threads, and masking of media streams. This project models the parts of it whose
correctness is hard to see from any one function, and proves what they promise: over every run, every
interleaving and every input, as far as the code keeps it. Nothing was executed; everything below is a
statement that Dafny's verifier proves.

| module | what it models |
|---|---|
| `Ring` | the ring of blocks under every queue (`sgg_stack.cpp`) |
| `Bitmap` | the bit array of the reassembler (`sgg_bitmap.cpp`) |
| `Sender` | the window of unacknowledged packets (`UdpFlowControl`, `udp_socket.cpp`) |
| `Reassembly`, `Receiver` | the reassembler: first as functions on the packets held by residue, then as the loops over `waiting`, `bit`, `lenMap` and the block buffer, proved equal to the functions |
| `Tunnel`, `TunnelProgress` | sender, network and receiver of one stream as a step system: what its runs keep, and what they can reach |
| `Streams` | many streams through one receiver, each in the slot of its packet flag |
| `HandOff`, `HandOffRuns`, `HandOffProgress`, `HandOffRings`, `Connection` | the two queues between a writer and a reader thread: the protocol, what its runs keep, what they can reach, and the rings behind the queues; the two directions of a TCP connection |
| `ThreadPool` | the task queue, the growth loop, and the pool as a monitor with named workers and producers |
| `Masking` | the white frames and the audit map (`sgg_audit.cpp`) |
| `JsonString`, `Json`, `JsonGrammar`, `JsonRoundTrip`, `JsonParser`, `JsonJoin`, `JsonBuffer`, `PowerOfTwo` | cJSON: strings and UTF-8, values, the texts of RFC 8259 and what they stand for, the round trip, the parser's loops, the two printers, and the growth of the print buffer |
| `Arithmetic`, `BitOps`, `Sequences` | facts about division, about C's bit operations on numbers, and about concatenation |

Algorithms that work in place are methods over arrays and fields, each proved against a function of
the old state; threads and the network are step systems whose steps interleave freely. `dafny verify
dfyconfig.toml` checks the whole project.

## Assumptions about the environment

The tunnel compares offsets modulo 100 with a window of 100. What it delivers is right only under
hypotheses on the network and on the length of a stream, and they are stated where they are used:

* no packet arrives that is below the receiver's window (`Tunnel.Enabled`, `Reassembly.LegalEvent`);
  that arrivals lie below the window's upper end is proved, not assumed;
* acknowledgements may be lost, but are neither reordered nor doubled; data packets may be lost, and
  in the window doubled and reordered;
* one stream has fewer than 2^32 packets, numbered consecutively, as the TCP ingress numbers them
  (`tcp_socket.cpp:240-245`), also when the window is full and a packet has to be tried again. No send
  fails otherwise, and the peer does not fall silent: in those cases the source drops the packet and
  closes the flow (`tcp_socket.cpp:493-499`), which leaves a gap in the numbers;
* the condition variables of the hand-off do not wake up by themselves (its wait has no loop); those
  of the thread pool may;
* memory is always available. The reassembler ignores a failed send, except in one place, which is
  modelled (`Reassembly.StepBack`).

## What turned out not to hold

Each of these comes with the exact condition under which the code does what it should, and with an
input or a run on which it does not.

* A packet from below the window is always taken for a later one, and the receiver is wrong from then
  on. `Reassembly.StalePacketCorrupts`: for payloads that all differ, the receiver stays right if and
  only if `n <= offset`. `Reassembly.StaleCopyExample`: after a window has been delivered, a copy of
  packet 0 is sent on in the place of packet 100.
* A request for retransmission (`udp_socket.cpp:1656-1690`) also lists the residues of packets that
  have not been sent yet. The sender answers with a packet delivered long ago if its acknowledgement
  is outstanding. `Tunnel.AnswersAreUseful`: all answers to a request are of use if and only if no
  acknowledgement is outstanding or nothing is held, so that nothing is requested.
  `Tunnel.StaleAnswerIsReachable` is a run that ends in such an answer, and the answer corrupts.
* A stale acknowledgement throws away packets that were never delivered.
  `Sender.CumulativeAckIsExact`: an acknowledgement removes just what it should if and only if it is
  not stale or no cached packet has its residue. `Sender.StaleAckExample`: a second acknowledgement
  of packet 0 empties a cache that holds packets 1 to 100.
* An acknowledgement is sent once, and nothing makes the receiver repeat it. So when all those of a full
  window are lost, the stream is stuck: `TunnelProgress.CanSendUnlessStuck` is the exact condition, and
  `TunnelProgress.StuckIsReachable` a run. Delivery is never lost that way
  (`TunnelProgress.AllCanBeDelivered`).
* No socket is released because its stream has ended. The end marker carries MAGIC_WORD_BANK
  (`tcp_socket.cpp:544`), and the receiver drops every packet without MAGIC_WORD_MAIN
  (`udp_socket.cpp:1208-1213`) in front of the branches that handle the marker (1282-1311) and what
  follows it (1419-1442). `Reassembly.NeverReleased`: whatever arrives, with the heartbeat on or off, no
  slot is ever waiting for the rest of an ended stream and no socket is released; a socket is closed by
  the idle timeout alone (1740-1777). So the socket is released exactly when the stream is over if and
  only if the stream is not over (`Reassembly.StreamIsDelivered`, `Tunnel.TunnelIsSafe`).
  `Reassembly.MarkerIsDropped` is the failing step, for every stream, and
  `Tunnel.MissedReleaseIsReachable` a run: a packet is delivered and acknowledged, the marker arrives,
  and the socket stays open.
* If that filter were not there, the marker would be judged by its residue alone.
  `Reassembly.MarkerIsExact`: rightly if and only if no whole number of windows is missing, that is, in
  the tunnel (`Tunnel.MarkerIsJudged`), if and only if not exactly 100 packets are.
  `Reassembly.EarlyMarkerExample`: with a hundred late packets it would release the socket at once.
* Streams share one receiver without mixing (`Streams.StreamsDoNotMix`) only as long as none is evicted,
  and since no slot is given back at the end of a stream, that is so, as long as no idle timeout strikes,
  if and only if all streams together are no more than the slots: `Streams.FitsIsExact`.
  `Streams.EvictedStreamStops`: with the heartbeat on, a stream that has been evicted no longer gets its
  next packet through, unless it waits for residue 0.
* A JSON string is decoded into the space that a first loop has counted. A `\u` escape skips four
  characters, whatever they are, so it can take the closing quote in, or leave a backslash that does.
  `JsonString.OverrunIsExact`: the string does not fit if and only if the quote is swallowed and what
  lies behind decodes to more bytes than are left; with four digits in every escape it never is
  (`JsonString.CompleteSwallowsNothing`). `JsonString.OverrunExample` is a text that does not fit.
* Intervals of 1..255 KB between white frames and frames of 1..255 bytes can be configured
  (`sgg_manage.h:212-215`), but both are read as signed characters. With either of them above 127 the
  loop masks nothing, and once entered it asks `bzero` for a negative count. `Masking.SparesIsExact`:
  with a length read as negative it leaves a packet alone if and only if the packet ends at or before
  the start of its period plus the interval less that length; with an interval read as negative, if
  and only if the packet starts below position 2^31 or ends below the frame before the nearest
  multiple of 2^32. `Masking.LongFrameExample` and `Masking.LargeIntervalExample` are packets it does
  not leave alone; the first also shows that how a stream is cut then matters.
  `Masking.OtherwiseNothingChanges` states this over every run. Masking also needs the audit bit.
* Without the heartbeat, a failed send makes the receiver step back by one packet, or, when the flush
  went all the way to the packet that arrived, by two: `Reassembly.StepBackIs`.
* A slot whose thread could not be created is never given to another thread: `ThreadPool.Slots.Grow`.
* `BackPopStack` without a pop before it makes an item of a block that nobody wrote
  (`Ring.UnsoundExample`); the gateway always pops first.

## Model

| member | source | states |
|---|---|---|
| Ring.Stack.constructor | sgg_stack.cpp:10-43 | a new ring is empty and hands out its blocks in order |
| Ring.Stack.IsStackEmpty | sgg_stack.cpp:131-141 | true exactly when no block is filled |
| Ring.Stack.IsStackFull | sgg_stack.cpp:143-153 | true exactly when one block is left, which is never handed out |
| Ring.Stack.PushStack | sgg_stack.cpp:70-88 | hands out the first free block as the newest item, or fails on a full ring and changes nothing |
| Ring.Stack.BackPushStack | sgg_stack.cpp:90-100 | takes back the newest item, in front of the free blocks |
| Ring.Stack.PopStack | sgg_stack.cpp:103-118 | hands out the oldest item, which becomes the last free block |
| Ring.Stack.BackPopStack | sgg_stack.cpp:120-129 | puts the last free block back as the oldest item, unless the ring is full |
| Ring.Stack.GetStackData | sgg_stack.cpp:181-197 | finds the oldest item that matches, or reports that none does |
| Ring.Stack.PopStackEx | sgg_stack.cpp:199-216 | releases everything up to the newest item that matches and nothing else |
| Ring.PushMovesTop | sgg_stack.cpp:84-86 | advancing `top` modulo the size is a push on the abstract FIFO, in every position of the ring |
| Ring.DropMovesBottom | sgg_stack.cpp:115-116 | advancing `buttom` modulo the size releases exactly the oldest items |
| Ring.BackPopMovesBottom | sgg_stack.cpp:124-128 | moving `buttom` back undoes a pop |
| Ring.RingRefinesFifo | sgg_stack.cpp:70-129 | over any run of the four operations: no block lost or doubled, never more than size - 1 items; and as long as every put-back undoes a pop, the items read, then the items stored, are the items written |
| Ring.UnsoundExample | sgg_stack.cpp:120-129 | a put-back without a pop makes an item that nobody wrote |
| Ring.PoppedBlockIsKept | sgg_stack.cpp:70-129 | whatever the writer does, a popped block is not handed out again before the next pop, and undoing the pop restores it unless the ring is full |
| Bitmap.TestAfterPut | sgg_bitmap.cpp:47-68 | writing one bit of a byte changes that bit and no other |
| Bitmap.PutSetsOnePosition | sgg_bitmap.cpp:47-59 | writing a position changes that position and no other, across bytes |
| Bitmap.Bits.constructor | sgg_bitmap.cpp:11-27 | all positions start unset |
| Bitmap.Bits.Set | sgg_bitmap.cpp:47-59 | sets one position; a position out of range changes nothing |
| Bitmap.Bits.Get | sgg_bitmap.cpp:61-68 | reads a position; false out of range |
| Bitmap.Bits.Clear | sgg_bitmap.cpp:70-75 | unsets every position |
| Sender.FlowControl.constructor | udp_socket.cpp:560-589 | a new flow caches nothing in a ring of 101 blocks |
| Sender.FlowControl.Push | udp_socket.cpp:618-663 | appends a packet to the cache while fewer than 100 are unacknowledged; otherwise refuses, with the code for a peer that is alive or silent, and changes nothing |
| Sender.FlowControl.Ack | udp_socket.cpp:728-744 | removes from the cache what the residue scan finds |
| Sender.FlowControl.Resend | udp_socket.cpp:681-702 | finds the first cached packet of the residue asked for |
| Sender.FlowControl.IsAllAcked | udp_socket.cpp:746-760 | true exactly when nothing is cached |
| Sender.OneOfEachResidue | udp_socket.cpp:354-372 | at most 100 consecutive packets hold one packet of a residue at most, and where |
| Sender.CumulativeAckIsExact | udp_socket.cpp:728-744 | an acknowledgement removes all packets up to it and no others, if and only if it is not stale or no cached packet has its residue |
| Sender.StaleAckExample | udp_socket.cpp:728-744 | a stale acknowledgement of packet 0 empties a cache of packets 1 to 100 |
| Sender.FindIsExact | udp_socket.cpp:681-702 | a request by residue finds the one cached packet in question, or none if it is not cached |
| Reassembly.FlushDelivers | udp_socket.cpp:1332-1353 | the flush sends exactly the run of held packets that is next, in order, and ends |
| Reassembly.StoreKeeps | udp_socket.cpp:1411-1418 | keeping a packet of the window disturbs no other held packet |
| Reassembly.ArrivalInWindow | udp_socket.cpp:1313-1418 | heartbeat on: an arrival in the window keeps the invariant, delivers the stream from `n` on, and acknowledges the last packet delivered |
| Reassembly.StalePacketCorrupts | udp_socket.cpp:1313-1418 | for distinct payloads, the receiver stays right if and only if the packet is not from below the window |
| Reassembly.StaleCopyExample | udp_socket.cpp:1313-1353 | after packets 0 to 99 arrived in order, a copy of packet 0 is sent on again |
| Reassembly.PacketKeepsRx | udp_socket.cpp:1313-1442 | an arrival in the window keeps what was sent the prefix of the stream below the first missing offset, and releases nothing |
| Reassembly.EndKeepsRx | udp_socket.cpp:1208-1213 | an end marker, whenever it comes, changes nothing at the receiver |
| Reassembly.StreamIsDelivered | udp_socket.cpp:1208-1443 | over any run with arrivals in the window, and markers at any time, the socket gets 0,1,2,... without gap or repeat; it is released exactly when the stream is over if and only if the stream is not over |
| Reassembly.NeverReleased | udp_socket.cpp:1208-1443 | on any packets whatsoever, with the heartbeat on or off, no slot starts closing and no socket is released |
| Reassembly.MarkerIsDropped | udp_socket.cpp:1208-1213 | the marker of a stream that was delivered in full is dropped; the branch behind the lookup would release the socket |
| Reassembly.OrderDoesNotMatter | udp_socket.cpp:1313-1418 | two runs with the same set of arrivals deliver the same, in whatever order they came |
| Reassembly.MarkerIsExact | udp_socket.cpp:1282-1300 | the branch for the marker, which no packet reaches: it would release rightly if and only if no whole number of windows is missing |
| Reassembly.EarlyMarkerExample | udp_socket.cpp:1282-1300 | the same branch: for 100 packets of which none arrived it would release the socket |
| Reassembly.EndBranch | udp_socket.cpp:1282-1309 | the same branch: inside the window it would release if nothing is missing, and otherwise make the slot wait for the rest |
| Reassembly.ClosingBranch | udp_socket.cpp:1419-1442 | the branch for such a slot, which is not reached either: it would release with the packet that completes the stream and with no other |
| Reassembly.StepBackIs | udp_socket.cpp:1402-1408 | where the receiver waits after a failed send: at the packet that failed, or one before it |
| Reassembly.SkipFindsFirst | udp_socket.cpp:1375-1389 | heartbeat off: the scan stops at the first packet held |
| Reassembly.OffArrival | udp_socket.cpp:1317-1418 | heartbeat off: an arrival in the window delivers a run of the stream from `n` or beyond, and does so exactly in the first and the last place of the window |
| Reassembly.SkippingKeepsOrder | udp_socket.cpp:1317-1418 | heartbeat off, over any run: what is sent are packets that arrived, strictly increasing in offset, and at every point the next arrival in the first or the last place of the window moves `n` and delivers something |
| Receiver.PackQueue.constructor | udp_socket.cpp:102-140 | a new slot waits for residue 0 and holds nothing |
| Receiver.PackQueue.SendRun | udp_socket.cpp:1334-1353 | the flush loop over bits, lengths and blocks sends the run that the specification defines, and ends |
| Receiver.PackQueue.SkipAndSend | udp_socket.cpp:1375-1402 | the loop without heartbeat, with its `continue` and `break`, skips to the first held packet and sends the first run |
| Receiver.PackQueue.ForcedFlush | udp_socket.cpp:1375-1409 | the same with the step back after a failed send |
| Receiver.PackQueue.AcceptPacket | udp_socket.cpp:1313-1418 | the three branches on `waiting`, with their replies and the step back, equal the specification |
| Receiver.PackQueue.ReceiveData | udp_socket.cpp:1313-1442 | a data packet, with the branch for a slot that is closing, equals the specification |
| Receiver.PackQueue.ReceiveEnd | udp_socket.cpp:1282-1311 | the two branches for an end marker, which no packet reaches, equal the specification |
| Receiver.PackQueue.HandlePacket | udp_socket.cpp:1282-1442 | the two branches behind the lookup, by the magic word |
| Receiver.PackQueue.ReceivePacket | udp_socket.cpp:1208-1442 | with the filter in front of them: anything but data changes nothing, and a slot that is not closing is neither closed nor released |
| Receiver.PackQueue.RequestMissing | udp_socket.cpp:1656-1690 | the request starts with the residue waited for, lists every missing residue once and no other, fits the 512-byte buffer, and is sent only when some later packet is held |
| Tunnel.ArrivalsAreInWindow | udp_socket.cpp:618-663 | every arrival that is not stale lies below the receiver's window end, because the sender's window is bounded |
| Tunnel.NewAcks | udp_socket.cpp:1355-1360 | an arrival acknowledges `n - 1` for the new `n`, or nothing |
| Tunnel.AckKeeps | udp_socket.cpp:728-744 | an acknowledgement on its way never discards an undelivered packet |
| Tunnel.MarkerIsJudged | udp_socket.cpp:1282-1311 | in every state of the tunnel, the branch for the marker, which no packet reaches, would judge it rightly if and only if not exactly 100 packets are missing |
| Tunnel.TunnelIsSafe | udp_socket.cpp:618-744 | in every reachable state, whenever the sender ends the stream: `b <= n <= S <= b + 100`, the socket got exactly the first `n` payloads, every undelivered payload is still cached, no slot is closing and the socket is not released; so its release is right if and only if the marker or a packet is still to come |
| Tunnel.MissedReleaseIsReachable | tcp_socket.cpp:525-549 | a run in which the stream is over on both sides, its marker has arrived, and the socket is not released |
| Tunnel.AnswerToRequest | udp_socket.cpp:681-702 | what a request for a missing residue brings back: that packet, nothing, or the packet one window earlier |
| Tunnel.AnswersAreUseful | udp_socket.cpp:1656-1690 | every residue that is requested gets a useful answer or none, if and only if no acknowledgement is outstanding or nothing is held |
| Tunnel.UselessAnswer | udp_socket.cpp:1656-1690 | otherwise the residue of the oldest cached packet is requested, and its answer is of no use |
| Tunnel.StaleAnswerIsReachable | udp_socket.cpp:1656-1690 | a run that ends with a packet delivered before being requested again, found, and, on arrival, taken for another |
| Tunnel.WaitedForIsCached | udp_socket.cpp:1370-1373 | the packet waited for is always found, by residue and by the number the receiver asks for |
| TunnelProgress.AllCanBeDelivered | udp_socket.cpp:681-702 | from every reachable state, whatever packets and acknowledgements were lost, everything accepted can be delivered |
| TunnelProgress.CanSendUnlessStuck | udp_socket.cpp:618-663 | the sender can be brought to accept one more packet if and only if it is not the case that its window is full, everything is delivered and no acknowledgement is on its way |
| TunnelProgress.StuckIsReachable | udp_socket.cpp:618-663 | a run that leads there: a hundred packets, all delivered, with all acknowledgements lost |
| Streams.GetPktQueuePos | udp_socket.cpp:228-263 | the one-pass search finds the stream's slot; if it may take one, else the first unused one, else a new one, else the one held for longest; and which times it sets |
| Streams.InitOnePackQueue | udp_socket.cpp:102-140 | a new slot is the first uninitialised one, and no other changes |
| Streams.ReleaseOneOverTimeQueue | udp_socket.cpp:174-226 | frees the first of the slots that have been held for longest, and no other changes |
| Streams.OldestIsEarliest | udp_socket.cpp:187-201 | if all slots are used, that is the first of those with the earliest time stamp |
| Streams.StepIsSeparate | udp_socket.cpp:1208-1311 | a packet works on its own stream's slot and leaves other streams alone, except for one that it evicts; no two slots get the same flag; anything but data leaves all slots alone |
| Streams.EvictsWhenFull | udp_socket.cpp:228-263 | a stream evicts another exactly when it has no slot and all slots are bound |
| Streams.FitsIsExact | udp_socket.cpp:228-263 | over any run without idle timeouts, no stream is evicted if and only if the streams of the queue and of the run are no more than the slots |
| Streams.EvictedStreamStops | udp_socket.cpp:174-226 | heartbeat on: the next packet of an evicted stream is not sent, though it is the one waited for, unless its residue is 0 |
| Streams.StreamsDoNotMix | udp_socket.cpp:1208-1443 | over any interleaving of no more streams than slots each stream is received as if it were alone |
| HandOff.WriterKeeps | tcp_socket.cpp:327-388 | every step of the writer keeps the invariant |
| HandOff.ReaderKeeps | tcp_socket.cpp:462-521 | every step of the reader keeps the invariant |
| HandOffRuns.ThreadsNeverShareARing | tcp_socket.cpp:327-521 | in every interleaving the threads work on different rings, the reader sees no unfilled block, and putting a packet back never fails |
| HandOffRuns.PacketsStayInOrder | tcp_socket.cpp:327-521 | accepted packets are those consumed, held, in the reader's ring and in the writer's ring, in this order |
| HandOffRuns.EndOfStream | tcp_socket.cpp:187-204 | one end marker, nothing after it; the writer leaves only after handing it over, and the reader then is or will be awake with everything in its ring |
| HandOffRuns.SleepingReaderIsWoken | tcp_socket.cpp:327-381 | a sleeping reader is woken, with data, by the writer's next iteration that finds or accepts any |
| HandOffProgress.AcceptedIsOffered | tcp_socket.cpp:219-253 | over every run, the items accepted are the inputs offered while the writer has a block, in order |
| HandOffProgress.EmptyReaderSleeps | tcp_socket.cpp:463-470 | a reader whose ring is empty goes to sleep on the writer's ring by its own steps, unless the writer holds the lock |
| HandOffProgress.WokenReaderConsumes | tcp_socket.cpp:467-518 | a woken reader consumes the first packet of its ring by its own steps, or puts it back if sending fails; the mark ends it |
| HandOffProgress.Drained | tcp_socket.cpp:327-521 | from every state some turns lead to one in which everything accepted is consumed, without new input; and if the writer is offered the end of its stream, the mark as well |
| HandOffProgress.AllCanBeConsumed | tcp_socket.cpp:327-521 | the same for every run from the start |
| HandOffProgress.Accepts | tcp_socket.cpp:327-388 | a writer whose stream goes on can always be brought to accept the next input it is offered |
| HandOffProgress.BothLeave | tcp_socket.cpp:335-381 | in every run, when the reader has left on the mark, the writer has left or leaves with its next step |
| HandOffRings.WriterIsRefined | tcp_socket.cpp:327-381 | with two rings of module `Ring` behind the queues, each step of the writer is the ring operation it stands for |
| HandOffRings.ReaderIsRefined | tcp_socket.cpp:462-513 | the same for the reader, with the packet it holds in the last free block |
| Connection.DownEndsAfterUp | tcp_socket.cpp:344-373 | the DOWN direction carries its end marker only after the UP reader has left its loop, with the whole UP stream consumed |
| Connection.FlagsHaveCauses | tcp_socket.cpp:362-371 | in every run, `stop_flag` is set only after the end of the DOWN socket's stream, `client_closewaite` only after the UP reader has left |
| Connection.DataIsAccepted | tcp_socket.cpp:344-373 | as long as a direction is not to end, what its socket delivers is what is accepted |
| Connection.UpSocketEnds | tcp_socket.cpp:219-239 | the end of the UP socket's stream puts the mark |
| Connection.DownSocketEnds | tcp_socket.cpp:344-373 | the end of the DOWN socket's stream puts no mark, but whatever happens next, the next block of the UP writer has it |
| Connection.ReplacedSocketIsRead | tcp_socket.cpp:353-360 | an ended DOWN socket is not read, its replacement is |
| Connection.UpReaderLeft | tcp_socket.cpp:550-561 | once the UP reader has left, whatever happens next, the next block of the DOWN writer has the mark |
| Connection.BothCanEnd | tcp_socket.cpp:297-561 | from every reachable state some moves lead to one in which both directions have accepted their marks and consumed everything |
| ThreadPool.PutAtRear | threadpool.cpp:460-466 | storing at the rear appends to the circular queue and keeps `rear == (front + size) % max` |
| ThreadPool.TakeFromFront | threadpool.cpp:404-410 | taking at the front removes the oldest task and keeps the same equation |
| ThreadPool.TaskQueue.constructor | threadpool.cpp:124-142 | a new queue is empty |
| ThreadPool.TaskQueue.Put | threadpool.cpp:460-466 | accepts a task behind all others |
| ThreadPool.TaskQueue.Take | threadpool.cpp:404-410 | dispatches the oldest task |
| ThreadPool.QueueIsRefined | threadpool.cpp:404-466 | the monitor's queue is the contents of the circular queue before and after every event, and a worker takes the task at the front |
| ThreadPool.Slots.constructor | threadpool.cpp:99-121 | the first `min` slots are taken |
| ThreadPool.Slots.Grow | threadpool.cpp:300-318 | starts at most 200 threads, only in free slots, never more live threads than the maximum, counts just those that could be created, and stops early only with no free slot left |
| ThreadPool.StepKeeps | threadpool.cpp:370-470 | every monitor step keeps the invariant |
| ThreadPool.NoWakeupIsLost | threadpool.cpp:370-470 | a worker sleeps unsignalled only while every queued task has a woken worker, and a producer only while the queue is full |
| ThreadPool.TasksAreConserved | threadpool.cpp:404-429 | accepted tasks are those dispatched, then those queued; each dispatched task is with one worker or finished, once; `busy_thr_num` counts the workers between its two updates; live threads stay within the maximum |
| ThreadPool.CallsAreAccepted | threadpool.cpp:437-473 | over every run each producer's tasks are accepted once each, in the order of its calls; the last one may still wait |
| ThreadPool.CallsAreConserved | threadpool.cpp:437-473 | over every run each task has been handed in as often as it is accepted and waiting |
| ThreadPool.EverythingCanFinish | threadpool.cpp:378-473 | no deadlock: from every state with a worker, workers and waiting producers can go on, without new calls and spurious wake-ups, until every task handed in is finished |
| Masking.WhitenConcat | sgg_audit.cpp:771-795 | masking a stream in two parts is masking it whole |
| Masking.StartIs | sgg_audit.cpp:773-777 | with a positive interval the first frame is that of the period in which the packet starts |
| Masking.FirstOffsetIs | sgg_audit.cpp:776-780 | the first frame's offset is relative to the packet, negative when the frame began in an earlier one |
| Masking.NegativeStart | sgg_audit.cpp:773-777 | with an interval read as negative, the first frame lies before the nearest multiple of 2^32, or beyond every position |
| Masking.SparesIsExact | sgg_audit.cpp:771-783 | with a flag read as negative, the loop leaves a packet alone if and only if the packet ends before that frame |
| Masking.LongFrameExample | sgg_audit.cpp:771-783 | a frame length of 255: a packet for which the loop is entered, and a cut of it for which it is not |
| Masking.LargeIntervalExample | sgg_audit.cpp:771-783 | an interval of 128 KB does nothing below position 2^31, and a packet near 2^32 for which the loop is entered |
| Masking.Turn | sgg_audit.cpp:783-794 | one turn of the loop zeroes its frame within the packet, unless the count is negative |
| Masking.OneFrame | sgg_audit.cpp:782-794 | zeroing one frame masks exactly the white bytes up to the next |
| Masking.MaskFrom | sgg_audit.cpp:782-795 | the loop zeroes exactly the white bytes of the packet |
| Masking.RunMisread | sgg_audit.cpp:771-795 | with a flag read as negative, the packet stays unchanged if the loop is not entered, and otherwise the loop comes to a negative count |
| Masking.InsertWhiteFrames | sgg_audit.cpp:771-795 | for every pair of signed flags: white bytes zeroed and all others unchanged for positive flags; nothing changed without audit; the previous row for negative ones |
| Masking.FlowsAreSources | sgg_manage.h:164-171 | two keys are the same to the map if and only if source address and port agree |
| Masking.AuditManager.Add | sgg_audit.cpp:143-169 | adds the length to the total of every key with the same source address and port, and to no other |
| Masking.AuditManager.Rmv | sgg_audit.cpp:171-186 | forgets the total of every key with the same source address and port, and of no other |
| Masking.AuditManager.RtpAuditAdd | sgg_audit.cpp:741-801 | counts the packet in its flow and masks it at its position in the flow, or reports that the count became negative, for all flags |
| Masking.StreamIsWhitened | sgg_audit.cpp:741-801 | for any split of a flow into packets and any other traffic between them, the flow is sent on with exactly its white bytes zeroed |
| Masking.OtherwiseNothingChanges | sgg_audit.cpp:756-795 | over any run: without audit bit or insert flag every byte passes unchanged; with a flag read as negative it does if and only if every packet ends before the frame of `SparesIsExact` |
| Masking.PacketisationDoesNotMatter | sgg_audit.cpp:741-801 | from a removal on, and for runs without a negative count, the output of a flow depends on its bytes only |
| BitOps.SixBitsMarked | cJSON.cpp:232-234 | the `or` and the `and` that make a continuation byte put six bits under its mark |
| BitOps.FirstByteMarked | cJSON.cpp:235 | the `or` with the mark of the first byte is a sum |
| BitOps.TenBitsJoined | cJSON.cpp:226 | the masks, the shift and the `or` that join two surrogates, as arithmetic |
| JsonString.TakeSixBits | cJSON.cpp:232-234 | one continuation byte by bit operations, and the bits above it |
| JsonString.MarkFirst | cJSON.cpp:235 | the first byte by a bit operation |
| JsonString.JoinPair | cJSON.cpp:226 | the code point of a surrogate pair by bit operations |
| JsonString.Utf8IsWellFormed | cJSON.cpp:229-237 | the bytes written for a scalar value are the well-formed UTF-8 sequence of section 4 of RFC 3629 that stands for it |
| JsonString.Utf8IsOnly | cJSON.cpp:229-237 | and every well-formed sequence is the one written for its value |
| JsonString.CombineIsInverse | cJSON.cpp:226 | joining undoes the split into surrogates of section 2.2 of RFC 2781 |
| JsonString.SpellingIsRead | cJSON.cpp:177-188 | four characters are read as a number if and only if they spell it, highest digit first, each digit in either case |
| JsonString.LiteralIsDecoded | cJSON.cpp:202-246 | a literal of plain characters, the two-character escapes of section 7 of RFC 8259, `\u` escapes in any spelling and surrogate pairs decodes to the bytes that they stand for, in order |
| JsonString.EscapedIs | cJSON.cpp:287-301 | a byte is written as itself, by its two-character escape, or by its code in four lower-case digits |
| JsonString.DecodedFits | cJSON.cpp:197-243 | for complete escapes the decoded string is no longer than the first loop counted |
| JsonString.CompleteIsReadable | cJSON.cpp:197-243 | so complete escapes can be read in place |
| JsonString.UntilFits | cJSON.cpp:197-243 | for every text, up to the first loop's closing quote the second loop writes no more than the first counted, and it stops there unless an escape takes the quote in |
| JsonString.OverrunIsExact | cJSON.cpp:197-243 | the string does not fit if and only if an escape takes the closing quote in and the text behind it decodes to more than the space left |
| JsonString.CompleteSwallowsNothing | cJSON.cpp:197-243 | with four digits in every `\u` escape no quote is taken in |
| JsonString.OverrunExample | cJSON.cpp:197-243 | a text for which the first loop counts two and three characters are decoded |
| JsonString.StringRoundTrip | cJSON.cpp:192-307 | reading a printed string gives it back, for every NUL-free string, and leaves what follows |
| JsonString.WriteUtf8 | cJSON.cpp:229-237 | writing backwards from the last byte leaves the UTF-8 bytes in order |
| JsonString.ReadEscape | cJSON.cpp:207-242 | one escape, with its invalid cases, advances both pointers as the specification says |
| JsonString.ReadString | cJSON.cpp:192-249 | for every text that does not end inside an escape, the two loops write behind the allocated array if and only if the string does not fit, and otherwise read what the specification defines |
| JsonGrammar.NumeralIsRead | cJSON.cpp:96-115 | every number of section 6 of RFC 8259, with fraction and exponent, is read as the number that it stands for |
| JsonGrammar.StringIsRead | cJSON.cpp:192-249 | every string of section 7 without NUL and lone surrogates is read as the bytes that it stands for |
| JsonGrammar.ValueIsRead | cJSON.cpp:357-557 | every JSON value of RFC 8259, with white space wherever the grammar allows it, is read as what it stands for |
| JsonGrammar.TextIsParsed | cJSON.cpp:323-343 | so is every whole JSON text |
| JsonRoundTrip.PrintedIsJson | cJSON.cpp:372-658 | what is printed is a JSON text that stands for the value printed; unformatted, it has no white space outside strings |
| JsonRoundTrip.NumberRoundTrip | cJSON.cpp:96-115 | every 32-bit integer printed is read back, whatever delimiter follows |
| JsonRoundTrip.ValueRoundTrip | cJSON.cpp:357-658 | reading a printed value at any depth and in both formats gives it back and stops behind it |
| JsonRoundTrip.RoundTrip | cJSON.cpp:323-343 | parsing a printed tree returns the tree and consumes the whole text, formatted or not |
| JsonRoundTrip.PrintIsInjective | cJSON.cpp:342-343 | different trees never print alike, even in different formats |
| JsonParser.ItemsStep | cJSON.cpp:420-428 | one turn of the array loop |
| JsonParser.ReadValue | cJSON.cpp:357-369 | the parser with its loops equals the recursive definition, on malformed text as well |
| JsonParser.ReadItems | cJSON.cpp:415-431 | the array loop appends one item after the other |
| JsonParser.ReadMembers | cJSON.cpp:523-546 | the object loop appends one named member after the other |
| PowerOfTwo.Smear | cJSON.cpp:117 | one `x |= x >> k` doubles the run of leading ones |
| PowerOfTwo.Pow2gtIsLeast | cJSON.cpp:117 | `pow2gt` gives the least power of two not below its argument, up to 2^30 |
| JsonJoin.JoinedFits | cJSON.cpp:469-508 | the lengths added up suffice for the joined text |
| JsonJoin.Join | cJSON.cpp:490-508 | joining stays inside the allocated array |
| JsonJoin.PrintArray | cJSON.cpp:469-508 | the joining printer prints an array in the allocated length |
| JsonJoin.PrintObject | cJSON.cpp:607-656 | and an object |
| JsonJoin.PrintersAgree | cJSON.cpp:342-353 | both printers print the same text for every tree, first size and format, and it reads back as the tree |
| JsonBuffer.PrintBuffer.Ensure | cJSON.cpp:121-136 | grants the room asked for and keeps the text so far |
| JsonBuffer.PrintBuffer.Update | cJSON.cpp:138-144 | moves to the end of the C string in the buffer |
| JsonBuffer.PrintBuffer.PrintStringPtr | cJSON.cpp:252-307 | counts, asks for, and writes exactly the escaped string |
| JsonBuffer.PrintBuffer.PrintArray | cJSON.cpp:451-467 | behind the text so far, the buffer holds the printed array as a C string |
| JsonBuffer.PrintBuffer.PrintObject | cJSON.cpp:571-606 | the same for an object |
| JsonBuffer.PrintBuffer.PrintValue | cJSON.cpp:372-388 | the same for any value; every write lies in granted space |
| JsonBuffer.PrintBuffered | cJSON.cpp:345-353 | for every tree, first buffer size and format, the buffer ends up holding the plain printer's text |

## Left out

- Sockets, threads and timers, logging, configuration, start-up and command handling: plumbing around the modelled parts. A send is an append to the output, and the 15-second limit on acknowledgements may strike at any time.
- `tcp_socketprox.cpp`: its hand-off repeats the one in `tcp_socket.cpp`.
- Packets from UDP ingress are renumbered when they are tried again (`udp_socket.cpp:1190-1206` and 1257), so the tunnel's numbering hypothesis is claimed for the TCP ingress only.
- The hand-off of the UDP receiver thread (`udp_socket.cpp:1044-1105`): the same protocol as `HandOff`, without an end marker.
- Offsets beyond 2^32, and reuse of a flag by a new stream while old packets are on the way.
- Reset of `waiting` when a client socket is reallocated, idle timeouts (the only way a socket is closed and a slot given back), `resendAll`, the zombie data: clock driven or unused. The clock that the eviction reads is a parameter.
- Where replies go (`recvFromIp`, `recvFromPort`), and range checks of socket numbers.
- `ClearStack`, `TraversalStack`, `DestroyStack`, `bit_isAllSet`: easy members. Null pointers: every object exists.
- HandOffRuns.ThreadsNeverShareARing: each access to shared state is one atomic step, so compiler and memory reordering are not modelled; forced shutdown is not either.
- Shutdown of the thread pool, and its shrinking, which is compiled out. Mutexes are modelled by taking each critical section as one step.
- Masking.AuditManager.RtpAuditAdd: stream positions stay below 2^63 and packets below 2^30 bytes. What happens after a negative count, or when `interval - offset` exceeds 32 bits (which C leaves undefined and which needs such a count anyway), is not modelled. Nor are `rmv` by destination, the report, and the `dlopen` media library.
- JsonString.ReadString: texts that end inside an escape, where the source reads on beyond the end; `JsonString.Decode` fails on them.
- JsonGrammar.NumeralIsRead: numbers are reals and rounding is not modelled; only 32-bit integers are printed.
- JsonParser.ReadValue: strings and numbers are read by the functions of `JsonString` and `Json`; the string loops are `JsonString.ReadString`. The chain of nodes is a value, so `prev` links and sharing are not modelled.
- JsonBuffer.PrintBuffered: texts up to 2^30 bytes; allocation does not fail.
- `cJSON_Minify`, the tree-editing functions and references.
