# Verified models of the multipath QUIC data path, its schedulers, and the Caddyfile printer

The project models three parts of the repository in Dafny and proves what they keep over whole runs.

1. **The ordered byte stream** (`src/sa-ecf`). A writer's bytes are cut into STREAM frames under flow
   control, lost frames are queued again and split to fit, frames arrive in any order and any number of
   times, and a frame sorter and a read loop put the stream together again. `Sorter`, `Streams`, `Framer`
   and `Packer` hold the code as classes proved against functions on values; `SorterProps`,
   `Termination`, `Transport`, `Delivery`, `Progress`, `EndOfStream` and `Accounts` prove what holds in every
   run of those functions, and `EarlyEnd` is one run that goes wrong.
2. **The schedulers** (`src/sa-ecf`). `StreamScheduler` is the weighted round robin over streams that are
   all children of the root, and `RoundRobin` the exact order in which it serves them. `StreamsMap` is the
   life of stream IDs and the plain round robin. `PathScheduler` chooses a path by lowest latency or by
   earliest completion first; a Go map is walked in any order, so the order is a parameter.
3. **The Caddyfile round trip** (`caddy/caddyfile`). `Lexer`, `Printer` and `Dispenser` are the token
   loop, the printer of configuration trees and the token cursor; `LexerProps` says what the tokens of a text
   are, and `Lost` and `RoundTrip` prove which trees are printed and parsed back to themselves.

How the code becomes a model: an object whose methods update its fields is a class, and each method is
proved equal to a function of the old value (`Value()`). The theorems are about those functions, over
sequences of steps. One critical section under a mutex is one step. The network is "any frame ever put
into a packet may arrive at any time, any number of times, or be declared lost". Errors that the code
returns are results, not preconditions. Clocks, channels and the answers of other components (window
open, stream finished, RTT, congestion window, queue size) are parameters.

Where a promise does not hold of the code, the code is kept as it is, and the project gives the input
that breaks the promise and the condition under which it holds:

- A frame with FIN whose tail has already arrived is cut and keeps FIN, so a reader can be told that the
  stream ends early: `EarlyEnd.EarlyEof`, `Delivery.FinMarksEndIff`, `Delivery.EofIsTheEnd`.
- A zero-length FIN replaces a frame queued at its offset: `SorterProps.FinHidesData`,
  `SorterProps.FinKeepsValidIff`.
- A frame that ends exactly at the largest byte count makes `Push` report that no end gap was found:
  `Sorter.StreamFrameSorter.Push`.
- `Reset` with a nil error sends RST_STREAM and does not silence the stream: `Termination.ResetSilencesIff`.
- The first WINDOW_UPDATE replaces the initial window even if it is smaller:
  `FlowControl.UpdateKeepsWindowIff`.
- On a client the limits on its own and on the peer's streams are checked against the wrong counter:
  `StreamsMap.ClientLimitIff`, `StreamsMap.ClientPeerLimitIff`, `StreamsMap.ClientUnlimited`.
- The stored weight of the root's children is two too high for every removal:
  `StreamScheduler.WeightExactIff`. Activating an active stream lists it twice:
  `StreamScheduler.ActivateKeepsIff`.
- The loop of the scheduler is bounded by a shrinking list, so a stream that has just finished can hide
  a sendable one: `StreamScheduler.ScheduleFinds`, `StreamScheduler.FinishedHidesSendable`.
- The second best path of earliest completion first depends on the order of the map:
  `PathScheduler.OrderMatters`, `PathScheduler.OrderMattersIff`.
- The rest of a line is said to be skipped after a comment sign; inside a word only the rest of the word is:
  `LexerProps.CommentEndsEarly`, `LexerProps.CommentInWordIff`.
- Quoting escapes quotes but not backslashes, unquoted strings are not checked for comment signs and rarer
  white space, and nothing separates a block from a value behind it: `Printer.QuotingRoundTripIff`,
  `RoundTrip.StringRoundTripIff`, `RoundTrip.TreeRoundTripIff`.

## Model

| member | source | states |
|---|---|---|
| `Sorter.StreamFrameSorter.constructor` | src/sa-ecf/stream_frame_sorter.go:23-30 | A new sorter has received nothing: one gap up to the largest byte count. |
| `Sorter.StreamFrameSorter.Push` | src/sa-ecf/stream_frame_sorter.go:32-144 | For every well-formed sorter and every frame: a frame without a missing byte is a duplicate and changes nothing; otherwise it is cut to the span from its first to its last missing byte and queued there, the gaps become the normal form of the bytes still missing, the queued frames at the starts of bridged runs go, and too many gaps are an error that leaves the frame unqueued. A zero-length frame is queued if it carries FIN and refused otherwise. The two internal errors are unreachable below the largest byte count; at it the second one is certain, and what it leaves half edited is described. |
| `Sorter.StreamFrameSorter.FindGap` | src/sa-ecf/stream_frame_sorter.go:54-68 | All gaps before the one found end before the frame starts, and a duplicate is reported exactly if that gap starts at or after the end of the frame. |
| `Sorter.StreamFrameSorter.BridgeGaps` | src/sa-ecf/stream_frame_sorter.go:78-94 | Finds the last gap that starts before the end of the frame; the gaps in between and the queued frames at the ends of the gaps passed are gone. It fails exactly for a frame that ends at the largest byte count. |
| `Sorter.StreamFrameSorter.ShrinkGaps` | src/sa-ecf/stream_frame_sorter.go:104-130 | The gap list is edited so that exactly the span of the frame is taken out of the first and the last gap, in all five cases. |
| `Sorter.StreamFrameSorter.Pop` | src/sa-ecf/stream_frame_sorter.go:146-153 | Takes out the frame at the read position and moves past its data. |
| `Sorter.StreamFrameSorter.Head` | src/sa-ecf/stream_frame_sorter.go:155-161 | The frame queued at the read position, if any. |
| `SorterProps.PushDeterministic` | src/sa-ecf/stream_frame_sorter.go:32-144 | The description of Push in terms of missing bytes leaves exactly one outcome, since the missing bytes determine the gap list. |
| `SorterProps.CanonicalUnique` | src/sa-ecf/stream_frame_sorter.go:104-130 | Two gap lists in normal form (sorted, non-empty, not touching, open ended) with the same missing bytes are equal. |
| `SorterProps.DuplicateFacts` | src/sa-ecf/stream_frame_sorter.go:41-68 | A push is reported as duplicate exactly if the frame has data and none of it is missing, and then nothing changes. |
| `SorterProps.PushKeepsValid` | src/sa-ecf/stream_frame_sorter.go:32-144 | Every accepted push keeps the gaps in normal form and every received run tiled by a chain of queued frames from its start, unless a zero-length FIN replaces data. |
| `SorterProps.PopKeepsValid` | src/sa-ecf/stream_frame_sorter.go:146-153 | Every pop keeps the same invariant, although stale frames may stay queued. |
| `SorterProps.PushKeepsHead` | src/sa-ecf/stream_frame_sorter.go:32-144 | A push leaves a frame with data at the read position alone, so a reader in the middle of it is safe. |
| `SorterProps.HeadIffReceived` | src/sa-ecf/stream_frame_sorter.go:155-161 | The head holds data exactly if the byte at the read position has arrived. |
| `SorterProps.FinKeepsValidIff` | src/sa-ecf/stream_frame_sorter.go:33-39 | A zero-length FIN keeps the invariant exactly if its offset is not the start of a frame that a received run is read through. |
| `SorterProps.FinHidesData` | src/sa-ecf/stream_frame_sorter.go:33-36 | One byte has arrived at 0, a zero-length FIN at 0 replaces it in the queue, and a reader finds a head without data although the byte is not missing. |
| `SorterProps.FinSurvivesIff` | src/sa-ecf/stream_frame_sorter.go:96-102 | A FIN still marks the end of the stream after a push exactly if the last byte of its frame was missing. |
| `SorterProps.SorterDelivers` | src/sa-ecf/stream_frame_sorter.go:32-161 | In every run of pushes and pops of frames of one stream, in any order and overlap: the gaps are exactly the bytes that have not arrived, received runs are tiled, and the popped data is the prefix of the stream up to the read position. |
| `Streams.Stream.constructor` | src/sa-ecf/stream.go:73-90 | A new stream has sent and received nothing. |
| `Streams.Stream.Write` | src/sa-ecf/stream.go:185-201 | Takes over the data, and changes nothing else, unless the stream is reset or failed, closed, or there is no data; which of the four it is, exactly. |
| `Streams.Stream.FinishWrite` | src/sa-ecf/stream.go:226-233 | What a write that has waited reports: the bytes no longer pending, and whether there is an error. |
| `Streams.Stream.GetDataForWriting` | src/sa-ecf/stream.go:246-265 | Hands out at most the given number of pending bytes and moves the write offset by them; nothing after an error. |
| `Streams.Stream.Close` | src/sa-ecf/stream.go:268-273 | Marks the end of writing. |
| `Streams.Stream.Cancel` | src/sa-ecf/stream.go:363-374 | Cancels the stream and keeps an earlier error. |
| `Streams.Stream.Reset` | src/sa-ecf/stream.go:377-395 | The first call marks the stream as reset, keeps an earlier error and sends RST_STREAM with the write offset unless that or FIN is already out. |
| `Streams.Stream.RegisterRemoteError` | src/sa-ecf/stream.go:398-415 | The same for a reset by the peer. |
| `Streams.ResetExact` | src/sa-ecf/stream.go:377-419 | RST_STREAM goes out with a reset exactly if it is the first from that side, none went out before and FIN has not been sent on a closed stream; it announces the bytes framed so far, the first error stays, and nothing else changes. |
| `Streams.Stream.AddStreamFrame` | src/sa-ecf/stream.go:294-309 | A frame outside the receive window is refused and changes nothing; any other is pushed into the sorter, and neither success nor a duplicate is an error. |
| `Streams.Stream.Read` | src/sa-ecf/stream.go:92-183 | A cancelled, reset or finished stream returns at once and changes nothing. Otherwise the loop reads frame by frame until enough bytes are there, the queue is empty or a FIN has been read; end of file is reported exactly if FIN has been read, waiting exactly if nothing was read and the next byte is missing, an error exactly if there is one and some, but fewer bytes than asked for were read; the two internal errors are unreachable. |
| `Streams.DrainedIff` | src/sa-ecf/stream.go:103-182 | The read loop runs dry exactly if it stops short of the bytes asked for without having read a FIN, and then the next byte has not arrived. |
| `Delivery.ReadsWhatArrived` | src/sa-ecf/stream.go:103-182 | A read returns exactly the bytes of the stream that have arrived without a gap from the read offset on, up to the number asked for. |
| `FlowControl.UpdateKeepsWindowIff` | src/sa-ecf/internal/flowcontrol/flow_controller.go:66-101 | For a stream and for the connection, a window update keeps the bytes sent within the window exactly if it is ignored or covers them. |
| `FlowControl.UpdateExact` | src/sa-ecf/internal/flowcontrol/flow_control_manager.go:263-279 | A window update raises the window of its stream, or of the connection, to the larger of the offset and the last update; nothing else changes. |
| `FlowControl.WindowExact` | src/sa-ecf/internal/flowcontrol/flow_control_manager.go:238-261 | The window of a stream is the largest number of bytes that keeps it and, if it contributes, the connection within their limits. |
| `Frames.LengthsMinimal` | src/sa-ecf/internal/wire/stream_frame.go:153-187 | The header lengths are the least that hold the stream ID, from one byte on, and the offset, from two bytes on and none for 0. |
| `Framer.StreamFramer.AddFrameForRetransmission` | src/sa-ecf/stream_framer.go:35-37 | A lost frame goes to the end of the queue. |
| `Framer.StreamFramer.MaybeSplitOffFrame` | src/sa-ecf/stream_framer.go:262-280 | Splits the first n bytes off the frame at the head of the queue, the rest keeping FIN; a frame that is not longer is left alone. |
| `Framer.StreamFramer.MaybePopFramesForRetransmission` | src/sa-ecf/stream_framer.go:132-166 | Takes frames off the queue within the budget, splitting the last, and counts their bytes as resent but not as sent. |
| `Framer.StreamFramer.FrameStream` | src/sa-ecf/stream_scheduler.go:316-391 | Frames what one stream has to send, as `Framer.SendExact` and `Framer.SendFacts` describe it. |
| `Framer.StreamFramer.SendStream` | src/sa-ecf/stream_framer.go:175-239 | The same with the bytes charged to the stream and the connection, and a BLOCKED frame queued when a window is used up. |
| `Framer.StreamFramer.MaybePopNormalFrames` | src/sa-ecf/stream_framer.go:168-260 | Offers the streams in order, as `Framer.SendAllServes` and `Framer.SendAllCharges` describe it; the order is that of the round robin, or the one stream the scheduler picked. |
| `Framer.StreamFramer.PopStreamFrames` | src/sa-ecf/stream_framer.go:39-42 | Retransmissions first, new data in what is left of the budget. |
| `Framer.RetransmitConserves` | src/sa-ecf/stream_framer.go:132-166 | For every queue and budget, the frames taken followed by the queue left carry the same bytes at the same positions and the same FIN markers in the same order as the queue did. |
| `Framer.RetransmitFits` | src/sa-ecf/stream_framer.go:132-166 | The length returned is headers plus data of the frames taken, within the budget, and every frame has a length field. |
| `Framer.RetransmitGreedy` | src/sa-ecf/stream_framer.go:132-166 | Frames are taken until the queue is empty or the next header does not fit. |
| `Framer.ResentExact` | src/sa-ecf/internal/flowcontrol/flow_control_manager.go:207-223 | Every byte resent is counted once, for its stream and, if that contributes, for the connection. |
| `Framer.RetransmitProgress` | src/sa-ecf/stream_framer.go:132-166 | A budget beyond the longest header always gets something resent and the backlog gets smaller. |
| `Framer.SplitContent` | src/sa-ecf/stream_framer.go:262-280 | The two pieces of a split frame carry what the frame carried, FIN on the second one. |
| `Framer.SendFacts` | src/sa-ecf/stream_scheduler.go:316-391 | A frame starts at the write offset and takes its data off the front of what is pending, within the window; FIN comes once, last and never after an error; without a frame nothing changes. |
| `Framer.SendExact` | src/sa-ecf/stream_framer.go:175-248 | A stream other than the crypto stream gets a frame exactly if it has no error, there is room beyond the header, and data that the window lets through or FIN is to be sent; the data is as long as the least of what is pending, the window and the room; FIN is on it exactly if the stream is closed, FIN is unsent and nothing is left; the walk stops exactly if the header does not fit or the frame uses up the budget. |
| `Framer.SendAllServes` | src/sa-ecf/stream_framer.go:168-260 | Every stream of a pass gets a frame exactly if it can send within the budget and the window that the frames before it have left, unless the header of a stream before it did not fit. |
| `Framer.SendAllCharges` | src/sa-ecf/stream_framer.go:168-260 | The frames of a pass belong to its streams, and their bytes are charged. |
| `Framer.ChargedExact` | src/sa-ecf/internal/flowcontrol/flow_control_manager.go:176-192 | Every byte sent is charged once, to its stream and, if that contributes, to the connection; nothing else changes. |
| `Framer.BlockedExact` | src/sa-ecf/stream_framer.go:221-228 | A BLOCKED frame is queued exactly if a frame has used up the window of the connection, or that of its stream without carrying FIN. |
| `Framer.SendFits` | src/sa-ecf/stream_scheduler.go:316-391 | A new frame with its length field fits the budget. |
| `Framer.PopFramesFits` | src/sa-ecf/stream_framer.go:39-42 | All frames popped for a packet, counted with their length fields, fit the budget. |
| `Framer.PopFramesServes` | src/sa-ecf/stream_framer.go:39-42 | The frames of a packet are those resent, followed by one for every stream of the pass that can send in what is left of budget and window at its turn. |
| `Framer.NothingPopped` | src/sa-ecf/stream_framer.go:132-166 | If nothing was popped nothing was lost from the queue. |
| `Termination.TerminationSignals` | src/sa-ecf/stream.go:246-427 | Over every run of a new stream whose resets carry an error: at most one FIN or RST_STREAM goes out and nothing after it, every frame starts where the data before it ended, RST_STREAM announces exactly that much, and a finished stream stays finished. |
| `Termination.FinishedExact` | src/sa-ecf/stream.go:275-427 | Over every run of a new stream: RST_STREAM goes out exactly if the stream is reset by either side before FIN has gone out, and the stream is finished exactly if it was cancelled, or this side has ended with FIN or RST_STREAM and the other side with a FIN that was read or an error. |
| `Termination.ResetSilencesIff` | src/sa-ecf/stream.go:377-395 | A reset that sends RST_STREAM silences the stream in every continuation exactly if the stream then has an error. |
| `Termination.LateFrame` | src/sa-ecf/stream.go:282-287 | A stream without an error that is closed still sends FIN, whether or not it was reset. |
| `Termination.WriteCounts` | src/sa-ecf/stream.go:226-265 | In every run without another write, the bytes framed since and those still pending add up to what was handed over, so a write reports exactly what was framed of it. |
| `Transport.NextInv` | src/sa-ecf/stream_framer.go:132-280 | Every step of the whole system (open, write, close, reset, framing, loss, window update, arrival, read) keeps the invariant on senders, frames, windows and receivers. |
| `Transport.EndToEnd` | src/sa-ecf/stream.go:92-265 | In every state of every run, whatever the network loses, duplicates or reorders: what was read from a stream is a prefix of what was written to it, every frame ever sent is the slice of the written stream at its own offset, and every stream but the crypto stream is charged exactly what it has framed, within the windows granted to it and to the connection, retransmissions free of charge. |
| `Delivery.EofIsTheEnd` | src/sa-ecf/stream.go:170-179 | If no frame with FIN arrives whose last byte is already there while an earlier one is missing, a reader that has seen the end of file has read everything that was written. |
| `Delivery.FinMarksEndIff` | src/sa-ecf/stream_frame_sorter.go:96-102 | Throughout a run every FIN that is queued or was reported marks the true end of its stream exactly if every arriving frame with FIN brings the last byte of the stream or nothing new. |
| `EarlyEnd.EarlyEof` | src/sa-ecf/stream_frame_sorter.go:96-102 | The condition is needed: a run in which three bytes are written, and the reader has seen the end of file after two. |
| `Progress.RunCovers` | src/sa-ecf/stream_framer.go:118-260 | In every state of every run, every byte that was ever framed is in a frame that was sent. |
| `Progress.EverythingArrives` | src/sa-ecf/stream.go:92-183 | Once every frame of a stream that was sent has been delivered, with FIN intact, a read that asks for enough returns everything that was framed and not read before, and nothing that was not written. |
| `EndOfStream.EofArrives` | src/sa-ecf/stream.go:92-183 | Once FIN was sent and every frame of the stream that was sent has been delivered, with FIN intact, the reader has seen the end of file, or a read that asks for more than is left returns all the rest and reports it; either way it ends up with exactly what was written. FIN may travel alone or with data, and be split, lost and resent on the way. |
| `Accounts.ConnectionIsTheSum` | src/sa-ecf/internal/flowcontrol/flow_control_manager.go:176-192 | In every state of every run the bytes charged to the connection are the sum of those charged to the streams that contribute to it. |
| `Packer.PacketPacker.constructor` | src/sa-ecf/packet_packer.go:35-53 | A new packer has nothing queued. |
| `Packer.PacketPacker.ComposeNextPacket` | src/sa-ecf/packet_packer.go:207-275 | The payload never exceeds the size asked for, although stream frames are given two bytes more; control frames are taken from the back while they fit and the others stay, BLOCKED frames are queued behind them; it fails exactly if STOP_WAITING and ACK alone do not fit, and then nothing has changed. |
| `Packer.PacketPacker.TakeControlFrames` | src/sa-ecf/packet_packer.go:233-245 | Takes control frames from the back as long as they fit; those taken and those left are those that were queued. |
| `Packer.PacketPacker.AddStreamFrames` | src/sa-ecf/packet_packer.go:255-274 | What the payload has room for in stream frames, the last without its length field, still fits. |
| `Packer.PacketPacker.QueueBlockedFrames` | src/sa-ecf/packet_packer.go:270-272 | Moves all BLOCKED frames, in order, behind the control frames. |
| `Packer.PacketPacker.PackPacket` | src/sa-ecf/packet_packer.go:127-184 | A packet is never larger than the maximum, so the error for it is unreachable; it carries exactly the payload composed, and the control frames, BLOCKED frames and stream data that did not go out stay; it is sent unless it would be empty or hold STOP_WAITING alone, and then no queued frame is lost; if STOP_WAITING and ACK do not fit nothing changes. |
| `Packer.ComposeExact` | src/sa-ecf/packet_packer.go:207-275 | A packet holds STOP_WAITING and ACK, then control frames from the back until the next would not fit, then exactly the stream frames popped, in order and with their FIN, all but the last with a length field; the other control frames and one BLOCKED frame for each ID noted stay queued. |
| `StreamsMap.Map.constructor` | src/sa-ecf/streams_map.go:47-72 | A new map has no streams, and the first ID of its own depends on the side. |
| `StreamsMap.Map.GetOrOpenStream` | src/sa-ecf/streams_map.go:76-155 | An existing stream, nil for one that is gone, an error for an ID of the wrong side, or all streams of the peer up to the ID opened until a limit stops it. |
| `StreamsMap.Map.OpenStream` | src/sa-ecf/streams_map.go:157-184 | The next ID of its own, unless the connection is closed or the limit is reached. |
| `StreamsMap.Map.CloseWithError` | src/sa-ecf/streams_map.go:337-341 | From then on no stream can be opened. |
| `StreamsMap.Map.PutStream` | src/sa-ecf/streams_map.go:290-305 | Adds a stream to the map and to the end of the open list, unless there is one with its ID. |
| `StreamsMap.Map.RemoveStream` | src/sa-ecf/streams_map.go:308-335 | Takes a stream out of the map and the open list, adjusts its counter and keeps the round robin at the stream it had reached, or at the one after it if that stream goes. |
| `StreamsMap.Map.RoundRobinIterate` | src/sa-ecf/streams_map.go:247-280 | Streams 1 and 3 first, then the others in ring order until the callback stops or fails; the index moves by as many as were offered, but not past one that failed. |
| `StreamsMap.Lifecycle` | src/sa-ecf/streams_map.go:76-173 | Over every run of open, get-or-open and remove: no ID is created twice, the peer's IDs come in increasing order without gaps even after a limit stopped an attempt half way, the open list is duplicate-free and matches the map, the counters are the numbers of open even and odd streams, and a server keeps both within its limits. |
| `StreamsMap.GoneForever` | src/sa-ecf/streams_map.go:93-114 | A stream that is gone is never created again, and asking for it yields nil forever. |
| `StreamsMap.GetOrOpenExact` | src/sa-ecf/streams_map.go:76-155 | For every ID, exactly: the stream if it is open; an error for an own ID beyond the next one; nil for one that was used before, is the next own one or 0; all of these change nothing. Any other ID opens the streams of the peer up to it, and no others, or those that come before the limit stops it. |
| `StreamsMap.OpensAllIff` | src/sa-ecf/streams_map.go:102-131 | All streams of the peer up to the ID are opened exactly if, on a server, they fit below the limit and, on a client, its own streams leave room. |
| `StreamsMap.OpenExact` | src/sa-ecf/streams_map.go:157-184 | OpenStream fails exactly at the limit and then changes nothing; otherwise it opens the next own ID, which was never used, at the end of the list. |
| `StreamsMap.RemoveExact` | src/sa-ecf/streams_map.go:308-335 | Exactly that stream goes, the others keep their order, and the round robin goes on with the stream it stood at, or its successor. |
| `StreamsMap.IterateExact` | src/sa-ecf/streams_map.go:247-280 | The streams offered are 1 and 3, as far as they are there, and then the others in ring order, each exactly if all before it let the walk go on; it fails exactly if the last one offered does. |
| `StreamsMap.ClientLimitIff` | src/sa-ecf/streams_map.go:157-173 | On a client, opening keeps the number of own streams within the limit exactly if there is room or the peer has used up that limit. |
| `StreamsMap.ClientPeerLimitIff` | src/sa-ecf/streams_map.go:134-155 | On a client, the number of streams that the peer has open stays within the limit exactly if the client itself has used that limit up, or all streams up to the ID fit. |
| `StreamsMap.ClientUnlimited` | src/sa-ecf/streams_map.go:157-173 | A client whose peer opens nothing can open any number of streams. |
| `StreamsMap.NoStarvation` | src/sa-ecf/streams_map.go:247-280 | With n streams open and none added, every stream but 1 and 3 is offered within n calls that streams 1 and 3 let pass and that do not fail, wherever the callbacks stop them and whichever other streams are removed in between. |
| `StreamScheduler.Scheduler.constructor` | src/sa-ecf/stream_scheduler.go:69-76 | A new scheduler is well formed. |
| `StreamScheduler.Scheduler.AddStream` | src/sa-ecf/stream_scheduler.go:156-183 | The header stream becomes the stream of the root, the crypto stream is ignored, and any other stream becomes an idle node of default weight. |
| `StreamScheduler.Scheduler.MaybeSetWeight` | src/sa-ecf/stream_scheduler.go:185-208 | Changes the weight as `StreamScheduler.SetWeightExact` describes it; an error for an unknown stream. |
| `StreamScheduler.Scheduler.Activate` | src/sa-ecf/stream_scheduler.go:292-313 | Appends the stream to the children of the root and adds its share; an error for an unknown stream. |
| `StreamScheduler.AddNodeExact` | src/sa-ecf/stream_scheduler.go:156-183 | A new stream has weight 15, is idle and has no quantum; stream 3 is noted as header stream and stream 1 ignored; nothing else changes. |
| `StreamScheduler.SetWeightExact` | src/sa-ecf/stream_scheduler.go:185-208 | The weight of a known stream becomes the one given and the stored total follows; its state and quantum, the other streams, the list and the ring stay; streams 1, 3 and unknown ones change nothing. |
| `StreamScheduler.SetActiveExact` | src/sa-ecf/stream_scheduler.go:292-313 | A stream that is not active becomes so and is listed last, with weight and quantum as they were; everything else stays. |
| `StreamScheduler.Scheduler.RemoveChild` | src/sa-ecf/stream_scheduler.go:103-124 | Takes the child out of the list, or the first one if it is not listed, keeps the next child in range, and subtracts one less than the weight. |
| `StreamScheduler.RemoveExact` | src/sa-ecf/stream_scheduler.go:103-124 | The other children keep their order; the one that goes is the given one, or the first of the list if that one is not listed. |
| `StreamScheduler.Scheduler.TraverseChild` | src/sa-ecf/stream_scheduler.go:393-452 | One visit of a child: refilled, then dropped, picked or passed over. |
| `StreamScheduler.Scheduler.ScheduleNext` | src/sa-ecf/stream_scheduler.go:433-459 | The whole call, the shrinking bound of its loop included. |
| `StreamScheduler.VisitFacts` | src/sa-ecf/stream_scheduler.go:393-452 | Seen as a ring, a finished head leaves, a blocked head moves to the back, and a sendable head is returned and moves to the back only when its quantum is spent; weights and other nodes are untouched. |
| `StreamScheduler.ScheduleFinds` | src/sa-ecf/stream_scheduler.go:433-459 | A ready header stream is served first; otherwise the first sendable stream of the ring is returned exactly if its place plus the finished streams before it is less than the number of children. |
| `StreamScheduler.SendableIsFound` | src/sa-ecf/stream_scheduler.go:433-441 | If no child has finished and one is sendable, a node is returned. |
| `StreamScheduler.FinishedHidesSendable` | src/sa-ecf/stream_scheduler.go:434 | With two children of which the first has finished, a sendable second one is missed. |
| `StreamScheduler.Structure` | src/sa-ecf/stream_scheduler.go:78-132 | In every state of every run of add, activate while not active, set weight and schedule: the children are distinct and are the active streams, both counters are their number, the next child is one of them, quanta and weights are in range, and the stored total is the sum of the shares plus 2 for every removal. |
| `StreamScheduler.WeightExactIff` | src/sa-ecf/stream_scheduler.go:118 | The stored total is the sum of the shares exactly as long as nothing was removed. |
| `StreamScheduler.ActivateKeepsIff` | src/sa-ecf/stream_scheduler.go:292-313 | Activating a known stream keeps the tree well formed exactly if the stream is not active, and the children distinct exactly if it is not listed. |
| `RoundRobin.ExactRound` | src/sa-ecf/stream_scheduler.go:393-459 | From the boundary of a round, where no sender is in the middle of its turn, with the header stream idle, no stream finishing and a fixed set of open windows, as many calls as the shares of the senders add up to return each sender exactly weight + 1 times in a row, in ring order and past the blocked streams, and end at a boundary (section 5.3.2 of RFC 7540). |
| `RoundRobin.ExactRounds` | src/sa-ecf/stream_scheduler.go:393-459 | Any number of rounds repeats the first one. |
| `PathScheduler.Scheduler.LessUsedPath` | src/sa-ecf/path_scheduler.go:151-161 | A path other than the initial and the original one with a lower quota, if there is one. |
| `PathScheduler.Scheduler.LowestLatency` | src/sa-ecf/path_scheduler.go:164-217 | For every order of the map: nothing exactly if no path is eligible, otherwise a probed path of least RTT if one is probed, otherwise an unprobed one of least quota. |
| `PathScheduler.Scheduler.SelectLowLatency` | src/sa-ecf/path_scheduler.go:140-218 | In every case: the initial path if it is the only one; a less used path, if there is one, for a duplicated packet whose own path is not probed; otherwise the path of lowest latency. |
| `PathScheduler.OrderIndependent` | src/sa-ecf/path_scheduler.go:164-217 | Two orders of the map lead to equally good choices. |
| `PathScheduler.Scheduler.FindPaths` | src/sa-ecf/path_scheduler.go:244-300 | The walk finds the best and the second best path of the specification, unprobed paths and quotas included. |
| `PathScheduler.Scheduler.SelectEarliestCompletion` | src/sa-ecf/path_scheduler.go:220-365 | In every case: the initial path if it is the only one; a less used path, if there is one, for a duplicated packet whose own path is not probed; the best path if it may send or something is resent; otherwise the second best or nothing, as the two tests decide, with the waiting flag updated. |
| `PathScheduler.SearchBest` | src/sa-ecf/path_scheduler.go:251-300 | The best path is the one of lowest latency with blocked paths included: a probed candidate of least RTT, else an unprobed one of least quota, and none exactly if there is no candidate. |
| `PathScheduler.SearchSecond` | src/sa-ecf/path_scheduler.go:284-294 | For every map, unprobed paths included: a sendable path comes into question if it is probed and the first probed candidate or not faster than some probed one before it, or unprobed with only unprobed candidates of at least its quota before it; there is a second best path exactly if one comes into question, and it is the first probed one of least RTT among these, or the last of them if none is probed. |
| `PathScheduler.OrderMattersIff` | src/sa-ecf/path_scheduler.go:251-300 | For every map, all orders lead to equally good second best paths exactly if no path may send; or, of the probed paths that may, two are fastest or no probed candidate is slower than the fastest; or no candidate is probed and one that may send has the least quota. |
| `PathScheduler.NoOverflow` | src/sa-ecf/path_scheduler.go:347-363 | With RTTs below about a minute, windows up to 16 MB and queues up to 64 MB the 64-bit tests decide as exact integers would. |
| `PathScheduler.FirstTestIsRational` | src/sa-ecf/path_scheduler.go:347-349 | The first test is the inequality between completion times, with hysteresis, that it stands for, with the smaller of queue and window as bytes and the larger of the two deviations as margin. |
| `PathScheduler.SecondTestIsRational` | src/sa-ecf/path_scheduler.go:354-357 | So is the second, with the larger of queue and window as bytes. |
| `PathScheduler.DecideExact` | src/sa-ecf/path_scheduler.go:331-363 | Within that range the scheduler waits exactly if the best path is expected to be faster and the second one to be slow, and the wait is remembered until the best path is no longer expected to be faster. |
| `PathScheduler.WaitingIsSticky` | src/sa-ecf/path_scheduler.go:349-363 | Whenever the scheduler would start to wait it would also go on waiting. |
| `PathScheduler.OrderMatters` | src/sa-ecf/path_scheduler.go:284-294 | Three paths for which one order finds a second best path and the reverse order does not. |
| `Lexer.TextLexer.constructor` | caddy/caddyfile/lexer.go:44-60 | Starts on line 1, past a byte order mark. |
| `Lexer.TextLexer.Next` | caddy/caddyfile/lexer.go:73-150 | The character loop with its quotes, escapes, comments and line count delivers the token that the recursive description does, and stands right behind it. |
| `Lexer.AllTokens` | caddy/caddyfile/parse.go:41-52 | All tokens of a text in order; an empty text is an error. |
| `LexerProps.SpaceRule` | caddy/caddyfile/lexer.go:115-127 | White space between tokens only counts lines. |
| `LexerProps.CommentRule` | caddy/caddyfile/lexer.go:129-135 | Where a token could start, a comment hides the rest of its line and nothing more. |
| `LexerProps.WordRule` | caddy/caddyfile/lexer.go:115-147 | A word is a token, without its carriage returns, on its own line, and ends before white space or the end. |
| `LexerProps.QuoteRule` | caddy/caddyfile/lexer.go:94-113 | What stands in quotes is one token, white space, comment signs and line breaks included, with only quotes unescaped; without a closing quote it ends with the text. |
| `LexerProps.CommentInWord` | caddy/caddyfile/lexer.go:115-135 | A comment sign inside a word hides what is left of the word; behind the next white space tokens are read again. |
| `LexerProps.CommentInWordIff` | caddy/caddyfile/lexer.go:70-71 | So it hides the rest of its line, as documented, exactly if only white space and another comment follow that white space. |
| `LexerProps.CommentEndsEarly` | caddy/caddyfile/lexer.go:70-71 | A line on which it does not. |
| `Dispenser.Cursor.Next` | caddy/caddyfile/dispenser.go:56-62 | Moves to the next token if there is one. |
| `Dispenser.Cursor.NextArg` | caddy/caddyfile/dispenser.go:68-83 | Moves to the next token exactly if it is from the same file and on the line on which the current one ends, or if no token is loaded yet. |
| `Dispenser.Cursor.Val` | caddy/caddyfile/dispenser.go:139-144 | The text of the current token. |
| `Dispenser.Cursor.ConstructLine` | caddy/caddyfile/json.go:74-88 | The line at the cursor, nested blocks included, and where the cursor is left. |
| `Dispenser.Cursor.ConstructBlock` | caddy/caddyfile/json.go:93-104 | The block at the cursor up to its closing brace or the end, and where the cursor is left. |
| `Dispenser.PlainArgs` | caddy/caddyfile/dispenser.go:68-83 | The arguments of a line, up to its first block, are the texts of the longest run of tokens that come from one file and each start on the line on which the one before ends. |
| `Dispenser.FilesApart` | caddy/caddyfile/dispenser.go:76-79 | Tokens of two files are never on one line. |
| `Printer.PrintedBareIff` | caddy/caddyfile/json.go:139-144 | A string is printed as it is exactly if it holds no quote, space, line break, tab or carriage return. |
| `Printer.QuotingRoundTripIff` | caddy/caddyfile/json.go:139-144 | A quoted string, whatever follows it, lexes back to itself exactly if every run of backslashes before a quote or the end is even, and the lexer's line is then the token's line plus its line breaks. |
| `Lost.TokensReadable` | caddy/caddyfile/lexer.go:94-147 | Of every text: a token that starts like white space or a comment was read in quotes, and every run of backslashes before a quote or the end of it is even. |
| `RoundTrip.StringRoundTripIff` | caddy/caddyfile/json.go:139-144 | A printed string lexes back to exactly that one token if and only if it is quoted with even runs of backslashes, or unquoted, not empty and free of white space and comment signs. |
| `RoundTrip.StringIsLost` | caddy/caddyfile/json.go:139-144 | A string that does not read back alone does not come back as the next token either, whatever the rest of the printed tree holds. |
| `RoundTrip.LinesLex` | caddy/caddyfile/json.go:151-170 | The printed lines of a tree, whatever follows them, lex to the tokens of the tree on the right lines, multi-line tokens included. |
| `RoundTrip.TreeRoundTripIff` | caddy/caddyfile/json.go:74-175 | Every tree is printed, lexed and parsed back to itself exactly if all its strings read back, each line starts with a string other than a closing brace, no later string is an opening brace and every nested block comes last on its line. |
| `RoundTrip.Reparse` | caddy/caddyfile/json.go:93-175 | The lexer and the dispenser return the printed tree under exactly that condition. |

## Left out

- `StreamScheduler.Structure`: nested dependency trees and `maybeSetParent` are not modelled, nor the header stream finishing; the counts of children do not wrap at 16 bits.
- `StreamScheduler.Scheduler.ScheduleNext`: the completion estimate kept beside the quantum (`lowestQuantum`, `numerator`, `denominator`), `bytesUntilCompletion` and `skip` are not modelled.
- `PathScheduler.Scheduler.SelectEarliestCompletion`: the stream-aware variant of the chooser is not modelled.
- `Packer.PacketPacker.PackPacket`: crypto packets and the branch for a leading PING are not modelled; lengths of frames other than STREAM and BLOCKED are given, header and sealing overhead are parameters that fit a packet, and sealing itself is absent.
- `Streams.Stream.Write`: deadlines and the wait between handing over the data and reporting are not modelled; in whole runs a second write starts only when nothing is pending.
- `Streams.Stream.Read`: waiting for data is the result `Blocked`; deadlines and the bookkeeping of the receive window are not modelled.
- `Streams.Stream.AddStreamFrame`: the answer of receive-side flow control is a parameter; a frame that ends beyond the largest byte count is refused by the parser (`src/sa-ecf/internal/wire/stream_frame.go`, line 79) and does not reach it.
- `Transport.EndToEnd`: streams are not removed, the length field of a frame is not tracked through the network, and a run ends with the first too-many-gaps error.
- `Framer.StreamFramer.MaybePopFramesForRetransmission`: frames are values, so the sharing of one frame between a queue and a packet is not captured; nor are the queues for addresses and paths.
- `StreamsMap.Lifecycle`: limits are fixed, stream IDs do not wrap at 32 bits, and accepting and waiting for streams are not modelled.
- `StreamsMap.Map.CloseWithError`: cancelling the open streams is not modelled.
- `RoundTrip.TreeRoundTripIff`: server block keys, the grouping of directives by name, numbers and booleans are not modelled.
- `Lexer.TextLexer.Next`: strings are sequences of characters; decoding of bytes and input errors other than an empty input are not modelled.
- `FlowControl`: the send side only, with the initial windows fixed for a connection; receive windows and their tuning are not modelled.
- Session loop, handshake, ACK handling, congestion control, wire encoding and path management: other components, seen here only through parameters.
- `src/default_mpquic`: the same code or less than `src/sa-ecf`.
- Caddyfile imports, snippets and environment variables, the Caddy server and its plugins, and the Python programs: file system, network and clock driven.
