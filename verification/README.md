# PrankTok: proofs about audio, framing and buffers

A Dafny model of the three stateful cores of the PrankTok voice-call program and of what ties them together:

* the client's audio path: ring buffer, overlap-add time-stretcher, play-rate controller, jitter buffers;
* the packet framing on TCP, in client and server, and the voice packets it carries;
* the server's pooled buffers, as they move through tokenizers, session queues and voice lists, the relay of
  voice from one session to its peer, the registration of sessions with voice managers, and the text
  operations of the session protocol.

Classes that change their fields in the source are classes here. Each method is proved against a function on
plain values, and the theorems are about those functions, over all inputs and all runs. Samples and rates are
real numbers, integers are unbounded except where their bytes matter, and what comes from outside (clocks,
sockets, random draws, the decoder, the FFT) is a parameter.

`dafny verify dfyconfig.toml` checks everything.

## How the files fit together

| file | contents |
|---|---|
| AudioTool, Tape, RingBuffer, OverlapAdd | a circular store agrees with an unbounded tape; overlap-add in closed form |
| PhaseVocoder, VocoderRuns | the time-stretcher as methods, and what holds over whole runs of calls |
| AudioPlayer, PhaseUnwrap | the rate controller, the playback callback and runs of it; phase wrapping and unwrapping |
| JitterSpec, JitterQueues, PooledPriorityList | sorted bounded duplicate-free queues: the specification, and three classes |
| Framing, PacketTokenizer | the marker, tokens of a stream, and the incremental in-place tokenizer |
| VoicePacket, VoiceManager | the voice packet and the address packet; the client's transmissions, and its reading |
| Ownership, BufferPool, VoiceDataList, Subsequences | who has which buffer; the pool; the list of voice packets of a session |
| Traffic, VoiceServer | what the server's steps do to a memory, with theorems on it; the class that does it |
| ServerLists | the voice lists inside one read of the server |
| ServerSteps, ServerRuns, ServerStreams | runs of the server's steps, of every kind and in any order: what is lost, what happens to a session's list, what comes of a channel's stream |
| Relay, RelayRuns | a voice from one client through the server to the other; runs that deliver all |
| Registration, OperationCodec | registration with voice managers; operations built and split |

## What the proofs show about the code

* A mix write into the ring leaves store and tape in agreement exactly when the frame reaches at least as far as
  the last one and less than a whole ring beyond it (`Tape.MixRefinesExactly`).
* `readMono` stops only beyond the write position, so a read that runs short hands out the sample at the write
  position, which the next frame will still change. `VocoderRuns.EarlyExactly` tells before a call whether it will.
* `reset` keeps the old upper position. The first mix write after it nevertheless does what a new ring would do
  (`Tape.MixStepAfterReset`), and so does every run (`OverlapAdd.ResetLikeNew`).
* `getRingBufferFloatPosition` returns the ring length, one slot past the end, exactly for negative multiples of
  that length (`AudioTool.RingPositionExact`). None of the vocoder's reads asks for one.
* The rate controller divides zero by zero exactly while no packet has come after a gap and nothing is buffered
  (`AudioPlayer.AudioPlayer.UndefinedExactly`): so in every new or stopped player, until its first packet comes
  (`AudioPlayer.AudioPlayer.FreshIsUndefined`). No frame is rendered at such a rate, but position zero is handed out
  early (`VocoderRuns.EarlyAtStart`).
* The guard of `get` admits only frames that lie wholly on the tape exactly when `1 + (len - 1) * rate` is at most
  `len * rate` rounded up (`VocoderRuns.GuardSafeExactly`): so for every pitch rate of at least one and for 44100
  over 48000, but not for one half, where the last sample can interpolate with a slot never written.
* A put leaves the tokenizer in step exactly if it does not find the store full (`PacketTokenizing.OverflowExactly`).
  Once the store is full, no chunk that comes afterwards ever yields a packet again, until the tokenizer is flushed
  (`PacketTokenizing.FullIsStuck`). A chunk that does not fit loses its tail, a packet beyond the buffer size its
  end; the specification includes both.
* A payload survives the framing exactly when it is not empty and does not contain the marker; voice data is not
  escaped (`Framing.PayloadSurvivesExactly`).
* The TCP relay takes an eleventh packet and frees it unsent (`ServerLists.SentWasPolled`); its length check
  lacks the guard for packets under four bytes that the UDP path has (`Traffics.TcpVerdict`).
* Buffers are lost for good exactly where `Traffics.TcpLosesExactly`, `Traffics.UdpLosesExactly` and
  `Traffics.SessionLosesExactly` say, in terms of what is there before the read: by packets that make it throw, by an
  exhausted pool, by a UDP datagram of unknown type, by a session packet for which there is no cipher, and by an
  unencrypted one of more than 512 bytes that is the first of its read. Over a run of the server's steps nothing else
  loses a buffer (`ServerSteps.RunLosesExactly`).
* On the TCP channel to the server each of the first five voices of a transmission is followed by an address. The
  server's reads go on behind it, and only the voices arrive (`Relays.TransmissionVoices`).
* An operation survives building and splitting exactly when its fields are free of delimiters and its last field
  is not empty (`OperationCodec.SurvivesExactly`).

## Model

| member | source | states |
|---|---|---|
| AudioTool.RingPositionExact | client/jni/AudioTool.cpp:178-184 | the result is in `[0, n)`, with the slot and fraction of the unbounded position, exactly for positions that are not negative multiples of `n`; for those it is `n` itself |
| Tape.PlainStep | client/jni/RingBuffer.h:69-76 | a plain write of up to a ring length that continues the tape keeps every one of the last `n` tape positions at its slot |
| Tape.MixStep | client/jni/RingBuffer.h:44-76 | a mix write that fits, lazy zeroing and wrap-around included, adds on old positions and starts fresh ones from zero |
| Tape.MixStepAfterReset | client/jni/RingBuffer.h:137-143 | the first mix write into a cleared ring is right for every stale upper position |
| Tape.MixRefinesExactly | client/jni/RingBuffer.h:44-76 | mix writes keep store and tape in agreement for all contents if and only if upper position <= write end < upper position + ring length |
| Ring.RingSampleIsTape | client/jni/AudioTool.cpp:75-102 | interpolated reads of the store equal interpolation on the tape wherever both neighbours are on the tape and not yet overwritten |
| Ring.SampleOnLine | client/jni/AudioTool.cpp:75-102 | between two slots the read takes what lies on the straight line through their samples: from a tape `c + d * i` it takes `c + d * p` |
| Ring.ReadOnLine | client/jni/RingBuffer.h:105-124 | and so does every sample of a read, at its point |
| Ring.RingBuffer.WriteMono | client/jni/RingBuffer.h:35-80 | the tape after the write, plain or mixed; positions advance by the increment and the upper position is the end of the frame; the store still holds the last `n` positions |
| Ring.RingBuffer.ReadMono | client/jni/RingBuffer.h:105-124 | how many samples are read (up to the first point beyond the write position), their values, the untouched rest of the destination, and the proportional advance |
| Ring.RingBuffer.ReadAsManyAsPossibleMono | client/jni/RingBuffer.h:85-103 | terminates for every positive interval with exactly the drain count, and reads those samples |
| Ring.DrainExact | client/jni/RingBuffer.h:85-103 | the drain count is the number of points below the write position, and the final read position is less than one interval beyond it |
| Ring.RingBuffer.Reset | client/jni/RingBuffer.h:137-143 | positions and store cleared, the upper position kept, ready for any first write |
| OverlapAdd.MixedIsSum | client/jni/RingBuffer.h:44-76 | the tape of a run of mix writes is at every position the sum of what all frames contribute |
| OverlapAdd.MixedClosedForm | client/jni/PhaseVocoderMono.cpp:98 | after any number of frames at a fixed hop, `tape[p]` is the sum over exactly the frames covering `p`, at most `(len - 1) / hop + 1` of them and at least one |
| OverlapAdd.MixedFinal | client/jni/PhaseVocoderMono.cpp:98 | positions below the write position keep their value under all later frames |
| OverlapAdd.RunRefines | client/jni/RingBuffer.h:44-76 | over every run of mix writes with hop <= length < ring length the store holds the last ring length of the tape |
| OverlapAdd.ResetLikeNew | client/jni/RingBuffer.h:137-143 | every later run gives a reset ring the same readable contents as a new one |
| PhaseVocoder.FrameFits | client/jni/PhaseVocoderMono.cpp:89 | the guard of the loop leaves room for a whole frame, and a step no longer than a frame stays below the write position |
| PhaseVocoder.Output.AddFrame | client/jni/PhaseVocoderMono.cpp:98 | mixing in a frame keeps the output ring's invariant: read position <= write position + 1, no unread sample overwritten |
| PhaseVocoder.Output.Deliver | client/jni/PhaseVocoderMono.cpp:100 | so does handing out samples; those below the write position are settled for good |
| PhaseVocoder.Source.DrainEnds | client/jni/PhaseVocoderMono.cpp:117-127 | a drain ends for every positive step, however slow and however much input there is, after a number of rounds that is determined and at most the drain count |
| PhaseVocoder.PhaseVocoderMono.Put | client/jni/PhaseVocoderMono.cpp:74-80 | appends to the input tape and changes nothing else |
| PhaseVocoder.PhaseVocoderMono.Get | client/jni/PhaseVocoderMono.cpp:82-103 | renders exactly the frames the loop's guard asks for, from input read at the positions that RoundsRender gives in numbers, hands out min(wanted, left + 1) samples equal to the mixed tape from where the last call ended, terminates for every rate >= 0, and does not overrun its input when the step is no longer than a frame |
| PhaseVocoder.PhaseVocoderMono.RoundsRender | client/jni/PhaseVocoderMono.cpp:82-103 | the `j`-th frame is made of the input from `j` hops at the play rate behind the start, the input one hop at the pitch rate before that, each sample the pitch rate behind the last, and the phases that the frame before left; at equal rates the previous frame is the current one of the round before |
| PhaseVocoder.PhaseVocoderMono.Process | client/jni/PhaseVocoderMono.cpp:110-131 | appends the input, renders frames exactly while one is left, and hands out everything below the write position, equal to the mixed tape; its frames are read as those of `get` |
| PhaseVocoder.PhaseVocoderMono.RenderAll | client/jni/PhaseVocoderMono.cpp:117-127 | a frame is left before every round of the loop of `process`, and none after the last |
| PhaseVocoder.PhaseVocoderMono.SetPlayRate | client/jni/PhaseVocoderMono.cpp:207-213 | base rate times the rate, clamped at two; at equal pitch and base and an overlap of at least two, steps stay no longer than a frame |
| PhaseVocoder.PhaseVocoderMono.Reset | client/jni/PhaseVocoderMono.cpp:190-200 | both rings empty, phases zero, nothing handed out, and the invariant holds although the upper position is stale |
| VocoderRuns.SessionFits | client/jni/PhaseVocoderMono.cpp:82-103 | every run of calls keeps the output ring's invariant, whatever is put and whatever rates are set in between |
| VocoderRuns.SessionDelivers | client/jni/PhaseVocoderMono.cpp:82-103 | over any run of calls that starts with nothing handed out, the outputs joined together are positions 0, 1, 2, ... of the overlap-add of all frames rendered, once each, now and under all later frames; only positions handed out early may differ |
| VocoderRuns.DeliveredIsFinal | client/jni/PhaseVocoderMono.cpp:98-100 | a handed-out sample that is not marked early is the finished sum of the frames covering it, whatever frames come later |
| VocoderRuns.CompleteExactly | client/jni/PhaseVocoderMono.cpp:89-99 | a call renders all the frames its demand needs, and never more, if and only if, before the call, there is input for the last of them |
| VocoderRuns.EarlyExactly | client/jni/RingBuffer.h:112-113 | a call hands out one position early, the write position it reaches, if and only if, before the call, there is not enough input for what is wanted, except that a call with neither input nor output hands out nothing |
| VocoderRuns.EarlyIsUnfinished | client/jni/RingBuffer.h:112-113 | what an early sample misses is the first sample of the next frame |
| VocoderRuns.EarlyAtStart | client/jni/PhaseVocoderMono.cpp:82-103 | the first call of a new session that finds no input for a frame renders nothing and hands out position zero, early |
| VocoderRuns.BoundedStretch | client/jni/PhaseVocoderMono.cpp:87-98 | if every step is between `lo` and `hi` times the hop, then over any run the input consumed is between `lo` and `hi` times the output written |
| VocoderRuns.GuardSafeExactly | client/jni/PhaseVocoderMono.cpp:89-91 | for every tape and read position the guard admits only frames that lie wholly on the tape, if and only if `1 + (len - 1) * rate` is at most `len * rate` rounded up |
| VocoderRuns.FrameFromTape | client/jni/PhaseVocoderMono.cpp:91 | a frame read from the ring is the frame interpolated on the tape |
| VocoderRuns.BackFrameOnTape | client/jni/PhaseVocoderMono.cpp:94 | the second frame of a round lies on the tape, too, if and only if that much input has been passed already |
| AudioPlayer.RateDefinedExactly | client/jni/AudioPlayer.cpp:223-241 | the controller's rate is undefined exactly for deviation zero and buffered time equal to the average |
| AudioPlayer.AudioPlayer.UndefinedExactly | client/jni/AudioPlayer.cpp:217-241 | in a player, exactly while the variance of the gaps is zero and nothing is buffered |
| AudioPlayer.AudioPlayer.FreshIsUndefined | client/jni/AudioPlayer.cpp:217-241 | which is so in every new or stopped player |
| AudioPlayer.RateBounds | client/jni/AudioPlayer.cpp:227-241 | the rate stays in [0.9, 1.1] and is on the right side of 1 around the centre |
| AudioPlayer.RateOnLine | client/jni/AudioPlayer.cpp:223-241 | the rate in numbers: 0.9 below the average, 1.1 above eight deviations more, and between them the straight line through 1.0 at four |
| AudioPlayer.RateMonotone | client/jni/AudioPlayer.cpp:234-241 | more buffered time never gives a lower rate |
| AudioPlayer.PlayingStretch | client/jni/AudioPlayer.cpp:223-243 | over any run of callbacks at one base rate, from a new player on, 0.9 * base * written <= consumed <= 1.1 * base * written |
| AudioPlayer.PlayingDelivers | client/jni/AudioPlayer.cpp:202-288 | and what the callbacks have fetched is the overlap-add of all frames, position after position |
| AudioPlayer.AudioPlayer.AdjustRate | client/jni/AudioPlayer.cpp:217-243 | the vocoder's rate becomes the controller's for the time buffered now, on the same line relative to the base rate; it is not a number only when the queue is empty and no frame is due |
| AudioPlayer.AudioPlayer.BufferedTimeIs | client/jni/AudioPlayer.cpp:217-231 | 21533.203125 for each packet queued and 22.675736961 for each sample of input not yet passed |
| AudioPlayer.AudioPlayer.BufferQueueCallback | client/jni/AudioPlayer.cpp:202-288 | one or two fetches that follow each other and render only with steps within a tenth of the base rate, and nothing while the rate is undefined; a packet is taken exactly if the first comes back empty, its samples are appended to the input, and a second fetch is made exactly if there are any; what the last fetch handed out is enqueued, or silence |
| AudioPlayer.YieldExactly | client/jni/AudioPlayer.cpp:255-268 | a packet yields what the decoder makes of it, exactly if neither is empty or longer than 32768 |
| AudioPlayer.ShortExactly | client/jni/AudioTool.cpp:8-19 | a sample becomes its 32768-fold without the fraction, or the nearest end of the range |
| PhaseUnwrap.WrapPhase | client/jni/AudioTool.h:96-99 | the result is in [-pi, pi) and differs from the phase by whole turns |
| PhaseUnwrap.UnwrapPhase | client/jni/AudioTool.cpp:204-214 | in place: every element stays congruent to the original, steps are in [-pi, pi), the first element and everything behind the length stay |
| PhaseUnwrap.UnwrappingUnique | client/jni/AudioTool.cpp:204-214 | these properties determine the result |
| PhaseUnwrap.UnwrappingIdempotent | client/jni/AudioTool.cpp:204-214 | unwrapping twice is unwrapping once |
| PhaseUnwrap.WrapFirst | client/jni/AudioTool.cpp:204-214 | wrapping the input first shifts the result by a constant |
| JitterSpec.OffersKeepLargest | client/src/voice/VoicePriorityList.java:21-45 | after any offers without polls the list is the LIST_SIZE largest distinct numbers offered, ascending |
| JitterSpec.OrderDoesNotMatter | client/src/voice/VoicePriorityList.java:21-45 | offers of the same set of numbers, in any order and with any repetition, give the same list |
| JitterSpec.RunConserves | client/src/voice/VoicePriorityList.java:21-55 | over every run, accepted numbers are the disjoint union of polled, evicted and queued |
| JitterSpec.AtMostOnce | client/src/voice/VoicePriorityList.java:21-55 | no number is polled twice, or polled and also evicted or queued |
| JitterSpec.PolledInOrder | client/jni/PriorityQueue.cpp:23-111 | if no accepted packet comes after more than `k` larger ones and every poll finds more than `k`, polled numbers strictly increase |
| JitterSpec.GuaranteeIsTight | client/jni/PriorityQueue.cpp:80-111 | for every `k` and every list that holds that many there is a run, all arrivals in time, in which polls find exactly `k` items and a number is polled behind a larger one |
| JitterQueues.VoicePriorityList.Offer | client/src/voice/VoicePriorityList.java:21-45 | the insertion loop refines the specification; accepted exactly if the number is new; its branch for a number found in the list is never taken |
| JitterQueues.PriorityQueue.Put | client/jni/PriorityQueue.cpp:23-78 | the same list, and the gap statistics advance exactly for accepted packets |
| JitterQueues.PriorityQueue.Get | client/jni/PriorityQueue.cpp:80-111 | the head is removed whether or not it fits; the buffer holds it exactly if it fits and is unchanged elsewhere |
| JitterQueues.Gaps.ArrivalKeepsBounded | client/jni/PriorityQueue.cpp:55-69 | while the clock does not run backwards, the average gap stays within the largest gap and the variance within its square |
| JitterQueues.Gaps.ArrivalKeepsSound | client/jni/PriorityQueue.cpp:55-69 | whatever the clock does, the variance is not negative, and zero only if the average is |
| JitterQueues.Gaps.ArrivalApproaches | client/jni/PriorityQueue.cpp:55-69 | each arrival takes the average a hundredth of the way to the gap, and a hundredth of the square of the rest into the variance |
| JitterQueues.RegularApproaches | client/jni/PriorityQueue.cpp:55-69 | while packets come regularly the average approaches their gap, 0.99 of the distance being left after each |
| PooledPriorityLists.PooledPriorityList.Offer | server/voice/VoicePriorityList.java:25-51 | refines the same specification, and the buffer back in the pool is the one whose number the specification evicts |
| PooledPriorityLists.PooledPriorityList.Reset | server/voice/VoicePriorityList.java:64-73 | all buffers back in the pool in order, numbers forgotten |
| Framing.MarkerEndsPayload | server/voice/PacketTokenizer.java:15 | the marker has no border: behind a marker-free payload the first match is the marker itself |
| Framing.ChunkIndependence | server/voice/PacketTokenizer.java:25-89 | tokens of a stream are those of a prefix followed by those of the carried-over rest and what comes next |
| Framing.PartsRebuild | server/voice/PacketTokenizer.java:45-85 | a stream is its parts, each with a marker, and the rest; packets are the non-empty parts |
| Framing.FramingUnique | server/voice/PacketTokenizer.java:45-85 | a stream has only one reading as marker-free parts and a rest |
| Framing.FramingRoundTrip | server/session/SessionHandler.java:165-170 | any list of non-empty marker-free payloads, framed, comes back exactly |
| Framing.PayloadSurvivesExactly | server/session/SessionHandler.java:165-170 | a payload comes back if and only if it is not empty and marker-free |
| PacketTokenizing.ScanIsTokens | server/voice/PacketTokenizer.java:45-85 | the scan from the resume position finds the same pieces as a full one and stops where the next marker may start |
| PacketTokenizing.PutIsTokens | client/src/network/PacketTokenizer.java:22-85 | a chunk that fits: packets are the tokens of held bytes and chunk, held is the rest, resume position is max(0, held - 7) |
| PacketTokenizing.AnyChunking | server/voice/PacketTokenizer.java:25-89 | for every stream and every cutting that never overfills the store, the packets are the pieces of the whole stream, cut to the buffer size, and the held bytes its rest |
| PacketTokenizing.FramesNeverOverfull | server/voice/PacketTokenizer.java:29-43 | frames of bounded payloads in chunks of bounded size never overfill the store |
| PacketTokenizing.FramesArriveSoFar | server/voice/PacketTokenizer.java:25-89 | what has arrived of a framed stream, however cut into chunks of bounded size, is the first so many payloads as sent, and all of them once all has arrived |
| PacketTokenizing.LongPayloadIsCut | server/voice/PacketTokenizer.java:45-85 | a payload longer than a packet buffer arrives without its end, and the one behind it as sent |
| PacketTokenizing.OverflowExactly | server/voice/PacketTokenizer.java:31-36 | a put of something leaves the tokenizer in step if and only if it does not find the store full |
| PacketTokenizing.FullIsStuck | server/voice/PacketTokenizer.java:31-36 | from a full store on, no sequence of chunks yields any packet |
| PacketTokenizing.FullIsReached | server/voice/PacketTokenizer.java:31-36 | any bytes without a marker that fill the store lead there, however they are cut into chunks |
| PacketTokenizing.FullExists | server/voice/PacketTokenizer.java:31-36 | there are such bytes, in chunks of any size that divides the store's, such as the 1024 bytes of a pool buffer |
| PacketTokenizing.PacketTokenizer.Put | client/src/network/PacketTokenizer.java:22-85 | the method in place refines the specification for every chunk, truncation and refusal included; refused exactly if the store is full |
| PacketTokenizing.PacketTokenizer.ScanStore | server/voice/PacketTokenizer.java:45-85 | the scanning loop with emission and compaction is the recursive scan |
| PacketTokenizing.PacketTokenizer.Flush | client/src/network/PacketTokenizer.java:92-97 | as new, resume position included |
| VoicePacket.BuildParses | client/src/network/VoiceManager.java:118-140 | every packet built passes the length check, shows phone number and sequence number, and parses to what was put in |
| VoicePacket.BuiltLayout | client/src/network/VoiceManager.java:118-140 | where each field of the packet is, numbers with the highest byte first |
| VoicePacket.AddressLayout | client/src/network/VoiceManager.java:206-231 | the same for the packet that tells an address |
| VoicePacket.ParsedWasBuilt | client/src/network/VoiceManager.java:292-325 | every packet accepted is the one built from what was read |
| VoiceManagers.VoiceManager.Write | client/src/network/VoiceManager.java:118-145 | the packet, with the marker on TCP, exactly if it fits the buffer |
| VoiceManagers.VoiceManager.Transmit | client/src/network/VoiceManager.java:106-199 | what is on the channel is earlier packets and those of the transmission, framed: each voice, and behind each of the first five the address if there is one |
| VoiceManagers.TransmissionAt | client/src/network/VoiceManager.java:106-199 | where in a transmission each voice is, with its address right behind it if it is one of the first five and there is one |
| VoiceManagers.VoiceManager.StartTransmission | client/src/network/VoiceManager.java:79-83 | the next five voices are again followed by addresses |
| Relays.TransmissionVoices | client/src/network/VoiceManager.java:106-199 | the voice packets of a transmission are those of its voices, in order, and none of its packets ends a read of the server |
| VoiceManagers.VoiceManager.Read | client/src/network/VoiceManager.java:286-334 | packets of the chunk are played in order up to the first rejected one, which is dropped; those behind it stay queued |
| VoiceManagers.HeardExactly | client/src/network/VoiceManager.java:286-334 | when the `k`-th packet is the first to be rejected, the `k` before it are played and all behind it stay |
| VoiceManagers.ChunkedReading | client/src/network/VoiceManager.java:286-334 | reading chunk by chunk plays what reading the whole stream would, if every packet is accepted |
| Ownership.ConsistentIsPartition | server/main/BufferPool.java:44-89 | in a consistent state every key is at exactly one place and one index there |
| Ownership.MovedConsistent | server/main/BufferPool.java:44-89 | moving a front buffer to the back of another place keeps that |
| BufferPools.BufferPool.Allocate | server/main/BufferPool.java:44-66 | the front buffer, whose semaphore was zero, or nothing |
| BufferPools.BufferPool.Deallocate | server/main/BufferPool.java:68-89 | taken back exactly if it is out; null and double frees change nothing |
| VoiceDataLists.FirstInFirstOut | server/voice/VoiceDataList.java:25-67 | over every run of offers, polls and resets, what has left the list followed by what is in it is the sequence of arrivals that are the first of their number since the last reset; at most LIST_SIZE are listed |
| VoiceDataLists.PolledInArrivalOrder | server/voice/VoiceDataList.java:25-53 | what was polled is a subsequence of the first arrivals |
| VoiceDataLists.VoiceDataList.Offer | server/voice/VoiceDataList.java:25-40 | listed exactly if the number is new; the oldest goes back to the pool on overflow |
| VoiceDataLists.VoiceDataList.Reset | server/voice/VoiceDataList.java:55-67 | all buffers back in order, numbers forgotten |
| Traffics.RunOutcome | server/voice/VoiceTcpManager.java:186-296 | a read ends at the first packet not handled, with that packet's code; the packets behind it stay queued; a buffer is lost only by an exception |
| Traffics.ReadsCompose | server/voice/VoiceTcpManager.java:186-296 | packets behind others are handled as by a later read, so how the stream was cut into reads does not matter to lists, pool and output |
| Traffics.CodeThrows | server/voice/VoiceTcpManager.java:186-296 | a queue makes its read throw if and only if one of its packets is too short for its type and no earlier one ends the read |
| Traffics.TcpLosesExactly | server/voice/VoiceTcpManager.java:128-297 | a read loses a buffer if and only if, with a free buffer and bytes for a known channel that is not full, the packets found outnumber the buffers left or a packet queued then makes it throw |
| Traffics.UdpLosesExactly | server/voice/VoiceUdpManager.java:104-221 | a read loses its buffer exactly if the datagram ends too early or is of neither known type |
| Traffics.UdpSends | server/voice/VoiceUdpManager.java:181-206 | a datagram of a session that is calling another one is answered with the whole list of that one as it was, packet by packet without markers, and no other with anything |
| Traffics.UnknownTypeExists | server/voice/VoiceUdpManager.java:181-220 | for every active number and every other type there is such a datagram |
| Traffics.SessionLosesExactly | server/session/SessionHandler.java:182-264 | a session's read loses a buffer if and only if, with input and a tokenizer that is not full, the packets found outnumber the free buffers, or the first of those queued then is unencrypted and longer than the 512 bytes it is copied to, or they lead, through messages that keep the session open, to one whose flag needs a cipher the session lacks, or whose handling throws |
| Traffics.FateExactly | server/session/SessionHandler.java:203-248 | which flags need which cipher, and when a packet is a message |
| Traffics.SessionRunEnds | server/session/SessionHandler.java:203-264 | the loop stops at the first packet that is no message, with the code of its fate, and those behind it stay queued |
| Traffics.SessionRunGood | server/session/SessionHandler.java:203-264 | without such a packet it handles all and reports success |
| Traffics.SelectorQueues | server/session/SessionManager.java:203-249 | input of a session with a handler is queued behind what it has |
| ServerSteps.RunLosesExactly | server/main/BufferPool.java:44-89 | over any run of TCP, UDP, socket and session reads, accepts and closes, what is lost stays lost, and nothing is lost if and only if no step is, where it comes, one of those that lose a buffer |
| ServerLists.ReadIsRun | server/voice/VoiceTcpManager.java:186-296 | a whole read is for any session's list a run of arrivals and polls |
| ServerLists.ServerFirstInFirstOut | server/voice/VoiceTcpManager.java:186-296 | so first-in-first-out and the bound hold for the lists inside the server, across reads |
| ServerLists.SentWasPolled | server/voice/VoiceTcpManager.java:244-273 | what is written for one packet is what is polled from the peer's list, with markers: all of it up to ten packets, and the eleventh is not written |
| ServerLists.RunSends | server/voice/VoiceTcpManager.java:186-296 | what a whole read writes is the packets it forwards, in order, each with its marker |
| ServerLists.RunForwardsPolled | server/voice/VoiceTcpManager.java:186-296 | if all whose packets are read are calling `s`, what the read forwards is, in order, part of what it polls from the list of `s` |
| ServerRuns.StepsAreRun | server/voice/VoiceTcpManager.java:128-297 | over any run of the server's steps, each with the registrations and calls of its moment, a session's list is led along by its arrivals, polls and resets |
| ServerRuns.AffectedList | server/session/Session.java:758-780 | closing a session resets its list and that of whom it was calling, a reset the list named, and neither touches another |
| ServerRuns.SessionRunList | server/session/SessionHandler.java:203-264 | a session's read resets exactly the lists that the messages it handles name |
| ServerRuns.WrittenIsForwarded | server/voice/VoiceTcpManager.java:249-266 | over any run, what is written to a channel is the packets forwarded to it, with markers |
| ServerRuns.ForwardedWasDelivered | server/voice/VoiceTcpManager.java:244-273 | and these are, in order, part of what the run delivers from the list that the channel's senders are calling |
| ServerRuns.UdpSentIsDelivered | server/voice/VoiceUdpManager.java:181-206 | over any run, what the datagrams of a session's callers are answered with is, packet by packet, what those steps deliver from its list, an ordered part of all that is delivered from it |
| ServerStreams.ArrivedWasFound | server/voice/VoiceTcpManager.java:128-297 | over any run, what has arrived in a session's list and what is still queued at its channel are, in order, part of the packets of the channel's stream, also when reads fail, lists are reset or the pool runs out |
| ServerStreams.ArrivedIsVoice | server/voice/VoiceTcpManager.java:186-296 | and what has arrived is voice under the session's phone number, whatever other packets are in the stream |
| ServerStreams.AllArrive | server/voice/VoiceTcpManager.java:128-297 | of the packets found exactly those voices arrive, if no packet of the stream ends a read, the session is registered and the pool suffices |
| ServerStreams.BuiltPasses | server/voice/VoiceTcpManager.java:188-241 | a packet built with the number of an active session passes all checks as voice of that session |
| ServerStreams.DataExactly | server/voice/VoiceTcpManager.java:188-241 | a packet is voice of a session if and only if it is voice under the number it is registered with and the manager has it active; on UDP alike |
| ServerStreams.PassesExactly | server/voice/VoiceTcpManager.java:188-294 | the loop goes on behind a packet if and only if its length tag is right, its number known and active, and it is as long as its type demands |
| ServerStreams.GoodExactly | server/voice/VoiceTcpManager.java:128-297 | a read reports success if and only if it gets to its packets and goes on behind all of them |
| RelayRuns.MovesLead | server/voice/VoiceTcpManager.java:128-297 | wherever such an exchange stops, what waits is in the speaker's list, in order, and all before it has been forwarded |
| VoiceServers.VoiceServer.OnePlaceEach | server/main/BufferPool.java:44-89 | between steps each key is at exactly one place: pool, one tokenizer, one session queue, one voice list, or lost |
| VoiceServers.VoiceServer.PutVoiceBuffer | server/session/Session.java:731-737 | the packet is listed or freed, an evicted one freed, as the list specification says |
| VoiceServers.VoiceServer.RelayTcp | server/voice/VoiceTcpManager.java:244-273 | up to eleven of the peer's packets leave for the pool; the first ten are written with markers, those without room for one skipped |
| VoiceServers.VoiceServer.HandlePackets | server/voice/VoiceTcpManager.java:186-296 | the packet loop does exactly what the specification says to code, memory and output, and leaves nothing in hand |
| VoiceServers.VoiceServer.ReadTcp | server/voice/VoiceTcpManager.java:128-297 | the whole read of the bytes a socket has, through the channel's tokenizer, on every path: empty pool, failed read, unknown channel, full tokenizer, exhausted pool, packets |
| VoiceServers.VoiceServer.ReadUdp | server/voice/VoiceUdpManager.java:104-221 | the whole read, on every path; what it sends is what UdpSends says |
| VoiceServers.VoiceServer.ReadSocket | server/session/SessionManager.java:203-249 | input is queued for the session exactly if there is any and the session has a handler; otherwise the buffer is freed |
| VoiceServers.VoiceServer.ReadSession | server/session/SessionHandler.java:182-264 | input goes through the session's tokenizer; every packet found is freed behind its message, or early, or lost, as its flag and the session's cipher decide |
| VoiceServers.VoiceServer.OnClose | server/session/Session.java:758-780 | tokens, list and input of the session and the list of its peer are back in the pool |
| VoiceServers.VoiceServer.Close | server/voice/VoiceTcpManager.java:299-320 | the channel's packets are back in the pool and its tokenizer is gone |
| Relays.ForwardedWasWritten | server/voice/VoiceTcpManager.java:186-273 | over any run of the server's steps, what is forwarded to the other side is, in order, part of the voice packets the sender built, whatever else its stream contains |
| Relays.WrittenExactly | server/voice/VoiceTcpManager.java:249-266 | a packet is written, with its marker, if and only if it has at most 1015 bytes |
| Relays.ClientPlays | client/src/network/VoiceManager.java:286-334 | a client that has got a beginning of the relayed stream, however cut, has played the first so many of its voices |
| Relays.RelayRoundTrip | client/src/network/VoiceManager.java:118-145 | end to end, for every run of the server's steps, UDP reads, resets, calls and closes of other channels included: of the voices written, the other client plays a subsequence, unchanged and in order, and everything forwarded once it has got all |
| Relays.RelayComplete | client/src/network/VoiceManager.java:292-325 | with the sender registered, a stream without packets that end a read, enough buffers, distinct numbers, no eviction and everything polled and forwarded, it plays exactly what was written |
| RelayRuns.RelayDelivers | server/voice/VoiceTcpManager.java:128-297 | such runs exist, for any number of voices with distinct numbers and addresses between them, at every server with two quiet channels, a call from the asking side to the speaking one, answered or not, and 112 free buffers: if the other side never lets more than ten voices wait before its next packet, it plays them all |
| Registration.ChoiceFails | server/session/ConnectionMonitor.java:245-272 | no manager is chosen exactly when all hundred draws hit one not running; otherwise the choice was drawn and found running |
| Registration.PickUdp | server/session/ConnectionMonitor.java:257-272 | the last one drawn that runs, with the four behind it, all of which exist |
| Registration.GoneAgrees | server/session/Session.java:581-593 | leaving all managers keeps forward and reverse index in agreement |
| Registration.RegisteredAgrees | server/session/Session.java:513-514 | so does registering, duplicates included |
| Registration.OffersKept | server/session/Session.java:509-533 | every port told to a client is that of a manager serving its session |
| Registration.OffersTell | server/session/Session.java:509-533 | the ports told are that of the first TCP manager drawn that runs, and five from that of the last UDP one |
| Registration.OfferStaysGood | server/session/Session.java:509-533 | and stays so whatever other sessions do |
| Registration.NoOfferAfterwards | server/session/Session.java:581-593 | and no longer once the session has left |
| Registration.Switchboard.LeaveManagers | server/session/Session.java:707-719 | draining both queues removes the session from every manager that serves it |
| Registration.Switchboard.AcceptCall | server/session/Session.java:497-544 | both sides registered with managers drawn for each, every port told to either is served for it, other sessions' queues unchanged; nothing outside a call |
| Registration.Switchboard.EndCall | server/session/Session.java:564-598 | both sides leave all managers and the call: neither calls anybody and both can be called again; nothing outside a call |
| Registration.Switchboard.OnClose | server/session/Session.java:758-807 | as at the end of a call, in every state, and the session has ended: it calls nobody, and whom it was calling calls nobody and can be called |
| Registration.CallEndedFrees | server/session/Session.java:564-598 | afterwards neither side is served or has anything queued, and nobody else is affected |
| Registration.CallEnds | server/session/Session.java:564-598 | afterwards neither side calls anybody, the side called off can be called, the other is in the state it ended in, and nobody else's call or state is touched |
| OperationCodec.MessageRoundTrip | server/session/Session.java:116-137 | any number of operations with delimiter-free fields come apart into the fields of each, in order, without empty ones at the end |
| OperationCodec.DroppedExactly | server/session/Session.java:116-137 | what splitting drops is all the empty strings at the end, and nothing else |
| OperationCodec.SurvivesExactly | server/session/Session.java:602-617 | an operation comes back as built if and only if its fields are delimiter-free and the last is not empty |
| OperationCodec.BuildOperation | server/session/Session.java:602-617 | operator and arguments, each terminated, and the operation's end |
| OperationCodec.PutInputMessage | server/session/Session.java:116-137 | the record arrays of the message in order, empty ones skipped |
| OperationCodec.NonEmptyJoin | server/session/Session.java:116-137 | records are handed on part by part, whatever comes before and behind |

## Left out

- Ring.RingBuffer.WriteMono: requires a frame no longer than the ring, which the source would copy beyond its memory, and one that does not end before the frame written last, for which the tape would have to shrink.
- PhaseVocoder.PhaseVocoderMono.Process: requires the output ring to have room for all frames the input will bring; without that the source overwrites output it has not read. That it ends all the same is PhaseVocoder.Source.DrainEnds. It models the four-argument overload; the five-argument one is `put` followed by `get`.
- PhaseVocoder.PhaseVocoderMono.DoManipulation: window, FFT and phase arithmetic are one arbitrary function from frames and phases to frame and phases.
- PhaseVocoder.PhaseVocoderMono.SetPitchRate: requires a pitch rate below 128, so that the second read of a frame is never a whole ring behind the first.
- AudioPlayer.AudioPlayer.constructor: requires the ratio of the sample rates below 128 for the same reason.
- AudioPlayer.AudioPlayer.BufferQueueCallback: takes the deviation, the root of the variance, as a parameter. A rate that is not a number is any number there, which nothing is rendered with.
- PacketTokenizing.PacketTokenizer.Put: emits packets as byte sequences; on the server they are put into pool buffers, which VoiceServers.VoiceServer.EmitAll does.
- VoiceServers.VoiceServer.ReadTcp: keeps the state of tokenizers as values, which PacketTokenizing.PacketTokenizer refines; after an exception in mid-emission, where the source's thread ends, it keeps the state behind the chunk. A phone number is the bytes looked up in a phone book; a socket write always succeeds in full.
- VoiceServers.VoiceServer.ReadSession: takes whether a packet deciphers and what its message does to buffers, an exception included, as parameters; the reuse of the first packet's contents for later unencrypted packets (SessionHandler.java:203, 251-254) is not modelled.
- Relays.RelayRoundTrip: is about a sender who speaks on one channel, under one phone number, in packets of up to 1015 bytes without the marker; one that speaks on several transports at once can have its voices listed out of order. The set of sessions that have queues does not change during a run.
- Registration.Switchboard.AcceptCall: draws and whether managers run are parameters; the voice lists reset by it are modelled in VoiceServers.
- IEEE rounding and 32-bit overflow of ring positions: reals and unbounded integers instead.
- Locks and finer interleaving: each method is one atomic step.
- Encryption, AAC, OpenSL, JNI, the Android user interface, sockets, selectors, SQLite, firewall commands and the clock.
- Whether two sessions call each other: CALL_TO and CALL_TO2 do not keep it, and nothing here claims it.
- Phone-number and prank-key maps, and the other operations of the session protocol.
- PacketTokenizer2, which no manager uses.
