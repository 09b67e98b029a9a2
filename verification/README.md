# AirPlay receiver: model and proofs

A Dafny model of the parts of the AirPlay receiver that decide rather than plumb: the audio
timeline, the video bitstream path, the TCP client lifecycle, request framing, playlist
rewriting, the recorder's timelines and the now-playing tag tree. Code that changes state step by
step is modelled as methods with loops, classes with fields, and arrays changed in place; each is
proved against a function on values, and the properties are proved about that function.
`dafny verify dfyconfig.toml` checks the whole project.

## How it is laid out

- `NtpClock.dfy`, `NtpClient.dfy`, `NtpAccuracy.dfy`: the NTP-style estimator (section 8 of RFC
  5905), its probes, and how far its answers can be from the truth.
- `RtpFlush.dfy`, `RtpInfo.dfy`: trimming a PCM block at a wrapping RTP boundary (section 5.1 of
  RFC 3550) and reading that boundary from a FLUSH request.
- `AudioQueue.dfy`, `AudioReceiver.dfy`: what each mutex-protected block does to the PCM queue, on
  values and as methods of the receiver. `AudioAxis.dfy` is the same machine on unbounded
  positions; `AudioOrder.dfy` proves what every step keeps, `AudioRuns.dfy` what every run does, and
  `AudioMeaning.dfy` what pauses, late packets and playout are for.
- `Bits.dfy`, `BitWriter.dfy`, `BitReader.dfy`, `Emulation.dfy`, `Sps.dfy`: bits, Exp-Golomb codes,
  emulation prevention, and the SPS parser against the printer of section 7.3.2.1.1 of ITU-T H.264.
- `NalStream.dfy`, `AnnexB.dfy`, `DecoderConfig.dfy`, `Decoder.dfy`: length prefixes become start
  codes in place, avcC and hvcC records, and the packets handed to the codec, read back by the
  rules of annex B.
- `TcpServer.dfy`, `TcpSafety.dfy`, `TcpProgress.dfy`: accept thread, workers and disconnecting
  caller as one interleaved step system, with descriptors the operating system may reuse at once;
  what every run keeps, and that waiting calls are never stuck.
- `Text.dfy`, `RtspText.dfy`, `RtspReader.dfy`, `RtspWire.dfy`, `RtspMeaning.dfy`: request framing over
  arbitrarily cut reads (section 4.4 of RFC 2326), messages as they are written, and what blanks,
  letter case and numerals mean in them.
- `HlsRewrite.dfy`, `HlsUndo.dfy`, `HlsLines.dfy`: rewriting segment URLs, undoing it by the recorded
  map, and what becomes of each line and attribute.
- `Recorder.dfy`: video stamps, audio alignment, and cutting PCM into AAC frames.
- `Daap.dfy`: the recursive walk over DMAP tags.
- `Words.dfy`, `Wrappers.dfy`, `Arithmetic.dfy`, `Decimals.dfy`: fixed-width words and shared facts.

## Where the code differs from what one would expect

- Half the round trip plus 2 ns does not bound the error of the clock's answers at any round trip: the
  least slack is 2 + 1953123/2^23 ns (about 2.233), and half a nanosecond more when the round trip is
  odd (`NtpAccuracy.SlackIsExact`, `NtpAccuracy.BoundsAreExact`). Only for a sender whose events all
  fall on whole nanoseconds of the local clock is it 2 ns at even round trips
  (`NtpAccuracy.SlackInTicks`).
- A FLUSH whose boundary lies inside a restored tail that live packets have not reached yet lets the
  next packet in on top of that tail. `AudioRuns.BoundaryRuleIsExact` gives the exact condition, and
  `AudioRuns.OverlapIsReachable` shows that ordinary steps lead there.
- A FLUSH that comes while a tail carried over from an earlier stream is still waiting does not drop
  it: the next packet, even one the boundary refuses, puts that tail in front of itself, before the
  boundary (`AudioRuns.OlderTailEnters`). `AudioRuns.OlderEntersRunExactly` says exactly when.
- Trimming a block that reaches across the label opposite to the boundary is not the per-sample
  filter (`RtpFlush.TrimIsFilter` states exactly when it is).
- The comments on `parse_avcc` say a blob must be fully consumed; the code accepts any bytes after
  the last PPS (`DecoderConfig.TrailingBytesAreAccepted`).
- A parameter set whose cropping unit is not that of 4:2:0 is reported with a wrong size as soon as
  anything is cropped (`Sps.ParsesWhatWasPrinted`).
- A unit that ends in a zero byte in front of another one is not read back from a packet
  (`AnnexB.SplitPacket`); units made by an encoder never do (`AnnexB.EncodedUnits`).
- The reader checks its 64 KiB limit after appending a piece, even when the section has just become
  complete, so whether a section above 61441 bytes gets through depends on the chunking, unless at
  most 65536 bytes are left of the stream when it begins (`RtspReader.ChunksNeverMatter`).
- An avcC reading is tried first, so an hvcC record whose header happens to spell one is taken for it
  (`Decoders.HvcReadAsAvc`, `Decoders.HvcConfigures`).
- The header comment on playlist rewriting says comment lines are preserved verbatim; the code
  rewrites `URI` attributes inside them. A carriage return at the end of a URI line is lost
  (`HlsUndo.RestoredExactly`).
- The comment on `parse_daap_mlit` promises true exactly for a body that starts with `mlit`; the code
  returns true exactly when some field was found (`Daap.FoundExactly`, `Daap.LoneTitleIsFound`,
  `Daap.EmptyContainerIsNotFound`).
- Sound recorded before the first picture is skipped in its first block only. When that block is
  shorter than what must be skipped, all sound is early by the difference, for the whole recording
  (`Recorder.AlignmentIsWithinOneSample`, `Recorder.LongSkipIsCutShort`).
- The recorder drops an odd last PCM value (`Recorder.Worker.PadLast`).

## Model

| member | source | states |
|---|---|---|
| `NtpClocks.DeltaIsWithinOneNs` | src/airplay/ntp_clock.h:13-21 | the computed difference of two stamps is less than one nanosecond from the exact one, in units of 2^-32 s |
| `NtpClocks.DeltaIsMonotone` | src/airplay/ntp_clock.h:13-21 | a stamp that is later relative to the reference never gets a smaller difference |
| `NtpClocks.DeltaIsAntisymmetric` | src/airplay/ntp_clock.h:13-21 | exchanging the stamps negates the difference if and only if the seconds do not differ by exactly 2^31 |
| `NtpClocks.SecondsExactly` | src/airplay/ntp_clock.h:14-17 | the seconds of a difference are the number in [-2^31, 2^31) that agrees with it modulo 2^32 |
| `NtpClocks.LagOfLabels` | src/airplay/ntp_clock.h:14-20 | within 68 years the exact difference of two wrapped stamps is that of the unbounded times, also across the rollover of the seconds |
| `NtpClocks.NtpClock.Observe` | src/airplay/ntp_clock.h:23-34 | a reply is stored exactly when the source accepts it; the history grows by that sample and stays what the replies observed so far leave behind |
| `NtpClocks.NtpClock.Store` | src/airplay/ntp_clock.h:32-32 | after any number of samples, also past the wrap of the 32-bit counter, slot i holds the latest sample whose number is i modulo 8 |
| `NtpClocks.NtpClock.LocalTime` | src/airplay/ntp_clock.h:36-47 | the answer comes from a sample of least round trip among the last eight that are not in the future and at most 30 s old; none if there is no such sample or the mapped difference exceeds 30 s |
| `NtpClocks.AcceptedExactly` | src/airplay/ntp_clock.h:23-34 | a reply is taken if and only if both stamps are set, the processing time is not negative, and the elapsed time and the delay lie within the limits, written out in nanoseconds; and what the sample then holds |
| `NtpClocks.AnswersExactly` | src/airplay/ntp_clock.h:36-47 | a value is an answer if and only if one of the last eight samples, not in the future, at most 30 s old and with the least round trip of these, maps the stamp to it within 30 s |
| `NtpClocks.RecentExactly` | src/airplay/ntp_clock.h:36-42 | the last eight samples |
| `NtpAccuracy.SampleIsAccurate` | src/airplay/ntp_clock.h:23-47 | one accepted reply of a sender with a constant offset and non-negative network legs maps any nearby instant less than ceil(rtt/2) + 2 + 1953123/2^23 ns late and less than floor(rtt/2) + 1 + 1953124/2^23 ns early |
| `NtpAccuracy.AcceptedComeFromReplies` | src/airplay/ntp_clock.h:23-34 | every sample in the history was made by the acceptance test from one of the replies |
| `NtpAccuracy.LocalTimeIsAccurate` | src/airplay/ntp_clock.h:23-47 | the same bounds for every answer, after every history of accepted and rejected replies |
| `NtpAccuracy.ClockIsAccurate` | src/airplay/ntp_clock.h:23-47 | the same for the ring as it stands and anything its local_time may return |
| `NtpAccuracy.LateEndIsApproached` | src/airplay/ntp_clock.h:23-47 | at every round trip the clock accepts, honest replies whose answers come as close to the late bound as one likes |
| `NtpAccuracy.EarlyEndIsApproached` | src/airplay/ntp_clock.h:23-47 | at every round trip the clock accepts, honest replies whose answers come as close to the early bound as one likes |
| `NtpAccuracy.BoundsAreExact` | src/airplay/ntp_clock.h:23-47 | at every round trip, an open interval contains the errors of all answers if and only if it contains the one of the bounds |
| `NtpAccuracy.SlackIsExact` | src/airplay/ntp_clock.h:23-47 | at every round trip, half of it plus a slack bounds the error of every answer if and only if the slack is at least 2 + 1953123/2^23 ns (even) or half a nanosecond more (odd); 2 ns never do |
| `NtpAccuracy.TicksAreAccurate` | src/airplay/ntp_clock.h:23-47 | special case, one sample of a sender acting on whole nanoseconds: at most ceil(rtt/2) + 2 ns late and floor(rtt/2) + 1 ns early |
| `NtpAccuracy.LocalTimeInTicks` | src/airplay/ntp_clock.h:23-47 | special case: the whole-nanosecond bounds for every answer after every history of such replies |
| `NtpAccuracy.ClockInTicks` | src/airplay/ntp_clock.h:23-47 | special case: the same for the ring as it stands and anything its local_time may return |
| `NtpAccuracy.LateEndIsReached` | src/airplay/ntp_clock.h:23-47 | special case: at every round trip the clock accepts, a reply whose sample is exactly ceil(rtt/2) + 2 ns late |
| `NtpAccuracy.EarlyEndIsReached` | src/airplay/ntp_clock.h:23-47 | special case: at every round trip the clock accepts, a reply whose sample is exactly floor(rtt/2) + 1 ns early |
| `NtpAccuracy.TicksAreExact` | src/airplay/ntp_clock.h:23-47 | special case: at every round trip the errors of answers lie within the whole-nanosecond bounds, and answers reach both ends |
| `NtpAccuracy.SlackInTicks` | src/airplay/ntp_clock.h:23-47 | special case of whole nanoseconds: the slack must be at least 2 ns (even) or 2.5 ns (odd) |
| `NtpClients.PutU32Be` | src/airplay/ntp_client.cpp:37-42 | writes the four bytes of the word, most significant first, and nothing else |
| `NtpClients.PutU64Be` | src/airplay/ntp_client.cpp:44-47 | writes the eight bytes of the word and nothing else |
| `NtpClients.GetU64Be` | src/airplay/ntp_client.cpp:49-53 | reads the number the eight bytes spell |
| `NtpClients.BeValueOfBe64` | src/airplay/ntp_client.cpp:44-53 | reading the eight written bytes gives the written number |
| `NtpClients.PutNtpTimestamp` | src/airplay/ntp_client.cpp:57-63 | writes the NTP stamp of the instant and nothing else |
| `NtpClients.NtpStampIsStamp` | src/airplay/ntp_client.cpp:57-63 | the written stamp is that of an exact clock counting from 1900, modulo 2^64 |
| `NtpClients.StampsMeasureTime` | src/airplay/ntp_client.cpp:57-63 | the difference of two written stamps is the elapsed time within one nanosecond |
| `NtpClients.StampNamesInstant` | src/airplay/ntp_client.cpp:236-237 | two send times have equal stamps if and only if they differ by whole turns of the 32-bit seconds |
| `NtpClients.EpochIs1900` | src/airplay/ntp_client.cpp:57-63 | stamps count from 1900: 70 years with 17 leap days before the system clock |
| `NtpClients.NtpClient.constructor` | src/airplay/ntp_client.cpp:129-134 | the first request: header, zero fields, and the stamp of the send time |
| `NtpClients.NtpClient.Send` | src/airplay/ntp_client.cpp:214-220 | the request holds the send stamp and, once a reply was taken, the two stamps that answer it |
| `NtpClients.ProbeIsRead` | src/airplay/ntp_client.cpp:214-220 | what stands where in the 32 bytes of a request: the header, the sender stamp echoed, the arrival time of it, and the send time |
| `NtpClients.NtpClient.Receive` | src/airplay/ntp_client.cpp:232-247 | only a datagram of at least 32 bytes, of the reply type, that echoes the stamp of the pending probe reaches the clock, and it is accepted by the clock's own test |
| `NtpClients.AnswerIsRead` | src/airplay/ntp_client.cpp:232-247 | a datagram of type 0x53, with or without the marker bit, matches if and only if it echoes the probe, and gives its two stamps in order |
| `RtpFlush.TrimBefore` | src/audio/rtp_flush.h:31-38 | the method computes the trimmed block, and dropped plus kept values are the input's |
| `RtpFlush.TrimKeepsLabels` | src/audio/rtp_flush.h:31-38 | every surviving sample keeps its label, value and place |
| `RtpFlush.TrimIsFilter` | src/audio/rtp_flush.h:31-38 | trimming is the per-sample filter "not strictly before the boundary in the half-range order" if and only if the block does not reach across the label opposite to the boundary |
| `RtpFlush.LeadOnAxis` | src/audio/rtp_flush.h:32-34 | inside the half range the leading frames dropped are those with smaller unbounded positions |
| `RtpFlush.TrimTwice` | src/audio/rtp_flush.h:31-38 | trimming at two boundaries equals trimming at the later one |
| `RtpFlush.TrimIsIdempotent` | src/audio/rtp_flush.h:31-38 | trimming twice at one boundary is trimming once |
| `RtpInfo.FlushTimestamp` | src/audio/rtp_flush.h:10-29 | the cursor loop decides by the first field that names a time |
| `RtpInfo.FirstField` | src/audio/rtp_flush.h:12-27 | what is decided once the first field is known |
| `RtpInfo.TimeFieldIsRead` | src/audio/rtp_flush.h:15-24 | a time field with blanks around it is read back |
| `RtpInfo.BoundaryRoundTrip` | src/audio/rtp_flush.h:10-29 | the first field that, behind blanks, begins with rtptime= decides: its number if it is below 2^32 and nothing otherwise, whatever other fields precede it, separated by ; or , and whatever follows |
| `RtpInfo.NoBoundary` | src/audio/rtp_flush.h:10-29 | fields none of which begins so give no boundary |
| `AudioQueue.PacketBoundsQueue` | src/audio/audio_receiver.cpp:456-524 | after a packet that restores no saved tail the queue holds at most ten values per unit of rate, or just that packet |
| `AudioQueue.EvictFits` | src/audio/audio_receiver.cpp:459-463 | eviction leaves the longest suffix that fits, or nothing |
| `AudioQueue.RestoredTail` | src/audio/audio_receiver.cpp:481-515 | a restored tail ends at the label of the triggering packet, keeps samples and spacing, starts no earlier than now, has non-decreasing deadlines, and lags exact time by less than 1 ns per block |
| `AudioQueue.RestampDeadline` | src/audio/audio_receiver.cpp:501-509 | each restored deadline against the exact duration of the k blocks before it: never ahead, and behind by less than k ns |
| `AudioReceivers.TruncDivMonotone` | src/audio/audio_receiver.cpp:586-586 | the truncating division of the schedule preserves order |
| `AudioReceivers.DeadlinesFollowPositions` | src/audio/audio_receiver.cpp:583-586 | under one anchor later positions never get earlier deadlines |
| `AudioReceivers.AudioReceiver.constructor` | src/audio/audio_receiver.cpp:58-114 | a saved tail is taken over exactly when preservation and synchronisation are on, the rates agree and it is not empty |
| `AudioReceivers.AudioReceiver.FlushQueue` | src/audio/audio_receiver.cpp:127-156 | the whole new state of a FLUSH; the running count stays exact |
| `AudioReceivers.AudioReceiver.SaveTail` | src/audio/audio_receiver.cpp:129-139 | when the queue becomes the saved tail and when an older tail stays |
| `AudioReceivers.AudioReceiver.TrimInPlace` | src/audio/audio_receiver.cpp:145-149 | the erase-while-trimming loop yields the trimmed queue, and the unsigned count never wraps |
| `AudioReceivers.AudioReceiver.ResumePlayback` | src/audio/audio_receiver.cpp:158-192 | the whole new state of a resume, with its 200 ms and 120 s limits |
| `AudioReceivers.AudioReceiver.Rejoin` | src/audio/audio_receiver.cpp:172-188 | the shifted tail goes in front of what the queue holds past its end, which becomes the new boundary |
| `AudioReceivers.AudioReceiver.ShiftPaused` | src/audio/audio_receiver.cpp:173-176 | labels move by the shift with 32-bit wrap and deadlines are cleared |
| `AudioReceivers.AudioReceiver.Recount` | src/audio/audio_receiver.cpp:186-187 | the count is recomputed as the sum over the queue |
| `AudioReceivers.AudioReceiver.DiscardPause` | src/audio/audio_receiver.cpp:194-198 | the saved tail and the imported flag go, the queue stays |
| `AudioReceivers.AudioReceiver.SetSync` | src/audio/audio_receiver.cpp:222-224 | a change of mode, and only a change, flushes everything |
| `AudioReceivers.AudioReceiver.NoteFirstPacket` | src/audio/audio_receiver.cpp:341-349 | the first packet and no later one fixes the reference of the restore estimate |
| `AudioReceivers.AudioReceiver.Anchor` | src/audio/audio_receiver.cpp:306-314 | a timing packet sets the anchor, and the lead only when it is at most five seconds |
| `AudioReceivers.AudioReceiver.Enqueue` | src/audio/audio_receiver.cpp:456-524 | the whole new state after one decoded block, and the bound on the count |
| `AudioReceivers.AudioReceiver.EvictFor` | src/audio/audio_receiver.cpp:459-463 | the oldest blocks leave until the new one fits |
| `AudioReceivers.AudioReceiver.ExtendTail` | src/audio/audio_receiver.cpp:468-480 | the saved tail grows by the contiguous part of a late packet up to the boundary |
| `AudioReceivers.AudioReceiver.RestoreTail` | src/audio/audio_receiver.cpp:481-515 | the carried-over tail enters the queue, or is dropped when too old |
| `AudioReceivers.AudioReceiver.MoveTail` | src/audio/audio_receiver.cpp:500-509 | relabelled blocks with consecutive deadlines are appended |
| `AudioReceivers.AudioReceiver.Admit` | src/audio/audio_receiver.cpp:516-523 | the part of a packet past the boundary is queued and clears the boundary; otherwise the boundary stays |
| `AudioReceivers.AudioReceiver.Playout` | src/audio/audio_receiver.cpp:572-633 | one scheduling turn, in nanoseconds: the front block is played, dropped or kept exactly by its deadline, the clock, and the backlog of the sink |
| `AudioReceivers.TurnIsExact` | src/audio/audio_receiver.cpp:591-624 | with room in the sink (60 ms when synchronised) a block is played from 1 ms before to 250 ms after its deadline or when that is more than 5 s away, dropped when it is later, and kept when it is earlier; a block without a deadline waits only for the clock |
| `AudioReceivers.DeadlineIsExact` | src/audio/audio_receiver.cpp:579-587 | a deadline is the anchor time plus the distance of the labels, to less than 1 ns |
| `AudioReceivers.OwnDeadline` | src/audio/audio_receiver.cpp:579-587 | a block that brings its own deadline keeps it, and no other has one without synchronisation |
| `AudioReceivers.AudioReceiver.Suspend` | src/audio/audio_receiver.cpp:200-220 | the saved tail leaves with its owner and the queue is empty |
| `AudioAxis.TrimPiecesRefines` | src/audio/audio_receiver.cpp:145-149 | trimming by wrapping labels is trimming by unbounded positions inside the half range |
| `AudioAxis.ExtendedRefines` | src/audio/audio_receiver.cpp:468-480 | the label tests on a late packet decide as the positions do |
| `AudioAxis.StepRefines` | src/audio/audio_receiver.cpp:127-524 | inside the half-range window every step of the receiver on labels, timing packets and the first packet included, is the step on unbounded positions |
| `AudioOrder.TailGrowsContiguously` | src/audio/audio_receiver.cpp:468-480 | a saved tail grows only by what continues it, never past the boundary, and stays in order |
| `AudioOrder.StepKeeps` | src/audio/audio_receiver.cpp:127-524 | every admissible step keeps the queue ordered and non-overlapping, and a waiting imported tail implies an empty queue |
| `AudioRuns.RunsKeepOrder` | src/audio/audio_receiver.cpp:127-524 | along every proper run the receiver holds the labelled state of the unbounded machine, whose queue is in RTP order without overlap |
| `AudioOrder.TilesAreDisjoint` | src/audio/audio_receiver.cpp:456-524 | the order invariant for any two blocks: the earlier one ends before the later one starts |
| `AudioRuns.SafeBoundaryKeepsOrder` | src/audio/audio_receiver.cpp:140-149 | after a FLUSH at a safe boundary any next packet leaves the queue in order |
| `AudioRuns.BoundaryRuleIsExact` | src/audio/audio_receiver.cpp:140-149 | after a FLUSH any next packet leaves the queue in order if and only if the five-second limit evicts all that the FLUSH kept, the boundary refuses the whole packet, or the queue ends before the part let through |
| `AudioRuns.SafeBoundaryIsExact` | src/audio/audio_receiver.cpp:140-149 | every next packet leaves the queue in order if and only if the boundary is safe or a single frame evicts all that the FLUSH kept |
| `AudioRuns.OverlapIsReachable` | src/audio/audio_receiver.cpp:127-192 | one block, a FLUSH and a resume reach a state in which every boundary before the restored end is unsafe |
| `AudioRuns.FencesGoUp` | src/audio/audio_receiver.cpp:140-188 | a FLUSH raises the fence to its boundary and a resume to the restored end |
| `AudioRuns.NothingOlderEnters` | src/audio/audio_receiver.cpp:456-524 | until the next FLUSH or resume every queued block was there before, starts at or after the fence, or belongs to a carried-over tail restored meanwhile |
| `AudioRuns.OlderEntersExactly` | src/audio/audio_receiver.cpp:481-523 | a step puts a new block before the fence if and only if it is a packet that restores a carried-over tail reaching back before the fence |
| `AudioRuns.OlderEntersRunExactly` | src/audio/audio_receiver.cpp:456-524 | the same for a whole run, read off the state before it: the tail still waits when the first packet comes, and reaches back past the fence |
| `AudioRuns.OlderTailEnters` | src/audio/audio_receiver.cpp:481-523 | the failing input: one carried-over frame, a FLUSH to 1000, and a packet at 500 that puts it at 499 |
| `AudioRuns.SuccessorStartsInOrder` | src/audio/audio_receiver.cpp:66-73 | a receiver that takes over a saved tail starts in the invariant, wherever the new stream's labels start |
| `AudioMeaning.PauseLosesNothing` | src/audio/audio_receiver.cpp:127-192 | a FLUSH and a resume after 200 ms to 120 s leave every block that was queued, with its samples, later by the pause in frames modulo 2^32, and the end of them as the boundary |
| `AudioMeaning.OtherPausesRestoreNothing` | src/audio/audio_receiver.cpp:127-192 | a shorter or longer pause, or audio that is not kept, leaves what the FLUSH left |
| `AudioMeaning.ModeChangeEmpties` | src/audio/audio_receiver.cpp:222-224 | only a change of mode empties queue, saved tail and boundary; setting the same mode does nothing |
| `AudioMeaning.GrowthIsExact` | src/audio/audio_receiver.cpp:468-480 | a saved tail grows if and only if a packet continues it and the boundary lies at most 5 s behind its end, and then by exactly the samples up to the boundary |
| `AudioMeaning.RestoreIsOnTime` | src/audio/audio_receiver.cpp:481-509 | a carried-over tail starts now or so that its end meets the packet by the sender clock plus the backlog, to within 2 ns |
| `AudioMeaning.LeadIsExact` | src/audio/audio_receiver.cpp:306-314 | the lead is taken if and only if the next packet is zero to five seconds ahead |
| `AudioMeaning.BlocksLeaveInOrder` | src/audio/audio_receiver.cpp:456-633 | along every run of packets and playout turns the queue is what was queued and arrived, in order and unchanged, less some blocks from the front; while all of it fits only those that were taken |
| `BitWriters.BitWriter.Put` | src/audio/aac_decoder.cpp:40-50 | appends exactly the low bits of the value, most significant first; unused bits stay clear |
| `BitWriters.BuildAscAacEld` | src/audio/aac_decoder.cpp:55-76 | four bytes: the bits of the configuration fields and four zero bits |
| `BitWriters.AscBytes` | src/audio/aac_decoder.cpp:55-76 | which bytes these are for every rate, channel count and frame length; F8 E8 50 00 at 44100 Hz, two channels and 480 samples |
| `BitWriters.FrequencyIndex` | src/audio/aac_decoder.cpp:16-33 | the index is the place of the rate in the table of ISO/IEC 14496-3, and 15 for any other rate |
| `BitReaders.BitReader.U1` | src/airplay/h264_sps.cpp:37-43 | the next bit, or the error flag past the end |
| `BitReaders.BitReader.U` | src/airplay/h264_sps.cpp:45-52 | the next n bits in 32-bit arithmetic, zero on error |
| `BitReaders.BitReader.Ue` | src/airplay/h264_sps.cpp:55-63 | the Exp-Golomb code as the source reads it |
| `BitReaders.BitReader.Se` | src/airplay/h264_sps.cpp:65-72 | the signed code as the source maps it |
| `BitReaders.ReadBitsAt` | src/airplay/h264_sps.cpp:45-52 | a printed field of at most 32 bits is read back |
| `BitReaders.FieldsRoundTrip` | src/audio/aac_decoder.cpp:40-50 | any list of fields of at most 32 bits is read back, each value modulo its width |
| `BitReaders.WrittenFieldsAreRead` | src/audio/aac_decoder.cpp:33-53 | from the bytes of a writer every such list is read back, reading stops where writing did, and only clear bits follow |
| `BitReaders.AscRoundTrip` | src/audio/aac_decoder.cpp:55-76 | the audio configuration reads back field by field |
| `BitReaders.UeRoundTrip` | src/airplay/h264_sps.cpp:55-63 | every code number from 0 to 2^32 - 2, printed by section 9.1 of H.264, is read back |
| `BitReaders.SeRoundTrip` | src/airplay/h264_sps.cpp:65-72 | every signed value of that range, printed by section 9.1.1, is read back |
| `BitReaders.NothingLeft` | src/airplay/h264_sps.cpp:33-72 | past the end every read gives zero and sets the error |
| `Emulation.EbspToRbsp` | src/airplay/h264_sps.cpp:15-28 | the loop computes the removal function |
| `Emulation.RoundTrip` | src/airplay/h264_sps.cpp:15-28 | for every byte string, removal undoes the insertion of section 7.4.1 |
| `Emulation.RemoveInsert` | src/airplay/h264_sps.cpp:15-28 | the same from any number of open zero bytes |
| `Emulation.EscapeIsStartCodeFree` | src/airplay/h264_sps.cpp:11-14 | escaped data never holds two zero bytes followed by 0, 1 or 2 |
| `Sps.ParseH264Sps` | src/airplay/h264_sps.cpp:97-186 | the imperative parser, with its loops and error flag, computes the parse function; it terminates and stays inside the buffer |
| `Sps.ComputeFrameSize` | src/airplay/h264_sps.cpp:76-93 | the size in 32-bit arithmetic, with the fallback when cropping exceeds the picture |
| `Sps.SkipScalingMatrix` | src/airplay/h264_sps.cpp:129-144 | 8 or 12 scaling lists are skipped as the source does |
| `Sps.SkipListAt` | src/airplay/h264_sps.cpp:133-141 | a printed scaling list of any signed-byte deltas is skipped exactly |
| `Sps.SkipChromaAt` | src/airplay/h264_sps.cpp:123-145 | the printed extension of the listed profiles is skipped exactly |
| `Sps.SkipOrderAt` | src/airplay/h264_sps.cpp:148-157 | the printed picture order count part of each type is skipped exactly |
| `Sps.ReadFrameAt` | src/airplay/h264_sps.cpp:159-175 | the printed size, flags and cropping offsets are read back |
| `Sps.CroppedIsExact` | src/airplay/h264_sps.cpp:76-93 | the computed size is the standard's if and only if the cropping unit is 2 or nothing is cropped |
| `Sps.ParsesWhatWasPrinted` | src/airplay/h264_sps.cpp:97-186 | any in-range parameter set, printed by section 7.3.2.1.1 and escaped, parses to its profile, level and interlaced flag; width and height are the standard's exactly when the cropping unit is that of 4:2:0 or nothing is cropped |
| `Sps.Parses420` | src/airplay/h264_sps.cpp:97-186 | for 4:2:0 the parsed picture size is the cropped size of section 7.4.2.1.1 |
| `Sps.CutSetIsRefused` | src/airplay/h264_sps.cpp:97-186 | any parameter set cut off before the end of its last code, however it was printed, is refused |
| `Sps.UncroppableIsKept` | src/airplay/h264_sps.cpp:76-93 | a cropping rectangle that would leave nothing is not applied |
| `Sps.OthersAreRefused` | src/airplay/h264_sps.cpp:97-110 | what is too short or no sequence parameter set gives nothing |
| `Sps.CropUnits` | src/airplay/h264_sps.cpp:76-93 | the cropping units the sizes above are compared with, for chroma formats 0 to 3 and fields |
| `NalStreams.ParseNalsAvccToAnnexB` | src/airplay/h264_nal.cpp:5-53 | in place: the parsed units in byte stream form followed by the untouched rest, reports for exactly these units, success if and only if nothing is left |
| `NalStreams.ParsedIsPrefix` | src/airplay/h264_nal.cpp:10-51 | what was parsed, written back with length prefixes, is the front of the buffer, and no unit starts the rest |
| `NalStreams.ParseIsUnique` | src/airplay/h264_nal.cpp:10-51 | only one list of units with one such rest spells a buffer |
| `NalStreams.SucceedsExactlyOnAvcc` | src/airplay/h264_nal.cpp:5-53 | the conversion succeeds exactly on length-prefixed forms of non-empty units with a clear forbidden bit, and for each of one list only |
| `NalStreams.UnitsTile` | src/airplay/h264_nal.cpp:38-50 | the reports tile the converted part |
| `NalStreams.ReportsPoint` | src/airplay/h264_nal.cpp:24-40 | there is one report for each unit, it points at the unit in the converted buffer, and gives its type and reference level |
| `NalStreams.HeaderIsRead` | src/airplay/h264_nal.cpp:24-40 | the type and the reference level a header byte spells, for H.264 and HEVC |
| `NalStreams.ConversionIsReversible` | src/airplay/h264_nal.cpp:38-50 | the length is kept and the reported sizes rebuild the input |
| `AnnexB.SplitPacket` | src/video/h264_decoder.cpp:20-24 | a stream of units without start codes splits into exactly these units if and only if no unit but the last ends in a zero byte |
| `AnnexB.PrefixOnlyAtUnits` | src/video/h264_decoder.cpp:20-24 | the pattern 00 00 01 occurs only where a unit begins |
| `AnnexB.EncodedUnits` | src/video/h264_decoder.cpp:421-444 | units an encoder makes hold no start code and do not end in zero |
| `DecoderConfig.ParseAvcc` | src/video/h264_decoder.cpp:225-258 | the first SPS and the first PPS of an accepted record, each behind a start code |
| `DecoderConfig.ReadFirst` | src/video/h264_decoder.cpp:234-242 | one list of 16-bit-prefixed sets is read, keeping the first |
| `DecoderConfig.AvcIsExact` | src/video/h264_decoder.cpp:225-258 | a blob is accepted exactly when it is an avcC record with at least one SPS and one PPS, and then of one record only |
| `DecoderConfig.TrailingBytesAreAccepted` | src/video/h264_decoder.cpp:222-257 | bytes after the last PPS never matter, although the comments say the blob must be fully consumed |
| `DecoderConfig.ParseHvcc` | src/video/h264_decoder.cpp:266-295 | the first set of every array of the three types, each behind a start code |
| `DecoderConfig.HvcIsExact` | src/video/h264_decoder.cpp:266-295 | a blob is accepted exactly when it is an hvcC record that has all three types, and then of one record only |
| `Decoders.FindInnerConfigBox` | src/video/h264_decoder.cpp:304-330 | the first avcC box that fits, else the first hvcC box |
| `Decoders.WrappedRecordIsFound` | src/video/h264_decoder.cpp:304-330 | a wrapped record is found unless earlier bytes look like a box of its type or an avcC box exists |
| `Decoders.BoxTypes` | src/video/h264_decoder.cpp:304-330 | the two box types in letters |
| `Decoders.H264Decoder.SetParameterSets` | src/video/h264_decoder.cpp:336-411 | the cached sets change together, exactly when the record is accepted and its codec is open; otherwise they stay |
| `Decoders.H264Decoder.Assemble` | src/video/h264_decoder.cpp:421-444 | an IDR packet is the cached video, sequence and picture sets followed by the frame, any other packet just the frame |
| `Decoders.AvcConfigures` | src/video/h264_decoder.cpp:376-389 | a raw avcC record configures its first SPS and PPS |
| `Decoders.HvcConfigures` | src/video/h264_decoder.cpp:374-414 | a raw hvcC record configures its own sets if and only if it cannot be read as an avcC record, whose sets are taken otherwise; it cannot when the five bits of the SPS count are zero |
| `Decoders.ArraysByType` | src/video/h264_decoder.cpp:266-295 | array types 32, 33 and 34 are the video, sequence and picture sets, whatever the other bits of the type byte |
| `Decoders.HvcReadAsAvc` | src/video/h264_decoder.cpp:374-390 | the failing input: header bytes that spell one SPS and one PPS make an hvcC record pass for an avcC |
| `Decoders.IdrPacketIsReadBack` | src/video/h264_decoder.cpp:421-444 | splitting an IDR packet by annex B gives the sets and then the frame's units if and only if no unit but the last ends in zero |
| `Decoders.IdrStartCodes` | src/video/h264_decoder.cpp:421-444 | start codes occur in an IDR packet only where one of its units begins |
| `Decoders.EncodedFrameIsReadBack` | src/video/h264_decoder.cpp:421-444 | end to end: sets and frames an encoder made are converted, assembled and read back unit by unit |
| `TcpServers.TcpServer.Admission` | src/net/tcp_server.cpp:153-160 | the admission block: refuse and close, or track; the whole new state |
| `TcpServers.TcpServer.ReapNext` | src/net/tcp_server.cpp:164-171 | one turn of the reaping loop |
| `TcpServers.TcpServer.SpawnWorker` | src/net/tcp_server.cpp:172-184 | the worker starts and is listed |
| `TcpServers.TcpServer.ListRemote` | src/airplay/server.cpp:76-80 | the handler lists its remote under its descriptor |
| `TcpServers.TcpServer.UnlistRemote` | src/airplay/server.cpp:121-124 | the handler removes it before it returns |
| `TcpServers.TcpServer.WorkerEpilogue` | src/net/tcp_server.cpp:176-182 | close and forget in one block |
| `TcpServers.TcpServer.CancelClients` | src/net/tcp_server.cpp:189-198 | all tracked clients are cancelled and shut down, and new ones are refused from then on |
| `TcpServers.TcpServer.CancelLoop` | src/net/tcp_server.cpp:191-198 | the loop over the map reaches each entry once, in any order |
| `TcpServers.TcpServer.JoinNext` | src/net/tcp_server.cpp:90-91 | the next listed thread is joined |
| `TcpSafety.StepKeeps` | src/net/tcp_server.cpp:96-205 | every step of every thread keeps the invariant |
| `TcpSafety.EveryRunIsSafe` | src/net/tcp_server.cpp:81-205 | under every interleaving and reuse of descriptors: sockets closed exactly once, tracked descriptors and listed remotes belong to the connection admitted under them, cancelled flags set during a disconnect, no handler during the callback, no thread joined twice |
| `TcpSafety.CancelIsExact` | src/net/tcp_server.cpp:191-198 | a disconnect sets exactly the tracked clients' flags, and shutdown reaches each of them once and no other connection |
| `TcpSafety.TrackedIsOpen` | src/net/tcp_server.cpp:178-180 | a tracked descriptor names the connection admitted under it |
| `TcpSafety.AdmissionInserts` | src/net/tcp_server.cpp:159-159 | admission always inserts a fresh key |
| `TcpSafety.ServedExactly` | src/net/tcp_server.cpp:153-160 | a client that arrives is served if and only if the server runs and nobody is being disconnected; otherwise its socket is closed |
| `TcpSafety.AcceptsExactlyWhileRunning` | src/net/tcp_server.cpp:97-97 | at the top of its loop the accept thread goes on if and only if the server runs |
| `TcpSafety.FirstClientIsServed` | src/net/tcp_server.cpp:96-186 | a run in which the first client is accepted, tracked, given a worker and listed, and the state it leads to |
| `TcpSafety.ReapingIsExact` | src/net/tcp_server.cpp:164-171 | the reaping loop joins and forgets exactly the workers that have finished |
| `TcpSafety.NobodyStartsDuringCallback` | src/net/tcp_server.cpp:202-204 | no handler starts before the callback returns |
| `TcpSafety.DrainingOnlyShrinks` | src/net/tcp_server.cpp:189-202 | while clients drain nothing becomes tracked, and each epilogue removes one entry |
| `TcpSafety.StoppedIsClean` | src/net/tcp_server.cpp:81-94 | after stop every accepted socket has been closed once, every worker thread joined once, and all tables are empty |
| `TcpProgress.NeverStuck` | src/net/tcp_server.cpp:81-202 | in every reachable state with a call of close_all_clients or stop that has not returned, some thread can act, without a new connection and without accept failing on an open listener |
| `TcpProgress.InsideStepsWork` | src/net/tcp_server.cpp:81-202 | every step of a server thread leaves less work: for the connections, else the accept thread, else the caller |
| `TcpProgress.ThreadsComeToRest` | src/net/tcp_server.cpp:81-202 | every endless run has, after any point, another new call or connection; without these the threads come to rest, and then no call is waiting |
| `RtspReader.RequestReader.Fill` | src/airplay/rtsp_parser.cpp:57-65 | receives until enough bytes are buffered, or fails at the end of the stream |
| `RtspReader.RequestReader.ReadHeaders` | src/airplay/rtsp_parser.cpp:67-120 | receives until the blank line, with the size check, and parses the section |
| `RtspReader.RequestReader.Read` | src/airplay/rtsp_parser.cpp:122-142 | one request, the leftover bytes staying in the buffer |
| `RtspReader.ParseHead` | src/airplay/rtsp_parser.cpp:85-103 | the request line and the header loop compute the head of the section |
| `RtspReader.ParseFields` | src/airplay/rtsp_parser.cpp:106-118 | the cursor loop over the header lines |
| `RtspReader.ReadConserves` | src/airplay/rtsp_parser.cpp:57-142 | consumed bytes, buffer and unread pieces are always the original stream, and every request consumes some |
| `RtspReader.ReadOneIsFirst` | src/airplay/rtsp_parser.cpp:67-142 | one request is the same for every way the stream is cut into pieces |
| `RtspReader.RequestsIgnoreChunks` | src/airplay/rtsp_parser.cpp:67-142 | when the header section of every request has at most 61441 bytes or begins within the last 65536 of the stream, the requests depend only on the byte stream |
| `RtspReader.ChunksNeverMatter` | src/airplay/rtsp_parser.cpp:67-142 | for every stream, all chunkings yield its requests if and only if that condition holds |
| `RtspReader.BoundIsExact` | src/airplay/rtsp_parser.cpp:76-82 | for every stream that holds a header end, all chunkings get the first section through if and only if it has at most 61441 bytes or the stream has at most 65536 |
| `RtspWire.FieldsAreRead` | src/airplay/rtsp_parser.cpp:106-118 | printed fields are read back: names without case, blanks dropped, the last one wins |
| `RtspWire.RequestRoundTrip` | src/airplay/rtsp_parser.cpp:85-142 | a printed request is read back, an absolute target as its path and any other as it is, and what follows stays in the stream |
| `RtspWire.TargetIsRead` | src/airplay/rtsp_parser.cpp:94-103 | scheme, authority and path give the path, or / when it is empty; a target with neither scheme is unchanged |
| `RtspWire.EveryTextIsATarget` | src/airplay/rtsp_parser.cpp:94-103 | every target is of one of these two forms |
| `RtspMeaning.StatedRequestIsRead` | src/airplay/rtsp_parser.cpp:85-142 | the same for every request that states the length of its body in a Content-Length field |
| `RtspMeaning.LengthIsStated` | src/airplay/rtsp_parser.cpp:32-37 | the length of the body is the one the last Content-Length field states, in any letter case and with blanks, or zero without one |
| `RtspMeaning.NoLengthIsZero` | src/airplay/rtsp_parser.cpp:32-37 | without the field, or with one that holds no number below 2^32, the length is zero |
| `RtspMeaning.NumeralIsExact` | src/airplay/rtsp_parser.cpp:32-37 | white space, sign, digits and anything after them give the number, its negative modulo 2^32, or none from 2^32 on |
| `RtspMeaning.NoNumeral` | src/airplay/rtsp_parser.cpp:32-37 | without a digit there is no number |
| `RtspMeaning.TrimIsExact` | src/airplay/rtsp_parser.cpp:20-25 | blanks and tabs at both ends go and nothing else |
| `RtspMeaning.LowerIsExact` | src/airplay/rtsp_parser.cpp:14-18 | capital letters, and only these, become small |
| `RtspMeaning.WordIsExact` | src/airplay/rtsp_parser.cpp:87-90 | a word is what lies between white space |
| `RtspMeaning.NoColonIsIgnored` | src/airplay/rtsp_parser.cpp:106-118 | a header line without a colon is passed over |
| `RtspWire.PipelineRoundTrip` | src/airplay/rtsp_parser.cpp:67-142 | pipelined requests, cut in any way, are read back one by one, none lost and none added |
| `RtspWire.Serialize` | src/airplay/rtsp_parser.cpp:44-55 | the response text: status line, headers in any order, the length, an empty line, the body |
| `RtspWire.ResponseIsFramed` | src/airplay/rtsp_parser.cpp:44-55 | the text of a response, written out; the section ends where the body begins and states the body's length, even if the caller set one |
| `HlsRewrite.HlsSession.RegisterLocal` | src/airplay/hls_session.cpp:504-515 | a fresh id, one new entry, and the local URL of that id |
| `HlsRewrite.HlsSession.ReplaceAttribute` | src/airplay/hls_session.cpp:538-555 | one turn of the attribute loop, the string growing in place |
| `HlsRewrite.HlsSession.RewriteTagLine` | src/airplay/hls_session.cpp:536-556 | the attribute loop ends although the string grows, and rewrites the line as specified |
| `HlsRewrite.HlsSession.RewriteOneLine` | src/airplay/hls_session.cpp:529-566 | a URI line becomes a local URL, any other line has its attributes rewritten |
| `HlsRewrite.HlsSession.RewriteSegmentsToLocal` | src/airplay/hls_session.cpp:500-571 | the whole rewriting, the count, the counter and the recorded entries |
| `HlsUndo.RewritingIsUndone` | src/airplay/hls_session.cpp:500-571 | the recorded map undoes the rewriting up to carriage returns that end URI lines; ids are fresh, entries added equal URLs rewritten, earlier entries stay, line breaks are kept |
| `HlsUndo.RestoredExactly` | src/airplay/hls_session.cpp:561-563 | the playlist itself is restored if and only if no URI line ends in a carriage return |
| `HlsUndo.NothingRemoteIsLeft` | src/airplay/hls_session.cpp:527-569 | every URI line and every URL in a tag of the output is a registered local URL |
| `HlsUndo.EntriesAreFresh` | src/airplay/hls_session.cpp:508-509 | new ids touch no earlier entry |
| `HlsLines.PlaylistByLines` | src/airplay/hls_session.cpp:500-571 | the lines of the rewritten playlist against those of the playlist, one by one: segment lines become the next local URL, empty lines stay, and any other line has its attributes treated as below |
| `HlsLines.TagIsLocalised` | src/airplay/hls_session.cpp:536-556 | of a line that is no segment line exactly the URI attributes whose values begin with http://, https://, mlhls:// or / get the next local URL, in order, and nothing else changes |
| `HlsLines.TagIsReadExactly` | src/airplay/hls_session.cpp:536-556 | the reading of attributes this speaks of loses nothing: written back it is the line |
| `HlsLines.TagsSurvive` | src/airplay/hls_session.cpp:527-556 | a line begins with # after the rewriting if and only if it did before, and is unchanged when it holds no URI attribute |
| `HlsUndo.HlsSessionRegistry.ResolveSegmentPath` | src/airplay/hls_session.cpp:48-67 | the active session answers first, another one only when it does not know the path, and nothing if none does |
| `Recorder.StampIsMaximum` | src/video/video_recorder.cpp:320-323 | the n-th stamp is the maximum over k <= n of p_k - p_0 + n - k |
| `Recorder.StampsAreLeast` | src/video/video_recorder.cpp:320-323 | stamps strictly increase, are never early, and are the earliest with both properties |
| `Recorder.TimelineIsShifted` | src/video/video_recorder.cpp:630-655 | the timeline is the PCM as captured, moved by one constant: silence in front, or a beginning dropped |
| `Recorder.AlignmentIsWithinOneSample` | src/video/video_recorder.cpp:634-645 | silence is right to within one sampling period; skipping is if and only if the first block is as long as what must be skipped |
| `Recorder.LongSkipIsCutShort` | src/video/video_recorder.cpp:640-655 | the failing input: a first picture at five seconds, for which 480 frames are dropped where 220500 should be |
| `Recorder.Align` | src/video/video_recorder.cpp:634-651 | the first block: silence in front, or its beginning dropped |
| `Recorder.Worker.WriteVideo` | src/video/video_recorder.cpp:320-330 | one more stamp of the sequence |
| `Recorder.Worker.Queue` | src/video/video_recorder.cpp:631-652 | the PCM of a batch extends the timeline, only the very first block being aligned |
| `Recorder.Worker.PopFrame` | src/video/video_recorder.cpp:663-668 | one frame's worth of pairs leaves the front of the queue |
| `Recorder.Worker.EmitFrame` | src/video/video_recorder.cpp:655-677 | frame j is stamped j times the frame size and holds the next samples |
| `Recorder.InterleaveAt` | src/video/video_recorder.cpp:663-668 | left samples stand at even places of the PCM, right ones behind them |
| `Recorder.Worker.TakeAudio` | src/video/video_recorder.cpp:630-678 | samples played plus samples queued are the whole timeline, with less than one frame queued |
| `Recorder.Worker.PadLast` | src/video/video_recorder.cpp:693-714 | the last frame holds what is left, then silence; an odd last value is dropped |
| `Recorder.Worker.RepeatLast` | src/video/video_recorder.cpp:715-721 | the final stamp, later than all others |
| `Recorder.Worker.TakeAll` | src/video/video_recorder.cpp:332-690 | the worker loop takes every frame and, from the first frame on, every block |
| `Recorder.TakenFromFirstFrame` | src/video/video_recorder.cpp:630-655 | the blocks taken are those of all wake-ups from the one with the first frame on |
| `Recorder.Worker.Record` | src/video/video_recorder.cpp:332-721 | a whole recording up to a normal stop: stamps of all captured frames, strictly increasing, and all PCM in order, then less than one frame of silence for whole stereo samples |
| `Daap.WalkChildren` | src/airplay/daap.cpp:41-66 | the recursive walk with its cursor computes the walk function; it terminates and stays in bounds |
| `Daap.ParseDaapMlit` | src/airplay/daap.cpp:70-82 | the record is found if and only if some field is non-empty, whatever the first tag is |
| `Daap.ContainerIsEntered` | src/airplay/daap.cpp:59-62 | mlit, mcon and mlcl, spelled out, are entered, one level deeper each, down to the fourth |
| `Daap.LeafIsTaken` | src/airplay/daap.cpp:48-57 | any other tag is a leaf: minm, asar, asal and four bytes of astm, spelled out, set their field, and others nothing |
| `Daap.DecodeEncodes` | src/airplay/daap.cpp:19-29 | every byte string spells a tree, malformed ends included |
| `Daap.EncodeDecodes` | src/airplay/daap.cpp:19-29 | a well-formed tree is the only tree its bytes spell |
| `Daap.WalkCollects` | src/airplay/daap.cpp:41-66 | the walk collects the leaves under at most four known containers, in document order |
| `Daap.RecordIsLastLeaves` | src/airplay/daap.cpp:41-82 | for every input each field is the last leaf of its tag |
| `Daap.FoundExactly` | src/airplay/daap.cpp:70-82 | for every input a record is found if and only if the last leaf of some tag says something |
| `Daap.LoneTitleIsFound` | src/airplay/daap.cpp:70-82 | a body that is one title leaf, without any mlit, is found |
| `Daap.EmptyContainerIsNotFound` | src/airplay/daap.cpp:70-82 | a body that is an empty mlit container is not found |
| `Daap.WrittenTreeIsRead` | src/airplay/daap.cpp:41-82 | a written tree gives the last leaf of each tag, malformed ends included |
| `Daap.MalformedEndsAreHarmless` | src/airplay/daap.cpp:45-47 | malformed ends at any depth do not disturb what was found |

## Left out

- Sockets, `select` and receive timeouts: `recv` is a list of pieces, the end of which stands for a
  closed, failed or cancelled connection; time and the sink's backlog are inputs.
- FFmpeg, OpenSSL, SDL, D3D11 and GStreamer: decoded PCM, decrypted payloads and codec opening are
  inputs; encoders and muxer succeed; PCM is kept as integers, the recorder's scaling to float is not
  modelled.
- Pairing, FairPlay, key derivation, DNS-SD, SetupAPI, firewall, user interface, statistics, logging,
  colour conversion, cover art, settings: short checks or plumbing that would add easy members.
- 64-bit arithmetic is unbounded: nanosecond and millisecond counts, sizes and the HLS id counter do not
  wrap in the model; 32-bit words do.
- The sample rate is assumed to be positive with five seconds of it below 2^31, because the source
  multiplies the two in a 32-bit `int`.
- Signed overflow of the scaling-list sum, and the shift by 32 that an Exp-Golomb code with 32 leading
  zeros causes, are undefined in C++; the model computes the sum without bound and lets the shift leave
  nothing in 32 bits. Both lie outside the ranges of the standard.
- AudioRuns.RunsKeepOrder: asks for packets of whole stereo samples in RTP order, for comparisons inside
  half the label range, and for safe FLUSH boundaries; the exact rule for the latter is
  `AudioRuns.BoundaryRuleIsExact`.
- Whether a sample is played at most once across pause and resume: blocks kept by a FLUSH stay queued and
  are also in the saved copy, so the code does not promise it.
- The duplicate filter on RTP sequence numbers, the silence watchdog, and ownership of the audio device
  between receivers.
- Daap.WalkChildren: records of 2^32 bytes and more, for which the 32-bit sum that advances the cursor
  could wrap; a body's length is itself a 32-bit number.
- Daap.ParseDaapMlit: the same.
- NtpClients.NtpClient.Receive: the system clock is assumed not to read zero.
- Decoders.EncodedFrameIsReadBack: speaks of units an encoder made; other units are covered by
  `Decoders.IdrPacketIsReadBack`.
- The names of NAL unit types and profiles: tables.
- The listener descriptor's own close in `stop`, and starting the server a second time while it runs.
- The order in which blocked threads are woken: a step that waits is enabled once its condition holds.
- Keepalive and media teardown inside a client handler: opaque to the lifecycle. That a handler
  returns is assumed where `TcpProgress` speaks of steps that can be taken.
- RtspText.ContentLength: `unsigned long` has 32 bits, as on Windows.
- Header tables are enumerated in any order the caller gives; `send` and partial writes are not modelled.
- Fetching playlists and segments through the reverse channel, and expanding condensed playlists.
- The recorder's bounded input queues, and what happens after an encoder or muxer failure.
