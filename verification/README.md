# RTP loss, rewriting and feedback in the SFU

A model of the parts of the SFU that decide which bytes a receiver gets and what the other side is told:

* `Numbers`, `Wrappers` — fixed-width integers, shifts and bitwise or, big-endian bytes, `Option` and `Result`.
* `TwccWire`, `TwccPacker`, `TwccRuns`, `TwccFeedback`, `TwccGaps`, `TwccResponder` — the transport-wide congestion
  control feedback (draft-holmer-rmcat-transport-wide-cc-extensions-01): unwrapping and gap filling, the greedy
  cutting of the status stream into chunks, the deltas, and the responder object that writes the bytes. The
  reading side is an independent decoder after sections 3.1 to 3.1.5, with the draft's own units of time.
* `BucketRing`, `NackPairs`, `NackQueues`, `SequenceTracker`, `LossHistory`, `PublisherBuffers` — what a publisher's buffer does
  with an arrival: the byte ring (against a map from extended sequence numbers to packets), the NACK queue and
  its (PID, BLP) pairs (section 6.2.1 of RFC 4585, whose reading is modelled on its own), the sequence tracker
  (Appendix A.1 of RFC 3550), and the life of a lost number over whole runs.
* `DownTracks`, `SubscriberTracks`, `Sequencers`, `Windows`, `Retransmission` — the subscriber side: renumbering over runs
  of mutes, binds and layer changes, the ring of sent numbers, and the retransmission of what was sent.
* `Negotiation` — offer/answer coalescing with any number of concurrent tasks, one step per await.
* `Vp8`, `H264`, `Ntp` — the payload descriptor of section 4.2 of RFC 7741, the key-frame scan over aggregation
  packets (section 5.7 of RFC 6184), and the 64-bit NTP format (section 6 of RFC 5905).

Objects that the source updates in place are classes; each method is proved against a function of the old state,
and the properties are lemmas about these functions. Subtraction of serial numbers is taken modulo 2^16 or 2^32.
Clocks, random numbers and the RTP library's parser are parameters. A claim that the code does not meet for all
inputs is stated with the exact condition under which it does (the lemmas whose names end in `Iff`).

Properties the code turns out not to have, each with its boundary:

* a run of equal statuses survives the 13-bit length field only if fewer than 8192 remain after the vector chunk
  that is pending when it begins has been filled up (`TwccRuns.RoundTripIff`, with the uniform stream and the
  stream that differs in its first status as instances);
* the arrivals of a report are sorted in descending order, so of several new ones only the highest is reported as
  received (`ReportCompleteIff`), and a report that starts with number 0 leaves out the gap after it (`GaplessIff`);
* arrival times are kept in units of 100 ns but written as if these were microseconds, so a receiver finds every
  time, and every distance between two times, ten times too large (`RebuiltTenfold`);
* a delta outside 16 bits saturates to the wrong end when truncation flips its sign (`StoredSaturatesIff`);
* the two wraps of the byte ring disagree, so a gap over the last slot moves every address on by one, and so does a
  repetition of the newest packet; an earlier packet is then found only if the slot of the next number carries its
  number (`AlignedIffClear`, `SlotKeptIffClear`, `ShiftLosesIff`, `GapLosesPacket`); packets over 1498 bytes run into
  the next slot (`ConfinedIff`);
* a batch of lost numbers is misread if its first low half is 0, which is then not requested, or if it wraps while
  the open pair has a PID below 65520 (`DecodeIff`, `RoundReadsIff`, `WrapMisread`); a number that follows a pair
  with a PID of at least 65520 opens a pair of its own needlessly (`OptimalIff`);
* a missing number can be queued one cycle too low, where no arrival removes it (`QueuedRightIff`);
* a late packet sent on moves every address of the sequencer on by one, so that no number before it whose successor
  is on record is found any more (`LateKeepsIff`, `LateLosesAll`);
* a simple track whose last number sent was 0 does not re-synchronize (`ResyncByOneIff`, `ResyncGapAtZero`);
* a simulcast track takes an arrival at time 0 for "no packet yet": a change of the source right behind it is not
  renumbered (`Renumbers`, through `Known`), and a late packet behind it makes the next change jump
  (`RunContinuousIff`, `MisanchoredRun`);
* the timestamp step at a change of the source is a thousandth of the ticks of the 90 kHz clock (`TicksValue`);
* a late packet of another cycle, and one that looks like the start of the next, is reported under a wrong number
  (`LateNumberedIff`);
* an arrival within 100 ns of time 0 is reported to the sender as lost (`ReceivedIff`);
* a blank slot of the byte ring passes for packet 0, which is refused, and found empty (`Bucket.AddPacket`,
  `Bucket.Get`, `ZeroRefused`);
* a congestion-control report is never returned: its bytes are appended, and then the framing fails (`Build`);
* a VP8 picture ID is rewritten correctly only if it is long and below 2^15, or short and 0 (`RewriteReadsIff`);
* a whole number of milliseconds can come back from NTP one too small (`MillisBack`).

## Model

| member | source | states |
|---|---|---|
| TwccWire.RegisterStep | rsfu/src/twcc/twcc.rs:70-77 | Placing the next symbol with the bit helper at its index extends the symbol list by exactly that symbol |
| TwccWire.FlagBits | rsfu/src/twcc/twcc.rs:375-385 | The two writes at bits 0 and 1 turn a symbol register into the type and size flags of a status vector chunk |
| TwccWire.VectorRoundTrip | rsfu/src/twcc/twcc.rs:360-385 | A vector chunk decodes to its symbols, padded with "not received" to 14 or 7 |
| TwccWire.ChunkRoundTrip | rsfu/src/twcc/twcc.rs:343-385 | Every chunk whose run fits 13 bits decodes to what it stands for |
| TwccWire.RunWordIs | rsfu/src/twcc/twcc.rs:343-358 | The word of a run in numbers: 0 for not received, 0x2000 for a small and 0x4000 for a large delta, plus the length |
| TwccWire.LongRunIsLost | rsfu/src/twcc/twcc.rs:343-358 | A run of 8192 or more decodes to at least 8192 symbols fewer |
| TwccPacker.StepKeeps | rsfu/src/twcc/twcc.rs:217-278 | One loop pass keeps: `max_status` is the maximum pending, `same` means all equal, at most 13 pending when mixed and 7 with a large delta, written chunks full, nothing lost or reordered |
| TwccPacker.PacketizeCovers | rsfu/src/twcc/twcc.rs:172-296 | The chunks of a whole report stand for exactly the statuses given, all but the last are full, and no one-bit chunk holds a large delta |
| TwccPacker.ChunksReadIff | rsfu/src/twcc/twcc.rs:172-296 | Decoding the appended chunks and cutting at the packet count gives the status stream back exactly when every run chunk is shorter than 8192 |
| TwccRuns.AbsorbStep | rsfu/src/twcc/twcc.rs:217-278 | While the pending mixed list is not full, each status of a run fills one place of it, over one or two vectors |
| TwccRuns.StretchState | rsfu/src/twcc/twcc.rs:217-278 | What is pending n statuses into a run of equal ones: the run, less what the pending list absorbed at its start |
| TwccRuns.RoundTripIff | rsfu/src/twcc/twcc.rs:172-296 | The status stream comes back exactly if and only if every run of equal statuses in it, less what is absorbed at its start, is shorter than 8192 |
| TwccRuns.RoundTrip | rsfu/src/twcc/twcc.rs:172-296 | In particular every stream without 8192 equal statuses in a row, hence all of at most 8191 packets |
| TwccRuns.UniformRoundTripIff | rsfu/src/twcc/twcc.rs:217-232 | A uniform stream is reported exactly if and only if it is shorter than 8192 |
| TwccRuns.AfterOneIff | rsfu/src/twcc/twcc.rs:217-278 | Behind one received packet, a run of lost ones is reported exactly if and only if it is shorter than 8205 |
| TwccFeedback.TimesRebuilt | rsfu/src/twcc/twcc.rs:176-216 | The microseconds rebuilt from the reference time and the deltas differ from the recorded 100 ns units by at most 249 per packet received so far, and all delta bytes are consumed |
| TwccFeedback.RebuiltTenfold | rsfu/src/twcc/twcc.rs:111-114 | So every time, and every distance between two times, is rebuilt ten times too large, to within 249 us per received packet and 990 ns |
| TwccFeedback.RightNearZero | rsfu/src/twcc/twcc.rs:183-196 | A time is rebuilt to within 250 us per received packet only if it lies within 56 us per received packet of 0, and certainly within 0.1 us per received packet |
| TwccFeedback.ReceivedIff | rsfu/src/twcc/twcc.rs:111-179 | A pushed arrival counts as received exactly when it is at least 100 ns away from time 0 |
| TwccFeedback.DeltaLength | rsfu/src/twcc/twcc.rs:387-404 | Appended delta bytes are one per small and two per large status, one status of either kind per received packet |
| TwccFeedback.FirstDeltaSmallIff | rsfu/src/twcc/twcc.rs:180-213 | When the first received packet gets a small delta: for every positive timestamp |
| TwccFeedback.StatusIff | rsfu/src/twcc/twcc.rs:186-213 | A received packet gets a small delta exactly when it arrives less than 250 units before and less than 64000 behind the last received one |
| TwccFeedback.StoredSaturatesIff | rsfu/src/twcc/twcc.rs:198-209 | A large delta is stored clamped to 16 bits exactly when it fits or truncation keeps its sign |
| TwccFeedback.StoredCounterexample | rsfu/src/twcc/twcc.rs:200-208 | A delta of 65536 is stored as the most negative one |
| TwccFeedback.HeaderRoundTrip | rsfu/src/twcc/twcc.rs:332-341 | The 16 header bytes read back as both SSRCs, base number, packet count, 24-bit reference time and feedback count |
| TwccFeedback.HeaderOctets | rsfu/src/twcc/twcc.rs:332-341 | Octet by octet: every field most significant octet first, three octets of reference time, one of feedback count |
| TwccFeedback.FeedbackRoundTrip | rsfu/src/twcc/twcc.rs:167-296 | From the payload and delta bytes of one report a receiver recovers the base number, the count, every status, and ten times every arrival time within the error bound |
| TwccGaps.StepNumberedIff | rsfu/src/twcc/twcc.rs:104-112 | An in-order step gets its true extended number exactly when it stays in the cycle or wraps between the two thresholds |
| TwccGaps.StepLimit | rsfu/src/twcc/twcc.rs:104-112 | So every step of at most 4095 does, and 4096 need not |
| TwccGaps.LateNumberedIff | rsfu/src/twcc/twcc.rs:104-112 | A packet that comes late gets its true extended number exactly when it belongs to the current cycle and does not look like the start of the next |
| TwccGaps.UnwrapInOrder | rsfu/src/twcc/twcc.rs:104-116 | A whole in-order stream with such steps gets its true extended numbers |
| TwccGaps.GaplessIff | rsfu/src/twcc/twcc.rs:146-163 | In any order of distinct numbers the report is a gapless range, so position stands for sequence number, if and only if it is not a first report that starts with 0 and goes on with another number than 1 |
| TwccGaps.ExpandAscendingIff | rsfu/src/twcc/twcc.rs:148-163 | In ascending order the report runs from the last one reported, or from the first arrival ever, every arrival stands at its own index with its timestamp, and nothing else counts as received, under the same condition |
| TwccGaps.SortSorts | rsfu/src/twcc/twcc.rs:146 | The sort is descending and a permutation |
| TwccGaps.ReportCompleteIff | rsfu/src/twcc/twcc.rs:146-163 | In the order the code uses, all received arrivals are reported exactly when none but the one with the largest number was received; every other stands in the report as not received, or, in the first report, not at all |
| TwccResponder.Responder.Push | rsfu/src/twcc/twcc.rs:104-131 | One arrival is appended under its extended number, in units of 100 ns |
| TwccResponder.Responder.ExpandGaps | rsfu/src/twcc/twcc.rs:147-163 | The gap loop computes the specified expansion and the new last number |
| TwccResponder.Responder.FillGap | rsfu/src/twcc/twcc.rs:154-159 | Its inner loop lists exactly the numbers in between, none received |
| TwccResponder.Responder.Build | rsfu/src/twcc/twcc.rs:138-316 | A report appends exactly the specified header, chunk and delta bytes, counts one feedback if anything was received, and then fails in the framing; an empty list is an error that changes nothing |
| TwccResponder.Responder.Report | rsfu/src/twcc/twcc.rs:167-296 | The packetizing loop with its four variables writes the specified bytes, the header once and first |
| TwccResponder.Responder.RescanList | rsfu/src/twcc/twcc.rs:250-267 | The inner loop recomputes the list variables of what a two-bit chunk left |
| TwccResponder.Responder.WriteHeader | rsfu/src/twcc/twcc.rs:332-341 | Appends the header bytes |
| TwccResponder.Responder.WriteRunLengthChunk | rsfu/src/twcc/twcc.rs:343-358 | Appends the run word |
| TwccResponder.Responder.CreateStatusSymbolChunk | rsfu/src/twcc/twcc.rs:360-373 | A chunk that holds the first i symbols of a list holds one more of them |
| TwccResponder.Responder.WriteStatusSymbolChunk | rsfu/src/twcc/twcc.rs:375-385 | Appends the vector word and clears the chunk |
| TwccResponder.Responder.WriteDelta | rsfu/src/twcc/twcc.rs:387-404 | Appends one byte for a small and two for a large delta, and counts them |
| BucketRing.Distance | rsfu/src/buffer/bucket.rs:10-16 | The case split is subtraction modulo 2^16 |
| BucketRing.AlignedIffClear | rsfu/src/buffer/bucket.rs:52-57 | The skip loop stays aligned with the ring exactly when the gap does not walk over the last slot |
| BucketRing.SlotKeptIffClear | rsfu/src/buffer/bucket.rs:49-59 | An earlier packet of the window keeps its address exactly in that case |
| BucketRing.ShiftLosesIff | rsfu/src/buffer/bucket.rs:49-59 | After a repetition of the head or a gap that is not clear, an earlier number is found exactly when the slot of the next number carries it, and never if the next was stored |
| BucketRing.GapLosesPacket | rsfu/src/buffer/bucket.rs:39-127 | A run of two adds after which a packet two behind the head is not found |
| BucketRing.ZeroRefused | rsfu/src/buffer/bucket.rs:103-155 | After packet 1 the late packet 0 is refused as already there, and an empty packet is found in its place |
| BucketRing.ConfinedIff | rsfu/src/buffer/bucket.rs:82-92 | Writing a packet leaves all other slots alone exactly up to 1498 bytes |
| BucketRing.WriteKeeps | rsfu/src/buffer/bucket.rs:148-152 | Writing one slot leaves every other stored packet in its slot and adds the new one to the map |
| BucketRing.Addressed | rsfu/src/buffer/bucket.rs:103-126 | The address computed for a number is the slot of the stored packet with that number, and of no other |
| BucketRing.Bucket.AddPacket | rsfu/src/buffer/bucket.rs:39-60 | The new map, head and step for a packet that advances the head and for a late one; too old, retransmitted and accepted are told apart, a late packet of the window being refused exactly when what was written last in its slot, or 0 for a blank one, carries its number; no byte outside the slot changes |
| BucketRing.Bucket.SkipSlots | rsfu/src/buffer/bucket.rs:52-57 | The skip loop computes the specified step |
| BucketRing.Bucket.Push | rsfu/src/buffer/bucket.rs:82-101 | The packet stands at the old step, the rest of the buffer is unchanged, the step moves on |
| BucketRing.Bucket.Set | rsfu/src/buffer/bucket.rs:129-155 | A late packet goes into the slot of its number unless too old or already there |
| BucketRing.Bucket.Get | rsfu/src/buffer/bucket.rs:103-127 | Returns exactly the stored packet of a number whenever the map has one; in general what was written last in the slot addressed, if it carries the number, a blank one passing for an empty packet 0 |
| BucketRing.Bucket.FindsStored | rsfu/src/buffer/bucket.rs:103-127 | What a look-up finds, in terms of what was written last in the slots, is the stored packet of the number whenever the map has one |
| BucketRing.Bucket.GetPacket | rsfu/src/buffer/bucket.rs:62-80 | The caller's buffer after a call: its front filled with the packet found, or unchanged when none is found or it is too small |
| NackPairs.ExtendReads | rsfu/src/buffer/nack.rs:108-121 | One more number grouped, in the same cycle or right behind a wrap whose pair's bound wraps too, is one more number read, behind the others |
| NackPairs.DecodeIff | rsfu/src/buffer/nack.rs:108-126 | Numbers with distinct low halves decode to exactly themselves, in order and once, if and only if the first low half is not 0 and the pair open at the 16-bit wrap, if there is one, has a PID of at least 65520 |
| NackPairs.PairsEmptyIff | rsfu/src/buffer/nack.rs:108-126 | There is a pair to send exactly when some number has a low half other than 0 |
| NackPairs.WrapMisread | rsfu/src/buffer/nack.rs:121 | An instance of the failure: 65000 and 65541 are read as 65000 and 65013 |
| NackPairs.GroupingOptimal | rsfu/src/buffer/nack.rs:108-126 | Away from the wrap no list of pairs that covers the same numbers is shorter |
| NackPairs.OptimalIff | rsfu/src/buffer/nack.rs:108 | Up to the wrap, no list of pairs that covers the same numbers without wrapping is shorter if and only if the pair open before the last number has a PID below 65520 |
| NackQueues.NackQueue.Push | rsfu/src/buffer/nack.rs:29-52 | Adds the number with no requests unless it is queued; every other count is unchanged and the queue stays strictly sorted |
| NackQueues.NackQueue.Remove | rsfu/src/buffer/nack.rs:54-66 | Returns and forgets precisely the entry of the number |
| NackQueues.NackQueue.MakePairs | rsfu/src/buffer/nack.rs:74-129 | One round: the new queue, the key-frame mark, whether a key frame is asked for, and the pairs of exactly the eligible numbers |
| NackQueues.CountKeep | rsfu/src/buffer/nack.rs:87-106 | A round counts one request for every eligible number, drops the exhausted ones and touches no other |
| NackQueues.EligibleExact | rsfu/src/buffer/nack.rs:90-106 | The numbers asked for are exactly the queued ones below `head - 2` with fewer than three requests, ascending |
| NackQueues.RoundReadsIff | rsfu/src/buffer/nack.rs:74-129 | A round's pairs read as exactly the numbers asked for under the same condition on these numbers, a wrap included |
| NackQueues.KeyFrameIsMax | rsfu/src/buffer/nack.rs:90-94 | A key frame is asked for exactly when a number given up on lies beyond the mark, which moves to the largest such number |
| NackQueues.RoundProgress | rsfu/src/buffer/nack.rs:87-122 | A round with an eligible or exhausted entry strictly decreases the requests still possible |
| NackQueues.EmptyAfterFourRounds | rsfu/src/buffer/nack.rs:74-129 | Without new losses four rounds with a high head empty the queue |
| NackQueues.MatchesRound | rsfu/src/buffer/nack.rs:87-122 | The request counts of the queue stay those of the operations it has seen, through a round as through pushes and removals |
| NackQueues.AtMostThreeRequests | rsfu/src/buffer/nack.rs:29-129 | Over any run of operations, and so over all a queue has seen, no number is requested more than three times between insertion and removal |
| SequenceTracker.TrackStep | rsfu/src/buffer/buffer.rs:266-296 | Within half a cycle, an arrival is ahead exactly when its true number is, and the tracker then stands at the true maximum |
| SequenceTracker.LateNumbered | rsfu/src/buffer/buffer.rs:297-303 | The late branch computes the true extended number |
| SequenceTracker.QueuedRightIff | rsfu/src/buffer/buffer.rs:279-303 | A missing number is queued under the number a late arrival removes exactly when it lies in the lower half cycle, or the old maximum is in the upper half and the gap does not wrap |
| SequenceTracker.QueuedLowHalf | rsfu/src/buffer/buffer.rs:277-303 | Queued right or wrong, a number keeps its low half, so the request on the wire is for the right packet |
| SequenceTracker.QueuedWrong | rsfu/src/buffer/buffer.rs:282-289 | The gap from 32767 to 32769 queues 32768 wrongly |
| SequenceTracker.TracksMaximum | rsfu/src/buffer/buffer.rs:262-307 | Over any plausible run `cycles` and `max_seq_no` together are the true running maximum |
| LossHistory.TrackerAtMax | rsfu/src/buffer/buffer.rs:262-307 | Over any orderly run the buffer's tracker stands at the true running maximum |
| LossHistory.ArrivalExact | rsfu/src/buffer/buffer.rs:262-307 | An arrival makes the numbers passed over missing and its own number no longer missing |
| LossHistory.RoundExact | rsfu/src/buffer/buffer.rs:440-446 | The round behind it requests the missing numbers more than 2 below the highest once more and drops those requested three times |
| LossHistory.QueueExact | rsfu/src/buffer/buffer.rs:262-446 | Over any run whose gaps are queued right, a number is queued exactly when it lies between the first and the highest arrival, has not arrived, and at most three rounds have had it below their limit, and then with one request for each of these; the fourth drops it |
| LossHistory.RequestedIff | rsfu/src/buffer/buffer.rs:440-475 | The round behind an arrival asks for a number exactly when it is missing, more than 2 below the highest, and has been below the limit of fewer than three rounds before |
| LossHistory.ThreeRequests | rsfu/src/buffer/buffer.rs:440-475 | Over any such run a number that stays missing is asked for in exactly the first three rounds that have it below their limit |
| LossHistory.DeclaredIsBetween | rsfu/src/buffer/buffer.rs:277-294 | The gap loop declares the numbers strictly between old and new maximum, under the numbers above |
| PublisherBuffers.PublisherBuffer.Calc | rsfu/src/buffer/buffer.rs:262-446 | One arrival and the round behind it: tracker and queue stay those of the whole run, as `LossHistory` says; what the cache holds, the queue between the two, and the feedback given; of any orderly run a receiver reads from that feedback exactly the numbers missing, more than 2 below the highest, with fewer than three rounds before |
| PublisherBuffers.PublisherBuffer.Accept | rsfu/src/buffer/buffer.rs:262-341 | The arrival alone: the new tracker, the new request count of every number, the packet count, what the cache holds and answers, for the newest and for late packets, and that its extended numbers stay those of the tracker |
| PublisherBuffers.PublisherBuffer.DeclareMissing | rsfu/src/buffer/buffer.rs:277-294 | The loop queues exactly the numbers passed over |
| PublisherBuffers.PublisherBuffer.BuildNackPacket | rsfu/src/buffer/buffer.rs:458-495 | Sends the pairs of the eligible numbers below the highest, and a picture loss report exactly when the mark rises |
| PublisherBuffers.FeedbackIs | rsfu/src/buffer/buffer.rs:458-495 | The feedback holds a generic NACK exactly when a queued number below the limit with fewer than three requests has a low half other than 0, a picture loss report behind it exactly when the mark has risen, nothing else, and, under the decoding condition, reads as exactly these numbers |
| PublisherBuffers.FeedbackExact | rsfu/src/buffer/buffer.rs:440-495 | Over any orderly run a receiver of a round's feedback reads exactly the numbers that are missing, more than 2 below the highest, and were below the limit of fewer than three rounds before |
| Sequencers.Vp8MetaRoundTrip | rsfu/src/sfu/sequencer.rs:34-39 | TL0PICIDX above the 16 bits of the picture ID, and both read back |
| Sequencers.ReturnApart | rsfu/src/sfu/sequencer.rs:161-168 | An answer keeps the log of all answers such that any two returns of one stored entry are more than 100 ms apart, unless the earlier was at time 0 |
| Sequencers.SlotKept | rsfu/src/sfu/sequencer.rs:94-103 | Advancing the head by less than the ring keeps the slots of the numbers that stay |
| Sequencers.RefreshSlot | rsfu/src/sfu/sequencer.rs:161-167 | Marking the entry found for a number marks the recorded entry of that number and no other |
| Sequencers.Sequencer.Push | rsfu/src/sfu/sequencer.rs:79-137 | The whole ring after a head packet and after a late one, which numbers are on record then, and the result: the entry in the slot in turn, or none for a packet too far behind the head |
| Sequencers.LateShifts | rsfu/src/sfu/sequencer.rs:105-129 | A late packet that is stored moves the address of every number of the window on to that of the next one |
| Sequencers.LateKeepsIff | rsfu/src/sfu/sequencer.rs:105-163 | After it, a number recorded before is found exactly when it is the head and the late packet repeats it, or the slot of the next number carries it; never if the next was recorded |
| Sequencers.LateLosesAll | rsfu/src/sfu/sequencer.rs:79-163 | After 10, 12 and the late 11, none of the three is found |
| Sequencers.Sequencer.Skip | rsfu/src/sfu/sequencer.rs:97-102 | The loop computes the specified step |
| Sequencers.Sequencer.GetSeqNoPairs | rsfu/src/sfu/sequencer.rs:139-172 | Every recorded number asked for and due is answered with its own entry; every answer was recorded under a number asked for; times are updated for these and no other; the log grows by exactly the answers, and the invariant keeps it apart over any run |
| Sequencers.Sequencer.Lookup | rsfu/src/sfu/sequencer.rs:150-169 | The exact answer for one number: the entry in the addressed slot, if it carries the number and was not returned within the last 100 ms |
| DownTracks.RunNumbered | rsfu/src/sfu/down_track.rs:214-673 | In every run of packets, mutes, binds and layer changes, each packet sent has exactly these numbers: where the offsets are set anew, one on from what was kept of the last reference, and at least one tick; everywhere else as far from the packet before as at the source |
| DownTracks.RunSends | rsfu/src/sfu/down_track.rs:214-673 | Told by the events alone: in every run exactly the packets are sent, in order and once each, that come while the track is bound and enabled, on its layer for simulcast, and with no re-sync pending or as a key frame (or as audio on a simple track); a key frame is asked for exactly for those a pending re-sync holds back |
| DownTracks.RunContinuousIff | rsfu/src/sfu/down_track.rs:214-673 | The stream of a run is continuous, following the last reference where offsets are set anew, if and only if they never are behind a misanchored reference |
| DownTracks.SimpleContinuous | rsfu/src/sfu/down_track.rs:478-557 | The stream of a simple track always is; its offsets are set anew exactly at a re-sync behind a head packet sent under another number than 0 |
| DownTracks.TimedContinuous | rsfu/src/sfu/down_track.rs:559-673 | Without arrivals at time 0 the stream of a simulcast track is, and, set to the source of its first packet, its offsets are set anew exactly where the source changes from one packet sent to the next |
| DownTracks.SimpleInStep | rsfu/src/sfu/down_track.rs:478-557 | One packet of a simple track gets these numbers and leaves the state the log says |
| DownTracks.SimulcastInStep | rsfu/src/sfu/down_track.rs:559-673 | One packet of a simulcast track gets these numbers and leaves the state the log says, the source followed and the last arrival included |
| DownTracks.TicksValue | rsfu/src/sfu/down_track.rs:608-612 | The timestamp step for a number of milliseconds: 1 below 12, otherwise 90 for every 1000 |
| DownTracks.MisanchoredRun | rsfu/src/sfu/down_track.rs:616-659 | A run of events with an arrival at time 0 in which the numbers sent jump from 102 to 502 |
| DownTracks.ResyncByOneIff | rsfu/src/sfu/down_track.rs:483-521 | A re-sync of a simple track continues with the next number exactly when the last one was not 0, or the old offset happens to give it |
| DownTracks.ResyncGapAtZero | rsfu/src/sfu/down_track.rs:506-512 | A run of events in which the re-sync jumps to 500 |
| DownTracks.ResyncOnKeyFrame | rsfu/src/sfu/down_track.rs:483-500 | In any run, whatever video is sent across a re-sync is a key frame |
| DownTracks.ResyncPendingIff | rsfu/src/sfu/down_track.rs:214-255 | A re-sync becomes pending exactly by a bind or by muting an enabled track, and is over with the next packet sent, which is marked; nothing is sent unless enabled and bound |
| SubscriberTracks.DownTrack.SetLastSsrc | rsfu/src/sfu/down_track.rs:204-208 | Sets the source a simulcast track starts from, as the receiver does when it adds the track |
| SubscriberTracks.DownTrack.SetMuted | rsfu/src/sfu/down_track.rs:247-255 | Muting changes the gating state as specified |
| SubscriberTracks.DownTrack.BindTo | rsfu/src/sfu/down_track_internal.rs:228-283 | Binding sets SSRC and payload type, asks for a re-sync and starts a new sequencer for video |
| SubscriberTracks.DownTrack.WriteRtp | rsfu/src/sfu/down_track.rs:214-232 | One packet: new state, key frames requested, what the sequencer records, and what is written, field by field: new sequence number and timestamp, the track's SSRC and payload type, the other header fields and the payload as they came |
| SubscriberTracks.DownTrack.WriteSimpleRtp | rsfu/src/sfu/down_track.rs:478-557 | The same for the simple path |
| SubscriberTracks.DownTrack.WriteSimulcastRtp | rsfu/src/sfu/down_track.rs:559-673 | The same for the simulcast path, which records nothing |
| Windows.ArrivalKept | rsfu/src/buffer/bucket.rs:39-60 | Over a run, every accepted arrival within the ring behind the head, with no unclear gap and no repeated head since, is still in the cache |
| Windows.DeliveryKept | rsfu/src/sfu/sequencer.rs:79-137 | Over a run, every head packet sent under one of the last max - 1 numbers, with only advancing head packets since, is still on record as it was sent |
| Retransmission.Forwarding.Receive | rsfu/src/buffer/buffer.rs:313-345 | An arrival is cached and queued, with exactly what the cache keeps of the earlier ones; the invariant ties run, cache, queue, sequencer and packets sent to each other |
| Retransmission.Forwarding.Forward | rsfu/src/sfu/down_track.rs:478-557 | The packet goes out under its new numbers and is noted with its source; what was sent under other numbers stays, and a head packet is recorded in front of those of the window |
| Retransmission.Forwarding.Rebind | rsfu/src/sfu/down_track_internal.rs:272-275 | A new binding starts a new sequencer, after which nothing sent before can be asked for, and the invariant holds |
| Retransmission.Forwarding.AnswerNack | rsfu/src/sfu/sequencer.rs:139-172 | After any run, a number inside the sequencer's window whose source is inside the cache's is on record, and, if asked for and not answered within the last 100 ms, the packet first sent under it is sent again, and no other under this number; that packet has the payload and other header fields of the arrival, and the number, timestamp, SSRC and payload type first sent |
| Retransmission.Forwarding.AnswerRecorded | rsfu/src/sfu/sequencer.rs:139-172 | The same for every number on record whose source is in the cache |
| Retransmission.Forwarding.Retransmit | rsfu/src/sfu/receiver.rs:377-436 | The packets written are exactly, in order, those of the entries whose source is found and parses, each with the source's payload and other header fields under the entry's number and timestamp |
| Retransmission.EachAnswered | rsfu/src/sfu/receiver.rs:377-436 | Every entry with a usable source has its packet in the answer |
| Retransmission.EachAsked | rsfu/src/sfu/receiver.rs:377-436 | Every packet of the answer is that of an entry with a usable source |
| Retransmission.RecordsAnswered | rsfu/src/sfu/receiver.rs:377-436 | Entries that answer a request for records linked to what was sent, and sources read from the cache, give back the packets first sent, and no other under their numbers |
| Retransmission.LinkedAfter | rsfu/src/sfu/down_track.rs:524-548 | Recording a forwarded packet keeps every record sufficient to rebuild what was sent |
| Negotiation.StepKeeps | rsfu/src/sfu/peer.rs:219-246 | Every step of every task keeps: one unanswered offer or answer under way exactly while the flag is up, no request forgotten |
| Negotiation.OffersCoalesce | rsfu/src/sfu/peer.rs:219-246 | In every run at most one offer is unanswered, every request is in an offer created after it or in hand, and offers never outnumber requests |
| Negotiation.NoOfferWhileUnanswered | rsfu/src/sfu/peer.rs:229-232 | No offer is begun or created while one is unanswered (section 4 of RFC 3264) |
| Negotiation.CoveredIff | rsfu/src/sfu/peer.rs:219-246 | Told by the events: a request is covered exactly when some offer has been created by a task that got the lock after it was made |
| Negotiation.FlagUpIff | rsfu/src/sfu/peer.rs:229-236 | The flag is up exactly while the answer to an offer created has not been dealt with |
| Negotiation.NoteLeftIff | rsfu/src/sfu/peer.rs:229-232 | The note is left exactly when a task has got the lock since that offer was created |
| Negotiation.EnterOffers | rsfu/src/sfu/peer.rs:228-236 | From any reachable state a task that gets the lock creates an offer for every request made so far, or, with the flag up, leaves the note and gives the lock back |
| Negotiation.AnswerReleases | rsfu/src/sfu/peer.rs:367-383 | The answer to an unanswered offer, once dealt with, puts both flags down, and its task negotiates again exactly if the note was left |
| Negotiation.NeverStuck | rsfu/src/sfu/subscriber.rs:293-301 | While tasks are left, one can run |
| Negotiation.StepWorks | rsfu/src/sfu/peer.rs:367-383 | Every step that is not a new request or answer strictly decreases the work left |
| Negotiation.RunsEnd | rsfu/src/sfu/peer.rs:367-383 | So the tasks run to an end |
| Negotiation.QuietMeansCovered | rsfu/src/sfu/peer.rs:367-383 | When they have, and the last offer is answered, every request was included and both flags are down |
| Negotiation.SplitStepLosesRequest | rsfu/src/sfu/peer.rs:229-231 | With load and store of the flags as separate steps a request can be lost |
| Vp8.ReadPrint | rsfu/src/buffer/helpers.rs:41-122 | Reading undoes printing, unless nothing follows the descriptor |
| Vp8.ReadsIff | rsfu/src/buffer/helpers.rs:41-122 | A reading is found exactly when the payload is that descriptor's print followed by at least one byte |
| Vp8.Parser.Unmarshal | rsfu/src/buffer/helpers.rs:41-122 | The index-driven parser succeeds exactly when there is such a reading and then knows what `KnownOctets` says |
| Vp8.KnownOctets | rsfu/src/buffer/helpers.rs:41-122 | For every payload, in its octets: how long it must be, and the value and index of every field known after it, a field that is absent as it was before; key frame exactly when S is set and the lowest bit behind the descriptor is clear |
| Vp8.KnownFields | rsfu/src/buffer/helpers.rs:48-103 | Behind any printed extension the fields known are the printed ones, at the indices at which they are printed |
| Vp8.ModifyTemporalPayload | rsfu/src/sfu/helpers.rs:69-104 | The buffer after rewriting picture ID and TL0PICIDX in place |
| Vp8.Modified | rsfu/src/sfu/helpers.rs:69-104 | No byte but those of the two fields changes |
| Vp8.RewriteReadsIff | rsfu/src/sfu/helpers.rs:69-104 | Parsing the rewritten payload gives the new picture ID and TL0PICIDX with every other field and byte unchanged exactly when the picture ID is long and below 2^15, or short and 0 |
| H264.IsH264Keyframe | rsfu/src/buffer/helpers.rs:125-185 | The scan terminates in range on every payload and returns true exactly for the specified ones |
| H264.AggregateIff | rsfu/src/buffer/helpers.rs:136-172 | A STAP-A with one octet of header, or a STAP-B, MTAP16 or MTAP24 with three, starts a key frame exactly when one of the units before the first malformed one has type 7, 0, 0, 3 or 4 octets behind its length |
| H264.Dissected | rsfu/src/buffer/helpers.rs:136-172 | Every aggregation packet that reaches behind its header is of the form `AggregateIff` speaks of, and a shorter one starts no key frame |
| H264.UnitOrFragmentIff | rsfu/src/buffer/helpers.rs:125-185 | Of all other payloads exactly the single units of type 5 and the fragments with start bit and type 7 start a key frame |
| H264.UnitsOfJoined | rsfu/src/buffer/helpers.rs:143-170 | The scan sees the very units that were joined |
| Ntp.Parts | rsfu/src/sfu/helpers.rs:181-196 | The rounded fraction never overflows into the seconds |
| Ntp.PartsNearest | rsfu/src/sfu/helpers.rs:181-196 | The fraction is the nearest to the nanoseconds, off by at most half a unit |
| Ntp.OrderKept | rsfu/src/sfu/helpers.rs:181-196 | Within an era of 2^32 seconds NTP times are ordered strictly as nanoseconds are |
| Ntp.MillisBack | rsfu/src/sfu/helpers.rs:132-136 | Back in milliseconds the time is rounded down, or one less exactly for whole milliseconds whose fraction was rounded down |

## Left out

- RTCP framing of the congestion-control report (rsfu/src/twcc/twcc.rs:298-329): its length field is not maintained by the writers, and marshalling the header into an empty buffer fails; `Build` models the failure and the bytes appended before it.
- TwccResponder.Responder.Push: does not model the overflow of the 32-bit cycle count, and the reporting condition at the end, whose body is empty, is not modelled.
- TwccGaps.ExpandAscendingIff: is about the gap loop as a method of its own; `ReportCompleteIff` says what the descending sort makes of it.
- TwccFeedback.FeedbackRoundTrip: asks for deltas that fit 16 bits, runs that fit 13, at most 65535 packets and a reference time in 24 bits, the widths of the wire fields; `StoredSaturatesIff` and `TwccRuns.RoundTripIff` say what happens beyond the first two.
- BucketRing.Bucket.AddPacket: takes packets of 4 to 1498 bytes that carry their number in bytes 2 and 3; `ConfinedIff` is the reason for the upper bound, and the capacity checks of the source, which then cannot fail, are not modelled.
- BucketRing.Bucket.GetPacket: fills the first bytes of the buffer, where the source asks for a buffer of exactly the packet's length.
- BucketRing.AlignedIffClear: is about gaps within one turn of the ring; a longer gap leaves no earlier packet in the window anyway.
- NackPairs.GroupingOptimal: is about numbers of one cycle with low halves 1 to 65519; `OptimalIff` is the exact condition up to the wrap, among lists that do not wrap themselves.
- NackPairs.DecodeIff: is about numbers that 16 bits can tell apart, a span below 2^16; a receiver cannot read others back in any form.
- Sequencers.Sequencer.GetSeqNoPairs: treats a slot that was never written as a miss, where the source unwraps an absent entry, and takes time as a parameter that does not go back.
- LossHistory.QueueExact: is about runs whose first packet parses and whose gaps meet the condition of `QueuedRightIff`; a number queued one cycle too low is asked for under that other number.
- Retransmission.Forwarding.Receive: a publisher does not reuse an extended number for other bytes; the RTP library's parser is a function that reads the number from bytes 2 and 3.
- Retransmission.Forwarding.AnswerNack: what is found after a late packet or an unclear gap is said by `LateKeepsIff` and `ShiftLosesIff`, not as part of the run.
- Retransmission.Forwarding.Retransmit: the payload rewritten for temporal layers is discarded by the source after a successful parse, and is not modelled; neither are the other layers' buffers. The RTCP handler that would call it does not do so yet.
- DownTracks.RunNumbered: milliseconds are computed in integers, where the source goes through floating point.
- SubscriberTracks.DownTrack.WriteSimulcastRtp: the picture ID bookkeeping and `set_vp8_temporal_layer`, which copies into an empty buffer, are not modelled; they do not touch the offsets.
- Negotiation.OffersCoalesce: creating an offer and applying an answer to an outstanding offer succeed, and the offer handler is set and the peer open.
- The standard library's binary search and sort are stated by what they return.
- Loop bodies and consecutive blocks that the source writes inline are methods of their own where that keeps the proofs small.
- Vp8.Parser.Unmarshal: what the fields hold after a failed parse is not stated.
- Spatial layer switching, floating-point statistics (jitter, bitrate, loss rate, bandwidth estimates), middleware, sessions, peer connections, relay and signalling.
