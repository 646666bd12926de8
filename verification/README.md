# Verification of the media engine, the G.722 codec and the call lifecycles

This project models the stateful core of xk6-sip-media in Dafny and proves what that core is for:

- **RTP media engine (`core/rtp`)**: the shared sequence/timestamp counter, SRTP index reconstruction and AES counter
  mode, the de-jitter buffer, the receive statistics, the MOS estimate, telephone events, the stream players and the
  sharded reactor that drives them.
- **Sub-band ADPCM codec (`core/codec/g722.go`)**: encoder and decoder in lockstep, and an end-to-end error bound.
- **Call lifecycles (`sip/registered_uas.go`, `sip/handle.go`)**: every interleaving of concurrent handlers.
- **SDP (`sip/sdp.go`)**: the printer and the parser.

`dafny verify dfyconfig.toml` checks everything.

## How the model is built

Objects whose methods update their fields are classes (`Session`, `SrtpSession`, `RtpStats`, `JitterBuffer`,
`AudioRecorder`, `DtmfCollector`, `Shard`, `StreamPlayer`, `StreamSrtpPlayer`, and the coder `State` of G.722). Each
method is tied to a function on the old state, and the properties are proved about runs of that function. Loops and
in-place arrays of the source are loops and arrays here. Concurrent code (the reactor's fan-out, the registered agent, the call handle)
is a state machine whose actions are the mutex sections, channel operations and responses of the source; a run is an
arbitrary list of actions, so a statement about all runs is a statement about all interleavings.

- `Words`, `Bytes`, `Wrappers`, `Strings`, `Rtp`: integer widths, octets, optional values, the Go string and number
  functions the SDP code calls, the 12-octet RTP header.
- `Session`, `PacketIndex`, `CounterMode`, `Srtp`: from sequence numbers to encrypted runs.
- `Jitter`, `JitterRuns`: the buffer, and its refinement to unbounded playout slots.
- `Stats`, `Mos`: statistics and score.
- `Dtmf`, `DtmfRuns`: tables, collector, and digits end to end.
- `Reactor`, `ReactorRuns`, `FanOut`, `Player`: shards, whole reactor runs, the tick broadcast, the players.
- `G722`, `RegisteredUas`, `CallHandle`, `Sdp`.

AES and HMAC-SHA1 are arbitrary functions of the right type. Octets are naturals below 256 and their XOR is defined bit
by bit. Times are integer nanoseconds supplied by the caller, floating-point numbers are exact reals.

## Where the code and its documentation disagree

The model follows the code. Each point is a proved lemma.

- `estimateIndex` says it follows section 3.3.1 of RFC 3711, but it never steps back to the block before. A packet from
  before a wrap that arrives after it is taken for one a whole block ahead, and all later indices stay off by 65536
  (`PacketIndex.TrackExact`, `LateAcrossWrapIsMissed`, `OffsetPersistsRun`); with any block cipher such a packet of at
  least 16 octets of payload is accepted and decrypted wrongly (`Srtp.IntactIffTrackable`, over whole runs
  `RunIntactIff`).
- `DecryptPacket` moves the index before it tests the tag (core/rtp/srtp.go:161-169), where section 3.3 of RFC 3711
  does so afterwards: a refused packet can make the next authentic one come back wrong (`Srtp.RefusedPacketsMove`,
  `RefusedPacketDerails`).
- The dialer gives the receiving SRTP session its own SSRC (sip/dial.go:253 and 283) instead of the sender's. The tag
  does not cover the SSRC, so packets are accepted, but they come back intact only if the two are equal
  (`Srtp.IntactIffSameSsrcAndIndex`). The round trips below are about two ends with the same SSRC.
- `JitterBuffer.Push` says that it handles sequence number wrap-around. It does so exactly for packets in the playout head's own
  block of 65536 numbers; around a wrap an early packet is dropped and a late one is stored a cycle ahead
  (`JitterRuns.WrapHandledIff`, `WrapExamples`).
- The loss count takes a step backwards for a long forward gap. For streams of any length whose single steps go back by
  less than 2^15 and forward by less than 2^16 it never falls below the number of missing packets and is exact if and
  only if the stream is in order (`Stats.LossExactIffInOrder`): 0, 2, 1 reports 65535 lost packets where none is missing
  (`ReorderedExample`). The bound on steps back is sharp: one by more than 2^15 under-counts, 40000 followed by 0 giving
  25535 where 39999 are missing (`BackwardPair`). For streams in order the count is exact if and only if no gap reaches
  2^16 (`LossExact`).
- The MOS is documented as lying in [1, 5]; without negative loss or jitter it never exceeds 4.43 (`Mos.ScoreRange`).
- Round robin stays balanced after every number of adds if and only if the number of shards divides 2^64
  (`ReactorRuns.BalancedForeverIff`).
- Digits are sent unprotected on SRTP calls too (sip/handle.go:87-95), while the SRTP receiver is documented to collect
  them (core/rtp/srtp.go:406). Each packet has 16 octets where the receiver asks for 22, so all are refused and its
  index does not move (`DtmfRuns.PlainEventRefused`, `PlainDigitRefused`).
- `SendDTMF` always sends type 101, so a collector set up for another negotiated type records nothing
  (`DtmfRuns.OtherTypeRecordsNothing`); two equal neighbouring digits are merged exactly when their end packets are a
  multiple of 2^32 clock ticks apart (`DigitsArriveIff`, `TwoDigitsMerge`).
- `CallHandle` documents that a remote BYE ends the call (sip/handle.go:54 and 74). The client only answers it
  (sip/client.go:130-135): without a local `Hangup` no call ever ends (`CallHandle.OnlyHangupEndsTheCall`), and with one every
  call can (`EndsIffHangup`).
- The registered agent promises that a BYE racing the ACK is never missed. That holds while no other live call has the Call-ID
  (`RegisteredUas.ByeNeverMissed`); when a second INVITE reuses the Call-ID of a running call, the running call
  becomes unreachable (`ClashLosesBye`).
- The step adaptation is described as doubling and halving; it moves the step by an eighth (`G722.StepFollowsCode`).
- G.722 silence does not decode to silence: the upper quantiser has no zero level, so the output alternates between v
  and -v with 1 <= |v| <= 8 (`G722.SilenceHums`).

## Model

| member | source | states |
|---|---|---|
| RtpSession.Session.constructor | core/rtp/session.go:21-28 | a new session starts both counters at zero |
| RtpSession.Session.NextSeqTS | core/rtp/session.go:33-41 | the n-th call returns n mod 2^16 and the sum of the earlier increments mod 2^32 |
| PacketIndex.TrackKeepsSync | core/rtp/srtp.go:217-228 | after any packet the remembered sequence number is the low half of the index |
| PacketIndex.TrackExact | core/rtp/srtp.go:217-228 | the estimated index is the true packet number if and only if the packet is in the same block and at most 2^15 behind, or in the next block and less than 2^15 ahead |
| PacketIndex.ForwardGap | core/rtp/srtp.go:217-228 | in-order packets are recognised exactly for gaps below 2^15 or inside one block |
| PacketIndex.LateAcrossWrapIsMissed | core/rtp/srtp.go:216-228 | of the packets less than 2^15 late, exactly those from before a wrap are missed |
| PacketIndex.LateAcrossWrapExample | core/rtp/srtp.go:216-228 | packet 65535 arriving after 65536 gets index 131071 |
| PacketIndex.OffsetPersists | core/rtp/srtp.go:217-228 | two trackers a whole number of blocks apart stay so after any packet |
| PacketIndex.OffsetPersistsRun | core/rtp/srtp.go:217-228 | over any further run a missed wrap is never repaired |
| PacketIndex.RunTracksTruth | core/rtp/srtp.go:217-228 | a recognised run of any length and any number of wraps leaves the true number as the index |
| PacketIndex.IndexAt | core/rtp/srtp.go:207-228 | the index used for the i-th packet of a recognised run is its true number |
| PacketIndex.IndicesTrueIff | core/rtp/srtp.go:217-228 | all indices of a run are true if and only if every single step is recognised |
| PacketIndex.SmallGapsTrackable | core/rtp/srtp.go:217-228 | a stream that starts below 2^16 and rises by gaps below 2^15 is recognised throughout |
| CounterMode.DeriveIV | core/rtp/srtp.go:287-303 | the octet-wise XORs produce salt XOR (four zero octets, SSRC, 48-bit index) followed by two zero octets |
| CounterMode.XorIndex | core/rtp/srtp.go:295-301 | the six XORs put the low 48 bits of the index, big-endian, over octets 8 to 13 only |
| CounterMode.CounterValue | core/rtp/srtp.go:196-198 | the first 2^16 counter blocks of a packet are its IV plus the block number without a carry |
| CounterMode.CounterBlocksDistinct | core/rtp/srtp.go:196-198 | two counter blocks coincide if and only if SSRC, index and block number do |
| CounterMode.IVValue | core/rtp/srtp.go:285-303 | without its salt an IV is the number SSRC * 2^64 + index * 2^16, as section 4.1.1 of RFC 3711 has it |
| CounterMode.BlockOfStream | core/rtp/srtp.go:197-198 | block b of a key stream is AES of counter block b, the last one cut to the length |
| CounterMode.StreamBlocksDistinct | core/rtp/srtp.go:177-198 | with a block cipher, two full blocks of key streams coincide if and only if SSRC, index and place do |
| CounterMode.StreamsDistinct | core/rtp/srtp.go:177-198 | with a block cipher, key streams of at least one block coincide if and only if SSRC and index do |
| CounterMode.DeriveKey | core/rtp/srtp.go:257-283 | the segment loop yields the concatenated AES outputs cut to the requested length, for every length |
| CounterMode.KdfInputsDistinct | core/rtp/srtp.go:257-283 | no two (label, segment) pairs share an AES input |
| CounterMode.KdfInputIsXor | core/rtp/srtp.go:258-279 | the AES input is the salt XOR the label in octet 7 and the segment number in the last two octets, as in section 4.3.1 of RFC 3711 |
| CounterMode.KdfSegment | core/rtp/srtp.go:271-282 | segment i of a derived key is AES of its own input, the last one cut to the length |
| Bytes.ValueOfBigEndian | core/rtp/srtp.go:275 | storing a number big-endian and reading it back gives the number |
| Bytes.XorCancels | core/rtp/srtp.go:198 | XORing twice with the same key stream gives the payload back |
| Bytes.XorInjective | core/rtp/srtp.go:179 | two key streams that encrypt a payload alike are equal |
| Bytes.XorRecovers | core/rtp/srtp.go:198 | XORing a text with its encryption gives the key stream |
| Srtp.SrtpSession.NewSession | core/rtp/srtp.go:94-134 | a session exists exactly for a master key of 16 and a salt of 14 octets, with the derived keys and a fresh index |
| Srtp.SessionKeys | core/rtp/srtp.go:233-253 | label 0 gives the cipher key, label 1 the authentication key of 20 octets, each from AES calls of its own |
| Srtp.KeysDiffer | core/rtp/srtp.go:233-253 | with a block cipher the authentication key does not begin with the cipher key |
| Srtp.SrtpSession.EstimateIndex | core/rtp/srtp.go:217-228 | updates both index fields as the tracker does, and returns the new index |
| Srtp.SrtpSession.XorKeyStream | core/rtp/srtp.go:193-198 | in place, XORs everything from an offset on with the AES key stream of the IV and leaves the rest |
| Srtp.SrtpSession.EncryptPacket | core/rtp/srtp.go:136-205 | moves the index and returns header, encrypted payload and the tag over both |
| Srtp.SrtpSession.DecryptPacket | core/rtp/srtp.go:146-185 | short packets change nothing; all others move the index, then a wrong tag is refused and a right one decrypted |
| Srtp.UnprotectProtected | core/rtp/srtp.go:161-204 | the tag covers neither index nor SSRC: an authentic packet is accepted whatever the receiver assumes of them |
| Srtp.AcceptsExactlyProtected | core/rtp/srtp.go:164-205 | the receiver accepts and returns r if and only if the packet is what the sender makes of r |
| Srtp.OtherTagRefused | core/rtp/srtp.go:163-169 | a packet that differs from an accepted one in its last ten octets alone is refused |
| Srtp.ProtectedLayout | core/rtp/srtp.go:189-205 | protecting leaves the 12 octets of the header readable and adds ten |
| Srtp.RefusedPacketsMove | core/rtp/srtp.go:151-169 | every packet of at least 22 octets moves the index, refused or not, and no shorter one does |
| Srtp.RefusedPacketDerails | core/rtp/srtp.go:161-169 | at index 40000 a refused packet numbered 0 makes packet 40001 count as 105537 |
| Srtp.IntactIffSameStream | core/rtp/srtp.go:171-198 | between two ends that share cipher and authentication key, a packet comes back intact if and only if both use the same key stream over its payload |
| Srtp.IntactIffSameSsrcAndIndex | sip/dial.go:253-283 | two sessions of one configuration with SSRCs of their own: every authentic packet is accepted, and one of at least 16 octets is intact if and only if SSRC and index agree |
| Srtp.OneDelivery | core/rtp/srtp.go:147-185 | an authentic packet is accepted, finds the true index if and only if it is trackable, and is intact if and only if the streams agree |
| Srtp.IntactIffTrackable | core/rtp/srtp.go:147-228 | with a block cipher and at least 16 octets of payload, a delivery is accepted, and intact if and only if it is trackable |
| Srtp.SentAt | core/rtp/srtp.go:138-144 | every packet of a sender run is protected under its true unwrapped number |
| Srtp.RunRoundTrip | core/rtp/srtp.go:138-228 | any selection of sent packets, with losses, duplicates and reordering, decrypts to the exact originals while each delivery is trackable |
| Srtp.RunIntactIff | core/rtp/srtp.go:138-228 | with a block cipher and payloads of at least 16 octets, all deliveries of a run come back intact if and only if all are trackable |
| Srtp.InOrderRoundTrip | core/rtp/srtp.go:138-228 | in-order subsets with gaps below 2^15 decrypt to the exact originals over any number of wraps |
| Srtp.NoCounterReuse | core/rtp/srtp.go:190-228 | in a sender run with indices below 2^48 no AES input occurs twice |
| Srtp.KeyBlockIs | core/rtp/srtp.go:189-205 | what is XORed onto block b of the i-th packet sent is AES of exactly that block's input |
| Srtp.KeyBlocksDistinct | core/rtp/srtp.go:189-228 | with a block cipher, no two full blocks a sender run puts on the wire are XORed with the same octets |
| Stats.RtpStats.Update | core/rtp/stats.go:85-136 | the in-place update of all eight fields, first packet included |
| Stats.AgreeStep | core/rtp/stats.go:100-109 | one packet keeps rollover and last number equal to the SRTP index and moves the maximum to the larger of the two |
| Stats.RolloverAgrees | core/rtp/stats.go:85-109 | on any stream in any order the statistics hold the low 32 bits of the SRTP index, and their maximum is the maximum of those |
| Stats.HighestIsTrue | core/rtp/stats.go:100-109 | for a recognised stream the highest extended number is the largest true number |
| Stats.LossConserved | core/rtp/stats.go:89-121 | received plus lost is one plus the forward distances plus the repeats |
| Stats.DistancesAddUp | core/rtp/stats.go:111-121 | the forward distances lead from the first number to the last, modulo 2^16 |
| Stats.LossStep | core/rtp/stats.go:111-120 | a step that does not fall counts at most the packets skipped, and all of them if and only if it is below 2^16 |
| Stats.LossExact | core/rtp/stats.go:111-120 | for a stream in order, repeats included, the count never exceeds the missing packets and equals them if and only if no gap reaches 2^16 |
| Stats.LossExactIffInOrder | core/rtp/stats.go:111-120 | for a stream of any length whose steps go back by less than 2^15 and forward by less than 2^16, with any repeats, the count is never below the missing packets and equals them if and only if the stream is in order |
| Stats.LostStep | core/rtp/stats.go:111-120 | such a step reports at least the packets it adds to the missing ones, more than those when it goes back, and exactly those when it leaves the highest number in order |
| Stats.BackwardStepCost | core/rtp/stats.go:111-120 | a step d below 2^16 backwards, across a wrap too, is charged 65535 - d packets |
| Stats.BackwardPair | core/rtp/stats.go:111-120 | one step backwards over-counts if and only if it is below 2^15 and under-counts if and only if it is above |
| Stats.ReorderedExample | core/rtp/stats.go:111-120 | 0, 2, 1 reports 65535 lost packets with none missing |
| Stats.RtpStats.LossPercent | core/rtp/stats.go:60-66 | the reported percentage of any state lies in [0, 100] |
| Stats.JitterBounded | core/rtp/stats.go:123-134 | the jitter lies between zero and the largest deviation seen |
| Stats.LossPercentBounded | core/rtp/stats.go:60-66 | the loss percentage lies in [0, 100] |
| Stats.LossIsShare | core/rtp/stats.go:60-66 | the percentage is a hundred times the share of the lost among all packets |
| Stats.LossIsTrueShare | core/rtp/stats.go:60-121 | for a rising stream with gaps below 2^16 it is the share of the missing among the numbers spanned |
| Stats.DeviationInMilliseconds | core/rtp/stats.go:124-130 | the deviation of two arrivals is their distance in whole milliseconds against 20 |
| Stats.JitterIsWeightedSum | core/rtp/stats.go:123-134 | the jitter is the sum of all deviations, the latest weighing 1/10 and each earlier one 9/10 of the next |
| Stats.CallScoreBounded | core/rtp/stats.go:60-134 | the score of any call lies in [1.00, 4.43] |
| Mos.CubicRises | core/rtp/mos.go:20-34 | the cubic falls only where it is at most 1, so the clamp restores monotonicity |
| Mos.ScoreAntitone | core/rtp/mos.go:20-34 | more loss or more jitter never improves the score |
| Mos.ScoreRange | core/rtp/mos.go:12-34 | for non-negative inputs the score lies in [1.00, 4.43], the upper end reached at (0, 0) |
| Mos.OnePercentIs25Milliseconds | core/rtp/mos.go:16-21 | one percent of loss costs exactly as much as 25 ms of jitter |
| Mos.ScorePoints | core/rtp/mos.go:14-33 | values of the documented formula at five points |
| Jitter.AudioRecorder.Write | core/rtp/recorder.go:52-72 | appends the payload to the buffer |
| Jitter.JitterBuffer.constructor | core/rtp/jitter.go:37-51 | starts empty, not started and not stopped, on a recorder that may already hold data |
| Jitter.JitterBuffer.Push | core/rtp/jitter.go:54-79 | the source's two-part test discards exactly the numbers below the head; the first packet sets the head and the clock |
| Jitter.JitterBuffer.Tick | core/rtp/jitter.go:82-132 | plays one slot, holds, or flushes everything in circular order and asks for removal |
| Jitter.JitterBuffer.Flush | core/rtp/jitter.go:88-103 | appends the buffered packets in order of circular distance from the head and empties the buffer |
| Jitter.JitterBuffer.Close | core/rtp/jitter.go:136-138 | may be called any number of times |
| Jitter.SortByDistance | core/rtp/jitter.go:90-98 | lists exactly the buffered numbers by strictly increasing circular distance |
| JitterRuns.PushRefines | core/rtp/jitter.go:54-79 | a push fills slot head + (seq - low half of head), or nothing if that is negative |
| JitterRuns.TickRefines | core/rtp/jitter.go:107-131 | a playing tick plays exactly the head slot, across the wrap too |
| JitterRuns.RunRefines | core/rtp/jitter.go:54-132 | after any run the recorder holds, after what it held before and slot by slot, the slot's packet or silence, and the map holds exactly the slots from the head on, none below |
| JitterRuns.DelayHonoured | core/rtp/jitter.go:58-130 | ticks before the first packet do nothing; after it exactly the ticks from the first one at least the playout delay later play one slot each |
| JitterRuns.HeldBack | core/rtp/jitter.go:111-117 | while every tick comes less than a positive delay after the first packet nothing is played |
| JitterRuns.LastPushWins | core/rtp/jitter.go:53-79 | a slot is filled if and only if some push was meant for it, and then holds the last such packet |
| JitterRuns.FlushRefines | core/rtp/jitter.go:86-103 | the flush writes the unplayed slots in increasing order and none is left out |
| JitterRuns.ClosedRun | core/rtp/jitter.go:54-132 | a closed run is the played slots followed by each unplayed packet once in slot order, after what the recorder held before |
| JitterRuns.ClosedRunWithoutSilence | core/rtp/jitter.go:54-132 | without silence frames a closed run writes every surviving packet exactly once, in slot order, and nothing else |
| JitterRuns.WrapHandledIff | core/rtp/jitter.go:66-75 | a packet near the head goes to its proper slot if and only if it is in the head's block of 2^16 |
| JitterRuns.WrapExamples | core/rtp/jitter.go:66-75 | 65536 one slot early is dropped; 65535 one slot late waits for slot 131071 |
| Dtmf.TablesInverse | core/rtp/dtmf.go:14-28 | the two digit tables are inverse to each other |
| Dtmf.StandardCodes | core/rtp/dtmf.go:14-28 | the codes are those of section 3.10 of RFC 2833 |
| Dtmf.PayloadFields | core/rtp/dtmf.go:155-171 | event, end bit, reserved bit, volume and duration can be read back from a built payload |
| Dtmf.DecodeBuilt | core/rtp/dtmf.go:32-41 | decoding a built payload gives the digit and the end bit, for all codes, volumes and durations |
| Dtmf.DecodesIff | core/rtp/dtmf.go:32-41 | a payload is an event if and only if it has four octets and a known code, and its top flag bit marks the end |
| Dtmf.DtmfCollector.constructor | core/rtp/dtmf.go:59-65 | type 0 stands for 101 |
| Dtmf.DtmfCollector.AcceptEnd | core/rtp/dtmf.go:71-81 | records an end event unless it repeats the last timestamp and code |
| Dtmf.DtmfCollector.Receive | core/rtp/receiver.go:60-70 | only end events of the collector's payload type reach the collector |
| Dtmf.DtmfCollector.MatchesExpected | core/rtp/dtmf.go:95-113 | true if and only if strictly increasing positions of the expected digits exist |
| DtmfRuns.SendDTMF | core/rtp/dtmf.go:121-153 | a known digit draws six numbers and 800 ticks for five tone packets and an end packet; an unknown one draws nothing |
| DtmfRuns.DigitShape | core/rtp/dtmf.go:127-153 | the six packets of a digit: consecutive numbers, timestamps and durations 160 ticks apart, the marker on the first, the end bit and the fifth's duration on the last |
| DtmfRuns.UninterruptedDigit | core/rtp/dtmf.go:121-153 | SendDTMF is six tone steps of a schedule in which other senders may interleave |
| DtmfRuns.CollectorSeesEnds | core/rtp/dtmf.go:71-81 | the collector depends on the end events alone and records each that differs from the one before |
| DtmfRuns.StutterDeduped | core/rtp/dtmf.go:67-76 | repeating end packets in place changes nothing |
| DtmfRuns.DedupedIff | core/rtp/dtmf.go:71-81 | nothing is dropped if and only if no two neighbouring end events coincide |
| DtmfRuns.SentEnds | core/rtp/dtmf.go:121-153 | the end events on the wire are exactly the ends of completed digits, at least 800 ticks apart |
| DtmfRuns.DigitsArriveIff | core/rtp/dtmf.go:32-171 | the collector records exactly the completed digits if and only if no equal neighbours end a multiple of 2^32 ticks apart |
| DtmfRuns.DigitsArrive | core/rtp/dtmf.go:32-171 | with audio interleaved, tone packets lost and end packets repeated, exactly the sent digits are recorded while ends are less than 2^32 apart |
| DtmfRuns.TwoDigitsMerge | core/rtp/dtmf.go:71-153 | a schedule in which two equal digits, 2^32 ticks apart and delivered without loss, are recorded as one |
| DtmfRuns.OtherTypeRecordsNothing | core/rtp/dtmf.go:59-65 | a collector for any type but 101 records nothing of what this sender sends |
| DtmfRuns.PlainEventRefused | core/rtp/srtp.go:147-153 | every packet of a digit is too short for an SRTP receiver, which refuses it and does not move |
| DtmfRuns.PlainDigitRefused | sip/handle.go:86-95 | after any run an SRTP receiver refuses all packets of a digit and stays where it was |
| Reactor.Shard.Add | core/rtp/reactor.go:30-34 | appends the item, present already or not |
| Reactor.Shard.Tick | core/rtp/reactor.go:37-52 | ticks every item once for each of its places, compacts in place to exactly those that said yes in order, clears the freed tail and touches nothing beyond |
| Reactor.FlagsOfOnce | core/rtp/reactor.go:42-46 | an item that occurs once is ticked once per cycle |
| Reactor.KeepDistinct | core/rtp/reactor.go:41-46 | filtering keeps exactly the flagged items, each once |
| ReactorRuns.StepKeepsInv | core/rtp/reactor.go:30-104 | drawing a number, appending and ticking, in any interleaving, keep every item in its own shard until its first refusal |
| ReactorRuns.NeitherLostNorRepeated | core/rtp/reactor.go:30-104 | over any run with overlapping adds an item is appended once, is only in its own shard, exactly while it has said yes to every tick, and is never ticked after its first no; shards keep the order of appending |
| ReactorRuns.DrawnCanBeAppended | core/rtp/reactor.go:97-104 | between its two critical sections an item is in no shard, and one step puts it at the end of its own |
| ReactorRuns.RoutedEvenly | core/rtp/reactor.go:97-104 | after m adds shard s has had m/n of them, plus one if s < m mod n, up to 2^64 adds and for ever if n divides 2^64 |
| ReactorRuns.EvenlyBalanced | core/rtp/reactor.go:97-104 | up to 2^64 adds, and for ever if n divides 2^64, no two shards differ by more than one |
| ReactorRuns.UnbalancedAtWrap | core/rtp/reactor.go:97-104 | otherwise the add after the wrap breaks the balance |
| ReactorRuns.BalancedForeverIff | core/rtp/reactor.go:97-104 | no two shards ever differ by more than one if and only if the number of shards divides 2^64 |
| FanOut.StepKeepsInv | core/rtp/reactor.go:110-155 | every atomic step keeps the tick accounts of every shard |
| FanOut.TicksAccounted | core/rtp/reactor.go:110-155 | in every reachable state, during a broadcast too, ticks started, pending and skipped add up to the broadcasts that reached the shard, and no channel closes twice |
| FanOut.SkipNeedsPending | core/rtp/reactor.go:127-134 | a tick is skipped only while one is pending for that very shard |
| FanOut.PendingCanStart | core/rtp/reactor.go:139-146 | an idle worker can start its pending tick and a busy one finish it, whatever the others do |
| FanOut.BroadcastReachesAll | core/rtp/reactor.go:126-134 | one master tick leaves a tick in every lane, counted as skipped where one was pending |
| FanOut.StopClosesAll | core/rtp/reactor.go:119-155 | from Stop on the fan-out goroutine can close every channel, once each, and exit |
| FanOut.NeverClosesUnasked | core/rtp/reactor.go:119-125 | without a Stop no channel is ever closed |
| FanOut.AtMostOneMore | core/rtp/reactor.go:120-146 | after its channel closes a shard starts exactly the tick already pending and no other |
| FanOut.ClosedLaneDrains | core/rtp/reactor.go:139-146 | once a channel is closed nobody's step moves the end of its shard away, and every own step brings it nearer |
| FanOut.LaneStepsBounded | core/rtp/reactor.go:139-146 | in any run a closed shard takes at most as many own steps as remain, and after that many it has ended |
| FanOut.ClosedLaneEnds | core/rtp/reactor.go:139-146 | at most five steps of its own end a closed shard, the pending tick included |
| Player.StreamPlayer.Tick | core/rtp/sender.go:33-80 | one payload per tick with fresh numbers of the shared session, counted if sent; refusal runs the callback once and sends nothing |
| Player.StreamSrtpPlayer.Tick | core/rtp/srtp.go:349-401 | the same, with the same raw packet of type, number, timestamp, SSRC and payload, and everything on the wire is what one SRTP sender run makes of those packets |
| Player.CompletesExactlyOnce | core/rtp/sender.go:33-50 | however often it is ticked, the callback runs once if some tick refused and otherwise never |
| Player.UnstoppedRun | core/rtp/sender.go:33-80 | an unstopped player says yes exactly for as many ticks as it has payloads and takes every payload once |
| Player.BytesAddUp | core/rtp/sender.go:73-77 | wire bytes are payload octets plus a fixed overhead per accepted packet |
| Player.CountersCount | core/rtp/sender.go:52-77 | the counters are the number of packets the socket accepted and the payload octets of exactly those |
| Player.PlayerRoundTrip | core/rtp/srtp.go:349-401 | what an SRTP player sent decrypts, in any selection whose deliveries are trackable, to its payloads, although it shares its numbers with other senders |
| Player.PlayerIntactIff | core/rtp/srtp.go:349-401 | with a block cipher and payloads of at least 16 octets all of a selection comes back intact if and only if all of it is trackable |
| Player.PlayerNoCounterReuse | core/rtp/srtp.go:349-401 | no AES input is used twice by an SRTP player |
| Player.PlayerBlocksDistinct | core/rtp/srtp.go:349-401 | with a block cipher no two full blocks of its packets are XORed with the same octets |
| Rtp.MarshalRoundTrip | core/rtp/sender.go:57-68 | every field of a packet with a 7-bit type can be read back from its 12-octet header |
| G722.State.EncodeLow | core/codec/g722.go:91-112 | in place, quantises against the predictor and updates predictor and step as the codeword dictates, without overflow |
| G722.State.EncodeHigh | core/codec/g722.go:115-130 | the same for the upper band |
| G722.State.DecodeLow | core/codec/g722.go:133-141 | in place, the same predictor and step update from the codeword alone |
| G722.State.DecodeHigh | core/codec/g722.go:144-152 | the same for the upper band |
| G722.DequantLow | core/codec/g722.go:155-162 | stays within 31 largest steps, so the predictor sum cannot overflow |
| G722.UpdateStep | core/codec/g722.go:177-192 | the step stays in [8, 32767] |
| G722.StepFollowsCode | core/codec/g722.go:177-192 | a zero codeword shrinks the step and any other grows it, by an eighth up to rounding and the clamp |
| G722.BandsFollowCode | core/codec/g722.go:107-152 | in both bands the step follows the band's own codeword, and leaves its initial zero for the smallest step |
| G722.Padded | core/codec/g722.go:51-54 | the samples themselves, and a zero after an odd number of them |
| G722.PackRoundTrip | core/codec/g722.go:66-78 | both codewords survive the packing into one octet |
| G722.Encode | core/codec/g722.go:50-70 | the in-place loop writes the code of every pair in order |
| G722.Decode | core/codec/g722.go:73-87 | the in-place loop writes the two outputs of every octet in order |
| G722.PairLockstep | core/codec/g722.go:50-152 | decoding the octet of a pair from the encoder's state gives the encoder's next state |
| G722.Lockstep | core/codec/g722.go:50-152 | from the octets alone the decoder reaches, after every octet, the encoder's predictors and steps in both bands |
| G722.LowError | core/codec/g722.go:91-175 | the low-band error is at most max(step - 1, difference - 31 steps), for every input |
| G722.HighError | core/codec/g722.go:115-175 | the high-band error is at most max(step, difference - 2 steps), for every input |
| G722.PairError | core/codec/g722.go:56-86 | each reconstructed sample is within the sum of the band bounds, one more for the first |
| G722.DecodedError | core/codec/g722.go:50-87 | every sample of every frame is decoded within the bounds given by the encoder's state before its pair |
| G722.DecodedErrorInRange | core/codec/g722.go:50-87 | without overshoot every sample is decoded within the sum of the steps, the second of a pair within one less |
| G722.SilenceInRange | core/codec/g722.go:91-130 | a silent frame never overshoots either quantiser |
| G722.SilenceHums | core/codec/g722.go:115-170 | a silent frame decodes to pairs (v, -v) with 1 <= abs v <= 8 |
| RegisteredUas.StepMovesForward | sip/registered_uas.go:355-513 | nobody's step moves any handler back, reopens a channel or closes one again |
| RegisteredUas.StepKeepsInv | sip/registered_uas.go:76-513 | every atomic step keeps the account of the cap, the map, the channels and the results |
| RegisteredUas.CapAndOnce | sip/registered_uas.go:355-372 | under every interleaving `active` is the number of handlers in flight and within the cap, no channel closes twice, no call has two results |
| RegisteredUas.RefusedIffFull | sip/registered_uas.go:356-365 | in every reachable state an INVITE is turned away if and only if the cap is positive and that many calls are in flight |
| RegisteredUas.AdmittedGetsAnswered | sip/registered_uas.go:423-457 | if nothing fails an admitted call is answered, its stop signal in the map before that |
| RegisteredUas.AnsweredStaysUp | sip/registered_uas.go:470-482 | an answered call ends only by its signal, shutdown or its own time limit |
| RegisteredUas.ReceiverNeedsSignal | sip/registered_uas.go:448-457 | its receiver runs on until the stop signal |
| RegisteredUas.ResultIffAnswered | sip/registered_uas.go:435-499 | a call has a result if and only if it has ended and was ever answered |
| RegisteredUas.CleanExit | sip/registered_uas.go:355-500 | once all handlers are gone, whatever their exit path, `active` is zero and the map empty |
| RegisteredUas.SignalledIsOwnCall | sip/registered_uas.go:503-513 | a BYE that signals closes the channel of a call with its own Call-ID |
| RegisteredUas.RoutedIffDistinct | sip/registered_uas.go:423-436 | every live call stays reachable through the map throughout a run if and only if live calls never share a Call-ID |
| RegisteredUas.KeysAreLiveCalls | sip/registered_uas.go:423-436 | with distinct live Call-IDs the map's keys are exactly the calls between registration and exit |
| RegisteredUas.LookupFindsIffRouted | sip/registered_uas.go:506-509 | a BYE's lookup finds a call if and only if the map leads from its Call-ID to that call |
| RegisteredUas.ByeServed | sip/registered_uas.go:503-513 | a BYE left to itself closes the stop channel of the call it finds, and one that finds none changes no call |
| RegisteredUas.ByeNeverMissed | sip/registered_uas.go:423-513 | once a BYE that arrived while a call's 200 OK was going out or later has been handled, the call's stop channel is closed in every interleaving, unless sending the 200 OK failed; all that is asked is that the map led to the call then and no other live call has had its Call-ID since |
| RegisteredUas.ByeNeverMissedIfDistinct | sip/registered_uas.go:423-513 | so in a run whose live calls never share a Call-ID no BYE is missed |
| RegisteredUas.ClashLosesBye | sip/registered_uas.go:423-436 | a reused Call-ID leaves an answered call without a map entry |
| RegisteredUas.AdvanceLowersRank | sip/registered_uas.go:355-500 | whatever the outcome, every step that takes a handler to another phase or ends its receiver lowers the steps it has left, and no other step raises them |
| RegisteredUas.AdvancesBounded | sip/registered_uas.go:355-500 | in any run a handler advances at most as often as it has steps left, and after that many it is gone |
| RegisteredUas.HandlerProgresses | sip/registered_uas.go:467-500 | a signalled handler, or any during shutdown, can always advance, whichever outcome its step has |
| RegisteredUas.HandlerLeaves | sip/registered_uas.go:355-500 | whatever outcomes are in store for its steps, such a handler is gone after at most as many as it has left |
| RegisteredUas.TimeLimitEnds | sip/registered_uas.go:471-476 | the time limit ends an answered call if and only if there is one |
| RegisteredUas.ShutdownEndsAll | sip/registered_uas.go:220-228 | from any reachable state, after a shutdown the handlers' own steps can end every call, with `active` back at zero and the map empty |
| CallHandle.StepKeepsInv | sip/handle.go:97-177 | every atomic step of callers, media tasks and finalizer keeps the account of winner, channels and WaitGroup |
| CallHandle.LifecycleChain | sip/handle.go:97-177 | BYE at most once, each channel closed at most once, and done closed implies an empty WaitGroup implies stop closed implies inactive |
| CallHandle.AllTasksStart | sip/dial.go:336-393 | the WaitGroup of a fresh call counts a receiver and every other goroutine asked for, all running |
| CallHandle.AllTasksEnd | sip/handle.go:128-177 | done is closed only once the receiver and all of them have ended |
| CallHandle.TasksStay | sip/dial.go:336-393 | in every reachable state the tasks are the receiver and the others asked for, in order |
| CallHandle.WinnerSendsBye | sip/handle.go:106-123 | the Hangup that won has sent exactly one BYE when it returns |
| CallHandle.EndsIffAllowed | core/rtp/receiver.go:30-35 | before the stop channel is closed only a sender can end |
| CallHandle.WaiterReturnsIffDone | sip/handle.go:74-84 | whoever asks for the result gets it at once if and only if done is closed |
| CallHandle.ReturnsAfterDone | sip/handle.go:75-124 | no Hangup, Result or WaitDone returns before the result is stored and done is closed |
| CallHandle.OnlyHangupEndsTheCall | sip/handle.go:54-84 | without a local Hangup the call stays active and nobody returns, remote BYEs notwithstanding |
| CallHandle.WorkFalls | sip/dial.go:336-396 | after a Hangup has won no step increases the work left, and every step of the teardown lowers it |
| CallHandle.TeardownProgresses | sip/handle.go:99-177 | until done is closed some step of the teardown can be taken |
| CallHandle.HelpfulStepsBounded | sip/handle.go:99-177 | whatever anyone does in between, a run contains at most as many steps of the teardown as there is work, and with that many done is closed |
| CallHandle.TeardownCompletes | sip/handle.go:99-177 | from any state with a winner at most as many actions as there is work, none a new Hangup, close done |
| CallHandle.EndsIffHangup | sip/handle.go:97-177 | a call can still end without another Hangup if and only if Hangup has been called |
| CallHandle.NoWorkIffDone | sip/handle.go:99-177 | no work is left if and only if done is closed, and then every waiting caller can return |
| Strings.AtoiItoa | sip/sdp.go:100 | every 64-bit number survives printing and parsing and no other number is accepted |
| Strings.AtoiPlusAndZeros | sip/sdp.go:100 | a plus sign and leading zeros change nothing |
| Strings.AtoiRejects | sip/sdp.go:100-101 | a text without digits, or with anything but digits after its first character, is no number |
| Strings.FieldsSpaceless | sip/sdp.go:92 | no field of a line is empty or holds white space |
| Strings.SplitAt | sip/sdp.go:80 | a text splits at the first separator |
| Strings.SpaceTable | sip/sdp.go:86 | white space is exactly that of Unicode |
| Strings.UpperTable | sip/sdp.go:114 | small ASCII letters become capital, everything else stays |
| Sdp.ParseSDP | sip/sdp.go:77-134 | the line loop computes the parse function: last usable c= and m= line, every usable rtpmap, then the defaults |
| Sdp.LineEndsDoNotMatter | sip/sdp.go:78-86 | replacing CRLF by LF first changes no result, for any body |
| Sdp.TextParses | sip/sdp.go:55-86 | printed lines without line feeds are parsed as they went in |
| Sdp.RoundTrip | sip/sdp.go:34-134 | for every white-space-free address (the empty one included), 64-bit port, payload type, direction and version the printed text parses back to the address, the port and exactly the advertised codec plus the defaults |
| Sdp.AdvertisedNames | sip/sdp.go:34-134 | the map the other side gets for each payload type, name by name |
| Sdp.RtpmapText | sip/sdp.go:35-58 | the rtpmap line of each known codec, Opus with 48000/2 |
| Sdp.PrintedLines | sip/sdp.go:60-73 | the printed text is nine lines in the prescribed order, with session version, address, port, packet time and direction in theirs |
| Sdp.RtpmapParses | sip/sdp.go:109-118 | a rtpmap line maps the low eight bits of its number to the upper-case name before the slash |
| Sdp.IndentDoesNotMatter | sip/sdp.go:86 | white space in front of a line makes no difference |
| Sdp.LastConnectionWins | sip/sdp.go:88-94 | of two connection lines the later one counts |
| Sdp.BadPortIgnored | sip/sdp.go:96-106 | a media line whose port is no number changes nothing |
| Sdp.OtherMediaIgnored | sip/sdp.go:88-97 | media other than audio and addresses other than IPv4 ones are passed over |
| Sdp.DefaultsFillGaps | sip/sdp.go:120-130 | the defaults never replace what a body maps itself, and add nothing but types 0 and 8 |
| Sdp.ParsedIsUsable | sip/sdp.go:77-134 | whatever the body, the address found holds no white space and types 0 and 8 are mapped |
| Sdp.AddressSurvivesIff | sip/sdp.go:34-134 | the address survives the round trip if and only if it holds no white space |
| Sdp.ReofferKeepsAddress | sip/sdp.go:34-134 | describing a parsed address and port anew and parsing that gives the same address and port, for any body |

## Left out

- Sockets, sipgo dialogs and transactions, TLS, k6 metrics, JS options, file readers and writers: plumbing; what they decide enters as parameters (`Input`, `ok`, arrival times).
- AES and HMAC-SHA1: arbitrary functions; nothing is claimed about secrecy, forgery or RFC 3711 peers. The session salt key is derived by the source but never used, so it is not derived here; a nil configuration is not modelled.
- EncryptPacket: requires at least 12 octets, because the source slices `enc[12:]` and panics below that.
- DecryptPacket: runs with refused packets are covered one call at a time, not as round trips, since a refused packet moves the index.
- RTP marshalling: the fixed 12-octet header; marshalling errors, which this header cannot cause, are not modelled.
- Payload buffers are immutable values, so sharing of read buffers between packets is not modelled.
- Push: not callable after the flush, because the source sets the map to nil and storing into it panics.
- SortByDistance: stands for `sort.Slice`; its comparison function and result are modelled, the sorting algorithm is not.
- JitterBuffer: always on a recorder; without one the source never ticks it.
- AudioRecorder.Write: the in-memory buffer only; the writer goroutine and its dropped frames are not modelled.
- Update: the receive error and byte counters kept outside `update` are not modelled.
- FanOut, RegisteredUas and CallHandle are step systems on values rather than classes: what is proved is about interleavings, and a method body would fix one.
- Reactor.Len, Snapshot, Digits, MOSGrade and other readers: one-line copies.
- StreamPlayer.Tick: closing of the stop channel and the socket's verdict are inputs of the tick.
- CalculateMOS and the jitter average: exact reals, no floating-point rounding.
- RegisteredUas: the outcomes of codec, SDP, socket and response calls are one arbitrary flag per phase; the contents of results are not modelled, only which call they belong to.
- CallHandle: hold, transfer and DTMF calls only read the flag; finalisation replaces the whole result, so nothing is claimed about a transfer result surviving it.
- Concurrent progress is stated as steps that can be taken and measures that fall; fairness of the Go scheduler is not modelled.
- ToUpper: ASCII letters only; texts are sequences of Unicode characters, invalid UTF-8 is not modelled.
- ParseSDPCrypto and its printer, RTCP reports, the CSV pool, health checks, payload looping, PCAP framing, Opus, G.711 and G.729: no further property of comparable depth, or foreign code.
