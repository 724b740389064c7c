# Infinitag radio and IR protocols: a Dafny model

This project models the protocol core of the Infinitag firmware and proves its properties
with Dafny 4.11. `dafny verify dfyconfig.toml` checks everything.

Code that changes objects in place is modelled twice: once as a class or an array method that
follows the source statement by statement (`IrIdNegotiator`, `IrReceiver`, `PushReceiver`,
`PushSender`, `EspNowRx`, `PeerCache`, `Ring`, the CRC loops, the packet writers), and once as functions on
values. Each method is proved equal to its function; runs, networks and channels are then
studied on the functions.

1. **IR id negotiation** (`IrIdStation`, `IrIdReaction`, `IrIdSync`, `IrIdDrain`,
   `IrIdStabilise`, `IrIdTimed`, `IrIdClaims`, `IrIdLiveness`, `IrIdArbitrary`, `IrIdTrace`,
   `IrIdClocks`, `IrIdSchedule`, `IrIdEvidence`, `IrIdReports`, `IrIdNegotiator`). Any number of
   stations with distinct MAC addresses, any boot order, reboots, a 32-bit clock that wraps.
   Three networks: synchronous and lossless (one station acts, then everything in flight is
   delivered in any order at that instant, any tick schedule); timed (every packet arrives, in any
   order, less than 150 ms after it was sent, and a probing station's due tick is less than 850 ms
   late); and arbitrary (packets are lost, delayed, duplicated and reordered without bound, never
   forged). The timed network also comes to rest: n stations left in peace end with min(n, 15) HELD.
   The networks read one clock; `IrIdClocks` shows that a clock per station, restarted at each boot,
   makes no difference to what a station does. Histories of a single station say when it acts, what it
   remembers, which id it chooses and when it reports a change.
2. **Firmware push** (`PushLayout`, `PushProtocol`, `PushSession`, `PushProgress`, `PushRounds`,
   `PushTimer`, `PushIntegrity`, `PushAnswers`, `PushOutcome`, `PushRetries`, `PushReceiver`,
   `PushSender`, `PushCodec`). A windowed transfer with selective repeat. A session
   is any interleaving of moves of the two sides over a channel on which everything ever sent may
   arrive at any later time, any number of times, or never; flash writes, file reads, `Update.begin`
   and `Update.end` may fail at any point. Each side is also studied alone among arbitrary peers: a
   receiver that is sent any announcement and any frame contents, a sender that hears any ack.
3. **IR telegram** (`IrTelegram`, `IrDecoder`, `IrReceiver`). The codec, its CRC-4, and the
   edge-fed decoder as an automaton over an unbounded stream of measured phases.
4. **Foundations** (`Words`, `Bytes`, `Masks`, `Crc`, `Polynomials`, `Crc16Polynomial`,
   `Crc32Polynomial`, `Packet`, `Ring`, `EspNowRx`, `PeerCache`). Wrapping ticks, bit masks, CRC-16 and
   CRC-32, tied to polynomial arithmetic modulo their generators, sealed packets, the ring buffers, the
   receive callback and the LRU peer cache.

The environment is a parameter: time is the argument `now`; the radio, the flash and the file are
an outbox, a byte sequence and a count of accesses that succeed. True times are unbounded numbers,
of which the code sees the low 32 bits.

Where code and documents differ, the model follows the code. PROTOCOL.md gives evidence a lifetime
of 8000 ms; on the wrapping clock it is 8000 ms modulo 2^32 (`IrIdTrace.EvidenceLifetime`). The
comment at src/IrTelegram.h:55 clamps damage to at least 1; values above 15 also lose their upper
bits (`IrTelegram.EncodeDecode`). src/EspNowService.h:53 calls the peer table an LRU cache; when all
its peers were last used within 2^32 ms it is one exactly if they were all last used in the same
turn of the 32-bit clock (`Peers.EvictsLeastRecent`), and beyond 2^32 ms not even the smallest stamp
tells (`Peers.BeyondOneTurn`). The sender's retry timer (src/EspNowPush.cpp:372) is not wrap-safe, as
the negotiation's timers are: it fires early exactly when it is set across the zero of the clock
(`PushTimer.NeverEarly`), and a sender waiting for the final answer then gives up at once
(`PushTimer.GivesUpAtOnce`).

## Model

| member | source | states |
|---|---|---|
| Words.ElapsedIsDistance | src/IrIdNegotiator.cpp:7-10 | the wrap-safe test sees the true distance modulo 2^32 and never fires early |
| Words.ReachedIsSign | src/IrIdNegotiator.cpp:31 | the deadline test is the sign of the wrapped difference as a signed 32-bit word |
| Words.ReachedIsNotEarly | src/IrIdNegotiator.cpp:31 | the signed deadline test never fires early for deadlines less than 2^31 ms ahead |
| Words.MemcmpIsNumericOrder | src/IrIdNegotiator.cpp:114-116 | the byte comparison that decides ties is the order of the MACs as 48-bit numbers |
| IrIdStation.ScanIsAPermutation | src/IrIdNegotiator.cpp:121-125 | the cyclic scan visits each id 1..15 exactly once, whatever the MAC |
| IrIdStation.PickCandidateRule | src/IrIdNegotiator.cpp:118-127 | 0 if and only if all fifteen ids are occupied, else the free preferred id, else the first free id in cyclic order |
| IrIdStation.StartProbeRestarts | src/IrIdNegotiator.cpp:129-142 | a new attempt is on a free id and is broadcast, or everything is booked and the station listens |
| IrIdReaction.ReactIsReaction | src/IrIdNegotiator.cpp:14-93 | what any event may do to any station: when ids are taken, kept, defended and yielded, and what is then on the air |
| IrIdReaction.FanoutMembers | src/IrIdNegotiator.cpp:144-153 | exactly the addressed stations get a copy of each packet sent |
| IrIdSync.MoveKeepsInv | src/IrIdNegotiator.cpp:28-93 | in the synchronous network every move keeps ids unique, beacons in flight true, and some packet pending between any holder and any prober of the same id |
| IrIdSync.HeldIdsAreDistinct | src/IrIdNegotiator.cpp:28-86 | in every synchronous run, at every state, two stations never hold the same id |
| IrIdSync.HeldIdIsKept | src/IrIdNegotiator.cpp:68-86 | in every synchronous run a held id is kept until the station reboots |
| IrIdDrain.DeliveryLowersMeasure | src/IrIdNegotiator.cpp:52-93 | each delivery lowers a lexicographic measure: free ids, pending probes, beacons weighted by MAC rank |
| IrIdDrain.EveryDrainEnds | src/IrIdNegotiator.cpp:52-86 | no cascade of messages goes on for ever, in any delivery order |
| IrIdStabilise.RoundSettles | src/IrIdNegotiator.cpp:68-86 | from any sound state with duplicates, one synchronous round adds no surplus holder of an id, keeps the smallest one, and leaves only it if the id was beaconed |
| IrIdStabilise.SurplusNeverGrows | src/IrIdNegotiator.cpp:68-86 | over any number of rounds the surplus of holders of an id never grows |
| IrIdStabilise.BeaconHeals | src/IrIdNegotiator.cpp:44-48 | as soon as any holder's periodic beacon is due, exactly the smallest-MAC holder remains |
| IrIdTimed.ReactSteps | src/IrIdNegotiator.cpp:14-163 | what any event does to evidence (probes, beacons and hit reports alike), listening and a running probe attempt |
| IrIdTimed.MoveKeepsInv | src/IrIdNegotiator.cpp:28-163 | in the timed network every move keeps ids unique, every attempt known to all stations, and every held id defended in time; only a reboot takes an id away |
| IrIdTimed.HeldIdsAreDistinct | src/IrIdNegotiator.cpp:28-86 | in every timed run, at every state, two stations never hold the same id |
| IrIdTimed.HeldIdIsKept | src/IrIdNegotiator.cpp:68-86 | in every timed run a held id is kept until the station reboots, stale beacons notwithstanding |
| IrIdClaims.EvidenceHasSource | src/IrIdNegotiator.cpp:101-112 | in every timed run, once no hits are reported, evidence goes back to a station that claimed the id less than 150 ms before it was noted |
| IrIdClaims.ClaimIsTaken | src/IrIdNegotiator.cpp:28-86 | once stations are left in peace, an id that some station probes is held within 3000 ms for it and each smaller rival, by the prober or by whoever beat it |
| IrIdClaims.HeldClaimEnds | src/IrIdNegotiator.cpp:34-86 | an attempt on a held id is over within 300 ms, and the station then knows of the claim and has chosen again |
| IrIdLiveness.ListeningEnds | src/IrIdNegotiator.cpp:30-32 | a listening station chooses at most a second after its deadline, clock wrap or not |
| IrIdLiveness.HeldIdsGrow | src/IrIdNegotiator.cpp:28-142 | while a station is without an id and an id is free, one more id comes to be held in every round of 35.5 s + 3 s per station |
| IrIdLiveness.NegotiationSettles | src/IrIdNegotiator.cpp:28-163 | in every timed run of under 2^31 ms, n stations left in peace (no boots, no hits, a listening station ticks every second) for a stated time end with exactly min(n, 15) HELD: all of up to fifteen, or all fifteen ids |
| IrIdArbitrary.EveryMove | src/IrIdNegotiator.cpp:14-93 | what one move of the arbitrary network may take from a station, and that every new beacon is sent by a holder |
| IrIdArbitrary.EveryStationIsSound | src/IrIdNegotiator.cpp:28-93 | in every arbitrary run: id in 1..15 exactly while HELD, candidate in 1..15 exactly while in PROBE, own id never occupied |
| IrIdArbitrary.HeldIsLostOnlyToSmallerHolder | src/IrIdNegotiator.cpp:68-86 | in every arbitrary run an id is lost only to a beacon for it from a strictly smaller MAC that held it before |
| IrIdArbitrary.SmallestAddressKeepsItsId | src/IrIdNegotiator.cpp:76-85 | in every arbitrary run the smallest MAC never loses a held id |
| IrIdTrace.HeldOnlyAfterThreeProbes | src/IrIdNegotiator.cpp:34-41 | before every entry to HELD: exactly three probes of the attempt, 150 ms apart, a last 150 ms wait, and no objection since the first, across clock wrap |
| IrIdTrace.SilentAfterBoot | src/IrIdNegotiator.cpp:14-31 | nothing is sent within 3000 ms of true time after boot |
| IrIdTrace.EvidenceLifetime | src/IrIdNegotiator.cpp:101-112 | evidence counts exactly while its age modulo 2^32 is below 8000 ms, and exactly when that differs from "younger than 8000 ms" |
| IrIdTrace.StaleEvidenceRevives | src/IrIdNegotiator.cpp:101-104 | evidence of age 2^32 ms is taken for fresh |
| IrIdSchedule.ListenTimer | src/IrIdNegotiator.cpp:30-32 | a tick of a listening station does nothing until 3000 ms after boot, or 30000 ms after it found all ids occupied; then it starts an attempt, or waits 30000 ms more with all ids occupied |
| IrIdSchedule.ProbeTimer | src/IrIdNegotiator.cpp:34-41 | a tick of a probing station does nothing for 150 ms after its last probe, then probes again, or after three probes takes the id and announces it twice |
| IrIdSchedule.BeaconTimer | src/IrIdNegotiator.cpp:43-48 | a tick of a HELD station beacons if and only if its last beacon, periodic or answering, is 2000 ms old |
| IrIdEvidence.HitIsEvidence | src/IrIdNegotiator.cpp:88-93 | a hit report makes every id but the station's own occupied at once, in every state, and stops an attempt on it |
| IrIdEvidence.HeardIdIsAvoided | src/IrIdNegotiator.cpp:52-112 | in every history no attempt on an id begins within 8000 ms after a probe, beacon or hit report named it, across clock wrap |
| IrIdEvidence.AttemptIsOnChosenId | src/IrIdNegotiator.cpp:14-127 | in every history each attempt is on the id the last boot preferred if that is free, else on the first free id after the address's own place in the cycle |
| IrIdEvidence.OthersOnly | src/IrIdNegotiator.cpp:52-90 | own packets, ids outside 1..15 and hits by the station's own id change nothing |
| IrIdEvidence.SpeaksWhenNamed | src/IrIdNegotiator.cpp:52-93 | between ticks a station sends only when the id it holds or probes is named by another station |
| IrIdReports.FlagIsExact | src/IrIdNegotiator.cpp:95-99 | over every sequence of events and queries the change flag is up if and only if the id changed since the last boot or report |
| IrIdClocks.ReactAlike | src/IrIdNegotiator.cpp:28-93 | shifting a station's clock and all its stamps by any constant changes neither its state nor its packets |
| IrIdClocks.BootAlike | src/IrIdNegotiator.cpp:14-26 | a boot forgets the old readings, whatever the two clocks show |
| IrIdClocks.OwnClockChangesNothing | src/IrIdNegotiator.cpp:7-50 | over every history, a station whose own clock restarts at each boot sends exactly what it would send by the common clock |
| IrIdNegotiator.Negotiator.Begin | src/IrIdNegotiator.cpp:14-26 | the boot of the object, in place |
| IrIdNegotiator.Negotiator.Tick | src/IrIdNegotiator.cpp:28-50 | the object does exactly the specified step and stays sound |
| IrIdNegotiator.Negotiator.OnProbe | src/IrIdNegotiator.cpp:52-66 | likewise for a probe |
| IrIdNegotiator.Negotiator.OnBeacon | src/IrIdNegotiator.cpp:68-86 | likewise for a beacon |
| IrIdNegotiator.Negotiator.OnHitReport | src/IrIdNegotiator.cpp:88-93 | likewise for a hit report |
| IrIdNegotiator.Negotiator.ConsumeIdChanged | src/IrIdNegotiator.cpp:95-99 | the change flag is reported once |
| IrIdNegotiator.Negotiator.IsOccupied | src/IrIdNegotiator.cpp:101-104 | reads the evidence table and leaves it alone |
| IrIdNegotiator.Negotiator.PickCandidate | src/IrIdNegotiator.cpp:118-127 | the scan loop finds the specified candidate |
| IrIdNegotiator.Negotiator.StartProbe | src/IrIdNegotiator.cpp:129-142 | next candidate, or back to listening |
| IrIdNegotiator.Negotiator.BecomeHeld | src/IrIdNegotiator.cpp:155-163 | takes the candidate, clears its evidence, announces twice |
| IrTelegram.ComputeCrc4 | src/IrTelegram.cpp:5-14 | the register loop computes the recursive CRC-4 |
| IrTelegram.EncodeDecode | src/IrTelegram.cpp:16-31 | every encoding is valid; the fields survive if and only if the id is at most 15 and the damage in 1..15; damage 0 reads as 1 |
| IrTelegram.FrameNibbles | src/IrTelegram.cpp:16-22 | the four nibbles of a telegram are 1, the id, the damage (at least 1) and the CRC of the three |
| IrTelegram.FlipSyndrome | src/IrTelegram.cpp:5-14 | a flipped bit i has the syndrome x^i modulo x^4+x+1 |
| IrTelegram.CrcMissesOnePair | src/IrTelegram.cpp:5-14 | the CRC catches every single error and every double error except bits 15 and 0 |
| IrTelegram.MisreadFrameIsInvalid | src/IrTelegram.cpp:24-31 | CRC and version together reject every one- and two-bit error |
| IrDecoder.DecoderIsGrammar | src/IrTelegram.cpp:46-101 | on every stream the decoder reports at a phase if and only if the last 35 phases are a telegram in tolerance with valid bits, and stores those bits |
| IrDecoder.TelegramIsRead | src/IrTelegram.cpp:55-101 | from any prior state, 35 phases in tolerance are reported at the stop mark if and only if their bits are valid, and never earlier |
| IrDecoder.JitterBoundIsTight | src/IrTelegram.h:44-49 | a common timing error is survived by all 35 phases if and only if it lies in -300..+299 us |
| IrDecoder.ToleranceIsExact | src/IrTelegram.h:44-49 | after any stream, 35 alternating phases are reported as a given valid frame if and only if each lies in its band: 1800..3200 us, 250..1000 us, 250..899 us for a 0, 900..1700 us for a 1 |
| IrDecoder.RoundTrip | src/IrTelegram.cpp:33-101 | from any prior state, every valid frame with independent errors of -300..+299 us per phase is reported bit for bit |
| IrDecoder.MisreadIsNeverReported | src/IrTelegram.cpp:71-82 | after any stream, a telegram with one or two misread bits is reported at none of its phases |
| IrDecoder.WaitingIsLastReport | src/IrTelegram.cpp:71-108 | over every sequence of phases and takes a frame waits if and only if one was reported and not taken since, and it is the last one reported |
| IrReceiver.Decoder.Feed | src/IrTelegram.cpp:55-101 | the decoder object does exactly the automaton's step |
| IrReceiver.Decoder.Take | src/IrTelegram.cpp:103-108 | hands a reported frame out once |
| IrReceiver.Timings | src/IrTelegram.cpp:33-44 | fills the 35 nominal durations, 2400 us, 600 us and for each bit 600 us and 600 or 1200 us, or leaves a short buffer alone |
| Crc.ComputeCrc16 | src/InfinitagNow.cpp:5-14 | the nested loops compute the recursive CRC-16 |
| Polynomials.KernelIsMultiples | src/InfinitagNow.cpp:5-14 | a linear shift register maps exactly the multiples of its generator to zero |
| Crc16Polynomial.Crc16Kernel | src/InfinitagNow.cpp:5-14 | from zero the CRC-16 is zero if and only if the data is a multiple of x^16+x^12+x^5+1 |
| Crc16Polynomial.InitialValueInverts | src/InfinitagNow.cpp:6 | the initial value 0xFFFF only inverts the first two bytes |
| Crc16Polynomial.Crc16IsRemainder | src/InfinitagNow.cpp:5-14 | a value is the CRC-16 of the data if and only if data and value, first two bytes inverted, are a multiple of the generator |
| Crc16Polynomial.CheckValue | src/InfinitagNow.cpp:5-14 | the CRC-16 of "123456789" is 0x29B1 |
| Crc.BurstChangesCrc16 | src/InfinitagNow.cpp:5-14 | any change within two adjacent bytes changes the CRC-16, at every length and position |
| Crc.ComputeCrc32 | src/InfinitagNow.cpp:96-105 | the loop computes the recursive CRC-32 |
| Crc32Polynomial.Crc32Kernel | src/InfinitagNow.cpp:96-105 | from zero, without the final inversion, the CRC-32 is zero if and only if the data is a multiple of the IEEE 802.3 generator |
| Crc32Polynomial.Crc32IsRemainder | src/InfinitagNow.cpp:96-105 | a value is the CRC-32 of the data if and only if data and complemented value, first four bytes inverted, are a multiple of the generator |
| Crc32Polynomial.CheckValue | src/InfinitagNow.cpp:96-105 | the CRC-32 of "123456789" is 0xCBF43926 |
| Crc.BurstChangesCrc32 | src/InfinitagNow.cpp:96-105 | any change within four adjacent bytes changes the CRC-32, at every length and position |
| Crc.Crc32Composes | src/InfinitagNow.cpp:96-105 | crc32(crc32(c,a),b) = crc32(c,a+b) |
| Packet.Seal | src/InfinitagNow.cpp:23-25 | a sealed packet validates if and only if its version is 3 or its type is a rescue type; bytes 0..33 stay; the CRC lies in bytes 34 and 35, low byte first |
| Packet.BurstIsRejected | src/InfinitagNow.cpp:32-38 | a valid packet changed only within two adjacent bytes of 0..33 never validates |
| Packet.ForeignVersion | src/InfinitagNow.cpp:27-38 | with a foreign version exactly the four rescue messages pass |
| Bytes.U32RoundTrip | src/EspNowPush.cpp:13-22 | a 32-bit word survives the four little-endian bytes |
| Bytes.LittleEndian | src/EspNowPush.cpp:13-22 | the lowest byte of a 32-bit word comes first |
| Masks.LowMaskBits | src/EspNowPush.cpp:277 | the mask of r frames has exactly the bits below r |
| Masks.SetBitBits | src/EspNowPush.cpp:222 | setting a bit adds that frame and no other |
| Masks.CoversLowMask | src/EspNowPush.cpp:224 | the mask test says "every frame of the window is here" |
| Masks.MissingBits | src/EspNowPush.cpp:127-128 | the acknowledged bitmap names exactly the wanted frames not yet received |
| PushLayout.WindowCountExact | src/EspNowPush.cpp:256-258 | for every 32-bit size the 16-bit window count is exact if and only if the size is at most 253,751,520; one byte more makes it 0 |
| PushLayout.LayoutExact | src/EspNowPush.cpp:299-304 | for every 32-bit size and every frame no offset or length wraps and the frame has 1..242 bytes; up to 65,535 windows the frame lies in one of the counted windows |
| PushLayout.CountsExact | src/EspNowPush.cpp:105-106 | frame and window counts cover the image exactly |
| PushLayout.WindowMaskCoversItsFrames | src/EspNowPush.cpp:273-278 | the window mask names exactly the frames that exist, the same on both sides |
| PushLayout.FrameLengthsSum | src/EspNowPush.cpp:165-178 | the frame lengths sum to the image size |
| PushLayout.RawFrameParses | src/EspNowPush.cpp:305-311 | the receiver parses the index and bytes the sender framed; the magic bytes and the little-endian index lie where the source puts them |
| PushProtocol.HandleFrameShaped | src/EspNowPush.cpp:202-227 | handling any frame keeps the buffers' shape and the queue |
| PushSession.StartKeeps | src/EspNowPush.cpp:242-271 | a started push has true counters and sends only true frames of window 0 |
| PushSession.BeginKeeps | src/EspNowPush.cpp:85-119 | BEGIN, first or repeated, keeps the receiver's invariant |
| PushSession.EndKeeps | src/EspNowPush.cpp:121-149 | END re-acks an unfinished window, and otherwise the size and CRC are right |
| PushSession.EnqueueKeeps | src/EspNowPush.cpp:36-53 | queueing a frame keeps the invariant, also one that passed the tests before the state changed |
| PushSession.HandleKeeps | src/EspNowPush.cpp:202-227 | handling a frame keeps flash a prefix of the image, its CRC right and every marked slot right |
| PushSession.FinishKeeps | src/EspNowPush.cpp:160-184 | flashing a window appends exactly its image bytes, or fails |
| PushSession.AckKeeps | src/EspNowPush.cpp:323-368 | an ack moves the sender only past a wholly flashed window, and to DONE only on a final ack |
| PushSession.LoopKeeps | src/EspNowPush.cpp:370-390 | the retry timer sends only true frames of the current window |
| PushSession.MoveKeepsInv | src/EspNowPush.cpp:36-390 | every move of either side over the lossy channel keeps the session invariant |
| PushSession.WindowsInStep | src/EspNowPush.cpp:346-357 | in every run: sender window <= receiver window <= sender window + 1, and the acknowledged byte count is exact |
| PushSession.FlashIsAPrefix | src/EspNowPush.cpp:152-228 | in every run, while receiving: flash = image[..bytesDone], bytesDone = min(window*3872, size), running CRC = crc32(0, flash), every marked slot holds its frame |
| PushSession.CompleteAckMeansFlashed | src/EspNowPush.cpp:179-181 | in every run, also after a failure, an ack without missing frames exists only for a window that is wholly flashed |
| PushSession.DoneMeansFlashedAndBooted | src/EspNowPush.cpp:332-337 | in every run DONE at the sender means flash = image and boot slot switched; the slot is never switched otherwise |
| PushSession.NeverACrcFailure | src/EspNowPush.cpp:131-138 | an honest session never fails its size or CRC check |
| PushProgress.DrainNew | src/EspNowPush.cpp:186-228 | with every frame of the window in a slot or queued, in any order, the drain flashes and acknowledges it |
| PushProgress.DrainOld | src/EspNowPush.cpp:205-213 | frames of a window already flashed change nothing and get it re-acknowledged, throttled |
| PushProgress.SendsBurst | src/EspNowPush.cpp:293-314 | with a readable image exactly the frames the mask asks for go out, in order |
| PushProgress.AsksForTheRest | src/EspNowPush.cpp:230-235 | when a window is stuck half-received, the periodic ack names exactly the frames not in their slots |
| PushProgress.RepairAdvances | src/EspNowPush.cpp:364-367 | selective repeat: the sender answers that bitmap with exactly those frames, and with them the window is flashed and the sender moves on |
| PushProgress.RoundAdvances | src/EspNowPush.cpp:370-390 | one loss-free retry round moves the sender on by exactly one window, whether the receiver lacks frames, has flashed the window or missed the BEGIN |
| PushProgress.EndRoundFinishes | src/EspNowPush.cpp:121-149 | in the END phase one loss-free round brings both sides to DONE with flash = image |
| PushProgress.PushCompletes | src/EspNowPush.cpp:346-390 | from any synchronised state, as many loss-free rounds as windows are left and one more complete the push |
| PushRounds.RoundIsRun | src/EspNowPush.cpp:186-390 | a loss-free round is made of ordinary enabled moves of the session |
| PushRounds.RunAdvances | src/EspNowPush.cpp:199-390 | every reachable running session with an empty queue, also one whose BEGIN was lost, can go on to the next window, or to DONE |
| PushRounds.RunCompletes | src/EspNowPush.cpp:186-390 | every reachable live session can be brought to DONE on both sides with flash = image, by loss-free rounds, whatever was lost before |
| PushTimer.NeverEarly | src/EspNowPush.cpp:370-390 | the retry timer never fires before its time if and only if the clock does not pass zero before the deadline |
| PushTimer.GivesUpAtOnce | src/EspNowPush.cpp:370-390 | less than 2 s before the zero of the clock, with the END out and its timer due, nine passes of the loop in one millisecond use up all retries |
| PushIntegrity.EndDecides | src/EspNowPush.cpp:121-149 | with all windows flashed, END boots the image if and only if size and checksum are the announced ones and the update library agrees; otherwise the transfer fails with the matching code, sent twice |
| PushIntegrity.EarlyEnd | src/EspNowPush.cpp:121-130 | an early END is answered with the missing frames; outside a transfer it is ignored |
| PushIntegrity.BeginDecides | src/EspNowPush.cpp:85-117 | a BEGIN outside a transfer starts an empty one, or, if empty or refused by the update library, fails with FINAL_FLASH sent twice |
| PushIntegrity.BootedMeansChecked | src/EspNowPush.cpp:85-228 | among arbitrary peers, in every run: the boot slot is switched only when the flash has the size and the CRC-32 of the accepted BEGIN |
| PushAnswers.FinishDecides | src/EspNowPush.cpp:160-184 | a complete window is acknowledged twice and left behind, or a failing write ends the transfer, said twice |
| PushAnswers.PeriodicAck | src/EspNowPush.cpp:230-235 | among arbitrary peers: the periodic ack goes out if and only if frames are in hand, the last ack is more than 250 ms old and the last thing heard more than 150 ms; it names the missing frames |
| PushAnswers.OldFrameAnswer | src/EspNowPush.cpp:205-213 | among arbitrary peers: a frame of an earlier window gets that window acknowledged if and only if the last ack is more than 100 ms old |
| PushAnswers.RawIsTaken | src/EspNowPush.cpp:36-53 | a raw frame is taken up only during a transfer, with 8 to 250 bytes that start with the magic ones |
| PushAnswers.QueueHolds | src/EspNowPush.cpp:44-52 | twenty-three frames can wait, the next is dropped |
| PushOutcome.FinalAckEnds | src/EspNowPush.cpp:332-345 | a final ack, error or busy reply ends the push with its status and detail, and nothing is sent |
| PushOutcome.FinalAckIsTheLast | src/EspNowPush.cpp:323-390 | with any acks at all: after the first final ack the sender's state never changes and nothing more is sent |
| PushOutcome.FinalAckSilencesSession | src/EspNowPush.cpp:323-390 | in every session, after a final ack is delivered no packet of the sender joins the air |
| PushRetries.GivesUpOnTime | src/EspNowPush.cpp:370-390 | unanswered, the sender gives up at the 21st expiry of its timer, in the END phase at the 9th, and not earlier |
| PushRetries.LoopPasses | src/EspNowPush.cpp:370-390 | what one expiry does: one retry more, 500 or 2000 ms more, END or the window, led by BEGIN until an ack has come |
| PushRetries.StartBegins | src/EspNowPush.cpp:242-271 | a started push begins from nothing, whatever the object did before: BEGIN, then window 0, half a second for the answer |
| PushRetries.AckIsEncouraging | src/EspNowPush.cpp:329-330 | any ack at all resets the retries and stops the BEGINs |
| PushRetries.WholeAck | src/EspNowPush.cpp:346-363 | the ack of a whole window sends the next one, or END with two seconds for the answer |
| PushRetries.ReadFailureEnds | src/EspNowPush.cpp:305-314 | a frame that cannot be read ends the push as a flash failure |
| PushReceiver.Device.OnRaw | src/EspNowPush.cpp:36-53 | the object queues or drops the frame as specified, and ignores foreign addresses |
| PushReceiver.Device.OnBegin | src/EspNowPush.cpp:85-119 | a BEGIN from another box during a transfer gets the busy reply and changes nothing else; any other is handled as specified |
| PushReceiver.Device.OnEnd | src/EspNowPush.cpp:121-149 | the object handles END as specified, and ignores foreign addresses |
| PushReceiver.Device.Fail | src/EspNowPush.cpp:69-80 | a failure keeps the library's error, aborts the update, is reported twice with that error and ends the transfer |
| PushReceiver.Device.WriteWindow | src/EspNowPush.cpp:165-178 | the write loop appends the slots' bytes and stops at the first failing write |
| PushReceiver.Device.FinishWindow | src/EspNowPush.cpp:160-184 | flash, double ack, next window |
| PushReceiver.Device.Store | src/EspNowPush.cpp:218-222 | copying into the flat window buffer changes one slot and one bit |
| PushReceiver.Device.Handle | src/EspNowPush.cpp:202-227 | one frame from the queue, all branches |
| PushReceiver.Device.Loop | src/EspNowPush.cpp:186-236 | drain loop and periodic ack |
| PushSender.Device.Start | src/EspNowPush.cpp:242-271 | refuses an empty image and changes nothing; else, at every size, announces it to the given device and sends window 0 |
| PushSender.Device.FillFrame | src/EspNowPush.cpp:294-311 | header, index and image bytes in the frame buffer |
| PushSender.Device.SendWindow | src/EspNowPush.cpp:293-314 | sends exactly the masked frames that exist, in order, until a read fails |
| PushSender.Device.OnAck | src/EspNowPush.cpp:323-368 | the object handles an ack of its device as specified, relayed error included, and ignores foreign addresses |
| PushSender.Device.Loop | src/EspNowPush.cpp:370-390 | the retry timer, all branches |
| PushCodec.EncodePushBegin | src/InfinitagNow.cpp:119-136 | the payload decodes to the same BEGIN and is zero elsewhere but for the frame and window sizes 242 and 16; header and CRC bytes stay |
| PushCodec.EncodePushAck | src/InfinitagNow.cpp:138-151 | the payload decodes to the same ack and is zero elsewhere; header and CRC bytes stay |
| PushCodec.BeginLayout | src/InfinitagNow.cpp:130-136 | size in bytes 0..3 and checksum in 4..7, low byte first, then the version |
| PushCodec.AckLayout | src/InfinitagNow.cpp:146-151 | window in bytes 0..1, bitmap in 2..5, low byte first, status in 6, detail in 7 |
| PushCodec.AckPacket | src/EspNowPush.cpp:55-67 | an ack built and sealed validates and decodes to what was meant |
| PushCodec.BeginPacket | src/EspNowPush.cpp:280-291 | likewise for BEGIN |
| PushCodec.RawFrameIsNoPacket | src/EspNowService.cpp:46-50 | no raw frame, of any length and content, validates as a packet, so all of them reach the raw handler |
| Queues.FifoAlways | src/EspNowService.cpp:52-73 | in every interleaving of whole operations: taken ++ queued = accepted, at most N-1 queued |
| Queues.LossOnlyWhenFull | src/EspNowService.cpp:52-60 | packets are lost if and only if some put finds N-1 queued |
| Ring.RingBuffer.Push | src/EspNowPush.cpp:44-52 | circular array with head and tail: appends, or drops when full |
| Ring.RingBuffer.Pop | src/EspNowService.cpp:63-73 | takes the oldest element, if any |
| EspNowRx.Service.OnRecv | src/EspNowService.cpp:42-61 | a frame goes to the ring if and only if it validates, else to the raw handler; a full ring drops it |
| EspNowRx.Service.Receive | src/EspNowService.cpp:63-73 | hands out the oldest packet, always a validated one |
| Peers.EnsurePeerMirrors | src/EspNowService.cpp:75-105 | every call keeps used slots = radio peers without broadcast, once each; true means registered; exactly a new peer in a full cache of eighteen costs the oldest its place, even if the radio then refuses the new one |
| Peers.RunMirrors | src/EspNowService.cpp:75-105 | after every sequence of calls the cache mirrors the radio, and each stamp is the low 32 bits of the latest call |
| Peers.RadioIsSmall | src/EspNowService.h:53-60 | at most eighteen peers and broadcast, nineteen in all, are registered, and broadcast always is |
| Peers.EvictsLeastRecent | src/EspNowService.cpp:87-93 | when all cached peers were last used within 2^32 ms, a full cache evicts a least recently used peer if and only if all of them were last used in the same turn of the 32-bit clock |
| Peers.EvictsLeastRecentBeforeWrap | src/EspNowService.cpp:87-93 | before the clock wraps eviction is least-recently-used |
| Peers.BeyondOneTurn | src/EspNowService.cpp:87-93 | without the 2^32 ms bound the condition is not enough: a concrete run where no stamp is below the least recent peer's evicts another one |
| Peers.WrapEvictsNewest | src/EspNowService.cpp:87-93 | a concrete run across the wrap evicts the newest peer |
| PeerCache.Service.EnsurePeer | src/EspNowService.cpp:75-105 | the object's table and the radio change as specified |
| PeerCache.Service.Touch | src/EspNowService.cpp:77-78 | the stamp loop |
| PeerCache.Service.FindRoom | src/EspNowService.cpp:82-93 | the search loops for a free slot and for the oldest peer |

## Left out

- PushProtocol.HandleFrameShaped: does not cover frames with an index at or above the frame count; no sender of this code makes them.
- PushReceiver.Device.Handle: likewise does not cover frames with an index at or above the frame count.
- PushIntegrity.BootedMeansChecked: takes frames of any content, but none with an index at or above the frame count, and one transfer from power-up on.
- PushAnswers.PeriodicAck: likewise, and so PushAnswers.OldFrameAnswer.
- PushProgress.PushCompletes: says nothing about how long losses go on; with losses only safety is claimed, since a sender gives up after its retries.
- Session theorems above 253,751,520 bytes: they cover every size up to 65,535 windows; `PushLayout.WindowCountExact` shows that beyond it the window count is wrong.
- Session theorems with several senders: the session has one sender; that the objects ignore foreign addresses is in the contracts of `PushReceiver.Device` and `PushSender.Device`.
- Other frames and control packets that no sender of this code makes (a payload above 242 bytes, acks that were never sent).
- A new BEGIN after DONE or FAILED: the caller reboots there, so a session ends.
- The update library's error text, and the version numbers in BEGIN outside the codec.
- The clock is read once per handler; the source reads `millis()` more than once in the drain loop, so two reads may differ by a few milliseconds there.
- Flash, file and radio internals, delays between packets, and log output.
- Null data pointers in `validate`.
- The id negotiation under losses: uniqueness and liveness are claimed for the synchronous and the timed network; under arbitrary losses only the properties of `IrIdArbitrary` hold.
- IrIdLiveness.NegotiationSettles: does not allow hit reports while the stations settle, because a report that names a free id books it.
- The station, target, hit report and discover payload codecs, the sound catalogue and the firmware marker: field copies and tables.
- The web update service, the web server and the captive portal.
