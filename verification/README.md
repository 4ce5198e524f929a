# Verified model of the Kalay reliable tunnel

A Dafny model of the transport that carries a tunnel to the device: the go-back-N sender, the
reassembling receiver, the pump that drives both, the codecs underneath, shutdown, and the
parallel ranged download that runs on top. Verify it with `dafny verify dfyconfig.toml`.

## How it is organised

| module | what it covers |
|---|---|
| `Bytes`, `Bits` | byte strings, little- and big-endian fields, single bits |
| `Framing` | the laws of stream parsers, proved once for every scanner: prefixes, resuming, round trips, incremental = one-shot |
| `Rdt`, `Dtls`, `PTun` | RDT frames, DTLS records and AEAD nonces, P2PTunnel messages with resync, chunk framing and de-framing |
| `RecordLayer` | sealing under consecutive record numbers, and reading a datagram back |
| `PermTables`, `Transcode`, `Control` | the keyless packet obfuscation |
| `Rtt`, `GoBackN`, `GoBackNRuns` | the RTT estimator, the sender's operations, and what holds over whole runs of them |
| `GoBackNEvents` | the sender told by its events alone: exactly when it retransmits, times out, samples, cuts its window and gives up |
| `Reassembler`, `Inbound` | reassembly, and the receiving half of pump |
| `Outbound` | the sending half of pump |
| `TwoParty` | sender and receiver over a network that loses, duplicates and reorders |
| `EndToEnd` | writes and control messages from the queue to the peer's demultiplexer, across all of the above |
| `SealedNetwork` | the same network in sealed datagrams |
| `Wakeup` | blocking readers, `fail`, `Close` and the pump's exit, interleaved |
| `RangedFetch` | interleaved download workers and the commit test |

State that the source updates in place is a class (`GoBackN.Tunnel`, `Reassembler.Reassembler`,
`Inbound.Pump`, `Outbound.Pump`, `PTun.Demux`, `RecordLayer.Sender`). Each of its methods is proved to
do what a function on values says, and the laws are proved about those functions. Where a law could be kept by a
wrong operation, it is stated a second time in terms that do not mention the operation: counters and timers by the
events that arrived, fields of a message by their bytes, masks and permutations by single bits, parsers by what they
do with each kind of front. Runs are sequences
of states in which each is one enabled step after the one before. The clock is a parameter of each
call, the AEAD is a pair of functions of which one inverts the other, and the device's end of the
transport, which the repository does not contain, is the repository's own receiving half.

Times are integer nanoseconds divided as Go divides (toward zero), `cwnd` is a real, and an empty
payload is what Go stores for it: nil, absent to `Add` and `Missing`, present to `Take`.

## What the model shows about the code

- Delivery is exactly what was sent, in order and once each, from the first frame the receiver consumed
  (`TwoParty.TwoPartySafety`). The receiver starts at the lowest number of its first batch. If that batch
  lacks the sender's first frame, the frame is acknowledged but never delivered: `TwoParty.LostHead` is
  such a run, `TwoParty.AckedDeliveredIff` and `TwoParty.StartsAtFirstIff` say exactly when it happens.
- `writeChan` does not split writes over 0x2000 bytes, and an empty write is not recognised either.
  `Outbound.MisreadWrite` is a run for every such write and every frame size; the peer reads back exactly
  what was written if and only if there is none (`Outbound.PeerReadsWritesIff`). The theorem also names channel 0,
  which bounds it but is no failure of the code: the control channel is 1 and `OpenChannel` starts at 2
  (kalay/tunnelconn.go:268 and 633-640).
- Pump may send a control message in the middle of a chunk, header included. Everything is then still read as it
  was meant if and only if the bytes of the control message commute with the rest of the chunk that they
  overtake, which pump could tell before the send and which is always so between two messages
  (`PTun.ControlReadIff` for a stream, `EndToEnd.ControlSpoilsIff` for runs; for several such sends
  `EndToEnd.AllReadIff` is the exact statement). `EndToEnd.ControlInsideChunk` is a
  run for every frame size that cuts a chunk and every control message that does not commute with its rest.
- A new send does not reset `lastProg`. After 30 idle seconds the first tick gives up on a frame
  just sent, unless an ACK for it arrives in the read between the send and the tick
  (`GoBackNRuns.IdleStreamGivesUpAtOnce`). `GoBackNRuns.GiveUpBlamesOldestIff` says before the send whether that can
  happen: exactly when the window is empty and the last progress is in the past.
- `Gapless` never looks at the payload of the base frame and is false before the first frame, so it agrees with
  an empty `Missing` exactly under the condition of `Reassembler.GaplessMatchesMissingIff`;
  `Reassembler.GaplessWithHole` is an input on which both a complete stream and a missing frame are reported.
- Nonces repeat from the 2^48th epoch-1 record on, where the number reaches the epoch bits
  (`RecordLayer.NoncesDistinctIff`). Below that they are all distinct, Finished included.
- Comments in `kalay/gobackn.go` speak of retransmitting the window (lines 13-14, 101 and 162). The code
  retransmits the oldest frame only, and the model follows the code.

## Model

| member | source | states |
|---|---|---|
| `EndToEnd.WritesAreRead` | kalay/tunnelconn.go:442-537 | in every run over the lossy network whose receiver started at the first frame, with deliverable writes and with control messages sent at any moment at which they overtake nothing or bytes they commute with: the messages routed at the peer are a prefix of those sent, and the data chunks among them are a prefix of the accepted writes in order |
| `EndToEnd.AllReadIff` | kalay/tunnelconn.go:442-537 | once nothing is pending or unacknowledged, in every run: the peer has routed all messages as they were meant if and only if it started at the first frame and the bytes sent are the encoding of those messages |
| `EndToEnd.SpelledIff` | kalay/tunnelconn.go:453-485 | a step leaves the bytes sent and pending the encoding of the messages if and only if it is no control send or one whose bytes commute with the rest of the message they overtake |
| `EndToEnd.ControlSpoilsIff` | kalay/tunnelconn.go:453-465 | of a control send anywhere in a run, the last one and the first that may be harmful: after draining, all messages are read as they were meant if and only if its bytes commute with those they overtake |
| `EndToEnd.HarmlessAtBoundary` | kalay/tunnelconn.go:453-465 | a control message sent between two messages overtakes nothing and is harmless |
| `EndToEnd.CutExists` | kalay/tunnelconn.go:453-465 | at every moment the bytes sent end in or at the end of some message, so a control message always has its place |
| `EndToEnd.ControlInsideChunk` | kalay/tunnelconn.go:453-465 | for every frame size that cuts the chunk of a deliverable write and every known control message that does not commute with the rest of it: a run that sends it there, drains, and is not read as that write and that message |
| `EndToEnd.CanDrain` | kalay/tunnelconn.go:433-530 | from every state the invariant allows, framing, deliveries and ACKs lead to one with nothing pending and nothing unacknowledged |
| `EndToEnd.EveryWriteIsRead` | kalay/tunnelconn.go:433-537 | over as many fair rounds as twice the pending bytes plus the unacknowledged frames, with nothing new accepted, everything is framed and acknowledged; and with deliverable writes, harmless control sends and a start at the first frame, the data chunks read are exactly the accepted writes |
| `EndToEnd.RoundLowers` | kalay/tunnelconn.go:483-530 | every fair round strictly lowers that measure until it is zero |
| `EndToEnd.StepInv` | kalay/tunnelconn.go:442-530 | accepting, framing, control sends at any moment, deliveries, ACKs, ticks and re-ACKs each keep both halves consistent: one sender, no empty frame, as many bytes sent and pending as the messages take, whose data chunks are the accepted writes |
| `EndToEnd.RunInv` | kalay/tunnelconn.go:442-530 | that invariant holds after every step of every run |
| `TwoParty.TwoPartySafety` | kalay/tunnelconn.go:502-530 | in every run: sendBase <= pumpNext <= txSeq, every frame in [pumpNext, txSeq) is still in flight, and the bytes delivered are exactly the payloads sent under the consumed numbers |
| `TwoParty.StepInv` | kalay/gobackn.go:92-126 | sending, delivering any batch of transmitted frames, any sent ACK, ticks and re-ACKs keep the two-party invariant, and neither the base nor pumpNext ever goes back |
| `TwoParty.RunInv` | kalay/gobackn.go:92-179 | the two-party invariant holds in every reachable state |
| `TwoParty.DeliveredPrefix` | kalay/tunnelconn.go:516-530 | if the first number consumed is the sender's first, what was delivered is a prefix of what was sent |
| `TwoParty.MessagesArriveInOrder` | kalay/tunnelconn.go:523-537 | frames cut anywhere from a stream of well-formed messages, data and control: the messages routed are a prefix of them, all of them when all was framed and consumed |
| `TwoParty.WritesArriveInOrder` | kalay/tunnelconn.go:523-537 | the same for frames cut from a stream of deliverable writes |
| `TwoParty.MessagesReadIff` | kalay/tunnelconn.go:511-537 | once everything sent was consumed, well-formed messages at least as long as what was sent are read exactly if what was sent from the starting frame on is their encoding |
| `TwoParty.StartsAtFirstIff` | kalay/tunnelconn.go:511-515 | the stream starts at the sender's first frame if and only if the first batch contains it |
| `TwoParty.AckedDeliveredIff` | kalay/tunnelconn.go:511-530 | every acknowledged frame was delivered if and only if the stream started at the first one |
| `TwoParty.LostHead` | kalay/tunnelconn.go:511-530 | a run in which the lost first frame is acknowledged, freed by the sender and never delivered |
| `TwoParty.OldestIsConsumed` | kalay/tunnelconn.go:518-525 | a batch with the oldest unacknowledged frame in it takes the receiver past that frame, had it been received before or not |
| `TwoParty.RoundAdvances` | kalay/gobackn.go:102-126 | from any reachable state, one delivery of the oldest frame, one periodic ACK and its arrival strictly advance the base, whether the frame or only its ACK was lost |
| `TwoParty.FairRoundAdvances` | kalay/tunnelconn.go:433-441 | the same with any other events interleaved: a redelivery of the oldest frame, a later re-ACK and its later arrival |
| `TwoParty.RoundsAdvance` | kalay/gobackn.go:102-126 | n fair rounds advance the base by n, or to txSeq |
| `TwoParty.FairRoundsDrain` | kalay/gobackn.go:102-126 | txSeq - sendBase fair rounds without a new send acknowledge, consume and deliver everything |
| `TwoParty.RunForward` | kalay/tunnelconn.go:516-525 | over any stretch of a run neither sendBase nor pumpNext decreases |
| `TwoParty.InflightIsSent` | kalay/gobackn.go:153-160 | the oldest frame in flight is the one sent under its number, and a copy of it was transmitted |
| `TwoParty.StallRecovers` | kalay/tunnelconn.go:541-551 | from every reachable state in which frames past a missing one have arrived, two stall steps and the arrival of the four ACKs they send make the sender put exactly the missing frame on the wire, with no timeout |
| `GoBackN.SendInv` | kalay/gobackn.go:92-98 | a send keeps: in-flight keys are exactly [sendBase, txSeq); every transmission of a number carries the same frame; unmarked frames were transmitted once; rto in its clamp, cwnd >= 4 |
| `GoBackN.AckInv` | kalay/gobackn.go:102-126 | any ACK, old, new, duplicate or beyond txSeq, keeps that invariant |
| `GoBackN.ResendInv` | kalay/gobackn.go:153-160 | retransmitting the oldest frame keeps it |
| `GoBackN.TickInv` | kalay/gobackn.go:164-179 | a tick keeps it |
| `GoBackN.SampledOnce` | kalay/gobackn.go:104-106 | an RTT sample is only taken from a frame transmitted exactly once (section 3 of RFC 6298) |
| `GoBackN.TickTransmits` | kalay/gobackn.go:164-174 | a tick moves neither end of the window and puts at most the stored oldest frame on the wire |
| `GoBackN.AckTransmits` | kalay/gobackn.go:102-126 | an ACK moves the base to ack+1 exactly when that lies in (sendBase, txSeq], and retransmits at most the oldest frame |
| `GoBackN.Tunnel.constructor` | kalay/gobackn.go:55-62 | the initial sender state, which satisfies the invariant |
| `GoBackN.Tunnel.WindowFrames` | kalay/gobackn.go:66-75 | the live window in frames is within its bounds |
| `GoBackN.CwndFrames` | kalay/gobackn.go:66-75 | the send window never exceeds sendWindow, and is at least 4 unless sendWindow is smaller |
| `GoBackN.WindowInFrames` | kalay/gobackn.go:66-75 | inside its bounds the window is the whole frames of cwnd, at and beyond them the bound |
| `GoBackN.WindowMonotone` | kalay/gobackn.go:66-75 | a larger cwnd is never a smaller window |
| `GoBackN.Tunnel.CwndCutHalf` | kalay/gobackn.go:80-89 | never cut or last cut at least rto ago: cwnd is halved, not below 4, and the time kept; otherwise nothing changes |
| `GoBackN.Tunnel.SendReliable` | kalay/gobackn.go:92-98 | transmits, stores and numbers one frame; the invariant is kept |
| `GoBackN.Tunnel.SampleRTT` | kalay/gobackn.go:130-147 | the in-place estimator computes the Jacobson/Karels update under truncating division |
| `GoBackN.Tunnel.ResendOldest` | kalay/gobackn.go:153-160 | retransmits and marks the oldest frame, restarts the timer, cuts the window |
| `GoBackN.Tunnel.AckOutbound` | kalay/gobackn.go:102-126 | the branches of the ACK handler and the invariant kept: an ACK ahead moves the base, the third repetition of the ACK before it retransmits the oldest frame and nothing else does, and every ACK is remembered |
| `GoBackN.Tunnel.AdvanceBase` | kalay/gobackn.go:103-115 | the progress branch: sample, free, advance, grow |
| `GoBackN.Tunnel.SampleAcked` | kalay/gobackn.go:104-106 | the acknowledged frame is sampled unless it was retransmitted |
| `GoBackN.Tunnel.DeleteAcked` | kalay/gobackn.go:108-110 | the loop frees exactly the acknowledged frames |
| `GoBackN.Tunnel.OutboundTick` | kalay/gobackn.go:164-179 | retransmits on backed-off timeout, and reports failure if and only if frames are unacknowledged and no progress was made for over 30s |
| `GoBackNRuns.DuplicateAckAccounting` | kalay/gobackn.go:116-124 | over any run 3 * (fast retransmits) + dupAcks is at most the duplicate ACKs received |
| `GoBackNRuns.TransmissionAccounting` | kalay/gobackn.go:92-179 | transmissions are exactly the sends, fast retransmits and timeouts of the run |
| `GoBackNRuns.RunTimed` | kalay/gobackn.go:164-174 | along every run the time since progress is at least the sum of the backed-off waits of the timeouts since |
| `GoBackNRuns.ElevenTimeoutsTooLong` | kalay/gobackn.go:18-21 | eleven backed-off timeouts from the minimum rto outlast the give-up limit |
| `GoBackNRuns.TimeoutsBeforeGiveUp` | kalay/gobackn.go:164-179 | while the base stays put at most 11 timeouts happen up to the give-up, at most 10 if there is none |
| `GoBackNRuns.ProgressDated` | kalay/gobackn.go:111-113 | if any event from the k-th on moved the base, lastProg is not older than that event |
| `GoBackNRuns.GiveUpMeansNoProgress` | kalay/gobackn.go:175-177 | a give-up implies no event of the last 30s advanced the base, and the sender is older than that |
| `GoBackNRuns.GiveUpBlamesOldestIff` | kalay/gobackn.go:92-98 | for a frame sent after any run: in every continuation a give-up with that frame the oldest comes more than 30s after its send, if and only if the window was busy before the send or progress was made at that instant |
| `GoBackNRuns.IdleStreamGivesUpAtOnce` | kalay/gobackn.go:92-98 | a run in which a frame sent after 31 idle seconds is given up with no wait at all |
| `GoBackNRuns.AdditiveIncrease` | kalay/gobackn.go:107-115 | a run without a cut acknowledging N frames takes cwnd from c0 to c1 with c1^2 >= c0^2 + 2N and c1 <= c0 + N/c0 |
| `GoBackNRuns.HalvingsBounded` | kalay/gobackn.go:80-89 | a run lasting T halves cwnd at most 1 + T/250ms times |
| `GoBackNRuns.RunEstimate` | kalay/gobackn.go:104-147 | along every run srtt and rttvar stay between 0 and the age of the sender and rto in [250ms, 3s] |
| `GoBackNEvents.BaseStep` | kalay/gobackn.go:103-111 | of all events only an ACK moves the base, to just past what it names, exactly if that is ahead and was sent |
| `GoBackNEvents.WireStep` | kalay/gobackn.go:92-98 | a send transmits its frame under the next number; anything else that reaches the wire is the oldest unacknowledged frame, as every earlier copy of it was |
| `GoBackNEvents.FastRetransmitIff` | kalay/gobackn.go:116-125 | over every run, by events: an ACK puts a frame on the wire if and only if it is the third, sixth, ninth ... since the base last moved that repeats the ACK just before it, with frames unacknowledged |
| `GoBackNEvents.ThreeRepeats` | kalay/gobackn.go:116-125 | after any run with frames unacknowledged, three times in a row the ACK received last, which frees nothing: exactly the oldest frame goes out once more |
| `GoBackNEvents.BackoffDoubles` | kalay/gobackn.go:168-168 | each wait is twice the one before up to the fifth, and constant from then on |
| `GoBackNEvents.TimeoutIff` | kalay/gobackn.go:164-174 | over every run, by events: a tick retransmits if and only if a frame is unacknowledged and nothing was transmitted or freed for longer than rto, doubled for each timeout since the base last moved, at most four times |
| `GoBackNEvents.GiveUpIff` | kalay/gobackn.go:164-177 | over every run, by events: the sender gives up if and only if frames are unacknowledged and the base has not moved for more than 30 seconds |
| `GoBackNEvents.SendTimesAre` | kalay/gobackn.go:92-98 | every frame in flight keeps the time of its first sending |
| `GoBackNEvents.EstimateIs` | kalay/gobackn.go:104-106 | the estimate is that of the samples of exactly those ACKs which move the base and name a frame transmitted once, each the time since that frame was sent |
| `GoBackNEvents.WindowLaw` | kalay/gobackn.go:80-124 | over every run: the window grows by the frames freed over its size, a retransmission halves it but not below four unless the last cut is less than rto past, and nothing else changes it |
| `GoBackNEvents.WindowAtStart` | kalay/gobackn.go:55-62 | a new sender starts with eight frames |
| `GoBackNEvents.CutsBound` | kalay/gobackn.go:80-115 | over any stretch of any run that frees n frames and cuts the window h times, it ends at most n/4 above the larger of four and what it was, halved h times |
| `Rtt.SamplesWithin` | kalay/gobackn.go:130-147 | for any samples in [m, M]: srtt stays in [m, M], rttvar in [0, M], rto in [250ms, 3s] |
| `Rtt.SampleMeans` | kalay/gobackn.go:130-147 | one update in plain numbers (section 2 of RFC 6298): the first sample and half of it; later an eighth and a quarter of the difference, rounded toward the old value, the variation taken from the old estimate; the timeout is the estimate and four variations in its clamp |
| `Rtt.SampleContracts` | kalay/gobackn.go:138-139 | an equal sample takes an eighth off the distance beyond 7ns |
| `Rtt.RepeatContracts` | kalay/gobackn.go:138-139 | n equal samples leave at most (7/8)^n of the distance beyond 7ns |
| `Rtt.SampleApproaches` | kalay/gobackn.go:138-139 | under a sample s the distance of srtt from s never grows, strictly falls while it is 8ns or more, and srtt stands still below that |
| `Rtt.RepeatApproaches` | kalay/gobackn.go:138-139 | n equal samples bring srtt n ns closer, or within 7ns |
| `Rtt.RepeatSettles` | kalay/gobackn.go:138-139 | once srtt has settled, rttvar falls by 1ns a sample until it is at most 10ns |
| `Rtt.RepeatTamer` | kalay/gobackn.go:138-139 | under a constant sample rttvar never exceeds the larger of what it was and the distance srtt had |
| `Rtt.ConstantSampleConverges` | kalay/gobackn.go:130-147 | from any started estimate a number of equal samples bounded by its own srtt and rttvar ends with srtt within 7ns of the sample and at rest, and rto within 47ns of its clamp |
| `Reassembler.OrderIndependence` | kalay/tunnel.go:176-199 | any two arrival orders with any duplicates over the same frames leave the same state, so the same base, cum, maxSeq, Raw and Missing |
| `Reassembler.CumBeforeFirstHole` | kalay/tunnel.go:193-197 | cum is the last number before the first hole past base, and at most maxSeq |
| `Reassembler.GaplessAndMissing` | kalay/tunnel.go:229-243 | Gapless and Missing in terms of the frames present |
| `Reassembler.GaplessMatchesMissingIff` | kalay/tunnel.go:229-243 | Gapless says the same as an empty Missing if and only if a frame was received and the base frame has bytes or there is a gap |
| `Reassembler.GaplessWithHole` | kalay/tunnel.go:229-243 | after a single frame without bytes Gapless is true and Missing lists that frame |
| `Reassembler.MissingSorted` | kalay/tunnel.go:229-240 | missing numbers come in order and each once |
| `Reassembler.AddAfterTake` | kalay/tunnel.go:176-213 | after a Take a frame is stored if and only if it is past everything taken and not stored already |
| `Reassembler.RawIsLeadingPieces` | kalay/tunnel.go:247-256 | Raw is the concatenation of the pieces up to the first hole |
| `Reassembler.StreamRecovery` | kalay/tunnel.go:247-259 | a framed stream cut into numbered pieces, any of them added in any order with the first included: Stream is a prefix of the original, only grows, and is the original when all non-empty pieces arrived |
| `Reassembler.Reassembler.Add` | kalay/tunnel.go:176-199 | stores a frame unless it was taken or is stored, reports which, and updates base, maxSeq and cum |
| `Reassembler.Reassembler.Take` | kalay/tunnel.go:203-213 | removes a stored frame, empty ones included, and moves the watermark |
| `Reassembler.Reassembler.MissingSeqs` | kalay/tunnel.go:229-240 | the absent numbers of [base, maxSeq] in order |
| `Reassembler.Reassembler.RawBytes` | kalay/tunnel.go:247-256 | the payloads of [base, cum] in order |
| `Reassembler.Reassembler.StreamBytes` | kalay/tunnel.go:259-259 | the de-framed contiguous prefix |
| `Inbound.ReceivePath` | kalay/tunnelconn.go:502-562 | for all runs and batchings: bytes delivered are the first-received payload of each number from the base to pumpNext-1, once each in order; nothing stored is below pumpNext; all an ACK covers had arrived; ACKs never decrease; messages routed are those of one parse of the whole stream |
| `Inbound.AckLaw` | kalay/tunnelconn.go:527-562 | over every run, which ACKs are sent: one for each batch that brought something consumed, one for each periodic repetition, two for a stall when something past the missing frame has arrived and one when not; each names the number consumed last |
| `Inbound.LatestAck` | kalay/tunnelconn.go:527-530 | after every run the last ACK sent names the number consumed last |
| `Inbound.BatchInv` | kalay/tunnelconn.go:502-537 | one iteration, whatever its batch, keeps the receiver's invariant |
| `Inbound.ReAckInv` | kalay/tunnelconn.go:437-439 | periodic re-ACKs keep it |
| `Inbound.StallInv` | kalay/tunnelconn.go:541-563 | stall recovery keeps it |
| `Inbound.RunInv` | kalay/tunnelconn.go:502-562 | it holds after every run |
| `Inbound.ConsumesExpected` | kalay/tunnelconn.go:511-525 | a batch that contains the expected frame, or at the start the lowest one, takes pumpNext past it |
| `Inbound.StartsLowest` | kalay/tunnelconn.go:511-515 | the first batch starts the stream at its lowest number |
| `Inbound.DemuxesOn` | kalay/tunnelconn.go:531-537 | parsing new bytes behind the compacted tail gives the messages and the tail of one parse of the whole stream |
| `Inbound.Pump.AddBatch` | kalay/tunnelconn.go:502-502 | adds the frames in turn |
| `Inbound.Pump.Drain` | kalay/tunnelconn.go:518-525 | takes exactly the run of stored frames from pumpNext on and returns their bytes |
| `Inbound.Pump.ConsumeBatch` | kalay/tunnelconn.go:502-537 | one iteration in place |
| `Inbound.Pump.Consume` | kalay/tunnelconn.go:516-537 | drain, one cumulative ACK if anything was taken, parse, route, compact |
| `Inbound.Pump.DrainAndAck` | kalay/tunnelconn.go:517-530 | the in-order prefix is taken and acknowledged by its last number |
| `Inbound.Pump.ParseAndRoute` | kalay/tunnelconn.go:531-537 | the messages completed are routed and the unparsed tail kept |
| `Inbound.Pump.ReAckPeriodically` | kalay/tunnelconn.go:437-439 | repeats the cumulative ACK of the last consumed number |
| `Inbound.Pump.RecoverStall` | kalay/tunnelconn.go:541-563 | two ACKs when frames past the hole are known, one otherwise |
| `Outbound.OutboundConservation` | kalay/tunnelconn.go:466-485 | in every run, control sends included: data payloads sent so far followed by pending are the chunk encodings of the accepted writes in order; each payload is on the wire under its own increasing number, non-empty and at most maxFrame; unacknowledged data frames never exceed sendWindow |
| `Outbound.StepInv` | kalay/tunnelconn.go:454-490 | every kind of step keeps that |
| `Outbound.FrameInv` | kalay/tunnelconn.go:483-485 | framing one more payload keeps it, however the window moved |
| `Outbound.FrameGreedy` | kalay/tunnelconn.go:484-484 | a frame is full or takes all that is pending, from its front |
| `Outbound.PendingBounded` | kalay/tunnelconn.go:468-478 | in every run the buffer stays below a window of full frames and one chunk |
| `Outbound.PeerReadsWritesIff` | kalay/tunnelconn.go:744-751 | the framed stream demultiplexes to exactly the accepted writes if and only if each is non-empty, at most 0x2000 bytes and on a nonzero channel |
| `Outbound.MisreadWrite` | kalay/tunnelconn.go:744-751 | for every write that is not deliverable, every frame size and every window, a run that frames all of it and whose stream is not read back as that write |
| `Outbound.CanFrameAll` | kalay/tunnelconn.go:483-490 | from every state the invariant allows, ACKs and frames lead to one with nothing pending |
| `Outbound.Pump.AcceptWrites` | kalay/tunnelconn.go:468-478 | takes queued writes in order until the queue is empty or pending reaches sendWindow * maxFrame |
| `Outbound.Pump.AcceptOne` | kalay/tunnelconn.go:470-474 | appends one chunk |
| `Outbound.Pump.FrameStream` | kalay/tunnelconn.go:483-485 | sends until pending is empty or the window is full, adding to what was framed and losing nothing |
| `Outbound.Pump.FrameOnce` | kalay/tunnelconn.go:484-484 | sends the next at most maxFrame pending bytes as one frame |
| `Framing.IncrementalRefinesOneShot` | kalay/tunnelconn.go:531-537 | for every stable scanner, every stream and every way of cutting it: compacted and retained-offset parsing both equal one parse of the whole |
| `Framing.SplitAppend` | kalay/tunnel.go:133-156 | parsing a longer buffer is parsing the shorter, then what it left over |
| `Framing.RoundTripIff` | kalay/tunnel.go:50-70 | for every codec: a list survives encoding and parsing if and only if every element is well-formed |
| `Framing.ReadsExactlyIff` | kalay/tunnel.go:133-156 | for every codec whose messages are spelled by the bytes they are read from: no shorter or equally long buffer reads as given messages but their own encoding |
| `Framing.InsertedIff` | kalay/tunnelconn.go:453-465 | a message put into a stream at any point is read behind the messages begun if and only if its bytes commute with those they overtake |
| `PTun.EncodedBytes` | kalay/tunnel.go:125-129 | a message byte by byte: type, channel, length low byte first, data |
| `PTun.ReadsMessage` | kalay/tunnel.go:139-150 | a valid header whose message is there gives that message and then what follows it |
| `PTun.WaitsForMore` | kalay/tunnel.go:135-148 | a valid header whose message is cut short reads nothing yet, and so do fewer than four bytes |
| `PTun.Resyncs` | kalay/tunnel.go:151-153 | in front of anything else one byte is skipped, and that byte alone |
| `PTun.GarbageSkipped` | kalay/tunnel.go:125-129 | any bytes that can start no message, in front of any well-formed messages, cost none of them |
| `PTun.DemuxIncremental` | kalay/tunnel.go:125-156 | that refinement for PTunDemux, garbage and resyncs included |
| `PTun.DemuxRoundTripIff` | kalay/tunnel.go:133-156 | whole messages written one after another are demultiplexed exactly if and only if each is a valid data chunk or known control message |
| `PTun.IsCodec` | kalay/tunnel.go:133-156 | more bytes never change a verdict, and every valid message is recognised whatever follows |
| `PTun.IsLiteral` | kalay/tunnel.go:133-156 | every message the demultiplexer reads is spelled by the bytes it was read from |
| `PTun.ControlReadIff` | kalay/tunnelconn.go:453-465 | a control message sent k bytes into a message, before any others, is read in its place if and only if its bytes commute with the rest of that message |
| `PTun.Demux.Parse` | kalay/tunnel.go:133-156 | the retained-offset parser returns the messages from its offset on and leaves the offset behind them, where a buffer splits as `ReadsMessage`, `WaitsForMore` and `Resyncs` say |
| `PTun.ParseAll` | kalay/tunnelconn.go:531-537 | a fresh demultiplexer parses the whole buffer and leaves the unparsed tail |
| `PTun.NextStep` | kalay/tunnel.go:135-153 | one turn of the loop: data, control, incomplete or resync, as `ReadsMessage`, `WaitsForMore` and `Resyncs` say |
| `PTun.DeframeFrame` | kalay/tunnel.go:75-107 | de-framing undoes framing for every chunk size |
| `PTun.DeframeTruncated` | kalay/tunnel.go:75-107 | any truncation of a framed stream de-frames to a prefix of the original |
| `PTun.DeframeTruncatedExactly` | kalay/tunnel.go:75-107 | and exactly to what the bytes left carry: four header bytes for every chunk, the rest of them stream bytes |
| `PTun.FramedLength` | kalay/tunnel.go:95-107 | each chunk carries as much as it may behind four bytes of header |
| `PTun.DeframeKeepsStray` | kalay/tunnel.go:85-88 | stray bytes that start no chunk are kept as they are and cost nothing else |
| `PTun.DeframeShort` | kalay/tunnel.go:77-77 | fewer than four bytes give nothing |
| `PTun.DeframeExtends` | kalay/tunnel.go:75-91 | on arbitrary bytes, more input only extends the output |
| `PTun.DeframeTunnel` | kalay/tunnel.go:75-91 | the de-framing loop |
| `PTun.FrameTunnel` | kalay/tunnel.go:95-107 | the framing loop with its clamp |
| `Rdt.CoalescedRoundTripIff` | kalay/tunnel.go:35-70 | concatenated frames parse back exactly if and only if every payload is below 65536 bytes |
| `Rdt.TruncationYieldsPrefix` | kalay/tunnel.go:50-70 | a truncated run of frames parses to a prefix of them |
| `Rdt.ReencodingReparses` | kalay/tunnel.go:35-70 | what was parsed from arbitrary bytes re-encodes and reparses to the same list |
| `Rdt.HeaderBytes` | kalay/tunnel.go:36-43 | the header byte by byte: magic, type, 0x05, length and number low byte first, b16, connection, two zeros |
| `Rdt.FrameFields` | kalay/tunnel.go:52-67 | exactly when a frame is read off the front of any bytes, each of its fields by position, and that parsing goes on behind it |
| `Rdt.AppendRDT` | kalay/tunnel.go:35-46 | every byte of what is appended: the header by position, length and number low byte first, then the payload |
| `Rdt.ParseRDTStream` | kalay/tunnel.go:50-70 | the parsing loop; its first frame is there if and only if a whole one starts the bytes, with its fields by position, and the rest is the parse of what is behind it |
| `Dtls.RecordsRoundTripIff` | kalay/dtls.go:43-69 | concatenated records parse back exactly if and only if each body is below 65536 bytes and each number below 2^48 (section 4.1 of RFC 6347) |
| `Dtls.TruncationYieldsPrefix` | kalay/dtls.go:43-57 | a truncated datagram parses to a prefix of its records |
| `Dtls.ReencodingReparses` | kalay/dtls.go:43-69 | what was parsed from arbitrary bytes re-encodes and reparses to the same list |
| `Dtls.RecordBytes` | kalay/dtls.go:61-69 | the record byte by byte: type, fe fd, then epoch, number and length high byte first, then the body |
| `Dtls.RecordFields` | kalay/dtls.go:45-54 | exactly when a record is read off the front of any bytes, each of its fields by position, and that parsing goes on behind it |
| `Dtls.RecordNumberBit` | kalay/dtls.go:90-90 | a bit of the record number is set if and only if it is set in the number or, from bit 48 on, in the epoch |
| `Dtls.NonceBit` | kalay/dtls.go:87-95 | the nonce bit by bit: four IV bytes as they are, then eight with those bits of the IV turned over that the record number has, its high byte first |
| `Dtls.ParseDTLSRecords` | kalay/dtls.go:43-57 | the parsing loop |
| `Dtls.AEADNonce` | kalay/dtls.go:87-95 | the in-place xor of the record number into the last eight bytes, bit by bit, for an IV of any length |
| `Dtls.NonceEqualIff` | kalay/dtls.go:87-95 | for one IV two nonces are equal if and only if epoch<<48 or-ed with the number is (section 2 of RFC 7905) |
| `Dtls.EpochOneNonceEqualIff` | kalay/dtls.go:90-90 | in epoch 1 two numbers share a nonce if and only if they agree outside bit 48 |
| `RecordLayer.NoncesDistinctIff` | kalay/tunnelconn.go:293-297 | the first n sealed epoch-1 records, Finished included, have pairwise distinct nonces if and only if n < 2^48 |
| `RecordLayer.FinishedNonceReused` | kalay/tunnelconn.go:239-239 | the next record is sealed under the nonce of the Finished message |
| `RecordLayer.Sender.constructor` | kalay/tunnelconn.go:264-269 | numbering starts at 2 after Finished used 0 |
| `RecordLayer.Sender.SendRDT` | kalay/tunnelconn.go:293-297 | each frame is sealed under the next number and every number so far is the one its position says |
| `RecordLayer.WireRoundTrip` | kalay/tunnelconn.go:293-321 | frames sealed under consecutive numbers and coalesced into a datagram are read back in order |
| `RecordLayer.ReadDatagram` | kalay/tunnelconn.go:309-318 | the record loop: foreign epochs, other content types and records that do not open contribute nothing |
| `RecordLayer.OpenRecord` | kalay/tunnelconn.go:310-317 | the frames of one record |
| `RecordLayer.AadBytes` | kalay/dtls.go:97-106 | the additional data byte by byte |
| `RecordLayer.ForeignIgnored` | kalay/tunnelconn.go:309-316 | a record of another epoch or type, or one that does not open, changes nothing of what the others give |
| `RecordLayer.SealedRecord` | kalay/tunnelconn.go:293-297 | what is sent: an epoch-1 application record under its number, with that number in nonce and additional data |
| `SealedNetwork.ReadsWhatWasSent` | kalay/tunnelconn.go:293-321 | however the sealed datagrams are lost, repeated and reordered, what is read is the packets sent in them, in the order they arrive |
| `SealedNetwork.BatchesAreDatagramsIff` | kalay/tunnelconn.go:487-503 | a batch of frames can be delivered over the network of values if and only if it is what the pump reads off some choice of the sender's sealed datagrams |
| `SealedNetwork.AcksAreDatagramsIff` | kalay/tunnelconn.go:487-491 | and so for the ACKs |
| `SealedNetwork.SentLogs` | kalay/gobackn.go:92-98 | the packets of the sender's transmissions, among any others, are such a choice to draw from |
| `PermTables.ForwardThenReverse` | kalay/perm_tables.go:8-9 | the reverse block table undoes the forward one |
| `PermTables.ReverseThenForward` | kalay/perm_tables.go:8-9 | and the other way round |
| `PermTables.RemainderInvolution` | kalay/perm_tables.go:11-45 | the remainder table of every length undoes itself |
| `Transcode.ApplyInverse` | kalay/transcode.go:11-21 | applying a bit permutation and then its inverse gives the buffer back |
| `Transcode.AppliedBit` | kalay/transcode.go:15-20 | a bit of the result is set if and only if some set source bit is sent to it |
| `Transcode.MutualInverses` | kalay/transcode.go:23-40 | TransCode and ReverseTransCode undo each other for every length, partial blocks included |
| `Transcode.TranscodedFront` | kalay/transcode.go:27-29 | whole blocks at the front are transcoded on their own |
| `Transcode.BlockBit` | kalay/transcode.go:26-29 | bit i of every whole block goes where the table says, in that block |
| `Transcode.RemainderBit` | kalay/transcode.go:30-32 | bit i of a trailing partial block goes where the table of its length says |
| `Transcode.SentBit` | kalay/transcode.go:36-37 | the send direction uses the forward table |
| `Transcode.FirstBit` | kalay/transcode.go:36-40 | the lowest bit of the first byte becomes that of byte 14 when sending and the fifth of byte 8 when receiving, so bits count from the lowest and the tables are not swapped |
| `Transcode.ApplyBitsInto` | kalay/transcode.go:11-21 | the clearing and bit-setting loops write the permutation and touch nothing else |
| `Transcode.TranscodeBuffer` | kalay/transcode.go:23-34 | the block loop and the remainder together |
| `Control.XorMask` | kalay/control.go:13-19 | every bit of the result is that of the buffer, turned over where the repeating mask has a bit |
| `Control.MaskedTwice` | kalay/control.go:13-19 | masking undoes itself |
| `Bits.XorBits` | kalay/control.go:16-16 | exclusive or, by every bit of a byte |
| `Control.MaskedBits` | kalay/control.go:13-19 | masking turns over exactly the bits the mask has, repeating every 16 bytes |
| `Control.EncodedBit` | kalay/control.go:26-26 | encoding masks first and permutes then: where each bit of a whole block ends up, and whether turned over |
| `Control.EncodedRestBit` | kalay/control.go:26-26 | the same for a trailing partial block |
| `Control.DataTailVerbatim` | kalay/control.go:32-53 | data packets carry what is past their first 64 bytes as it is |
| `Control.PayloadRoundTrip` | kalay/control.go:23-26 | EncodePayload and DecodePayload undo each other both ways |
| `Control.PayloadDataRoundTrip` | kalay/control.go:34-53 | so do the data variants, for every length, which they keep |
| `Control.EncodingsAgreeOnFront` | kalay/control.go:45-53 | control and data encodings of a longer packet agree on its first 64 bytes |
| `Wakeup.NoLostWakeup` | kalay/tunnelconn.go:698-736 | in every interleaving: a waiting reader has nothing to read and its channel exists; if the tunnel was closed or failed, a broadcast is still owed to it |
| `Wakeup.OneTerminalError` | kalay/tunnelconn.go:388-395 | rerr never changes once set and is the only error Read reports |
| `Wakeup.ReadDrainsFirst` | kalay/tunnelconn.go:726-736 | Read hands out exactly the routed bytes in order, and the error only when all were handed out |
| `Wakeup.ChannelReadsInOrder` | kalay/tunnelconn.go:590-597 | Read of an extra channel hands out exactly the bytes routed to it since it was opened, in order, and reports the tunnel closed only when all were handed out |
| `Wakeup.ErrorIsFirst` | kalay/tunnelconn.go:388-395 | over every run, by events: the terminal error is that of the first failure or close, and there is none before |
| `Wakeup.StepChannelBytes` | kalay/tunnelconn.go:590-597 | every step keeps bytes handed out and buffered in step with those routed, for each open channel |
| `Wakeup.StepInv` | kalay/tunnelconn.go:571-766 | every step keeps all that |
| `Wakeup.StepTunnelReaders` | kalay/tunnelconn.go:571-589 | every step keeps what holds of tunnel readers and the bytes between route and Read |
| `Wakeup.StepChannelReaders` | kalay/tunnelconn.go:685-717 | every step keeps what holds of channel readers, with a close possible between their check and their wait |
| `Wakeup.QuiescentMeansDone` | kalay/tunnelconn.go:400-410 | once the pump and every Close have finished, nobody waits and nobody can start to |
| `Wakeup.ShutdownCanProceed` | kalay/tunnelconn.go:754-766 | in a closed tunnel that is not quiescent some owed step is possible and brings quiescence closer |
| `Wakeup.ShutdownCompletes` | kalay/tunnelconn.go:754-766 | from every reachable closed state a bounded number of those steps wakes every reader |
| `Wakeup.ShutdownStepCloser` | kalay/tunnelconn.go:400-410 | in a closed tunnel every owed step brings quiescence closer |
| `Wakeup.OtherStepNoFurther` | kalay/tunnelconn.go:698-736 | and no other step but a new Close puts it further off |
| `Wakeup.EveryScheduleEnds` | kalay/tunnelconn.go:754-766 | in every run from a closed state without new Close calls the owed steps taken are bounded, and when none is left every reader was woken |
| `RangedFetch.CommittedIsSource` | cmd/download/main.go:211-287 | for every size, range length, set of workers and interleaving, with short reads and failures: a committed file has the reported size and every byte is the source byte at its offset |
| `RangedFetch.CommitTestIsExact` | cmd/download/main.go:274-287 | the file is committed if and only if no error was recorded and no offset was left unwritten |
| `RangedFetch.CommittedIff` | cmd/download/main.go:230-287 | by events: when the last worker has exited, the file is committed if and only if no write failed, no read that was counted had failed, and every offset was written |
| `RangedFetch.CleanFetchCommits` | cmd/download/main.go:222-287 | every fetch ends within 4 steps a range and one a worker, and one more; if the source has the bytes it reported and nothing has gone wrong, it is either committed with exactly those bytes or can take another such step |
| `RangedFetch.StepInv` | cmd/download/main.go:229-263 | every worker step keeps the accounting: ranges are held once, counted once, only source bytes are written, done is the sum of the counts |
| `RangedFetch.RunInv` | cmd/download/main.go:229-263 | the accounting holds in every reachable state |
| `RangedFetch.FullPrefix` | cmd/download/main.go:259-261 | the ranges tile the file: their counts reach the end only if each range is full |
| `RangedFetch.CountedAll` | cmd/download/main.go:284-287 | a full count means a full, correct file |

## Left out

- Wrap-around of the 64-bit RDT sequence numbers: the protocol state uses naturals, and only codecs and record numbering are bounded.
- Several clock readings inside one call: each call sees one instant. `now` may be any integer where no ordering is required.
- float64 rounding of `cwnd`: the model computes with reals.
- The AEAD, key derivation and handshake (`PHash`, `PRF`, `OpenTunnel`, `setup`): Seal and Open are parameters of which Open inverts Seal.
- EndToEnd.WritesAreRead: takes control payloads to be messages the demultiplexer knows, which a connect-address payload is not; `Outbound.OutboundConservation` covers runs with any control sends.
- TwoParty.MessagesArriveInOrder: assumes that the receiver started at the first frame; `TwoParty.LostHead` is a run where it does not, and `TwoParty.MessagesReadIff` and `EndToEnd.AllReadIff` say exactly what is read then.
- TwoParty.WritesArriveInOrder: the same.
- Forged datagrams: `SealedNetwork` delivers what was sealed, in any order and number; that nothing else opens is the promise of the AEAD.
- Matching of channel-created replies to channel opens, the 12s open timeout and channel index allocation.
- The capacity of Go channels (`writeCh`, `ctrlCh`, `jobs`) and the blocking of writers on them.
- The timing of the pump loop (the liveness timeout, the 400ms and 2s intervals): re-ACK and stall recovery are steps that may happen at any time, which covers every schedule.
- `CumAck` in runs with `Take`, where the source leaves it meaningless.
- The permutation tables are written as runs of consecutive destinations rather than entry by entry; `fwdRemBits` and `revRemBits` are equal and appear once.
- RangedFetch models `fetchFile` as interleaved steps on values; the timeouts of its tick loop are one step that may happen at any time.
- Session dialling, packets, `seestar/`, `internal/`, `cmd/proxy`, `cmd/upload` and the SMB code: socket, HTTP and command-line plumbing.
- Debug output, statistics counters and environment parsing.
