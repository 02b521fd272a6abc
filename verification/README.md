# AirPlay to Sonos: the audio path, modelled and proved

An AirPlay sender compresses 16-bit stereo audio with ALAC, encrypts it and sends
it as RTP packets. The bridge puts the packets back in order, decrypts and decodes
them into a ring buffer, and a paced writer streams the ring to the speaker. This
project models that path in Dafny, from the datagram to the bytes on the speaker's
connection, and proves what it promises.

`dafny verify dfyconfig.toml` checks everything.

## The parts

| files | part of the system |
|---|---|
| `Words`, `Bits` | machine words as wrapped integers; the bit stream and its 24-bit-window reader |
| `Golomb`, `Residuals`, `GolombRoundTrip`, `Locality` | the adaptive Golomb decoder, its encoder, and the round trip |
| `Predictor` | the sign-adaptive predictor, its forward direction, and the in-place code |
| `Frames`, `AlacDecoder`, `FrameRoundTrip` | what a frame means; the decoder object; a whole encoder; losslessness and truncation |
| `Sequencing`, `Reorder`, `Disorder`, `WireRuns`, `WireLaws`, `Resends`, `Resets` | the resequencer over unbounded indices; the 16-bit object that simulates it; what disorder does to it; the same for the 16-bit machine; resend requests; what a reset keeps |
| `Cbc`, `Datagrams`, `Playout`, `Packets` | decryption, RTP and resend wrappers, the sound of a session, and the object that puts the halves together |
| `Rings`, `Wake` | the ring against a drop-oldest queue; the wake token under interleaving |
| `Pacer`, `Window` | the deadline-paced writer; the reorder window against the reserve |

Three conventions run through all of it.

- A method that follows the Go code is proved against a specification function
  (`Symbol`, `Decomp`, `DecoderAfter`, `DecodeFrame`, `Push`, `LastOf`, `Opened`), and
  the laws are proved about those functions. The encoders (`Encode`, `Residues`,
  `FrameBits`, `Seal`, `RtpPacket`) are not in the repository. They state what a sender
  does with formulas of their own (mean, widths, zero-run flag, rate, prediction,
  adaptation, constants as literals), and where decoder and encoder have to compute the
  same thing, that they do is a lemma (`SendMeanIsNext`, `SendWidthIsParam`,
  `RunWidthIsRunK`, `ExpectedIsPrediction`, `AdaptIsNudged`).
- int32, int16 and uint32 arithmetic is written out with `S32`, `S16`, `U32` at every
  operation where the Go code can wrap. Where a bound shows that nothing wraps, that
  is a lemma. `|` of fields that do not overlap is written as `+`.
- `hide` at the head of a proof lists the definitions it does not need.

## What is proved, in short

- **End to end** (`Playout.SessionIsLossless`): frames encoded with any legal
  parameters, encrypted by any block cipher and sent as RTP come out sample for sample
  if every packet arrives in an order that overtakes none by more than 64 others and brings
  none more than 32767 ahead of, or 32768 behind, the one waited for; duplicates, resend
  wrappers and other traffic are allowed. `Playout.UndisturbedIsLossless` is the case of
  packets in order.
- **Order insensitivity** (`Playout.SoundIsOrderInsensitive`): also with packets missing,
  what is written to the ring depends only on which packets arrived, within the same two
  bounds.
- **ALAC**: Golomb round trip, predictor inverse in lockstep, mid/side inverse and their
  composition into a frame, with up to two low bytes of each sample sent aside; adaptation
  moves the prediction towards the sample; no truncated frame decodes; decoding depends on
  the consumed bits only and on nothing from earlier frames.
- **Resequencer**: the 16-bit object goes through the states of an unbounded machine if and
  only if every arrival is within half the sequence space of the one waited for, or behind it
  and read as behind it (`WireLaws.SimulatesExactly`). On such runs a packet from the first
  on that arrives for the first time is late exactly when more than 64 others overtook it
  (`WireLaws.LateOnWire`). A permutation of consecutive packets is repaired, whatever they
  carry, exactly when none is overtaken by more than 64 others and none is out of reach
  (`WireLaws.RepairOnWire`); `WireLaws.FarIsLate` is a run out of reach.
- **Ring and writer**: any run is a drop-oldest queue; no wake-up is lost, and a wait
  for samples ends at once, or with the write that sufficed, or at its timer; padding never
  runs ahead of the clock, and the rate is exact unless a write falls a whole chunk behind.
- **Window and reserve**: whatever the environment does, a prompt `StreamPCM` that meets a
  gap of at most 22 packets with the reserve in hand never pads while it is waited for
  (`Window.StreamIsSafe`); for 23 or more a run of `StreamPCM` does (`Window.StreamStarves`).

## Where the code and its comments differ

The model follows the code.

- A resend request is said to cover the missing range (`internal/raop/reorder.go:108`).
  It can cover packets that are held: `Resends.RequestMayCoverHeld` gives a run,
  `Resends.RequestsExactly` the exact condition.
- Requests are said to go out as soon as a gap appears, once per gap
  (`internal/raop/reorder.go:39-43`, `91-94`). A push more than 64 ahead asks nothing, and the
  gap waits until a packet within 64 arrives (`Resends.WideGapUnasked`); where a gap opens on
  the 16-bit start of the last request, the push asks nothing (`Resends.RememberedGapUnasked`).
  `Resends.RequestsExactly` states when a push asks.
- `Reordered` is documented as counting packets that arrived out of order and were put back
  (`internal/raop/reorder.go:51-52`). It counts the arrivals ahead of the one waited for
  (`Disorder.ReorderedCounts`), which may be in order, with nothing put back
  (`Disorder.ReorderedWithoutRepair`); one had been overtaken exactly when something held
  lies beyond it (`Disorder.OvertakenExactly`).
- `reset` is documented as clearing state between sessions (`internal/raop/reorder.go:165-166`).
  It keeps what was last asked about, and the first gap after it can go unasked
  (`Resets.FirstGapUnasked`). `Resets.ResetIsFreshExactly` states when it acts as a fresh object
  while the callback stays as it is, `Resets.ResetIsFreshThroughout` when it does whatever
  callbacks are set later. Every session builds a new resequencer (`internal/raop/rtp.go:85`)
  and only `internal/raop/reorder_test.go:142` calls `reset`, so no session meets this.
- The test that couples window and reserve compares 64 packets with 700 ms. A gap of g
  packets is released only after g + 65 packet intervals, so the margin depends on g.

## Model

| member | source | states |
|---|---|---|
| Bits.BitBuffer.Read | internal/alac/bits.go:33-53 | the recursive 24-bit-window read returns the n-bit big-endian slice of the zero-extended stream at any offset, n up to 32, and moves n bits |
| Bits.WindowRead | internal/alac/bits.go:44-49 | shift, mask and shift of three bytes leave exactly the wanted bits for every offset in the byte and n up to 16 |
| Bits.SliceSplit | internal/alac/bits.go:37-41 | consecutive reads of a and b bits compose to one read of a + b |
| Bits.BitBuffer.ByteAlign | internal/alac/bits.go:70-74 | moves to a byte boundary, less than a byte ahead, and stays if on one |
| Golomb.GetStreamBits | internal/alac/ag.go:99-122 | four bytes plus a fifth give the same slice as the other reader, for all offsets and widths up to 32 |
| Golomb.Read32bit | internal/alac/ag.go:74-83 | 32 bits of the zero-extended stream, past the end too |
| Golomb.Lead | internal/alac/ag.go:55-64 | the loop counts leading zeros, 32 for zero |
| Golomb.LeadUnique | internal/alac/ag.go:55-64 | a leading-zero count is the one number that fits the word between two powers of two |
| Golomb.LeadingOnes | internal/alac/ag.go:128 | the complement's leading zeros are the unary prefix, capped at 9 |
| Golomb.DynGet32bit | internal/alac/ag.go:154-180 | reads one symbol and its length in 32-bit steps; for k up to 16 the 32-bit look-ahead always holds every bit it uses |
| Golomb.DynGet | internal/alac/ag.go:124-152 | the same for run lengths, through the subtraction that underflows and comes back |
| Golomb.SymbolInWords | internal/alac/ag.go:143-147 | none of the symbol's 32-bit operations changes its value, including v - 1 at v = 0 |
| Residuals.MeanStaysBounded | internal/alac/ag.go:221-225 | with pb up to 127 the mean stays within 2^25 and the wrapping update equals the unbounded recurrence |
| Residuals.ParamRange | internal/alac/ag.go:204-209 | a bounded mean keeps the remainder width within 1..16 |
| Residuals.RunRange | internal/alac/ag.go:229-232 | in zero-run mode the width is 2..8 and lead(mb) - 24 does not underflow |
| Residuals.WbIsIdle | internal/alac/ag.go:231-232 | the mask with wb changes no run symbol's mask when kb is at least 8 |
| Residuals.DynDecomp | internal/alac/ag.go:184-256 | the loop yields the block's residuals, leaves the reader at its end, leaves the rest of the buffer alone, and reports exactly the truncation or run-overrun error |
| Residuals.OneTurn | internal/alac/ag.go:198-250 | a turn yields between one and all of the residuals asked for, never moves back, and keeps the mean in its bound |
| Residuals.RunSaysWhatFollows | internal/alac/ag.go:229-249 | after a run of fewer than 65535 zeros the next residual is not 0; after a full one the zero-run flag is clear |
| GolombRoundTrip.CodeWordReads | internal/alac/ag.go:154-180 | every number's code word, unary or escape, reads back as that number and exactly its length |
| GolombRoundTrip.SendMeanIsNext | internal/alac/ag.go:221-225 | the encoder's mean, the rounded-up weighted one of its own symbol, is the decoder's |
| GolombRoundTrip.SendWidthIsParam | internal/alac/ag.go:204-209 | the remainder width is the number of halvings that take mb / 512 + 3 to 1, at most kb |
| GolombRoundTrip.RunWidthIsRunK | internal/alac/ag.go:229-232 | the run width is the one of a table by the mean, for every mean below 128 |
| GolombRoundTrip.EncodeTurn | internal/alac/ag.go:229-249 | the encoder's turn, with a zero-run flag read off the residuals already sent, takes at least one residual and leaves the next one sendable |
| GolombRoundTrip.TurnReads | internal/alac/ag.go:204-249 | after each turn the decoder's mean and zero-run flag are the encoder's own |
| GolombRoundTrip.RoundTrip | internal/alac/ag.go:184-256 | decoding an encoded block recovers every residual and stops at the last bit of it, whatever follows |
| Locality.DecompAgrees | internal/alac/ag.go:184-256 | a decoded block depends only on the bits it consumed, although more are always loaded |
| Predictor.SignOfInt | internal/alac/predictor.go:18-21 | the bit trick is the sign of every int32, the most negative included |
| Predictor.SignExtend | internal/alac/predictor.go:47 | the shift pair after a wrapping addition keeps the low chanbits as a signed number |
| Predictor.WeightedSum | internal/alac/predictor.go:56-59 | a sum wrapped at every step equals the unbounded inner product wrapped once |
| Predictor.ExpectedIsPrediction | internal/alac/predictor.go:5-10 | the unrolled form, subtracting coefficients times differences, predicts what the general loop predicts |
| Predictor.AdaptUp | internal/alac/predictor.go:68-77 | the coefficients move against the sign of each difference until the residual is used up; the rest are untouched |
| Predictor.AdaptDown | internal/alac/predictor.go:78-88 | the same for negative residuals |
| Predictor.AdaptIsNudged | internal/alac/predictor.go:67-88 | coefficient by coefficient: one step against the sign of its difference, exactly while part of the residual is left |
| Predictor.AdaptsTowards | internal/alac/predictor.go:67-88 | adaptation moves the weighted sum towards the sample, strictly unless the first difference looked at is 0 |
| Predictor.UnpcBlock | internal/alac/predictor.go:23-90 | samples and adapted coefficients are those of the recurrence, for 0..31 active coefficients, also when input and output are one buffer |
| Predictor.Lockstep | internal/alac/predictor.go:53-89 | at every step decoder and encoder hold the same samples and the same coefficients |
| Predictor.PredictorInverse | internal/alac/predictor.go:23-90 | predicting back the encoder's residuals returns the samples, for every coefficient vector, shift and width |
| Predictor.ResiduesFit | internal/alac/predictor.go:47 | residuals of samples that fit chanbits fit it |
| Predictor.DecodedRange | internal/alac/predictor.go:26-65 | decoded samples fit chanbits, the first sample and the plain copy excepted |
| AlacDecoder.Decoder.ReadCoefs | internal/alac/decoder.go:222-234 | yields the channel description at the reader's position and leaves the reader behind it |
| AlacDecoder.Decoder.ChannelPass | internal/alac/decoder.go:237-256 | residuals, the optional in-place delta pass and the predictor give the channel's samples or the residuals' error |
| AlacDecoder.Unmix16 | internal/alac/decoder.go:259-273 | fills exactly the first 2n outputs with the unmixed pairs |
| AlacDecoder.RawUnmixed | internal/alac/decoder.go:187-201 | the escape branch outputs the stored words unchanged |
| AlacDecoder.Decoder.ReadRaw | internal/alac/decoder.go:191-198 | the escape branch reads alternating 16-bit words into the two buffers |
| AlacDecoder.Decoder.ReadShifted | internal/alac/decoder.go:203-208 | the low bytes are read in turn, as many bits each as were sent aside, from the place kept for them |
| AlacDecoder.Decoder.CompressedBody | internal/alac/decoder.go:155-186 | both descriptions are read before either channel; shifted-out bits are stepped over; the first failing channel decides the error |
| AlacDecoder.Decoder.DecodeElement | internal/alac/decoder.go:124-219 | an element returns its samples and count or its error, and writes nothing behind them |
| AlacDecoder.Decoder.Decode | internal/alac/decoder.go:75-121 | what a frame decodes to is a function of the cookie and the frame; nothing left by earlier frames matters |
| AlacDecoder.DecodersAgree | internal/alac/decoder.go:45-55 | two decoders with arbitrarily different leftovers return the same samples, count and error |
| AlacDecoder.SplitHeader | internal/alac/decoder.go:128-131 | the header nibble is a one-, a two- and a one-bit field |
| Frames.AgParamsScales | internal/alac/decoder.go:241 | a channel's rate is the cookie's times pbFactor in quarters, rounded down; mean and limit are the cookie's |
| Frames.DecodedEndsInside | internal/alac/decoder.go:109-119 | a decoded frame's last bit lies inside the buffer: zero padding cannot supply the end tag |
| FrameRoundTrip.UnmixInverse | internal/alac/decoder.go:259-268 | unmixing undoes the encoder's mid/side weighting whenever the mid sample fits |
| FrameRoundTrip.LegalMixFits | internal/alac/decoder.go:156-157 | for 0 <= mixRes <= 2^mixBits the mid sample always fits 16 bits |
| FrameRoundTrip.SentRebuilds | internal/alac/decoder.go:248-254 | predictor and optional delta pass undo their forward forms |
| FrameRoundTrip.FrameLossless | internal/alac/decoder.go:124-218 | a frame encoded with any legal parameters, low bytes sent aside included, decodes to its samples, its count and its exact length, whatever follows |
| FrameRoundTrip.PackedFrameLossless | internal/alac/decoder.go:75-121 | the same for the bytes of a packet |
| FrameRoundTrip.RawLossless | internal/alac/decoder.go:187-201 | the escape form returns the samples as they were |
| FrameRoundTrip.MonoReads | internal/alac/decoder.go:124-186 | a mono element as an encoder forms it ends in no error |
| FrameRoundTrip.Refusals | internal/alac/decoder.go:75-150 | which bits of a frame lead to which error: depth, tag, three shifted bytes, too many samples |
| FrameRoundTrip.OtherTagIsRefused | internal/alac/decoder.go:75-121 | a decoded pair with any tag but an element or the end behind it is refused |
| FrameRoundTrip.DecodeDependsOnConsumedBits | internal/alac/decoder.go:75-121 | two buffers that agree on the consumed bits decode alike |
| FrameRoundTrip.TruncatedNeverDecodes | internal/alac/bits.go:76-79 | a prefix that loses a consumed bit is never accepted |
| FrameRoundTrip.TruncatedIsRejected | internal/alac/ag.go:199-202 | and it ends in an error, unless the cut makes a partial frame's count read as zero |
| Reorder.AheadMeans | internal/raop/reorder.go:68-70 | the 16-bit comparison is the order of the unwrapped indices |
| Reorder.UnwrapExactly | internal/raop/reorder.go:64-70 | an index is recovered from its 16 bits if and only if it lies within half the sequence space |
| Sequencing.PushKeeps | internal/raop/reorder.go:76-106 | every push keeps: held packets ahead of next and at most 64; next not held; emitted indices increasing; emitted + lost = next - first; pushes = late + emitted + held + overwritten; requests in order |
| Sequencing.PushEmits | internal/raop/reorder.go:98-105 | what was emitted is never taken back |
| Sequencing.AskDiscipline | internal/raop/reorder.go:113-126 | a push asks at most once, for 1..64 positions up to just before the arriving packet, starting at one neither held nor emitted |
| Reorder.Resequencer.DrainReady | internal/raop/reorder.go:129-140 | removes the whole consecutive run and returns it in order |
| Reorder.Resequencer.Nearest | internal/raop/reorder.go:147-157 | finds the nearest held packet in whatever order the map is walked |
| Reorder.Resequencer.SkipToNextPending | internal/raop/reorder.go:143-163 | moves to the least held index and counts exactly the positions passed |
| Reorder.Resequencer.RequestMissing | internal/raop/reorder.go:113-126 | the callback gets the unbounded machine's request modulo 2^16 |
| Reorder.Resequencer.Push | internal/raop/reorder.go:76-106 | one push of the 16-bit object is one push of the unbounded machine at the nearest index; it returns what that emitted |
| Reorder.Resequencer.OnMissing | internal/raop/rtp.go:64-68 | installs or removes the callback and changes nothing else |
| Reorder.Resequencer.Reset | internal/raop/reorder.go:167-172 | back to a blank machine, with the callback and the memory of the last request |
| Reorder.NearestIsLeast | internal/raop/reorder.go:147-162 | the nearest 16-bit key is the least index |
| Resends.RequestsExactly | internal/raop/reorder.go:113-126 | when a push asks, and exactly when all it asks for is missing |
| Resends.RequestMayCoverHeld | internal/raop/reorder.go:108-126 | a run in which a request covers a held packet |
| Resends.WideGapUnasked | internal/raop/reorder.go:120-123 | a run whose gap is not asked about until a nearer packet arrives |
| Resends.RememberedGapUnasked | internal/raop/reorder.go:117-119 | a run of one lap after which the packet behind a gap of one asks nothing |
| Resets.FirstGapUnasked | internal/raop/reorder.go:165-172 | for every remembered request, a session whose first gap goes unasked after a reset and is asked about by a fresh object |
| Resets.ResetIsFreshExactly | internal/raop/reorder.go:165-172 | while the callback stays as it is, a reset object acts as a fresh one on every run if and only if none is set or nothing had been asked for |
| Resets.ResetIsFreshThroughout | internal/raop/reorder.go:165-172 | whatever callbacks are set later, it does so on every session if and only if nothing had been asked for |
| WireRuns.WireRunIsRun | internal/raop/reorder.go:64-106 | fed only 16-bit numbers, each within 32767 ahead and 32768 behind the one waited for, any run goes through the unbounded machine's states, late packets and skips included |
| WireRuns.OutOfReachIsMisread | internal/raop/reorder.go:64-70 | the first packet out of that reach, and no other, is given another index |
| WireLaws.PartsExactly | internal/raop/reorder.go:76-106 | from equal states the 16-bit and the unbounded machine stay equal exactly when the number leads to the index, or both it and where it leads are late |
| WireLaws.SimulatesExactly | internal/raop/reorder.go:64-106 | the two go through the same states if and only if that holds of every arrival |
| WireLaws.AcceptsOnWire | internal/raop/reorder.go:72-106 | of the 16-bit machine on such runs: the output is the packets that were not late, sorted, up to the first hole that 64 or fewer have overtaken, and the rest is held |
| WireLaws.KeptOnWire | internal/raop/reorder.go:96-140 | of the 16-bit machine: a packet that was not late is held until it is emitted in its place |
| WireLaws.LateOnWire | internal/raop/reorder.go:82-87 | of the 16-bit machine: a packet from the first on that arrives for the first time is late if and only if more than 64 others have overtaken it |
| WireLaws.RepairOnWire | internal/raop/reorder.go:3-15 | of the 16-bit machine: arrivals that permute consecutive numbers come out sorted with Lost = Late = 0, whatever they carry, if and only if none is overtaken by more than 64 others and none is out of reach |
| WireLaws.ReorderedOnWire | internal/raop/reorder.go:89-90 | of the 16-bit machine: Reordered is the number of arrivals ahead of the one waited for |
| WireLaws.FarIsLate | internal/raop/reorder.go:64-87 | the run 0, 40000: overtaken by none and late on the wire |
| WireRuns.FrontierIsInReach | internal/raop/reorder.go:64-106 | in bounded disorder the reach can be measured from the arrivals alone |
| Disorder.RunAccepts | internal/raop/reorder.go:72-106 | the unbounded machine's output after any run: the packets that were not late, sorted, up to the first hole that 64 or fewer have overtaken; the rest is held |
| Disorder.InTimeIsKept | internal/raop/reorder.go:96-140 | in the unbounded machine a packet that was not late is held until it is emitted, over any run |
| Disorder.LateExactly | internal/raop/reorder.go:82-87 | in the unbounded machine, over any run, a packet from the first on that arrives for the first time is late if and only if more than 64 others have overtaken it |
| Disorder.EmitsArrivedBelowFrontier | internal/raop/reorder.go:72-106 | in the unbounded machine, after any arrivals of bounded disorder, gaps and duplicates included, the output is the sorted arrivals below the first position still worth waiting for |
| Disorder.OrderInsensitive | internal/raop/reorder.go:72-106 | in the unbounded machine, two orders of bounded disorder of the same arrivals emit the same and hold the same |
| Disorder.FullRepair | internal/raop/reorder.go:3-15 | in the unbounded machine, arrivals that permute consecutive indices come out sorted with nothing lost or late if and only if none was overtaken by more than 64 others |
| Disorder.ReorderedCounts | internal/raop/reorder.go:89-90 | the unbounded machine counts in Reordered the arrivals ahead of the one waited for, over any run |
| Disorder.OvertakenExactly | internal/raop/reorder.go:51-52 | a packet that came in time had been overtaken exactly when something held lies beyond it |
| Disorder.ReorderedWithoutRepair | internal/raop/reorder.go:51-52 | a run with Reordered = 1 in which nothing was overtaken or put back |
| Disorder.SkipMirrors | internal/raop/reorder.go:100-104 | a skip passes only positions that more than 64 arrivals have overtaken |
| Cbc.XorByteUndo | internal/raop/rtp.go:189 | byte-wise exclusive or with the same byte twice is the identity |
| Cbc.XorByteShows | internal/raop/rtp.go:189 | a bit of the result is set exactly where the bits differ |
| Cbc.OpenIsDecrypted | internal/raop/rtp.go:181-192 | bit by bit: each whole-block byte is the deciphered byte xor the byte 16 places before it, or the IV's; the tail is as it was |
| Cbc.Decrypt | internal/raop/rtp.go:181-192 | a new buffer of that content; counted if and only if the payload has 16 bytes |
| Cbc.CryptBlocks | internal/raop/rtp.go:189 | block j is the deciphered block xor its predecessor, in place, nothing else touched |
| Cbc.OpenUndoesSeal | internal/raop/rtp.go:173-192 | decrypting undoes the sender's CBC for every cipher, IV and payload length |
| Cbc.DamageIsLocal | internal/raop/rtp.go:175-180 | a plaintext block depends on two ciphertext blocks only, and the tail on itself |
| Datagrams.RtpReads | internal/raop/rtp.go:103-150 | an RTP audio packet yields its number and payload, and so does any packet in a resend wrapper |
| Datagrams.PlayedIsSent | internal/raop/rtp.go:93-150 | a datagram is played as number and payload if and only if a sender forms it from them: a non-empty payload behind an RTP header of type 96, or behind any header in a wrapper of type 86 |
| Playout.OnlyAudioCounts | internal/raop/rtp.go:93-159 | only the audio among the datagrams, by number and payload, affects the state |
| Playout.PushPlays | internal/raop/rtp.go:153-157 | if everything held and pushed is within the model's scope, so is everything emitted |
| Playout.SumsJoin | internal/raop/rtp.go:152-158 | sound, errors and decryptions of consecutive releases add up |
| Playout.FirstErrorExactly | internal/raop/rtp.go:152-158 | an error is reported exactly if it is that of the first packet that has one |
| Playout.TalliesCount | internal/raop/rtp.go:161-191 | the tallies are the number of rejected packets and of packets of at least 16 bytes |
| Playout.FailingIsSilent | internal/raop/rtp.go:161-171 | a packet has an error exactly if its frame is rejected, and then it adds no sound |
| Playout.SoundIsOrderInsensitive | internal/raop/rtp.go:93-171 | same first packet, same later packets, any two orders of bounded disorder and within reach: the same PCM |
| Playout.SessionIsLossless | internal/raop/rtp.go:93-192 | from samples through encoder, cipher, RTP and disorder within bounds back to the same samples |
| Playout.UndisturbedIsLossless | internal/raop/rtp.go:93-192 | a recording of any length sent and received in order is heard as it was recorded, however often its numbers wrap |
| Playout.InOrderIsOrderly | internal/raop/reorder.go:64-70 | consecutive packets in order meet the disorder and reach bounds at every step |
| Packets.AudioDecoder.constructor | internal/raop/rtp.go:80-87 | a fresh session: nothing heard, nothing started, parts that do not overlap |
| Packets.NewAudioDecoder | internal/raop/rtp.go:72-88 | refuses a key of other than 16, 24 or 32 bytes, then an IV of other than 16, and nothing else |
| Packets.AudioDecoder.OnMissing | internal/raop/rtp.go:64-68 | installs the callback in the queue and keeps the session's invariant |
| Packets.AudioDecoder.DecodeOne | internal/raop/rtp.go:161-171 | appends a frame's samples to the ring, dropping the oldest, or counts one error and writes nothing |
| Packets.AudioDecoder.DecodeAll | internal/raop/rtp.go:152-158 | every released packet is decoded in order; the first error is returned, later ones do not hide it |
| Packets.AudioDecoder.Audio | internal/raop/rtp.go:140-159 | queues the payload and decodes exactly what that released |
| Packets.AudioDecoder.Packet | internal/raop/rtp.go:93-120 | keeps: the ring was written exactly the sound of the packets emitted, and the counters are their errors and decryptions; reports a short packet exactly below 12 bytes, or 16 for a wrapper; counts every other one |
| Packets.Listen | internal/raop/rtp.go:93-171 | a whole session writes the sound of its state, and the ring holds the last of it |
| Rings.Ring.WriteOne | internal/audio/ring.go:60-69 | one sample in, the oldest out when full |
| Rings.Ring.Write | internal/audio/ring.go:58-77 | leaves the last cap samples of contents and input, also for input longer than the ring, counts the dropped ones and leaves a token |
| Rings.Ring.Take | internal/audio/ring.go:80-92 | moves out the oldest samples in order and nothing else in the destination |
| Rings.Ring.ReadNow | internal/audio/ring.go:100-116 | what is there, then silence, and the silence is counted |
| Rings.Ring.Reset | internal/audio/ring.go:183-188 | empties the queue and clears the counters |
| Rings.Ring.WriteIndex | internal/audio/ring.go:62-67 | (r + n) mod cap = w |
| Rings.LastOfTwice | internal/audio/ring.go:52-69 | writing in pieces leaves what writing at once leaves |
| Rings.StepInOrder | internal/audio/ring.go:58-188 | no operation makes a read go back behind an earlier one |
| Rings.StepQueued | internal/audio/ring.go:52-116 | the indexed queue follows the drop-oldest rule |
| Rings.RunsConserve | internal/audio/ring.go:58-188 | over every run written = taken + dropped + buffered, and reads are an in-order subsequence of writes |
| Rings.Replay | internal/audio/ring.go:58-188 | any run of the object agrees with the queue, contents, counters and samples read |
| Wake.NeverParkedOnEnough | internal/audio/ring.go:71-164 | over every interleaving, a waiter parked beside samples added since its check has a token or a writer about to post one |
| Wake.ResultIsHonest | internal/audio/ring.go:147-164 | true means there was enough at the last check, false that there was not after the timer fired |
| Wake.GivesUpAfterTimer | internal/audio/ring.go:147-164 | over every interleaving, only the timer makes a waiter give up |
| Wake.WakesArePaid | internal/audio/ring.go:71-164 | over every interleaving, the waiter is woken at most once per token posted |
| Pacer.World.Await | internal/audio/ring.go:154-163 | the wait ends with a token or at the deadline; a world that is never late wakes it at the instant of the write |
| Pacer.World.WaitFor | internal/audio/ring.go:147-164 | true if and only if enough is buffered; at once if it is already there; where nothing is late, else at the instant of the write that sufficed or exactly when the timer fires |
| Pacer.World.FillStartup | internal/audio/wav.go:109-133 | startup sends only silence, each chunk no earlier than its deadline (exactly then where nothing is late), and takes nothing from the ring; it stops as soon as the reserve is there or has been sent, and the deadline it reaches is a chunk per chunk sent after its start |
| Pacer.World.PrepareChunk | internal/audio/wav.go:136-148 | a chunk is as much as the ring held, the oldest consecutive samples of what was written, then silence; before its deadline it is taken only if the reserve is left, and where nothing is late it is taken as soon as that is so |
| Pacer.World.SendChunk | internal/audio/wav.go:135-161 | one iteration takes one chunk, sends exactly that, and leaves the next deadline's base where it is unless the write came back more than a chunk late |
| Pacer.World.Resynchronise | internal/audio/wav.go:157-161 | the base stays unless the look at the clock is more than a chunk past it; then it is the time of a second look |
| Pacer.World.StreamPCM | internal/audio/wav.go:87-163 | the bytes sent are silence and then the little-endian chunks of a paced trace; the audio in each is consecutive samples of what was written to the ring, in order over the trace, and only a chunk whose write failed is taken and not sent; where nothing is late, a surplus above the reserve goes out at once |
| Pacer.LittleEndianReads | internal/audio/wav.go:150-152 | the bytes on the wire determine the samples |
| Pacer.RateIsExact | internal/audio/wav.go:97-109 | deadlines advance by exactly a chunk each if and only if no write falls a whole chunk behind, and then lateness does not add up |
| Pacer.StarvedRateIsExact | internal/audio/rate_test.go:13-58 | padded chunks taken when due are exactly as far apart as the chunks between them last |
| Pacer.PaddingIsPaced | internal/audio/wav.go:135-161 | if the k-th chunk after a write is padded it goes out no earlier than k - 1 chunk durations after that write, across resynchronisation |
| Window.GapBlocks | internal/raop/reorder.go:98-104 | after a gap nothing comes out while at most 64 packets are held |
| Window.GapReleases | internal/raop/reorder.go:100-104 | the 65th gives the gap up: all 65 come out and the gap is counted lost |
| Window.SuppliedAtRelease | internal/raop/reorder.go:100-104 | that happens once g + 65 packet intervals have passed since the gap of g opened |
| Window.NoPadBeforeRelease | internal/audio/wav.go:56-73 | on a prompt trace of StreamPCM that meets a gap of up to 22 packets with the reserve in the ring, no chunk is padded before the release |
| Window.StreamIsSafe | internal/audio/wav.go:87-163 | every trace that StreamPCM produces is safe in this sense, whatever the environment does |
| Window.SafeExactly | internal/raop/window_test.go:16-27 | what StreamPCM promises of its trace makes gaps of g packets safe if and only if g is at most 22 |
| Window.StreamStarves | internal/raop/window_test.go:16-27 | a run of StreamPCM on which gaps of 23 packets or more are not |

## Left out

- RTSP, SDP, RSA, Apple-Challenge, mDNS, SSDP, SOAP and the HTTP server: I/O, foreign libraries and flat parsing.
- The receiver and bridge session lifecycle (`internal/raop/rtsp.go`, `internal/bridge/bridge.go`), control-port resends (`internal/raop/resend.go`) and volume.
- AES: any block function stands for it, with an inverse where a round trip needs one; of a key only the length is looked at.
- Wall-clock scheduling: the clock only moves forward, timers never fire early, and other goroutines may run wherever the writer waits or writes.
- Go's memory model: locked sections are single steps. The wake token's interleavings are modelled in `Wake`; the RTP path's mutex makes each packet one step.
- The receive buffer that the RTP reader reuses: a datagram is a value here, so the copy that `audio` makes is not seen.
- `peek`, `Stats`, `Timestamp`, `WAVHeader`: easy members.
- Packets.AudioDecoder.Packet: requires that every audio payload is in the model's scope (`Plays`), see the next lines.
- AlacDecoder.Decoder.Decode: requires a frame that is in scope: no mono element and no second element that succeeds (AirPlay sends one pair per frame), and no compressed element of zero samples (the predictor needs one, predictor.go:29). Frames that end in an error are all in scope, whatever their elements.
- AlacDecoder.Decoder.MonoBody: a mono element is followed only to the error of its residuals, because a successful one is out of scope.
- Residuals.DynDecomp: assumes pb <= 127 and kb >= 8, which PB <= 72 and KB >= 8 in the cookie guarantee (AirPlay sends 40 and 14); of other parameters nothing is claimed. The 31-bit cap on maxSize is met by every call.
- Predictor.Lockstep: samples must fit chanbits, as the encoder's do; `Predictor.DecodedRange` says which decoded samples do.
- FrameRoundTrip.FrameLossless: where low bytes are sent aside the samples are what is left without them, because at 16 bits the decoder does not put them back; frames of several elements have no encoder here.
- WireRuns.WireRunIsRun: assumes that no packet is out of reach; `WireRuns.OutOfReachIsMisread` shows that the code gives the first one that is another index.
- Rings.Ring.ReadNow: `Read` with a positive wait is not modelled; the writer only calls it with none.
- Rings.Ring.Write: lengths and counters are unbounded; Go's are 64-bit.
- Wake.NeverParkedOnEnough: of one waiter, as the stream has; of two nothing is claimed.
- AlacDecoder.Decoder.constructor: NumChannels is 2, and so the output stride, as AirPlay sends it.
- Window.NoPadBeforeRelease: the environment is assumed to deliver one packet per 352 sample periods exactly, with no other loss until the release, and to let the writer take each chunk by its deadline; the writer's own part is what `Pacer.World.StreamPCM` ensures.
- Pacer.World.StreamPCM: assumes no concurrent Reset and no second consumer, and ends with the connection; a stream that never fails has no last state to describe. A world has a `pace`: `Free`, where anything may be late; `Exact`, where nothing is late and the ring is written only while the writer waits; `Idle`, where no one writes to it at all. Claims of an exact time are made of the last two, all others of every world.
